# SBC simulator core in Dafny

This project models the calculation core of a FIFA/FC Squad Building Challenge
(SBC) simulator.

- **Inventory.** The player's cards are held as an inventory: a map from a
  rating to the number of cards at that rating.
- **SBC.** An SBC asks for a number of eleven-card squads, each rating at least
  a required value.
- **Squad rating.** The rating follows the game's formula: the sum of the
  ratings, plus every card's excess over the average, divided by eleven and
  rounded down.

The model covers:

- **The rating engine** (`app/utils/ratingCalculator.ts`):
  - the squad rating (`TeamRatings`);
  - the conversions between an inventory and a list of ratings (`Inventories`);
  - the exhaustive search for the cheapest qualifying squad (`EconomicalFinder`);
  - the round-by-round formation of several squads, and the SBC completion built
    on it (`SquadFormation`);
  - the greedy search `findEconomicalTeamRating` (`GreedyRefinement`);
  - the refinement pass `findOptimalCombinations` (`OptimalCombinations`).
- **The context of the application** (`app/context/SbcContext.tsx`):
  - `runSimulation`, which forms the squads of an SBC one at a time with one of
    three algorithms (`Simulation`);
  - the state updaters for the player list, the inventory, the custom SBC and
    the list of predefined SBCs (`SbcContext`).

How the source becomes Dafny:

- The pure parts are functions.
- Every loop of the source is a method with invariants, proved equal to the
  function that specifies it.
- The in-place work of `findEconomicalTeamRating` is done on an eleven-slot
  `array`.
- A React state update is a function from the old value to the new one.

Conventions:

- Ratings and inventory keys are integers.
- The order in which `Object.entries` lists an inventory is ascending by rating,
  as JavaScript orders integer-like keys.
- A JavaScript number that may be `NaN` is `Number = NaN | Num(value)`.
- The clock (`Date.now()`) and `Math.random()` become parameters: `stamp` and
  `nonce`.

## Model

| member | source | states |
|---|---|---|
| TeamRatings.CalculateTeamRating | app/utils/ratingCalculator.ts:11-36 | fails exactly when the squad does not have eleven cards; otherwise gives floor((sum + Σ max(0, r − sum/11)) / 11), computed over the reals |
| TeamRatings.RatingMatchesRealFormula | app/utils/ratingCalculator.ts:18-35 | the scaled-integer rating (11·sum + Σ max(0, 11r − sum)) / 121 equals the real-valued formula |
| TeamRatings.SurplusNonNegative | app/utils/ratingCalculator.ts:23-29 | the summed excess over the average is never negative |
| TeamRatings.RatingPermutation | app/utils/ratingCalculator.ts:18-35 | the rating depends only on the multiset of cards, not on their order |
| TeamRatings.UniformSquadRating | app/utils/ratingCalculator.ts:18-35 | eleven cards of rating v rate exactly v |
| TeamRatings.RatingAtLeastAverage | app/utils/ratingCalculator.ts:18-35 | every squad rates at least floor(sum / 11) |
| TeamRatings.RatingBetweenWorstAndBest | app/utils/ratingCalculator.ts:18-35 | a squad rates between its lowest and its highest card |
| TeamRatings.RaisingOneCardNeverLowersRating | app/utils/ratingCalculator.ts:18-35 | raising one card's rating never lowers the squad rating |
| TeamRatings.RatingMonotone | app/utils/ratingCalculator.ts:18-35 | a squad that is at least as high slot by slot rates at least as high |
| Seqs.Sort | app/utils/ratingCalculator.ts:160 | the ascending sort returns a sorted permutation of its input |
| Seqs.SortIsUnique | app/utils/ratingCalculator.ts:160 | any sorted permutation of a list is its sort, so sorting is determined by the multiset |
| Seqs.IndexOf | app/utils/ratingCalculator.ts:198 | `indexOf` is −1 exactly when the value is absent; otherwise it is the first position holding it |
| Seqs.RemoveAllMultiset | app/utils/ratingCalculator.ts:197-202 | splicing each card of a squad out at its first position takes exactly the squad's multiset out of the pool |
| Seqs.Repeat | app/utils/ratingCalculator.ts:58-60 | pushing a rating `count` times gives max(count, 0) copies of it |
| Inventories.Tally | app/utils/ratingCalculator.ts:420-432 | the inventory of a list has a key exactly for each rating in the list, with the number of times it occurs |
| Inventories.ConvertToInventory | app/utils/ratingCalculator.ts:420-432 | the counting loop builds that inventory |
| Inventories.InventoryToRatings | app/utils/ratingCalculator.ts:112-119 | the expansion loop lists each rating as many times as its count, and ratings with a count of zero or less not at all |
| Inventories.EntriesSpec | app/utils/ratingCalculator.ts:114 | the entries of an inventory are its keys, each once, ascending, with their counts |
| Inventories.FlattenCounts | app/utils/ratingCalculator.ts:112-119 | the expanded list holds each rating as many times as its positive count |
| Inventories.TallyFlatten | app/utils/ratingCalculator.ts:420-432 | converting the expanded list back gives the inventory without its keys of count zero or less |
| Inventories.FlattenTally | app/utils/ratingCalculator.ts:138 | expanding the inventory of a list gives back the list's multiset |
| Inventories.AddCardsCounts | app/utils/ratingCalculator.ts:469-475 | adding a squad's cards raises each rating's count by its number of cards in the squad and adds no other key |
| Inventories.TakeCardsCounts | app/utils/ratingCalculator.ts:493-499 | taking cards out lowers each count by the cards taken, deleting a key that reaches zero or less |
| Inventories.PutBackMultiset | app/utils/ratingCalculator.ts:469-475 | the cards of the inventory after a put-back are the old cards plus the squad |
| Inventories.TakeOutMultiset | app/utils/ratingCalculator.ts:493-499 | taking out cards the inventory holds leaves exactly the rest |
| Inventories.TakeOutNeverAdds | app/utils/ratingCalculator.ts:493-499 | taking cards out never adds cards, even cards the inventory does not hold |
| EconomicalFinder.GroupRatingsByValue | app/utils/ratingCalculator.ts:81-97 | the groups list each rating of the pool once, ascending, with its number of cards, and expand back to the pool |
| EconomicalFinder.GroupsSpec | app/utils/ratingCalculator.ts:81-97 | the grouping function has those properties |
| EconomicalFinder.TakeFromFirstCards | app/utils/ratingCalculator.ts:288-292 | using one card of the first group leaves the groups holding every card but that one |
| EconomicalFinder.Cheaper | app/utils/ratingCalculator.ts:304-329 | the choice is one of the two candidates, with a sum no greater than either; on a tie it keeps the squad that took the card |
| EconomicalFinder.FindBestCombination | app/utils/ratingCalculator.ts:248-335 | a result has eleven cards and extends the squad started so far |
| EconomicalFinder.FindBestReachesTarget | app/utils/ratingCalculator.ts:256-259 | a result rates at least the target |
| EconomicalFinder.FindBestWithinGroups | app/utils/ratingCalculator.ts:288-320 | a result uses only the cards started with and the cards of the groups |
| EconomicalFinder.FindBestIsCheapest | app/utils/ratingCalculator.ts:284-334 | whenever some completion from the groups reaches the target, the search finds a squad whose sum is no greater |
| EconomicalFinder.FindBestSorted | app/utils/ratingCalculator.ts:288-320 | from ascending groups the squad found is sorted |
| EconomicalFinder.NoPickFromFewCards | app/utils/ratingCalculator.ts:220-222 | a pool of fewer than eleven cards holds no eleven-card squad |
| EconomicalFinder.FindMostEconomicalTeam | app/utils/ratingCalculator.ts:215-242 | no squad from fewer than eleven cards; a squad found has eleven cards |
| EconomicalFinder.MostEconomicalIsPick | app/utils/ratingCalculator.ts:215-242 | a squad found is an eleven-card sub-multiset of the pool reaching the target |
| EconomicalFinder.MostEconomicalIsCheapest | app/utils/ratingCalculator.ts:215-242 | for every qualifying squad of the pool, a squad is found and its sum is no greater |
| EconomicalFinder.MostEconomicalNoneIff | app/utils/ratingCalculator.ts:215-242 | nothing is found exactly when no eleven-card squad of the pool reaches the target |
| EconomicalFinder.MostEconomicalSorted | app/utils/ratingCalculator.ts:233-236 | the squad found is sorted ascending |
| GreedyRefinement.FindEconomicalTeamRating | app/utils/ratingCalculator.ts:341-415 | the in-place array version computes the greedy search as written |
| GreedyRefinement.SortTeam | app/utils/ratingCalculator.ts:379 | the in-place sort leaves the array holding the sort of its old contents |
| GreedyRefinement.UpwardPass | app/utils/ratingCalculator.ts:364-380 | the `while` loop leaves the array as the upward pass as written, and the rating it returns is that array's rating |
| GreedyRefinement.DownwardPass | app/utils/ratingCalculator.ts:389-412 | the outer loop leaves the array as the downward pass from slot 10 to slot 0 |
| GreedyRefinement.TryLowerSlot | app/utils/ratingCalculator.ts:390-411 | the inner loop sets the slot to the first card of the pool that is lower than the original, not 0, and whose rating is not already in the squad, and that keeps the target; if none keeps it, the slot is restored |
| GreedyRefinement.UpAsWritten | app/utils/ratingCalculator.ts:364-380 | the upward pass keeps eleven slots |
| GreedyRefinement.UpCorrected | app/utils/ratingCalculator.ts:364-380 | the corrected upward pass keeps eleven slots |
| GreedyRefinement.DownSlot | app/utils/ratingCalculator.ts:390-411 | trying lower cards in one slot keeps eleven slots |
| GreedyRefinement.DownPass | app/utils/ratingCalculator.ts:389-412 | the downward pass keeps eleven slots |
| GreedyRefinement.UpAsWrittenSpec | app/utils/ratingCalculator.ts:364-380 | the upward pass takes its cards from the pool: each replacement is the next unused card of the sorted pool |
| GreedyRefinement.DownSlotSpec | app/utils/ratingCalculator.ts:390-411 | lowering one slot keeps the squad within the pool, keeps the target and raises no slot |
| GreedyRefinement.DownPassSpec | app/utils/ratingCalculator.ts:389-412 | the downward pass never drops the rating below the target, keeps the squad within the pool and raises no slot |
| GreedyRefinement.UpThenDown | app/utils/ratingCalculator.ts:364-412 | once the upward pass reaches the target, the downward pass returns a squad of the pool that still reaches it |
| GreedyRefinement.GreedyIsPick | app/utils/ratingCalculator.ts:341-415 | a squad returned has eleven cards of the pool and rates at least the target |
| GreedyRefinement.GreedyNone | app/utils/ratingCalculator.ts:346-385 | nothing is returned from fewer than eleven cards or when no squad of the pool reaches the target |
| GreedyRefinement.GreedyOrderFree | app/utils/ratingCalculator.ts:351 | the result depends only on the multiset of the pool, since the pool is sorted first |
| GreedyRefinement.UniformGreedy | app/utils/ratingCalculator.ts:353-360 | from a pool of one rating v, with target v, the eleven lowest cards are returned |
| GreedyRefinement.GreedyMisses | app/utils/ratingCalculator.ts:364-378 | on two 10s and eleven 90s with target 90, the search as written returns nothing although eleven 90s qualify, and the corrected search finds a squad |
| GreedyRefinement.UpCorrectedWindow | app/utils/ratingCalculator.ts:364-378 | replacing the lowest card each time slides an eleven-card window up the sorted pool, ending at the eleven highest cards when the target is missed |
| GreedyRefinement.TopElevenBest | app/utils/ratingCalculator.ts:364-378 | no eleven cards of the pool rate higher than its eleven highest cards |
| GreedyRefinement.CorrectedUpThenDown | app/utils/ratingCalculator.ts:364-412 | the corrected upward pass stays within the pool; when it misses the target it holds the eleven highest cards; when it reaches it, the downward pass keeps the target |
| GreedyRefinement.CorrectedIsPick | app/utils/ratingCalculator.ts:341-415 | a squad returned by the corrected search has eleven cards of the pool and reaches the target |
| GreedyRefinement.CorrectedNoneIff | app/utils/ratingCalculator.ts:341-415 | the corrected search returns nothing exactly when no eleven-card squad of the pool reaches the target |
| SquadFormation.FormOptimalSquads | app/utils/ratingCalculator.ts:150-210 | sorting once and playing the rounds computes the formation function |
| SquadFormation.PlayRounds | app/utils/ratingCalculator.ts:171-203 | the `for` loop over the rounds computes the formation from the sorted pool |
| SquadFormation.PlayRound | app/utils/ratingCalculator.ts:172-202 | a round that stops leaves the state as it was, with the outcome failure; a round that goes on leaves the same outcome to the rounds still to play |
| SquadFormation.SpliceOut | app/utils/ratingCalculator.ts:197-202 | the splicing loop removes each card of the squad at its first position |
| SquadFormation.EconomicalSearchSpec | app/utils/ratingCalculator.ts:182 | the search used returns only qualifying squads from the pool, and it finds one whenever the pool has one |
| SquadFormation.RoundPick | app/utils/ratingCalculator.ts:182-202 | the squad of a round qualifies, and the cards left are the pool minus that squad |
| SquadFormation.FormFromQualifies | app/utils/ratingCalculator.ts:167-209 | every squad formed qualifies, and the squads formed before are kept as a prefix |
| SquadFormation.FormFromConserves | app/utils/ratingCalculator.ts:167-209 | the squads formed plus the cards left are exactly the cards started with |
| SquadFormation.FormFromCount | app/utils/ratingCalculator.ts:171-209 | at most the squads asked for are formed, and success holds exactly when all of them are |
| SquadFormation.FormFromFailure | app/utils/ratingCalculator.ts:173-191 | on failure, no qualifying squad is left in the remaining cards |
| SquadFormation.OptimalSquadsSpec | app/utils/ratingCalculator.ts:150-210 | every squad qualifies; squads plus remaining cards equal the pool; success exactly when all the squads were formed; on failure no qualifying squad remains |
| SquadFormation.SimulateSbcCompletion | app/utils/ratingCalculator.ts:102-145 | the method computes the completion function |
| SquadFormation.CanCompleteSbc | app/utils/ratingCalculator.ts:48-76 | the verdict is the completion's `possible` |
| SquadFormation.CompletionInsufficientPool | app/utils/ratingCalculator.ts:122-128 | a pool smaller than eleven times the squads asked for gives `possible = false`, no squads and the input inventory unchanged |
| SquadFormation.CompletionSpec | app/utils/ratingCalculator.ts:102-145 | every squad qualifies; squads plus remaining cards equal the inventory's cards; `possible` exactly when all the squads were formed |
| SquadFormation.CompletionRemainingPositive | app/utils/ratingCalculator.ts:137-138 | past the size guard, no key of the remaining inventory has a count below one |
| OptimalCombinations.FindOptimalCombinations | app/utils/ratingCalculator.ts:438-511 | the method computes `findOptimalCombinations` as written |
| OptimalCombinations.RefineSquads | app/utils/ratingCalculator.ts:467-504 | the loop over the squads computes the refinement as written |
| OptimalCombinations.RevisitSquad | app/utils/ratingCalculator.ts:468-503 | one pass puts the squad back in a copy, searches the copy, and on success takes the new squad out of the cards left |
| OptimalCombinations.PutBack | app/utils/ratingCalculator.ts:469-475 | the copied inventory gets one more card per card of the squad |
| OptimalCombinations.TakeOut | app/utils/ratingCalculator.ts:493-499 | each card lowers its count and a key at zero or less is deleted |
| OptimalCombinations.RefineShape | app/utils/ratingCalculator.ts:464-510 | the refinement succeeds, with one squad pushed per squad revisited, after the ones already pushed |
| OptimalCombinations.AsWrittenKeepsQualifying | app/utils/ratingCalculator.ts:486-503 | as written, every squad pushed qualifies, whether new or the original |
| OptimalCombinations.CorrectedKeepsQualifying | app/utils/ratingCalculator.ts:486-503 | corrected, every squad pushed qualifies |
| OptimalCombinations.CorrectedAlwaysRefines | app/utils/ratingCalculator.ts:487 | once a qualifying squad is put back, the corrected greedy search always finds a squad |
| OptimalCombinations.StepCorrectedConserves | app/utils/ratingCalculator.ts:468-503 | a corrected pass keeps every card: squad pushed plus cards left equals squad revisited plus cards before |
| OptimalCombinations.RefineCorrectedConserves | app/utils/ratingCalculator.ts:467-504 | the corrected loop keeps every card |
| OptimalCombinations.RefineCorrectedSpec | app/utils/ratingCalculator.ts:464-510 | the corrected loop pushes as many qualifying squads as it revisits and keeps every card |
| OptimalCombinations.OptimalCombinationsSpec | app/utils/ratingCalculator.ts:438-511 | corrected: success is the simulation's verdict; on success every squad asked for is formed; on failure the simulation's result is returned; every squad qualifies; squads plus remaining cards equal the inventory's cards |
| OptimalCombinations.OptimalCombinationsAsWrittenSquads | app/utils/ratingCalculator.ts:438-511 | as written, the verdict and the number and quality of the squads are still those of the simulation |
| OptimalCombinations.StepAsWrittenTakes | app/utils/ratingCalculator.ts:468-503 | a pass as written never adds cards: squad pushed plus cards left are at most squad revisited plus cards before |
| OptimalCombinations.RefineAsWrittenTakes | app/utils/ratingCalculator.ts:467-504 | the loop as written never adds cards |
| OptimalCombinations.OptimalCombinationsAsWrittenTakes | app/utils/ratingCalculator.ts:438-511 | as written, the squads plus the remaining cards are at most the inventory's cards |
| OptimalCombinations.UniformSquads | app/utils/ratingCalculator.ts:150-210 | from a pool of 22 cards of rating v, forming one squad of target v gives eleven v cards and leaves eleven |
| OptimalCombinations.UniformCompletion | app/utils/ratingCalculator.ts:448-452 | from an inventory holding 22 cards of rating v, the simulation of one squad of target v forms eleven v cards and leaves eleven |
| OptimalCombinations.UniformElevenCompletion | app/utils/ratingCalculator.ts:102-145 | from an inventory holding 11 cards of rating v, the simulation of one squad of target v succeeds |
| OptimalCombinations.AsWrittenLosesCards | app/utils/ratingCalculator.ts:493-499 | from 22 cards of one rating v with target v, the code as written accounts for only 11 cards, while the corrected version keeps all 22 |
| OptimalCombinations.AsWrittenLosesCardsExample | app/utils/ratingCalculator.ts:493-499 | concretely, for `{90: 22}`, target 90 and one squad the cards accounted for drop from 22 to 11 |
| OptimalCombinations.CorrectedKeepsCardsOn | app/utils/ratingCalculator.ts:493-499 | on that inventory the corrected refinement accounts for all 22 cards |
| Simulation.ParseAlgorithm | app/context/SbcContext.tsx:585-629 | `"economic"` and `"ultra_economic"` pick their branch, and every other name picks the standard one |
| Simulation.RunSimulation | app/context/SbcContext.tsx:564-658 | the nested loops compute the simulation function, whose `"economic"` branch is `findOptimalCombinations` as written |
| Simulation.FormRequirement | app/context/SbcContext.tsx:581-642 | the inner loop forms `count` squads of one requirement and leaves the rest of the run unchanged on success, or yields the final failed run |
| Simulation.CountTeams | app/context/SbcContext.tsx:571-576 | `totalTeams` is the sum of the requirements' counts |
| Simulation.ResumeStep | app/context/SbcContext.tsx:632-641 | a successful attempt appends its squads and moves to its remaining inventory; a failed one ends the run with the inventory it was given |
| Simulation.TargetsCount | app/context/SbcContext.tsx:571-581 | the loops attempt at least `totalTeams` squads, and exactly that many when no count is negative |
| Simulation.CompletionOfOne | app/context/SbcContext.tsx:625-628 | on success the standard branch gives one qualifying squad, and the squad plus the cards left are exactly the inventory's cards |
| Simulation.SortedOfOne | app/context/SbcContext.tsx:610-620 | sorting the squad of a successful result keeps it qualifying and keeps every card |
| Simulation.CombinationsOfOne | app/context/SbcContext.tsx:586-599 | on success the economic branch, `findOptimalCombinations` as written, gives one qualifying squad, and the squad plus the cards left are at most the inventory's cards |
| Simulation.AttemptSpec | app/context/SbcContext.tsx:585-629 | every branch gives, on success, exactly one squad reaching the rating, drawn with the cards left from the inventory; every branch but `"economic"` keeps every card |
| Simulation.AttemptsAreSound | app/context/SbcContext.tsx:585-629 | both promises hold for every inventory and rating, the exact one for every algorithm but `"economic"` |
| Simulation.RunLength | app/context/SbcContext.tsx:632-648 | the run forms at most one squad per target; it succeeds exactly when it forms one for every target; on failure the next target cannot be formed from the inventory left |
| Simulation.RunQualifies | app/context/SbcContext.tsx:632-636 | the i-th squad reaches the i-th target |
| Simulation.RunTakes | app/context/SbcContext.tsx:632-641 | the squads plus the final inventory are at most the cards of the starting inventory |
| Simulation.RunConserves | app/context/SbcContext.tsx:632-641 | when every attempt keeps every card, the squads plus the final inventory hold exactly the cards of the starting inventory |
| Simulation.SimulationOutcome | app/context/SbcContext.tsx:564-658 | `totalTeams` is the sum of the counts whatever the outcome; `completedTeams` is the number of squads; `possible` exactly when every target was formed; on failure the next target cannot be formed from `remainingPlayers`; each squad qualifies; the squads plus `remainingPlayers` are at most the inventory's cards, and exactly them for every algorithm but `"economic"` |
| Simulation.SimulationComplete | app/context/SbcContext.tsx:571-657 | with no negative count, `possible` holds exactly when `completedTeams == totalTeams` |
| Simulation.UltraRun | app/context/SbcContext.tsx:600-628 | the ultra-economic run is the standard run with each squad sorted |
| Simulation.EconomicRunStopsEarly | app/context/SbcContext.tsx:586-599 | two squads of 90 from `{90: 22}`: `"standard"` forms both, `"economic"` stops after one with `completedTeams` 1 of 2 |
| Simulation.UltraEconomicMatchesStandard | app/context/SbcContext.tsx:600-628 | ultra-economic and standard agree on the verdict, the counts and the remaining inventory, and each squad has the same cards, sorted ascending |
| SbcContext.UpdateInventoryFromPlayers | app/context/SbcContext.tsx:308-320 | the loop computes the count of the non-excluded players |
| SbcContext.CountPlayersSpec | app/context/SbcContext.tsx:308-320 | each rating's count is the number of non-excluded players with that rating, and a key exists only when that number is positive |
| SbcContext.TallyOfCounts | app/context/SbcContext.tsx:308-320 | an inventory with positive counts that agrees count by count with a list is that list's inventory |
| SbcContext.AddPlayers | app/context/SbcContext.tsx:323-351 | the push loop computes the state the update leaves |
| SbcContext.AddPlayersSpec | app/context/SbcContext.tsx:323-351 | NaN or a count ≤ 0 changes nothing; otherwise `count` players of the rating are appended, not excluded, and the rating's count goes up by `count` with the other counts unchanged |
| SbcContext.AddPlayersAgrees | app/context/SbcContext.tsx:323-351 | an inventory that counts the non-excluded players still does so after the update |
| SbcContext.RemovePlayersInventory | app/context/SbcContext.tsx:354-400 | nothing changes on an invalid request or when no player matches; otherwise min(count, matching players) are removed, the count drops by that much but not below zero, the key goes at zero, and other keys are unchanged |
| SbcContext.RemovePlayersRemoves | app/context/SbcContext.tsx:360-378 | with distinct ids, exactly that many players leave, all of the requested rating and not excluded |
| SbcContext.RemovePlayersAgrees | app/context/SbcContext.tsx:354-400 | with distinct ids, an inventory that counts the non-excluded players still does so after the removal |
| SbcContext.ResetSpec | app/context/SbcContext.tsx:403-407 | the reset leaves no players and no cards, and the two agree |
| SbcContext.ImportPlayersFromCsv | app/context/SbcContext.tsx:410-440 | the method computes the import |
| SbcContext.CountInRange | app/context/SbcContext.tsx:431-438 | the `forEach` adds one card per imported rating between 75 and 99 |
| SbcContext.ImportSpec | app/context/SbcContext.tsx:410-440 | every imported player is appended, not excluded, with its name and rating; only ratings from 75 to 99 raise their counts, by the number imported |
| SbcContext.ImportAgrees | app/context/SbcContext.tsx:410-440 | when every imported rating is between 75 and 99, the inventory still counts the non-excluded players |
| SbcContext.ImportOutOfRangeDisagrees | app/context/SbcContext.tsx:431-438 | one imported rating out of range leaves a player the inventory does not count |
| SbcContext.ToggleSpec | app/context/SbcContext.tsx:443-455 | only the players with the given id flip their flag; nothing else about a player changes; the inventory is recounted to agree with the players |
| SbcContext.ToggleTwice | app/context/SbcContext.tsx:443-455 | from a state whose inventory agrees with the players, toggling the same id twice gives back the same players and inventory |
| SbcContext.SpliceOneSpec | app/context/SbcContext.tsx:519 | `splice(index, 1)` removes the element at an index inside the list and nothing past its end |
| SbcContext.AddTeamSpec | app/context/SbcContext.tsx:497-508 | a team is appended exactly when the rating and count are numbers and the count is positive; otherwise nothing changes |
| SbcContext.RemoveTeamSpec | app/context/SbcContext.tsx:511-526 | the last team is never removed; otherwise one team is spliced out at the index |
| SbcContext.AddThenRemoveTeam | app/context/SbcContext.tsx:497-526 | removing the team just added restores the SBC |
| SbcContext.UpdateTeamSpec | app/context/SbcContext.tsx:529-551 | an invalid request or an index out of range changes nothing; otherwise only the team at the index is replaced |
| SbcContext.ToggleModeSpec | app/context/SbcContext.tsx:554-561 | only `isComplex` flips, and flipping twice restores the SBC |
| SbcContext.AddCustomSbcSpec | app/context/SbcContext.tsx:661-686 | the SBC is appended exactly when its name is non-empty and it has at least one team, each with rating and count above zero; otherwise the list is unchanged |
| SbcContext.RemovePredefinedSpec | app/context/SbcContext.tsx:689-713 | an index below 4 or past the end changes nothing; otherwise exactly the element at the index is removed |
| SbcContext.DefaultsSurviveRemoval | app/context/SbcContext.tsx:689-713 | the four default SBCs at the head of the list survive every removal |
| SbcContext.EditPredefinedSpec | app/context/SbcContext.tsx:716-731 | the SBC lands at the index, appended when the index is the length; every other element is unchanged |
| SbcContext.DefaultsAreAddable | app/context/SbcContext.tsx:108-138 | the four default SBCs pass the guard of `addCustomSbcToPredefined` |

## Left out

- Persistence: reading and writing localStorage and JSON (app/context/SbcContext.tsx:169-305, and the `setItem` calls inside the list updaters). This is I/O.
- `updateCustomSbc` (app/context/SbcContext.tsx:458-494) is not modelled. It merges a partial record and converts the legacy single-squad format, and it is not one of the updaters modelled here.
- React state: `setState` batching and asynchrony, and the `simulationResult` that `resetInventory` clears. Each updater is modelled as one function from the old state to the new one.
- Player ids built with `Date.now()` and `Math.random()` become constructor values (`Manual`, `Imported`) built from the parameters `stamp` and `nonce`. The text form of the ids is not modelled.
- CSV parsing happens before `importPlayersFromCsv`. It receives entries that are already parsed.
- `combinationsCache` and the memo `Map` of the exhaustive search are not modelled. They cache results and do not change them.
- Floating point: the rating is computed exactly. Scaled integers are proved equal to the real-valued formula, and the rounding of IEEE doubles is not modelled.
- Numbers: inventory keys and ratings are integers. A fractional rating or count, a key that is not integer-like, and the insertion order JavaScript uses for negative keys are not modelled.
- Simulation.SimulationOutcome: for `"economic"` it promises only that the squads and the cards left are some of the inventory's cards, not all of them. The refinement as written loses cards (see Findings), and `Simulation.EconomicRunStopsEarly` shows a run that fails because of it.
- Simulation.SimulationComplete: assumes no requirement has a negative count. With a negative count, `totalTeams` is lower than the number of squads the loops attempt.
- SbcContext.RemovePlayersRemoves: assumes the players' ids are distinct. `Date.now()` does not guarantee that, and with a repeated id `filter` removes every player carrying it.
- SbcContext.RemovePlayersAgrees: assumes distinct ids, for the same reason.
- SbcContext.ImportAgrees: proved only for imports whose ratings are all between 75 and 99. `SbcContext.ImportOutOfRangeDisagrees` shows that any other rating breaks the agreement.
- SbcContext.EditPredefinedSbc: requires index ≤ length. An index past the end would leave holes in a JavaScript array, and a negative index sets a property that is not an element, so the list is unchanged.
- SbcContext.ToggleTwice: requires the inventory to agree with the players, because the first toggle recounts the inventory.

## Findings

| source | as written | input that shows it | evidently intended | confidence | as-written member | corrected member |
|---|---|---|---|---|---|---|
| app/utils/ratingCalculator.ts:364-378 | the upward pass replaces slot `lowIndex` and then re-sorts the squad, with `lowIndex` cycling 0, 1, 2, …; after the first swap the squad is re-sorted, so slot 1 is no longer the lowest card | pool two 10s and eleven 90s, target 90: after one swap the squad is one 10 and ten 90s (rating 89), the next swap replaces a 90 with a 90, the pool runs out and nothing is returned, though eleven 90s rate 90 | always replace the lowest card, slot 0 after the sort, as the comments at lines 358 and 378 say | not executed | GreedyRefinement.Greedy; GreedyRefinement.GreedyMisses | GreedyRefinement.GreedyCorrected; GreedyRefinement.CorrectedNoneIff |
| app/utils/ratingCalculator.ts:493-499 | the squad found in `tempInventory` (the cards left plus the squad put back) is subtracted from `result.remainingPlayers`, so the squad put back is never returned | inventory `{90: 22}`, target 90, one squad: the simulation leaves `{90: 11}`, the refinement finds eleven 90s and subtracts them, leaving `{}`; 11 of the 22 cards vanish | subtract the new squad from `tempInventory`, so the cards of every squad and the cards left add up to the inventory. The corrected member also uses the corrected greedy search of the first finding; conservation does not depend on that change | not executed | OptimalCombinations.OptimalCombinationsAsWritten; OptimalCombinations.AsWrittenLosesCards; Simulation.EconomicRunStopsEarly | OptimalCombinations.OptimalCombinations; OptimalCombinations.OptimalCombinationsSpec |
