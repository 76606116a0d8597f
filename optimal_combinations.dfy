/**
 * The refinement pass `findOptimalCombinations` (app/utils/ratingCalculator.ts,
 * lines 438-511): run the standard simulation, then revisit each squad it
 * formed, put its cards back beside the cards left, and let the greedy search
 * `findEconomicalTeamRating` pick a cheaper squad from them.
 *
 * The loop as written takes the replacement squad out of the cards left, not
 * out of the cards left plus the squad put back, so the original squad's cards
 * vanish from the accounting (`StepAsWritten`, `AsWrittenLosesCards`).
 * `StepCorrected` takes the replacement out of the pile it was chosen from and
 * keeps every card (`OptimalCombinationsSpec`).
 */
module OptimalCombinations {
  import opened Seqs
  import opened Wrappers
  import opened TeamRatings
  import opened Inventories
  import opened EconomicalFinder
  import opened SquadFormation
  import opened GreedyRefinement

  /** The `{ success, teams, remainingPlayers }` record of `findOptimalCombinations`. */
  datatype Combinations = Combinations(success: bool, teams: seq<seq<int>>, remainingPlayers: Inventory)

  /** One pass of the loop body: the squad pushed and the cards left after it. */
  datatype Refined = Refined(team: seq<int>, remaining: Inventory)

  /**
   * Lines 468-503 as written: the squad's cards are added to a copy of the cards
   * left; if the greedy search finds a squad in that copy, the squad is pushed
   * and its cards are taken out of the cards left themselves; otherwise the
   * original squad is pushed and nothing changes.
   */
  function StepAsWritten(target: int, team: seq<int>, remaining: Inventory): Refined
  {
    var temp := AddCards(remaining, team);
    match Greedy(Flatten(temp), target)
    case Some(better) => Refined(better, TakeCards(remaining, better))
    case None => Refined(team, remaining)
  }

  /**
   * The loop body as evidently intended: the replacement is chosen by the
   * corrected greedy search and taken out of the copy it was chosen from, so the
   * squad put back is accounted for whichever squad is kept.
   */
  function StepCorrected(target: int, team: seq<int>, remaining: Inventory): Refined
  {
    var temp := AddCards(remaining, team);
    match GreedyCorrected(Flatten(temp), target)
    case Some(better) => Refined(better, TakeCards(temp, better))
    case None => Refined(team, remaining)
  }

  function AsWrittenStep(target: int): (seq<int>, Inventory) -> Refined
  {
    (team, remaining) => StepAsWritten(target, team, remaining)
  }

  function CorrectedStep(target: int): (seq<int>, Inventory) -> Refined
  {
    (team, remaining) => StepCorrected(target, team, remaining)
  }

  /** The loop over the squads: `teams` still to revisit, `optimized` already pushed. */
  function RefineFrom(step: (seq<int>, Inventory) -> Refined, teams: seq<seq<int>>, remaining: Inventory,
                      optimized: seq<seq<int>>): Combinations
    decreases |teams|
  {
    if teams == [] then Combinations(true, optimized, remaining)
    else
      var s := step(teams[0], remaining);
      RefineFrom(step, teams[1..], s.remaining, optimized + [s.team])
  }

  /** `findOptimalCombinations` as written: a failed simulation is returned as it is, otherwise refined. */
  function OptimalCombinationsAsWritten(availablePlayers: Inventory, requiredRating: int, numTeams: int): Combinations
  {
    var c := Completion(availablePlayers, requiredRating, numTeams);
    if !c.possible then Combinations(false, c.squads, c.remainingPlayers)
    else RefineFrom(AsWrittenStep(requiredRating), c.squads, c.remainingPlayers, [])
  }

  /** `findOptimalCombinations` with the corrected greedy search and the corrected accounting. */
  function OptimalCombinations(availablePlayers: Inventory, requiredRating: int, numTeams: int): Combinations
  {
    var c := Completion(availablePlayers, requiredRating, numTeams);
    if !c.possible then Combinations(false, c.squads, c.remainingPlayers)
    else RefineFrom(CorrectedStep(requiredRating), c.squads, c.remainingPlayers, [])
  }

  /** `findOptimalCombinations` (lines 438-511), with the loop of lines 467-504. */
  method FindOptimalCombinations(availablePlayers: Inventory, requiredRating: int, numTeams: int)
    returns (result: Combinations)
    ensures result == OptimalCombinationsAsWritten(availablePlayers, requiredRating, numTeams)
  {
    var simulated := SimulateSbcCompletion(availablePlayers, requiredRating, numTeams);
    if !simulated.possible {
      return Combinations(false, simulated.squads, simulated.remainingPlayers);
    }
    var teams, remainingPlayers := RefineSquads(requiredRating, simulated.squads, simulated.remainingPlayers);
    return Combinations(true, teams, remainingPlayers);
  }

  /** The loop of lines 467-504 over the squads of the simulation. */
  method RefineSquads(requiredRating: int, squads: seq<seq<int>>, remaining: Inventory)
    returns (optimizedTeams: seq<seq<int>>, remainingPlayers: Inventory)
    ensures Combinations(true, optimizedTeams, remainingPlayers)
         == RefineFrom(AsWrittenStep(requiredRating), squads, remaining, [])
  {
    var step := AsWrittenStep(requiredRating);
    optimizedTeams, remainingPlayers := [], remaining;
    for i := 0 to |squads|
      invariant RefineFrom(step, squads[i..], remainingPlayers, optimizedTeams)
             == RefineFrom(step, squads, remaining, [])
    {
      var pushed;
      RefineStep(step, squads[i..], remainingPlayers, optimizedTeams);
      pushed, remainingPlayers := RevisitSquad(requiredRating, squads[i], remainingPlayers);
      optimizedTeams := optimizedTeams + [pushed];
      assert squads[i..][1..] == squads[i + 1..];
    }
    assert squads[|squads|..] == [];
  }

  /** One pass of the loop of lines 467-504. */
  method RevisitSquad(requiredRating: int, team: seq<int>, remainingPlayers: Inventory)
    returns (pushed: seq<int>, rest: Inventory)
    ensures Refined(pushed, rest) == StepAsWritten(requiredRating, team, remainingPlayers)
  {
    var tempInventory := PutBack(remainingPlayers, team);
    var tempRatings := InventoryToRatings(tempInventory);
    var optimizedTeam := FindEconomicalTeamRating(tempRatings, requiredRating);
    if optimizedTeam.Some? {
      pushed := optimizedTeam.value;
      rest := TakeOut(remainingPlayers, optimizedTeam.value);
    } else {
      pushed, rest := team, remainingPlayers;
    }
  }

  /** Lines 469-475: a copy of the cards left, with one count added per card of the squad. */
  method PutBack(remaining: Inventory, team: seq<int>) returns (temp: Inventory)
    ensures temp == AddCards(remaining, team)
  {
    temp := remaining;
    for j := 0 to |team|
      invariant temp == AddCards(remaining, team[..j])
    {
      var key := team[j];
      temp := temp[key := (if key in temp then temp[key] else 0) + 1];
      assert team[..j + 1][..j] == team[..j];
    }
    assert team[..|team|] == team;
  }

  /** Lines 493-499: one count taken per card, deleting a rating whose count drops to zero or below. */
  method TakeOut(remaining: Inventory, cards: seq<int>) returns (rest: Inventory)
    ensures rest == TakeCards(remaining, cards)
  {
    rest := remaining;
    for j := 0 to |cards|
      invariant rest == TakeCards(remaining, cards[..j])
    {
      var key := cards[j];
      var count := (if key in rest then rest[key] else 0) - 1;
      if count <= 0 {
        rest := rest - {key};
      } else {
        rest := rest[key := count];
      }
      assert cards[..j + 1][..j] == cards[..j];
    }
    assert cards[..|cards|] == cards;
  }

  lemma {:induction false} RefineStep(step: (seq<int>, Inventory) -> Refined, teams: seq<seq<int>>,
                                      remaining: Inventory, optimized: seq<seq<int>>)
    requires teams != []
    ensures RefineFrom(step, teams, remaining, optimized)
      == RefineFrom(step, teams[1..], step(teams[0], remaining).remaining,
                    optimized + [step(teams[0], remaining).team])
  {
  }

  /** The loop always succeeds and pushes one squad per squad it revisits, after those already pushed. */
  lemma {:induction false} RefineShape(step: (seq<int>, Inventory) -> Refined, teams: seq<seq<int>>,
                                       remaining: Inventory, optimized: seq<seq<int>>)
    ensures var r := RefineFrom(step, teams, remaining, optimized);
      r.success && |r.teams| == |optimized| + |teams| && r.teams[..|optimized|] == optimized
    decreases |teams|
  {
    if teams != [] {
      var s := step(teams[0], remaining);
      RefineShape(step, teams[1..], s.remaining, optimized + [s.team]);
      var r := RefineFrom(step, teams, remaining, optimized);
      assert r.teams[..|optimized|] == r.teams[..|optimized| + 1][..|optimized|];
    }
  }

  /** A step that never trades a qualifying squad for one that does not qualify. */
  ghost predicate KeepsQualifying(step: (seq<int>, Inventory) -> Refined, target: int)
  {
    forall team, remaining :: Qualifies(team, target) ==> Qualifies(step(team, remaining).team, target)
  }

  lemma {:induction false} RefineQualifies(step: (seq<int>, Inventory) -> Refined, target: int,
                                           teams: seq<seq<int>>, remaining: Inventory, optimized: seq<seq<int>>)
    requires KeepsQualifying(step, target)
    requires AllQualify(teams, target) && AllQualify(optimized, target)
    ensures AllQualify(RefineFrom(step, teams, remaining, optimized).teams, target)
    decreases |teams|
  {
    if teams != [] {
      var s := step(teams[0], remaining);
      assert Qualifies(teams[0], target);
      AllQualifySnoc(optimized, s.team, target);
      assert forall k :: 0 <= k < |teams[1..]| ==> teams[1..][k] == teams[k + 1];
      RefineQualifies(step, target, teams[1..], s.remaining, optimized + [s.team]);
    }
  }

  /** Whatever the greedy search as written returns is a qualifying squad. */
  lemma {:induction false} AsWrittenKeepsQualifying(target: int)
    ensures KeepsQualifying(AsWrittenStep(target), target)
  {
    forall team, remaining | Qualifies(team, target)
      ensures Qualifies(AsWrittenStep(target)(team, remaining).team, target)
    {
      GreedyIsPick(Flatten(AddCards(remaining, team)), target);
    }
  }

  /** Whatever the corrected greedy search returns is a qualifying squad. */
  lemma {:induction false} CorrectedKeepsQualifying(target: int)
    ensures KeepsQualifying(CorrectedStep(target), target)
  {
    forall team, remaining | Qualifies(team, target)
      ensures Qualifies(CorrectedStep(target)(team, remaining).team, target)
    {
      CorrectedIsPick(Flatten(AddCards(remaining, team)), target);
    }
  }

  /**
   * With the corrected search the original squad is never kept: it is itself a
   * qualifying squad of the pile it is put back into, so a squad is always found.
   */
  lemma {:induction false} CorrectedAlwaysRefines(target: int, team: seq<int>, remaining: Inventory)
    requires Qualifies(team, target) && PositiveCounts(remaining)
    ensures GreedyCorrected(Flatten(AddCards(remaining, team)), target).Some?
  {
    var pool := Flatten(AddCards(remaining, team));
    PutBackMultiset(remaining, team);
    assert IsPick(pool, target, team);
    CorrectedNoneIff(pool, target);
  }

  /** One corrected step keeps every card: the squad pushed and the cards left are the squad and cards before. */
  lemma {:induction false} StepCorrectedConserves(target: int, team: seq<int>, remaining: Inventory)
    requires PositiveCounts(remaining)
    ensures var s := StepCorrected(target, team, remaining);
      && PositiveCounts(s.remaining)
      && multiset(s.team) + multiset(Flatten(s.remaining)) == multiset(team) + multiset(Flatten(remaining))
  {
    var temp := AddCards(remaining, team);
    PutBackMultiset(remaining, team);
    CorrectedIsPick(Flatten(temp), target);
    if GreedyCorrected(Flatten(temp), target).Some? {
      TakeOutMultiset(temp, GreedyCorrected(Flatten(temp), target).value);
    }
  }

  lemma {:induction false} Regroup(total: multiset<int>, done: multiset<int>, pushed: multiset<int>,
                                   later: multiset<int>, left: multiset<int>, team: multiset<int>, before: multiset<int>)
    requires total == done + pushed + later + left
    requires pushed + left == team + before
    ensures total == done + (team + later) + before
  {
    forall v
      ensures total[v] == (done + (team + later) + before)[v]
    {
      assert (pushed + left)[v] == (team + before)[v];
    }
  }

  /** The corrected loop keeps every card. */
  lemma {:induction false} RefineCorrectedConserves(target: int, teams: seq<seq<int>>, remaining: Inventory,
                                                    optimized: seq<seq<int>>)
    requires PositiveCounts(remaining)
    ensures var r := RefineFrom(CorrectedStep(target), teams, remaining, optimized);
      multiset(Concat(r.teams)) + multiset(Flatten(r.remainingPlayers))
        == multiset(Concat(optimized)) + multiset(Concat(teams)) + multiset(Flatten(remaining))
    decreases |teams|
  {
    if teams != [] {
      var s := CorrectedStep(target)(teams[0], remaining);
      StepCorrectedConserves(target, teams[0], remaining);
      RefineCorrectedConserves(target, teams[1..], s.remaining, optimized + [s.team]);
      ConcatSnoc(optimized, s.team);
      assert Concat(teams) == teams[0] + Concat(teams[1..]);
      var r := RefineFrom(CorrectedStep(target), teams[1..], s.remaining, optimized + [s.team]);
      Regroup(multiset(Concat(r.teams)) + multiset(Flatten(r.remainingPlayers)), multiset(Concat(optimized)),
              multiset(s.team), multiset(Concat(teams[1..])), multiset(Flatten(s.remaining)),
              multiset(teams[0]), multiset(Flatten(remaining)));
    }
  }

  /** The corrected loop on qualifying squads and a counted inventory. */
  lemma {:induction false} RefineCorrectedSpec(target: int, squads: seq<seq<int>>, remaining: Inventory)
    requires PositiveCounts(remaining) && AllQualify(squads, target)
    ensures var r := RefineFrom(CorrectedStep(target), squads, remaining, []);
      && r.success && |r.teams| == |squads| && AllQualify(r.teams, target)
      && multiset(Concat(r.teams)) + multiset(Flatten(r.remainingPlayers))
           == multiset(Concat(squads)) + multiset(Flatten(remaining))
  {
    RefineShape(CorrectedStep(target), squads, remaining, []);
    CorrectedKeepsQualifying(target);
    RefineQualifies(CorrectedStep(target), target, squads, remaining, []);
    RefineCorrectedConserves(target, squads, remaining, []);
    assert Concat([]) == [];
  }

  /**
   * One step as written never adds cards: the squad pushed and the cards left
   * are some of the squad and the cards before it.
   */
  lemma {:induction false} StepAsWrittenTakes(target: int, team: seq<int>, remaining: Inventory)
    requires PositiveCounts(remaining)
    ensures var s := StepAsWritten(target, team, remaining);
      && PositiveCounts(s.remaining)
      && multiset(s.team) + multiset(Flatten(s.remaining)) <= multiset(team) + multiset(Flatten(remaining))
  {
    var temp := AddCards(remaining, team);
    PutBackMultiset(remaining, team);
    GreedyIsPick(Flatten(temp), target);
    if Greedy(Flatten(temp), target).Some? {
      TakeOutBounded(remaining, Greedy(Flatten(temp), target).value, team);
    }
  }

  lemma {:induction false} RegroupBounded(total: multiset<int>, done: multiset<int>, pushed: multiset<int>,
                                          later: multiset<int>, left: multiset<int>, team: multiset<int>,
                                          before: multiset<int>)
    requires total <= done + pushed + later + left
    requires pushed + left <= team + before
    ensures total <= done + (team + later) + before
  {
    forall v
      ensures total[v] <= (done + (team + later) + before)[v]
    {
      assert total[v] <= (done + pushed + later + left)[v];
      assert (pushed + left)[v] <= (team + before)[v];
    }
  }

  /** The loop as written never adds cards. */
  lemma {:induction false} RefineAsWrittenTakes(target: int, teams: seq<seq<int>>, remaining: Inventory,
                                                optimized: seq<seq<int>>)
    requires PositiveCounts(remaining)
    ensures var r := RefineFrom(AsWrittenStep(target), teams, remaining, optimized);
      multiset(Concat(r.teams)) + multiset(Flatten(r.remainingPlayers))
        <= multiset(Concat(optimized)) + multiset(Concat(teams)) + multiset(Flatten(remaining))
    decreases |teams|
  {
    if teams == [] {
      assert Concat(teams) == [];
    } else {
      var s := AsWrittenStep(target)(teams[0], remaining);
      StepAsWrittenTakes(target, teams[0], remaining);
      RefineAsWrittenTakes(target, teams[1..], s.remaining, optimized + [s.team]);
      ConcatSnoc(optimized, s.team);
      assert Concat(teams) == teams[0] + Concat(teams[1..]);
      var r := RefineFrom(AsWrittenStep(target), teams[1..], s.remaining, optimized + [s.team]);
      RegroupBounded(multiset(Concat(r.teams)) + multiset(Flatten(r.remainingPlayers)), multiset(Concat(optimized)),
                     multiset(s.team), multiset(Concat(teams[1..])), multiset(Flatten(s.remaining)),
                     multiset(teams[0]), multiset(Flatten(remaining)));
    }
  }

  /**
   * `findOptimalCombinations` as written never hands back more cards than the
   * inventory holds: the squads and the cards left are some of its cards.
   */
  lemma {:induction false} OptimalCombinationsAsWrittenTakes(availablePlayers: Inventory, requiredRating: int,
                                                             numTeams: int)
    ensures var r := OptimalCombinationsAsWritten(availablePlayers, requiredRating, numTeams);
      multiset(Concat(r.teams)) + multiset(Flatten(r.remainingPlayers)) <= multiset(Flatten(availablePlayers))
  {
    var c := Completion(availablePlayers, requiredRating, numTeams);
    CompletionSpec(availablePlayers, requiredRating, numTeams);
    if c.possible {
      CompletionRemainingPositive(availablePlayers, requiredRating, numTeams);
      RefineAsWrittenTakes(requiredRating, c.squads, c.remainingPlayers, []);
      assert Concat([]) == [];
    }
  }

  /**
   * `findOptimalCombinations`, corrected: it succeeds exactly when the
   * simulation does, then with `numTeams` squads that all qualify; the squads
   * and the cards left are the cards of the inventory; and a failed simulation
   * is passed through unchanged.
   */
  lemma {:induction false} OptimalCombinationsSpec(availablePlayers: Inventory, requiredRating: int, numTeams: int)
    ensures var c := Completion(availablePlayers, requiredRating, numTeams);
      var r := OptimalCombinations(availablePlayers, requiredRating, numTeams);
      && r.success == c.possible
      && (r.success ==> |r.teams| == (if numTeams > 0 then numTeams else 0))
      && (!r.success ==> r == Combinations(false, c.squads, c.remainingPlayers))
      && AllQualify(r.teams, requiredRating)
      && multiset(Concat(r.teams)) + multiset(Flatten(r.remainingPlayers)) == multiset(Flatten(availablePlayers))
  {
    var c := Completion(availablePlayers, requiredRating, numTeams);
    CompletionSpec(availablePlayers, requiredRating, numTeams);
    if c.possible {
      CompletionRemainingPositive(availablePlayers, requiredRating, numTeams);
      RefineCorrectedSpec(requiredRating, c.squads, c.remainingPlayers);
    }
  }

  /**
   * `findOptimalCombinations` as written still succeeds exactly when the
   * simulation does, with `numTeams` qualifying squads: only the cards left are
   * wrong.
   */
  lemma {:induction false} OptimalCombinationsAsWrittenSquads(availablePlayers: Inventory, requiredRating: int,
                                                              numTeams: int)
    ensures var c := Completion(availablePlayers, requiredRating, numTeams);
      var r := OptimalCombinationsAsWritten(availablePlayers, requiredRating, numTeams);
      && r.success == c.possible
      && (r.success ==> |r.teams| == (if numTeams > 0 then numTeams else 0))
      && AllQualify(r.teams, requiredRating)
  {
    var c := Completion(availablePlayers, requiredRating, numTeams);
    CompletionSpec(availablePlayers, requiredRating, numTeams);
    if c.possible {
      RefineShape(AsWrittenStep(requiredRating), c.squads, c.remainingPlayers, []);
      AsWrittenKeepsQualifying(requiredRating);
      RefineQualifies(AsWrittenStep(requiredRating), requiredRating, c.squads, c.remainingPlayers, []);
    }
  }

  /** A formation attempt for one squad, with the guarantees of the rounds, on twenty-two cards of one rating. */
  lemma {:induction false} UniformFormation(f: Formation, pool: seq<int>, v: int)
    requires multiset(pool) == multiset(Repeat(v, 2 * SquadSize))
    requires AllQualify(f.teams, v) && |f.teams| <= 1 && (f.success <==> |f.teams| == 1)
    requires multiset(Concat(f.teams)) + multiset(f.remainingRatings) == multiset(pool)
    requires !f.success ==> forall team :: !IsPick(f.remainingRatings, v, team)
    ensures f.success && f.teams == [Repeat(v, SquadSize)]
    ensures multiset(f.remainingRatings) == multiset(Repeat(v, SquadSize))
  {
    if f.teams == [] {
      assert Concat(f.teams) == [];
      UniformHasPick(f.remainingRatings, v);
    }
    var t := f.teams[0];
    assert Qualifies(t, v);
    assert Concat(f.teams) == t + Concat([]);
    UniformSplit(t, multiset(f.remainingRatings), v);
  }

  lemma {:induction false} UniformHasPick(pool: seq<int>, v: int)
    requires multiset(pool) == multiset(Repeat(v, 2 * SquadSize))
    ensures IsPick(pool, v, Repeat(v, SquadSize))
  {
    RepeatMultiset(v, SquadSize);
    RepeatMultiset(v, 2 * SquadSize);
    UniformSquadRating(v);
  }

  /** Eleven of twenty-two copies of `v` leave the other eleven. */
  lemma {:induction false} UniformSplit(t: seq<int>, left: multiset<int>, v: int)
    requires |t| == SquadSize && multiset(t) + left == multiset(Repeat(v, 2 * SquadSize))
    ensures t == Repeat(v, SquadSize) && left == multiset(Repeat(v, SquadSize))
  {
    assert multiset(t) <= multiset(Repeat(v, 2 * SquadSize));
    OnlyCopies(t, v, 2 * SquadSize);
    RepeatConcat(v, SquadSize, SquadSize);
    CancelLeft(multiset(t), left, multiset(t));
  }

  lemma {:induction false} CancelLeft(a: multiset<int>, b: multiset<int>, c: multiset<int>)
    requires a + b == a + c
    ensures b == c
  {
    assert b == (a + b) - a;
  }

  /** With twenty-two cards of one rating, one squad of that rating is formed and eleven cards are left. */
  lemma {:induction false} UniformSquads(pool: seq<int>, v: int)
    requires multiset(pool) == multiset(Repeat(v, 2 * SquadSize))
    ensures var f := OptimalSquads(pool, v, 1);
      && f.success && f.teams == [Repeat(v, SquadSize)]
      && multiset(f.remainingRatings) == multiset(Repeat(v, SquadSize))
  {
    OptimalSquadsSpec(pool, v, 1);
    FormFromCount(EconomicalSearch(v), Sort(pool), 1, []);
    UniformFormation(OptimalSquads(pool, v, 1), pool, v);
  }

  /** The simulation on an inventory of twenty-two cards of one rating. */
  lemma {:induction false} UniformCompletion(availablePlayers: Inventory, v: int)
    requires multiset(Flatten(availablePlayers)) == multiset(Repeat(v, 2 * SquadSize))
    ensures var c := Completion(availablePlayers, v, 1);
      && c.possible && c.squads == [Repeat(v, SquadSize)] && PositiveCounts(c.remainingPlayers)
      && multiset(Flatten(c.remainingPlayers)) == multiset(Repeat(v, SquadSize))
  {
    var pool := Flatten(availablePlayers);
    assert |pool| == |multiset(pool)| == 2 * SquadSize;
    UniformSquads(pool, v);
    var f := OptimalSquads(pool, v, 1);
    FlattenTally(f.remainingRatings);
    TallyPositive(f.remainingRatings);
  }

  /** The simulation on an inventory of eleven cards of one rating forms its one squad. */
  lemma {:induction false} UniformElevenCompletion(availablePlayers: Inventory, v: int)
    requires multiset(Flatten(availablePlayers)) == multiset(Repeat(v, SquadSize))
    ensures Completion(availablePlayers, v, 1).possible
  {
    var pool := Flatten(availablePlayers);
    assert |pool| == |multiset(pool)| == SquadSize;
    OptimalSquadsSpec(pool, v, 1);
    FormFromCount(EconomicalSearch(v), Sort(pool), 1, []);
    var f := OptimalSquads(pool, v, 1);
    if !f.success {
      assert Concat(f.teams) == [];
      RepeatMultiset(v, SquadSize);
      UniformSquadRating(v);
      assert IsPick(f.remainingRatings, v, Repeat(v, SquadSize));
    }
  }

  /** The eleven cards left with eleven more copies put back are twenty-two copies. */
  lemma {:induction false} UniformPutBack(v: int, remaining: Inventory)
    requires PositiveCounts(remaining) && multiset(Flatten(remaining)) == multiset(Repeat(v, SquadSize))
    ensures multiset(Flatten(AddCards(remaining, Repeat(v, SquadSize)))) == multiset(Repeat(v, 2 * SquadSize))
  {
    PutBackMultiset(remaining, Repeat(v, SquadSize));
    RepeatConcat(v, SquadSize, SquadSize);
  }

  /** The greedy search as written, on the eleven cards left with the squad put back, picks eleven copies again. */
  lemma {:induction false} UniformStep(v: int, remaining: Inventory)
    requires PositiveCounts(remaining) && multiset(Flatten(remaining)) == multiset(Repeat(v, SquadSize))
    ensures StepAsWritten(v, Repeat(v, SquadSize), remaining)
      == Refined(Repeat(v, SquadSize), TakeCards(remaining, Repeat(v, SquadSize)))
  {
    UniformPutBack(v, remaining);
    UniformGreedy(Flatten(AddCards(remaining, Repeat(v, SquadSize))), v, 2 * SquadSize);
  }

  /** Taking the eleven copies out of the eleven cards left leaves nothing. */
  lemma {:induction false} UniformTakeOut(v: int, remaining: Inventory)
    requires PositiveCounts(remaining) && multiset(Flatten(remaining)) == multiset(Repeat(v, SquadSize))
    ensures Flatten(TakeCards(remaining, Repeat(v, SquadSize))) == []
  {
    var t := Repeat(v, SquadSize);
    TakeOutMultiset(remaining, t);
    var m := multiset(Flatten(TakeCards(remaining, t)));
    assert |m + multiset(t)| == |m| + |multiset(t)|;
    assert |Flatten(TakeCards(remaining, t))| == |m| == 0;
  }

  /** The loop as written over the one squad of the simulation. */
  lemma {:induction false} UniformRefine(v: int, remaining: Inventory)
    requires PositiveCounts(remaining) && multiset(Flatten(remaining)) == multiset(Repeat(v, SquadSize))
    ensures var r := RefineFrom(AsWrittenStep(v), [Repeat(v, SquadSize)], remaining, []);
      r.success && r.teams == [Repeat(v, SquadSize)] && Flatten(r.remainingPlayers) == []
  {
    UniformStep(v, remaining);
    UniformTakeOut(v, remaining);
    RefineStep(AsWrittenStep(v), [Repeat(v, SquadSize)], remaining, []);
    assert [Repeat(v, SquadSize)][1..] == [];
  }

  /**
   * On twenty-two cards of one rating, asked for one squad of that rating, the
   * loop as written returns one squad and no cards left: eleven cards out of
   * twenty-two.
   */
  lemma {:induction false} AsWrittenLosesCardsOn(availablePlayers: Inventory, v: int)
    requires multiset(Flatten(availablePlayers)) == multiset(Repeat(v, 2 * SquadSize))
    ensures var r := OptimalCombinationsAsWritten(availablePlayers, v, 1);
      r.success && r.teams == [Repeat(v, SquadSize)] && Flatten(r.remainingPlayers) == []
  {
    UniformCompletion(availablePlayers, v);
    UniformRefine(v, Completion(availablePlayers, v, 1).remainingPlayers);
  }

  lemma {:induction false} CardCount(teams: seq<seq<int>>, left: Inventory, inv: Inventory)
    requires multiset(Concat(teams)) + multiset(Flatten(left)) == multiset(Flatten(inv))
    ensures |Concat(teams)| + |Flatten(left)| == |Flatten(inv)|
  {
    assert |multiset(Concat(teams)) + multiset(Flatten(left))| == |multiset(Flatten(inv))|;
  }

  /** An inventory whose only rating is `v`, with twenty-two cards. */
  lemma {:induction false} SingleRatingInventory(availablePlayers: Inventory, v: int)
    requires availablePlayers.Keys == {v} && availablePlayers[v] == 2 * SquadSize
    ensures multiset(Flatten(availablePlayers)) == multiset(Repeat(v, 2 * SquadSize))
  {
    FlattenCounts(availablePlayers);
    RepeatMultiset(v, 2 * SquadSize);
    forall x
      ensures multiset(Flatten(availablePlayers))[x] == multiset(Repeat(v, 2 * SquadSize))[x]
    {
      assert x in availablePlayers <==> x == v;
    }
  }

  /** The corrected loop on the same inventory keeps all twenty-two cards. */
  lemma {:induction false} CorrectedKeepsCardsOn(availablePlayers: Inventory, v: int)
    requires multiset(Flatten(availablePlayers)) == multiset(Repeat(v, 2 * SquadSize))
    ensures var r := OptimalCombinations(availablePlayers, v, 1);
      |Concat(r.teams)| + |Flatten(r.remainingPlayers)| == 2 * SquadSize
  {
    OptimalCombinationsSpec(availablePlayers, v, 1);
    var r := OptimalCombinations(availablePlayers, v, 1);
    CardCount(r.teams, r.remainingPlayers, availablePlayers);
    assert |Flatten(availablePlayers)| == |multiset(Repeat(v, 2 * SquadSize))|;
  }

  /**
   * Twenty-two cards of one rating `v`, one squad of `v` asked for: as written,
   * the squad and the cards left hold 11 cards instead of 22; corrected, all 22.
   * The inventory `{90: 22}` with the target 90 is one such input.
   */
  lemma {:induction false} AsWrittenLosesCards(availablePlayers: Inventory, v: int)
    requires availablePlayers.Keys == {v} && availablePlayers[v] == 2 * SquadSize
    ensures |Flatten(availablePlayers)| == 2 * SquadSize
    ensures var r := OptimalCombinationsAsWritten(availablePlayers, v, 1);
      |Concat(r.teams)| + |Flatten(r.remainingPlayers)| == SquadSize
    ensures var r := OptimalCombinations(availablePlayers, v, 1);
      |Concat(r.teams)| + |Flatten(r.remainingPlayers)| == 2 * SquadSize
  {
    SingleRatingInventory(availablePlayers, v);
    assert |Flatten(availablePlayers)| == |multiset(Repeat(v, 2 * SquadSize))|;
    AsWrittenLosesCardsOn(availablePlayers, v);
    assert Concat([Repeat(v, SquadSize)]) == Repeat(v, SquadSize) + Concat([]);
    CorrectedKeepsCardsOn(availablePlayers, v);
  }

  /** The smallest instance: the inventory `{90: 22}` and the target 90. */
  lemma AsWrittenLosesCardsExample()
    ensures |Flatten(map[90 := 22])| == 22
    ensures var r := OptimalCombinationsAsWritten(map[90 := 22], 90, 1);
      |Concat(r.teams)| + |Flatten(r.remainingPlayers)| == 11
  {
    AsWrittenLosesCards(map[90 := 22], 90);
  }
}
