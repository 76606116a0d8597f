/**
 * Forming several squads one after the other from a pool
 * (app/utils/ratingCalculator.ts: formOptimalSquads, simulateSbcCompletion,
 * canCompleteSbc).
 *
 * The pool is sorted once; each round asks the exhaustive search for the
 * cheapest qualifying squad of what is left and splices its cards out. The
 * first round that finds no squad ends the attempt, keeping the squads formed
 * so far.
 */
module SquadFormation {
  import opened Seqs
  import opened Wrappers
  import opened TeamRatings
  import opened Inventories
  import opened EconomicalFinder

  /** The `{ success, teams, remainingRatings }` record of `formOptimalSquads`. */
  datatype Formation = Formation(success: bool, teams: seq<seq<int>>, remainingRatings: seq<int>)

  /**
   * The rounds still to play: `left` more squads from `remaining`, after the
   * squads `teams` already formed, each round asking `search` for a squad of
   * the cards left.
   */
  function FormFrom(search: seq<int> -> Option<seq<int>>, remaining: seq<int>, left: int,
                    teams: seq<seq<int>>): Formation
    decreases left
  {
    if left <= 0 then Formation(true, teams, remaining)
    else if |remaining| < SquadSize then Formation(false, teams, remaining)
    else
      match search(remaining)
      case None => Formation(false, teams, remaining)
      case Some(team) => FormFrom(search, RemoveAll(remaining, team), left - 1, teams + [team])
  }

  /** The search every round of `formOptimalSquads` runs: `findMostEconomicalTeam` with the required rating. */
  function EconomicalSearch(requiredRating: int): seq<int> -> Option<seq<int>>
  {
    pool => FindMostEconomicalTeam(pool, requiredRating)
  }

  /** What `formOptimalSquads` returns: the rounds played on the sorted pool. */
  function OptimalSquads(availableRatings: seq<int>, requiredRating: int, numSquads: int): Formation
  {
    FormFrom(EconomicalSearch(requiredRating), Sort(availableRatings), numSquads, [])
  }

  /** `formOptimalSquads` (lines 150-210): sort once, then play the rounds with the exhaustive search. */
  method FormOptimalSquads(availableRatings: seq<int>, requiredRating: int, numSquads: int)
    returns (success: bool, teams: seq<seq<int>>, remainingRatings: seq<int>)
    ensures Formation(success, teams, remainingRatings) == OptimalSquads(availableRatings, requiredRating, numSquads)
  {
    var sortedRatings := Sort(availableRatings);
    success, teams, remainingRatings := PlayRounds(EconomicalSearch(requiredRating), sortedRatings, numSquads);
  }

  /**
   * The loop of lines 171-203 with the search of line 182 passed in: every
   * round either ends the attempt with failure or keeps a squad and goes on.
   */
  method PlayRounds(search: seq<int> -> Option<seq<int>>, sortedRatings: seq<int>, numSquads: int)
    returns (success: bool, teams: seq<seq<int>>, remainingRatings: seq<int>)
    ensures Formation(success, teams, remainingRatings) == FormFrom(search, sortedRatings, numSquads, [])
  {
    teams := [];
    remainingRatings := sortedRatings;
    var i := 0;
    while i < numSquads
      invariant 0 <= i || numSquads <= 0
      invariant FormFrom(search, remainingRatings, numSquads - i, teams) == FormFrom(search, sortedRatings, numSquads, [])
      decreases numSquads - i
    {
      var stop;
      stop, teams, remainingRatings := PlayRound(search, remainingRatings, numSquads - i, teams);
      if stop {
        return false, teams, remainingRatings;
      }
      i := i + 1;
    }
    FormFromDone(search, remainingRatings, numSquads - i, teams);
    return true, teams, remainingRatings;
  }

  /**
   * One round (lines 172-202): below eleven cards, or when the search finds
   * nothing, the attempt stops as it stands; otherwise the squad is kept and
   * its cards spliced out, leaving the same outcome to the rounds still to play.
   */
  method PlayRound(search: seq<int> -> Option<seq<int>>, remaining: seq<int>, left: int, teams: seq<seq<int>>)
    returns (stop: bool, teams': seq<seq<int>>, remaining': seq<int>)
    requires left > 0
    ensures stop ==> teams' == teams && remaining' == remaining
                     && FormFrom(search, remaining, left, teams) == Formation(false, teams, remaining)
    ensures !stop ==> FormFrom(search, remaining', left - 1, teams') == FormFrom(search, remaining, left, teams)
  {
    if |remaining| < SquadSize {
      FormFromStop(search, remaining, left, teams);
      return true, teams, remaining;
    }
    var team := search(remaining);
    if team.None? {
      FormFromStop(search, remaining, left, teams);
      return true, teams, remaining;
    }
    FormFromStep(search, remaining, left, teams);
    teams' := teams + [team.value];
    remaining' := SpliceOut(remaining, team.value);
    stop := false;
  }

  /** The inner loop of lines 197-202: each card of `team` spliced out at its first position. */
  method SpliceOut(remaining: seq<int>, team: seq<int>) returns (r: seq<int>)
    ensures r == RemoveAll(remaining, team)
  {
    r := remaining;
    for k := 0 to |team|
      invariant r == RemoveAll(remaining, team[..k])
    {
      var index := IndexOf(r, team[k]);
      if index != -1 {
        r := r[..index] + r[index + 1..];
      }
      assert team[..k + 1][..k] == team[..k];
    }
    assert team[..|team|] == team;
  }

  /** A round that finds no squad, or has too few cards to look, ends the attempt as it stands. */
  lemma {:induction false} FormFromStop(search: seq<int> -> Option<seq<int>>, remaining: seq<int>, left: int,
                                        teams: seq<seq<int>>)
    requires left > 0 && (|remaining| < SquadSize || search(remaining).None?)
    ensures FormFrom(search, remaining, left, teams) == Formation(false, teams, remaining)
  {
  }

  /** Once no round is left the attempt has succeeded. */
  lemma {:induction false} FormFromDone(search: seq<int> -> Option<seq<int>>, remaining: seq<int>, left: int,
                                        teams: seq<seq<int>>)
    requires left <= 0
    ensures FormFrom(search, remaining, left, teams) == Formation(true, teams, remaining)
  {
  }

  /** A round that finds a squad hands the rest of the work to the next round. */
  lemma {:induction false} FormFromStep(search: seq<int> -> Option<seq<int>>, remaining: seq<int>, left: int,
                                        teams: seq<seq<int>>)
    requires left > 0 && |remaining| >= SquadSize && search(remaining).Some?
    ensures FormFrom(search, remaining, left, teams)
      == FormFrom(search, RemoveAll(remaining, search(remaining).value), left - 1, teams + [search(remaining).value])
  {
  }

  /** Every squad `search` finds is a qualifying squad of the pool it was given. */
  ghost predicate SoundSearch(search: seq<int> -> Option<seq<int>>, target: int)
  {
    forall pool :: search(pool).Some? ==> IsPick(pool, target, search(pool).value)
  }

  /** `search` finds a squad whenever the pool holds a qualifying one. */
  ghost predicate CompleteSearch(search: seq<int> -> Option<seq<int>>, target: int)
  {
    forall pool :: search(pool).None? ==> forall team :: !IsPick(pool, target, team)
  }

  /** The exhaustive search has both properties. */
  lemma {:induction false} EconomicalSearchSpec(requiredRating: int)
    ensures SoundSearch(EconomicalSearch(requiredRating), requiredRating)
    ensures CompleteSearch(EconomicalSearch(requiredRating), requiredRating)
  {
    var search := EconomicalSearch(requiredRating);
    forall pool
      ensures search(pool).Some? ==> IsPick(pool, requiredRating, search(pool).value)
      ensures search(pool).None? ==> forall team :: !IsPick(pool, requiredRating, team)
    {
      MostEconomicalIsPick(pool, requiredRating);
      MostEconomicalNoneIff(pool, requiredRating);
    }
  }

  /** An eleven-card squad that reaches `target`. */
  ghost predicate Qualifies(team: seq<int>, target: int)
  {
    |team| == SquadSize && TeamRating(team) >= target
  }

  /** Every squad of the list qualifies. */
  ghost predicate AllQualify(teams: seq<seq<int>>, target: int)
  {
    forall k {:trigger Qualifies(teams[k], target)} :: 0 <= k < |teams| ==> Qualifies(teams[k], target)
  }

  lemma {:induction false} AllQualifySnoc(teams: seq<seq<int>>, team: seq<int>, target: int)
    requires AllQualify(teams, target) && Qualifies(team, target)
    ensures AllQualify(teams + [team], target)
  {
    var ts := teams + [team];
    forall k | 0 <= k < |ts|
      ensures Qualifies(ts[k], target)
    {
      if k < |teams| {
        assert ts[k] == teams[k];
      }
    }
  }

  /** One round: the squad found qualifies and is part of the cards left. */
  lemma {:induction false} RoundPick(search: seq<int> -> Option<seq<int>>, target: int, remaining: seq<int>)
    requires SoundSearch(search, target) && search(remaining).Some?
    ensures var team := search(remaining).value;
      && Qualifies(team, target)
      && multiset(RemoveAll(remaining, team)) + multiset(team) == multiset(remaining)
  {
    var team := search(remaining).value;
    assert IsPick(remaining, target, team);
    RemoveAllMultiset(remaining, team);
    SubtractThenAdd(multiset(remaining), multiset(team));
  }

  lemma {:induction false} SubtractThenAdd(whole: multiset<int>, part: multiset<int>)
    requires part <= whole
    ensures (whole - part) + part == whole
  {
    forall v
      ensures ((whole - part) + part)[v] == whole[v]
    {
    }
  }

  /** Moving a squad's cards from the pool to the formed squads keeps the total, on lists. */
  lemma {:induction false} ShiftCards(formed: seq<int>, left: seq<int>, done: seq<int>, team: seq<int>,
                                      rest: seq<int>, remaining: seq<int>)
    requires multiset(formed) + multiset(left) == multiset(done + team) + multiset(rest)
    requires multiset(rest) + multiset(team) == multiset(remaining)
    ensures multiset(formed) + multiset(left) == multiset(done) + multiset(remaining)
  {
    MultisetShift(multiset(formed) + multiset(left), multiset(done), multiset(team), multiset(rest), multiset(remaining));
  }

  /** Moving a squad's cards from the pool to the formed squads keeps the total. */
  lemma {:induction false} MultisetShift(total: multiset<int>, formed: multiset<int>, team: multiset<int>,
                                         rest: multiset<int>, remaining: multiset<int>)
    requires total == (formed + team) + rest && rest + team == remaining
    ensures total == formed + remaining
  {
  }

  lemma {:induction false} PrefixOfPrefix(all: seq<seq<int>>, teams: seq<seq<int>>, team: seq<int>)
    requires |teams + [team]| <= |all| && all[..|teams + [team]|] == teams + [team]
    ensures |teams| <= |all| && all[..|teams|] == teams
  {
    assert all[..|teams|] == all[..|teams + [team]|][..|teams|];
  }

  /** The squads formed keep the ones already there, and every new one qualifies. */
  lemma {:induction false} FormFromQualifies(search: seq<int> -> Option<seq<int>>, target: int, remaining: seq<int>,
                                             left: int, teams: seq<seq<int>>)
    requires SoundSearch(search, target) && AllQualify(teams, target)
    ensures var f := FormFrom(search, remaining, left, teams);
      AllQualify(f.teams, target) && |teams| <= |f.teams| && f.teams[..|teams|] == teams
    decreases left
  {
    if left > 0 && |remaining| >= SquadSize && search(remaining).Some? {
      var team := search(remaining).value;
      FormFromStep(search, remaining, left, teams);
      RoundPick(search, target, remaining);
      AllQualifySnoc(teams, team, target);
      FormFromQualifies(search, target, RemoveAll(remaining, team), left - 1, teams + [team]);
      PrefixOfPrefix(FormFrom(search, remaining, left, teams).teams, teams, team);
    }
  }

  /** Every squad `search` finds is made of cards of the pool it was given. */
  ghost predicate TakesFromPool(search: seq<int> -> Option<seq<int>>)
  {
    forall pool :: search(pool).Some? ==> multiset(search(pool).value) <= multiset(pool)
  }

  lemma {:induction false} SoundSearchTakesFromPool(search: seq<int> -> Option<seq<int>>, target: int)
    requires SoundSearch(search, target)
    ensures TakesFromPool(search)
  {
    forall pool | search(pool).Some?
      ensures multiset(search(pool).value) <= multiset(pool)
    {
      assert IsPick(pool, target, search(pool).value);
    }
  }

  /** A round moves exactly the cards of its squad out of the pool. */
  lemma {:induction false} RoundTakes(search: seq<int> -> Option<seq<int>>, remaining: seq<int>)
    requires TakesFromPool(search) && search(remaining).Some?
    ensures var team := search(remaining).value;
      multiset(RemoveAll(remaining, team)) + multiset(team) == multiset(remaining)
  {
    var team := search(remaining).value;
    RemoveAllMultiset(remaining, team);
    SubtractThenAdd(multiset(remaining), multiset(team));
  }

  /** No card is lost or made up: the squads and the cards left together are the pool. */
  lemma {:induction false} FormFromConserves(search: seq<int> -> Option<seq<int>>, remaining: seq<int>,
                                             left: int, teams: seq<seq<int>>)
    requires TakesFromPool(search)
    ensures var f := FormFrom(search, remaining, left, teams);
      multiset(Concat(f.teams)) + multiset(f.remainingRatings) == multiset(Concat(teams)) + multiset(remaining)
    decreases left
  {
    if left <= 0 {
      FormFromDone(search, remaining, left, teams);
    } else if |remaining| < SquadSize || search(remaining).None? {
      FormFromStop(search, remaining, left, teams);
    } else {
      var team := search(remaining).value;
      var rest := RemoveAll(remaining, team);
      FormFromStep(search, remaining, left, teams);
      RoundTakes(search, remaining);
      FormFromConserves(search, rest, left - 1, teams + [team]);
      ConcatSnoc(teams, team);
      var f := FormFrom(search, rest, left - 1, teams + [team]);
      ShiftCards(Concat(f.teams), f.remainingRatings, Concat(teams), team, rest, remaining);
    }
  }

  /** The attempt succeeds exactly when every round formed a squad; a failed one stops short. */
  lemma {:induction false} FormFromCount(search: seq<int> -> Option<seq<int>>, remaining: seq<int>, left: int,
                                         teams: seq<seq<int>>)
    ensures var f := FormFrom(search, remaining, left, teams);
      && |f.teams| <= |teams| + (if left > 0 then left else 0)
      && (f.success <==> |f.teams| == |teams| + (if left > 0 then left else 0))
    decreases left
  {
    if left > 0 && |remaining| >= SquadSize && search(remaining).Some? {
      var team := search(remaining).value;
      FormFromStep(search, remaining, left, teams);
      FormFromCount(search, RemoveAll(remaining, team), left - 1, teams + [team]);
    }
  }

  /** A failed attempt stops on a pool from which no qualifying squad can be picked. */
  lemma {:induction false} FormFromFailure(search: seq<int> -> Option<seq<int>>, target: int, remaining: seq<int>,
                                           left: int, teams: seq<seq<int>>)
    requires CompleteSearch(search, target)
    ensures var f := FormFrom(search, remaining, left, teams);
      !f.success ==> forall team :: !IsPick(f.remainingRatings, target, team)
    decreases left
  {
    if left <= 0 {
    } else if |remaining| < SquadSize {
      NoPickFromFewCards(remaining, target);
    } else if search(remaining).None? {
    } else {
      var team := search(remaining).value;
      FormFromStep(search, remaining, left, teams);
      FormFromFailure(search, target, RemoveAll(remaining, team), left - 1, teams + [team]);
    }
  }

  /**
   * `formOptimalSquads` on its own: every squad qualifies, the squads and the
   * cards left are the pool, it succeeds exactly when it formed `numSquads`
   * squads, and it fails only when nothing qualifying is left to pick.
   */
  lemma {:induction false} OptimalSquadsSpec(availableRatings: seq<int>, requiredRating: int, numSquads: int)
    ensures var f := OptimalSquads(availableRatings, requiredRating, numSquads);
      && AllQualify(f.teams, requiredRating)
      && multiset(Concat(f.teams)) + multiset(f.remainingRatings) == multiset(availableRatings)
      && (f.success <==> |f.teams| == (if numSquads > 0 then numSquads else 0))
      && (!f.success ==> forall team :: !IsPick(f.remainingRatings, requiredRating, team))
  {
    var sorted, search := Sort(availableRatings), EconomicalSearch(requiredRating);
    EconomicalSearchSpec(requiredRating);
    FormFromQualifies(search, requiredRating, sorted, numSquads, []);
    SoundSearchTakesFromPool(search, requiredRating);
    FormFromConserves(search, sorted, numSquads, []);
    FormFromCount(search, sorted, numSquads, []);
    FormFromFailure(search, requiredRating, sorted, numSquads, []);
    assert Concat([]) == [];
  }

  /** The `{ possible, squads, remainingPlayers }` record of `simulateSbcCompletion`. */
  datatype SbcCompletion = SbcCompletion(possible: bool, squads: seq<seq<int>>, remainingPlayers: Inventory)

  /**
   * What `simulateSbcCompletion` returns: too small a pool is refused with the
   * inventory copied back unchanged; otherwise the squads formed and the cards
   * left, counted again into an inventory.
   */
  function Completion(availablePlayers: Inventory, requiredRating: int, numSquads: int): SbcCompletion
  {
    var pool := Flatten(availablePlayers);
    if |pool| < numSquads * SquadSize then SbcCompletion(false, [], availablePlayers)
    else
      var f := OptimalSquads(pool, requiredRating, numSquads);
      SbcCompletion(f.success, f.teams, Tally(f.remainingRatings))
  }

  /** `simulateSbcCompletion` (lines 102-145). */
  method SimulateSbcCompletion(availablePlayers: Inventory, requiredRating: int, numSquads: int)
    returns (result: SbcCompletion)
    ensures result == Completion(availablePlayers, requiredRating, numSquads)
  {
    var availableRatings := InventoryToRatings(availablePlayers);
    if |availableRatings| < numSquads * SquadSize {
      return SbcCompletion(false, [], availablePlayers);
    }
    var success, teams, remainingRatings := FormOptimalSquads(availableRatings, requiredRating, numSquads);
    var remainingPlayers := ConvertToInventory(remainingRatings);
    return SbcCompletion(success, teams, remainingPlayers);
  }

  /** `canCompleteSbc` (lines 48-76): the same size test and the same rounds, keeping only the verdict. */
  method CanCompleteSbc(availablePlayers: Inventory, requiredRating: int, numSquads: int) returns (possible: bool)
    ensures possible == Completion(availablePlayers, requiredRating, numSquads).possible
  {
    var availableRatings := InventoryToRatings(availablePlayers);
    if |availableRatings| < numSquads * SquadSize {
      return false;
    }
    var success, teams, remainingRatings := FormOptimalSquads(availableRatings, requiredRating, numSquads);
    return success;
  }

  /** Fewer cards than `numSquads` squads need: refused, nothing formed, the inventory handed back as it was. */
  lemma {:induction false} CompletionInsufficientPool(availablePlayers: Inventory, requiredRating: int, numSquads: int)
    requires |Flatten(availablePlayers)| < numSquads * SquadSize
    ensures Completion(availablePlayers, requiredRating, numSquads)
      == SbcCompletion(false, [], availablePlayers)
  {
  }

  /**
   * The squads and the cards left add up to the cards of the inventory, every
   * squad qualifies, and the simulation succeeds exactly when it formed
   * `numSquads` squads.
   */
  lemma {:induction false} CompletionSpec(availablePlayers: Inventory, requiredRating: int, numSquads: int)
    ensures var c := Completion(availablePlayers, requiredRating, numSquads);
      && AllQualify(c.squads, requiredRating)
      && multiset(Concat(c.squads)) + multiset(Flatten(c.remainingPlayers)) == multiset(Flatten(availablePlayers))
      && (c.possible <==> |c.squads| == (if numSquads > 0 then numSquads else 0))
  {
    var pool := Flatten(availablePlayers);
    if |pool| < numSquads * SquadSize {
      assert Concat([]) == [];
    } else {
      var f := OptimalSquads(pool, requiredRating, numSquads);
      OptimalSquadsSpec(pool, requiredRating, numSquads);
      FlattenTally(f.remainingRatings);
    }
  }

  /** After a successful simulation every rating left has at least one card. */
  lemma {:induction false} CompletionRemainingPositive(availablePlayers: Inventory, requiredRating: int, numSquads: int)
    requires |Flatten(availablePlayers)| >= numSquads * SquadSize
    ensures var c := Completion(availablePlayers, requiredRating, numSquads);
      forall v :: v in c.remainingPlayers ==> c.remainingPlayers[v] >= 1
  {
  }
}
