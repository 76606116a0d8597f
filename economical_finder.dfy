/**
 * The exhaustive search for the cheapest qualifying squad
 * (app/utils/ratingCalculator.ts: groupRatingsByValue, findBestCombination,
 * findMostEconomicalTeam).
 *
 * The pool is grouped into `(rating, count)` pairs in ascending rating order.
 * The search then either takes one card of the first group or skips that group
 * entirely, and keeps the qualifying eleven-card squad with the smallest sum;
 * on a tie the squad from the take branch wins, because the comparison is strict.
 * The memo map and the result cache only store results of identical calls, so
 * the model is the bare recursion.
 */
module EconomicalFinder {
  import opened Seqs
  import opened Wrappers
  import opened TeamRatings
  import opened Inventories

  /** `groupRatingsByValue`: each rating of the pool once with its number of copies, ascending. */
  function Groups(ratings: seq<int>): seq<(int, int)>
  {
    Entries(Tally(ratings))
  }

  /** Every group holds at least one card. */
  ghost predicate ValidGroups(groups: seq<(int, int)>)
  {
    forall i :: 0 <= i < |groups| ==> groups[i].1 >= 1
  }

  /** The group ratings never decrease along the list. */
  ghost predicate AscendingGroups(groups: seq<(int, int)>)
  {
    forall i, j :: 0 <= i < j < |groups| ==> groups[i].0 <= groups[j].0
  }

  /** The grouping holds exactly the cards of the pool, each rating once, in ascending order. */
  lemma {:induction false} GroupsSpec(ratings: seq<int>)
    ensures multiset(Expand(Groups(ratings))) == multiset(ratings)
    ensures forall i :: 0 <= i < |Groups(ratings)| ==>
      Groups(ratings)[i].1 == multiset(ratings)[Groups(ratings)[i].0] >= 1
    ensures forall i, j :: 0 <= i < j < |Groups(ratings)| ==> Groups(ratings)[i].0 < Groups(ratings)[j].0
  {
    EntriesSpec(Tally(ratings));
    FlattenTally(ratings);
  }

  /** `groupRatingsByValue` (lines 81-97): a counting loop, then one group per entry. */
  method GroupRatingsByValue(ratings: seq<int>) returns (groups: seq<(int, int)>)
    ensures groups == Groups(ratings)
    ensures multiset(Expand(groups)) == multiset(ratings)
    ensures forall i :: 0 <= i < |groups| ==> groups[i].1 == multiset(ratings)[groups[i].0] >= 1
    ensures forall i, j :: 0 <= i < j < |groups| ==> groups[i].0 < groups[j].0
  {
    var countMap: Inventory := map[];
    for i := 0 to |ratings|
      invariant countMap == AddCards(map[], ratings[..i])
    {
      var key := ratings[i];
      countMap := countMap[key := CountOf(countMap, key) + 1];
      assert ratings[..i + 1][..i] == ratings[..i];
    }
    assert ratings[..|ratings|] == ratings;
    var entries := Entries(countMap);
    groups := [];
    for e := 0 to |entries|
      invariant groups == entries[..e]
    {
      groups := groups + [entries[e]];
    }
    assert entries[..|entries|] == entries;
    GroupsSpec(ratings);
  }

  /** The groups left once one card of the first group is used (lines 289-292). */
  function TakeFromFirst(groups: seq<(int, int)>): (r: seq<(int, int)>)
    requires groups != []
    ensures |r| == if groups[0].1 > 1 then |groups| else |groups| - 1
  {
    var (rating, count) := groups[0];
    if count > 1 then [(rating, count - 1)] + groups[1..] else groups[1..]
  }

  /** Using one card of the first group takes exactly that card out of the cards left. */
  lemma {:induction false} TakeFromFirstCards(groups: seq<(int, int)>)
    requires groups != [] && groups[0].1 >= 1
    ensures multiset(Expand(groups)) == multiset{groups[0].0} + multiset(Expand(TakeFromFirst(groups)))
  {
    var rating, count := groups[0].0, groups[0].1;
    var tail := Expand(groups[1..]);
    var rep := Repeat(rating, count - 1);
    var rest := TakeFromFirst(groups);
    assert Repeat(rating, count) == [rating] + rep;
    assert Expand(groups) == [rating] + (rep + tail);
    if count > 1 {
      assert rest[1..] == groups[1..];
      assert Expand(rest) == rep + tail;
    } else {
      assert rep == [];
      assert Expand(rest) == rep + tail;
    }
    assert multiset([rating] + (rep + tail)) == multiset{rating} + multiset(rep + tail);
  }

  /** Dropping the first group leaves a part of its cards. */
  lemma {:induction false} SkipFirstCards(groups: seq<(int, int)>)
    requires groups != []
    ensures multiset(Expand(groups[1..])) <= multiset(Expand(groups))
  {
    assert Expand(groups) == Repeat(groups[0].0, groups[0].1) + Expand(groups[1..]);
  }

  /** Both ways forward keep every group non-empty. */
  lemma {:induction false} TakeFromFirstValid(groups: seq<(int, int)>)
    requires groups != [] && ValidGroups(groups)
    ensures ValidGroups(TakeFromFirst(groups)) && ValidGroups(groups[1..])
  {
    var rest := TakeFromFirst(groups);
    forall i | 0 <= i < |rest|
      ensures rest[i].1 >= 1
    {
      if groups[0].1 > 1 && i > 0 {
        assert rest[i] == groups[i];
      } else if groups[0].1 <= 1 {
        assert rest[i] == groups[i + 1];
      }
    }
    forall i | 0 <= i < |groups[1..]|
      ensures groups[1..][i].1 >= 1
    {
      assert groups[1..][i] == groups[i + 1];
    }
  }

  /**
   * The comparison of lines 304-329: the squad with the smaller sum, the first
   * one on a tie, and a squad whenever either of the two is one.
   */
  function Cheaper(first: Option<seq<int>>, second: Option<seq<int>>): (r: Option<seq<int>>)
    ensures r == first || r == second
    ensures first.Some? || second.Some? ==> r.Some?
    ensures first.Some? ==> Sum(r.value) <= Sum(first.value)
    ensures second.Some? ==> Sum(r.value) <= Sum(second.value)
    ensures first.Some? && second.Some? && Sum(first.value) == Sum(second.value) ==> r == first
  {
    if second.Some? && (first.None? || Sum(second.value) < Sum(first.value)) then second else first
  }

  /**
   * `findBestCombination` (lines 248-335): the cheapest squad that extends
   * `currentTeam` with `playersNeeded` cards of the groups and rates at least
   * `targetRating`, or `None`.
   */
  function FindBestCombination(ratingGroups: seq<(int, int)>, targetRating: int, playersNeeded: nat,
                               currentTeam: seq<int>): (r: Option<seq<int>>)
    requires |currentTeam| + playersNeeded == SquadSize
    ensures r.Some? ==> |r.value| == SquadSize
    ensures r.Some? ==> r.value[..|currentTeam|] == currentTeam
    decreases |ratingGroups|, playersNeeded
  {
    if playersNeeded == 0 then
      if TeamRating(currentTeam) >= targetRating then Some(currentTeam) else None
    else if ratingGroups == [] then
      None
    else
      var rating := ratingGroups[0].0;
      var withCard := FindBestCombination(TakeFromFirst(ratingGroups), targetRating, playersNeeded - 1,
                                          currentTeam + [rating]);
      var withoutCard := FindBestCombination(ratingGroups[1..], targetRating, playersNeeded, currentTeam);
      assert withCard.Some? ==> withCard.value[..|currentTeam|] == (currentTeam + [rating])[..|currentTeam|];
      Cheaper(withCard, withoutCard)
  }

  /** A squad found reaches the target rating. */
  lemma {:induction false} FindBestReachesTarget(groups: seq<(int, int)>, target: int, needed: nat, current: seq<int>)
    requires |current| + needed == SquadSize
    ensures var r := FindBestCombination(groups, target, needed, current);
      r.Some? ==> TeamRating(r.value) >= target
    decreases |groups|, needed
  {
    if needed > 0 && groups != [] {
      var rating := groups[0].0;
      FindBestReachesTarget(TakeFromFirst(groups), target, needed - 1, current + [rating]);
      FindBestReachesTarget(groups[1..], target, needed, current);
    }
  }

  /** The cards a found squad adds to `currentTeam` all come from the groups. */
  lemma {:induction false} FindBestWithinGroups(groups: seq<(int, int)>, target: int, needed: nat, current: seq<int>)
    requires |current| + needed == SquadSize && ValidGroups(groups)
    ensures var r := FindBestCombination(groups, target, needed, current);
      r.Some? ==> multiset(r.value) <= multiset(current) + multiset(Expand(groups))
    decreases |groups|, needed, 1
  {
    if needed > 0 && groups != [] {
      var withCard := FindBestCombination(TakeFromFirst(groups), target, needed - 1, current + [groups[0].0]);
      var withoutCard := FindBestCombination(groups[1..], target, needed, current);
      assert FindBestCombination(groups, target, needed, current) == Cheaper(withCard, withoutCard);
      WithinGroupsTaking(groups, target, needed, current);
      WithinGroupsSkipping(groups, target, needed, current);
    }
  }

  /** `FindBestWithinGroups` for the squad of the take branch. */
  lemma {:induction false} WithinGroupsTaking(groups: seq<(int, int)>, target: int, needed: nat, current: seq<int>)
    requires |current| + needed == SquadSize && ValidGroups(groups) && needed > 0 && groups != []
    ensures var r := FindBestCombination(TakeFromFirst(groups), target, needed - 1, current + [groups[0].0]);
      r.Some? ==> multiset(r.value) <= multiset(current) + multiset(Expand(groups))
    decreases |groups|, needed, 0
  {
    var rating := groups[0].0;
    TakeFromFirstCards(groups);
    TakeFromFirstValid(groups);
    FindBestWithinGroups(TakeFromFirst(groups), target, needed - 1, current + [rating]);
    assert multiset(current + [rating]) == multiset(current) + multiset{rating};
  }

  /** `FindBestWithinGroups` for the squad of the skip branch. */
  lemma {:induction false} WithinGroupsSkipping(groups: seq<(int, int)>, target: int, needed: nat, current: seq<int>)
    requires |current| + needed == SquadSize && ValidGroups(groups) && needed > 0 && groups != []
    ensures var r := FindBestCombination(groups[1..], target, needed, current);
      r.Some? ==> multiset(r.value) <= multiset(current) + multiset(Expand(groups))
    decreases |groups|, needed, 0
  {
    SkipFirstCards(groups);
    TakeFromFirstValid(groups);
    FindBestWithinGroups(groups[1..], target, needed, current);
  }

  /** A pick without any card of the first group's rating fits in the groups after it. */
  lemma {:induction false} SkipFirstGroup(groups: seq<(int, int)>, pick: seq<int>)
    requires groups != [] && multiset(pick) <= multiset(Expand(groups))
    requires groups[0].0 !in pick
    ensures multiset(pick) <= multiset(Expand(groups[1..]))
  {
    var (rating, count) := groups[0];
    assert Expand(groups) == Repeat(rating, count) + Expand(groups[1..]);
    RepeatMultiset(rating, count);
    forall v
      ensures multiset(pick)[v] <= multiset(Expand(groups[1..]))[v]
    {
      if v == rating {
        assert multiset(pick)[v] == 0;
      }
    }
  }

  /** Removing the first card of the first group's rating from a pick leaves a pick of the groups left. */
  lemma {:induction false} PickWithoutFirst(groups: seq<(int, int)>, pick: seq<int>)
    requires groups != [] && groups[0].1 >= 1 && groups[0].0 in pick
    requires multiset(pick) <= multiset(Expand(groups))
    ensures |RemoveFirst(pick, groups[0].0)| == |pick| - 1
    ensures multiset(pick) == multiset(RemoveFirst(pick, groups[0].0)) + multiset{groups[0].0}
    ensures multiset(RemoveFirst(pick, groups[0].0)) <= multiset(Expand(TakeFromFirst(groups)))
  {
    var rating := groups[0].0;
    var i := IndexOf(pick, rating);
    RemoveAtMultiset(pick, i);
    TakeFromFirstCards(groups);
    MultisetLeCancel(multiset(RemoveFirst(pick, rating)), multiset(Expand(TakeFromFirst(groups))), rating);
  }

  /** Moving one card of a pick to the end of the fixed part changes neither rating nor sum. */
  lemma {:induction false} ReorderPick(current: seq<int>, pick: seq<int>, x: int, pick': seq<int>)
    requires |current| + |pick| == SquadSize && multiset(pick) == multiset(pick') + multiset{x}
    ensures |(current + [x]) + pick'| == SquadSize
    ensures TeamRating((current + [x]) + pick') == TeamRating(current + pick)
    ensures Sum((current + [x]) + pick') == Sum(current + pick)
  {
    var team := (current + [x]) + pick';
    assert multiset(team) == multiset(current + pick);
    RatingPermutation(current + pick, team);
    SumPermutation(current + pick, team);
  }

  /**
   * Every qualifying way of completing `currentTeam` from the groups is matched:
   * the search finds a squad and its sum is no larger.
   */
  lemma {:induction false} FindBestIsCheapest(groups: seq<(int, int)>, target: int, needed: nat,
                                              current: seq<int>, pick: seq<int>)
    requires |current| + needed == SquadSize && ValidGroups(groups)
    requires |pick| == needed && multiset(pick) <= multiset(Expand(groups))
    requires TeamRating(current + pick) >= target
    ensures var r := FindBestCombination(groups, target, needed, current);
      r.Some? && Sum(r.value) <= Sum(current + pick)
    decreases |groups|, needed, 1
  {
    if needed == 0 {
      assert pick == [] && current + pick == current;
      assert FindBestCombination(groups, target, needed, current) == Some(current);
    } else {
      assert groups != [] by {
        if groups == [] {
          assert false;
        }
      }
      if groups[0].0 in pick {
        CheapestTakingFirst(groups, target, needed, current, pick);
      } else {
        CheapestSkippingFirst(groups, target, needed, current, pick);
      }
    }
  }

  /** `FindBestIsCheapest` for a pick that uses the first group's rating. */
  lemma {:induction false} CheapestTakingFirst(groups: seq<(int, int)>, target: int, needed: nat,
                                               current: seq<int>, pick: seq<int>)
    requires |current| + needed == SquadSize && ValidGroups(groups) && needed > 0
    requires groups != [] && groups[0].0 in pick
    requires |pick| == needed && multiset(pick) <= multiset(Expand(groups))
    requires TeamRating(current + pick) >= target
    ensures var r := FindBestCombination(groups, target, needed, current);
      r.Some? && Sum(r.value) <= Sum(current + pick)
    decreases |groups|, needed, 0
  {
    var rating := groups[0].0;
    var withCard := FindBestCombination(TakeFromFirst(groups), target, needed - 1, current + [rating]);
    var withoutCard := FindBestCombination(groups[1..], target, needed, current);
    assert FindBestCombination(groups, target, needed, current) == Cheaper(withCard, withoutCard);
    TakingFirstStep(groups, target, current, pick);
    FindBestIsCheapest(TakeFromFirst(groups), target, needed - 1, current + [rating], RemoveFirst(pick, rating));
  }

  /** The pick that `CheapestTakingFirst` hands to the take branch qualifies there, at the same sum. */
  lemma {:induction false} TakingFirstStep(groups: seq<(int, int)>, target: int, current: seq<int>, pick: seq<int>)
    requires ValidGroups(groups) && groups != [] && groups[0].0 in pick
    requires |current| + |pick| == SquadSize && multiset(pick) <= multiset(Expand(groups))
    requires TeamRating(current + pick) >= target
    ensures var pick' := RemoveFirst(pick, groups[0].0);
      && ValidGroups(TakeFromFirst(groups))
      && |pick'| == |pick| - 1
      && multiset(pick') <= multiset(Expand(TakeFromFirst(groups)))
      && TeamRating((current + [groups[0].0]) + pick') >= target
      && Sum((current + [groups[0].0]) + pick') == Sum(current + pick)
  {
    TakeFromFirstValid(groups);
    PickWithoutFirst(groups, pick);
    ReorderPick(current, pick, groups[0].0, RemoveFirst(pick, groups[0].0));
  }

  /** `FindBestIsCheapest` for a pick without the first group's rating. */
  lemma {:induction false} CheapestSkippingFirst(groups: seq<(int, int)>, target: int, needed: nat,
                                                 current: seq<int>, pick: seq<int>)
    requires |current| + needed == SquadSize && ValidGroups(groups) && needed > 0
    requires groups != [] && groups[0].0 !in pick
    requires |pick| == needed && multiset(pick) <= multiset(Expand(groups))
    requires TeamRating(current + pick) >= target
    ensures var r := FindBestCombination(groups, target, needed, current);
      r.Some? && Sum(r.value) <= Sum(current + pick)
    decreases |groups|, needed, 0
  {
    var rating := groups[0].0;
    var withCard := FindBestCombination(TakeFromFirst(groups), target, needed - 1, current + [rating]);
    var withoutCard := FindBestCombination(groups[1..], target, needed, current);
    assert FindBestCombination(groups, target, needed, current) == Cheaper(withCard, withoutCard);
    TakeFromFirstValid(groups);
    SkipFirstGroup(groups, pick);
    FindBestIsCheapest(groups[1..], target, needed, current, pick);
  }

  /** Using one card of the first group keeps the groups ascending, and above that card. */
  lemma {:induction false} TakeFromFirstAscending(groups: seq<(int, int)>)
    requires groups != [] && AscendingGroups(groups)
    ensures AscendingGroups(TakeFromFirst(groups))
    ensures forall i :: 0 <= i < |TakeFromFirst(groups)| ==> groups[0].0 <= TakeFromFirst(groups)[i].0
  {
    var rest := TakeFromFirst(groups);
    if groups[0].1 > 1 {
      forall i, j | 0 <= i < j < |rest|
        ensures rest[i].0 <= rest[j].0
      {
        assert rest[j] == groups[j];
        if i > 0 {
          assert rest[i] == groups[i];
        }
      }
      forall i | 0 <= i < |rest|
        ensures groups[0].0 <= rest[i].0
      {
        if i > 0 {
          assert rest[i] == groups[i];
        }
      }
    } else {
      SkipFirstAscending(groups);
    }
  }

  /** Skipping the first group keeps the groups ascending, and above the skipped rating. */
  lemma {:induction false} SkipFirstAscending(groups: seq<(int, int)>)
    requires groups != [] && AscendingGroups(groups)
    ensures AscendingGroups(groups[1..])
    ensures forall i :: 0 <= i < |groups[1..]| ==> groups[0].0 <= groups[1..][i].0
  {
    var rest := groups[1..];
    forall i, j | 0 <= i < j < |rest|
      ensures rest[i].0 <= rest[j].0
    {
      assert rest[i] == groups[i + 1] && rest[j] == groups[j + 1];
    }
    forall i | 0 <= i < |rest|
      ensures groups[0].0 <= rest[i].0
    {
      assert rest[i] == groups[i + 1];
    }
  }

  /** The conditions under which the search builds only ascending squads. */
  ghost predicate SortedSearch(groups: seq<(int, int)>, current: seq<int>)
  {
    && AscendingGroups(groups)
    && Sorted(current)
    && (current != [] ==> forall i :: 0 <= i < |groups| ==> current[|current| - 1] <= groups[i].0)
  }

  /** A squad, if there is one, in ascending order. */
  ghost predicate SortedResult(r: Option<seq<int>>)
  {
    r.Some? ==> Sorted(r.value)
  }

  /**
   * Working through ascending groups after an ascending `currentTeam` that ends
   * no higher than any group, the search only ever builds an ascending squad.
   */
  lemma {:induction false} FindBestSorted(groups: seq<(int, int)>, target: int, needed: nat, current: seq<int>)
    requires |current| + needed == SquadSize && SortedSearch(groups, current)
    ensures SortedResult(FindBestCombination(groups, target, needed, current))
    decreases |groups|, needed
  {
    if needed > 0 && groups != [] {
      var rating := groups[0].0;
      var withCard := FindBestCombination(TakeFromFirst(groups), target, needed - 1, current + [rating]);
      var withoutCard := FindBestCombination(groups[1..], target, needed, current);
      assert FindBestCombination(groups, target, needed, current) == Cheaper(withCard, withoutCard);
      SortedSearchTaking(groups, current);
      FindBestSorted(TakeFromFirst(groups), target, needed - 1, current + [rating]);
      SortedSearchSkipping(groups, current);
      FindBestSorted(groups[1..], target, needed, current);
    }
  }

  lemma {:induction false} SortedSearchTaking(groups: seq<(int, int)>, current: seq<int>)
    requires SortedSearch(groups, current) && groups != []
    ensures SortedSearch(TakeFromFirst(groups), current + [groups[0].0])
  {
    var x := groups[0].0;
    AppendSorted(current, x);
    TakeFromFirstAscending(groups);
    assert (current + [x])[|current + [x]| - 1] == x;
  }

  lemma {:induction false} SortedSearchSkipping(groups: seq<(int, int)>, current: seq<int>)
    requires SortedSearch(groups, current) && groups != []
    ensures SortedSearch(groups[1..], current)
  {
    SkipFirstAscending(groups);
    if current != [] {
      forall i | 0 <= i < |groups[1..]|
        ensures current[|current| - 1] <= groups[1..][i].0
      {
        assert groups[1..][i] == groups[i + 1];
      }
    }
  }

  /** A squad of eleven cards of the pool that rates at least `target`. */
  ghost predicate IsPick(pool: seq<int>, target: int, team: seq<int>)
  {
    |team| == SquadSize && multiset(team) <= multiset(pool) && TeamRating(team) >= target
  }

  /** Fewer than eleven cards hold no squad. */
  lemma {:induction false} NoPickFromFewCards(pool: seq<int>, target: int)
    requires |pool| < SquadSize
    ensures forall team :: !IsPick(pool, target, team)
  {
    forall team | IsPick(pool, target, team)
      ensures false
    {
      SubMultisetLength(team, pool);
    }
  }

  /** `findMostEconomicalTeam` (lines 215-242): `None` below eleven cards, else the search over the groups. */
  function FindMostEconomicalTeam(availableRatings: seq<int>, targetRating: int): (r: Option<seq<int>>)
    ensures |availableRatings| < SquadSize ==> r.None?
    ensures r.Some? ==> |r.value| == SquadSize
  {
    if |availableRatings| < SquadSize then None
    else FindBestCombination(Groups(availableRatings), targetRating, SquadSize, [])
  }

  /** A squad found is eleven cards of the pool that reach the target. */
  lemma {:induction false} MostEconomicalIsPick(pool: seq<int>, target: int)
    ensures FindMostEconomicalTeam(pool, target).Some? ==> IsPick(pool, target, FindMostEconomicalTeam(pool, target).value)
  {
    if |pool| >= SquadSize {
      GroupsSpec(pool);
      FindBestWithinGroups(Groups(pool), target, SquadSize, []);
      FindBestReachesTarget(Groups(pool), target, SquadSize, []);
    }
  }

  /** No qualifying squad of the pool is cheaper than the one found, and one is found whenever one exists. */
  lemma {:induction false} MostEconomicalIsCheapest(pool: seq<int>, target: int, team: seq<int>)
    requires IsPick(pool, target, team)
    ensures FindMostEconomicalTeam(pool, target).Some?
    ensures Sum(FindMostEconomicalTeam(pool, target).value) <= Sum(team)
  {
    SubMultisetLength(team, pool);
    GroupsSpec(pool);
    assert [] + team == team;
    FindBestIsCheapest(Groups(pool), target, SquadSize, [], team);
  }

  /** The search fails exactly when no eleven cards of the pool reach the target. */
  lemma {:induction false} MostEconomicalNoneIff(pool: seq<int>, target: int)
    ensures FindMostEconomicalTeam(pool, target).None? <==> forall team :: !IsPick(pool, target, team)
  {
    MostEconomicalIsPick(pool, target);
    forall team | IsPick(pool, target, team)
      ensures FindMostEconomicalTeam(pool, target).Some?
    {
      MostEconomicalIsCheapest(pool, target, team);
    }
  }

  /** The squad found is already in ascending order. */
  lemma {:induction false} MostEconomicalSorted(pool: seq<int>, target: int)
    ensures FindMostEconomicalTeam(pool, target).Some? ==> Sorted(FindMostEconomicalTeam(pool, target).value)
  {
    if |pool| >= SquadSize {
      GroupsSpec(pool);
      assert SortedSearch(Groups(pool), []);
      FindBestSorted(Groups(pool), target, SquadSize, []);
    }
  }
}
