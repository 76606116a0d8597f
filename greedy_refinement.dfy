/**
 * The greedy squad search of app/utils/ratingCalculator.ts,
 * `findEconomicalTeamRating` (lines 341-415).
 *
 * Start from the eleven lowest cards. While the squad is below the target the
 * upward pass puts the next unused card of the sorted pool in slot `lowIndex`,
 * advances `lowIndex` modulo eleven and re-sorts the squad. The downward pass
 * then tries, slot by slot from the top, the lowest card of the pool below the
 * one in place that is not already in the squad and is not 0, keeping the first
 * such replacement that still reaches the target.
 *
 * Re-sorting the squad moves its lowest card back to slot 0, so advancing
 * `lowIndex` replaces cards that are no longer the lowest, although the
 * comments at lines 358 and 377 say the lowest card is the one to replace.
 * `UpAsWritten` is the pass as written and `GreedyMisses` a pool on which
 * it gives up although a qualifying squad exists; `UpCorrected` always replaces
 * slot 0, and `CorrectedNoneIff` proves that the corrected search gives up
 * exactly when no qualifying squad exists.
 */
module GreedyRefinement {
  import opened Seqs
  import opened Wrappers
  import opened TeamRatings
  import opened EconomicalFinder

  /**
   * The upward pass as written (lines 364-378) from the squad `team`,
   * `lowIndex` and `highIndex`. `currentRating` is the rating of the squad
   * before its re-sort, which is the rating of the sorted squad too
   * (`RatingPermutation`), so the test here is on the squad itself.
   */
  function UpAsWritten(sorted: seq<int>, target: int, team: seq<int>, low: int, high: int): (r: seq<int>)
    requires |team| == SquadSize && 0 <= low < SquadSize && 0 <= high
    ensures |r| == SquadSize
    decreases |sorted| - high
  {
    if TeamRating(team) >= target || high >= |sorted| then team
    else UpAsWritten(sorted, target, Sort(team[low := sorted[high]]), (low + 1) % SquadSize, high + 1)
  }

  /** The upward pass as its comments describe it: the next card always replaces the lowest one, in slot 0. */
  function UpCorrected(sorted: seq<int>, target: int, team: seq<int>, high: int): (r: seq<int>)
    requires |team| == SquadSize && 0 <= high
    ensures |r| == SquadSize
    decreases |sorted| - high
  {
    if TeamRating(team) >= target || high >= |sorted| then team
    else UpCorrected(sorted, target, Sort(team[0 := sorted[high]]), high + 1)
  }

  /**
   * One slot of the downward pass (lines 388-409), scanning the sorted pool
   * from position `j`: the first card below the one in slot `i`, absent from the
   * squad and not 0, with which the squad still reaches the target, takes the
   * slot; a candidate that misses the target is put back and the scan goes on.
   */
  function DownSlot(sorted: seq<int>, target: int, team: seq<int>, i: int, j: int): (r: seq<int>)
    requires |team| == SquadSize && 0 <= i < SquadSize && 0 <= j
    ensures |r| == SquadSize
    decreases |sorted| - j
  {
    if j >= |sorted| then team
    else
      var rating := sorted[j];
      if rating < team[i] && rating !in team && rating != 0 && TeamRating(team[i := rating]) >= target then
        team[i := rating]
      else
        DownSlot(sorted, target, team, i, j + 1)
  }

  /** The downward pass over slots `i`, `i - 1`, ..., 0 (lines 387-410). */
  function DownPass(sorted: seq<int>, target: int, team: seq<int>, i: int): (r: seq<int>)
    requires |team| == SquadSize && -1 <= i < SquadSize
    ensures |r| == SquadSize
    decreases i + 1
  {
    if i < 0 then team
    else DownPass(sorted, target, DownSlot(sorted, target, team, i, 0), i - 1)
  }

  /** `findEconomicalTeamRating` as written. */
  function Greedy(availableRatings: seq<int>, targetRating: int): Option<seq<int>>
  {
    if |availableRatings| < SquadSize then None
    else
      var sorted := Sort(availableRatings);
      var lowest := sorted[..SquadSize];
      if TeamRating(lowest) >= targetRating then Some(lowest)
      else
        var up := UpAsWritten(sorted, targetRating, lowest, 0, SquadSize);
        if TeamRating(up) < targetRating then None
        else Some(DownPass(sorted, targetRating, up, SquadSize - 1))
  }

  /** `findEconomicalTeamRating` with the upward pass always replacing the lowest card. */
  function GreedyCorrected(availableRatings: seq<int>, targetRating: int): Option<seq<int>>
  {
    if |availableRatings| < SquadSize then None
    else
      var sorted := Sort(availableRatings);
      var lowest := sorted[..SquadSize];
      if TeamRating(lowest) >= targetRating then Some(lowest)
      else
        var up := UpCorrected(sorted, targetRating, lowest, SquadSize);
        if TeamRating(up) < targetRating then None
        else Some(DownPass(sorted, targetRating, up, SquadSize - 1))
  }

  /** `findEconomicalTeamRating` (lines 341-415) on an eleven-slot array, as written. */
  method FindEconomicalTeamRating(availableRatings: seq<int>, targetRating: int) returns (r: Option<seq<int>>)
    ensures r == Greedy(availableRatings, targetRating)
  {
    if |availableRatings| < SquadSize {
      return None;
    }
    var sortedRatings := Sort(availableRatings);
    var selectedTeam := new int[SquadSize](k requires 0 <= k < |sortedRatings| => sortedRatings[k]);
    assert selectedTeam[..] == sortedRatings[..SquadSize];
    var currentRating := TeamRating(selectedTeam[..]);
    if currentRating >= targetRating {
      return Some(selectedTeam[..]);
    }
    currentRating := UpwardPass(selectedTeam, sortedRatings, targetRating, currentRating);
    if currentRating < targetRating {
      return None;
    }
    DownwardPass(selectedTeam, sortedRatings, targetRating);
    return Some(selectedTeam[..]);
  }

  /** `selectedTeam.sort((a, b) => a - b)`: the squad rewritten in ascending order. */
  method SortTeam(team: array<int>)
    modifies team
    ensures team[..] == Sort(old(team[..]))
  {
    var sorted := Sort(team[..]);
    forall k | 0 <= k < team.Length {
      team[k] := sorted[k];
    }
    assert team[..] == sorted;
  }

  /** The `while` loop of lines 364-378, from `lowIndex = 0` and `highIndex = 11`. */
  method UpwardPass(team: array<int>, sorted: seq<int>, target: int, rating: int) returns (rating': int)
    requires team.Length == SquadSize
    modifies team
    requires rating == TeamRating(team[..])
    ensures team[..] == UpAsWritten(sorted, target, old(team[..]), 0, SquadSize)
    ensures rating' == TeamRating(team[..])
  {
    rating' := rating;
    var lowIndex, highIndex := 0, SquadSize;
    while rating' < target && highIndex < |sorted|
      invariant 0 <= lowIndex < SquadSize && SquadSize <= highIndex
      invariant rating' == TeamRating(team[..])
      invariant UpAsWritten(sorted, target, team[..], lowIndex, highIndex)
        == UpAsWritten(sorted, target, old(team[..]), 0, SquadSize)
      decreases |sorted| - highIndex
    {
      team[lowIndex] := sorted[highIndex];
      rating' := TeamRating(team[..]);
      lowIndex := (lowIndex + 1) % SquadSize;
      highIndex := highIndex + 1;
      ghost var raised := team[..];
      SortTeam(team);
      RatingPermutation(raised, team[..]);
    }
  }

  /** The outer `for` loop of lines 387-410, slot 10 down to slot 0. */
  method DownwardPass(team: array<int>, sorted: seq<int>, target: int)
    requires team.Length == SquadSize
    modifies team
    ensures team[..] == DownPass(sorted, target, old(team[..]), SquadSize - 1)
  {
    for i := SquadSize downto 0
      invariant DownPass(sorted, target, team[..], i - 1) == DownPass(sorted, target, old(team[..]), SquadSize - 1)
    {
      TryLowerSlot(team, sorted, target, i);
    }
  }

  /** The inner loop of lines 391-409 for slot `i`. */
  method TryLowerSlot(team: array<int>, sorted: seq<int>, target: int, i: int)
    requires team.Length == SquadSize && 0 <= i < SquadSize
    modifies team
    ensures team[..] == DownSlot(sorted, target, old(team[..]), i, 0)
  {
    var originalCard := team[i];
    for j := 0 to |sorted|
      invariant team[..] == old(team[..])
      invariant DownSlot(sorted, target, team[..], i, j) == DownSlot(sorted, target, old(team[..]), i, 0)
    {
      var rating := sorted[j];
      if rating < originalCard && rating !in team[..] && rating != 0 {
        team[i] := rating;
        var testRating := TeamRating(team[..]);
        if testRating >= target {
          return;
        }
        team[i] := originalCard;
        assert team[..] == old(team[..]);
      }
    }
  }

  /** No card of `r` is above the card in the same slot of `team`. */
  ghost predicate NoHigher(r: seq<int>, team: seq<int>)
  {
    |r| == |team| && forall k :: 0 <= k < |r| ==> r[k] <= team[k]
  }

  lemma {:induction false} NoHigherTrans(a: seq<int>, b: seq<int>, c: seq<int>)
    requires NoHigher(a, b) && NoHigher(b, c)
    ensures NoHigher(a, c)
  {
  }

  /** Putting a pool card that is not in the squad into a slot keeps the squad's cards in the pool. */
  lemma {:induction false} SwapInKeepsCards(team: seq<int>, i: int, x: int, pool: seq<int>)
    requires 0 <= i < |team| && multiset(team) <= multiset(pool) && x in pool && x !in team
    ensures multiset(team[i := x]) <= multiset(pool)
  {
    assert team == team[..i] + [team[i]] + team[i + 1..];
    assert team[i := x] == team[..i] + [x] + team[i + 1..];
    assert multiset(team)[x] == 0 && multiset(pool)[x] >= 1;
    MultisetSwapIn(multiset(team[..i] + team[i + 1..]), multiset(pool), team[i], x);
  }

  lemma {:induction false} MultisetSwapIn(rest: multiset<int>, pool: multiset<int>, old_: int, x: int)
    requires rest + multiset{old_} <= pool && (rest + multiset{old_})[x] == 0 && pool[x] >= 1
    ensures rest + multiset{x} <= pool
  {
    forall v
      ensures (rest + multiset{x})[v] <= pool[v]
    {
      assert (rest + multiset{old_})[v] <= pool[v];
    }
  }

  /** One slot of the downward pass keeps a qualifying squad of pool cards and only lowers that slot. */
  lemma {:induction false} DownSlotSpec(sorted: seq<int>, target: int, team: seq<int>, i: int, j: int)
    requires |team| == SquadSize && 0 <= i < SquadSize && 0 <= j
    requires multiset(team) <= multiset(sorted) && TeamRating(team) >= target
    ensures var r := DownSlot(sorted, target, team, i, j);
      multiset(r) <= multiset(sorted) && TeamRating(r) >= target && NoHigher(r, team)
    decreases |sorted| - j
  {
    if j < |sorted| {
      var rating := sorted[j];
      if rating < team[i] && rating !in team && rating != 0 && TeamRating(team[i := rating]) >= target {
        SwapInKeepsCards(team, i, rating, sorted);
      } else {
        DownSlotSpec(sorted, target, team, i, j + 1);
      }
    }
  }

  /**
   * The downward pass keeps the squad qualifying and made of pool cards, and no
   * slot ends up with a dearer card than it started with.
   */
  lemma {:induction false} DownPassSpec(sorted: seq<int>, target: int, team: seq<int>, i: int)
    requires |team| == SquadSize && -1 <= i < SquadSize
    requires multiset(team) <= multiset(sorted) && TeamRating(team) >= target
    ensures var r := DownPass(sorted, target, team, i);
      multiset(r) <= multiset(sorted) && TeamRating(r) >= target && NoHigher(r, team)
    decreases i + 1
  {
    if i >= 0 {
      var slot := DownSlot(sorted, target, team, i, 0);
      DownSlotSpec(sorted, target, team, i, 0);
      DownPassSpec(sorted, target, slot, i - 1);
      NoHigherTrans(DownPass(sorted, target, slot, i - 1), slot, team);
    }
  }

  /** Replacing a card by the next unused pool card keeps the squad and the cards still unused inside the pool. */
  lemma {:induction false} ReplaceWithNext(team: seq<int>, k: int, sorted: seq<int>, high: int)
    requires 0 <= k < |team| && 0 <= high < |sorted| && multiset(team) + multiset(sorted[high..]) <= multiset(sorted)
    ensures multiset(team[k := sorted[high]]) + multiset(sorted[high + 1..]) <= multiset(sorted)
  {
    assert team == team[..k] + [team[k]] + team[k + 1..];
    assert team[k := sorted[high]] == team[..k] + [sorted[high]] + team[k + 1..];
    assert sorted[high..] == [sorted[high]] + sorted[high + 1..];
    MultisetReplace(multiset(team[..k] + team[k + 1..]), multiset(sorted[high + 1..]), multiset(sorted),
                    team[k], sorted[high]);
  }

  lemma {:induction false} MultisetReplace(rest: multiset<int>, unused: multiset<int>, pool: multiset<int>, old_: int, x: int)
    requires (rest + multiset{old_}) + (multiset{x} + unused) <= pool
    ensures (rest + multiset{x}) + unused <= pool
  {
    forall v
      ensures ((rest + multiset{x}) + unused)[v] <= pool[v]
    {
      assert ((rest + multiset{old_}) + (multiset{x} + unused))[v] <= pool[v];
    }
  }

  /** The upward pass as written ends on eleven cards of the pool. */
  lemma {:induction false} UpAsWrittenSpec(sorted: seq<int>, target: int, team: seq<int>, low: int, high: int)
    requires |team| == SquadSize && 0 <= low < SquadSize && SquadSize <= high <= |sorted|
    requires multiset(team) + multiset(sorted[high..]) <= multiset(sorted)
    ensures multiset(UpAsWritten(sorted, target, team, low, high)) <= multiset(sorted)
    decreases |sorted| - high
  {
    if TeamRating(team) >= target || high >= |sorted| {
      MultisetLeOfSum(multiset(team), multiset(sorted[high..]), multiset(sorted));
    } else {
      ReplaceWithNext(team, low, sorted, high);
      UpAsWrittenSpec(sorted, target, Sort(team[low := sorted[high]]), (low + 1) % SquadSize, high + 1);
    }
  }

  lemma {:induction false} MultisetLeOfSum(a: multiset<int>, b: multiset<int>, c: multiset<int>)
    requires a + b <= c
    ensures a <= c
  {
    forall v
      ensures a[v] <= c[v]
    {
      assert (a + b)[v] <= c[v];
    }
  }

  /** Every squad `findEconomicalTeamRating` returns is eleven cards of the pool that reach the target. */
  lemma {:induction false} GreedyIsPick(pool: seq<int>, target: int)
    ensures Greedy(pool, target).Some? ==> IsPick(pool, target, Greedy(pool, target).value)
  {
    if |pool| >= SquadSize {
      var sorted := Sort(pool);
      SplitMultiset(sorted, SquadSize);
      if TeamRating(sorted[..SquadSize]) < target {
        UpThenDown(sorted, target);
      }
    }
  }

  /** `findEconomicalTeamRating` gives up on fewer than eleven cards and on a target no squad of the pool reaches. */
  lemma {:induction false} GreedyNone(pool: seq<int>, target: int)
    ensures |pool| < SquadSize ==> Greedy(pool, target).None?
    ensures (forall team :: !IsPick(pool, target, team)) ==> Greedy(pool, target).None?
  {
    GreedyIsPick(pool, target);
  }

  /** From the eleven lowest cards, the upward pass and then the downward pass give a qualifying squad of pool cards. */
  lemma {:induction false} UpThenDown(sorted: seq<int>, target: int)
    requires |sorted| >= SquadSize
    requires multiset(sorted[..SquadSize]) + multiset(sorted[SquadSize..]) == multiset(sorted)
    ensures var up := UpAsWritten(sorted, target, sorted[..SquadSize], 0, SquadSize);
      TeamRating(up) >= target ==> var r := DownPass(sorted, target, up, SquadSize - 1);
        multiset(r) <= multiset(sorted) && TeamRating(r) >= target
  {
    var up := UpAsWritten(sorted, target, sorted[..SquadSize], 0, SquadSize);
    UpAsWrittenSpec(sorted, target, sorted[..SquadSize], 0, SquadSize);
    if TeamRating(up) >= target {
      DownPassSpec(sorted, target, up, SquadSize - 1);
    }
  }

  /** The search sorts the pool first, so only which cards it holds matters, not their order. */
  lemma {:induction false} GreedyOrderFree(pool: seq<int>, pool': seq<int>, target: int)
    requires multiset(pool) == multiset(pool')
    ensures Greedy(pool, target) == Greedy(pool', target)
    ensures GreedyCorrected(pool, target) == GreedyCorrected(pool', target)
  {
    SortedUnique(Sort(pool), Sort(pool'));
    assert |pool| == |multiset(pool)| == |pool'|;
  }

  /**
   * With the lowest card always replaced, the squad is a window of eleven
   * consecutive cards of the sorted pool that slides up one card per round; a
   * pass that ends short of the target ends on the eleven highest cards.
   */
  lemma {:induction false} UpCorrectedWindow(sorted: seq<int>, target: int, k: int)
    requires Sorted(sorted) && 0 <= k && k + SquadSize <= |sorted|
    ensures var u := UpCorrected(sorted, target, sorted[k..k + SquadSize], k + SquadSize);
      multiset(u) <= multiset(sorted) && (TeamRating(u) < target ==> u == sorted[|sorted| - SquadSize..])
    decreases |sorted| - k
  {
    var window := sorted[k..k + SquadSize];
    if TeamRating(window) >= target || k + SquadSize >= |sorted| {
      SliceMultiset(sorted, k, k + SquadSize);
    } else {
      WindowSlides(sorted, k);
      UpCorrectedWindow(sorted, target, k + 1);
    }
  }

  /** Replacing the lowest card of a window by the card after it and sorting gives the next window. */
  lemma {:induction false} WindowSlides(sorted: seq<int>, k: int)
    requires Sorted(sorted) && 0 <= k && k + SquadSize < |sorted|
    ensures Sort(sorted[k..k + SquadSize][0 := sorted[k + SquadSize]]) == sorted[k + 1..k + SquadSize + 1]
  {
    var raised := sorted[k..k + SquadSize][0 := sorted[k + SquadSize]];
    var next := sorted[k + 1..k + SquadSize + 1];
    var middle := sorted[k + 1..k + SquadSize];
    assert raised == [sorted[k + SquadSize]] + middle;
    assert next == middle + [sorted[k + SquadSize]];
    SortedSlice(sorted, k + 1, k + SquadSize + 1);
    SortIsUnique(raised, next);
  }

  /** No eleven cards of a sorted pool rate higher than its eleven highest. */
  lemma {:induction false} TopElevenBest(sorted: seq<int>, team: seq<int>)
    requires Sorted(sorted) && |team| == SquadSize && multiset(team) <= multiset(sorted)
    ensures |sorted| >= SquadSize && TeamRating(team) <= TeamRating(sorted[|sorted| - SquadSize..])
  {
    var t := Sort(team);
    RatingPermutation(team, t);
    TopDominates(t, sorted);
    var top := sorted[|sorted| - SquadSize..];
    forall k | 0 <= k < SquadSize
      ensures t[k] <= top[k]
    {
      assert top[k] == sorted[|sorted| - SquadSize + k];
    }
    RatingMonotone(t, top);
  }

  /** Every squad the corrected search returns is eleven cards of the pool that reach the target. */
  lemma {:induction false} CorrectedIsPick(pool: seq<int>, target: int)
    ensures GreedyCorrected(pool, target).Some? ==> IsPick(pool, target, GreedyCorrected(pool, target).value)
  {
    if |pool| >= SquadSize {
      var sorted := Sort(pool);
      var lowest := sorted[..SquadSize];
      if TeamRating(lowest) >= target {
        SliceMultiset(sorted, 0, SquadSize);
        assert sorted[0..SquadSize] == lowest;
      } else {
        CorrectedUpThenDown(sorted, target);
      }
    }
  }

  lemma {:induction false} CorrectedUpThenDown(sorted: seq<int>, target: int)
    requires Sorted(sorted) && |sorted| >= SquadSize
    ensures var up := UpCorrected(sorted, target, sorted[..SquadSize], SquadSize);
      && multiset(up) <= multiset(sorted)
      && (TeamRating(up) < target ==> up == sorted[|sorted| - SquadSize..])
      && (TeamRating(up) >= target ==> var r := DownPass(sorted, target, up, SquadSize - 1);
            multiset(r) <= multiset(sorted) && TeamRating(r) >= target)
  {
    assert sorted[0..SquadSize] == sorted[..SquadSize];
    UpCorrectedWindow(sorted, target, 0);
    var up := UpCorrected(sorted, target, sorted[..SquadSize], SquadSize);
    if TeamRating(up) >= target {
      DownPassSpec(sorted, target, up, SquadSize - 1);
    }
  }

  /** The corrected search gives up only when the pool holds no qualifying squad at all. */
  lemma {:induction false} CorrectedNoneMeansNoPick(pool: seq<int>, target: int)
    requires GreedyCorrected(pool, target).None?
    ensures forall team :: !IsPick(pool, target, team)
  {
    if |pool| < SquadSize {
      NoPickFromFewCards(pool, target);
    } else {
      var sorted := Sort(pool);
      CorrectedUpThenDown(sorted, target);
      forall team | IsPick(pool, target, team)
        ensures false
      {
        TopElevenBest(sorted, team);
      }
    }
  }

  /** The corrected search finds a squad exactly when the pool holds a qualifying one. */
  lemma {:induction false} CorrectedNoneIff(pool: seq<int>, target: int)
    ensures GreedyCorrected(pool, target).None? <==> forall team :: !IsPick(pool, target, team)
  {
    CorrectedIsPick(pool, target);
    if GreedyCorrected(pool, target).None? {
      CorrectedNoneMeansNoPick(pool, target);
    }
  }

  /** On a pool of at least eleven cards of one rating, the lowest eleven already reach that rating. */
  lemma {:induction false} UniformGreedy(pool: seq<int>, v: int, n: int)
    requires n >= SquadSize && multiset(pool) == multiset(Repeat(v, n))
    ensures Greedy(pool, v) == Some(Repeat(v, SquadSize))
  {
    var sorted := Sort(pool);
    assert |pool| == |multiset(pool)| == n;
    SliceMultiset(sorted, 0, SquadSize);
    assert sorted[0..SquadSize] == sorted[..SquadSize];
    OnlyCopies(sorted[..SquadSize], v, n);
    UniformSquadRating(v);
  }

  /** Two cards at 10 and eleven at 90. */
  function MissPool(): seq<int>
  {
    [10, 10, 90, 90, 90, 90, 90, 90, 90, 90, 90, 90, 90]
  }

  /** The eleven lowest cards of `MissPool`. */
  function MissLowest(): seq<int>
  {
    [10, 10, 90, 90, 90, 90, 90, 90, 90, 90, 90]
  }

  /** One 10 and ten 90s: the squad after the first replacement and re-sort. */
  function MissRaised(): seq<int>
  {
    [10, 90, 90, 90, 90, 90, 90, 90, 90, 90, 90]
  }

  lemma MissRatings()
    ensures TeamRating(MissLowest()) == 87 && TeamRating(MissRaised()) == 89
  {
    assert Sum(MissLowest()) == 830;
    assert Sum(MissRaised()) == 910;
  }

  lemma MissPoolShape(pool: seq<int>)
    requires pool == MissPool()
    ensures Sorted(pool) && |pool| == 13 && pool[..SquadSize] == MissLowest()
    ensures pool[11] == 90 && pool[12] == 90
    ensures multiset(Repeat(90, SquadSize)) <= multiset(pool)
  {
    RepeatMultiset(90, SquadSize);
  }

  lemma MissRaisedShape(lowest: seq<int>, raised: seq<int>)
    requires lowest == MissLowest() && raised == MissRaised()
    ensures Sorted(raised) && raised[1 := 90] == raised
    ensures lowest[0 := 90][0] == raised[1] && lowest[0 := 90][1] == raised[0]
    ensures lowest[0 := 90][2..] == raised[2..]
  {
  }

  /** Swapping the first two cards keeps the same cards. */
  lemma {:induction false} SwapFrontMultiset(a: seq<int>, b: seq<int>)
    requires |a| >= 2 && |b| >= 2 && a[0] == b[1] && a[1] == b[0] && a[2..] == b[2..]
    ensures multiset(a) == multiset(b)
  {
    assert a == [a[0], a[1]] + a[2..];
    assert b == [b[0], b[1]] + b[2..];
  }

  /** Both replacements of the search as written, on the cards of `MissPool`. */
  lemma {:induction false} UpMisses(pool: seq<int>, lowest: seq<int>, raised: seq<int>)
    requires |pool| == 13 && pool[11] == 90 && pool[12] == 90
    requires |lowest| == SquadSize && TeamRating(lowest) == 87
    requires |raised| == SquadSize && TeamRating(raised) == 89
    requires Sort(lowest[0 := 90]) == raised && Sort(raised) == raised && raised[1 := 90] == raised
    ensures UpAsWritten(pool, 90, lowest, 0, SquadSize) == raised
  {
    assert UpAsWritten(pool, 90, raised, 1, SquadSize + 1) == raised;
  }

  lemma {:induction false} MissSorts(pool: seq<int>, lowest: seq<int>, raised: seq<int>)
    requires Sorted(pool) && Sorted(raised) && |lowest| >= 2 && |raised| >= 2
    requires lowest[0 := 90][0] == raised[1] && lowest[0 := 90][1] == raised[0]
    requires lowest[0 := 90][2..] == raised[2..]
    ensures Sort(pool) == pool && Sort(raised) == raised && Sort(lowest[0 := 90]) == raised
  {
    SwapFrontMultiset(lowest[0 := 90], raised);
    SortOfSorted(pool);
    SortOfSorted(raised);
    SortIsUnique(lowest[0 := 90], raised);
  }

  /** Eleven cards at 90 in the pool make a squad for the target 90, which the corrected search finds. */
  lemma {:induction false} CorrectedFinds(pool: seq<int>)
    requires multiset(Repeat(90, SquadSize)) <= multiset(pool)
    ensures IsPick(pool, 90, Repeat(90, SquadSize))
    ensures GreedyCorrected(pool, 90).Some?
  {
    UniformSquadRating(90);
    assert IsPick(pool, 90, Repeat(90, SquadSize));
    CorrectedNoneIff(pool, 90);
  }

  /** What the counterexample needs to know about `MissPool` and its two squads. */
  ghost predicate MissLayout(pool: seq<int>, lowest: seq<int>, raised: seq<int>)
  {
    && Sorted(pool) && |pool| == 13 && pool[..SquadSize] == lowest && pool[11] == 90 && pool[12] == 90
    && multiset(Repeat(90, SquadSize)) <= multiset(pool)
    && |lowest| == SquadSize && TeamRating(lowest) == 87
    && |raised| == SquadSize && TeamRating(raised) == 89 && Sorted(raised) && raised[1 := 90] == raised
    && lowest[0 := 90][0] == raised[1] && lowest[0 := 90][1] == raised[0]
    && lowest[0 := 90][2..] == raised[2..]
  }

  lemma MissLayoutHolds(pool: seq<int>)
    requires pool == MissPool()
    ensures MissLayout(pool, MissLowest(), MissRaised())
  {
    MissRatings();
    MissPoolShape(pool);
    MissRaisedShape(MissLowest(), MissRaised());
  }

  /** The search as written, and the corrected one, on any pool laid out like `MissPool`. */
  lemma {:induction false} GreedyMissesOn(pool: seq<int>, lowest: seq<int>, raised: seq<int>)
    requires MissLayout(pool, lowest, raised)
    ensures Greedy(pool, 90) == None
    ensures IsPick(pool, 90, Repeat(90, SquadSize))
    ensures GreedyCorrected(pool, 90).Some?
  {
    MissSorts(pool, lowest, raised);
    UpMisses(pool, lowest, raised);
    CorrectedFinds(pool);
  }

  /**
   * With the target 90 the search as written gives up on `MissPool`: the first
   * replacement lifts the squad to 89 and the second, in slot 1 after the
   * re-sort, swaps a 90 for a 90. The eleven cards at 90 rate 90 and the
   * corrected search finds a squad. (The pool is a parameter so that the
   * verifier does not evaluate `Sort` on a literal list.)
   */
  lemma {:induction false} GreedyMisses(pool: seq<int>)
    requires pool == MissPool()
    ensures Greedy(pool, 90) == None
    ensures IsPick(pool, 90, Repeat(90, SquadSize))
    ensures GreedyCorrected(pool, 90).Some?
  {
    MissLayoutHolds(pool);
    GreedyMissesOn(pool, MissLowest(), MissRaised());
  }
}
