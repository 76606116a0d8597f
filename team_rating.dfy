/**
 * The squad-rating formula (app/utils/ratingCalculator.ts, calculateTeamRating).
 *
 * With `sum` the total of the eleven ratings and `avg = sum / 11`, the rating is
 * `floor((sum + Σ max(0, r - avg)) / 11)`.  Multiplying through by 11 keeps every
 * quantity an integer: `floor((11 * sum + Σ max(0, 11 * r - sum)) / 121)`.
 * `TeamRating` is that integer form; `RealRating` is the formula over the reals,
 * and `RatingMatchesRealFormula` proves the two equal.
 */
module TeamRatings {
  import opened Seqs
  import opened Wrappers

  /** Every squad has exactly this many cards. */
  const SquadSize := 11

  /** `11 * max(0, r - total / 11)`: eleven times a card's surplus above the average. */
  function Excess(r: int, total: int): int
  {
    if 11 * r > total then 11 * r - total else 0
  }

  /** Eleven times the sum of the surpluses above the average `total / 11`. */
  function Surplus(s: seq<int>, total: int): int
  {
    if s == [] then 0 else Excess(s[0], total) + Surplus(s[1..], total)
  }

  /** The rating of an eleven-card squad, in exact integer arithmetic. */
  function TeamRating(team: seq<int>): int
    requires |team| == SquadSize
  {
    var total := Sum(team);
    (11 * total + Surplus(team, total)) / 121
  }

  /** The surpluses `max(0, r - average)` summed over the reals, as lines 24-29 compute them. */
  function RealSurplus(s: seq<int>, average: real): real
  {
    if s == [] then 0.0
    else
      (if s[0] as real - average > 0.0 then s[0] as real - average else 0.0)
      + RealSurplus(s[1..], average)
  }

  /** The formula as written over real numbers: average, surplus, sum, floor of a division by 11. */
  function RealRating(team: seq<int>): int
    requires |team| == SquadSize
  {
    var sum := Sum(team) as real;
    ((sum + RealSurplus(team, sum / 11.0)) / 11.0).Floor
  }

  /**
   * `calculateTeamRating`: fails on any list that does not hold exactly eleven
   * ratings, and otherwise returns the floor of the real-valued formula.
   */
  function CalculateTeamRating(playerRatings: seq<int>): (r: Result<int>)
    ensures r.Ok? <==> |playerRatings| == SquadSize
    ensures r.Ok? ==> r.value == RealRating(playerRatings)
  {
    if |playerRatings| != SquadSize then
      Err("Une équipe doit contenir exactement 11 joueurs")
    else
      RatingMatchesRealFormula(playerRatings);
      Ok(TeamRating(playerRatings))
  }

  lemma {:induction false} RealSurplusScaled(s: seq<int>, total: int)
    ensures RealSurplus(s, total as real / 11.0) == Surplus(s, total) as real / 11.0
  {
    if s != [] {
      RealSurplusScaled(s[1..], total);
      var d := s[0] as real - total as real / 11.0;
      assert d == (11 * s[0] - total) as real / 11.0;
      assert (if d > 0.0 then d else 0.0) == Excess(s[0], total) as real / 11.0;
    }
  }

  lemma {:induction false} FloorOfQuotient(a: int)
    ensures (a as real / 121.0).Floor == a / 121
  {
    var f := (a as real / 121.0).Floor;
    assert f as real <= a as real / 121.0 < f as real + 1.0;
    assert (121 * f) as real <= a as real < (121 * f + 121) as real;
    assert 121 * f <= a < 121 * f + 121;
  }

  /** The integer formula and the real-valued one always agree. */
  lemma {:induction false} RatingMatchesRealFormula(team: seq<int>)
    requires |team| == SquadSize
    ensures TeamRating(team) == RealRating(team)
  {
    var total := Sum(team);
    RealSurplusScaled(team, total);
    var sum := total as real;
    var x := Surplus(team, total);
    assert RealSurplus(team, sum / 11.0) == x as real / 11.0;
    assert (sum + x as real / 11.0) / 11.0 == (11 * total + x) as real / 121.0;
    FloorOfQuotient(11 * total + x);
  }

  lemma {:induction false} SurplusNonNegative(s: seq<int>, total: int)
    ensures Surplus(s, total) >= 0
  {
    if s != [] {
      SurplusNonNegative(s[1..], total);
    }
  }

  lemma {:induction false} SurplusConcat(a: seq<int>, b: seq<int>, total: int)
    ensures Surplus(a + b, total) == Surplus(a, total) + Surplus(b, total)
  {
    if a == [] {
      assert a + b == b;
    } else {
      assert (a + b)[1..] == a[1..] + b;
      SurplusConcat(a[1..], b, total);
    }
  }

  /** Taking out the card at position `j` lowers the surplus by that card's excess. */
  lemma {:induction false} RemoveAtSurplus(s: seq<int>, j: int, total: int)
    requires 0 <= j < |s|
    ensures Surplus(s, total) == Surplus(s[..j] + s[j + 1..], total) + Excess(s[j], total)
  {
    assert s == s[..j] + ([s[j]] + s[j + 1..]);
    SurplusConcat(s[..j], [s[j]] + s[j + 1..], total);
    SurplusConcat(s[..j], s[j + 1..], total);
    assert Surplus([s[j]] + s[j + 1..], total) == Excess(s[j], total) + Surplus(s[j + 1..], total) by {
      assert ([s[j]] + s[j + 1..])[1..] == s[j + 1..];
    }
  }

  lemma {:induction false} SurplusPermutation(a: seq<int>, b: seq<int>, total: int)
    requires multiset(a) == multiset(b)
    ensures Surplus(a, total) == Surplus(b, total)
    decreases |a|
  {
    if a == [] {
      assert |b| == |multiset(b)| == 0;
    } else {
      var j := MatchFirst(a, b);
      SurplusPermutation(a[1..], b[..j] + b[j + 1..], total);
      RemoveAtSurplus(b, j, total);
    }
  }

  /** The rating depends only on which cards make up the squad, not on their order. */
  lemma {:induction false} RatingPermutation(a: seq<int>, b: seq<int>)
    requires |a| == SquadSize && multiset(a) == multiset(b)
    ensures |b| == SquadSize && TeamRating(a) == TeamRating(b)
  {
    assert |b| == |multiset(b)| == |multiset(a)| == |a|;
    SumPermutation(a, b);
    SurplusPermutation(a, b, Sum(a));
  }

  lemma {:induction false} SumRepeat(v: int, n: nat)
    ensures Sum(Repeat(v, n)) == n * v
  {
    if n > 0 {
      SumRepeat(v, n - 1);
      assert Repeat(v, n)[1..] == Repeat(v, n - 1);
    }
  }

  lemma {:induction false} SurplusRepeatAtAverage(v: int, n: nat, total: int)
    requires 11 * v <= total
    ensures Surplus(Repeat(v, n), total) == 0
  {
    if n > 0 {
      SurplusRepeatAtAverage(v, n - 1, total);
      assert Repeat(v, n)[1..] == Repeat(v, n - 1);
    }
  }

  /** Eleven copies of the same rating `v` rate exactly `v`. */
  lemma {:induction false} UniformSquadRating(v: int)
    ensures TeamRating(Repeat(v, SquadSize)) == v
  {
    SumRepeat(v, SquadSize);
    SurplusRepeatAtAverage(v, SquadSize, 11 * v);
  }

  lemma {:induction false} SurplusAtMost(s: seq<int>, total: int, best: int)
    requires forall i :: 0 <= i < |s| ==> s[i] <= best
    requires total <= 11 * best
    ensures Surplus(s, total) <= |s| * (11 * best - total)
  {
    if s != [] {
      SurplusAtMost(s[1..], total, best);
    }
  }

  lemma {:induction false} SumAtMost(s: seq<int>, best: int)
    requires forall i :: 0 <= i < |s| ==> s[i] <= best
    ensures Sum(s) <= |s| * best
  {
    if s != [] {
      SumAtMost(s[1..], best);
    }
  }

  lemma {:induction false} SumAtLeast(s: seq<int>, worst: int)
    requires forall i :: 0 <= i < |s| ==> worst <= s[i]
    ensures |s| * worst <= Sum(s)
  {
    if s != [] {
      SumAtLeast(s[1..], worst);
    }
  }

  /**
   * A squad rates at least the floor of its average, because the surplus term is
   * never negative.
   */
  lemma {:induction false} RatingAtLeastAverage(team: seq<int>)
    requires |team| == SquadSize
    ensures TeamRating(team) >= Sum(team) / 11
  {
    var total := Sum(team);
    SurplusNonNegative(team, total);
    assert 11 * total / 121 == total / 11;
  }

  /** A squad never rates above its best card nor below its worst one. */
  lemma {:induction false} RatingBetweenWorstAndBest(team: seq<int>, worst: int, best: int)
    requires |team| == SquadSize
    requires forall i :: 0 <= i < |team| ==> worst <= team[i] <= best
    ensures worst <= TeamRating(team) <= best
  {
    var total := Sum(team);
    SumAtMost(team, best);
    SumAtLeast(team, worst);
    SurplusAtMost(team, total, best);
    RatingAtLeastAverage(team);
    assert 11 * total + Surplus(team, total) <= 121 * best;
  }

  lemma {:induction false} SumUpdate(s: seq<int>, k: nat, v: int)
    requires k < |s|
    ensures Sum(s[k := v]) == Sum(s) - s[k] + v
  {
    if k > 0 {
      assert s[k := v][1..] == s[1..][k - 1 := v];
      SumUpdate(s[1..], k - 1, v);
    }
  }

  lemma {:induction false} SurplusUpdate(s: seq<int>, k: nat, v: int, total: int)
    requires k < |s|
    ensures Surplus(s[k := v], total) == Surplus(s, total) - Excess(s[k], total) + Excess(v, total)
  {
    if k > 0 {
      assert s[k := v][1..] == s[1..][k - 1 := v];
      SurplusUpdate(s[1..], k - 1, v, total);
    }
  }

  /** Raising the average by `d` lowers each card's excess by at most `d`. */
  lemma {:induction false} SurplusShift(s: seq<int>, total: int, d: nat)
    ensures Surplus(s, total + d) >= Surplus(s, total) - |s| * d
  {
    if s != [] {
      SurplusShift(s[1..], total, d);
      assert |s| * d == d + |s[1..]| * d;
    }
  }

  /** Replacing one card by a card rated at least as high never lowers the squad rating. */
  lemma {:induction false} RaisingOneCardNeverLowersRating(team: seq<int>, k: nat, v: int)
    requires |team| == SquadSize && k < SquadSize && team[k] <= v
    ensures TeamRating(team) <= TeamRating(team[k := v])
  {
    var raised := team[k := v];
    var total, d := Sum(team), v - team[k];
    SumUpdate(team, k, v);
    assert Sum(raised) == total + d;
    SurplusShift(raised, total, d);
    SurplusUpdate(team, k, v, total);
    assert Excess(team[k], total) <= Excess(v, total);
    assert 11 * total + Surplus(team, total) <= 11 * (total + d) + Surplus(raised, total + d);
  }

  /** A squad that beats another position by position rates at least as high. */
  lemma {:induction false} RatingMonotone(weaker: seq<int>, stronger: seq<int>)
    requires |weaker| == SquadSize && |stronger| == SquadSize
    requires forall k :: 0 <= k < SquadSize ==> weaker[k] <= stronger[k]
    ensures TeamRating(weaker) <= TeamRating(stronger)
  {
    RaiseFrom(weaker, stronger, 0);
    assert stronger[..0] + weaker[0..] == weaker;
  }

  /** Raising the cards from position `k` on, one at a time, never lowers the rating. */
  lemma {:induction false} RaiseFrom(weaker: seq<int>, stronger: seq<int>, k: nat)
    requires |weaker| == SquadSize && |stronger| == SquadSize && k <= SquadSize
    requires forall j :: 0 <= j < SquadSize ==> weaker[j] <= stronger[j]
    ensures TeamRating(stronger[..k] + weaker[k..]) <= TeamRating(stronger)
    decreases SquadSize - k
  {
    if k == SquadSize {
      assert stronger[..k] + weaker[k..] == stronger;
    } else {
      var mix := stronger[..k] + weaker[k..];
      assert mix[k := stronger[k]] == stronger[..k + 1] + weaker[k + 1..];
      RaisingOneCardNeverLowersRating(mix, k, stronger[k]);
      RaiseFrom(weaker, stronger, k + 1);
    }
  }
}
