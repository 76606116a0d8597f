/**
 * Sequence operations the rating code takes from JavaScript's Array:
 * `reduce` to a sum, `sort((a, b) => a - b)`, `indexOf` followed by
 * `splice(index, 1)`, and flattening a list of squads.
 */
module Seqs {

  /** The sum of the cards, `ratings.reduce((acc, r) => acc + r, 0)`. */
  function Sum(s: seq<int>): int
  {
    if s == [] then 0 else s[0] + Sum(s[1..])
  }

  ghost predicate Sorted(s: seq<int>)
  {
    forall i, j :: 0 <= i < j < |s| ==> s[i] <= s[j]
  }

  /** `count` copies of `v`; none when `count` is not positive (a `for` loop that never runs). */
  function Repeat(v: int, count: int): (r: seq<int>)
    ensures |r| == if count > 0 then count else 0
    ensures forall i :: 0 <= i < |r| ==> r[i] == v
    decreases count
  {
    if count <= 0 then [] else [v] + Repeat(v, count - 1)
  }

  /** The squads of a result laid end to end. */
  function Concat(ss: seq<seq<int>>): seq<int>
  {
    if ss == [] then [] else ss[0] + Concat(ss[1..])
  }

  function Insert(x: int, s: seq<int>): (r: seq<int>)
    ensures |r| == |s| + 1
    ensures multiset(r) == multiset(s) + multiset{x}
  {
    if s == [] || x <= s[0] then [x] + s
    else
      assert s == [s[0]] + s[1..];
      [s[0]] + Insert(x, s[1..])
  }

  lemma {:induction false} ConsSorted(h: int, r: seq<int>)
    requires Sorted(r) && forall k :: 0 <= k < |r| ==> h <= r[k]
    ensures Sorted([h] + r)
  {
    var t := [h] + r;
    forall i, j | 0 <= i < j < |t|
      ensures t[i] <= t[j]
    {
      assert t[j] == r[j - 1];
      if i > 0 {
        assert t[i] == r[i - 1];
      }
    }
  }

  lemma {:induction false} AppendSorted(s: seq<int>, x: int)
    requires Sorted(s) && (s != [] ==> s[|s| - 1] <= x)
    ensures Sorted(s + [x])
  {
    var t := s + [x];
    forall i, j | 0 <= i < j < |t|
      ensures t[i] <= t[j]
    {
      if j < |s| {
        assert t[i] == s[i] && t[j] == s[j];
      } else {
        assert t[i] == s[i] && s[i] <= s[|s| - 1];
      }
    }
  }

  /** Every card of `Insert(x, s)` is `x` or a card of `s`. */
  lemma {:induction false} InsertLowerBound(x: int, s: seq<int>, lo: int)
    requires lo <= x && forall k :: 0 <= k < |s| ==> lo <= s[k]
    ensures forall k :: 0 <= k < |Insert(x, s)| ==> lo <= Insert(x, s)[k]
  {
    var r := Insert(x, s);
    forall k | 0 <= k < |r|
      ensures lo <= r[k]
    {
      assert r[k] in multiset(r);
      if r[k] != x {
        assert r[k] in multiset(s);
      }
    }
  }

  lemma {:induction false} InsertSorted(x: int, s: seq<int>)
    requires Sorted(s)
    ensures Sorted(Insert(x, s))
  {
    if s == [] || x <= s[0] {
      ConsSorted(x, s);
    } else {
      var rest := Insert(x, s[1..]);
      assert Sorted(s[1..]);
      InsertSorted(x, s[1..]);
      InsertLowerBound(x, s[1..], s[0]);
      ConsSorted(s[0], rest);
    }
  }

  /**
   * The ascending order JavaScript's `sort((a, b) => a - b)` gives to a list of
   * integers: the one sorted permutation of the input.
   */
  function Sort(s: seq<int>): (r: seq<int>)
    ensures |r| == |s|
    ensures multiset(r) == multiset(s)
    ensures Sorted(r)
  {
    if s == [] then []
    else
      assert s == [s[0]] + s[1..];
      InsertSorted(s[0], Sort(s[1..]));
      Insert(s[0], Sort(s[1..]))
  }

  /** Sorting a list that is already in ascending order leaves it as it is. */
  lemma {:induction false} SortOfSorted(s: seq<int>)
    requires Sorted(s)
    ensures Sort(s) == s
  {
    if s != [] {
      SortOfSorted(s[1..]);
      assert Sort(s[1..]) == s[1..];
      assert s == [s[0]] + s[1..];
    }
  }

  /** `indexOf`: the first position holding `x`, or -1 when there is none. */
  function IndexOf(s: seq<int>, x: int): (i: int)
    ensures -1 <= i
    ensures i == -1 <==> x !in s
    ensures 0 <= i ==> i < |s| && s[i] == x && x !in s[..i]
  {
    if s == [] then -1
    else if s[0] == x then 0
    else
      var i := IndexOf(s[1..], x);
      assert s == [s[0]] + s[1..];
      if i == -1 then -1
      else
        assert s[..i + 1] == [s[0]] + s[1..][..i];
        i + 1
  }

  /** `const i = s.indexOf(x); if (i !== -1) s.splice(i, 1)`: drop the first `x`. */
  function RemoveFirst(s: seq<int>, x: int): (r: seq<int>)
  {
    var i := IndexOf(s, x);
    if i == -1 then s else s[..i] + s[i + 1..]
  }

  /** Taking out the card at position `j` takes exactly that card out of the multiset. */
  lemma {:induction false} RemoveAtMultiset(s: seq<int>, j: int)
    requires 0 <= j < |s|
    ensures multiset(s) == multiset(s[..j] + s[j + 1..]) + multiset{s[j]}
  {
    assert s == s[..j] + [s[j]] + s[j + 1..];
  }

  /** Adding the same card to two multisets keeps them equal only if they were equal. */
  lemma {:induction false} MultisetCancel(a: multiset<int>, b: multiset<int>, x: int)
    requires a + multiset{x} == b + multiset{x}
    ensures a == b
  {
    assert a == (a + multiset{x}) - multiset{x};
    assert b == (b + multiset{x}) - multiset{x};
  }

  /** A card common to both sides can be taken off an inclusion. */
  lemma {:induction false} MultisetLeCancel(a: multiset<int>, b: multiset<int>, x: int)
    requires a + multiset{x} <= b + multiset{x}
    ensures a <= b
  {
    forall v
      ensures a[v] <= b[v]
    {
      assert (a + multiset{x})[v] <= (b + multiset{x})[v];
    }
  }

  /** Removing the first `x` takes exactly one `x` away, when there is one. */
  lemma {:induction false} RemoveFirstMultiset(s: seq<int>, x: int)
    ensures multiset(RemoveFirst(s, x)) == multiset(s) - multiset{x}
  {
    var i := IndexOf(s, x);
    if i != -1 {
      RemoveAtMultiset(s, i);
      assert RemoveFirst(s, x) == s[..i] + s[i + 1..];
    } else {
      assert multiset(s)[x] == 0;
    }
  }

  /** Removes the cards of `team` one after the other, in the order of `team`. */
  function RemoveAll(s: seq<int>, team: seq<int>): seq<int>
  {
    if team == [] then s
    else RemoveFirst(RemoveAll(s, team[..|team| - 1]), team[|team| - 1])
  }

  /** The splices take away exactly the multiset of `team` (saturating). */
  lemma {:induction false} RemoveAllMultiset(s: seq<int>, team: seq<int>)
    ensures multiset(RemoveAll(s, team)) == multiset(s) - multiset(team)
  {
    if team != [] {
      var init, last := team[..|team| - 1], team[|team| - 1];
      assert team == init + [last];
      RemoveAllMultiset(s, init);
      RemoveFirstMultiset(RemoveAll(s, init), last);
      MultisetRemoveOneMore(multiset(s), multiset(init), last);
    }
  }

  lemma {:induction false} MultisetRemoveOneMore(whole: multiset<int>, taken: multiset<int>, x: int)
    ensures (whole - taken) - multiset{x} == whole - (taken + multiset{x})
  {
    forall v
      ensures ((whole - taken) - multiset{x})[v] == (whole - (taken + multiset{x}))[v]
    {
    }
  }

  lemma {:induction false} SumConcat(a: seq<int>, b: seq<int>)
    ensures Sum(a + b) == Sum(a) + Sum(b)
  {
    if a == [] {
      assert a + b == b;
    } else {
      assert (a + b)[1..] == a[1..] + b;
      SumConcat(a[1..], b);
    }
  }

  /**
   * Where the first card of `a` sits in a permutation `b` of it; the rest of `a`
   * is then a permutation of `b` without that position.
   */
  function MatchFirst(a: seq<int>, b: seq<int>): (j: int)
    requires a != [] && multiset(a) == multiset(b)
    ensures 0 <= j < |b| && b[j] == a[0]
    ensures multiset(a[1..]) == multiset(b[..j] + b[j + 1..])
  {
    assert a[0] in multiset(b);
    var j := IndexOf(b, a[0]);
    RemoveAtMultiset(b, j);
    RemoveHeadMultiset(a);
    MultisetCancel(multiset(a[1..]), multiset(b[..j] + b[j + 1..]), a[0]);
    j
  }

  lemma {:induction false} RemoveHeadMultiset(a: seq<int>)
    requires a != []
    ensures multiset(a) == multiset(a[1..]) + multiset{a[0]}
  {
    assert a == [a[0]] + a[1..];
  }

  /** Taking out the card at position `j` lowers the sum by that card. */
  lemma {:induction false} RemoveAtSum(s: seq<int>, j: int)
    requires 0 <= j < |s|
    ensures Sum(s) == Sum(s[..j] + s[j + 1..]) + s[j]
  {
    assert s == s[..j] + ([s[j]] + s[j + 1..]);
    SumConcat(s[..j], [s[j]] + s[j + 1..]);
    SumConcat(s[..j], s[j + 1..]);
    assert Sum([s[j]] + s[j + 1..]) == s[j] + Sum(s[j + 1..]) by {
      assert ([s[j]] + s[j + 1..])[1..] == s[j + 1..];
    }
  }

  /** The sum depends only on which cards there are, not on their order. */
  lemma {:induction false} SumPermutation(a: seq<int>, b: seq<int>)
    requires multiset(a) == multiset(b)
    ensures Sum(a) == Sum(b)
    decreases |a|
  {
    if a == [] {
      assert |b| == |multiset(b)| == 0;
    } else {
      var j := MatchFirst(a, b);
      var b' := b[..j] + b[j + 1..];
      SumPermutation(a[1..], b');
      RemoveAtSum(b, j);
    }
  }

  lemma {:induction false} ConcatSnoc(ss: seq<seq<int>>, t: seq<int>)
    ensures Concat(ss + [t]) == Concat(ss) + t
  {
    if ss == [] {
      assert Concat([t]) == t + Concat([]);
    } else {
      assert (ss + [t])[1..] == ss[1..] + [t];
      ConcatSnoc(ss[1..], t);
    }
  }

  /** Sorting each squad of a list, as `squads.map(s => [...s].sort(...))`. */
  function SortEach(ss: seq<seq<int>>): (r: seq<seq<int>>)
    ensures |r| == |ss|
    ensures forall i :: 0 <= i < |ss| ==> r[i] == Sort(ss[i])
  {
    seq(|ss|, i requires 0 <= i < |ss| => Sort(ss[i]))
  }

  /** A list whose cards all come from another list is no longer than it. */
  lemma {:induction false} SubMultisetLength(a: seq<int>, b: seq<int>)
    requires multiset(a) <= multiset(b)
    ensures |a| <= |b|
  {
    var spare := multiset(b) - multiset(a);
    assert multiset(b) == multiset(a) + spare;
    assert |multiset(b)| == |multiset(a)| + |spare|;
  }

  /** Two ascending lists with the same cards are the same list. */
  lemma {:induction false} SortedUnique(a: seq<int>, b: seq<int>)
    requires Sorted(a) && Sorted(b) && multiset(a) == multiset(b)
    ensures a == b
    decreases |a|
  {
    if a == [] {
      assert |b| == |multiset(b)| == 0;
    } else {
      assert |b| == |multiset(b)| == |multiset(a)| == |a|;
      assert a[0] in multiset(b) && b[0] in multiset(a);
      var i :| 0 <= i < |b| && b[i] == a[0];
      var j :| 0 <= j < |a| && a[j] == b[0];
      assert a[0] <= a[j] && b[0] <= b[i];
      RemoveHeadMultiset(a);
      RemoveHeadMultiset(b);
      MultisetCancel(multiset(a[1..]), multiset(b[1..]), a[0]);
      SortedUnique(a[1..], b[1..]);
      assert a == [a[0]] + a[1..] && b == [b[0]] + b[1..];
    }
  }

  /** `Sort` gives the one ascending permutation there is. */
  lemma {:induction false} SortIsUnique(s: seq<int>, r: seq<int>)
    requires Sorted(r) && multiset(r) == multiset(s)
    ensures Sort(s) == r
  {
    SortedUnique(Sort(s), r);
  }

  /** Cutting a list in two splits its cards between the halves. */
  lemma {:induction false} SplitMultiset(s: seq<int>, k: int)
    requires 0 <= k <= |s|
    ensures multiset(s[..k]) + multiset(s[k..]) == multiset(s)
  {
    assert s == s[..k] + s[k..];
  }

  /** The cards of a slice are cards of the whole list. */
  lemma {:induction false} SliceMultiset(s: seq<int>, lo: int, hi: int)
    requires 0 <= lo <= hi <= |s|
    ensures multiset(s[lo..hi]) <= multiset(s)
  {
    assert s == s[..lo] + s[lo..hi] + s[hi..];
  }

  /** Position by position, `t` is beaten by the last `|t|` cards of `s`. */
  ghost predicate Dominated(t: seq<int>, s: seq<int>)
  {
    |t| <= |s| && forall k :: 0 <= k < |t| ==> t[k] <= s[|s| - |t| + k]
  }

  /**
   * An ascending list `t` whose cards all come from an ascending list `s` is
   * beaten position by position by the last `|t|` cards of `s`.
   */
  lemma {:induction false} TopDominates(t: seq<int>, s: seq<int>)
    requires Sorted(t) && Sorted(s) && multiset(t) <= multiset(s)
    ensures Dominated(t, s)
    decreases |t|
  {
    if t == [] {
      SubMultisetLength(t, s);
    } else {
      DropLargest(t, s);
      SortedPrefix(t, |t| - 1);
      SortedPrefix(s, |s| - 1);
      TopDominates(t[..|t| - 1], s[..|s| - 1]);
      DominatedSnoc(t, s);
    }
  }

  lemma {:induction false} DominatedSnoc(t: seq<int>, s: seq<int>)
    requires t != [] && s != [] && t[|t| - 1] <= s[|s| - 1]
    requires Dominated(t[..|t| - 1], s[..|s| - 1])
    ensures Dominated(t, s)
  {
    var m, n := |t|, |s|;
    forall k | 0 <= k < m
      ensures t[k] <= s[n - m + k]
    {
      if k < m - 1 {
        assert t[k] == t[..m - 1][k] && s[..n - 1][(n - 1) - (m - 1) + k] == s[n - m + k];
      }
    }
  }

  /** Dropping the largest card of both lists keeps the inclusion, and the largest of `t` is at most that of `s`. */
  lemma {:induction false} DropLargest(t: seq<int>, s: seq<int>)
    requires Sorted(t) && Sorted(s) && multiset(t) <= multiset(s) && t != []
    ensures s != [] && t[|t| - 1] <= s[|s| - 1]
    ensures multiset(t[..|t| - 1]) <= multiset(s[..|s| - 1])
  {
    var last := t[|t| - 1];
    LastIsLargest(s, last);
    SnocMultiset(t);
    SnocMultiset(s);
    var top := s[|s| - 1];
    if last < top {
      LargestAbsent(t, top);
    }
    MultisetDropMax(multiset(t[..|t| - 1]), multiset(s[..|s| - 1]), last, top);
  }

  lemma {:induction false} SortedPrefix(s: seq<int>, k: int)
    requires Sorted(s) && 0 <= k <= |s|
    ensures Sorted(s[..k])
  {
    forall i, j | 0 <= i < j < k
      ensures s[..k][i] <= s[..k][j]
    {
      assert s[..k][i] == s[i] && s[..k][j] == s[j];
    }
  }

  /** `Repeat(x, n)` holds `n` copies of `x` and nothing else. */
  lemma {:induction false} RepeatMultiset(x: int, n: int)
    ensures forall v :: multiset(Repeat(x, n))[v] == if v == x && n > 0 then n else 0
    decreases n
  {
    if n > 0 {
      RepeatMultiset(x, n - 1);
      assert Repeat(x, n) == [x] + Repeat(x, n - 1);
    }
  }

  lemma {:induction false} RepeatConcat(v: int, n: nat, m: nat)
    ensures Repeat(v, n) + Repeat(v, m) == Repeat(v, n + m)
    decreases n
  {
    if n > 0 {
      RepeatConcat(v, n - 1, m);
      assert Repeat(v, n) + Repeat(v, m) == [v] + (Repeat(v, n - 1) + Repeat(v, m));
    }
  }

  /** Cards drawn from copies of `v` are all `v`. */
  lemma {:induction false} OnlyCopies(t: seq<int>, v: int, n: int)
    requires multiset(t) <= multiset(Repeat(v, n))
    ensures t == Repeat(v, |t|)
  {
    RepeatMultiset(v, n);
    forall k | 0 <= k < |t|
      ensures t[k] == v
    {
      assert t[k] in multiset(t);
    }
  }

  lemma {:induction false} SortedSlice(s: seq<int>, lo: int, hi: int)
    requires Sorted(s) && 0 <= lo <= hi <= |s|
    ensures Sorted(s[lo..hi])
  {
    forall i, j | 0 <= i < j < hi - lo
      ensures s[lo..hi][i] <= s[lo..hi][j]
    {
      assert s[lo..hi][i] == s[lo + i] && s[lo..hi][j] == s[lo + j];
    }
  }

  /** The last card of an ascending list is at least any of its cards. */
  lemma {:induction false} LastIsLargest(s: seq<int>, x: int)
    requires Sorted(s) && x in multiset(s)
    ensures s != [] && x <= s[|s| - 1]
  {
    var i :| 0 <= i < |s| && s[i] == x;
  }

  lemma {:induction false} SnocMultiset(s: seq<int>)
    requires s != []
    ensures multiset(s) == multiset(s[..|s| - 1]) + multiset{s[|s| - 1]}
  {
    assert s == s[..|s| - 1] + [s[|s| - 1]];
  }

  /** A card above the last of an ascending list is not among the others. */
  lemma {:induction false} LargestAbsent(t: seq<int>, y: int)
    requires Sorted(t) && t != [] && t[|t| - 1] < y
    ensures multiset(t[..|t| - 1])[y] == 0
  {
    var t' := t[..|t| - 1];
    forall j | 0 <= j < |t'|
      ensures t'[j] != y
    {
      assert t'[j] == t[j];
    }
  }

  /**
   * When `a + {x} <= b + {y}` with `x <= y`, and `y` is not in `a` unless
   * `x == y`, then `a <= b`.
   */
  lemma {:induction false} MultisetDropMax(a: multiset<int>, b: multiset<int>, x: int, y: int)
    requires a + multiset{x} <= b + multiset{y} && x <= y && (x < y ==> a[y] == 0)
    ensures a <= b
  {
    forall v
      ensures a[v] <= b[v]
    {
      assert (a + multiset{x})[v] <= (b + multiset{y})[v];
    }
  }
}
