/**
 * The inventory, `Record<string, number>` from rating to number of cards, and the
 * conversions between it and a flat list of ratings (app/utils/ratingCalculator.ts).
 *
 * JavaScript enumerates the integer-like keys of an object in ascending numeric
 * order, so `Object.entries` is modelled as the entries sorted by rating.
 */
module Inventories {
  import opened Seqs

  /** Rating -> number of cards of that rating. */
  type Inventory = map<int, int>

  /** `inv[key] || 0`. */
  function CountOf(inv: Inventory, k: int): int
  {
    if k in inv then inv[k] else 0
  }

  /** `inv[key] = (inv[key] || 0) + 1`. */
  function AddOne(inv: Inventory, x: int): Inventory
  {
    inv[x := CountOf(inv, x) + 1]
  }

  /** One `AddOne` per card, in list order. */
  function AddCards(inv: Inventory, cards: seq<int>): Inventory
  {
    if cards == [] then inv
    else AddOne(AddCards(inv, cards[..|cards| - 1]), cards[|cards| - 1])
  }

  /** `inv[key] = (inv[key] || 0) - 1; if (inv[key] <= 0) delete inv[key]`. */
  function TakeOne(inv: Inventory, x: int): Inventory
  {
    var c := CountOf(inv, x) - 1;
    if c <= 0 then inv - {x} else inv[x := c]
  }

  /** One `TakeOne` per card, in list order. */
  function TakeCards(inv: Inventory, cards: seq<int>): Inventory
  {
    if cards == [] then inv
    else TakeOne(TakeCards(inv, cards[..|cards| - 1]), cards[|cards| - 1])
  }

  /** Adding cards raises each rating's count by the number of its copies among them. */
  lemma {:induction false} AddCardsCounts(inv: Inventory, cards: seq<int>)
    ensures forall v :: v in AddCards(inv, cards) <==> v in inv || v in cards
    ensures forall v :: CountOf(AddCards(inv, cards), v) == CountOf(inv, v) + multiset(cards)[v]
  {
    if cards != [] {
      var init, last := cards[..|cards| - 1], cards[|cards| - 1];
      AddCardsCounts(inv, init);
      assert cards == init + [last];
      assert multiset(cards) == multiset(init) + multiset{last};
      forall v | v in cards
        ensures v in init || v == last
      {
        var i :| 0 <= i < |cards| && cards[i] == v;
        if i < |init| {
          assert init[i] == v;
        }
      }
    }
  }

  /**
   * The count of every rating in a list of cards: what the counting loops of
   * `groupRatingsByValue` and `convertToInventory` build.
   */
  function Tally(ratings: seq<int>): (m: Inventory)
    ensures forall v :: v in m <==> v in ratings
    ensures forall v :: v in m ==> m[v] == multiset(ratings)[v]
  {
    AddCardsCounts(map[], ratings);
    AddCards(map[], ratings)
  }

  lemma {:induction false} MinExists(keys: set<int>)
    requires keys != {}
    ensures exists k :: k in keys && forall j :: j in keys ==> k <= j
    decreases |keys|
  {
    if forall y :: y !in keys {
      assert false;
    }
    var x :| x in keys;
    var rest := keys - {x};
    if rest != {} {
      MinExists(rest);
      var m :| m in rest && forall j :: j in rest ==> m <= j;
      var k := if x < m then x else m;
      forall j | j in keys
        ensures k <= j
      {
        if j != x {
          assert j in rest;
        }
      }
      assert k in keys;
    } else {
      forall j | j in keys
        ensures x <= j
      {
        assert j !in rest;
      }
    }
  }

  /** The smallest rating present. */
  function MinKey(keys: set<int>): (k: int)
    requires keys != {}
    ensures k in keys && forall j :: j in keys ==> k <= j
  {
    MinExists(keys);
    var k :| k in keys && forall j :: j in keys ==> k <= j;
    k
  }

  /** `Object.entries(inv)` with the keys read back as numbers: ascending by rating. */
  function Entries(inv: Inventory): seq<(int, int)>
    decreases |inv|
  {
    if inv == map[] then []
    else
      var k := MinKey(inv.Keys);
      assert (inv - {k}).Keys == inv.Keys - {k};
      [(k, inv[k])] + Entries(inv - {k})
  }

  /** The entries list every key once, with its count, in strictly ascending order. */
  lemma {:induction false} EntriesSpec(inv: Inventory)
    ensures |Entries(inv)| == |inv|
    ensures forall i :: 0 <= i < |Entries(inv)| ==>
      Entries(inv)[i].0 in inv && Entries(inv)[i].1 == inv[Entries(inv)[i].0]
    ensures forall i, j :: 0 <= i < j < |Entries(inv)| ==> Entries(inv)[i].0 < Entries(inv)[j].0
    decreases |inv|
  {
    if inv != map[] {
      var k := MinKey(inv.Keys);
      var rest := inv - {k};
      assert rest.Keys == inv.Keys - {k};
      EntriesSpec(rest);
      var es := Entries(inv);
      assert es == [(k, inv[k])] + Entries(rest);
      forall i | 0 < i < |es|
        ensures es[i].0 in rest && k < es[i].0
      {
        assert es[i] == Entries(rest)[i - 1];
      }
    }
  }

  /** The cards of a list of `(rating, count)` groups, each rating repeated `count` times. */
  function Expand(groups: seq<(int, int)>): seq<int>
  {
    if groups == [] then [] else Repeat(groups[0].0, groups[0].1) + Expand(groups[1..])
  }

  lemma {:induction false} ExpandSnoc(groups: seq<(int, int)>, g: (int, int))
    ensures Expand(groups + [g]) == Expand(groups) + Repeat(g.0, g.1)
  {
    if groups == [] {
      assert Expand([g]) == Repeat(g.0, g.1) + Expand([]);
    } else {
      assert (groups + [g])[1..] == groups[1..] + [g];
      ExpandSnoc(groups[1..], g);
    }
  }

  lemma {:induction false} ExpandPrefix(groups: seq<(int, int)>, e: int)
    requires 0 <= e < |groups|
    ensures Expand(groups[..e + 1]) == Expand(groups[..e]) + Repeat(groups[e].0, groups[e].1)
  {
    assert groups[..e + 1] == groups[..e] + [groups[e]];
    ExpandSnoc(groups[..e], groups[e]);
  }

  /** The flat list of ratings an inventory stands for (lines 54-61, 112-119, 478-484). */
  function Flatten(inv: Inventory): seq<int>
  {
    Expand(Entries(inv))
  }

  /** The inventory without its zero and negative counts. */
  function Positive(inv: Inventory): Inventory
  {
    map k | k in inv && inv[k] > 0 :: inv[k]
  }

  /** A flattened inventory holds `max(0, count)` copies of each rating and nothing else. */
  lemma {:induction false} FlattenCounts(inv: Inventory)
    ensures forall v :: multiset(Flatten(inv))[v] == if v in inv && inv[v] > 0 then inv[v] else 0
    decreases |inv|
  {
    if inv != map[] {
      var k := MinKey(inv.Keys);
      var rest := inv - {k};
      assert rest.Keys == inv.Keys - {k};
      FlattenCounts(rest);
      assert Flatten(inv) == Repeat(k, inv[k]) + Flatten(rest);
      RepeatMultiset(k, inv[k]);
    }
  }

  /** Flattening an inventory and counting it again gives the inventory minus its empty keys. */
  lemma {:induction false} TallyFlatten(inv: Inventory)
    ensures Tally(Flatten(inv)) == Positive(inv)
  {
    FlattenCounts(inv);
    var t := Tally(Flatten(inv));
    forall v
      ensures v in t <==> v in Positive(inv)
    {
      assert v in Flatten(inv) <==> multiset(Flatten(inv))[v] > 0;
    }
    assert t.Keys == Positive(inv).Keys;
  }

  /** Counting a list and flattening the counts gives back the same cards. */
  lemma {:induction false} FlattenTally(ratings: seq<int>)
    ensures multiset(Flatten(Tally(ratings))) == multiset(ratings)
  {
    var t := Tally(ratings);
    FlattenCounts(t);
    forall v
      ensures multiset(Flatten(t))[v] == multiset(ratings)[v]
    {
      assert v in ratings <==> multiset(ratings)[v] > 0;
    }
  }

  /** Every rating present has at least one card, as in an inventory built by counting. */
  ghost predicate PositiveCounts(inv: Inventory)
  {
    forall v :: v in inv ==> inv[v] > 0
  }

  lemma {:induction false} TallyPositive(ratings: seq<int>)
    ensures PositiveCounts(Tally(ratings))
  {
    forall v | v in Tally(ratings)
      ensures Tally(ratings)[v] > 0
    {
      assert v in ratings;
    }
  }

  /** With no empty keys, an inventory flattens to exactly its counts. */
  lemma {:induction false} FlattenPositive(inv: Inventory)
    requires PositiveCounts(inv)
    ensures forall v :: multiset(Flatten(inv))[v] == CountOf(inv, v)
  {
    FlattenCounts(inv);
  }

  /**
   * Taking cards lowers each rating's count by its copies among them, down to
   * zero and no further (the key is deleted); other ratings keep their count.
   */
  lemma {:induction false} TakeCardsCounts(inv: Inventory, cards: seq<int>)
    ensures forall v :: CountOf(TakeCards(inv, cards), v) == (
              if multiset(cards)[v] == 0 then CountOf(inv, v)
              else if CountOf(inv, v) > multiset(cards)[v] then CountOf(inv, v) - multiset(cards)[v]
              else 0)
    decreases |cards|
  {
    if cards != [] {
      var init, last := cards[..|cards| - 1], cards[|cards| - 1];
      TakeCardsCounts(inv, init);
      assert cards == init + [last];
      assert multiset(cards) == multiset(init) + multiset{last};
    }
  }

  /** Taking cards out of an inventory with no empty keys leaves none. */
  lemma {:induction false} TakeCardsPositive(inv: Inventory, cards: seq<int>)
    requires PositiveCounts(inv)
    ensures PositiveCounts(TakeCards(inv, cards))
    decreases |cards|
  {
    if cards != [] {
      TakeCardsPositive(inv, cards[..|cards| - 1]);
    }
  }

  /** Putting cards back into an inventory with no empty keys leaves none. */
  lemma {:induction false} AddCardsPositive(inv: Inventory, cards: seq<int>)
    requires PositiveCounts(inv)
    ensures PositiveCounts(AddCards(inv, cards))
  {
    var temp := AddCards(inv, cards);
    AddCardsCounts(inv, cards);
    forall v | v in temp
      ensures temp[v] > 0
    {
      assert CountOf(temp, v) == temp[v];
      if v !in inv {
        assert v in multiset(cards);
      }
    }
  }

  /** Putting cards back adds exactly those cards. */
  lemma {:induction false} PutBackMultiset(inv: Inventory, cards: seq<int>)
    requires PositiveCounts(inv)
    ensures PositiveCounts(AddCards(inv, cards))
    ensures multiset(Flatten(AddCards(inv, cards))) == multiset(Flatten(inv)) + multiset(cards)
  {
    var temp := AddCards(inv, cards);
    AddCardsPositive(inv, cards);
    AddCardsCounts(inv, cards);
    FlattenPositive(inv);
    FlattenPositive(temp);
    forall v
      ensures multiset(Flatten(temp))[v] == (multiset(Flatten(inv)) + multiset(cards))[v]
    {
    }
    assert multiset(Flatten(temp)) == multiset(Flatten(inv)) + multiset(cards);
  }

  /** Taking out cards the inventory holds removes exactly those cards. */
  lemma {:induction false} TakeOutMultiset(inv: Inventory, cards: seq<int>)
    requires PositiveCounts(inv) && multiset(cards) <= multiset(Flatten(inv))
    ensures PositiveCounts(TakeCards(inv, cards))
    ensures multiset(Flatten(TakeCards(inv, cards))) + multiset(cards) == multiset(Flatten(inv))
  {
    TakeCardsCounts(inv, cards);
    TakeCardsPositive(inv, cards);
    FlattenPositive(inv);
    var rest := TakeCards(inv, cards);
    FlattenPositive(rest);
    forall v
      ensures (multiset(Flatten(rest)) + multiset(cards))[v] == multiset(Flatten(inv))[v]
    {
      assert multiset(cards)[v] <= multiset(Flatten(inv))[v];
    }
    assert multiset(Flatten(rest)) + multiset(cards) == multiset(Flatten(inv));
  }

  /**
   * Taking out cards chosen from the inventory together with `extra` other
   * cards: the cards taken and the cards left never exceed the inventory and
   * `extra`, whichever of the cards the inventory lacks.
   */
  lemma {:induction false} TakeOutBounded(inv: Inventory, cards: seq<int>, extra: seq<int>)
    requires PositiveCounts(inv) && multiset(cards) <= multiset(Flatten(inv)) + multiset(extra)
    ensures PositiveCounts(TakeCards(inv, cards))
    ensures multiset(cards) + multiset(Flatten(TakeCards(inv, cards))) <= multiset(Flatten(inv)) + multiset(extra)
  {
    TakeCardsCounts(inv, cards);
    TakeCardsPositive(inv, cards);
    FlattenPositive(inv);
    var rest := TakeCards(inv, cards);
    FlattenPositive(rest);
    forall v
      ensures (multiset(cards) + multiset(Flatten(rest)))[v] <= (multiset(Flatten(inv)) + multiset(extra))[v]
    {
      assert multiset(cards)[v] <= (multiset(Flatten(inv)) + multiset(extra))[v];
    }
  }

  /** Taking cards never adds any, whether or not the inventory holds them. */
  lemma {:induction false} TakeOutNeverAdds(inv: Inventory, cards: seq<int>)
    ensures multiset(Flatten(TakeCards(inv, cards))) <= multiset(Flatten(inv))
  {
    TakeCardsCounts(inv, cards);
    FlattenCounts(inv);
    FlattenCounts(TakeCards(inv, cards));
    forall v
      ensures multiset(Flatten(TakeCards(inv, cards)))[v] <= multiset(Flatten(inv))[v]
    {
      assert CountOf(TakeCards(inv, cards), v) <= if CountOf(inv, v) > 0 then CountOf(inv, v) else 0;
    }
  }

  /** `convertToInventory` (lines 420-432): counts the cards of a list. */
  method ConvertToInventory(ratings: seq<int>) returns (inventory: Inventory)
    ensures inventory == Tally(ratings)
    ensures forall v :: v in inventory <==> v in ratings
    ensures forall v :: v in inventory ==> inventory[v] == multiset(ratings)[v]
  {
    inventory := map[];
    for i := 0 to |ratings|
      invariant inventory == AddCards(map[], ratings[..i])
    {
      var key := ratings[i];
      if key !in inventory || inventory[key] == 0 {
        inventory := inventory[key := 0];
      }
      inventory := inventory[key := inventory[key] + 1];
      assert ratings[..i + 1][..i] == ratings[..i];
    }
    assert ratings[..|ratings|] == ratings;
  }

  /**
   * The list the source builds from an inventory with
   * `Object.entries(inv).forEach(([r, count]) => { for (i < count) push(r) })`.
   */
  method InventoryToRatings(inv: Inventory) returns (ratings: seq<int>)
    ensures ratings == Flatten(inv)
    ensures forall v :: multiset(ratings)[v] == if v in inv && inv[v] > 0 then inv[v] else 0
  {
    var entries := Entries(inv);
    ratings := [];
    for e := 0 to |entries|
      invariant ratings == Expand(entries[..e])
    {
      var (rating, count) := entries[e];
      var i := 0;
      while i < count
        invariant 0 <= i <= (if count > 0 then count else 0)
        invariant ratings == Expand(entries[..e]) + Repeat(rating, i)
      {
        ratings := ratings + [rating];
        i := i + 1;
      }
      assert Repeat(rating, i) == Repeat(rating, count) by {
        if count <= 0 {
          assert Repeat(rating, i) == [] == Repeat(rating, count);
        }
      }
      ExpandPrefix(entries, e);
    }
    assert entries[..|entries|] == entries;
    FlattenCounts(inv);
  }
}
