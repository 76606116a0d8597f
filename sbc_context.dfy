/**
 * The updaters of the SBC context (app/context/SbcContext.tsx): the players
 * and the inventory counted from them, and the custom SBC and the list of
 * predefined SBCs. Each updater is a transition from the old state to the new
 * one handed to `setState`.
 *
 * The clock and the random generator that make player ids are parameters
 * (`stamp`, `nonce`); a JavaScript number an updater checks with `isNaN` is a
 * `Number`.
 */
module SbcContext {
  import opened Seqs
  import opened Inventories
  import opened Simulation

  /** The ratings an imported player must have to be counted (lines 165-166). */
  const MinRating := 75
  const MaxRating := 99

  /** A JavaScript number as the updaters see it: `NaN` or an integer. */
  datatype Number = NaN | Num(value: int)

  /** `manual-${rating}-${Date.now()}-${i}` and `import-${note}-${Date.now()}-${random}`. */
  datatype PlayerId = Manual(rating: int, stamp: int, index: int) | Imported(note: int, stamp: int, nonce: string)

  /** `{ id, nom, note, excluded }`. */
  datatype Player = Player(id: PlayerId, nom: string, note: int, excluded: bool)

  /** The players and the inventory, which the player updaters set together. */
  datatype Roster = Roster(players: seq<Player>, inventory: Inventory)

  /** `{ nom, note }` as read from a CSV file. */
  datatype CsvPlayer = CsvPlayer(nom: string, note: int)

  function Min(a: int, b: int): int { if a <= b then a else b }

  function Max(a: int, b: int): int { if a >= b then a else b }

  function DigitChar(d: int): char
    requires 0 <= d < 10
  {
    "0123456789"[d]
  }

  function Digits(n: nat): string
    decreases n
  {
    if n < 10 then [DigitChar(n)] else Digits(n / 10) + [DigitChar(n % 10)]
  }

  /** An integer written in decimal, as a template literal writes it. */
  function Decimal(n: int): string
  {
    if n < 0 then "-" + Digits(-n) else Digits(n)
  }

  /* ---------------- Counting the players ---------------- */

  /** The ratings of the players not excluded, in order. */
  function IncludedNotes(players: seq<Player>): seq<int>
  {
    if players == [] then []
    else (if players[0].excluded then [] else [players[0].note]) + IncludedNotes(players[1..])
  }

  /** `players.filter(p => p.note === rating && !p.excluded)`. */
  function Matching(players: seq<Player>, rating: int): seq<Player>
  {
    if players == [] then []
    else (if players[0].note == rating && !players[0].excluded then [players[0]] else [])
         + Matching(players[1..], rating)
  }

  /** The inventory `updateInventoryFromPlayers` builds: the non-excluded players counted by rating. */
  function CountPlayers(players: seq<Player>): Inventory
  {
    Tally(IncludedNotes(players))
  }

  /** The inventory is the count of the non-excluded players. */
  ghost predicate Agrees(roster: Roster)
  {
    roster.inventory == CountPlayers(roster.players)
  }

  /** `updateInventoryFromPlayers` (lines 308-320). */
  method UpdateInventoryFromPlayers(playersList: seq<Player>) returns (newInventory: Inventory)
    ensures newInventory == CountPlayers(playersList)
  {
    newInventory := map[];
    for i := 0 to |playersList|
      invariant newInventory == AddCards(map[], IncludedNotes(playersList[..i]))
    {
      var player := playersList[i];
      CountStep(playersList, i);
      if !player.excluded {
        var key := player.note;
        newInventory := newInventory[key := (if key in newInventory then newInventory[key] else 0) + 1];
      }
    }
    assert playersList[..|playersList|] == playersList;
  }

  /** One more player counted: one more card of its rating, unless it is excluded. */
  lemma {:induction false} CountStep(players: seq<Player>, i: int)
    requires 0 <= i < |players|
    ensures var before := AddCards(map[], IncludedNotes(players[..i]));
      AddCards(map[], IncludedNotes(players[..i + 1]))
      == if players[i].excluded then before else AddOne(before, players[i].note)
  {
    var player := players[i];
    var notes := IncludedNotes(players[..i]);
    assert players[..i + 1] == players[..i] + [player];
    IncludedNotesConcat(players[..i], [player]);
    assert IncludedNotes([player]) == (if player.excluded then [] else [player.note]) + IncludedNotes([]);
    if player.excluded {
      assert notes + [] == notes;
    } else {
      assert (notes + [player.note])[..|notes|] == notes;
    }
  }

  lemma {:induction false} IncludedNotesConcat(a: seq<Player>, b: seq<Player>)
    ensures IncludedNotes(a + b) == IncludedNotes(a) + IncludedNotes(b)
  {
    if a != [] {
      IncludedNotesConcat(a[1..], b);
      assert (a + b)[1..] == a[1..] + b;
    } else {
      assert a + b == b;
    }
  }

  lemma {:induction false} NotesMatching(players: seq<Player>, v: int)
    ensures multiset(IncludedNotes(players))[v] == |Matching(players, v)|
  {
    if players != [] {
      NotesMatching(players[1..], v);
    }
  }

  /**
   * `updateInventoryFromPlayers` counts exactly the non-excluded players of
   * each rating, and lists no rating without one.
   */
  lemma {:induction false} CountPlayersSpec(players: seq<Player>)
    ensures forall v :: CountOf(CountPlayers(players), v) == |Matching(players, v)|
    ensures forall v :: v in CountPlayers(players) <==> |Matching(players, v)| > 0
  {
    forall v
      ensures CountOf(CountPlayers(players), v) == |Matching(players, v)|
      ensures v in CountPlayers(players) <==> |Matching(players, v)| > 0
    {
      NotesMatching(players, v);
      assert v in IncludedNotes(players) <==> multiset(IncludedNotes(players))[v] > 0;
    }
  }

  /** An inventory with no empty key and the counts of a list is that list's tally. */
  lemma {:induction false} TallyOfCounts(inv: Inventory, ratings: seq<int>)
    requires PositiveCounts(inv)
    requires forall v :: CountOf(inv, v) == multiset(ratings)[v]
    ensures inv == Tally(ratings)
  {
    var t := Tally(ratings);
    forall v
      ensures v in inv <==> v in t
      ensures v in inv ==> inv[v] == t[v]
    {
      assert v in ratings <==> multiset(ratings)[v] > 0;
      assert CountOf(inv, v) == multiset(ratings)[v];
    }
    assert inv.Keys == t.Keys;
  }

  /* ---------------- addPlayers ---------------- */

  /** `isNaN(rating) || isNaN(count) || count <= 0` rejects the request. */
  predicate ValidRequest(rating: Number, count: Number)
  {
    rating.Num? && count.Num? && count.value > 0
  }

  /** The `i`-th player `addPlayers` creates. */
  function ManualPlayer(rating: int, stamp: int, i: int): Player
  {
    Player(Manual(rating, stamp, i), "Joueur " + Decimal(rating), rating, false)
  }

  /** The `count` players `addPlayers` creates. */
  function ManualPlayers(rating: int, count: nat, stamp: int): seq<Player>
  {
    seq(count, i => ManualPlayer(rating, stamp, i))
  }

  /** What `addPlayers` leaves: `count` new players, and `count` more cards of `rating`. */
  function PlayersAdded(roster: Roster, rating: Number, count: Number, stamp: int): Roster
  {
    if !ValidRequest(rating, count) then roster
    else
      var key := rating.value;
      Roster(roster.players + ManualPlayers(key, count.value, stamp),
             roster.inventory[key := CountOf(roster.inventory, key) + count.value])
  }

  /** `addPlayers` (lines 323-351). */
  method AddPlayers(roster: Roster, rating: Number, count: Number, stamp: int) returns (result: Roster)
    ensures result == PlayersAdded(roster, rating, count, stamp)
  {
    if rating.NaN? || count.NaN? || count.value <= 0 {
      return roster;
    }
    var newPlayers := roster.players;
    for i := 0 to count.value
      invariant newPlayers == roster.players + ManualPlayers(rating.value, i, stamp)
    {
      newPlayers := newPlayers + [ManualPlayer(rating.value, stamp, i)];
      assert ManualPlayers(rating.value, i + 1, stamp) == ManualPlayers(rating.value, i, stamp)
                                                        + [ManualPlayer(rating.value, stamp, i)];
    }
    var key := rating.value;
    var currentCount := if key in roster.inventory then roster.inventory[key] else 0;
    return Roster(newPlayers, roster.inventory[key := currentCount + count.value]);
  }

  lemma {:induction false} ManualNotes(rating: int, count: nat, stamp: int)
    ensures IncludedNotes(ManualPlayers(rating, count, stamp)) == Repeat(rating, count)
  {
    if count > 0 {
      var ps := ManualPlayers(rating, count, stamp);
      ManualNotes(rating, count - 1, stamp);
      assert ps == ManualPlayers(rating, count - 1, stamp) + [ManualPlayer(rating, stamp, count - 1)];
      IncludedNotesConcat(ManualPlayers(rating, count - 1, stamp), [ManualPlayer(rating, stamp, count - 1)]);
      assert IncludedNotes([ManualPlayer(rating, stamp, count - 1)]) == [rating] + IncludedNotes([]);
      RepeatConcat(rating, count - 1, 1);
    } else {
      assert ManualPlayers(rating, count, stamp) == [];
    }
  }

  /**
   * `addPlayers` ignores a `NaN` rating or count and a count of zero or less;
   * otherwise it appends `count` players of `rating`, none excluded, and adds
   * `count` to that rating's count, leaving the others as they were.
   */
  lemma {:induction false} AddPlayersSpec(roster: Roster, rating: Number, count: Number, stamp: int)
    ensures var r := PlayersAdded(roster, rating, count, stamp);
      && (!ValidRequest(rating, count) ==> r == roster)
      && (ValidRequest(rating, count) ==>
            && |r.players| == |roster.players| + count.value
            && r.players[..|roster.players|] == roster.players
            && (forall i :: |roster.players| <= i < |r.players| ==>
                  r.players[i].note == rating.value && !r.players[i].excluded)
            && forall v :: CountOf(r.inventory, v)
                          == CountOf(roster.inventory, v) + (if v == rating.value then count.value else 0))
  {
  }

  /** `addPlayers` keeps the inventory the count of the non-excluded players. */
  lemma {:induction false} AddPlayersAgrees(roster: Roster, rating: Number, count: Number, stamp: int)
    requires Agrees(roster)
    ensures Agrees(PlayersAdded(roster, rating, count, stamp))
  {
    if ValidRequest(rating, count) {
      var key, n := rating.value, count.value;
      assert PlayersAdded(roster, rating, count, stamp)
          == Roster(roster.players + ManualPlayers(key, n, stamp), roster.inventory[key := CountOf(roster.inventory, key) + n]);
      AddedAgrees(roster, key, n, stamp);
    }
  }

  lemma {:induction false} AddedAgrees(roster: Roster, key: int, n: int, stamp: int)
    requires Agrees(roster) && n > 0
    ensures Agrees(Roster(roster.players + ManualPlayers(key, n, stamp),
                          roster.inventory[key := CountOf(roster.inventory, key) + n]))
  {
    var notes := IncludedNotes(roster.players);
    var added := ManualPlayers(key, n, stamp);
    IncludedNotesConcat(roster.players, added);
    ManualNotes(key, n, stamp);
    AddedCounts(roster.inventory, notes, key, n);
    TallyShift(roster.inventory, notes, roster.inventory[key := CountOf(roster.inventory, key) + n], notes + Repeat(key, n));
  }

  lemma {:induction false} AddedCounts(inv: Inventory, notes: seq<int>, key: int, n: int)
    requires inv == Tally(notes) && n > 0
    ensures var added := inv[key := CountOf(inv, key) + n];
      && PositiveCounts(added)
      && forall v :: CountOf(added, v) - CountOf(inv, v)
                    == multiset(notes + Repeat(key, n))[v] as int - multiset(notes)[v]
  {
    TallyPositive(notes);
    RepeatMultiset(key, n);
  }

  /** A tally moved by exactly the change in its list is the tally of the new list. */
  lemma {:induction false} TallyShift(inv: Inventory, notes: seq<int>, inv': Inventory, notes': seq<int>)
    requires inv == Tally(notes) && PositiveCounts(inv')
    requires forall v :: CountOf(inv', v) - CountOf(inv, v) == multiset(notes')[v] as int - multiset(notes)[v]
    ensures inv' == Tally(notes')
  {
    forall v
      ensures CountOf(inv', v) == multiset(notes')[v]
    {
      assert v in notes <==> multiset(notes)[v] > 0;
      assert CountOf(inv, v) == multiset(notes)[v];
    }
    TallyOfCounts(inv', notes');
  }

  /* ---------------- removePlayers ---------------- */

  /** The ids of a list of players. */
  function IdsOf(players: seq<Player>): set<PlayerId>
  {
    if players == [] then {} else {players[0].id} + IdsOf(players[1..])
  }

  /** No two players share an id. */
  ghost predicate UniqueIds(players: seq<Player>)
  {
    players == [] || (players[0].id !in IdsOf(players[1..]) && UniqueIds(players[1..]))
  }

  /** `players.filter(p => !ids.has(p.id))`. */
  function WithoutIds(players: seq<Player>, ids: set<PlayerId>): seq<Player>
  {
    if players == [] then []
    else (if players[0].id in ids then [] else [players[0]]) + WithoutIds(players[1..], ids)
  }

  /** `Math.min(count, playersWithRating.length)`, and nothing for a rejected request. */
  function CountToRemove(players: seq<Player>, rating: Number, count: Number): nat
  {
    if !ValidRequest(rating, count) then 0 else Max(0, Min(count.value, |Matching(players, rating.value)|))
  }

  /** The inventory update of lines 381-399: lower the count, never below zero, deleting the key at zero. */
  function Decrease(inventory: Inventory, key: int, k: int): Inventory
  {
    var newCount := Max(0, CountOf(inventory, key) - k);
    if newCount == 0 then inventory - {key} else inventory[key := newCount]
  }

  /** `removePlayers` (lines 354-400). */
  function RemovePlayers(roster: Roster, rating: Number, count: Number): Roster
  {
    var countToRemove := CountToRemove(roster.players, rating, count);
    if countToRemove == 0 then roster
    else
      var playersWithRating := Matching(roster.players, rating.value);
      var playerIdsToRemove := IdsOf(playersWithRating[..countToRemove]);
      Roster(WithoutIds(roster.players, playerIdsToRemove), Decrease(roster.inventory, rating.value, countToRemove))
  }

  /**
   * `removePlayers` removes `min(count, matching players)` cards of the
   * rating: the count never drops below zero and a rating left with none is
   * deleted; every other rating keeps its count; a rejected request, or one
   * with no matching player, changes nothing.
   */
  lemma {:induction false} RemovePlayersInventory(roster: Roster, rating: Number, count: Number)
    ensures var k := CountToRemove(roster.players, rating, count);
      var r := RemovePlayers(roster, rating, count);
      && (k == 0 ==> r == roster)
      && (!ValidRequest(rating, count) ==> k == 0)
      && (ValidRequest(rating, count) ==> k == Min(count.value, |Matching(roster.players, rating.value)|))
      && (k > 0 ==>
            && CountOf(r.inventory, rating.value) == Max(0, CountOf(roster.inventory, rating.value) - k)
            && (CountOf(roster.inventory, rating.value) <= k ==> rating.value !in r.inventory)
            && forall v :: v != rating.value ==>
                 (v in r.inventory <==> v in roster.inventory) && CountOf(r.inventory, v) == CountOf(roster.inventory, v))
      && (PositiveCounts(roster.inventory) ==> PositiveCounts(r.inventory))
  {
  }

  lemma {:induction false} IdsOfMembers(players: seq<Player>)
    ensures forall i :: 0 <= i < |players| ==> players[i].id in IdsOf(players)
    ensures forall x :: x in IdsOf(players) ==> exists i :: 0 <= i < |players| && players[i].id == x
  {
    if players != [] {
      IdsOfMembers(players[1..]);
      forall i | 1 <= i < |players|
        ensures players[i].id in IdsOf(players)
      {
        assert players[1..][i - 1] == players[i];
      }
      forall x | x in IdsOf(players)
        ensures exists i :: 0 <= i < |players| && players[i].id == x
      {
        if x != players[0].id {
          var j :| 0 <= j < |players[1..]| && players[1..][j].id == x;
          assert players[j + 1].id == x;
        }
      }
    }
  }

  lemma {:induction false} UniqueSize(players: seq<Player>)
    requires UniqueIds(players)
    ensures |IdsOf(players)| == |players|
  {
    if players != [] {
      UniqueSize(players[1..]);
    }
  }

  lemma {:induction false} UniquePrefix(players: seq<Player>, k: nat)
    requires UniqueIds(players) && k <= |players|
    ensures UniqueIds(players[..k]) && IdsOf(players[..k]) <= IdsOf(players)
  {
    if k > 0 {
      UniquePrefix(players[1..], k - 1);
      assert players[..k][1..] == players[1..][..k - 1];
    } else {
      assert players[..k] == [];
    }
  }

  lemma {:induction false} MatchingUnique(players: seq<Player>, rating: int)
    requires UniqueIds(players)
    ensures UniqueIds(Matching(players, rating)) && IdsOf(Matching(players, rating)) <= IdsOf(players)
  {
    if players != [] {
      MatchingUnique(players[1..], rating);
      assert players[0].id !in IdsOf(players[1..]);
      var m := Matching(players, rating);
      if players[0].note == rating && !players[0].excluded {
        assert m[0] == players[0] && m[1..] == Matching(players[1..], rating);
        assert m[0].id !in IdsOf(m[1..]);
      } else {
        assert m == Matching(players[1..], rating);
      }
    }
  }

  /** With distinct ids, the only players holding an id of a matching player are matching players. */
  lemma {:induction false} MatchingIdsOnlyMatch(players: seq<Player>, rating: int, ids: set<PlayerId>)
    requires UniqueIds(players) && ids <= IdsOf(Matching(players, rating))
    ensures forall i :: 0 <= i < |players| && players[i].id in ids ==>
              players[i].note == rating && !players[i].excluded
  {
    if players != [] {
      var p, rest := players[0], players[1..];
      MatchingUnique(rest, rating);
      IdsOfMembers(rest);
      var m := Matching(players, rating);
      if p.note == rating && !p.excluded {
        assert m[0] == p && m[1..] == Matching(rest, rating);
      } else {
        assert m == Matching(rest, rating);
      }
      MatchingIdsOnlyMatch(rest, rating, ids - {p.id});
      forall i | 1 <= i < |players| && players[i].id in ids
        ensures players[i].note == rating && !players[i].excluded
      {
        assert rest[i - 1] == players[i];
      }
    }
  }

  /** `players.filter(p => ids.has(p.id))`: the players `WithoutIds` drops. */
  function WithIds(players: seq<Player>, ids: set<PlayerId>): seq<Player>
  {
    if players == [] then []
    else (if players[0].id in ids then [players[0]] else []) + WithIds(players[1..], ids)
  }

  lemma {:induction false} IncludedCons(p: Player, rest: seq<Player>)
    ensures IncludedNotes([p] + rest) == (if p.excluded then [] else [p.note]) + IncludedNotes(rest)
  {
    assert ([p] + rest)[1..] == rest;
  }

  lemma {:induction false} WithoutIdsCons(p: Player, rest: seq<Player>, ids: set<PlayerId>)
    ensures WithoutIds([p] + rest, ids) == (if p.id in ids then [] else [p]) + WithoutIds(rest, ids)
    ensures WithIds([p] + rest, ids) == (if p.id in ids then [p] else []) + WithIds(rest, ids)
  {
    assert ([p] + rest)[1..] == rest;
  }

  /** Filtering by ids splits the players in two. */
  lemma {:induction false} IdsSplitLength(players: seq<Player>, ids: set<PlayerId>)
    ensures |WithoutIds(players, ids)| + |WithIds(players, ids)| == |players|
  {
    if players != [] {
      IdsSplitLength(players[1..], ids);
    }
  }

  /** Filtering by ids splits the ratings of the non-excluded players in two. */
  lemma {:induction false} IdsSplit(players: seq<Player>, ids: set<PlayerId>)
    ensures multiset(IncludedNotes(WithoutIds(players, ids))) + multiset(IncludedNotes(WithIds(players, ids)))
         == multiset(IncludedNotes(players))
  {
    if players != [] {
      var p, rest := players[0], players[1..];
      assert players == [p] + rest;
      IdsSplit(rest, ids);
      var own := if p.excluded then [] else [p.note];
      var kept, taken := WithoutIds(rest, ids), WithIds(rest, ids);
      IncludedCons(p, rest);
      WithoutIdsCons(p, rest, ids);
      if p.id in ids {
        assert WithoutIds(players, ids) == kept;
        IncludedCons(p, taken);
      } else {
        assert WithIds(players, ids) == taken;
        IncludedCons(p, kept);
      }
      SplitStep(own, IncludedNotes(kept), IncludedNotes(taken), IncludedNotes(rest),
                IncludedNotes(WithoutIds(players, ids)), IncludedNotes(WithIds(players, ids)));
    }
  }

  lemma {:induction false} SplitStep(own: seq<int>, kept: seq<int>, taken: seq<int>, rest: seq<int>,
                                     w: seq<int>, wi: seq<int>)
    requires multiset(kept) + multiset(taken) == multiset(rest)
    requires (w == kept && wi == own + taken) || (w == own + kept && wi == taken)
    ensures multiset(w) + multiset(wi) == multiset(own + rest)
  {
    assert multiset(own + rest) == multiset(own) + multiset(rest);
    if w == kept && wi == own + taken {
      assert multiset(wi) == multiset(own) + multiset(taken);
    } else {
      assert multiset(w) == multiset(own) + multiset(kept);
    }
  }

  /** Players whose ids all belong to non-excluded players of `rating` contribute only that rating. */
  lemma {:induction false} WithIdsNotes(players: seq<Player>, ids: set<PlayerId>, rating: int)
    requires forall i :: 0 <= i < |players| && players[i].id in ids ==> players[i].note == rating && !players[i].excluded
    ensures IncludedNotes(WithIds(players, ids)) == Repeat(rating, |WithIds(players, ids)|)
  {
    if players != [] {
      var p, rest := players[0], players[1..];
      forall i | 0 <= i < |rest| && rest[i].id in ids
        ensures rest[i].note == rating && !rest[i].excluded
      {
        assert rest[i] == players[i + 1];
      }
      WithIdsNotes(rest, ids, rating);
      assert players == [p] + rest;
      WithoutIdsCons(p, rest, ids);
      if p.id in ids {
        var taken := WithIds(rest, ids);
        assert players[0].note == rating && !players[0].excluded;
        assert WithIds(players, ids) == [p] + taken;
        IncludedCons(p, taken);
        assert Repeat(rating, |taken| + 1) == [rating] + Repeat(rating, |taken|);
      } else {
        assert WithIds(players, ids) == WithIds(rest, ids);
      }
    }
  }

  /** Filtering out players whose ids all belong to players of `rating` removes only cards of that rating. */
  lemma {:induction false} WithoutIdsNotes(players: seq<Player>, ids: set<PlayerId>, rating: int)
    requires forall i :: 0 <= i < |players| && players[i].id in ids ==> players[i].note == rating && !players[i].excluded
    ensures |WithoutIds(players, ids)| <= |players|
    ensures multiset(IncludedNotes(WithoutIds(players, ids))) + multiset(Repeat(rating, |players| - |WithoutIds(players, ids)|))
         == multiset(IncludedNotes(players))
  {
    IdsSplitLength(players, ids);
    IdsSplit(players, ids);
    WithIdsNotes(players, ids, rating);
  }

  lemma {:induction false} WithoutAbsentId(players: seq<Player>, ids: set<PlayerId>, x: PlayerId)
    requires x !in IdsOf(players)
    ensures WithoutIds(players, ids) == WithoutIds(players, ids - {x})
  {
    if players != [] {
      WithoutAbsentId(players[1..], ids, x);
    }
  }

  /** With distinct ids, filtering out a set of present ids removes one player per id. */
  lemma {:induction false} WithoutIdsCount(players: seq<Player>, ids: set<PlayerId>)
    requires UniqueIds(players) && ids <= IdsOf(players)
    ensures |WithoutIds(players, ids)| == |players| - |ids|
  {
    if players != [] {
      var p, rest := players[0], players[1..];
      if p.id in ids {
        WithoutIdsCount(rest, ids - {p.id});
        WithoutAbsentId(rest, ids, p.id);
      } else {
        WithoutIdsCount(rest, ids);
      }
    }
  }

  /**
   * With distinct ids, `removePlayers` removes exactly `countToRemove`
   * players, all of `rating` and not excluded: the non-excluded ratings lose
   * `countToRemove` copies of `rating` and nothing else.
   */
  lemma {:induction false} RemovePlayersRemoves(roster: Roster, rating: Number, count: Number)
    requires UniqueIds(roster.players)
    ensures var k := CountToRemove(roster.players, rating, count);
      var r := RemovePlayers(roster, rating, count);
      && |r.players| == |roster.players| - k
      && (k > 0 ==> multiset(IncludedNotes(r.players)) + multiset(Repeat(rating.value, k))
                    == multiset(IncludedNotes(roster.players)))
  {
    var k := CountToRemove(roster.players, rating, count);
    if k > 0 {
      var matching := Matching(roster.players, rating.value);
      var ids := IdsOf(matching[..k]);
      MatchingUnique(roster.players, rating.value);
      UniquePrefix(matching, k);
      UniqueSize(matching[..k]);
      MatchingIdsOnlyMatch(roster.players, rating.value, ids);
      WithoutIdsCount(roster.players, ids);
      WithoutIdsNotes(roster.players, ids, rating.value);
    }
  }

  /** With distinct ids, `removePlayers` keeps the inventory the count of the non-excluded players. */
  lemma {:induction false} RemovePlayersAgrees(roster: Roster, rating: Number, count: Number)
    requires UniqueIds(roster.players) && Agrees(roster)
    ensures Agrees(RemovePlayers(roster, rating, count))
  {
    var k := CountToRemove(roster.players, rating, count);
    if k > 0 {
      var matching := Matching(roster.players, rating.value);
      var r := RemovePlayers(roster, rating, count);
      assert r == Roster(WithoutIds(roster.players, IdsOf(matching[..k])), Decrease(roster.inventory, rating.value, k));
      RemovePlayersRemoves(roster, rating, count);
      DecreaseTally(roster.inventory, IncludedNotes(roster.players), IncludedNotes(r.players), rating.value, k);
    }
  }

  /** Taking `k` cards of `key` out of a list moves its tally as `Decrease` does. */
  lemma {:induction false} DecreaseTally(inv: Inventory, notes: seq<int>, notes': seq<int>, key: int, k: int)
    requires inv == Tally(notes) && k > 0
    requires multiset(notes') + multiset(Repeat(key, k)) == multiset(notes)
    ensures Decrease(inv, key, k) == Tally(notes')
  {
    var d := Decrease(inv, key, k);
    RepeatMultiset(key, k);
    TallyPositive(notes);
    assert key in notes <==> multiset(notes)[key] > 0;
    assert CountOf(inv, key) == multiset(notes)[key];
    forall v
      ensures CountOf(d, v) - CountOf(inv, v) == multiset(notes')[v] as int - multiset(notes)[v]
    {
      assert multiset(notes')[v] + multiset(Repeat(key, k))[v] == multiset(notes)[v];
    }
    TallyShift(inv, notes, d, notes');
  }

  /* ---------------- resetInventory ---------------- */

  /** The players and the inventory `resetInventory` leaves (lines 403-407); the cleared simulation result is not modelled. */
  function ResetInventory(): Roster
  {
    Roster([], map[])
  }

  /** After a reset there are no players and no cards, and the inventory counts the players. */
  lemma {:induction false} ResetSpec()
    ensures var r := ResetInventory();
      r.players == [] && (forall v :: CountOf(r.inventory, v) == 0) && Agrees(r)
  {
    var r := ResetInventory();
    assert Tally([]) == map[];
  }

  /* ---------------- importPlayersFromCsv ---------------- */

  function ImportedPlayer(p: CsvPlayer, stamp: int, nonce: string): Player
  {
    Player(Imported(p.note, stamp, nonce), p.nom, p.note, false)
  }

  /** The players `importPlayersFromCsv` creates, the `i`-th with the random suffix `nonce(i)`. */
  function ImportedPlayers(imported: seq<CsvPlayer>, stamp: int, nonce: int -> string): seq<Player>
  {
    seq(|imported|, i requires 0 <= i < |imported| => ImportedPlayer(imported[i], stamp, nonce(i)))
  }

  predicate InRange(note: int)
  {
    MinRating <= note <= MaxRating
  }

  /** The ratings of the imported players that lie between `MinRating` and `MaxRating`, in order. */
  function InRangeNotes(imported: seq<CsvPlayer>): seq<int>
  {
    if imported == [] then []
    else
      var last := imported[|imported| - 1];
      InRangeNotes(imported[..|imported| - 1]) + (if InRange(last.note) then [last.note] else [])
  }

  /** What `importPlayersFromCsv` leaves: every imported player appended, only ratings in range counted. */
  function PlayersImported(roster: Roster, imported: seq<CsvPlayer>, stamp: int, nonce: int -> string): Roster
  {
    Roster(roster.players + ImportedPlayers(imported, stamp, nonce), AddCards(roster.inventory, InRangeNotes(imported)))
  }

  /** `importPlayersFromCsv` (lines 410-440). */
  method ImportPlayersFromCsv(roster: Roster, importedPlayers: seq<CsvPlayer>, stamp: int, nonce: int -> string)
    returns (result: Roster)
    ensures result == PlayersImported(roster, importedPlayers, stamp, nonce)
  {
    var newPlayers := roster.players + ImportedPlayers(importedPlayers, stamp, nonce);
    var newInventory := CountInRange(roster.inventory, importedPlayers);
    return Roster(newPlayers, newInventory);
  }

  /** The `forEach` of lines 431-438: one more card per imported rating between 75 and 99. */
  method CountInRange(inventory: Inventory, importedPlayers: seq<CsvPlayer>) returns (newInventory: Inventory)
    ensures newInventory == AddCards(inventory, InRangeNotes(importedPlayers))
  {
    newInventory := inventory;
    for i := 0 to |importedPlayers|
      invariant newInventory == AddCards(inventory, InRangeNotes(importedPlayers[..i]))
    {
      var rating := importedPlayers[i].note;
      ImportStep(inventory, importedPlayers, i);
      if rating >= MinRating && rating <= MaxRating {
        var key := rating;
        newInventory := newInventory[key := (if key in newInventory then newInventory[key] else 0) + 1];
      }
    }
    assert importedPlayers[..|importedPlayers|] == importedPlayers;
  }

  /** One more entry read: one more card of its rating, if that rating is in range. */
  lemma {:induction false} ImportStep(inv: Inventory, imported: seq<CsvPlayer>, i: int)
    requires 0 <= i < |imported|
    ensures var before := AddCards(inv, InRangeNotes(imported[..i]));
      AddCards(inv, InRangeNotes(imported[..i + 1]))
      == if InRange(imported[i].note) then AddOne(before, imported[i].note) else before
  {
    var counted := InRangeNotes(imported[..i]);
    assert imported[..i + 1][..i] == imported[..i];
    assert InRangeNotes(imported[..i + 1])
        == counted + (if InRange(imported[i].note) then [imported[i].note] else []);
    if InRange(imported[i].note) {
      assert (counted + [imported[i].note])[..|counted|] == counted;
    } else {
      assert counted + [] == counted;
    }
  }

  /** The ratings of a list of CSV entries. */
  function CsvNotes(imported: seq<CsvPlayer>): seq<int>
  {
    seq(|imported|, i requires 0 <= i < |imported| => imported[i].note)
  }

  lemma {:induction false} InRangeCount(imported: seq<CsvPlayer>)
    ensures forall v :: multiset(InRangeNotes(imported))[v] == if InRange(v) then multiset(CsvNotes(imported))[v] else 0
  {
    if imported != [] {
      var init, last := imported[..|imported| - 1], imported[|imported| - 1];
      InRangeCount(init);
      assert CsvNotes(imported) == CsvNotes(init) + [last.note];
    } else {
      assert CsvNotes(imported) == [];
    }
  }

  lemma {:induction false} ImportedNotes(imported: seq<CsvPlayer>, stamp: int, nonce: int -> string)
    ensures IncludedNotes(ImportedPlayers(imported, stamp, nonce)) == CsvNotes(imported)
  {
    if imported != [] {
      var ps := ImportedPlayers(imported, stamp, nonce);
      ImportedNotes(imported[1..], stamp, (i: int) => nonce(i + 1));
      assert ps[1..] == ImportedPlayers(imported[1..], stamp, (i: int) => nonce(i + 1));
      assert CsvNotes(imported) == [imported[0].note] + CsvNotes(imported[1..]);
    } else {
      assert CsvNotes(imported) == [];
    }
  }

  /**
   * `importPlayersFromCsv` appends one non-excluded player per entry, with the
   * entry's name and rating, and adds one card per entry whose rating lies
   * between 75 and 99; entries outside that range add no card.
   */
  lemma {:induction false} ImportSpec(roster: Roster, imported: seq<CsvPlayer>, stamp: int, nonce: int -> string)
    ensures var r := PlayersImported(roster, imported, stamp, nonce);
      && |r.players| == |roster.players| + |imported|
      && r.players[..|roster.players|] == roster.players
      && (forall i :: 0 <= i < |imported| ==>
            var p := r.players[|roster.players| + i];
            p.nom == imported[i].nom && p.note == imported[i].note && !p.excluded)
      && forall v :: CountOf(r.inventory, v)
                    == CountOf(roster.inventory, v) + (if InRange(v) then multiset(CsvNotes(imported))[v] else 0)
  {
    var added := ImportedPlayers(imported, stamp, nonce);
    var r := PlayersImported(roster, imported, stamp, nonce);
    assert r == Roster(roster.players + added, AddCards(roster.inventory, InRangeNotes(imported)));
    AppendedPlayers(roster.players, added);
    ImportedPlayersSpec(imported, stamp, nonce);
    InRangeAdded(roster.inventory, imported);
    forall i | 0 <= i < |imported|
      ensures r.players[|roster.players| + i].nom == imported[i].nom
      ensures r.players[|roster.players| + i].note == imported[i].note
      ensures !r.players[|roster.players| + i].excluded
    {
      assert r.players[|roster.players| + i] == added[i];
    }
  }

  lemma {:induction false} ImportedPlayersSpec(imported: seq<CsvPlayer>, stamp: int, nonce: int -> string)
    ensures |ImportedPlayers(imported, stamp, nonce)| == |imported|
    ensures forall i :: 0 <= i < |imported| ==>
      && ImportedPlayers(imported, stamp, nonce)[i].nom == imported[i].nom
      && ImportedPlayers(imported, stamp, nonce)[i].note == imported[i].note
      && !ImportedPlayers(imported, stamp, nonce)[i].excluded
  {
    var added := ImportedPlayers(imported, stamp, nonce);
    forall i | 0 <= i < |imported|
      ensures added[i] == ImportedPlayer(imported[i], stamp, nonce(i))
    {
    }
  }

  lemma {:induction false} AppendedPlayers(players: seq<Player>, added: seq<Player>)
    ensures |players + added| == |players| + |added|
    ensures (players + added)[..|players|] == players
    ensures forall i :: 0 <= i < |added| ==> (players + added)[|players| + i] == added[i]
  {
    assert (players + added)[..|players|] == players;
  }

  lemma {:induction false} InRangeAdded(inv: Inventory, imported: seq<CsvPlayer>)
    ensures forall v :: CountOf(AddCards(inv, InRangeNotes(imported)), v)
                       == CountOf(inv, v) + (if InRange(v) then multiset(CsvNotes(imported))[v] else 0)
  {
    AddCardsCounts(inv, InRangeNotes(imported));
    InRangeCount(imported);
  }

  /** An import whose ratings all lie in range keeps the inventory the count of the non-excluded players. */
  lemma {:induction false} ImportAgrees(roster: Roster, imported: seq<CsvPlayer>, stamp: int, nonce: int -> string)
    requires Agrees(roster)
    requires forall i :: 0 <= i < |imported| ==> InRange(imported[i].note)
    ensures Agrees(PlayersImported(roster, imported, stamp, nonce))
  {
    var added := ImportedPlayers(imported, stamp, nonce);
    var r := PlayersImported(roster, imported, stamp, nonce);
    assert r == Roster(roster.players + added, AddCards(roster.inventory, InRangeNotes(imported)));
    IncludedNotesConcat(roster.players, added);
    ImportedNotes(imported, stamp, nonce);
    InRangeAll(imported);
    AddCardsTally(roster.inventory, IncludedNotes(roster.players), InRangeNotes(imported), CsvNotes(imported));
  }

  lemma {:induction false} InRangeAll(imported: seq<CsvPlayer>)
    requires forall i :: 0 <= i < |imported| ==> InRange(imported[i].note)
    ensures multiset(InRangeNotes(imported)) == multiset(CsvNotes(imported))
  {
    InRangeCount(imported);
    forall v
      ensures multiset(InRangeNotes(imported))[v] == multiset(CsvNotes(imported))[v]
    {
    }
  }

  /** Adding cards to a tally gives the tally of the list with those cards, in any order, appended. */
  lemma {:induction false} AddCardsTally(inv: Inventory, notes: seq<int>, cards: seq<int>, extra: seq<int>)
    requires inv == Tally(notes) && multiset(cards) == multiset(extra)
    ensures AddCards(inv, cards) == Tally(notes + extra)
  {
    TallyPositive(notes);
    AddCardsPositive(inv, cards);
    AddCardsCounts(inv, cards);
    TallyShift(inv, notes, AddCards(inv, cards), notes + extra);
  }

  /**
   * An imported player rated outside 75..99 joins the players without a
   * card: the inventory no longer counts every non-excluded player.
   */
  lemma {:induction false} ImportOutOfRangeDisagrees(roster: Roster, imported: seq<CsvPlayer>, stamp: int,
                                                     nonce: int -> string, i: int)
    requires Agrees(roster)
    requires 0 <= i < |imported| && !InRange(imported[i].note)
    ensures !Agrees(PlayersImported(roster, imported, stamp, nonce))
  {
    var r := PlayersImported(roster, imported, stamp, nonce);
    var v := imported[i].note;
    ImportSpec(roster, imported, stamp, nonce);
    IncludedNotesConcat(roster.players, ImportedPlayers(imported, stamp, nonce));
    ImportedNotes(imported, stamp, nonce);
    assert CsvNotes(imported)[i] == v;
    assert multiset(IncludedNotes(r.players))[v]
        == multiset(IncludedNotes(roster.players))[v] + multiset(CsvNotes(imported))[v];
    CountPlayersSpec(roster.players);
    CountPlayersSpec(r.players);
    NotesMatching(roster.players, v);
    NotesMatching(r.players, v);
  }

  /* ---------------- togglePlayerExclusion ---------------- */

  /** The players of `togglePlayerExclusion`: the `excluded` flag flipped on the players with `playerId`. */
  function ToggleExcluded(players: seq<Player>, playerId: PlayerId): seq<Player>
  {
    seq(|players|, i requires 0 <= i < |players| =>
      if players[i].id == playerId then players[i].(excluded := !players[i].excluded) else players[i])
  }

  /** `togglePlayerExclusion` (lines 443-455): flip the flag, then count the players again. */
  function TogglePlayerExclusion(roster: Roster, playerId: PlayerId): Roster
  {
    var newPlayers := ToggleExcluded(roster.players, playerId);
    Roster(newPlayers, CountPlayers(newPlayers))
  }

  /**
   * `togglePlayerExclusion` flips the flag of the players with that id and
   * of no other, changes nothing else about any player, and leaves the
   * inventory the count of the non-excluded players.
   */
  lemma {:induction false} ToggleSpec(roster: Roster, playerId: PlayerId)
    ensures var r := TogglePlayerExclusion(roster, playerId);
      && |r.players| == |roster.players|
      && (forall i :: 0 <= i < |r.players| ==>
            && r.players[i].id == roster.players[i].id && r.players[i].nom == roster.players[i].nom
            && r.players[i].note == roster.players[i].note
            && (r.players[i].excluded != roster.players[i].excluded <==> roster.players[i].id == playerId))
      && Agrees(r)
  {
  }

  /** Toggling the same id twice restores the players, and an inventory that counted them. */
  lemma {:induction false} ToggleTwice(roster: Roster, playerId: PlayerId)
    requires Agrees(roster)
    ensures TogglePlayerExclusion(TogglePlayerExclusion(roster, playerId), playerId) == roster
  {
    var twice := ToggleExcluded(ToggleExcluded(roster.players, playerId), playerId);
    assert twice == roster.players;
  }

  /* ---------------- the custom SBC ---------------- */

  /**
   * `array.splice(index, 1)` on a copy: a negative index counts from the end,
   * and an index at or past the end removes nothing.
   */
  function SpliceOne<T>(s: seq<T>, index: int): seq<T>
  {
    var start := if index < 0 then Max(|s| + index, 0) else Min(index, |s|);
    if start < |s| then s[..start] + s[start + 1..] else s
  }

  /** `splice` removes one element exactly when the index is before the end. */
  lemma {:induction false} SpliceOneSpec<T>(s: seq<T>, index: int)
    ensures |SpliceOne(s, index)| == if index < |s| && s != [] then |s| - 1 else |s|
    ensures 0 <= index < |s| ==> SpliceOne(s, index) == s[..index] + s[index + 1..]
    ensures index >= |s| ==> SpliceOne(s, index) == s
  {
  }

  /** `addTeamToCustomSbc` (lines 497-508). */
  function AddTeamToCustomSbc(sbc: SbcRequirement, rating: Number, count: Number): SbcRequirement
  {
    if !ValidRequest(rating, count) then sbc
    else sbc.(teams := sbc.teams + [TeamRequirement(rating.value, count.value)])
  }

  /** `removeTeamFromCustomSbc` (lines 511-526). */
  function RemoveTeamFromCustomSbc(sbc: SbcRequirement, index: int): SbcRequirement
  {
    if |sbc.teams| <= 1 then sbc else sbc.(teams := SpliceOne(sbc.teams, index))
  }

  /** `updateTeamInCustomSbc` (lines 529-551). */
  function UpdateTeamInCustomSbc(sbc: SbcRequirement, index: int, rating: Number, count: Number): SbcRequirement
  {
    if !ValidRequest(rating, count) then sbc
    else if index < 0 || index >= |sbc.teams| then sbc
    else sbc.(teams := sbc.teams[index := TeamRequirement(rating.value, count.value)])
  }

  /**
   * `addTeamToCustomSbc` appends one team with a valid request and otherwise
   * changes nothing; the name and mode are never touched.
   */
  lemma {:induction false} AddTeamSpec(sbc: SbcRequirement, rating: Number, count: Number)
    ensures var r := AddTeamToCustomSbc(sbc, rating, count);
      && r.name == sbc.name && r.isComplex == sbc.isComplex
      && r.teams[..|sbc.teams|] == sbc.teams
      && (|r.teams| == |sbc.teams| + 1 <==> ValidRequest(rating, count))
      && (ValidRequest(rating, count) ==> r.teams[|sbc.teams|] == TeamRequirement(rating.value, count.value))
      && (!ValidRequest(rating, count) ==> r == sbc)
  {
  }

  /**
   * `removeTeamFromCustomSbc` never removes the last team; with two or more it
   * removes exactly one, unless the index is past the end.
   */
  lemma {:induction false} RemoveTeamSpec(sbc: SbcRequirement, index: int)
    ensures var r := RemoveTeamFromCustomSbc(sbc, index);
      && r.name == sbc.name && r.isComplex == sbc.isComplex
      && (|sbc.teams| >= 1 ==> |r.teams| >= 1)
      && (|sbc.teams| <= 1 ==> r == sbc)
      && (|sbc.teams| > 1 ==> |r.teams| == if index < |sbc.teams| then |sbc.teams| - 1 else |sbc.teams|)
      && (|sbc.teams| > 1 && 0 <= index < |sbc.teams| ==> r.teams == sbc.teams[..index] + sbc.teams[index + 1..])
  {
    SpliceOneSpec(sbc.teams, index);
  }

  /** Adding a team and removing the last one gives back the custom SBC. */
  lemma {:induction false} AddThenRemoveTeam(sbc: SbcRequirement, rating: Number, count: Number)
    requires ValidRequest(rating, count) && |sbc.teams| >= 1
    ensures RemoveTeamFromCustomSbc(AddTeamToCustomSbc(sbc, rating, count), |sbc.teams|) == sbc
  {
    var added := AddTeamToCustomSbc(sbc, rating, count);
    SpliceOneSpec(added.teams, |sbc.teams|);
    assert added.teams[..|sbc.teams|] == sbc.teams;
  }

  /**
   * `updateTeamInCustomSbc` replaces the team at the index and no other, and
   * ignores a rejected request and an index out of range.
   */
  lemma {:induction false} UpdateTeamSpec(sbc: SbcRequirement, index: int, rating: Number, count: Number)
    ensures var r := UpdateTeamInCustomSbc(sbc, index, rating, count);
      && r.name == sbc.name && r.isComplex == sbc.isComplex
      && |r.teams| == |sbc.teams|
      && (!ValidRequest(rating, count) || index < 0 || index >= |sbc.teams| ==> r == sbc)
      && (ValidRequest(rating, count) && 0 <= index < |sbc.teams| ==>
            && r.teams[index] == TeamRequirement(rating.value, count.value)
            && forall j :: 0 <= j < |sbc.teams| && j != index ==> r.teams[j] == sbc.teams[j])
  {
  }

  /** `toggleCustomSbcMode` (lines 554-561). */
  function ToggleCustomSbcMode(sbc: SbcRequirement): SbcRequirement
  {
    sbc.(isComplex := !sbc.isComplex)
  }

  /** `toggleCustomSbcMode` flips the mode and nothing else; twice, it gives back the custom SBC. */
  lemma {:induction false} ToggleModeSpec(sbc: SbcRequirement)
    ensures var r := ToggleCustomSbcMode(sbc);
      && r.isComplex != sbc.isComplex && r.name == sbc.name && r.teams == sbc.teams
      && ToggleCustomSbcMode(r) == sbc
  {
  }

  /* ---------------- the predefined SBCs ---------------- */

  /** The four SBCs the list starts with (lines 108-138). */
  function DefaultPredefinedSbcs(): seq<SbcRequirement>
  {
    [ SbcRequirement("Gullit Icon Prime", [TeamRequirement(91, 5), TeamRequirement(90, 6), TeamRequirement(89, 5)], true),
      SbcRequirement("Ronaldo Icon Prime", [TeamRequirement(91, 3), TeamRequirement(90, 4), TeamRequirement(89, 4),
                                            TeamRequirement(88, 3)], true),
      SbcRequirement("Mid-Icon", [TeamRequirement(87, 3)], false),
      SbcRequirement("Base Icon", [TeamRequirement(85, 2)], false) ]
  }

  /** The SBCs the list counts as defaults and refuses to remove. */
  const DefaultCount := 4

  /** The guard of `addCustomSbcToPredefined`: a name, at least one team, every rating and count above zero. */
  predicate Addable(sbc: SbcRequirement)
  {
    && sbc.name != ""
    && |sbc.teams| > 0
    && forall k :: 0 <= k < |sbc.teams| ==> sbc.teams[k].rating > 0 && sbc.teams[k].count > 0
  }

  /** `addCustomSbcToPredefined` (lines 661-686). */
  function AddCustomSbcToPredefined(predefined: seq<SbcRequirement>, sbc: SbcRequirement): seq<SbcRequirement>
  {
    if Addable(sbc) then predefined + [sbc.(name := if sbc.name != "" then sbc.name else "Personnalisé")]
    else predefined
  }

  /** `removePredefinedSbc` (lines 689-713). */
  function RemovePredefinedSbc(predefined: seq<SbcRequirement>, index: int): seq<SbcRequirement>
  {
    if index < DefaultCount then predefined else SpliceOne(predefined, index)
  }

  /** `editPredefinedSbc` (lines 716-731): the SBC at the index replaced, or appended at the end. */
  function EditPredefinedSbc(predefined: seq<SbcRequirement>, index: int, sbc: SbcRequirement): seq<SbcRequirement>
    requires index <= |predefined|
  {
    if index < 0 then predefined
    else if index == |predefined| then predefined + [sbc]
    else predefined[index := sbc]
  }

  /**
   * `addCustomSbcToPredefined` appends the SBC exactly when it has a name and
   * at least one team, each with a rating and a count above zero; otherwise
   * the list is unchanged.
   */
  lemma {:induction false} AddCustomSbcSpec(predefined: seq<SbcRequirement>, sbc: SbcRequirement)
    ensures var r := AddCustomSbcToPredefined(predefined, sbc);
      && (r == predefined + [sbc] <==> Addable(sbc))
      && (!Addable(sbc) ==> r == predefined)
  {
  }

  /**
   * `removePredefinedSbc` leaves the list unchanged for an index below four
   * or past the end, and otherwise removes exactly the SBC at the index.
   */
  lemma {:induction false} RemovePredefinedSpec(predefined: seq<SbcRequirement>, index: int)
    ensures var r := RemovePredefinedSbc(predefined, index);
      && (index < DefaultCount || index >= |predefined| ==> r == predefined)
      && (DefaultCount <= index < |predefined| ==>
            |r| == |predefined| - 1 && r == predefined[..index] + predefined[index + 1..])
  {
    SpliceOneSpec(predefined, index);
  }

  /** No removal touches the first four SBCs. */
  lemma {:induction false} DefaultsSurviveRemoval(predefined: seq<SbcRequirement>, index: int)
    requires |predefined| >= DefaultCount
    ensures var r := RemovePredefinedSbc(predefined, index);
      |r| >= DefaultCount && r[..DefaultCount] == predefined[..DefaultCount]
  {
    RemovePredefinedSpec(predefined, index);
    if DefaultCount <= index < |predefined| {
      assert (predefined[..index] + predefined[index + 1..])[..DefaultCount] == predefined[..DefaultCount];
    }
  }

  /** `editPredefinedSbc` puts the SBC at the index and leaves every other SBC in place. */
  lemma {:induction false} EditPredefinedSpec(predefined: seq<SbcRequirement>, index: int, sbc: SbcRequirement)
    requires index <= |predefined|
    ensures var r := EditPredefinedSbc(predefined, index, sbc);
      && (index < 0 ==> r == predefined)
      && (0 <= index ==> |r| == (if index == |predefined| then |predefined| + 1 else |predefined|) && r[index] == sbc)
      && forall j :: 0 <= j < |predefined| && j != index ==> r[j] == predefined[j]
  {
  }

  /** Every default SBC passes the guard of `addCustomSbcToPredefined`. */
  lemma {:induction false} DefaultsAreAddable(defaults: seq<SbcRequirement>)
    requires defaults == DefaultPredefinedSbcs()
    ensures |defaults| == DefaultCount
    ensures forall k :: 0 <= k < |defaults| ==> Addable(defaults[k])
  {
  }
}
