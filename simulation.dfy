/**
 * `runSimulation` (app/context/SbcContext.tsx, lines 564-658): form the squads
 * of an SBC one at a time, requirement by requirement, each from the cards the
 * previous squads left, and stop at the first squad that cannot be formed.
 *
 * The inventory is a value here, so the caller's inventory is never changed:
 * the simulation works on its own copy (`{ ...inventory }`, line 570).
 */
module Simulation {
  import opened Seqs
  import opened TeamRatings
  import opened Inventories
  import opened SquadFormation
  import opened OptimalCombinations

  /** `{ rating, count }`: `count` squads rating at least `rating`. */
  datatype TeamRequirement = TeamRequirement(rating: int, count: int)

  /** `{ name, teams, isComplex }`. */
  datatype SbcRequirement = SbcRequirement(name: string, teams: seq<TeamRequirement>, isComplex: bool)

  /** The record handed to `setSimulationResult`. */
  datatype SimulationResult = SimulationResult(possible: bool, squads: seq<seq<int>>, remainingPlayers: Inventory,
                                               completedTeams: int, totalTeams: int)

  /** The three branches of the `switch (algorithm)`. */
  datatype Algorithm = Standard | Economic | UltraEconomic

  /** `"economic"` and `"ultra_economic"` select their branch; any other name falls to the standard one. */
  function ParseAlgorithm(name: string): (a: Algorithm)
    ensures a == Economic <==> name == "economic"
    ensures a == UltraEconomic <==> name == "ultra_economic"
    ensures a == Standard <==> name != "economic" && name != "ultra_economic"
  {
    if name == "economic" then Economic
    else if name == "ultra_economic" then UltraEconomic
    else Standard
  }

  /**
   * One squad of `rating` from `inventory` (lines 585-629): the standard
   * simulation for one squad; `findOptimalCombinations` as written, whose
   * refinement can lose the cards of the squad it revisits; or the standard
   * simulation with each squad sorted ascending when it succeeded.
   */
  function Attempt(algorithm: Algorithm, inventory: Inventory, rating: int): SbcCompletion
  {
    match algorithm
    case Economic =>
      var e := OptimalCombinationsAsWritten(inventory, rating, 1);
      SbcCompletion(e.success, e.teams, e.remainingPlayers)
    case UltraEconomic =>
      var u := Completion(inventory, rating, 1);
      if u.possible then SbcCompletion(u.possible, SortEach(u.squads), u.remainingPlayers) else u
    case Standard => Completion(inventory, rating, 1)
  }

  /** `Attempt` for one algorithm, as a function value the run is parameterised by. */
  function AttemptWith(algorithm: Algorithm): (Inventory, int) -> SbcCompletion
  {
    (inventory, rating) => Attempt(algorithm, inventory, rating)
  }

  /** The squads the nested loops ask for, in order: `count` copies of each requirement's rating. */
  function Targets(teams: seq<TeamRequirement>): seq<int>
  {
    if teams == [] then [] else Repeat(teams[0].rating, teams[0].count) + Targets(teams[1..])
  }

  /** The sum of the requirements' counts. */
  function TotalTeams(teams: seq<TeamRequirement>): int
  {
    if teams == [] then 0 else teams[0].count + TotalTeams(teams[1..])
  }

  /** Where the squads end: the verdict, the squads formed and the working inventory. */
  datatype Run = Run(possible: bool, squads: seq<seq<int>>, remaining: Inventory)

  /**
   * Attempt each target in turn from the cards the previous attempts left; a
   * failed attempt ends the run with the inventory it was given.
   */
  function RunFrom(attempt: (Inventory, int) -> SbcCompletion, targets: seq<int>, inventory: Inventory): Run
    decreases |targets|
  {
    if targets == [] then Run(true, [], inventory)
    else
      var a := attempt(inventory, targets[0]);
      if !a.possible then Run(false, [], inventory)
      else
        var rest := RunFrom(attempt, targets[1..], a.remainingPlayers);
        Run(rest.possible, a.squads + rest.squads, rest.remaining)
  }

  /** The run over `targets` after the squads `done`: the squads it forms are appended to them. */
  function Resume(attempt: (Inventory, int) -> SbcCompletion, targets: seq<int>, inventory: Inventory, done: seq<seq<int>>): Run
  {
    var r := RunFrom(attempt, targets, inventory);
    Run(r.possible, done + r.squads, r.remaining)
  }

  /** What `runSimulation` stores: the run over the targets, `completedTeams` its squad count. */
  function Simulate(inventory: Inventory, sbc: SbcRequirement, algorithm: string): SimulationResult
  {
    var r := RunFrom(AttemptWith(ParseAlgorithm(algorithm)), Targets(sbc.teams), inventory);
    SimulationResult(r.possible, r.squads, r.remaining, |r.squads|, TotalTeams(sbc.teams))
  }

  /** `runSimulation` (lines 564-658). */
  method RunSimulation(inventory: Inventory, sbc: SbcRequirement, algorithm: string)
    returns (result: SimulationResult)
    ensures result == Simulate(inventory, sbc, algorithm)
  {
    var attempt := AttemptWith(ParseAlgorithm(algorithm));
    var allSquads: seq<seq<int>> := [];
    var isSuccessful := true;
    var currentInventory := inventory;
    var totalTeams := CountTeams(sbc.teams);
    ghost var whole := Resume(attempt, Targets(sbc.teams), inventory, []);
    assert [] + RunFrom(attempt, Targets(sbc.teams), inventory).squads == RunFrom(attempt, Targets(sbc.teams), inventory).squads;
    var k := 0;
    while k < |sbc.teams|
      invariant 0 <= k <= |sbc.teams|
      invariant Resume(attempt, Targets(sbc.teams[k..]), currentInventory, allSquads) == whole
    {
      var teamReq := sbc.teams[k];
      assert sbc.teams[k..][1..] == sbc.teams[k + 1..];
      isSuccessful, allSquads, currentInventory :=
        FormRequirement(attempt, teamReq.rating, teamReq.count, Targets(sbc.teams[k + 1..]), currentInventory, allSquads);
      if !isSuccessful {
        break;
      }
      k := k + 1;
    }
    if isSuccessful {
      assert sbc.teams[k..] == [];
      assert allSquads + [] == allSquads;
    }
    return SimulationResult(isSuccessful, allSquads, currentInventory, |allSquads|, totalTeams);
  }

  /**
   * The inner loop of lines 581-642: up to `count` squads of `rating`, each
   * from the cards the previous one left, ending with the flag `isSuccessful`;
   * on failure the run is over.
   */
  method FormRequirement(attempt: (Inventory, int) -> SbcCompletion, rating: int, count: int, ghost later: seq<int>,
                         inventory: Inventory, squads: seq<seq<int>>)
    returns (isSuccessful: bool, allSquads: seq<seq<int>>, currentInventory: Inventory)
    ensures isSuccessful ==> (Resume(attempt, later, currentInventory, allSquads)
                              == Resume(attempt, Repeat(rating, count) + later, inventory, squads))
    ensures !isSuccessful ==> (Run(false, allSquads, currentInventory)
                               == Resume(attempt, Repeat(rating, count) + later, inventory, squads))
  {
    allSquads, currentInventory := squads, inventory;
    var i := 0;
    ghost var whole := Resume(attempt, Repeat(rating, count) + later, inventory, squads);
    assert Repeat(rating, count - i) == Repeat(rating, count);
    while i < count
      invariant Resume(attempt, Repeat(rating, count - i) + later, currentInventory, allSquads) == whole
    {
      ghost var targets := Repeat(rating, count - i) + later;
      assert targets[0] == rating && targets[1..] == Repeat(rating, count - (i + 1)) + later;
      ResumeStep(attempt, targets, currentInventory, allSquads);
      var result := attempt(currentInventory, rating);
      if !result.possible {
        return false, allSquads, currentInventory;
      }
      allSquads := allSquads + result.squads;
      currentInventory := result.remainingPlayers;
      i := i + 1;
    }
    assert Repeat(rating, count - i) + later == later;
    isSuccessful := true;
  }

  /** Lines 571-576: the counts added up in order. */
  method CountTeams(teams: seq<TeamRequirement>) returns (totalTeams: int)
    ensures totalTeams == TotalTeams(teams)
  {
    totalTeams := 0;
    for k := 0 to |teams|
      invariant totalTeams + TotalTeams(teams[k..]) == TotalTeams(teams)
    {
      assert teams[k..][1..] == teams[k + 1..];
      totalTeams := totalTeams + teams[k].count;
    }
    assert teams[|teams|..] == [];
  }

  /** One attempt of the run: a failure ends it, a success appends its squads and carries on from its cards. */
  lemma {:induction false} ResumeStep(attempt: (Inventory, int) -> SbcCompletion, targets: seq<int>, inventory: Inventory,
                                      done: seq<seq<int>>)
    requires targets != []
    ensures var a := attempt(inventory, targets[0]);
      Resume(attempt, targets, inventory, done)
        == if a.possible then Resume(attempt, targets[1..], a.remainingPlayers, done + a.squads)
           else Run(false, done, inventory)
  {
    var a := attempt(inventory, targets[0]);
    if a.possible {
      var rest := RunFrom(attempt, targets[1..], a.remainingPlayers);
      assert done + (a.squads + rest.squads) == (done + a.squads) + rest.squads;
    } else {
      assert done + [] == done;
    }
  }

  /** The counts add up to the number of targets when none is negative; a negative count asks for nothing. */
  lemma {:induction false} TargetsCount(teams: seq<TeamRequirement>)
    ensures |Targets(teams)| >= TotalTeams(teams)
    ensures (forall k :: 0 <= k < |teams| ==> teams[k].count >= 0) ==> |Targets(teams)| == TotalTeams(teams)
  {
    if teams != [] {
      TargetsCount(teams[1..]);
      assert forall k :: 1 <= k < |teams| ==> teams[1..][k - 1] == teams[k];
    }
  }

  /**
   * What every single-squad call promises: when it succeeds, one squad that
   * qualifies for the rating, made of cards of the inventory, with the cards
   * left among the inventory's other cards.
   */
  ghost predicate SoundAttempt(attempt: (Inventory, int) -> SbcCompletion)
  {
    forall inventory, rating :: SoundResult(attempt(inventory, rating), inventory, rating)
  }

  /** The promise of a single-squad call, for one result. */
  ghost predicate SoundResult(a: SbcCompletion, inventory: Inventory, rating: int)
  {
    a.possible ==>
      && |a.squads| == 1 && Qualifies(a.squads[0], rating)
      && multiset(a.squads[0]) + multiset(Flatten(a.remainingPlayers)) <= multiset(Flatten(inventory))
  }

  /**
   * What the standard and ultra-economic calls promise on top: when they
   * succeed, the squad and the cards left are exactly the cards of the
   * inventory.
   */
  ghost predicate ExactAttempt(attempt: (Inventory, int) -> SbcCompletion)
  {
    forall inventory, rating :: ExactResult(attempt(inventory, rating), inventory)
  }

  /** The exact promise, for one result. */
  ghost predicate ExactResult(a: SbcCompletion, inventory: Inventory)
  {
    a.possible ==>
      && |a.squads| == 1
      && multiset(a.squads[0]) + multiset(Flatten(a.remainingPlayers)) == multiset(Flatten(inventory))
  }

  /** A result with the guarantees of the simulation for one squad keeps both promises. */
  lemma {:induction false} OneSquad(a: SbcCompletion, inventory: Inventory, rating: int)
    requires AllQualify(a.squads, rating)
    requires multiset(Concat(a.squads)) + multiset(Flatten(a.remainingPlayers)) == multiset(Flatten(inventory))
    requires a.possible ==> |a.squads| == 1
    ensures SoundResult(a, inventory, rating) && ExactResult(a, inventory)
  {
    if a.possible {
      assert Qualifies(a.squads[0], rating);
      assert Concat(a.squads) == a.squads[0] + Concat([]);
    }
  }

  /** A result that takes its squad and its cards left from the inventory keeps the first promise. */
  lemma {:induction false} OneSquadTaken(a: SbcCompletion, inventory: Inventory, rating: int)
    requires AllQualify(a.squads, rating)
    requires multiset(Concat(a.squads)) + multiset(Flatten(a.remainingPlayers)) <= multiset(Flatten(inventory))
    requires a.possible ==> |a.squads| == 1
    ensures SoundResult(a, inventory, rating)
  {
    if a.possible {
      assert Qualifies(a.squads[0], rating);
      assert Concat(a.squads) == a.squads[0] + Concat([]);
    }
  }

  /** The standard simulation of one squad keeps both promises. */
  lemma {:induction false} CompletionOfOne(inventory: Inventory, rating: int)
    ensures SoundResult(Completion(inventory, rating, 1), inventory, rating)
    ensures ExactResult(Completion(inventory, rating, 1), inventory)
  {
    CompletionSpec(inventory, rating, 1);
    OneSquad(Completion(inventory, rating, 1), inventory, rating);
  }

  /** Sorting the squad of a successful single-squad result keeps both promises. */
  lemma {:induction false} SortedOfOne(u: SbcCompletion, inventory: Inventory, rating: int)
    requires SoundResult(u, inventory, rating) && ExactResult(u, inventory) && u.possible
    ensures var s := SbcCompletion(u.possible, SortEach(u.squads), u.remainingPlayers);
      SoundResult(s, inventory, rating) && ExactResult(s, inventory)
  {
    RatingPermutation(u.squads[0], Sort(u.squads[0]));
  }

  /** `findOptimalCombinations` as written, for one squad, keeps the first promise. */
  lemma {:induction false} CombinationsOfOne(inventory: Inventory, rating: int)
    ensures var e := OptimalCombinationsAsWritten(inventory, rating, 1);
      SoundResult(SbcCompletion(e.success, e.teams, e.remainingPlayers), inventory, rating)
  {
    OptimalCombinationsAsWrittenSquads(inventory, rating, 1);
    OptimalCombinationsAsWrittenTakes(inventory, rating, 1);
    var e := OptimalCombinationsAsWritten(inventory, rating, 1);
    OneSquadTaken(SbcCompletion(e.success, e.teams, e.remainingPlayers), inventory, rating);
  }

  /** Each algorithm's single-squad call keeps the first promise, and all but `"economic"` the exact one. */
  lemma {:induction false} AttemptSpec(algorithm: Algorithm, inventory: Inventory, rating: int)
    ensures SoundResult(Attempt(algorithm, inventory, rating), inventory, rating)
    ensures algorithm != Economic ==> ExactResult(Attempt(algorithm, inventory, rating), inventory)
  {
    match algorithm
    case Economic =>
      CombinationsOfOne(inventory, rating);
    case UltraEconomic =>
      CompletionOfOne(inventory, rating);
      var u := Completion(inventory, rating, 1);
      if u.possible {
        SortedOfOne(u, inventory, rating);
      }
    case Standard =>
      CompletionOfOne(inventory, rating);
  }

  lemma {:induction false} AttemptsAreSound(algorithm: Algorithm)
    ensures SoundAttempt(AttemptWith(algorithm))
    ensures algorithm != Economic ==> ExactAttempt(AttemptWith(algorithm))
  {
    forall inventory, rating
      ensures SoundResult(AttemptWith(algorithm)(inventory, rating), inventory, rating)
      ensures algorithm != Economic ==> ExactResult(AttemptWith(algorithm)(inventory, rating), inventory)
    {
      AttemptSpec(algorithm, inventory, rating);
    }
  }

  /** One call under the promise. */
  lemma {:induction false} SoundStep(attempt: (Inventory, int) -> SbcCompletion, inventory: Inventory, rating: int)
    requires SoundAttempt(attempt)
    ensures SoundResult(attempt(inventory, rating), inventory, rating)
  {
  }

  /** One call under the exact promise. */
  lemma {:induction false} ExactStep(attempt: (Inventory, int) -> SbcCompletion, inventory: Inventory, rating: int)
    requires ExactAttempt(attempt)
    ensures ExactResult(attempt(inventory, rating), inventory)
  {
  }

  /**
   * A run forms one squad per target until the first target it cannot form:
   * it succeeds exactly when it formed them all, and when it fails the next
   * target is one the cards left cannot form.
   */
  lemma {:induction false} RunLength(attempt: (Inventory, int) -> SbcCompletion, targets: seq<int>, inventory: Inventory)
    requires SoundAttempt(attempt)
    ensures var r := RunFrom(attempt, targets, inventory);
      && |r.squads| <= |targets|
      && (r.possible <==> |r.squads| == |targets|)
      && (!r.possible ==> !attempt(r.remaining, targets[|r.squads|]).possible)
  {
    if targets != [] {
      var a := attempt(inventory, targets[0]);
      SoundStep(attempt, inventory, targets[0]);
      if a.possible {
        RunLength(attempt, targets[1..], a.remainingPlayers);
        var rest := RunFrom(attempt, targets[1..], a.remainingPlayers);
        if !rest.possible {
          assert targets[1..][|rest.squads|] == targets[|rest.squads| + 1];
        }
      }
    }
  }

  /** The `i`-th squad of a run qualifies for the `i`-th target. */
  lemma {:induction false} RunQualifies(attempt: (Inventory, int) -> SbcCompletion, targets: seq<int>,
                                        inventory: Inventory)
    requires SoundAttempt(attempt)
    ensures var r := RunFrom(attempt, targets, inventory);
      && |r.squads| <= |targets|
      && forall i :: 0 <= i < |r.squads| ==> Qualifies(r.squads[i], targets[i])
  {
    if targets != [] {
      var a := attempt(inventory, targets[0]);
      SoundStep(attempt, inventory, targets[0]);
      if a.possible {
        RunQualifies(attempt, targets[1..], a.remainingPlayers);
        var rest := RunFrom(attempt, targets[1..], a.remainingPlayers);
        var r := RunFrom(attempt, targets, inventory);
        forall i | 0 <= i < |r.squads|
          ensures Qualifies(r.squads[i], targets[i])
        {
          if i > 0 {
            assert r.squads[i] == rest.squads[i - 1] && targets[i] == targets[1..][i - 1];
          }
        }
      }
    }
  }

  /** Under the exact promise, the squads of a run and the cards it leaves are the cards it started with. */
  lemma {:induction false} RunConserves(attempt: (Inventory, int) -> SbcCompletion, targets: seq<int>,
                                        inventory: Inventory)
    requires ExactAttempt(attempt)
    ensures var r := RunFrom(attempt, targets, inventory);
      multiset(Concat(r.squads)) + multiset(Flatten(r.remaining)) == multiset(Flatten(inventory))
  {
    if targets != [] {
      var a := attempt(inventory, targets[0]);
      ExactStep(attempt, inventory, targets[0]);
      if a.possible {
        RunConserves(attempt, targets[1..], a.remainingPlayers);
        var rest := RunFrom(attempt, targets[1..], a.remainingPlayers);
        var squads := a.squads + rest.squads;
        assert squads[0] == a.squads[0] && squads[1..] == rest.squads;
        assert Concat(squads) == a.squads[0] + Concat(rest.squads);
      } else {
        assert Concat([]) == [];
      }
    } else {
      assert Concat([]) == [];
    }
  }

  lemma {:induction false} AddBounded(x: multiset<int>, y: multiset<int>, z: multiset<int>, w: multiset<int>)
    requires y <= z && x + z <= w
    ensures x + y <= w
  {
    forall v
      ensures (x + y)[v] <= w[v]
    {
      assert y[v] <= z[v] && (x + z)[v] <= w[v];
    }
  }

  /** The squads of a run and the cards it leaves are some of the cards it started with. */
  lemma {:induction false} RunTakes(attempt: (Inventory, int) -> SbcCompletion, targets: seq<int>,
                                    inventory: Inventory)
    requires SoundAttempt(attempt)
    ensures var r := RunFrom(attempt, targets, inventory);
      multiset(Concat(r.squads)) + multiset(Flatten(r.remaining)) <= multiset(Flatten(inventory))
  {
    if targets != [] {
      var a := attempt(inventory, targets[0]);
      SoundStep(attempt, inventory, targets[0]);
      if a.possible {
        RunTakes(attempt, targets[1..], a.remainingPlayers);
        var rest := RunFrom(attempt, targets[1..], a.remainingPlayers);
        var squads := a.squads + rest.squads;
        assert squads[0] == a.squads[0] && squads[1..] == rest.squads;
        assert Concat(squads) == a.squads[0] + Concat(rest.squads);
        AddBounded(multiset(a.squads[0]), multiset(Concat(rest.squads)) + multiset(Flatten(rest.remaining)),
                   multiset(Flatten(a.remainingPlayers)), multiset(Flatten(inventory)));
      } else {
        assert Concat([]) == [];
      }
    } else {
      assert Concat([]) == [];
    }
  }

  /**
   * `runSimulation`: `totalTeams` is the sum of the counts; `completedTeams`
   * is the number of squads, one per target formed; the simulation succeeds
   * exactly when every target was formed, and otherwise stopped at a target the
   * cards left cannot form; every squad qualifies for its target; the squads
   * and the cards left are some of the cards of the inventory, and exactly its
   * cards for every algorithm but `"economic"`, whose refinement as written
   * can lose cards (`EconomicRunStopsEarly`).
   */
  lemma {:induction false} SimulationOutcome(inventory: Inventory, sbc: SbcRequirement, algorithm: string)
    ensures var r := Simulate(inventory, sbc, algorithm);
      var targets := Targets(sbc.teams);
      && r.totalTeams == TotalTeams(sbc.teams)
      && r.completedTeams == |r.squads| <= |targets|
      && (r.possible <==> r.completedTeams == |targets|)
      && (!r.possible ==> !Attempt(ParseAlgorithm(algorithm), r.remainingPlayers, targets[r.completedTeams]).possible)
      && (forall i :: 0 <= i < |r.squads| ==> Qualifies(r.squads[i], targets[i]))
      && multiset(Concat(r.squads)) + multiset(Flatten(r.remainingPlayers)) <= multiset(Flatten(inventory))
      && (algorithm != "economic" ==>
            multiset(Concat(r.squads)) + multiset(Flatten(r.remainingPlayers)) == multiset(Flatten(inventory)))
  {
    var attempt := AttemptWith(ParseAlgorithm(algorithm));
    AttemptsAreSound(ParseAlgorithm(algorithm));
    RunLength(attempt, Targets(sbc.teams), inventory);
    RunQualifies(attempt, Targets(sbc.teams), inventory);
    RunTakes(attempt, Targets(sbc.teams), inventory);
    if algorithm != "economic" {
      RunConserves(attempt, Targets(sbc.teams), inventory);
    }
  }

  /** With no negative count, a simulation succeeds exactly when it completed `totalTeams` squads. */
  lemma {:induction false} SimulationComplete(inventory: Inventory, sbc: SbcRequirement, algorithm: string)
    requires forall k :: 0 <= k < |sbc.teams| ==> sbc.teams[k].count >= 0
    ensures var r := Simulate(inventory, sbc, algorithm);
      r.possible <==> r.completedTeams == r.totalTeams
  {
    SimulationOutcome(inventory, sbc, algorithm);
    TargetsCount(sbc.teams);
  }

  /** Sorting the squads of two lists laid end to end is sorting each list's. */
  lemma {:induction false} SortEachConcat(a: seq<seq<int>>, b: seq<seq<int>>)
    ensures SortEach(a + b) == SortEach(a) + SortEach(b)
  {
    var l, r := SortEach(a + b), SortEach(a) + SortEach(b);
    assert |l| == |r|;
    forall i | 0 <= i < |l|
      ensures l[i] == r[i]
    {
      if i < |a| {
        assert l[i] == Sort((a + b)[i]) == Sort(a[i]) == SortEach(a)[i] == r[i];
      } else {
        assert l[i] == Sort((a + b)[i]) == Sort(b[i - |a|]) == SortEach(b)[i - |a|] == r[i];
      }
    }
  }

  /** The ultra-economic run is the standard run with each squad sorted. */
  lemma {:induction false} UltraRun(targets: seq<int>, inventory: Inventory)
    ensures var s := RunFrom(AttemptWith(Standard), targets, inventory);
      RunFrom(AttemptWith(UltraEconomic), targets, inventory) == Run(s.possible, SortEach(s.squads), s.remaining)
  {
    if targets != [] {
      var c := Completion(inventory, targets[0], 1);
      assert AttemptWith(Standard)(inventory, targets[0]) == c;
      if c.possible {
        assert AttemptWith(UltraEconomic)(inventory, targets[0])
            == SbcCompletion(true, SortEach(c.squads), c.remainingPlayers);
        UltraRun(targets[1..], c.remainingPlayers);
        var rest := RunFrom(AttemptWith(Standard), targets[1..], c.remainingPlayers);
        SortEachConcat(c.squads, rest.squads);
      } else {
        assert AttemptWith(UltraEconomic)(inventory, targets[0]) == c;
        assert SortEach([]) == [];
      }
    } else {
      assert SortEach([]) == [];
    }
  }

  /**
   * `ultra_economic` forms the same squads as `standard`, each sorted
   * ascending, reaches the same verdict and leaves the same cards.
   */
  lemma {:induction false} UltraEconomicMatchesStandard(inventory: Inventory, sbc: SbcRequirement)
    ensures var u := Simulate(inventory, sbc, "ultra_economic");
      var s := Simulate(inventory, sbc, "standard");
      && u.possible == s.possible && u.remainingPlayers == s.remainingPlayers
      && u.completedTeams == s.completedTeams && u.totalTeams == s.totalTeams
      && |u.squads| == |s.squads|
      && forall i :: 0 <= i < |u.squads| ==> Sorted(u.squads[i]) && multiset(u.squads[i]) == multiset(s.squads[i])
  {
    assert ParseAlgorithm("ultra_economic") == UltraEconomic;
    assert ParseAlgorithm("standard") == Standard;
    UltraRun(Targets(sbc.teams), inventory);
  }

  /** Two squads of `v`, economic, on twenty-two cards of `v`: the first is formed, the second cannot be. */
  lemma {:induction false} EconomicRunOfTwo(inventory: Inventory, v: int)
    requires multiset(Flatten(inventory)) == multiset(Repeat(v, 2 * SquadSize))
    ensures var r := RunFrom(AttemptWith(Economic), [v, v], inventory);
      !r.possible && |r.squads| == 1
  {
    var e := OptimalCombinationsAsWritten(inventory, v, 1);
    AsWrittenLosesCardsOn(inventory, v);
    CompletionInsufficientPool(e.remainingPlayers, v, 1);
    var a := AttemptWith(Economic)(inventory, v);
    assert a == SbcCompletion(true, [Repeat(v, SquadSize)], e.remainingPlayers);
    assert !AttemptWith(Economic)(e.remainingPlayers, v).possible;
    assert [v, v][1..] == [v];
    assert RunFrom(AttemptWith(Economic), [v], e.remainingPlayers) == Run(false, [], e.remainingPlayers);
  }

  /** A run of two targets whose attempts both succeed. */
  lemma {:induction false} RunTwoSteps(attempt: (Inventory, int) -> SbcCompletion, v: int, inventory: Inventory)
    requires attempt(inventory, v).possible
    requires attempt(attempt(inventory, v).remainingPlayers, v).possible
    ensures var a := attempt(inventory, v);
      var b := attempt(a.remainingPlayers, v);
      RunFrom(attempt, [v, v], inventory) == Run(true, a.squads + b.squads, b.remainingPlayers)
  {
    var a := attempt(inventory, v);
    var b := attempt(a.remainingPlayers, v);
    assert [v, v][1..] == [v] && [v][1..] == [];
    assert RunFrom(attempt, [v], a.remainingPlayers) == Run(true, b.squads + [], b.remainingPlayers);
    assert b.squads + [] == b.squads;
  }

  /** Two squads of `v`, standard, on twenty-two cards of `v`: both are formed. */
  lemma {:induction false} StandardRunOfTwo(inventory: Inventory, v: int)
    requires multiset(Flatten(inventory)) == multiset(Repeat(v, 2 * SquadSize))
    ensures var r := RunFrom(AttemptWith(Standard), [v, v], inventory);
      r.possible && |r.squads| == 2
  {
    var c := AttemptWith(Standard)(inventory, v);
    UniformCompletion(inventory, v);
    var d := AttemptWith(Standard)(c.remainingPlayers, v);
    UniformElevenCompletion(c.remainingPlayers, v);
    CompletionSpec(c.remainingPlayers, v, 1);
    RunTwoSteps(AttemptWith(Standard), v, inventory);
  }

  /**
   * Two squads of 90 from the inventory `{90: 22}`: the standard simulation
   * forms both, but `"economic"` stops after the first, because its refinement
   * as written leaves no cards for the second.
   */
  lemma {:induction false} EconomicRunStopsEarly(name: string, isComplex: bool)
    ensures var sbc := SbcRequirement(name, [TeamRequirement(90, 2)], isComplex);
      var e := Simulate(map[90 := 22], sbc, "economic");
      var s := Simulate(map[90 := 22], sbc, "standard");
      && !e.possible && e.completedTeams == 1 && e.totalTeams == 2
      && s.possible && s.completedTeams == 2
  {
    var teams := [TeamRequirement(90, 2)];
    assert teams[1..] == [];
    assert Targets(teams) == [90, 90] by {
      assert Repeat(90, 2) == [90] + Repeat(90, 1) == [90, 90];
    }
    assert TotalTeams(teams) == 2;
    SingleRatingInventory(map[90 := 22], 90);
    EconomicRunOfTwo(map[90 := 22], 90);
    StandardRunOfTwo(map[90 := 22], 90);
  }
}
