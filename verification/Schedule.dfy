/**
The training schedule: planning updates and evaluation events by arithmetic, against
a run that makes one update at a time.
*/
module Schedule {
  import opened AscendingLists
  import opened Machine
  import opened Outcomes

  const TARGETS_PER_FULL_UPDATE: nat := 65_536
  const EVENT_INTERVAL_TARGETS: nat := 100_000_000
  const WARMUP_UPDATES: nat := 1_000
  const TOTAL_TARGETS: nat := 2_000_000_000

  datatype PlanError = TargetsInvalid | ScheduleInvalid | AccountingInvalid | Overflow

  // ----- a run, one update at a time -----

  /** Targets consumed by the first n updates: each takes a full update's worth, or
      what is left. */
  ghost function Consumed(targets: nat, n: nat): (c: nat)
    ensures c <= targets
  {
    if n == 0 then 0
    else
      var before := Consumed(targets, n - 1);
      before + Least(TARGETS_PER_FULL_UPDATE, targets - before)
  }

  /** An evaluation is due after an update that completes the run or passes a
      multiple of the interval. */
  predicate BoundaryCrossed(targets: nat, previous: nat, current: nat) {
    current == targets || previous / EVENT_INTERVAL_TARGETS < current / EVENT_INTERVAL_TARGETS
  }

  /** Where a run has been evaluated after n updates: before the first, and after
      every update that crossed a boundary. */
  ghost function Stops(targets: nat, n: nat): seq<nat> {
    if n == 0 then [0]
    else
      var before := Stops(targets, n - 1);
      if BoundaryCrossed(targets, Consumed(targets, n - 1), Consumed(targets, n))
      then before + [Consumed(targets, n)] else before
  }

  function Updates(targets: nat): nat {
    targets / TARGETS_PER_FULL_UPDATE + if targets % TARGETS_PER_FULL_UPDATE == 0 then 0 else 1
  }

  lemma {:induction false} ConsumedIs(targets: nat, n: nat)
    ensures Consumed(targets, n) == Least(n * TARGETS_PER_FULL_UPDATE, targets)
    ensures Consumed(targets, n) == targets <==> n >= Updates(targets)
    decreases n
  {
    if n > 0 {
      ConsumedIs(targets, n - 1);
    }
  }

  // ----- planning the updates -----

  datatype TokenPlan = TokenPlan(
    storedPrefixIds: nat, targets: nat, fullUpdates: nat, finalUpdateTargets: nat, totalUpdates: nat,
    completeSpans: nat, finalSpanTargets: nat)

  /** A total is so many full parts and a smaller rest. */
  ghost predicate Splits(total: nat, part: nat, count: nat, rest: nat) {
    count * part + rest == total && rest < part
  }

  lemma {:induction false} Division(a: nat, b: nat)
    requires b > 0
    ensures Splits(a, b, a / b, a % b)
  {
  }

  /** Plans a run. The accounting identity cannot fail. */
  method PlanTokens(targets: nat, contextLength: nat) returns (r: Result<TokenPlan, PlanError>)
    requires targets <= U64_MAX && 0 < contextLength
    ensures r.Ok? <==> 0 < targets < U64_MAX && targets % 4 == 0 && targets > 1_000 * 65_536
    ensures r == Err(TargetsInvalid) <==> targets == 0 || targets % 4 != 0
    ensures r.Err? ==> r.error != AccountingInvalid
    ensures r.Ok? ==>
      && r.value.targets == targets == r.value.storedPrefixIds - 1 && r.value.totalUpdates == Updates(targets)
      && r.value.totalUpdates == r.value.fullUpdates + (if r.value.finalUpdateTargets == 0 then 0 else 1)
      && Splits(targets, 65_536, r.value.fullUpdates, r.value.finalUpdateTargets)
      && Splits(targets, contextLength, r.value.completeSpans, r.value.finalSpanTargets)
  {
    if targets == 0 || targets % 4 != 0 {
      return Err(TargetsInvalid);
    }
    var fullUpdates := targets / TARGETS_PER_FULL_UPDATE;
    var finalUpdateTargets := targets % TARGETS_PER_FULL_UPDATE;
    var totalUpdates := if finalUpdateTargets == 0 then fullUpdates else fullUpdates + 1;
    if totalUpdates <= WARMUP_UPDATES {
      return Err(ScheduleInvalid);
    }
    if targets + 1 > U64_MAX {
      return Err(Overflow);
    }
    Division(targets, contextLength);
    Division(targets, TARGETS_PER_FULL_UPDATE);
    var plan := TokenPlan(targets + 1, targets, fullUpdates, finalUpdateTargets, totalUpdates,
                          targets / contextLength, targets % contextLength);
    var accounted := fullUpdates * TARGETS_PER_FULL_UPDATE + finalUpdateTargets;
    r := if accounted != targets then Err(AccountingInvalid) else Ok(plan);
  }

  /** The planned updates are the run's: all but the last are full, the last takes
      the rest, and together they take every target. */
  lemma {:induction false} PlanIsTheRun(targets: nat, n: nat)
    requires n < Updates(targets)
    ensures Consumed(targets, n + 1) - Consumed(targets, n)
         == if n < targets / TARGETS_PER_FULL_UPDATE then TARGETS_PER_FULL_UPDATE
            else targets % TARGETS_PER_FULL_UPDATE
    ensures Consumed(targets, Updates(targets)) == targets
  {
    ConsumedIs(targets, n);
    ConsumedIs(targets, n + 1);
    ConsumedIs(targets, Updates(targets));
  }

  // ----- planning the evaluations -----

  function CeilDiv(a: nat, b: nat): nat
    requires b > 0
  {
    a / b + if a % b == 0 then 0 else 1
  }

  /** Targets consumed once an update is complete, without running it. */
  function ConsumedAt(targets: nat, update: nat): nat {
    if update >= Updates(targets) then targets else update * TARGETS_PER_FULL_UPDATE
  }

  /** The k-th multiple of the interval. */
  function Threshold(k: nat): nat { k * EVENT_INTERVAL_TARGETS }

  function UpdateFor(targets: nat, threshold: nat): nat {
    Least(CeilDiv(threshold, TARGETS_PER_FULL_UPDATE), Updates(targets))
  }

  /** The planned stop for a threshold. */
  function Position(targets: nat, threshold: nat): nat {
    ConsumedAt(targets, UpdateFor(targets, threshold))
  }

  // It is the first completed update at or past the threshold.
  lemma {:induction false} PositionIsFirst(targets: nat, threshold: nat)
    requires 0 < threshold <= targets
    ensures var u := UpdateFor(targets, threshold);
      && 1 <= u <= Updates(targets) && Position(targets, threshold) == Consumed(targets, u)
      && Consumed(targets, u - 1) < threshold <= Consumed(targets, u)
  {
    var u := UpdateFor(targets, threshold);
    ConsumedIs(targets, u);
    ConsumedIs(targets, u - 1);
  }

  lemma {:induction false} ConsumedRises(targets: nat, m: nat, n: nat)
    requires m < n && m < Updates(targets)
    ensures Consumed(targets, m) < Consumed(targets, n)
  {
    ConsumedIs(targets, m);
    ConsumedIs(targets, n);
  }

  lemma {:induction false} Multiples(a: nat, b: nat, k: nat)
    requires a < Threshold(k) <= b
    ensures a / EVENT_INTERVAL_TARGETS < b / EVENT_INTERVAL_TARGETS
  {
  }

  lemma {:induction false} MultipleBetween(a: nat, b: nat) returns (k: nat)
    requires a / EVENT_INTERVAL_TARGETS < b / EVENT_INTERVAL_TARGETS
    ensures 1 <= k <= b / EVENT_INTERVAL_TARGETS && a < Threshold(k) <= b
  {
    k := b / EVENT_INTERVAL_TARGETS;
  }

  lemma {:induction false} StopsInclude(targets: nat, n: nat, x: nat)
    ensures x in Stops(targets, n) <==>
      x == 0 || exists i :: 1 <= i <= n && x == Consumed(targets, i) && Due(targets, i)
    decreases n
  {
    if n > 0 {
      StopsInclude(targets, n - 1, x);
      assert Due(targets, n) <==> BoundaryCrossed(targets, Consumed(targets, n - 1), Consumed(targets, n));
    }
  }

  ghost predicate Due(targets: nat, i: nat)
    requires i >= 1
  {
    BoundaryCrossed(targets, Consumed(targets, i - 1), Consumed(targets, i))
  }

  lemma {:induction false} StopsAscend(targets: nat, n: nat)
    requires n <= Updates(targets)
    ensures Ascending(Stops(targets, n)) && Stops(targets, n) != []
    ensures Stops(targets, n)[|Stops(targets, n)| - 1] <= Consumed(targets, n)
    decreases n
  {
    if n > 0 {
      StopsAscend(targets, n - 1);
      ConsumedRises(targets, n - 1, n);
    }
  }

  /** The stops planned for the thresholds up to a multiple of the interval. */
  ghost function Planned(targets: nat, k: nat): set<nat> {
    set j | 1 <= j < k :: Position(targets, Threshold(j))
  }

  lemma {:induction false} PlannedNext(targets: nat, k: nat)
    requires k >= 1
    ensures Planned(targets, k + 1) == Planned(targets, k) + {Position(targets, Threshold(k))}
  {
  }

  lemma {:induction false} PlannedIsStop(targets: nat, k: nat)
    requires 1 <= k && Threshold(k) <= targets
    ensures Position(targets, Threshold(k)) in Stops(targets, Updates(targets))
  {
    var threshold := Threshold(k);
    var u := UpdateFor(targets, threshold);
    PositionIsFirst(targets, threshold);
    Multiples(Consumed(targets, u - 1), Consumed(targets, u), k);
    assert Due(targets, u);
    StopsInclude(targets, Updates(targets), Consumed(targets, u));
  }

  lemma {:induction false} DueIsPlanned(targets: nat, i: nat) returns (k: nat)
    requires 1 <= i <= Updates(targets) && Due(targets, i) && Consumed(targets, i) != targets
    ensures 1 <= k <= targets / EVENT_INTERVAL_TARGETS && Position(targets, Threshold(k)) == Consumed(targets, i)
  {
    k := MultipleBetween(Consumed(targets, i - 1), Consumed(targets, i));
    SamePosition(targets, Threshold(k), i);
  }

  lemma {:induction false} SamePosition(targets: nat, threshold: nat, i: nat)
    requires 0 < threshold <= targets && 1 <= i
    requires Consumed(targets, i - 1) < threshold <= Consumed(targets, i)
    ensures Position(targets, threshold) == Consumed(targets, i)
  {
    var u := UpdateFor(targets, threshold);
    PositionIsFirst(targets, threshold);
    if u < i {
      OrderKept(targets, u, i - 1);
    } else if i < u {
      OrderKept(targets, i, u - 1);
    }
  }

  lemma {:induction false} OrderKept(targets: nat, m: nat, n: nat)
    requires m <= n
    ensures Consumed(targets, m) <= Consumed(targets, n)
  {
    ConsumedIs(targets, m);
    ConsumedIs(targets, n);
  }

  /** Planned and actual stops are the same. */
  lemma {:induction false} PlanMatchesRun(targets: nat, x: nat)
    requires 0 < targets
    ensures x in Stops(targets, Updates(targets))
       <==> x in {0, targets} + Planned(targets, targets / EVENT_INTERVAL_TARGETS + 1)
  {
    var n := Updates(targets);
    StopsInclude(targets, n, x);
    ConsumedIs(targets, n);
    assert Due(targets, n);
    if i :| 1 <= i <= n && x == Consumed(targets, i) && Due(targets, i) && x != targets {
      var k := DueIsPlanned(targets, i);
    }
    forall k | 1 <= k < targets / EVENT_INTERVAL_TARGETS + 1
      ensures Threshold(k) <= targets && Position(targets, Threshold(k)) in Stops(targets, n)
    {
      PlannedIsStop(targets, k);
    }
  }

  /** The end of the first update of 65,536 targets, or of a shorter last one, to reach k
      times a hundred million. */
  ghost predicate ReachesFirst(targets: nat, k: nat, x: nat) {
    && 1 <= k && k * 100_000_000 <= x <= targets && x < k * 100_000_000 + 65_536
    && (x % 65_536 == 0 || x == targets)
  }

  lemma {:induction false} PositionReaches(targets: nat, k: nat)
    requires 1 <= k && Threshold(k) <= targets
    ensures ReachesFirst(targets, k, Position(targets, Threshold(k)))
  {
    var u, threshold := UpdateFor(targets, Threshold(k)), Threshold(k);
    assert threshold == k * 100_000_000;
    PositionIsFirst(targets, threshold);
    ConsumedIs(targets, u);
    ConsumedIs(targets, u - 1);
    WholeUpdates(u);
  }

  lemma {:induction false} WholeUpdates(u: nat)
    ensures u * 65_536 % 65_536 == 0
  {
  }

  lemma {:induction false} CeilOf(a: nat, m: nat)
    requires (m - 1) * 65_536 < a <= m * 65_536
    ensures CeilDiv(a, 65_536) == m
  {
  }

  lemma {:induction false} ReachedIsPosition(targets: nat, k: nat, x: nat)
    requires ReachesFirst(targets, k, x) && x % 65_536 == 0
    ensures Position(targets, Threshold(k)) == x
  {
    var m, threshold := x / 65_536, Threshold(k);
    assert x == m * 65_536;
    assert threshold == k * 100_000_000;
    CeilOf(threshold, m);
    PositionIsFirst(targets, threshold);
    ConsumedIs(targets, m);
  }

  /** A run stops to evaluate before its first update, after its last, and after each
      update that is first to reach a multiple of a hundred million targets. */
  lemma {:induction false} StopsInNumbers(targets: nat, x: nat)
    requires 0 < targets
    ensures x in Stops(targets, Updates(targets))
       <==> x == 0 || x == targets || exists k: nat :: ReachesFirst(targets, k, x)
  {
    PlanMatchesRun(targets, x);
    var planned := Planned(targets, targets / EVENT_INTERVAL_TARGETS + 1);
    if x in planned {
      var k :| 1 <= k < targets / EVENT_INTERVAL_TARGETS + 1 && x == Position(targets, Threshold(k));
      PositionReaches(targets, k);
    }
    if k: nat :| ReachesFirst(targets, k, x) && x != targets {
      ReachedIsPosition(targets, k, x);
      assert k <= targets / EVENT_INTERVAL_TARGETS;
      assert x in planned;
    }
  }

  /** The planned stops. Only a threshold that leaves 64 bits stops the planning. */
  method PlanStops(targets: nat) returns (r: Result<set<nat>, PlanError>)
    requires 0 < targets <= U64_MAX
    ensures r.Ok? <==> Threshold(targets / EVENT_INTERVAL_TARGETS + 1) <= U64_MAX
    ensures r.Ok? ==> r.value == {0, targets} + Planned(targets, targets / EVENT_INTERVAL_TARGETS + 1)
    ensures r.Err? ==> r.error == Overflow
  {
    var positions := {0, targets};
    var threshold := EVENT_INTERVAL_TARGETS;
    ghost var k := 1;
    while threshold <= targets
      invariant 1 <= k <= targets / EVENT_INTERVAL_TARGETS + 1 && threshold == Threshold(k) <= U64_MAX
      invariant positions == {0, targets} + Planned(targets, k)
      decreases targets + EVENT_INTERVAL_TARGETS - threshold
    {
      positions := positions + {Position(targets, threshold)};
      PlannedNext(targets, k);
      if threshold + EVENT_INTERVAL_TARGETS > U64_MAX {
        return Err(Overflow);
      }
      threshold := threshold + EVENT_INTERVAL_TARGETS;
      k := k + 1;
    }
    r := Ok(positions);
  }

  lemma {:induction false} PlannedCount(targets: nat)
    requires 0 < targets
    ensures |{0, targets} + Planned(targets, targets / EVENT_INTERVAL_TARGETS + 1)| == |Stops(targets, Updates(targets))|
  {
    var stops := Stops(targets, Updates(targets));
    var positions := {0, targets} + Planned(targets, targets / EVENT_INTERVAL_TARGETS + 1);
    forall x ensures x in Elements(stops) <==> x in positions {
      PlanMatchesRun(targets, x);
    }
    StopsAscend(targets, Updates(targets));
    ElementsCount(stops);
    assert positions == Elements(stops);
  }

  /** Counts the evaluations of a run without running it: as many as the different
      planned stops, which are exactly the stops the run makes. */
  method EvaluationEvents(targets: nat) returns (r: Result<nat, PlanError>)
    requires 0 < targets <= U64_MAX
    ensures r.Ok? <==> Threshold(targets / EVENT_INTERVAL_TARGETS + 1) <= U64_MAX
    ensures r.Ok? ==> r.value == |Stops(targets, Updates(targets))|
    ensures r.Err? ==> r.error == Overflow
  {
    var stops := PlanStops(targets);
    PlannedCount(targets);
    r := if stops.Ok? then Ok(|stops.value|) else Err(stops.error);
  }

  // ----- the evaluations recorded in a resumed run -----

  ghost function LastPosition(k: nat): nat
    requires k >= 1
  {
    if k == 1 then 0 else Position(TOTAL_TARGETS, Threshold(k - 1))
  }

  lemma {:induction false} PositionsRise(k: nat)
    requires 1 <= k <= 20
    ensures LastPosition(k) <= Position(TOTAL_TARGETS, Threshold(k))
  {
    PositionIsFirst(TOTAL_TARGETS, Threshold(k));
    if k > 1 {
      PositionIsFirst(TOTAL_TARGETS, Threshold(k - 1));
      var u, v := UpdateFor(TOTAL_TARGETS, Threshold(k - 1)), UpdateFor(TOTAL_TARGETS, Threshold(k));
      OrderKept(TOTAL_TARGETS, u, v);
    }
  }

  ghost predicate ExpectedUpTo(expected: seq<nat>, consumed: nat, k: nat)
    requires k >= 1
  {
    && Ascending(expected) && expected != [] && expected[|expected| - 1] <= LastPosition(k)
    && Elements(expected) == {0} + set x | x in Planned(TOTAL_TARGETS, k) && x <= consumed
  }

  lemma {:induction false} ExpectedMore(expected: seq<nat>, consumed: nat, k: nat)
    requires 1 <= k <= 20 && ExpectedUpTo(expected, consumed, k)
    ensures var position := Position(TOTAL_TARGETS, Threshold(k));
      ExpectedUpTo(if position <= consumed && expected[|expected| - 1] != position then expected + [position]
                   else expected, consumed, k + 1)
  {
    var position := Position(TOTAL_TARGETS, Threshold(k));
    PositionsRise(k);
    PlannedNext(TOTAL_TARGETS, k);
    var last := expected[|expected| - 1];
    assert last in Elements(expected);
    assert Elements(expected + [position]) == Elements(expected) + {position};
  }

  lemma {:induction false} StopIsExpected(n: nat, x: nat)
    requires n <= Updates(TOTAL_TARGETS)
    ensures x in Stops(TOTAL_TARGETS, n)
       <==> x == 0 || (x <= Consumed(TOTAL_TARGETS, n) && x in Planned(TOTAL_TARGETS, 21))
  {
    StopsInclude(TOTAL_TARGETS, n, x);
    if i :| 1 <= i <= n && x == Consumed(TOTAL_TARGETS, i) && Due(TOTAL_TARGETS, i) {
      OrderKept(TOTAL_TARGETS, i, n);
      DueIsExpected(i);
    }
    if k :| 1 <= k < 21 && x == Position(TOTAL_TARGETS, Threshold(k)) && x <= Consumed(TOTAL_TARGETS, n) {
      ExpectedIsStop(n, k);
    }
  }

  lemma {:induction false} DueIsExpected(i: nat)
    requires 1 <= i <= Updates(TOTAL_TARGETS) && Due(TOTAL_TARGETS, i)
    ensures Consumed(TOTAL_TARGETS, i) in Planned(TOTAL_TARGETS, 21)
  {
    if Consumed(TOTAL_TARGETS, i) != TOTAL_TARGETS {
      var k := DueIsPlanned(TOTAL_TARGETS, i);
    } else {
      ConsumedRises(TOTAL_TARGETS, i - 1, i);
      SamePosition(TOTAL_TARGETS, Threshold(20), i);
    }
  }

  lemma {:induction false} ExpectedIsStop(n: nat, k: nat)
    requires n <= Updates(TOTAL_TARGETS) && 1 <= k < 21
    requires Position(TOTAL_TARGETS, Threshold(k)) <= Consumed(TOTAL_TARGETS, n)
    ensures Position(TOTAL_TARGETS, Threshold(k)) in Stops(TOTAL_TARGETS, n)
  {
    var u := UpdateFor(TOTAL_TARGETS, Threshold(k));
    PositionIsFirst(TOTAL_TARGETS, Threshold(k));
    Multiples(Consumed(TOTAL_TARGETS, u - 1), Consumed(TOTAL_TARGETS, u), k);
    assert Due(TOTAL_TARGETS, u);
    if n < u {
      ConsumedRises(TOTAL_TARGETS, n, u);
    }
    StopsInclude(TOTAL_TARGETS, n, Consumed(TOTAL_TARGETS, u));
  }

  /** The stops a snapshot is expected to have recorded by this many consumed
      targets: they are those of a run that got there update by update. */
  method ExpectedStops(consumed: nat, ghost n: nat) returns (expected: seq<nat>)
    requires n <= Updates(TOTAL_TARGETS) && consumed == Consumed(TOTAL_TARGETS, n)
    ensures expected == Stops(TOTAL_TARGETS, n)
  {
    expected := [0];
    var threshold := EVENT_INTERVAL_TARGETS;
    ghost var k := 1;
    assert Planned(TOTAL_TARGETS, 1) == {};
    while threshold <= TOTAL_TARGETS
      invariant 1 <= k <= 21 && threshold == Threshold(k) && ExpectedUpTo(expected, consumed, k)
      decreases TOTAL_TARGETS + EVENT_INTERVAL_TARGETS - threshold
    {
      var position := Position(TOTAL_TARGETS, threshold);
      ExpectedMore(expected, consumed, k);
      if position <= consumed && expected[|expected| - 1] != position {
        expected := expected + [position];
      }
      threshold := threshold + EVENT_INTERVAL_TARGETS;
      k := k + 1;
    }
    forall x ensures x in expected <==> x in Stops(TOTAL_TARGETS, n) {
      assert x in expected <==> x in Elements(expected);
      StopIsExpected(n, x);
    }
    StopsAscend(TOTAL_TARGETS, n);
    SameAscending(expected, Stops(TOTAL_TARGETS, n));
  }
}
