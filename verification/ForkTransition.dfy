/** Moving a state across forks, in jumps from fork to fork. */
module ForkTransition {
  import opened Wrappers
  import opened ForkSchedule

  /** A beacon state, with all that happened to it. */
  datatype State = State(slot: nat, history: seq<Event>)

  datatype Arrival = Arrival(fork: Fork, state: State, block: Option<Event>)

  /** `process_slots` by one slot. */
  function NextSlot(fork: Fork, state: State): State {
    State(state.slot + 1, state.history + [Slot(fork, state.slot + 1)])
  }

  /** `transition_to`. */
  method TransitionTo(fork: Fork, start: State, slot: nat) returns (outcome: Result<State, string>)
    ensures outcome.Success? <==> start.slot <= slot
    ensures outcome.Success? ==>
      outcome.value == State(slot, start.history + Steps(fork, start.slot, slot))
  {
    if start.slot > slot {
      return Failure("slot lies in the past");
    }
    var state := start;
    assert start.history + Steps(fork, start.slot, start.slot) == start.history;
    for k := 0 to slot - start.slot
      invariant state == State(start.slot + k, start.history + Steps(fork, start.slot, start.slot + k))
    {
      StepsSnoc(fork, start.slot, start.slot + k);
      state := NextSlot(fork, state);
    }
    return Success(state);
  }

  /** `transition_until_fork`: to the slot before the fork. */
  method TransitionUntilFork(
    s: Schedule, fork: Fork, state: State, forkEpoch: nat) returns (outcome: Result<State, string>)
    ensures outcome.Success? <==> state.slot < forkEpoch * s.slotsPerEpoch
    ensures outcome.Success? ==>
      var last := forkEpoch * s.slotsPerEpoch - 1;
      outcome.value == State(last, state.history + Steps(fork, state.slot, last))
  {
    var last := forkEpoch * s.slotsPerEpoch - 1;
    if last < 0 {
      return Failure("slot lies in the past");
    }
    outcome := TransitionTo(fork, state, last);
  }

  /** `do_fork`: the last slot before the fork, the upgrade, and a block if one is wanted. */
  method DoFork(s: Schedule, fork: Fork, start: State, next: Fork, forkEpoch: nat, withBlock: bool)
    returns (outcome: Result<(State, Option<Event>), string>)
    ensures outcome.Success? <==>
      ((start.slot + 1) % s.slotsPerEpoch == 0 && s.EpochAt(start.slot + 1) == forkEpoch && next in s.upgradable)
    ensures outcome.Success? ==>
      var t := start.slot + 1;
      var block := Produce(next, t);
      var upgraded := start.history + [Slot(fork, t), Upgrade(next, t)];
      outcome.value == if withBlock then (State(t, upgraded + [block]), Some(block)) else (State(t, upgraded), None)
  {
    var state := NextSlot(fork, start);
    if state.slot % s.slotsPerEpoch != 0 || s.EpochAt(state.slot) != forkEpoch {
      return Failure("not at the first slot of the fork");
    }
    if next !in s.upgradable {
      return Failure("no upgrade to this fork");
    }
    state := state.(history := state.history + [Upgrade(next, state.slot)]);
    assert state.history == start.history + [Slot(fork, state.slot), Upgrade(next, state.slot)];
    if withBlock {
      var block := Produce(next, state.slot);
      assert state.history + [block] == start.history + [Slot(fork, state.slot), Upgrade(next, state.slot)] + [block];
      return Success((state.(history := state.history + [block]), Some(block)));
    }
    return Success((state, None));
  }

  /** The loop halts at the start and at every due fork. */
  ghost predicate Halt(s: Schedule, start: nat, due: seq<Fork>, slot: int) {
    slot == start || exists g :: g in due && s.ForkSlot(g) == slot
  }

  /** When a block asked for is made: at the first slot of a due fork, or one slot after a halt. */
  ghost predicate MakesBlock(s: Schedule, start: nat, due: seq<Fork>, toSlot: nat) {
    (start != toSlot && Halt(s, start, due, toSlot)) || Halt(s, start, due, toSlot - 1)
  }

  /** What is known of the loop after the due forks `passed`. */
  ghost predicate Progress(s: Schedule, fork: Fork, start: nat, toSlot: nat, passed: seq<Fork>, now: Fork, slot: nat) {
    && start <= slot
    && Due(s, fork, start, toSlot) == passed + Due(s, now, slot, toSlot)
    && (forall g :: g in passed ==> s.ForkSlot(g) <= slot)
    && (slot == start || exists g :: g in passed && s.ForkSlot(g) == slot)
    && WellTimed(s, fork, start, toSlot) == WellTimed(s, now, slot, toSlot)
    && SlotBySlot(s, fork, start, slot).fork == now
  }

  lemma ProgressStart(s: Schedule, fork: Fork, start: nat, toSlot: nat)
    ensures Progress(s, fork, start, toSlot, [], fork, start)
    ensures SlotBySlot(s, fork, start, start) == Run(fork, [])
  {
    assert [] + Due(s, fork, start, toSlot) == Due(s, fork, start, toSlot);
  }

  lemma SameTiming(s: Schedule, fork: Fork, start: nat, toSlot: nat, passed: seq<Fork>, now: Fork, slot: nat)
    requires Progress(s, fork, start, toSlot, passed, now, slot)
    ensures WellTimed(s, fork, start, toSlot) == WellTimed(s, now, slot, toSlot)
    ensures SlotBySlot(s, fork, start, slot).fork == now
    ensures slot >= toSlot ==> WellTimed(s, fork, start, toSlot)
  {
  }

  /** With no fork left, a block is made exactly when the last slot comes next. */
  lemma LastBlock(s: Schedule, fork: Fork, start: nat, toSlot: nat, passed: seq<Fork>, now: Fork, slot: nat)
    requires Progress(s, fork, start, toSlot, passed, now, slot) && slot < toSlot
    requires Due(s, now, slot, toSlot) == []
    ensures MakesBlock(s, start, Due(s, fork, start, toSlot), toSlot) <==> toSlot == slot + 1
  {
    assert Due(s, fork, start, toSlot) == passed;
  }

  /** One more fork passed. */
  lemma PassFork(s: Schedule, fork: Fork, start: nat, toSlot: nat, passed: seq<Fork>, now: Fork, slot: nat, next: Fork)
    requires Progress(s, fork, start, toSlot, passed, now, slot) && slot < toSlot
    requires s.Next(now) == Some(next) && slot < s.ForkSlot(next) <= toSlot && next in s.upgradable
    ensures Progress(s, fork, start, toSlot, passed + [next], next, s.ForkSlot(next))
    ensures SlotBySlot(s, fork, start, s.ForkSlot(next)).events == SlotBySlot(s, fork, start, slot).events
      + (Steps(now, slot, s.ForkSlot(next)) + [Upgrade(next, s.ForkSlot(next))])
    ensures s.ForkSlot(next) == toSlot ==> MakesBlock(s, start, Due(s, fork, start, toSlot), toSlot)
  {
    var t := s.ForkSlot(next);
    assert Due(s, now, slot, toSlot) == [next] + Due(s, next, t, toSlot);
    assert passed + ([next] + Due(s, next, t, toSlot)) == (passed + [next]) + Due(s, next, t, toSlot);
    SlotBySlotComposes(s, fork, start, slot, t);
    RunToFork(s, now, slot);
    assert next in passed + [next] && next in Due(s, fork, start, toSlot);
  }

  /** No fork is due any more: on to the last slot, with a block if that comes next. */
  method FinishUnderFork(fork: Fork, start: State, toSlot: nat, withBlock: bool) returns (r: Arrival)
    requires start.slot < toSlot
    ensures
      var there := start.history + Steps(fork, start.slot, toSlot);
      var block := Produce(fork, toSlot);
      r == if withBlock && toSlot == start.slot + 1
        then Arrival(fork, State(toSlot, there + [block]), Some(block))
        else Arrival(fork, State(toSlot, there), None)
  {
    if withBlock && toSlot == start.slot + 1 {
      var before := TransitionTo(fork, start, toSlot - 1);
      var state := NextSlot(fork, before.value);
      StepsSnoc(fork, start.slot, toSlot - 1);
      assert state.history == start.history + Steps(fork, start.slot, toSlot);
      var block := Produce(fork, toSlot);
      r := Arrival(fork, State(toSlot, state.history + [block]), Some(block));
    } else {
      var there := TransitionTo(fork, start, toSlot);
      r := Arrival(fork, there.value, None);
    }
  }

  /** A fork is due: on to it and over it, with a block if that is where the run ends. */
  method CrossFork(s: Schedule, fork: Fork, start: State, next: Fork, toSlot: nat, withBlock: bool)
    returns (outcome: Result<Arrival, string>)
    requires start.slot < s.ForkSlot(next) <= toSlot
    ensures outcome.Success? <==> next in s.upgradable
    ensures outcome.Success? ==>
      var t := s.ForkSlot(next);
      var there := start.history + Steps(fork, start.slot, t) + [Upgrade(next, t)];
      var block := Produce(next, t);
      outcome.value == if withBlock && t == toSlot
        then Arrival(next, State(t, there + [block]), Some(block))
        else Arrival(next, State(t, there), None)
  {
    var t := s.ForkSlot(next);
    var before := TransitionUntilFork(s, fork, start, s.epochOf(next));
    StepsSnoc(fork, start.slot, t - 1);
    FirstSlotOfFork(s, next);
    var state := before.value;
    var forked := DoFork(s, fork, state, next, s.epochOf(next), withBlock && toSlot == state.slot + 1);
    if forked.Failure? {
      return Failure(forked.error);
    }
    var there := start.history + Steps(fork, start.slot, t) + [Upgrade(next, t)];
    assert state.history + [Slot(fork, t), Upgrade(next, t)] == there;
    return Success(Arrival(next, forked.value.0, forked.value.1));
  }

  lemma FirstSlotOfFork(s: Schedule, fork: Fork)
    ensures s.EpochAt(s.ForkSlot(fork)) == s.epochOf(fork) && s.ForkSlot(fork) % s.slotsPerEpoch == 0
  {
    EpochOfForkSlot(s, fork);
    var n, slot := s.slotsPerEpoch, s.ForkSlot(fork);
    assert slot == n * (slot / n) + slot % n;
    assert n * s.epochOf(fork) == slot;
  }

  lemma QuietStretch(s: Schedule, fork: Fork, slot: nat, toSlot: nat)
    requires slot < toSlot && Due(s, fork, slot, toSlot) == [] && WellTimed(s, fork, slot, toSlot)
    ensures SlotBySlot(s, fork, slot, toSlot) == Run(fork, Steps(fork, slot, toSlot))
  {
    NextFork(s, fork, slot, toSlot);
    QuietRun(s, fork, slot, toSlot);
  }

  /** What one turn of the loop does. */
  ghost predicate Stretched(s: Schedule, fork: Fork, state: State, toSlot: nat, withBlock: bool, next: Arrival) {
    if Due(s, fork, state.slot, toSlot) == [] then
      && WellTimed(s, fork, state.slot, toSlot)
      && var block := Produce(fork, toSlot);
         var there := state.history + Steps(fork, state.slot, toSlot);
         next == if withBlock && toSlot == state.slot + 1
           then Arrival(fork, State(toSlot, there + [block]), Some(block))
             else Arrival(fork, State(toSlot, there), None)
    else
      && s.Next(fork) == Some(next.fork) && state.slot < s.ForkSlot(next.fork) <= toSlot && next.fork in s.upgradable
      && var t := s.ForkSlot(next.fork);
         var block := Produce(next.fork, t);
         var there := state.history + (Steps(fork, state.slot, t) + [Upgrade(next.fork, t)]);
         next == if withBlock && t == toSlot
           then Arrival(next.fork, State(t, there + [block]), Some(block))
             else Arrival(next.fork, State(t, there), None)
  }

  /** One turn of the loop: to the next due fork, or to the last slot if none is due. */
  method OneStretch(s: Schedule, fork: Fork, state: State, toSlot: nat, withBlock: bool)
    returns (outcome: Result<Arrival, string>)
    requires state.slot < toSlot
    ensures outcome.Failure? ==> !WellTimed(s, fork, state.slot, toSlot)
    ensures outcome.Success? ==> Stretched(s, fork, state, toSlot, withBlock, outcome.value)
  {
    var found := GetNextForkTransition(s, fork, s.EpochAt(state.slot));
    NextFork(s, fork, state.slot, toSlot);
    if found.Failure? {
      return Failure(found.error);
    }
    hide Due, WellTimed, Steps;
    if found.value == None || s.EpochAt(toSlot) < found.value.value.1 {
      var arrival := FinishUnderFork(fork, state, toSlot, withBlock);
      return Success(arrival);
    }
    var next := found.value.value.0;
    outcome := CrossFork(s, fork, state, next, toSlot, withBlock);
    assert state.history + Steps(fork, state.slot, s.ForkSlot(next)) + [Upgrade(next, s.ForkSlot(next))]
      == state.history + (Steps(fork, state.slot, s.ForkSlot(next)) + [Upgrade(next, s.ForkSlot(next))]);
  }

  /** What holds between the turns of the loop. */
  ghost predicate Reached(
    s: Schedule, fork: Fork, start: State, toSlot: nat, withBlock: bool, passed: seq<Fork>, now: Arrival)
  {
    && start.slot <= now.state.slot <= toSlot
    && (now.block.Some? ==> now.state.slot == toSlot)
    && (now.state.slot < toSlot ==> Progress(s, fork, start.slot, toSlot, passed, now.fork, now.state.slot))
    && (now.state.slot == toSlot ==> Arrived(s, fork, start, toSlot, withBlock, now))
    && SlotBySlot(s, fork, start.slot, now.state.slot).fork == now.fork
    && now.state.history
      == start.history + SlotBySlot(s, fork, start.slot, now.state.slot).events + BlockEvents(now.block)
  }

  ghost predicate Arrived(s: Schedule, fork: Fork, start: State, toSlot: nat, withBlock: bool, now: Arrival) {
    && WellTimed(s, fork, start.slot, toSlot)
    && now.block == if withBlock && MakesBlock(s, start.slot, Due(s, fork, start.slot, toSlot), toSlot)
      then Some(Produce(now.fork, toSlot)) else None
  }

  lemma ReachedStart(s: Schedule, fork: Fork, start: State, toSlot: nat, withBlock: bool)
    requires start.slot < toSlot
    ensures Reached(s, fork, start, toSlot, withBlock, [], Arrival(fork, start, None))
  {
    ProgressStart(s, fork, start.slot, toSlot);
    assert start.history + [] + [] == start.history;
  }

  lemma ReachedQuietly(
    s: Schedule, fork: Fork, start: State, toSlot: nat, withBlock: bool, passed: seq<Fork>, now: Arrival,
    next: Arrival)
    requires Reached(s, fork, start, toSlot, withBlock, passed, now) && now.state.slot < toSlot
    requires Due(s, now.fork, now.state.slot, toSlot) == []
      && Stretched(s, now.fork, now.state, toSlot, withBlock, next)
    ensures Reached(s, fork, start, toSlot, withBlock, passed, next) && next.state.slot == toSlot
  {
    hide Progress, MakesBlock, Due, WellTimed, SlotBySlot, Steps;
    var slot := now.state.slot;
    LastBlock(s, fork, start.slot, toSlot, passed, now.fork, slot);
    SameTiming(s, fork, start.slot, toSlot, passed, now.fork, slot);
    SlotBySlotComposes(s, fork, start.slot, slot, toSlot);
    QuietStretch(s, now.fork, slot, toSlot);
    var before, steps := SlotBySlot(s, fork, start.slot, slot).events, Steps(now.fork, slot, toSlot);
    assert start.history + before + steps == start.history + (before + steps);
  }

  lemma ReachedFork(
    s: Schedule, fork: Fork, start: State, toSlot: nat, withBlock: bool, passed: seq<Fork>, now: Arrival,
    next: Arrival)
    requires Reached(s, fork, start, toSlot, withBlock, passed, now) && now.state.slot < toSlot
    requires Due(s, now.fork, now.state.slot, toSlot) != []
      && Stretched(s, now.fork, now.state, toSlot, withBlock, next)
    ensures Reached(s, fork, start, toSlot, withBlock, passed + [next.fork], next) && now.state.slot < next.state.slot
  {
    hide Progress, MakesBlock, Due, WellTimed, SlotBySlot, Steps;
    PassFork(s, fork, start.slot, toSlot, passed, now.fork, now.state.slot, next.fork);
    SameTiming(s, fork, start.slot, toSlot, passed + [next.fork], next.fork, s.ForkSlot(next.fork));
  }

  /** The upgrade to a listed fork, at the first slot of its epoch, right after the slot was processed
      under its predecessor. */
  ghost predicate IsNextUpgrade(s: Schedule, before: Event, e: Event) {
    && before == Slot(before.fork, e.slot)
    && s.phases.Some? && e.fork in s.phases.value && s.previous(e.fork) == Some(before.fork)
    && e.slot == s.epochOf(e.fork) * s.slotsPerEpoch
  }

  /** `transition_across_forks`: from fork to fork, it does what processing slot by slot does. It arrives
      exactly at `toSlot`; a block is made only there, and not always when it is asked for. */
  method TransitionAcrossForks(s: Schedule, fork: Fork, start: State, toSlot: nat, withBlock: bool)
    returns (outcome: Result<Arrival, string>)
    ensures outcome.Success? <==> start.slot < toSlot && WellTimed(s, fork, start.slot, toSlot)
    ensures outcome.Success? ==>
      var run := SlotBySlot(s, fork, start.slot, toSlot);
      var block := Produce(run.fork, toSlot);
      outcome.value ==
        if withBlock && MakesBlock(s, start.slot, Due(s, fork, start.slot, toSlot), toSlot)
        then Arrival(run.fork, State(toSlot, start.history + run.events + [block]), Some(block))
        else Arrival(run.fork, State(toSlot, start.history + run.events), None)
    ensures outcome.Success? ==>
      var history, before := outcome.value.state.history, |start.history|;
      && before < |history| && history[..before] == start.history
      && forall i :: before <= i < |history| && history[i].Upgrade? ==>
        i > before && IsNextUpgrade(s, history[i - 1], history[i])
    ensures outcome.Success? ==>
      var history := outcome.value.state.history;
      outcome.value.block.Some? <==>
        && withBlock
        && (toSlot == start.slot + 1
            || exists i :: |start.history| <= i < |history| && history[i].Upgrade?
                 && history[i].slot <= toSlot <= history[i].slot + 1)
  {
    if toSlot <= start.slot {
      return Failure("slot lies in the past");
    }
    hide Progress, MakesBlock, Due, WellTimed, SlotBySlot, Stretched, IsNextUpgrade;
    var now := Arrival(fork, start, None);
    ghost var passed: seq<Fork> := [];
    ReachedStart(s, fork, start, toSlot, withBlock);
    while now.state.slot < toSlot
      invariant Reached(s, fork, start, toSlot, withBlock, passed, now)
      decreases toSlot - now.state.slot
    {
      assert now.block == None;
      SameTiming(s, fork, start.slot, toSlot, passed, now.fork, now.state.slot);
      var next :- OneStretch(s, now.fork, now.state, toSlot, withBlock);
      if Due(s, now.fork, now.state.slot, toSlot) == [] {
        ReachedQuietly(s, fork, start, toSlot, withBlock, passed, now, next);
      } else {
        ReachedFork(s, fork, start, toSlot, withBlock, passed, now, next);
        passed := passed + [next.fork];
      }
      now := next;
    }
    UpgradesAreNext(s, fork, start, toSlot, BlockEvents(now.block), now.state.history);
    BlockByHistory(s, fork, start, toSlot, BlockEvents(now.block), now.state.history);
    return Success(now);
  }

  /** The upgrades in a history that a run appended to. */
  lemma UpgradesAreNext(
    s: Schedule, fork: Fork, start: State, toSlot: nat, tail: seq<Event>, history: seq<Event>)
    requires start.slot < toSlot && forall i :: 0 <= i < |tail| ==> tail[i].Produce?
    requires history == start.history + SlotBySlot(s, fork, start.slot, toSlot).events + tail
    ensures
      var before := |start.history|;
      && before < |history| && history[..before] == start.history
      && forall i :: before <= i < |history| && history[i].Upgrade? ==>
        i > before && IsNextUpgrade(s, history[i - 1], history[i])
  {
    var events := SlotBySlot(s, fork, start.slot, toSlot).events;
    RunEnds(s, fork, start.slot, toSlot);
    hide SlotBySlot, IsNextUpgrade;
    forall k | 0 <= k < |events| && events[k].Upgrade? ensures k > 0 && IsNextUpgrade(s, events[k - 1], events[k]) {
      UpgradeIsNext(s, fork, start.slot, toSlot, k);
    }
  }

  lemma UpgradeIsNext(s: Schedule, fork: Fork, slot: nat, toSlot: nat, k: nat)
    requires k < |SlotBySlot(s, fork, slot, toSlot).events| && SlotBySlot(s, fork, slot, toSlot).events[k].Upgrade?
    ensures
      var events := SlotBySlot(s, fork, slot, toSlot).events;
      k > 0 && IsNextUpgrade(s, events[k - 1], events[k])
  {
    hide SlotBySlot;
    RunIsChained(s, fork, slot, toSlot, k);
    UpgradeAfterSlot(s, fork, slot, toSlot, k);
  }

  /** An upgrade comes right after the processing of its slot. */
  lemma {:induction false} UpgradeAfterSlot(s: Schedule, fork: Fork, slot: nat, toSlot: nat, k: nat)
    requires k < |SlotBySlot(s, fork, slot, toSlot).events| && SlotBySlot(s, fork, slot, toSlot).events[k].Upgrade?
    ensures k > 0 && SlotBySlot(s, fork, slot, toSlot).events[k - 1].Slot?
    decreases toSlot - slot
  {
    var one := OneSlot(s, fork, slot);
    if k >= |one.events| {
      UpgradeAfterSlot(s, one.fork, slot + 1, toSlot, k - |one.events|);
    }
  }

  function BlockEvents(block: Option<Event>): seq<Event> {
    if block.Some? then [block.value] else []
  }

  /** What the search for the next fork says about the forks due and the schedule. */
  lemma NextFork(s: Schedule, fork: Fork, slot: nat, toSlot: nat)
    requires slot < toSlot
    ensures
      var found := GetNextForkTransition(s, fork, s.EpochAt(slot));
      && (found.Failure? ==> !WellTimed(s, fork, slot, toSlot))
      && (found.Success? && (found.value == None || s.EpochAt(toSlot) < found.value.value.1) ==>
           && WellTimed(s, fork, slot, toSlot) && Due(s, fork, slot, toSlot) == []
           && (s.Next(fork).Some? ==> s.ForkSlot(s.Next(fork).value) > toSlot))
      && (found.Success? && found.value.Some? && found.value.value.1 <= s.EpochAt(toSlot) ==>
           var next := found.value.value.0;
           && s.Next(fork) == Some(next) && Due(s, fork, slot, toSlot) != [] && slot < s.ForkSlot(next) <= toSlot
           && (WellTimed(s, fork, slot, toSlot) ==> next in s.upgradable))
  {
    if s.Next(fork).Some? {
      EpochBounds(s, slot, s.Next(fork).value);
      EpochBounds(s, toSlot, s.Next(fork).value);
    }
  }

  // ---------------------------------------------------------------- consequences

  /** Under a linear schedule of increasing epochs the transition succeeds from every slot before
      `toSlot`; it ends under the last fork due, and upgrades to each due fork once, in order, at the
      first slot of its epoch. */
  lemma LinearScheduleArrives(s: Schedule, fork: Fork, start: nat, toSlot: nat)
    requires Increasing(s) && Current(s, fork, start) && start < toSlot
    ensures WellTimed(s, fork, start, toSlot)
    ensures
      var run, due := SlotBySlot(s, fork, start, toSlot), Due(s, fork, start, toSlot);
      && run.fork == (if due == [] then fork else due[|due| - 1])
      && Upgrades(run.events) == UpgradesTo(s, due)
      && Current(s, run.fork, toSlot)
      && forall i :: 0 <= i < |due| ==> s.EpochAt(start) < s.epochOf(due[i]) <= s.EpochAt(toSlot)
  {
    IncreasingIsWellTimed(s, fork, start, toSlot);
    RunUpgrades(s, fork, start, toSlot);
    DueIsChain(s, fork, start, toSlot);
  }

  /** A transition succeeds exactly when both halves of it do, wherever it is cut. */
  lemma {:induction false} TimingComposes(s: Schedule, fork: Fork, a: nat, b: nat, c: nat)
    requires a <= b < c
    ensures WellTimed(s, fork, a, c)
       <==> WellTimed(s, fork, a, b) && WellTimed(s, SlotBySlot(s, fork, a, b).fork, b, c)
    decreases b - a
  {
    if a == b {
      ProgressStart(s, fork, a, c);
    } else if s.Next(fork).Some? && a < s.ForkSlot(s.Next(fork).value) <= b {
      var next := s.Next(fork).value;
      var t := s.ForkSlot(next);
      TimingComposes(s, next, t, b, c);
      SlotBySlotComposes(s, fork, a, t, b);
      RunToFork(s, fork, a);
    } else if s.Next(fork).None? || b < s.ForkSlot(s.Next(fork).value) {
      QuietRun(s, fork, a, b);
    }
  }

  /** Under a list of forks with distinct predecessors, later than these and than the start, every fork due is
      applied: no listed fork whose predecessor is the one that the run ends under has started by then. */
  lemma NoDueForkIsMissed(s: Schedule, fork: Fork, start: nat, toSlot: nat)
    requires s.phases.Some? && start < toSlot
    requires forall i, j ::
      0 <= i < j < |s.phases.value| ==> s.previous(s.phases.value[i]) != s.previous(s.phases.value[j])
    requires forall f, g :: f in s.phases.value && g in s.phases.value && s.previous(g) == Some(f) ==>
      s.epochOf(f) < s.epochOf(g)
    requires forall g :: g in s.phases.value && s.previous(g) == Some(fork) ==> s.epochOf(g) > start / s.slotsPerEpoch
    requires forall g :: g in s.phases.value ==> g in s.upgradable
    ensures WellTimed(s, fork, start, toSlot)
    ensures forall g :: g in s.phases.value && s.previous(g) == Some(SlotBySlot(s, fork, start, toSlot).fork) ==>
      s.epochOf(g) > toSlot / s.slotsPerEpoch
  {
    forall f
      ensures s.Next(f).Some? ==> s.Next(f).value in s.phases.value && s.previous(s.Next(f).value) == Some(f)
      ensures s.Next(f) == None ==> forall g :: g in s.phases.value ==> s.previous(g) != Some(f)
    {
      NextIsListed(s, f);
    }
    assert Increasing(s) && Current(s, fork, start);
    LinearScheduleArrives(s, fork, start, toSlot);
    var last := SlotBySlot(s, fork, start, toSlot).fork;
    forall g | g in s.phases.value && s.previous(g) == Some(last) ensures s.epochOf(g) > toSlot / s.slotsPerEpoch {
      assert s.Next(last) == Some(g);
    }
  }

  /** When a block asked for is made: at the very next slot, at the first slot of a fork due, or one slot
      after that. */
  lemma MakesBlockIff(s: Schedule, fork: Fork, start: nat, toSlot: nat)
    requires start < toSlot
    ensures MakesBlock(s, start, Due(s, fork, start, toSlot), toSlot) <==>
      || toSlot == start + 1
      || exists g :: g in Due(s, fork, start, toSlot)
           && (s.epochOf(g) * s.slotsPerEpoch == toSlot || s.epochOf(g) * s.slotsPerEpoch + 1 == toSlot)
  {
    forall g ensures s.ForkSlot(g) == s.epochOf(g) * s.slotsPerEpoch {
    }
  }

  lemma BlockByHistory(s: Schedule, fork: Fork, start: State, toSlot: nat, tail: seq<Event>, history: seq<Event>)
    requires WellTimed(s, fork, start.slot, toSlot) && start.slot < toSlot
    requires forall i :: 0 <= i < |tail| ==> tail[i].Produce?
    requires history == start.history + SlotBySlot(s, fork, start.slot, toSlot).events + tail
    ensures MakesBlock(s, start.slot, Due(s, fork, start.slot, toSlot), toSlot) <==>
      || toSlot == start.slot + 1
      || exists i :: |start.history| <= i < |history| && history[i].Upgrade?
           && history[i].slot <= toSlot <= history[i].slot + 1
  {
    hide MakesBlock, Due, WellTimed, SlotBySlot;
    MakesBlockByEvents(s, fork, start.slot, toSlot);
    var before, events := |start.history|, SlotBySlot(s, fork, start.slot, toSlot).events;
    if e :| e in events && e.Upgrade? && e.slot <= toSlot <= e.slot + 1 {
      var k :| 0 <= k < |events| && events[k] == e;
      assert history[before + k] == e;
    }
    if i :| before <= i < |history| && history[i].Upgrade? && history[i].slot <= toSlot <= history[i].slot + 1 {
      assert history[i] == events[i - before];
    }
  }

  lemma {:induction false} UpgradesAreEvents(events: seq<Event>, e: Event)
    ensures e in Upgrades(events) <==> e in events && e.Upgrade?
  {
    if events != [] {
      UpgradesAreEvents(events[1..], e);
      assert events == [events[0]] + events[1..];
    }
  }

  /** The forks due are those upgraded to on the way. */
  lemma DueIsUpgraded(s: Schedule, fork: Fork, start: nat, toSlot: nat, g: Fork)
    requires WellTimed(s, fork, start, toSlot) && start <= toSlot
    ensures g in Due(s, fork, start, toSlot) <==>
      Upgrade(g, s.epochOf(g) * s.slotsPerEpoch) in SlotBySlot(s, fork, start, toSlot).events
  {
    hide Due, WellTimed, SlotBySlot;
    var due, events := Due(s, fork, start, toSlot), SlotBySlot(s, fork, start, toSlot).events;
    RunUpgrades(s, fork, start, toSlot);
    UpgradesAreEvents(events, Upgrade(g, s.ForkSlot(g)));
    if g in due {
      var i :| 0 <= i < |due| && due[i] == g;
      assert UpgradesTo(s, due)[i] == Upgrade(g, s.ForkSlot(g));
    }
  }

  /** In what happened on the way: a block asked for is made at the very next slot, at a slot with an upgrade,
      or one slot after that. */
  lemma MakesBlockByEvents(s: Schedule, fork: Fork, start: nat, toSlot: nat)
    requires WellTimed(s, fork, start, toSlot) && start < toSlot
    ensures MakesBlock(s, start, Due(s, fork, start, toSlot), toSlot) <==>
      || toSlot == start + 1
      || exists e :: e in SlotBySlot(s, fork, start, toSlot).events && e.Upgrade? && e.slot <= toSlot <= e.slot + 1
  {
    hide MakesBlock, Due, WellTimed, SlotBySlot;
    MakesBlockIff(s, fork, start, toSlot);
    var due, events := Due(s, fork, start, toSlot), SlotBySlot(s, fork, start, toSlot).events;
    if g :| g in due && (s.epochOf(g) * s.slotsPerEpoch == toSlot || s.epochOf(g) * s.slotsPerEpoch + 1 == toSlot) {
      DueIsUpgraded(s, fork, start, toSlot, g);
    }
    if e :| e in events && e.Upgrade? && e.slot <= toSlot <= e.slot + 1 {
      RunUpgrades(s, fork, start, toSlot);
      UpgradesAreEvents(events, e);
      var i :| 0 <= i < |due| && UpgradesTo(s, due)[i] == e;
      assert due[i] in due;
    }
  }

  /** Asking for a block at the very next slot always makes one. */
  lemma NextSlotMakesBlock(s: Schedule, fork: Fork, start: nat)
    ensures MakesBlock(s, start, Due(s, fork, start, start + 1), start + 1)
  {
  }

  /** A block asked for two slots ahead is not made, when no fork starts in between. */
  lemma QuietGapMakesNoBlock(s: Schedule, fork: Fork, start: nat, toSlot: nat)
    requires Due(s, fork, start, toSlot) == [] && start + 1 < toSlot
    ensures !MakesBlock(s, start, Due(s, fork, start, toSlot), toSlot)
  {
  }
}
