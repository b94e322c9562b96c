/** The schedule of forks, and the reference run through it one slot at a time. */
module ForkSchedule {
  import opened Wrappers
  import opened Numbers
  import opened ModularArithmetic

  type Fork = string

  /** `phases` are the forks under test, in the order in which they are listed; `upgradable` are those
      with an upgrade function. */
  datatype Schedule = Schedule(
    phases: Option<seq<Fork>>, previous: Fork -> Option<Fork>, epochOf: Fork -> nat,
    upgradable: set<Fork>, slotsPerEpoch: pos)
  {
    function EpochAt(slot: nat): nat {
      slot / slotsPerEpoch
    }

    function ForkSlot(fork: Fork): nat {
      epochOf(fork) * slotsPerEpoch
    }

    /** The first listed fork whose predecessor is `fork`. */
    function Next(fork: Fork): Option<Fork> {
      if phases.None? then None else FirstAfter(phases.value, previous, fork)
    }
  }

  function FirstAfter(forks: seq<Fork>, previous: Fork -> Option<Fork>, fork: Fork): Option<Fork> {
    if forks == [] then None
    else if previous(forks[0]) == Some(fork) then Some(forks[0])
    else FirstAfter(forks[1..], previous, fork)
  }

  lemma {:induction false} FirstIsFirst(forks: seq<Fork>, previous: Fork -> Option<Fork>, fork: Fork)
    ensures FirstAfter(forks, previous, fork) == None <==>
      forall i :: 0 <= i < |forks| ==> previous(forks[i]) != Some(fork)
    ensures FirstAfter(forks, previous, fork).Some? ==> exists i ::
      && 0 <= i < |forks| && forks[i] == FirstAfter(forks, previous, fork).value && previous(forks[i]) == Some(fork)
      && forall j :: 0 <= j < i ==> previous(forks[j]) != Some(fork)
  {
    if forks != [] && previous(forks[0]) != Some(fork) {
      var rest := forks[1..];
      FirstIsFirst(rest, previous, fork);
      assert forall i :: 0 < i < |forks| ==> forks[i] == rest[i - 1];
      if FirstAfter(rest, previous, fork).Some? {
        var i :| && 0 <= i < |rest| && rest[i] == FirstAfter(rest, previous, fork).value
                 && previous(rest[i]) == Some(fork) && forall j :: 0 <= j < i ==> previous(rest[j]) != Some(fork);
        assert forks[i + 1] == rest[i];
      }
    }
  }

  /** The fork that follows is listed and has this one as its predecessor. */
  lemma NextIsListed(s: Schedule, fork: Fork)
    ensures s.Next(fork).Some? ==>
      s.phases.Some? && s.Next(fork).value in s.phases.value && s.previous(s.Next(fork).value) == Some(fork)
    ensures s.Next(fork) == None && s.phases.Some? ==> forall g :: g in s.phases.value ==> s.previous(g) != Some(fork)
  {
    if s.phases.Some? {
      FirstIsFirst(s.phases.value, s.previous, fork);
    }
  }

  /** `get_next_fork_transition`: the first listed fork whose predecessor is the given one, with its own
      epoch; none exactly if no listed fork has that predecessor. It raises exactly if that fork should
      have started already. */
  function GetNextForkTransition(s: Schedule, fork: Fork, epoch: nat): (found: Result<Option<(Fork, nat)>, string>)
    ensures found == Success(None) <==>
      s.phases.None? || forall i :: 0 <= i < |s.phases.value| ==> s.previous(s.phases.value[i]) != Some(fork)
    ensures found != Success(None) ==> s.phases.Some? && exists i ::
      && 0 <= i < |s.phases.value| && s.previous(s.phases.value[i]) == Some(fork)
      && (forall j :: 0 <= j < i ==> s.previous(s.phases.value[j]) != Some(fork))
      && (found.Failure? <==> s.epochOf(s.phases.value[i]) <= epoch)
      && (found.Success? ==> found.value == Some((s.phases.value[i], s.epochOf(s.phases.value[i]))))
  {
    FirstIsFirst(if s.phases.Some? then s.phases.value else [], s.previous, fork);
    match s.Next(fork)
    case None => Success(None)
    case Some(next) =>
      if s.epochOf(next) > epoch then Success(Some((next, s.epochOf(next)))) else Failure("fork already due")
  }

  // ---------------------------------------------------------------- epochs

  lemma EpochBounds(s: Schedule, slot: nat, fork: Fork)
    ensures s.epochOf(fork) > s.EpochAt(slot) <==> s.ForkSlot(fork) > slot
  {
    var n, e, q := s.slotsPerEpoch, s.epochOf(fork), slot / s.slotsPerEpoch;
    assert slot == n * q + slot % n;
    if e > q {
      MultiplyUp(n, q + 1, e);
      assert n * (q + 1) == n * q + n;
    } else {
      MultiplyUp(n, e, q);
    }
    assert e * n == n * e;
  }

  lemma MultiplyUp(n: nat, a: nat, b: nat)
    requires a <= b
    ensures n * a <= n * b
  {
    assert n * b == n * a + n * (b - a);
    assert n * (b - a) >= 0;
  }

  // ---------------------------------------------------------------- the reference run

  /** What happens to a state, and under which fork. */
  datatype Event = Slot(fork: Fork, slot: nat) | Upgrade(fork: Fork, slot: nat) | Produce(fork: Fork, slot: nat)

  datatype Run = Run(fork: Fork, events: seq<Event>)

  /** One slot is processed under the current fork, and an upgrade follows if the next fork starts
      there. */
  function OneSlot(s: Schedule, fork: Fork, slot: nat): Run {
    var processed := [Slot(fork, slot + 1)];
    match s.Next(fork)
    case None => Run(fork, processed)
    case Some(next) =>
      if s.ForkSlot(next) == slot + 1 then Run(next, processed + [Upgrade(next, slot + 1)]) else Run(fork, processed)
  }

  /** All slots after `slot`, up to and including `toSlot`. */
  function SlotBySlot(s: Schedule, fork: Fork, slot: nat, toSlot: nat): Run
    decreases toSlot - slot
  {
    if slot >= toSlot then Run(fork, [])
    else
      var one := OneSlot(s, fork, slot);
      var rest := SlotBySlot(s, one.fork, slot + 1, toSlot);
      Run(rest.fork, one.events + rest.events)
  }

  /** Stopping half way and going on makes no difference. */
  lemma {:induction false} SlotBySlotComposes(s: Schedule, fork: Fork, a: nat, b: nat, c: nat)
    requires a <= b <= c
    ensures
      var first := SlotBySlot(s, fork, a, b);
      var second := SlotBySlot(s, first.fork, b, c);
      SlotBySlot(s, fork, a, c) == Run(second.fork, first.events + second.events)
    decreases b - a
  {
    if a < b {
      var one := OneSlot(s, fork, a);
      SlotBySlotComposes(s, one.fork, a + 1, b, c);
      var first := SlotBySlot(s, one.fork, a + 1, b);
      var second := SlotBySlot(s, first.fork, b, c);
      assert one.events + (first.events + second.events) == (one.events + first.events) + second.events;
    } else {
      assert [] + SlotBySlot(s, fork, b, c).events == SlotBySlot(s, fork, b, c).events;
    }
  }

  /** What may happen next to a state of a fork at a slot: the next slot is processed under that fork, or
      the fork whose predecessor it is is upgraded to, at the first slot of its epoch. */
  ghost predicate Follows(s: Schedule, fork: Fork, slot: nat, e: Event) {
    match e
    case Slot(f, t) => f == fork && t == slot + 1
    case Upgrade(g, t) =>
      && s.phases.Some? && g in s.phases.value && s.previous(g) == Some(fork)
      && t == slot && t == s.epochOf(g) * s.slotsPerEpoch
    case Produce(_, _) => false
  }

  /** Every event of a run follows from the one before it. */
  lemma {:induction false} RunIsChained(s: Schedule, fork: Fork, slot: nat, toSlot: nat, i: nat)
    requires i < |SlotBySlot(s, fork, slot, toSlot).events|
    ensures
      var events := SlotBySlot(s, fork, slot, toSlot).events;
      Follows(s, if i == 0 then fork else events[i - 1].fork, if i == 0 then slot else events[i - 1].slot, events[i])
    decreases toSlot - slot
  {
    var one := OneSlot(s, fork, slot);
    var n := |one.events|;
    NextIsListed(s, fork);
    assert one.events[n - 1].fork == one.fork && one.events[n - 1].slot == slot + 1;
    if i >= n {
      RunIsChained(s, one.fork, slot + 1, toSlot, i - n);
    }
  }

  /** A run ends under its fork, at its last slot. */
  lemma {:induction false} RunEnds(s: Schedule, fork: Fork, slot: nat, toSlot: nat)
    requires slot < toSlot
    ensures
      var run := SlotBySlot(s, fork, slot, toSlot);
      run.events != [] && run.events[|run.events| - 1].fork == run.fork && run.events[|run.events| - 1].slot == toSlot
    decreases toSlot - slot
  {
    var one := OneSlot(s, fork, slot);
    if slot + 1 < toSlot {
      RunEnds(s, one.fork, slot + 1, toSlot);
    } else {
      assert SlotBySlot(s, one.fork, toSlot, toSlot).events == [];
      assert one.events + [] == one.events;
    }
  }

  /** Slots processed under one fork. */
  function Steps(fork: Fork, slot: nat, toSlot: nat): seq<Event>
    decreases toSlot - slot
  {
    if slot >= toSlot then [] else [Slot(fork, slot + 1)] + Steps(fork, slot + 1, toSlot)
  }

  lemma {:induction false} StepsSnoc(fork: Fork, slot: nat, toSlot: nat)
    requires slot <= toSlot
    ensures Steps(fork, slot, toSlot + 1) == Steps(fork, slot, toSlot) + [Slot(fork, toSlot + 1)]
    decreases toSlot - slot
  {
    if slot < toSlot {
      StepsSnoc(fork, slot + 1, toSlot);
    } else {
      assert Steps(fork, toSlot + 1, toSlot + 1) == [];
    }
  }

  /** Where no fork starts, a run only processes slots. */
  lemma {:induction false} QuietRun(s: Schedule, fork: Fork, slot: nat, toSlot: nat)
    requires s.Next(fork).Some? ==> s.ForkSlot(s.Next(fork).value) > toSlot
    ensures SlotBySlot(s, fork, slot, toSlot) == Run(fork, Steps(fork, slot, toSlot))
    decreases toSlot - slot
  {
    if slot < toSlot {
      QuietRun(s, fork, slot + 1, toSlot);
    }
  }

  /** Up to the start of the next fork: slots, and then the upgrade. */
  lemma RunToFork(s: Schedule, fork: Fork, slot: nat)
    requires s.Next(fork).Some? && s.ForkSlot(s.Next(fork).value) > slot
    ensures
      var next := s.Next(fork).value;
      SlotBySlot(s, fork, slot, s.ForkSlot(next))
        == Run(next, Steps(fork, slot, s.ForkSlot(next)) + [Upgrade(next, s.ForkSlot(next))])
  {
    var next := s.Next(fork).value;
    var t := s.ForkSlot(next);
    SlotBySlotComposes(s, fork, slot, t - 1, t);
    QuietRun(s, fork, slot, t - 1);
    StepsSnoc(fork, slot, t - 1);
    assert SlotBySlot(s, next, t, t) == Run(next, []);
    assert SlotBySlot(s, fork, t - 1, t) == Run(next, [Slot(fork, t), Upgrade(next, t)] + []);
    assert Steps(fork, slot, t - 1) + [Slot(fork, t), Upgrade(next, t)]
      == Steps(fork, slot, t - 1) + [Slot(fork, t)] + [Upgrade(next, t)];
  }

  // ---------------------------------------------------------------- due forks

  /** The forks that start after `slot`, and no later than `toSlot`, in their order. */
  function Due(s: Schedule, fork: Fork, slot: nat, toSlot: nat): seq<Fork>
    decreases if slot < toSlot then toSlot - slot else 0
  {
    match s.Next(fork)
    case None => []
    case Some(next) =>
      EpochBounds(s, slot, next);
      if slot < s.ForkSlot(next) <= toSlot then [next] + Due(s, next, s.ForkSlot(next), toSlot) else []
  }

  /** Every fork met on the way starts after the one before it and, if it is due, can be upgraded to. */
  ghost predicate WellTimed(s: Schedule, fork: Fork, slot: nat, toSlot: nat)
    decreases if slot < toSlot then toSlot - slot else 0
  {
    slot >= toSlot || match s.Next(fork)
      case None => true
      case Some(next) =>
        && slot < s.ForkSlot(next)
        && (s.ForkSlot(next) <= toSlot ==> next in s.upgradable && WellTimed(s, next, s.ForkSlot(next), toSlot))
  }

  /** A linear schedule of strictly increasing fork epochs, all with an upgrade function. */
  ghost predicate Increasing(s: Schedule) {
    forall f :: s.Next(f).Some? ==>
      && s.Next(f).value in s.upgradable
      && (s.Next(s.Next(f).value).Some? ==> s.epochOf(s.Next(f).value) < s.epochOf(s.Next(s.Next(f).value).value))
  }

  /** No fork through the current epoch is still to come. */
  ghost predicate Current(s: Schedule, fork: Fork, slot: nat) {
    s.Next(fork).Some? ==> s.epochOf(s.Next(fork).value) > s.EpochAt(slot)
  }

  lemma {:induction false} IncreasingIsWellTimed(s: Schedule, fork: Fork, slot: nat, toSlot: nat)
    requires Increasing(s) && Current(s, fork, slot)
    ensures WellTimed(s, fork, slot, toSlot)
    decreases if slot < toSlot then toSlot - slot else 0
  {
    if slot < toSlot && s.Next(fork).Some? {
      var next := s.Next(fork).value;
      EpochBounds(s, slot, next);
      if s.ForkSlot(next) <= toSlot {
        NextIsCurrent(s, fork);
        IncreasingIsWellTimed(s, next, s.ForkSlot(next), toSlot);
      }
    }
  }

  lemma NextIsCurrent(s: Schedule, fork: Fork)
    requires Increasing(s) && s.Next(fork).Some?
    ensures Current(s, s.Next(fork).value, s.ForkSlot(s.Next(fork).value))
  {
    var next := s.Next(fork).value;
    if s.Next(next).Some? {
      var after := s.Next(next).value;
      var n := s.slotsPerEpoch;
      MultiplyUp(n, s.epochOf(next) + 1, s.epochOf(after));
      assert n * (s.epochOf(next) + 1) == n * s.epochOf(next) + n;
      assert n * s.epochOf(next) == s.ForkSlot(next) && n * s.epochOf(after) == s.ForkSlot(after);
      EpochBounds(s, s.ForkSlot(next), after);
    }
  }

  // ---------------------------------------------------------------- upgrades of a run

  function Upgrades(events: seq<Event>): seq<Event> {
    if events == [] then []
    else if events[0].Upgrade? then [events[0]] + Upgrades(events[1..])
    else Upgrades(events[1..])
  }

  lemma {:induction false} UpgradesConcat(a: seq<Event>, b: seq<Event>)
    ensures Upgrades(a + b) == Upgrades(a) + Upgrades(b)
  {
    if a == [] {
      assert a + b == b;
    } else {
      UpgradesConcat(a[1..], b);
      assert (a + b)[1..] == a[1..] + b;
    }
  }

  lemma {:induction false} NoUpgradesInSteps(fork: Fork, slot: nat, toSlot: nat)
    ensures Upgrades(Steps(fork, slot, toSlot)) == []
    decreases toSlot - slot
  {
    if slot < toSlot {
      NoUpgradesInSteps(fork, slot + 1, toSlot);
      assert Steps(fork, slot, toSlot)[1..] == Steps(fork, slot + 1, toSlot);
    }
  }

  function UpgradesTo(s: Schedule, forks: seq<Fork>): seq<Event> {
    seq(|forks|, (i: nat) requires i < |forks| => Upgrade(forks[i], s.ForkSlot(forks[i])))
  }

  /** A run applies the upgrade to each due fork exactly once, in order, at the first slot of the
      fork's epoch, and ends under the last of them. */
  lemma {:induction false} RunUpgrades(s: Schedule, fork: Fork, slot: nat, toSlot: nat)
    requires WellTimed(s, fork, slot, toSlot) && slot <= toSlot
    ensures
      var due := Due(s, fork, slot, toSlot);
      && Upgrades(SlotBySlot(s, fork, slot, toSlot).events) == UpgradesTo(s, due)
      && SlotBySlot(s, fork, slot, toSlot).fork == if due == [] then fork else due[|due| - 1]
    decreases toSlot - slot
  {
    if s.Next(fork).Some? && slot < s.ForkSlot(s.Next(fork).value) <= toSlot {
      var next := s.Next(fork).value;
      var t := s.ForkSlot(next);
      var rest := SlotBySlot(s, next, t, toSlot).events;
      SlotBySlotComposes(s, fork, slot, t, toSlot);
      RunToFork(s, fork, slot);
      RunUpgrades(s, next, t, toSlot);
      NoUpgradesInSteps(fork, slot, t);
      UpgradesConcat(Steps(fork, slot, t), [Upgrade(next, t)]);
      UpgradesConcat(Steps(fork, slot, t) + [Upgrade(next, t)], rest);
      SingleUpgrade(Upgrade(next, t));
      var due := Due(s, next, t, toSlot);
      assert Due(s, fork, slot, toSlot) == [next] + due;
      UpgradesToFirst(s, next, due);
      hide Due, SlotBySlot, Upgrades, UpgradesTo, Steps, WellTimed;
    } else if slot < toSlot {
      QuietRun(s, fork, slot, toSlot);
      NoUpgradesInSteps(fork, slot, toSlot);
    } else {
      assert SlotBySlot(s, fork, slot, toSlot) == Run(fork, []);
    }
  }

  lemma UpgradesToFirst(s: Schedule, next: Fork, due: seq<Fork>)
    ensures UpgradesTo(s, [next] + due) == [Upgrade(next, s.ForkSlot(next))] + UpgradesTo(s, due)
  {
  }

  lemma SingleUpgrade(e: Event)
    requires e.Upgrade?
    ensures Upgrades([e]) == [e]
  {
    assert [e][1..] == [];
  }

  /** The due forks follow each other in the schedule, start at strictly increasing epochs, no later
      than the last one, and the fork after them starts later. */
  lemma {:induction false} DueIsChain(s: Schedule, fork: Fork, slot: nat, toSlot: nat)
    requires Increasing(s) && Current(s, fork, slot) && slot <= toSlot
    ensures
      var due := Due(s, fork, slot, toSlot);
      && (forall i :: 0 <= i < |due| ==> s.Next(if i == 0 then fork else due[i - 1]) == Some(due[i]))
      && (forall i :: 0 <= i < |due| ==> s.EpochAt(slot) < s.epochOf(due[i]) <= s.EpochAt(toSlot))
      && (forall i, j :: 0 <= i < j < |due| ==> s.epochOf(due[i]) < s.epochOf(due[j]))
      && Current(s, if due == [] then fork else due[|due| - 1], toSlot)
    decreases toSlot - slot
  {
    if s.Next(fork).Some? {
      var next := s.Next(fork).value;
      EpochBounds(s, slot, next);
      EpochBounds(s, toSlot, next);
      if s.ForkSlot(next) <= toSlot {
        NextIsCurrent(s, fork);
        DueIsChain(s, next, s.ForkSlot(next), toSlot);
        EpochOfForkSlot(s, next);
      }
    }
  }

  lemma EpochOfForkSlot(s: Schedule, fork: Fork)
    ensures s.EpochAt(s.ForkSlot(fork)) == s.epochOf(fork)
  {
    DivisionUnique(s.ForkSlot(fork), s.epochOf(fork), 0, s.slotsPerEpoch);
  }
}
