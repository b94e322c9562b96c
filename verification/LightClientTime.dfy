/** Slots, epochs and sync committee periods. */
module LightClientTime {
  import opened Numbers
  import opened ModularArithmetic
  import opened LightClientModel

  /** A quotient is below a bound exactly when the dividend is below its multiple. */
  lemma DivisionBelow(a: nat, k: nat, d: pos)
    ensures a / d < k <==> a < k * d
  {
    var q := a / d;
    assert d * q <= a < d * q + d;
    if q < k {
      assert d * (q + 1) <= d * k;
    } else {
      assert d * k <= d * q;
    }
  }

  lemma DivisionMonotone(a: nat, b: nat, d: pos)
    requires a <= b
    ensures a / d <= b / d
  {
    DivisionBelow(a, b / d + 1, d);
    DivisionBelow(b, b / d + 1, d);
  }

  lemma PeriodMonotone(spec: Spec, a: nat, b: nat)
    requires a <= b
    ensures spec.PeriodAt(a) <= spec.PeriodAt(b)
  {
    DivisionMonotone(a, b, spec.slotsPerEpoch);
    DivisionMonotone(spec.EpochAt(a), spec.EpochAt(b), spec.epochsPerPeriod);
  }

  /** A slot lies before the start of a period exactly when its period does. */
  lemma BeforePeriodStart(spec: Spec, slot: nat, period: nat)
    ensures slot < spec.PeriodStart(period) <==> spec.PeriodAt(slot) < period
  {
    DivisionBelow(slot, period * spec.epochsPerPeriod, spec.slotsPerEpoch);
    DivisionBelow(spec.EpochAt(slot), period, spec.epochsPerPeriod);
  }

  /** The end slot of a period bounds exactly the slots of that period and earlier. */
  lemma PeriodEnd(spec: Spec, slot: nat, period: nat)
    ensures spec.PeriodStart(period + 1) > 0
    ensures slot <= spec.PeriodStart(period + 1) - 1 <==> spec.PeriodAt(slot) <= period
  {
    BeforePeriodStart(spec, slot, period + 1);
    BeforePeriodStart(spec, 0, period + 1);
    assert 0 / spec.slotsPerEpoch == 0;
    assert 0 / spec.epochsPerPeriod == 0;
  }

  /** The last slot of a period. */
  function EndSlot(spec: Spec, period: nat): nat {
    PeriodEnd(spec, 0, period);
    spec.PeriodStart(period + 1) - 1
  }

  /** A window ends at its epoch's start slot. */
  lemma WindowEnd(spec: Spec, slot: nat, epoch: nat)
    ensures slot <= spec.EpochStart(epoch) <==> spec.Window(slot) <= epoch
  {
    DivisionBelow(slot + spec.slotsPerEpoch - 1, epoch + 1, spec.slotsPerEpoch);
    assert (epoch + 1) * spec.slotsPerEpoch == epoch * spec.slotsPerEpoch + spec.slotsPerEpoch;
  }

  /** Epochs and periods are stretches of slots; the boundary at or after a slot starts an epoch, less than an
      epoch later; and two slots share a window exactly when they share that boundary. */
  lemma TimesAreStretches(spec: Spec, slot: nat, other: nat)
    ensures
      var n, k := spec.slotsPerEpoch, spec.epochsPerPeriod;
      && spec.EpochAt(slot) * n <= slot < (spec.EpochAt(slot) + 1) * n
      && spec.PeriodAt(slot) * k * n <= slot < (spec.PeriodAt(slot) + 1) * k * n
      && spec.NextEpochBoundarySlot(slot) % n == 0
      && slot <= spec.NextEpochBoundarySlot(slot) < slot + n
      && (spec.Window(slot) == spec.Window(other) <==>
           spec.NextEpochBoundarySlot(slot) == spec.NextEpochBoundarySlot(other))
  {
    var n, w := spec.slotsPerEpoch, spec.Window(slot);
    WindowEnd(spec, slot, w);
    WindowEnd(spec, other, spec.Window(other));
    BeforePeriodStart(spec, slot, spec.PeriodAt(slot));
    BeforePeriodStart(spec, slot, spec.PeriodAt(slot) + 1);
    DivisionBelow(slot, spec.EpochAt(slot), n);
    DivisionBelow(slot, spec.EpochAt(slot) + 1, n);
    MultipleIsWhole(w, n);
    if w > 0 {
      WindowEnd(spec, slot, w - 1);
      assert (w - 1) * n == w * n - n;
    }
    SameMultiple(w, spec.Window(other), n);
  }

  lemma MultipleIsWhole(a: nat, n: pos)
    ensures (a * n) % n == 0
  {
    DivisionUnique(a * n, a, 0, n);
  }

  lemma SameMultiple(a: nat, b: nat, n: pos)
    ensures a * n == b * n <==> a == b
  {
    if a < b {
      assert b * n == a * n + (b - a) * n;
    } else if b < a {
      assert a * n == b * n + (a - b) * n;
    }
  }

  lemma WindowMonotone(spec: Spec, a: nat, b: nat)
    requires a <= b
    ensures spec.Window(a) <= spec.Window(b)
  {
    DivisionMonotone(a + spec.slotsPerEpoch - 1, b + spec.slotsPerEpoch - 1, spec.slotsPerEpoch);
  }

  /** `slot` is the first slot of an epoch. */
  ghost predicate IsEpochStart(spec: Spec, slot: nat) {
    spec.EpochStart(spec.Window(slot)) == slot
  }

  lemma EpochStartIsBoundary(spec: Spec, epoch: nat)
    ensures IsEpochStart(spec, spec.EpochStart(epoch))
  {
    var s := spec.EpochStart(epoch);
    WindowEnd(spec, s, epoch);
    if epoch > 0 {
      WindowEnd(spec, s, epoch - 1);
      assert epoch * spec.slotsPerEpoch == (epoch - 1) * spec.slotsPerEpoch + spec.slotsPerEpoch;
    }
  }

  lemma PostAltairAfterStart(spec: Spec, slot: nat)
    requires slot >= spec.EpochStart(spec.altairForkEpoch)
    ensures spec.IsPostAltair(slot)
  {
    DivisionBelow(slot, spec.altairForkEpoch, spec.slotsPerEpoch);
  }
}
