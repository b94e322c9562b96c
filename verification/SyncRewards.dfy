/** Sync committee rewards: what the nested floors give away, and how rewards and penalties add up over
    the validators. */
module SyncRewards {
  import opened Numbers
  import opened ModularArithmetic

  const SYNC_REWARD_WEIGHT: nat := 2
  const PROPOSER_WEIGHT: nat := 8
  const WEIGHT_DENOMINATOR: nat := 64

  /** Preset sizes and the balances that rewards depend on. */
  datatype Economy = Economy(
    slotsPerEpoch: pos, committeeSize: pos, increment: pos, totalActiveBalance: nat, rewardPerIncrement: nat)
  {
    function TotalBaseRewards(): nat {
      rewardPerIncrement * (totalActiveBalance / increment)
    }

    /** `compute_sync_committee_inclusion_reward`. */
    function InclusionReward(): nat {
      TotalBaseRewards() * SYNC_REWARD_WEIGHT / WEIGHT_DENOMINATOR / slotsPerEpoch / committeeSize
    }

    /** The proposer's part for one set bit. */
    function ProposerShare(): nat {
      InclusionReward() * PROPOSER_WEIGHT / (WEIGHT_DENOMINATOR - PROPOSER_WEIGHT)
    }
  }

  // ---------------------------------------------------------------- floors

  /** Flooring twice is flooring once by the product. */
  lemma NestedFloor(a: nat, b: pos, c: pos)
    ensures b * c > 0 && a / b / c == a / (b * c)
  {
    var q, r := a / b / c, a / b % c;
    var s := a % b;
    assert a == b * (c * q + r) + s by {
      assert a == b * (a / b) + s && a / b == c * q + r;
    }
    assert b * (c * q + r) == (b * c) * q + b * r by {
      assert b * (c * q) == (b * c) * q;
    }
    RemainderFits(b, c, r, s);
    DivisionUnique(a, q, b * r + s, b * c);
  }

  lemma RemainderFits(b: pos, c: pos, r: nat, s: nat)
    requires r < c && s < b
    ensures 0 <= b * r + s < b * c
  {
    assert b * c == b * r + b * (c - r);
    assert b * (c - r) >= b by {
      MultipleIsBig(b, c - r);
    }
    assert b * r >= 0;
  }

  /** The inclusion reward is one floor of the whole fraction: of the reward per increment, times the whole
      increments of the active balance, it never gives away more than the sync weight allows, and less than
      one unit per committee seat and slot is lost. */
  lemma InclusionRewardIsOneFloor(e: Economy)
    ensures
      var base := e.rewardPerIncrement * (e.totalActiveBalance / e.increment);
      var seats := 64 * (e.slotsPerEpoch * e.committeeSize);
      seats > 0 && e.InclusionReward() == 2 * base / seats
    ensures
      var seats := WEIGHT_DENOMINATOR * (e.slotsPerEpoch * e.committeeSize);
      && seats > 0
      && e.InclusionReward() == e.TotalBaseRewards() * SYNC_REWARD_WEIGHT / seats
      && seats * e.InclusionReward() <= e.TotalBaseRewards() * SYNC_REWARD_WEIGHT < seats * (e.InclusionReward() + 1)
  {
    var a := e.TotalBaseRewards() * SYNC_REWARD_WEIGHT;
    var n, m := e.slotsPerEpoch, e.committeeSize;
    NestedFloor(a / WEIGHT_DENOMINATOR, n, m);
    NestedFloor(a, WEIGHT_DENOMINATOR, n * m);
    FloorBounds(a, WEIGHT_DENOMINATOR * (n * m));
  }

  lemma FloorBounds(a: nat, p: pos)
    ensures p * (a / p) <= a < p * (a / p + 1)
  {
    assert a == p * (a / p) + a % p;
    assert p * (a / p + 1) == p * (a / p) + p;
  }

  /** The proposer's part for one set bit is an eighth for seven eighths, rounded down. */
  lemma ProposerShareIsOneSeventh(e: Economy)
    ensures e.ProposerShare() == e.InclusionReward() / 7
    ensures 7 * e.ProposerShare() <= e.InclusionReward() < 7 * (e.ProposerShare() + 1)
  {
    var r := e.InclusionReward();
    FloorBounds(r, 7);
    DivisionUnique(r * 8, r / 7, 8 * (r % 7), 56);
  }

  // ---------------------------------------------------------------- who gets what

  /** The committee members whose bit has the given value, in order; the shorter list decides. */
  function WithBit(committee: seq<nat>, bits: seq<bool>, bit: bool): seq<nat> {
    if committee == [] || bits == [] then []
    else if bits[0] == bit then [committee[0]] + WithBit(committee[1..], bits[1..], bit)
    else WithBit(committee[1..], bits[1..], bit)
  }

  function Count(s: seq<nat>, x: nat): nat {
    if s == [] then 0 else (if s[0] == x then 1 else 0) + Count(s[1..], x)
  }

  function SetBits(bits: seq<bool>): nat {
    if bits == [] then 0 else (if bits[0] then 1 else 0) + SetBits(bits[1..])
  }

  /** `compute_sync_committee_participant_reward_and_penalty`. */
  function ParticipantReward(e: Economy, index: nat, committee: seq<nat>, bits: seq<bool>): nat {
    e.InclusionReward() * Count(WithBit(committee, bits, true), index)
  }

  function ParticipantPenalty(e: Economy, index: nat, committee: seq<nat>, bits: seq<bool>): nat {
    e.InclusionReward() * Count(WithBit(committee, bits, false), index)
  }

  /** `compute_sync_committee_proposer_reward`. */
  function ProposerReward(e: Economy, bits: seq<bool>): nat {
    e.ProposerShare() * SetBits(bits)
  }

  function Counts(s: seq<nat>, factor: nat): nat -> int {
    (x: nat) => factor * Count(s, x)
  }

  /** Each member of a list is counted for exactly one validator. */
  lemma {:induction false} CountsSum(s: seq<nat>, factor: nat, validators: nat)
    requires forall i :: 0 <= i < |s| ==> s[i] < validators
    ensures Sum(Counts(s, factor), validators) == factor * |s|
  {
    if s == [] {
      SumOfZeros(Counts(s, factor), validators);
    } else {
      var one := Single(s[0], factor);
      CountsSum(s[1..], factor, validators);
      forall x: nat | 0 <= x < validators ensures Counts(s, factor)(x) == one(x) + Counts(s[1..], factor)(x) {
        CountStep(s, factor, x);
      }
      SumPlus(one, Counts(s[1..], factor), Counts(s, factor), validators);
      SingleSum(s[0], factor, validators);
    }
  }

  function Single(x: nat, factor: nat): nat -> int {
    (y: nat) => if y == x then factor else 0
  }

  lemma CountStep(s: seq<nat>, factor: nat, x: nat)
    requires s != []
    ensures factor * Count(s, x) == (if x == s[0] then factor else 0) + factor * Count(s[1..], x)
  {
  }

  lemma {:induction false} SingleSum(x: nat, factor: nat, n: nat)
    ensures Sum(Single(x, factor), n) == if x < n then factor else 0
  {
    if n > 0 {
      SingleSum(x, factor, n - 1);
    }
  }

  lemma {:induction false} BitsSplit(committee: seq<nat>, bits: seq<bool>)
    requires |committee| == |bits|
    ensures |WithBit(committee, bits, true)| == SetBits(bits)
    ensures |WithBit(committee, bits, false)| == |bits| - SetBits(bits)
  {
    if bits != [] {
      BitsSplit(committee[1..], bits[1..]);
    }
  }

  lemma {:induction false} WithBitWithin(committee: seq<nat>, bits: seq<bool>, bit: bool, validators: nat)
    requires forall i :: 0 <= i < |committee| ==> committee[i] < validators
    ensures forall i :: 0 <= i < |WithBit(committee, bits, bit)| ==> WithBit(committee, bits, bit)[i] < validators
  {
    if committee != [] && bits != [] {
      WithBitWithin(committee[1..], bits[1..], bit, validators);
    }
  }

  lemma {:induction false} WithBitSnoc(committee: seq<nat>, bits: seq<bool>, bit: bool, x: nat, b: bool)
    requires |committee| == |bits|
    ensures WithBit(committee + [x], bits + [b], bit) == WithBit(committee, bits, bit) + if b == bit then [x] else []
  {
    if bits == [] {
      assert committee + [x] == [x] && bits + [b] == [b];
    } else {
      WithBitSnoc(committee[1..], bits[1..], bit, x, b);
      assert (committee + [x])[1..] == committee[1..] + [x] && (bits + [b])[1..] == bits[1..] + [b];
    }
  }

  lemma {:induction false} CountSnoc(s: seq<nat>, y: nat, x: nat)
    ensures Count(s + [y], x) == Count(s, x) + if y == x then 1 else 0
  {
    if s != [] {
      CountSnoc(s[1..], y, x);
      assert (s + [y])[1..] == s[1..] + [y];
    }
  }

  ghost function Seats(committee: seq<nat>, bits: seq<bool>, bit: bool, x: nat): set<nat>
    requires |committee| == |bits|
  {
    set i | 0 <= i < |committee| && committee[i] == x && bits[i] == bit
  }

  lemma LastSeat(committee: seq<nat>, bits: seq<bool>, c: nat, b: bool, bit: bool, x: nat)
    requires |committee| == |bits|
    ensures |Seats(committee + [c], bits + [b], bit, x)|
      == |Seats(committee, bits, bit, x)| + if c == x && b == bit then 1 else 0
  {
    var seats := Seats(committee, bits, bit, x);
    assert Seats(committee + [c], bits + [b], bit, x) == if c == x && b == bit then seats + {|bits|} else seats;
  }

  lemma LastCounted(committee: seq<nat>, bits: seq<bool>, c: nat, b: bool, bit: bool, x: nat)
    requires |committee| == |bits|
    ensures Count(WithBit(committee + [c], bits + [b], bit), x)
      == Count(WithBit(committee, bits, bit), x) + if c == x && b == bit then 1 else 0
  {
    hide WithBit, Count;
    WithBitSnoc(committee, bits, bit, c, b);
    CountSnoc(WithBit(committee, bits, bit), c, x);
    assert WithBit(committee, bits, bit) + [] == WithBit(committee, bits, bit);
  }

  /** A validator is counted once for every seat that it holds and whose bit has the given value. */
  lemma {:induction false} CountsSeats(committee: seq<nat>, bits: seq<bool>, bit: bool, x: nat)
    requires |committee| == |bits|
    ensures Count(WithBit(committee, bits, bit), x) == |Seats(committee, bits, bit, x)|
    decreases |bits|
  {
    if bits == [] {
      assert Seats(committee, bits, bit, x) == {};
    } else {
      hide Seats, WithBit, Count;
      var n := |bits| - 1;
      assert committee == committee[..n] + [committee[n]] && bits == bits[..n] + [bits[n]];
      CountsSeats(committee[..n], bits[..n], bit, x);
      LastSeat(committee[..n], bits[..n], committee[n], bits[n], bit, x);
      LastCounted(committee[..n], bits[..n], committee[n], bits[n], bit, x);
    }
  }

  /** What a validator gets and loses: one inclusion reward for each of its seats with the bit set, and for
      each of the others. */
  lemma RewardPerSeat(e: Economy, index: nat, committee: seq<nat>, bits: seq<bool>)
    requires |committee| == |bits|
    ensures ParticipantReward(e, index, committee, bits)
      == e.InclusionReward() * |set i | 0 <= i < |committee| && committee[i] == index && bits[i]|
    ensures ParticipantPenalty(e, index, committee, bits)
      == e.InclusionReward() * |set i | 0 <= i < |committee| && committee[i] == index && !bits[i]|
  {
    CountsSeats(committee, bits, true, index);
    CountsSeats(committee, bits, false, index);
    assert Seats(committee, bits, true, index)
      == set i | 0 <= i < |committee| && committee[i] == index && bits[i];
    assert Seats(committee, bits, false, index)
      == set i | 0 <= i < |committee| && committee[i] == index && !bits[i];
  }

  /** The set bits are counted one by one. */
  lemma {:induction false} SetBitsCount(bits: seq<bool>)
    ensures SetBits(bits) == |set i | 0 <= i < |bits| && bits[i]|
    decreases |bits|
  {
    var isSet := set i | 0 <= i < |bits| && bits[i];
    if bits == [] {
      assert isSet == {};
    } else {
      var n := |bits| - 1;
      SetBitsCount(bits[..n]);
      assert bits == bits[..n] + [bits[n]];
      SetBitsSnoc(bits[..n], bits[n]);
      var before := set i | 0 <= i < n && bits[..n][i];
      assert isSet == if bits[n] then before + {n} else before;
    }
  }

  lemma {:induction false} SetBitsSnoc(bits: seq<bool>, b: bool)
    ensures SetBits(bits + [b]) == SetBits(bits) + if b then 1 else 0
  {
    if bits != [] {
      SetBitsSnoc(bits[1..], b);
      assert (bits + [b])[1..] == bits[1..] + [b];
    }
  }

  function Rewards(e: Economy, committee: seq<nat>, bits: seq<bool>): nat -> int {
    (x: nat) => ParticipantReward(e, x, committee, bits)
  }

  function Penalties(e: Economy, committee: seq<nat>, bits: seq<bool>): nat -> int {
    (x: nat) => ParticipantPenalty(e, x, committee, bits)
  }

  /** Over all validators, rewards add up to one inclusion reward per set bit and penalties to one per
      unset bit, however often a validator sits on the committee. */
  lemma RewardsAddUp(e: Economy, committee: seq<nat>, bits: seq<bool>, validators: nat)
    requires |committee| == |bits| && forall i :: 0 <= i < |committee| ==> committee[i] < validators
    ensures Sum(Rewards(e, committee, bits), validators) == e.InclusionReward() * SetBits(bits)
    ensures Sum(Penalties(e, committee, bits), validators) == e.InclusionReward() * (|bits| - SetBits(bits))
  {
    var r := e.InclusionReward();
    BitsSplit(committee, bits);
    WithBitWithin(committee, bits, true, validators);
    WithBitWithin(committee, bits, false, validators);
    CountsSum(WithBit(committee, bits, true), r, validators);
    CountsSum(WithBit(committee, bits, false), r, validators);
    SumEqual(Rewards(e, committee, bits), Counts(WithBit(committee, bits, true), r), validators);
    SumEqual(Penalties(e, committee, bits), Counts(WithBit(committee, bits, false), r), validators);
  }

  // ---------------------------------------------------------------- bounds

  /** All that one slot hands out, to participants and proposer. */
  function SlotTotal(e: Economy, bits: seq<bool>): nat {
    e.InclusionReward() * SetBits(bits) + ProposerReward(e, bits)
  }

  /** The rewards of a slot stay within the proposer's fraction of what the set bits earn, and fall
      short of it by at most one unit per set bit. */
  lemma SlotBound(e: Economy, bits: seq<bool>)
    ensures 56 * SlotTotal(e, bits) <= SetBits(bits) * e.InclusionReward() * 64
      <= 56 * (SlotTotal(e, bits) + SetBits(bits))
  {
    var r, p := e.InclusionReward(), e.ProposerShare();
    FloorBounds(r * PROPOSER_WEIGHT, WEIGHT_DENOMINATOR - PROPOSER_WEIGHT);
    ShareOfBits(r, p, SetBits(bits));
  }

  lemma ShareOfBits(r: nat, p: nat, k: nat)
    requires 56 * p <= 8 * r < 56 * (p + 1)
    ensures 56 * (r * k + p * k) <= k * r * 64 <= 56 * (r * k + p * k + k)
  {
    ScaleUp(56 * p, 8 * r, k);
    ScaleUp(8 * r, 56 * (p + 1), k);
    var rk, pk := r * k, p * k;
    assert (56 * p) * k == 56 * pk && (8 * r) * k == 8 * rk;
    assert (56 * (p + 1)) * k == 56 * (pk + k);
    assert k * r == rk;
  }

  lemma ScaleUp(a: nat, b: nat, k: nat)
    requires a <= b
    ensures a * k <= b * k
  {
    assert b * k == a * k + (b - a) * k;
    assert (b - a) * k >= 0;
  }

  lemma {:induction false} SetBitsAtMost(bits: seq<bool>)
    ensures SetBits(bits) <= |bits|
  {
    if bits != [] {
      SetBitsAtMost(bits[1..]);
    }
  }

  /** The totals of consecutive slots. */
  function Totals(e: Economy, slots: seq<seq<bool>>): nat {
    if slots == [] then 0 else SlotTotal(e, slots[0]) + Totals(e, slots[1..])
  }

  lemma SlotWithinShare(e: Economy, bits: seq<bool>)
    requires |bits| == e.committeeSize
    ensures (WEIGHT_DENOMINATOR - PROPOSER_WEIGHT) * SlotTotal(e, bits)
      <= WEIGHT_DENOMINATOR * (e.committeeSize * e.InclusionReward())
  {
    SlotBound(e, bits);
    SetBitsAtMost(bits);
    ScaleUp(SetBits(bits), e.committeeSize, e.InclusionReward());
  }

  lemma {:induction false} TotalsBound(e: Economy, slots: seq<seq<bool>>)
    requires forall i :: 0 <= i < |slots| ==> |slots[i]| == e.committeeSize
    ensures (WEIGHT_DENOMINATOR - PROPOSER_WEIGHT) * Totals(e, slots)
      <= |slots| * (WEIGHT_DENOMINATOR * (e.committeeSize * e.InclusionReward()))
  {
    if slots != [] {
      TotalsBound(e, slots[1..]);
      SlotWithinShare(e, slots[0]);
      var unit := WEIGHT_DENOMINATOR * (e.committeeSize * e.InclusionReward());
      assert |slots| * unit == unit + (|slots| - 1) * unit;
      assert 56 * (SlotTotal(e, slots[0]) + Totals(e, slots[1..]))
        == 56 * SlotTotal(e, slots[0]) + 56 * Totals(e, slots[1..]);
    }
  }

  /** Over a whole epoch, participants and proposers together never get more than the sync weight out
      of the weights without the proposer's, whatever the participation. */
  lemma EpochBound(e: Economy, slots: seq<seq<bool>>)
    requires |slots| == e.slotsPerEpoch && forall i :: 0 <= i < |slots| ==> |slots[i]| == e.committeeSize
    ensures 56 * Totals(e, slots) <= 2 * (e.rewardPerIncrement * (e.totalActiveBalance / e.increment))
  {
    TotalsBound(e, slots);
    InclusionRewardIsOneFloor(e);
    hide Totals, Sum;
    Regroup(e.slotsPerEpoch, e.committeeSize, e.InclusionReward());
  }

  lemma Regroup(n: nat, m: nat, r: nat)
    ensures n * (WEIGHT_DENOMINATOR * (m * r)) == (WEIGHT_DENOMINATOR * (n * m)) * r
  {
    Associate(n, m, r);
    var nm, mr := n * m, m * r;
    assert n * (64 * mr) == 64 * (n * mr);
    assert 64 * (nm * r) == (64 * nm) * r;
  }
}
