/** How the balances are changed one committee seat at a time, and when that is what the validation of
    a processed state expects. */
module SyncProcessing {
  import opened Wrappers
  import opened ModularArithmetic
  import opened SyncRewards

  // ---------------------------------------------------------------- saturating balances

  /** A run of increases and decreases; a decrease below zero leaves zero. */
  function Applied(balance: nat, deltas: seq<int>): nat
    decreases |deltas|
  {
    if deltas == [] then balance
    else Applied(if balance + deltas[0] < 0 then 0 else balance + deltas[0], deltas[1..])
  }

  function Total(deltas: seq<int>): int {
    if deltas == [] then 0 else deltas[0] + Total(deltas[1..])
  }

  /** The largest total of a proper tail of the run. */
  function BestTail(deltas: seq<int>): int {
    if deltas == [] then 0
    else
      var rest := deltas[1..];
      if Total(rest) < BestTail(rest) then BestTail(rest) else Total(rest)
  }

  /** `0 if balance < penalty else balance - penalty`, on the totals. */
  function Settled(balance: nat, total: int): nat {
    if balance + total < 0 then 0 else balance + total
  }

  /** Where a saturating run ends: at its total, or at its best tail if it ran dry before that. */
  lemma {:induction false} AppliedIsReflected(balance: nat, deltas: seq<int>)
    ensures deltas != [] ==> BestTail(deltas) >= 0
    ensures Applied(balance, deltas)
      == if deltas == [] || balance + Total(deltas) >= BestTail(deltas)
        then balance + Total(deltas) else BestTail(deltas)
    decreases |deltas|
  {
    if deltas != [] {
      var next := if balance + deltas[0] < 0 then 0 else balance + deltas[0];
      AppliedIsReflected(next, deltas[1..]);
    }
  }

  /** Applying the changes one by one ends where applying the totals does, exactly when no tail of them
      gains more than what is left at the end. */
  lemma OneByOneIsAtOnce(balance: nat, deltas: seq<int>)
    ensures Applied(balance, deltas) == Settled(balance, Total(deltas))
      <==> BestTail(deltas) <= Settled(balance, Total(deltas))
  {
    AppliedIsReflected(balance, deltas);
  }

  /** The decreases of a run. */
  function Losses(deltas: seq<int>): nat {
    if deltas == [] then 0 else (if deltas[0] < 0 then -deltas[0] else 0) + Losses(deltas[1..])
  }

  lemma {:induction false} TailWithinLosses(deltas: seq<int>)
    ensures BestTail(deltas) <= Total(deltas) + Losses(deltas) && 0 <= Total(deltas) + Losses(deltas)
  {
    if deltas != [] {
      TailWithinLosses(deltas[1..]);
    }
  }

  /** A balance that covers all decreases is never short. */
  lemma CoveredBalance(balance: nat, deltas: seq<int>)
    requires Losses(deltas) <= balance
    ensures Applied(balance, deltas) == balance + Total(deltas)
  {
    TailWithinLosses(deltas);
    AppliedIsReflected(balance, deltas);
  }

  // ---------------------------------------------------------------- one validator

  /** What the seats do to one validator: the participant's change, then the proposer's. */
  function Deltas(index: nat, committee: seq<nat>, bits: seq<bool>, proposer: nat, reward: nat, share: nat): seq<int> {
    if committee == [] || bits == [] then []
    else
      var own := if committee[0] == index then reward else 0;
      var proposed := if proposer == index then share else 0;
      (if bits[0] then [own, proposed] else [-own]) + Deltas(index, committee[1..], bits[1..], proposer, reward, share)
  }

  lemma {:induction false} TotalConcat(a: seq<int>, b: seq<int>)
    ensures Total(a + b) == Total(a) + Total(b) && Losses(a + b) == Losses(a) + Losses(b)
  {
    if a == [] {
      assert a + b == b;
    } else {
      TotalConcat(a[1..], b);
      assert (a + b)[1..] == a[1..] + b;
    }
  }

  /** The changes of one validator add up to its rewards and its penalty. */
  lemma {:induction false} DeltasAddUp(
    index: nat, committee: seq<nat>, bits: seq<bool>, proposer: nat, reward: nat, share: nat)
    requires |committee| == |bits|
    ensures
      var deltas := Deltas(index, committee, bits, proposer, reward, share);
      && Losses(deltas) == reward * Count(WithBit(committee, bits, false), index)
      && Total(deltas) == reward * Count(WithBit(committee, bits, true), index) - Losses(deltas)
        + if proposer == index then share * SetBits(bits) else 0
  {
    if bits != [] {
      DeltasAddUp(index, committee[1..], bits[1..], proposer, reward, share);
      var own := if committee[0] == index then reward else 0;
      var proposed := if proposer == index then share else 0;
      var rest := Deltas(index, committee[1..], bits[1..], proposer, reward, share);
      FirstTotals(own, proposed);
      if bits[0] {
        TotalConcat([own, proposed], rest);
        CountStep(WithBit(committee, bits, true), reward, index);
        assert WithBit(committee, bits, true)[1..] == WithBit(committee[1..], bits[1..], true);
        assert share * (1 + SetBits(bits[1..])) == share + share * SetBits(bits[1..]);
      } else {
        TotalConcat([-own], rest);
        CountStep(WithBit(committee, bits, false), reward, index);
        assert WithBit(committee, bits, false)[1..] == WithBit(committee[1..], bits[1..], false);
      }
    }
  }

  lemma FirstTotals(own: int, proposed: int)
    requires own >= 0 && proposed >= 0
    ensures Total([own, proposed]) == own + proposed && Losses([own, proposed]) == 0
    ensures Total([-own]) == -own && Losses([-own]) == own
  {
    var two, one, loss: seq<int> := [own, proposed], [proposed], [-own];
    assert two[1..] == one && one[1..] == [] && loss[1..] == [];
    assert Total(one) == proposed && Losses(one) == 0;
    assert Total(two) == own + Total(one) && Losses(two) == Losses(one);
    assert Total(loss) == -own;
  }

  // ---------------------------------------------------------------- all validators

  function DeltasOf(e: Economy, index: nat, committee: seq<nat>, bits: seq<bool>, proposer: nat): seq<int> {
    Deltas(index, committee, bits, proposer, e.InclusionReward(), e.ProposerShare())
  }

  lemma {:induction false} DeltasSnoc(
    index: nat, committee: seq<nat>, bits: seq<bool>, proposer: nat, reward: nat, share: nat, balance: nat,
    k: nat)
    requires k < |committee| && k < |bits|
    ensures
      var now := Applied(balance, Deltas(index, committee[..k], bits[..k], proposer, reward, share));
      Applied(balance, Deltas(index, committee[..k + 1], bits[..k + 1], proposer, reward, share))
        == OneSeat(now, index, committee[k], bits[k], proposer, reward, share)
    decreases k
  {
    var more, fewer := Deltas(index, committee[..k + 1], bits[..k + 1], proposer, reward, share),
      Deltas(index, committee[..k], bits[..k], proposer, reward, share);
    DeltasPrefix(index, committee, bits, proposer, reward, share, k);
    AppliedConcat(balance, fewer, Seat(index, committee[k], bits[k], proposer, reward, share));
    SeatApplied(Applied(balance, fewer), index, committee[k], bits[k], proposer, reward, share);
  }

  /** The changes of one seat to one validator. */
  function Seat(index: nat, member: nat, bit: bool, proposer: nat, reward: nat, share: nat): seq<int> {
    var own := if member == index then reward else 0;
    if bit then [own, if proposer == index then share else 0] else [-own]
  }

  /** `increase_balance` and `decrease_balance`, seen from one validator. */
  function OneSeat(balance: nat, index: nat, member: nat, bit: bool, proposer: nat, reward: nat, share: nat): nat {
    if bit then balance + (if member == index then reward else 0) + (if proposer == index then share else 0)
    else if member == index then (if balance < reward then 0 else balance - reward)
    else balance
  }

  lemma SeatApplied(balance: nat, index: nat, member: nat, bit: bool, proposer: nat, reward: nat, share: nat)
    ensures Applied(balance, Seat(index, member, bit, proposer, reward, share))
      == OneSeat(balance, index, member, bit, proposer, reward, share)
  {
    var seat := Seat(index, member, bit, proposer, reward, share);
    if bit {
      var one := seat[1..];
      assert |one| == 1 && one[1..] == [];
      assert Applied(balance, seat) == Applied(balance + seat[0], one);
      assert Applied(balance + seat[0], one) == Applied(balance + seat[0] + one[0], []);
    } else {
      assert seat[1..] == [];
    }
  }

  lemma OneSeatDeltas(index: nat, member: nat, bit: bool, proposer: nat, reward: nat, share: nat)
    ensures Deltas(index, [member], [bit], proposer, reward, share) == Seat(index, member, bit, proposer, reward, share)
  {
    assert [member][1..] == [] && [bit][1..] == [];
    assert Deltas(index, [], [], proposer, reward, share) == [];
  }

  lemma {:induction false} DeltasPrefix(
    index: nat, committee: seq<nat>, bits: seq<bool>, proposer: nat, reward: nat, share: nat, k: nat)
    requires k < |committee| && k < |bits|
    ensures Deltas(index, committee[..k + 1], bits[..k + 1], proposer, reward, share)
      == Deltas(index, committee[..k], bits[..k], proposer, reward, share)
        + Seat(index, committee[k], bits[k], proposer, reward, share)
    decreases k
  {
    hide Seat;
    var c, b := committee[..k + 1], bits[..k + 1];
    if k == 0 {
      OneSeatDeltas(index, committee[0], bits[0], proposer, reward, share);
      assert c[1..] == [] && b[1..] == [];
      assert c == [committee[0]] && b == [bits[0]];
    } else {
      DeltasPrefix(index, committee[1..], bits[1..], proposer, reward, share, k - 1);
      assert c[1..] == committee[1..][..k] && b[1..] == bits[1..][..k];
      assert committee[..k][1..] == committee[1..][..k - 1] && bits[..k][1..] == bits[1..][..k - 1];
    }
  }

  lemma {:induction false} AppliedConcat(balance: nat, a: seq<int>, b: seq<int>)
    ensures Applied(balance, a + b) == Applied(Applied(balance, a), b)
    decreases |a|
  {
    if a == [] {
      assert a + b == b;
    } else {
      AppliedConcat(if balance + a[0] < 0 then 0 else balance + a[0], a[1..], b);
      assert (a + b)[1..] == a[1..] + b;
    }
  }

  /** The balance changes of `process_sync_aggregate`: each seat pays its member and the proposer, or
      charges its member. */
  method ApplySyncRewards(balances: array<nat>, e: Economy, committee: seq<nat>, bits: seq<bool>, proposer: nat)
    requires |committee| == |bits| && proposer < balances.Length
    requires forall k :: 0 <= k < |committee| ==> committee[k] < balances.Length
    modifies balances
    ensures forall i :: 0 <= i < balances.Length ==>
      balances[i] == Applied(old(balances[i]), DeltasOf(e, i, committee, bits, proposer))
  {
    var reward, share := e.InclusionReward(), e.ProposerShare();
    for k := 0 to |committee|
      invariant forall i :: 0 <= i < balances.Length ==>
        balances[i] == Applied(old(balances[i]), Deltas(i, committee[..k], bits[..k], proposer, reward, share))
    {
      var member := committee[k];
      forall i | 0 <= i < balances.Length
        ensures Applied(old(balances[i]), Deltas(i, committee[..k + 1], bits[..k + 1], proposer, reward, share))
          == OneSeat(balances[i], i, member, bits[k], proposer, reward, share)
      {
        DeltasSnoc(i, committee, bits, proposer, reward, share, old(balances[i]), k);
      }
      if bits[k] {
        balances[member] := balances[member] + reward;
        balances[proposer] := balances[proposer] + share;
      } else {
        balances[member] := if balances[member] < reward then 0 else balances[member] - reward;
      }
    }
    assert committee[..|committee|] == committee && bits[..|bits|] == bits;
  }

  /** The balance that the validation expects of one validator. */
  function Expected(e: Economy, balance: nat, index: nat, committee: seq<nat>, bits: seq<bool>, proposer: nat): nat {
    var proposed := if proposer == index then ProposerReward(e, bits) else 0;
    var reward := ParticipantReward(e, index, committee, bits) + proposed;
    Settled(balance, reward - ParticipantPenalty(e, index, committee, bits))
  }

  /** It is the balance before, with one inclusion reward for each seat of the validator whose bit is set and,
      for the proposer, a seventh of one for each bit set, less one for each seat whose bit is not set; and
      never below zero. */
  lemma ExpectedBySeats(e: Economy, balance: nat, index: nat, committee: seq<nat>, bits: seq<bool>, proposer: nat)
    requires |committee| == |bits|
    ensures
      var r := e.InclusionReward();
      var attended := set i | 0 <= i < |committee| && committee[i] == index && bits[i];
      var missed := set i | 0 <= i < |committee| && committee[i] == index && !bits[i];
      var present := set i | 0 <= i < |bits| && bits[i];
      var richer := balance + r * |attended| + (if proposer == index then (r / 7) * |present| else 0);
      Expected(e, balance, index, committee, bits, proposer)
        == if richer < r * |missed| then 0 else richer - r * |missed|
  {
    RewardPerSeat(e, index, committee, bits);
    SetBitsCount(bits);
    ProposerShareIsOneSeventh(e);
    hide ParticipantReward, ParticipantPenalty, SetBits, Economy.InclusionReward, Economy.ProposerShare;
  }

  lemma {:induction false} NotOnCommittee(index: nat, committee: seq<nat>, bits: seq<bool>, bit: bool)
    requires index !in committee
    ensures Count(WithBit(committee, bits, bit), index) == 0
  {
    if committee != [] && bits != [] {
      NotOnCommittee(index, committee[1..], bits[1..], bit);
    }
  }

  /** Who has no seat has neither reward nor penalty. */
  lemma NoSeat(e: Economy, index: nat, committee: seq<nat>, bits: seq<bool>)
    requires index !in committee
    ensures ParticipantReward(e, index, committee, bits) == 0 && ParticipantPenalty(e, index, committee, bits) == 0
  {
    NotOnCommittee(index, committee, bits, true);
    NotOnCommittee(index, committee, bits, false);
  }

  predicate AsExpected(
    e: Economy, pre: seq<nat>, post: seq<nat>, committee: seq<nat>, bits: seq<bool>, proposer: nat, i: nat)
  {
    i < |pre| && i < |post| && post[i] == Expected(e, pre[i], i, committee, bits, proposer)
  }

  /** `validate_sync_committee_rewards`. */
  method ValidateSyncCommitteeRewards(
    e: Economy, pre: seq<nat>, post: seq<nat>, committee: seq<nat>, bits: seq<bool>, proposer: nat)
    returns (outcome: Result<(), string>)
    ensures outcome.Success? <==> forall i :: 0 <= i < |post| ==> AsExpected(e, pre, post, committee, bits, proposer, i)
  {
    hide ParticipantReward, ParticipantPenalty, ProposerReward;
    for index := 0 to |post|
      invariant forall i :: 0 <= i < index ==> AsExpected(e, pre, post, committee, bits, proposer, i)
    {
      var reward, penalty := 0, 0;
      if index in committee {
        reward := reward + ParticipantReward(e, index, committee, bits);
        penalty := penalty + ParticipantPenalty(e, index, committee, bits);
      } else {
        NoSeat(e, index, committee, bits);
      }
      if proposer == index {
        reward := reward + ProposerReward(e, bits);
      }
      if index >= |pre| {
        assert !AsExpected(e, pre, post, committee, bits, proposer, index);
        return Failure("no such validator before");
      }
      var balance := pre[index] + reward;
      assert Expected(e, pre[index], index, committee, bits, proposer)
        == if balance < penalty then 0 else balance - penalty;
      if post[index] != if balance < penalty then 0 else balance - penalty {
        assert !AsExpected(e, pre, post, committee, bits, proposer, index);
        return Failure("unexpected balance");
      }
    }
    return Success(());
  }

  /** Processing one seat at a time gives the validator the balance that the validation expects,
      exactly when no tail of its changes gains more than it has in the end. */
  lemma ProcessedAsExpected(e: Economy, balance: nat, index: nat, committee: seq<nat>, bits: seq<bool>, proposer: nat)
    requires |committee| == |bits|
    ensures
      var deltas := DeltasOf(e, index, committee, bits, proposer);
      var expected := Expected(e, balance, index, committee, bits, proposer);
      expected == Settled(balance, Total(deltas))
        && (Applied(balance, deltas) == expected <==> BestTail(deltas) <= expected)
  {
    DeltasAddUp(index, committee, bits, proposer, e.InclusionReward(), e.ProposerShare());
    OneByOneIsAtOnce(balance, DeltasOf(e, index, committee, bits, proposer));
  }

  /** A validator whose balance covers its penalty always gets what the validation expects. */
  lemma CoveredPenaltyAsExpected(
    e: Economy, balance: nat, index: nat, committee: seq<nat>, bits: seq<bool>, proposer: nat)
    requires |committee| == |bits| && ParticipantPenalty(e, index, committee, bits) <= balance
    ensures Applied(balance, DeltasOf(e, index, committee, bits, proposer))
      == Expected(e, balance, index, committee, bits, proposer)
      == balance + ParticipantReward(e, index, committee, bits)
        + (if proposer == index then ProposerReward(e, bits) else 0)
        - ParticipantPenalty(e, index, committee, bits)
  {
    DeltasAddUp(index, committee, bits, proposer, e.InclusionReward(), e.ProposerShare());
    CoveredBalance(balance, DeltasOf(e, index, committee, bits, proposer));
  }

  function AllSeats(n: nat): seq<nat> {
    seq(n, _ => 0)
  }

  function AllPresent(n: nat): seq<bool> {
    seq(n, _ => true)
  }

  lemma {:induction false} AllPresentCounts(n: nat)
    ensures Count(WithBit(AllSeats(n), AllPresent(n), true), 0) == n
    ensures Count(WithBit(AllSeats(n), AllPresent(n), false), 0) == 0
  {
    if n > 0 {
      AllPresentCounts(n - 1);
      assert AllSeats(n)[1..] == AllSeats(n - 1) && AllPresent(n)[1..] == AllPresent(n - 1);
      var rest := WithBit(AllSeats(n - 1), AllPresent(n - 1), true);
      assert ([0] + rest)[1..] == rest;
    }
  }

  /** A validator without any balance that holds every seat of a committee, and misses only the first,
      ends with one reward more than the validation expects, whatever the size of the committee. */
  lemma ShortBalanceDiffers(e: Economy, n: nat, proposer: nat)
    requires n >= 2 && proposer != 0
    ensures
      var committee, bits := AllSeats(n), [false] + AllPresent(n - 1);
      && |committee| == |bits| == n
      && Applied(0, DeltasOf(e, 0, committee, bits, proposer)) == e.InclusionReward() * (n - 1)
      && Expected(e, 0, 0, committee, bits, proposer) == e.InclusionReward() * (n - 2)
  {
    hide Deltas, Expected, Applied, Total, BestTail, Losses, Count, WithBit;
    hide Economy.InclusionReward, Economy.ProposerShare;
    var r, p := e.InclusionReward(), e.ProposerShare();
    var committee, bits := AllSeats(n), [false] + AllPresent(n - 1);
    var rest := Deltas(0, AllSeats(n - 1), AllPresent(n - 1), proposer, r, p);
    FirstSeatMissed(n, proposer, r, p);
    AllPresentGain(n - 1, proposer, r, p);
    ProcessedAsExpected(e, 0, 0, committee, bits, proposer);
    MissThenGain(r, rest);
    assert r * (n - 1) == r * (n - 2) + r && r * (n - 2) >= 0;
  }

  lemma FirstSeatMissed(n: nat, proposer: nat, r: nat, p: nat)
    requires n >= 1
    ensures Deltas(0, AllSeats(n), [false] + AllPresent(n - 1), proposer, r, p)
      == Loss(r) + Deltas(0, AllSeats(n - 1), AllPresent(n - 1), proposer, r, p)
  {
    var committee, bits := AllSeats(n), [false] + AllPresent(n - 1);
    assert committee[1..] == AllSeats(n - 1) && bits[1..] == AllPresent(n - 1);
  }

  lemma AllPresentGain(n: nat, proposer: nat, r: nat, p: nat)
    requires proposer != 0
    ensures
      var deltas := Deltas(0, AllSeats(n), AllPresent(n), proposer, r, p);
      Total(deltas) == r * n && Losses(deltas) == 0
  {
    AllPresentCounts(n);
    DeltasAddUp(0, AllSeats(n), AllPresent(n), proposer, r, p);
  }

  function Loss(r: nat): seq<int> {
    [-(r as int)]
  }

  /** A loss from nothing is no loss, but counts in the total. */
  lemma MissThenGain(r: nat, rest: seq<int>)
    requires Losses(rest) == 0
    ensures Applied(0, Loss(r) + rest) == Total(rest) && Total(Loss(r) + rest) == Total(rest) - r
  {
    var deltas := Loss(r) + rest;
    assert deltas[1..] == rest;
    CoveredBalance(0, rest);
  }

  function Balances(s: seq<nat>): nat -> int {
    (i: nat) => if i < |s| then s[i] else 0
  }

  function ProposerOnly(e: Economy, bits: seq<bool>, proposer: nat): nat -> int {
    Single(proposer, ProposerReward(e, bits))
  }

  /** When every validator can pay its penalty, the sum of all balances changes by exactly the rewards
      of the set bits and of the proposer, less the penalties of the unset ones. */
  lemma SupplyChange(e: Economy, pre: seq<nat>, post: seq<nat>, committee: seq<nat>, bits: seq<bool>, proposer: nat)
    requires |committee| == |bits| && |pre| == |post| && proposer < |pre|
    requires forall k :: 0 <= k < |committee| ==> committee[k] < |pre|
    requires forall i: nat :: i < |pre| ==> ParticipantPenalty(e, i, committee, bits) <= pre[i]
    requires forall i: nat :: i < |pre| ==> post[i] == Applied(pre[i], DeltasOf(e, i, committee, bits, proposer))
    ensures Sum(Balances(post), |post|) == Sum(Balances(pre), |pre|)
      + e.InclusionReward() * SetBits(bits) + ProposerReward(e, bits) - e.InclusionReward() * (|bits| - SetBits(bits))
  {
    forall i: nat | i < |pre|
      ensures Paid(e, post, committee, bits)(i) == Balances(pre)(i) + Gains(e, committee, bits, proposer)(i)
    {
      OneBalance(e, pre, post, committee, bits, proposer, i);
    }
    hide *;
    SumsMeet(e, pre, post, committee, bits, proposer);
  }

  lemma OneBalance(
    e: Economy, pre: seq<nat>, post: seq<nat>, committee: seq<nat>, bits: seq<bool>, proposer: nat, i: nat)
    requires |committee| == |bits| && i < |pre| == |post|
    requires ParticipantPenalty(e, i, committee, bits) <= pre[i]
    requires post[i] == Applied(pre[i], DeltasOf(e, i, committee, bits, proposer))
    ensures Paid(e, post, committee, bits)(i) == Balances(pre)(i) + Gains(e, committee, bits, proposer)(i)
  {
    CoveredPenaltyAsExpected(e, pre[i], i, committee, bits, proposer);
    hide Applied, DeltasOf, ParticipantReward, ParticipantPenalty, ProposerReward;
    assert ProposerOnly(e, bits, proposer)(i) == if proposer == i then ProposerReward(e, bits) else 0;
    assert Rewards(e, committee, bits)(i) == ParticipantReward(e, i, committee, bits);
    assert Penalties(e, committee, bits)(i) == ParticipantPenalty(e, i, committee, bits);
  }

  lemma SumsMeet(e: Economy, pre: seq<nat>, post: seq<nat>, committee: seq<nat>, bits: seq<bool>, proposer: nat)
    requires |committee| == |bits| && |pre| == |post| && proposer < |pre|
    requires forall k :: 0 <= k < |committee| ==> committee[k] < |pre|
    requires forall i: nat :: i < |pre| ==>
      Paid(e, post, committee, bits)(i) == Balances(pre)(i) + Gains(e, committee, bits, proposer)(i)
    ensures Sum(Balances(post), |post|) == Sum(Balances(pre), |pre|)
      + e.InclusionReward() * SetBits(bits) + ProposerReward(e, bits) - e.InclusionReward() * (|bits| - SetBits(bits))
  {
    var n := |pre|;
    hide Balances, Rewards, Penalties, ProposerOnly, Sum, SetBits, ProposerReward, Economy.InclusionReward;
    ProposerSum(e, bits, proposer, n);
    RewardsAddUp(e, committee, bits, n);
    SumPlus(Rewards(e, committee, bits), ProposerOnly(e, bits, proposer), Gains(e, committee, bits, proposer), n);
    SumPlus(Balances(post), Penalties(e, committee, bits), Paid(e, post, committee, bits), n);
    hide Gains, Paid;
    SumPlus(Balances(pre), Gains(e, committee, bits, proposer), Paid(e, post, committee, bits), n);
  }

  lemma ProposerSum(e: Economy, bits: seq<bool>, proposer: nat, n: nat)
    requires proposer < n
    ensures Sum(ProposerOnly(e, bits, proposer), n) == ProposerReward(e, bits)
  {
    SingleSum(proposer, ProposerReward(e, bits), n);
  }

  function Gains(e: Economy, committee: seq<nat>, bits: seq<bool>, proposer: nat): nat -> int {
    (i: nat) => Rewards(e, committee, bits)(i) + ProposerOnly(e, bits, proposer)(i)
  }

  function Paid(e: Economy, post: seq<nat>, committee: seq<nat>, bits: seq<bool>): nat -> int {
    (i: nat) => Balances(post)(i) + Penalties(e, committee, bits)(i)
  }
}
