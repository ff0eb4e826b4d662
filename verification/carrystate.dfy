/**
  The two-rail carry encoding of the carry-completion adder and the abstract
  behaviour of one propagation cycle.

  Each position k carries a pair of rails (C0[k], C1[k]): neither set means
  the carry out of k is not yet known, C0 means it is 0, C1 means it is 1.
  Carries travel from index n-1 (least significant) toward index 0, so the
  carry into position k is the carry out of position k+1.
 */
module CarryState {
  import opened BitVector
  import opened Binary

  datatype Carry = Undetermined | Carry0 | Carry1

  /** The carry a rail pair encodes; equal rails read as undetermined. */
  function StateOf(c0: bool, c1: bool): Carry
  {
    if c0 == c1 then Undetermined else if c1 then Carry1 else Carry0
  }

  /** The determined state that stands for a known carry value. */
  function Resolved(c: bool): Carry
  {
    if c then Carry1 else Carry0
  }

  function State(c0: Bits, c1: Bits, k: nat): Carry
    requires k < |c0| && k < |c1|
  {
    StateOf(c0[k], c1[k])
  }

  /** No position ever has both rails set. */
  predicate Exclusive(c0: Bits, c1: Bits)
    requires |c0| == |c1|
  {
    forall k :: 0 <= k < |c0| ==> !(c0[k] && c1[k])
  }

  /** Carry completion: every position has exactly one rail set. */
  predicate AllDetermined(c0: Bits, c1: Bits)
    requires |c0| == |c1|
  {
    forall k :: 0 <= k < |c0| ==> c0[k] != c1[k]
  }

  /** Every determined position holds the true carry out of that position. */
  predicate Sound(a: Bits, b: Bits, c0: Bits, c1: Bits)
    requires |a| == |b| == |c0| == |c1|
  {
    forall k :: 0 <= k < |a| && State(c0, c1, k) != Undetermined ==>
      State(c0, c1, k) == Resolved(CarryFrom(a, b, k))
  }

  /** Only positions whose operand bits differ are still waiting for their carry-in. */
  predicate PendingDiffer(a: Bits, b: Bits, c0: Bits, c1: Bits)
    requires |a| == |b| == |c0| == |c1|
  {
    forall k :: 0 <= k < |a| && State(c0, c1, k) == Undetermined ==> a[k] != b[k]
  }

  /** The carry into position k as the rails show it: the C1 rail of position k+1, 0 at n-1. */
  function RailCarryIn(c1: Bits, k: nat): bool
  {
    k + 1 < |c1| && c1[k + 1]
  }

  /**
    The carry state position k sees entering from below: its neighbour k+1,
    or a known 0 at the least significant position n-1.
   */
  function KnownCarryIn(c0: Bits, c1: Bits, k: nat): Carry
    requires k < |c0| == |c1|
  {
    if k == |c0| - 1 then Carry0 else State(c0, c1, k + 1)
  }

  /**
    The state of position k after one propagation cycle: a determined
    position keeps its state, and an undetermined one (whose bits differ, so
    its carry out is its carry in) takes the state of the carry entering it.
    Only the least significant (highest-index) end of each run of
    undetermined positions, next to the determined position above it, sees a
    known carry, so that is the one position of the run that resolves.
   */
  function Next(c0: Bits, c1: Bits, k: nat): Carry
    requires k < |c0| == |c1|
  {
    if State(c0, c1, k) == Undetermined then KnownCarryIn(c0, c1, k) else State(c0, c1, k)
  }

  /** The state position k has after the first cycle, when nothing is known about carry-ins. */
  function InitialState(a: Bits, b: Bits, k: nat): Carry
    requires k < |a| == |b|
  {
    if a[k] && b[k] then Carry1
    else if !a[k] && !b[k] then Carry0
    else if k == |a| - 1 then Carry0
    else Undetermined
  }

  /**
    The number of consecutive positions k, k+1, ... below n-1 whose operand
    bits differ: how many cycles position k must wait for its carry-in.
   */
  function RunUp(a: Bits, b: Bits, k: nat): (m: nat)
    requires |a| == |b| && k < |a|
    ensures m <= |a| - 1 - k
    ensures m > 0 ==> a[k] != b[k]
    decreases |a| - k
  {
    if k + 1 >= |a| || a[k] == b[k] then 0 else 1 + RunUp(a, b, k + 1)
  }

  /** The longest RunUp among positions k..n-1. */
  function MaxRunFrom(a: Bits, b: Bits, k: nat): (m: nat)
    requires |a| == |b| && k <= |a|
    ensures forall j :: k <= j < |a| ==> RunUp(a, b, j) <= m
    ensures k < |a| ==> exists j :: k <= j < |a| && RunUp(a, b, j) == m
    ensures k == |a| ==> m == 0
    decreases |a| - k
  {
    if k == |a| then 0
    else
      var rest := MaxRunFrom(a, b, k + 1);
      if RunUp(a, b, k) >= rest then RunUp(a, b, k) else rest
  }

  /** The longest run of consecutive differing-bit positions among 0..n-2. */
  function MaxRun(a: Bits, b: Bits): nat
    requires |a| == |b|
  {
    MaxRunFrom(a, b, 0)
  }

  /** Positions k..k+m-1 all have differing bits and all lie below n-1. */
  predicate DifferingRun(a: Bits, b: Bits, k: nat, m: nat)
    requires |a| == |b|
  {
    k + m <= |a| - 1 && forall j :: k <= j < k + m ==> a[j] != b[j]
  }

  /** RunUp(k) >= m says exactly that a run of m differing positions starts at k. */
  lemma {:induction false} RunUpMeaning(a: Bits, b: Bits, k: nat, m: nat)
    requires |a| == |b| && k < |a|
    ensures RunUp(a, b, k) >= m <==> DifferingRun(a, b, k, m)
    decreases m
  {
    if m > 0 && k + 1 < |a| && a[k] != b[k] {
      RunUpMeaning(a, b, k + 1, m - 1);
    }
  }

  /** MaxRun is the length of the longest run of differing positions below n-1. */
  lemma MaxRunMeaning(a: Bits, b: Bits, m: nat)
    requires |a| == |b| && |a| >= 1
    ensures MaxRun(a, b) >= m <==> exists k :: 0 <= k < |a| && DifferingRun(a, b, k, m)
  {
    var j :| 0 <= j < |a| && RunUp(a, b, j) == MaxRun(a, b);
    if MaxRun(a, b) >= m {
      RunUpMeaning(a, b, j, m);
    }
    if k :| 0 <= k < |a| && DifferingRun(a, b, k, m) {
      RunUpMeaning(a, b, k, m);
    }
  }

  /** The maximum is bounded by the positions available below n-1. */
  lemma MaxRunBound(a: Bits, b: Bits)
    requires |a| == |b| && |a| >= 1
    ensures MaxRun(a, b) <= |a| - 1
  {
    var j :| 0 <= j < |a| && RunUp(a, b, j) == MaxRun(a, b);
  }

  /** No position is still undetermined exactly when every RunUp is at most t. */
  lemma MaxRunAtMost(a: Bits, b: Bits, t: nat)
    requires |a| == |b| && |a| >= 1
    ensures MaxRun(a, b) <= t <==> forall k :: 0 <= k < |a| ==> RunUp(a, b, k) <= t
  {
    var m := MaxRunFrom(a, b, 0);
    var j :| 0 <= j < |a| && RunUp(a, b, j) == m;
    assert MaxRun(a, b) == m;
    if forall k :: 0 <= k < |a| ==> RunUp(a, b, k) <= t {
      assert RunUp(a, b, j) <= t;
    } else {
      var k :| 0 <= k < |a| && RunUp(a, b, k) > t;
      assert RunUp(a, b, k) <= m;
    }
  }

  /**
    The first cycle already resolves every position that does not wait for a
    carry-in, resolves it to the true carry, and leaves undetermined exactly the
    positions with RunUp > 0.
   */
  lemma InitialStateMeaning(a: Bits, b: Bits)
    requires |a| == |b| && |a| >= 1
    ensures forall k :: 0 <= k < |a| ==> (InitialState(a, b, k) == Undetermined <==> RunUp(a, b, k) > 0)
    ensures forall k :: 0 <= k < |a| && InitialState(a, b, k) != Undetermined ==>
      InitialState(a, b, k) == Resolved(CarryFrom(a, b, k))
  {
  }

  /** One propagation cycle keeps the determined positions holding true carries. */
  lemma NextSound(a: Bits, b: Bits, c0: Bits, c1: Bits, c0': Bits, c1': Bits)
    requires |a| == |b| == |c0| == |c1| == |c0'| == |c1'| && |a| >= 1
    requires Sound(a, b, c0, c1) && PendingDiffer(a, b, c0, c1)
    requires forall k :: 0 <= k < |a| ==> State(c0', c1', k) == Next(c0, c1, k)
    ensures Sound(a, b, c0', c1') && PendingDiffer(a, b, c0', c1')
  {
    forall k | 0 <= k < |a| && State(c0', c1', k) != Undetermined
      ensures State(c0', c1', k) == Resolved(CarryFrom(a, b, k))
    {
      if State(c0, c1, k) == Undetermined {
        assert a[k] != b[k];
        assert CarryFrom(a, b, k) == CarryFrom(a, b, k + 1);
      }
    }
  }

  /**
    After t propagation cycles exactly the positions with RunUp > t are
    undetermined: each cycle peels the least significant (highest-index)
    position off every
    run of undetermined positions.
   */
  lemma NextPeelsRuns(a: Bits, b: Bits, c0: Bits, c1: Bits, c0': Bits, c1': Bits, t: nat)
    requires |a| == |b| == |c0| == |c1| == |c0'| == |c1'| && |a| >= 1
    requires forall k :: 0 <= k < |a| ==> (State(c0, c1, k) == Undetermined <==> RunUp(a, b, k) > t)
    requires forall k :: 0 <= k < |a| ==> State(c0', c1', k) == Next(c0, c1, k)
    ensures forall k :: 0 <= k < |a| ==> (State(c0', c1', k) == Undetermined <==> RunUp(a, b, k) > t + 1)
  {
    forall k | 0 <= k < |a|
      ensures State(c0', c1', k) == Undetermined <==> RunUp(a, b, k) > t + 1
    {
      if RunUp(a, b, k) > 0 {
        assert RunUp(a, b, k) == 1 + RunUp(a, b, k + 1);
      }
    }
  }
}
