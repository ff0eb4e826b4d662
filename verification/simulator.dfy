/**
  One trial of the carry-completion adder: the initial cycle, the
  propagation cycles with their skip-ahead over runs of undetermined
  positions, the completion count and the final carry-complete stage.
 */
module CarryCompletion {
  import opened BitVector
  import opened Binary
  import opened CarryState

  /** Delay units charged per cycle (two gate delays). */
  const GATE_DELAY: nat := 2

  /** What one trial leaves behind: the carry rails, the sum and its timing. */
  datatype Trial = Trial(c0: Bits, c1: Bits, sum: Bits, cycles: nat, delay: nat)

  /** A bit as the C unsigned value 0 or 1. */
  function Word(x: bool): bv32
  {
    if x then 1 else 0
  }

  /**
    The initial cycle's kill test `~ai & ~bi` on unsigned values. The
    complement also flips the upper 31 bits, so the test is nonzero for every
    pair of bits; it is only reached when both bits are 0.
   */
  function KillGuard(ai: bool, bi: bool): (g: bool)
    ensures g
  {
    var x, y := Word(ai), Word(bi);
    (!x & !y) != 0
  }

  /** The test for resolving to carry 1, `(~ai & bi & cin1) | (ai & ~bi & cin1)`. */
  function CarryOneGuard(ai: bool, bi: bool, cin1: bool): (g: bool)
    ensures g <==> ai != bi && cin1
  {
    var x, y, c := Word(ai), Word(bi), Word(cin1);
    ((!x & y & c) | (x & !y & c)) != 0
  }

  /**
    The test for resolving to carry 0, `((~ai & bi & cin0) | (ai & ~bi & cin0)) + 2`.
    The added 2 makes it nonzero for all bit inputs, so it always holds.
   */
  function CarryZeroGuard(ai: bool, bi: bool, cin0: bool): (g: bool)
    ensures g
  {
    var x, y, c := Word(ai), Word(bi), Word(cin0);
    ((!x & y & c) | (x & !y & c)) + 2 != 0
  }

  /**
    The guard the rule intends: resolve to the carry-in when it is known and
    the bits differ. For a position whose bits differ and whose carry-in is
    known, the written guards pick the same carry.
   */
  lemma WrittenGuardsFollowCarryIn(ai: bool, bi: bool, cin0: bool, cin1: bool)
    requires ai != bi && cin0 != cin1
    ensures CarryOneGuard(ai, bi, cin1) <==> cin1
    ensures !CarryOneGuard(ai, bi, cin1) ==> CarryZeroGuard(ai, bi, cin0) && cin0
  {
  }

  /**
    Cycle 1: generate (1,1) and kill (0,0) positions resolve, the least
    significant position n-1 resolves to carry 0 when its bits differ (its
    carry-in is 0), and the sum is provisionally A XOR B.
   */
  method InitialCycle(a: Bits, b: Bits) returns (c0: Bits, c1: Bits, s: Bits)
    requires |a| == |b| && |a| >= 1
    ensures |c0| == |a| && |c1| == |a| && |s| == |a|
    ensures Exclusive(c0, c1)
    ensures forall k :: 0 <= k < |a| && a[k] && b[k] ==> State(c0, c1, k) == Carry1
    ensures forall k :: 0 <= k < |a| && !a[k] && !b[k] ==> State(c0, c1, k) == Carry0
    ensures a[|a| - 1] != b[|a| - 1] ==> State(c0, c1, |a| - 1) == Carry0
    ensures forall k :: 0 <= k < |a| - 1 && a[k] != b[k] ==> State(c0, c1, k) == Undetermined
    ensures forall k :: 0 <= k < |a| ==> s[k] == (a[k] != b[k])
  {
    var n := |a|;
    c0, c1, s := Zeros(n), Zeros(n), Zeros(n);
    var k := n - 1;
    while k >= 0
      invariant -1 <= k < n
      invariant |c0| == n && |c1| == n && |s| == n
      invariant forall j :: 0 <= j <= k ==> !c0[j] && !c1[j] && !s[j]
      invariant forall j :: k < j < n ==> State(c0, c1, j) == InitialState(a, b, j)
      invariant forall j :: k < j < n ==> !(c0[j] && c1[j])
      invariant forall j :: k < j < n ==> s[j] == (a[j] != b[j])
    {
      var ai, bi := a[k], b[k];
      if ai == bi {
        if ai && bi {
          c1 := SetBit(c1, k);
        } else if KillGuard(ai, bi) {
          c0 := SetBit(c0, k);
        }
      } else if k == n - 1 {
        c0 := SetBit(c0, k);
      }
      if ai != bi {
        s := SetBit(s, k);
      }
      k := k - 1;
    }
  }

  /**
    What the descending scan of one propagation cycle, started from rails
    `c0`, `c1`, has established once it is about to visit position `k`
    (rails `c0'`, `c1'`, sum `s'`): positions k+1..n-1 hold the state Next
    gives them, positions 0..k are untouched, the buffers `cin0`, `cin1`
    hold the rails of position k+1 (a known carry 0 above n-1), and, unless
    a skip-ahead has passed over positions, the sum digits above k are final.
   */
  ghost predicate ScanInv(a: Bits, b: Bits, c0: Bits, c1: Bits, c0': Bits, c1': Bits, s': Bits,
                          k: int, cin0: bool, cin1: bool, skipped: bool)
    requires |a| == |b| == |c0| == |c1|
  {
    var n := |a|;
    && -1 <= k < n
    && |c0'| == n && |c1'| == n && |s'| == n
    && Exclusive(c0', c1')
    && (forall j :: 0 <= j <= k ==> c0'[j] == c0[j] && c1'[j] == c1[j])
    && (forall j :: k < j < n ==> State(c0', c1', j) == Next(c0, c1, j))
    && (k == n - 1 ==> cin0 && !cin1)
    && (k < n - 1 ==> cin0 == c0'[k + 1] && cin1 == c1'[k + 1])
    && (0 <= k < n - 1 && State(c0, c1, k) == Undetermined ==>
          State(c0', c1', k + 1) == State(c0, c1, k + 1))
    && (!skipped ==> forall j :: k < j < n ==> s'[j] == ((a[j] != b[j]) != RailCarryIn(c1', j)))
    && (skipped ==> exists j :: k < j < n && Next(c0, c1, j) == Undetermined)
  }

  /** The scan moves from position k to k-1 without skipping: position k now holds Next's state. */
  lemma ScanOne(a: Bits, b: Bits, c0: Bits, c1: Bits, c0': Bits, c1': Bits, s': Bits,
                k: nat, cin0: bool, cin1: bool, skipped: bool, d0: Bits, d1: Bits, s2: Bits)
    requires |a| == |b| == |c0| == |c1|
    requires ScanInv(a, b, c0, c1, c0', c1', s', k, cin0, cin1, skipped)
    requires |d0| == |a| && |d1| == |a| && |s2| == |a|
    requires forall j :: 0 <= j < |a| && j != k ==> d0[j] == c0'[j] && d1[j] == c1'[j] && s2[j] == s'[j]
    requires !(d0[k] && d1[k])
    requires State(d0, d1, k) == Next(c0, c1, k)
    requires 0 < k && State(c0, c1, k - 1) == Undetermined ==> State(d0, d1, k) == State(c0, c1, k)
    requires s2[k] == ((a[k] != b[k]) != cin1)
    ensures ScanInv(a, b, c0, c1, d0, d1, s2, k - 1, d0[k], d1[k], skipped)
  {
    var n := |a|;
    if !skipped {
      forall j | k - 1 < j < n
        ensures s2[j] == ((a[j] != b[j]) != RailCarryIn(d1, j))
      {
        assert RailCarryIn(d1, j) == RailCarryIn(c1', j);
      }
    }
    if skipped {
      var w :| k < w < n && Next(c0, c1, w) == Undetermined;
    }
  }

  /**
    The scan resolved position k and then skipped down over the undetermined
    positions landing..k-1; it goes on at landing-1.
   */
  lemma ScanSkip(a: Bits, b: Bits, c0: Bits, c1: Bits, c0': Bits, c1': Bits, s': Bits,
                 k: nat, cin0: bool, cin1: bool, skipped: bool, d0: Bits, d1: Bits, s2: Bits,
                 landing: nat)
    requires |a| == |b| == |c0| == |c1|
    requires ScanInv(a, b, c0, c1, c0', c1', s', k, cin0, cin1, skipped)
    requires landing < k
    requires |d0| == |a| && |d1| == |a| && |s2| == |a|
    requires forall j :: 0 <= j < |a| && j != k ==> d0[j] == c0'[j] && d1[j] == c1'[j]
    requires forall j :: 0 <= j < |a| && j != landing ==> s2[j] == s'[j]
    requires !(d0[k] && d1[k])
    requires State(c0, c1, k) == Undetermined
    requires State(d0, d1, k) == Next(c0, c1, k)
    requires forall j :: landing <= j < k ==> d0[j] == d1[j]
    ensures ScanInv(a, b, c0, c1, d0, d1, s2, landing - 1, d0[landing], d1[landing], true)
  {
    var n := |a|;
    forall j | landing <= j < k
      ensures State(d0, d1, j) == Next(c0, c1, j)
    {
      assert State(c0, c1, j) == Undetermined;
      if j + 1 < k {
        assert State(c0, c1, j + 1) == Undetermined;
      }
    }
    assert Next(c0, c1, landing) == Undetermined;
  }

  /**
    The body of the scan at position k: if k is undetermined and the carry of
    the position scanned before it is known, resolve k to carry 1 or carry 0
    and skip ahead over the rest of its run; then write the sum digit at the
    position the scan stands on and load the carry buffers from it.
   */
  method ScanPosition(a: Bits, b: Bits, c0: Bits, c1: Bits, e0: Bits, e1: Bits, es: Bits,
                      k: nat, cin0: bool, cin1: bool, ghost skipped: bool)
    returns (c0': Bits, c1': Bits, s': Bits, k': int, cout0: bool, cout1: bool, ghost skipped': bool)
    requires |a| == |b| == |c0| == |c1| && k < |a|
    requires PendingDiffer(a, b, c0, c1)
    requires ScanInv(a, b, c0, c1, e0, e1, es, k, cin0, cin1, skipped)
    ensures k' < k
    ensures ScanInv(a, b, c0, c1, c0', c1', s', k', cout0, cout1, skipped')
  {
    var n := |a|;
    c0', c1', s' := e0, e1, es;
    var ai, bi := a[k], b[k];
    var p := k;
    if c0'[p] == c1'[p] {
      if cin0 != cin1 {
        if CarryOneGuard(ai, bi, cin1) {
          c1' := SetBit(c1', p);
          c0' := ClearBit(c0', p);
        } else if CarryZeroGuard(ai, bi, cin0) {
          c0' := SetBit(c0', p);
          c1' := ClearBit(c1', p);
        }
        assert State(c0', c1', k) == Next(c0, c1, k) by {
          assert a[k] != b[k];
          if k < n - 1 {
            assert State(c0, c1, k + 1) == StateOf(cin0, cin1);
          }
        }
        // skip ahead over the rest of this run of undetermined positions
        if p != 0 {
          p := SkipRun(c0', c1', p);
        }
      }
    }
    if (ai != bi) != cin1 {
      s' := SetBit(s', p);
    } else {
      s' := ClearBit(s', p);
    }
    if p < k {
      ScanSkip(a, b, c0, c1, e0, e1, es, k, cin0, cin1, skipped, c0', c1', s', p);
      skipped' := true;
    } else {
      ScanOne(a, b, c0, c1, e0, e1, es, k, cin0, cin1, skipped, c0', c1', s');
      skipped' := skipped;
    }
    cout0, cout1 := c0'[p], c1'[p];
    k' := p - 1;
  }

  /**
    One propagation cycle: a descending scan that resolves an undetermined
    position from the carry of the position scanned just before it, then
    skips over the rest of that run of undetermined positions. Every position
    ends in the state Next gives it; determined positions keep their rails;
    and when the cycle completes the carries, every sum digit is A XOR B XOR
    its carry-in.
   */
  method PropagationCycle(a: Bits, b: Bits, c0: Bits, c1: Bits, s: Bits)
    returns (c0': Bits, c1': Bits, s': Bits)
    requires |a| >= 1 && |b| == |a| && |c0| == |a| && |c1| == |a| && |s| == |a|
    requires Exclusive(c0, c1) && PendingDiffer(a, b, c0, c1)
    ensures |c0'| == |a| && |c1'| == |a| && |s'| == |a|
    ensures Exclusive(c0', c1')
    ensures forall k :: 0 <= k < |a| ==> State(c0', c1', k) == Next(c0, c1, k)
    ensures forall k :: 0 <= k < |a| && State(c0, c1, k) != Undetermined ==>
      c0'[k] == c0[k] && c1'[k] == c1[k]
    ensures AllDetermined(c0', c1') ==>
      forall k :: 0 <= k < |a| ==> s'[k] == ((a[k] != b[k]) != RailCarryIn(c1', k))
  {
    var n := |a|;
    c0', c1', s' := c0, c1, s;
    var cin0, cin1 := true, false;
    ghost var skipped := false;
    var k := n - 1;
    while k >= 0
      invariant ScanInv(a, b, c0, c1, c0', c1', s', k, cin0, cin1, skipped)
      decreases k
    {
      c0', c1', s', k, cin0, cin1, skipped := ScanPosition(a, b, c0, c1, c0', c1', s', k, cin0, cin1, skipped);
    }
    forall j | 0 <= j < n && State(c0, c1, j) != Undetermined
      ensures c0'[j] == c0[j] && c1'[j] == c1[j]
    {
      assert State(c0', c1', j) == State(c0, c1, j);
    }
    if skipped {
      var w :| 0 <= w < n && Next(c0, c1, w) == Undetermined;
      assert !AllDetermined(c0', c1') by {
        assert State(c0', c1', w) == Undetermined;
      }
    }
  }

  /**
    The skip-ahead after a resolution at `k`: moves down over the undetermined
    positions below `k` and stops at the last of them, just above the next
    determined position or at position 0.
   */
  method SkipRun(c0: Bits, c1: Bits, k: nat) returns (k': nat)
    requires 0 < k < |c0| && |c1| == |c0|
    ensures k' <= k
    ensures forall j :: k' <= j < k ==> c0[j] == c1[j]
    ensures k' == 0 || c0[k' - 1] != c1[k' - 1]
  {
    k' := k;
    while !(c0[k' - 1] != c1[k' - 1])
      invariant 0 < k' <= k
      invariant forall j :: k' <= j < k ==> c0[j] == c1[j]
      decreases k'
    {
      if k' - 1 <= 0 {
        k' := 0;
        break;
      } else {
        k' := k' - 1;
      }
    }
  }

  /** The completion count: how many positions have exactly one rail set. */
  method CountDone(c0: Bits, c1: Bits) returns (done: nat)
    requires |c0| == |c1|
    ensures done <= |c0|
    ensures done >= |c0| <==> AllDetermined(c0, c1)
  {
    done := 0;
    var l := |c0| - 1;
    while l >= 0
      invariant -1 <= l < |c0|
      invariant done <= |c0| - 1 - l
      invariant done == |c0| - 1 - l <==> forall j :: l < j < |c0| ==> c0[j] != c1[j]
    {
      if c0[l] != c1[l] {
        done := done + 1;
      }
      l := l - 1;
    }
  }

  function Max(x: nat, y: nat): nat
  {
    if x >= y then x else y
  }

  /**
    The cycles a trial takes: the initial cycle, the propagation cycles
    (at least one for widths of two or more, and one per position of the
    longest run of differing bits below the least significant position),
    and the final carry-complete stage.
   */
  function ExpectedCycles(a: Bits, b: Bits): nat
    requires |a| == |b| && |a| >= 1
  {
    if |a| == 1 then 2 else 2 + Max(1, MaxRun(a, b))
  }

  /**
    One trial of width `width` on operands `a` and `b`: the rails end with
    the true carries, the sum is the ripple-carry sum and so (A + B) mod
    2^width, and the cycle count follows the longest run of differing bits.
   */
  method Simulate(width: nat, a: Bits, b: Bits) returns (r: Trial)
    requires 1 <= width <= MAX_BITS
    requires |a| == width && |b| == width
    ensures |r.c0| == width && |r.c1| == width && |r.sum| == width
    ensures forall k :: 0 <= k < width ==> r.c0[k] != r.c1[k] && r.c1[k] == CarryFrom(a, b, k)
    ensures forall k :: 0 <= k < width ==> r.sum[k] == SumBit(a, b, k)
    ensures r.sum == RippleSum(a, b)
    ensures Value(r.sum) == (Value(a) + Value(b)) % Pow2(width)
    ensures r.cycles == ExpectedCycles(a, b)
    ensures 2 <= r.cycles <= width + 1
    ensures r.delay == r.cycles * GATE_DELAY
  {
    var c0, c1, s := InitialCycle(a, b);
    InitialStateMeaning(a, b);
    assert forall k :: 0 <= k < width ==> State(c0, c1, k) == InitialState(a, b, k);
    var delay := GATE_DELAY;
    var cycles := 1;
    var complete := width == 1;
    ghost var t := 0;
    MaxRunBound(a, b);
    while !complete
      invariant TrialInv(a, b, c0, c1, s, t, complete)
      invariant cycles == t + 1 && delay == cycles * GATE_DELAY
      decreases if complete then 0 else 1, width - t
    {
      cycles := cycles + 1;
      var c0', c1', s' := PropagationCycle(a, b, c0, c1, s);
      delay := delay + GATE_DELAY;
      var done := CountDone(c0', c1');
      var complete' := done >= width;
      AdvanceTrial(a, b, c0, c1, s, t, c0', c1', s', complete');
      c0, c1, s := c0', c1', s';
      complete := complete';
      t := t + 1;
    }
    cycles := cycles + 1;
    delay := delay + GATE_DELAY;
    FinishTrial(a, b, c0, c1, s, t);
    RippleSumIsAddition(a, b);
    r := Trial(c0, c1, s, cycles, delay);
  }

  /** At carry completion the propagation cycles number max(1, longest run), or 0 for width 1. */
  lemma FinishTrial(a: Bits, b: Bits, c0: Bits, c1: Bits, s: Bits, t: nat)
    requires |a| == |b| && |a| >= 1
    requires TrialInv(a, b, c0, c1, s, t, true)
    ensures t + 2 == ExpectedCycles(a, b)
    ensures 2 <= t + 2 <= |a| + 1
    ensures forall k :: 0 <= k < |a| ==> c0[k] != c1[k] && c1[k] == CarryFrom(a, b, k)
    ensures forall k :: 0 <= k < |a| ==> s[k] == SumBit(a, b, k)
    ensures s == RippleSum(a, b)
  {
    MaxRunBound(a, b);
    MaxRunAtMost(a, b, t);
    CompletionGivesSum(a, b, c0, c1, s);
  }

  /**
    What holds of a trial after the initial cycle and t propagation cycles:
    the rails are well formed and hold only true carries, exactly the
    positions with RunUp > t are undetermined, and `complete` is set exactly
    when carry completion was detected, at which point the sum digits are
    final. The last two conjuncts pin t between the cycles needed so far and
    the cycles the longest run needs.
   */
  ghost predicate TrialInv(a: Bits, b: Bits, c0: Bits, c1: Bits, s: Bits, t: nat, complete: bool)
    requires |a| == |b| && |a| >= 1
  {
    var n := |a|;
    && |c0| == n && |c1| == n && |s| == n
    && Exclusive(c0, c1) && PendingDiffer(a, b, c0, c1) && Sound(a, b, c0, c1)
    && (forall k :: 0 <= k < n ==> (State(c0, c1, k) == Undetermined <==> RunUp(a, b, k) > t))
    && (n == 1 ==> complete && t == 0)
    && (n >= 2 && complete ==> t >= 1)
    && (t >= 1 ==> (complete <==> AllDetermined(c0, c1)))
    && (complete ==> AllDetermined(c0, c1))
    && (complete ==> forall k :: 0 <= k < n ==> s[k] == ((a[k] != b[k]) != RailCarryIn(c1, k)))
    && (t >= 2 ==> MaxRun(a, b) >= t)
    && t <= Max(1, MaxRun(a, b))
  }

  /** One more propagation cycle and completion test keep TrialInv, and the count stays in bounds. */
  lemma AdvanceTrial(a: Bits, b: Bits, c0: Bits, c1: Bits, s: Bits, t: nat,
                     c0': Bits, c1': Bits, s': Bits, complete': bool)
    requires |a| == |b| && |a| >= 1
    requires TrialInv(a, b, c0, c1, s, t, false)
    requires |c0'| == |a| && |c1'| == |a| && |s'| == |a|
    requires Exclusive(c0', c1')
    requires forall k :: 0 <= k < |a| ==> State(c0', c1', k) == Next(c0, c1, k)
    requires AllDetermined(c0', c1') ==>
      forall k :: 0 <= k < |a| ==> s'[k] == ((a[k] != b[k]) != RailCarryIn(c1', k))
    requires complete' <==> AllDetermined(c0', c1')
    ensures TrialInv(a, b, c0', c1', s', t + 1, complete')
    ensures t + 1 <= |a| - 1
  {
    MaxRunBound(a, b);
    if t >= 1 {
      MaxRunAtMost(a, b, t);
      var k :| 0 <= k < |a| && c0[k] == c1[k];
      assert RunUp(a, b, k) > t;
    }
    NextSound(a, b, c0, c1, c0', c1');
    NextPeelsRuns(a, b, c0, c1, c0', c1', t);
  }

  /**
    Once every position is determined, the rails hold the true carries and a
    sum whose digits use the C1 rail of the next position as carry-in is the
    ripple sum.
   */
  lemma CompletionGivesSum(a: Bits, b: Bits, c0: Bits, c1: Bits, s: Bits)
    requires |a| == |b| == |c0| == |c1| == |s|
    requires Sound(a, b, c0, c1) && AllDetermined(c0, c1)
    requires forall k :: 0 <= k < |a| ==> s[k] == ((a[k] != b[k]) != RailCarryIn(c1, k))
    ensures forall k :: 0 <= k < |a| ==> c1[k] == CarryFrom(a, b, k)
    ensures s == RippleSum(a, b)
  {
    forall k | 0 <= k < |a|
      ensures c1[k] == CarryFrom(a, b, k)
    {
      assert State(c0, c1, k) != Undetermined;
    }
    forall k | 0 <= k < |a|
      ensures s[k] == SumBit(a, b, k)
    {
      if k + 1 < |a| {
        assert c1[k + 1] == CarryFrom(a, b, k + 1);
      }
    }
  }

  /** Every trial takes between 2 and width+1 cycles, and only width 1 takes as few as 2. */
  lemma ExpectedCyclesBounds(a: Bits, b: Bits)
    requires |a| == |b| && |a| >= 1
    ensures 2 <= ExpectedCycles(a, b) <= |a| + 1
    ensures ExpectedCycles(a, b) == 2 <==> |a| == 1
  {
    MaxRunBound(a, b);
  }

  /**
    With no differing bits every carry resolves in the initial cycle, yet a
    width of two or more still runs one propagation cycle: 3 cycles.
   */
  lemma EqualOperandsCycles(a: Bits, b: Bits)
    requires |a| == |b| && |a| >= 1
    requires forall k :: 0 <= k < |a| ==> a[k] == b[k]
    ensures ExpectedCycles(a, b) == if |a| == 1 then 2 else 3
  {
    var j :| 0 <= j < |a| && RunUp(a, b, j) == MaxRun(a, b);
  }

  /**
    The worst case, width+1 cycles, happens exactly when positions 0..n-2 all
    differ; widths 1 and 2 always take width+1 cycles.
   */
  lemma WorstCaseCycles(a: Bits, b: Bits)
    requires |a| == |b| && |a| >= 1
    ensures ExpectedCycles(a, b) == |a| + 1 <==>
      |a| <= 2 || forall k :: 0 <= k < |a| - 1 ==> a[k] != b[k]
  {
    var n := |a|;
    MaxRunBound(a, b);
    MaxRunMeaning(a, b, n - 1);
    if forall k :: 0 <= k < n - 1 ==> a[k] != b[k] {
      assert DifferingRun(a, b, 0, n - 1);
    }
    if ExpectedCycles(a, b) == n + 1 && n >= 3 {
      assert MaxRun(a, b) >= n - 1;
      var k :| 0 <= k < n && DifferingRun(a, b, k, n - 1);
      assert k == 0;
    }
  }

  /** Width 1, A = "1", B = "0": sum "1" after 2 cycles, delay 4. */
  lemma ScenarioOneBit()
    ensures RippleSum([true], [false]) == [true]
    ensures ExpectedCycles([true], [false]) * GATE_DELAY == 4
  {
    assert SumBit([true], [false], 0);
  }

  /** Width 3, A = B = "000": sum "000" after 3 cycles, delay 6. */
  lemma ScenarioZeros()
    ensures RippleSum([false, false, false], [false, false, false]) == [false, false, false]
    ensures ExpectedCycles([false, false, false], [false, false, false]) == 3
  {
    var z := [false, false, false];
    assert CarryFrom(z, z, 3) == false;
    assert CarryFrom(z, z, 2) == false;
    assert CarryFrom(z, z, 1) == false;
    EqualOperandsCycles(z, z);
  }

  /** Width 4, A = "1010", B = "0101": every position differs; sum "1111" after 5 cycles. */
  lemma ScenarioAlternating()
    ensures RippleSum([true, false, true, false], [false, true, false, true]) == [true, true, true, true]
    ensures Value([true, false, true, false]) == 10 && Value([false, true, false, true]) == 5
    ensures ExpectedCycles([true, false, true, false], [false, true, false, true]) == 5
  {
    var a, b := [true, false, true, false], [false, true, false, true];
    assert CarryFrom(a, b, 4) == false;
    assert CarryFrom(a, b, 3) == false;
    assert CarryFrom(a, b, 2) == false;
    assert CarryFrom(a, b, 1) == false;
    assert a[1..] == [false, true, false] && a[2..] == [true, false] && a[3..] == [false];
    assert b[1..] == [true, false, true] && b[2..] == [false, true] && b[3..] == [true];
    WorstCaseCycles(a, b);
  }
}
