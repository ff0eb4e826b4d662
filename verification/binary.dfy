/**
  Reference semantics of the adder: a bit vector read as an unsigned binary
  numeral whose index 0 is the most significant digit, and ordinary
  ripple-carry addition over it. A carry travels from index n-1 (the least
  significant digit, which receives no carry) toward index 0.
 */
module Binary {
  import opened BitVector

  function Bit(b: bool): nat
  {
    if b then 1 else 0
  }

  function Pow2(e: nat): (p: nat)
    ensures p >= 1
  {
    if e == 0 then 1 else 2 * Pow2(e - 1)
  }

  /** The number `s` denotes, most significant digit first. */
  function Value(s: Bits): (v: nat)
    ensures v < Pow2(|s|)
  {
    if |s| == 0 then 0 else Bit(s[0]) * Pow2(|s| - 1) + Value(s[1..])
  }

  function Majority(x: bool, y: bool, z: bool): bool
  {
    (x && y) || (x && z) || (y && z)
  }

  /**
    The carry that positions j..n-1 together pass on to position j-1, that is,
    the carry out of position j; nothing enters position n-1.
   */
  function CarryFrom(a: Bits, b: Bits, j: nat): bool
    requires |a| == |b| && j <= |a|
    decreases |a| - j
  {
    if j == |a| then false else Majority(a[j], b[j], CarryFrom(a, b, j + 1))
  }

  /** The carry into position k. */
  function CarryIn(a: Bits, b: Bits, k: nat): bool
    requires |a| == |b| && k < |a|
  {
    CarryFrom(a, b, k + 1)
  }

  /** Digit k of the ripple-carry sum. */
  function SumBit(a: Bits, b: Bits, k: nat): bool
    requires |a| == |b| && k < |a|
  {
    (a[k] != b[k]) != CarryIn(a, b, k)
  }

  function RippleSum(a: Bits, b: Bits): Bits
    requires |a| == |b|
  {
    seq(|a|, k requires 0 <= k < |a| => SumBit(a, b, k))
  }

  /** One full adder: the three inputs add up to the sum digit plus twice the carry out. */
  lemma FullAdder(x: bool, y: bool, z: bool)
    ensures Bit(x) + Bit(y) + Bit(z) == Bit((x != y) != z) + 2 * Bit(Majority(x, y, z))
  {
  }

  /**
    Adding the suffixes a[j..] and b[j..] gives the suffix of the ripple sum
    plus the carry those positions pass on, weighted by 2^(n-j).
   */
  lemma {:induction false} SuffixAddition(a: Bits, b: Bits, j: nat)
    requires |a| == |b| && j <= |a|
    ensures Value(a[j..]) + Value(b[j..])
         == Value(RippleSum(a, b)[j..]) + Bit(CarryFrom(a, b, j)) * Pow2(|a| - j)
    decreases |a| - j
  {
    var n := |a|;
    var s := RippleSum(a, b);
    if j == n {
      assert a[j..] == [] && b[j..] == [] && s[j..] == [];
    } else {
      SuffixAddition(a, b, j + 1);
      assert a[j..][1..] == a[j + 1..];
      assert b[j..][1..] == b[j + 1..];
      assert s[j..][1..] == s[j + 1..];
      var p := Pow2(n - j - 1);
      var cin := CarryFrom(a, b, j + 1);
      assert Pow2(n - j) == 2 * p;
      assert Value(a[j..]) == Bit(a[j]) * p + Value(a[j + 1..]);
      assert Value(b[j..]) == Bit(b[j]) * p + Value(b[j + 1..]);
      assert Value(s[j..]) == Bit(s[j]) * p + Value(s[j + 1..]);
      assert s[j] == ((a[j] != b[j]) != cin);
      FullAdder(a[j], b[j], cin);
      DigitStep(Bit(a[j]), Bit(b[j]), Bit(s[j]), Bit(cin), Bit(CarryFrom(a, b, j)), p,
                Value(a[j + 1..]), Value(b[j + 1..]), Value(s[j + 1..]));
    }
  }

  /** The arithmetic of one step of SuffixAddition, with the values abstracted. */
  lemma DigitStep(x: int, y: int, d: int, cin: int, cout: int, p: int, ra: int, rb: int, rs: int)
    requires x + y + cin == d + 2 * cout
    requires ra + rb == rs + cin * p
    ensures (x * p + ra) + (y * p + rb) == (d * p + rs) + cout * (2 * p)
  {
    calc {
      (x * p + ra) + (y * p + rb);
      x * p + y * p + rs + cin * p;
      { assert x * p + y * p + cin * p == (x + y + cin) * p; }
      (x + y + cin) * p + rs;
      (d + 2 * cout) * p + rs;
      { assert (d + 2 * cout) * p == d * p + cout * (2 * p); }
      (d * p + rs) + cout * (2 * p);
    }
  }

  /** A sum that equals a value below the modulus plus 0 or 1 moduli has that value as remainder. */
  lemma Wrap(x: int, y: int, v: int, c: int, p: int)
    requires 0 <= v < p && (c == 0 || c == 1)
    requires x + y == v + c * p
    ensures v == (x + y) % p
  {
    if c == 1 {
      ModOnce(x + y, p);
    } else {
      ModSmall(x + y, p);
    }
  }

  /** Removing one multiple of the modulus from a value below twice the modulus. */
  lemma ModOnce(x: int, p: int)
    requires 0 < p && p <= x < 2 * p
    ensures x % p == x - p
  {
  }

  /** A value below the modulus is its own remainder. */
  lemma ModSmall(x: int, p: int)
    requires 0 <= x < p
    ensures x % p == x
  {
  }

  /** The ripple sum is n-bit unsigned addition: (A + B) mod 2^n. */
  lemma {:induction false} RippleSumIsAddition(a: Bits, b: Bits)
    requires |a| == |b|
    ensures Value(RippleSum(a, b)) == (Value(a) + Value(b)) % Pow2(|a|)
  {
    var s := RippleSum(a, b);
    SuffixAddition(a, b, 0);
    assert a[0..] == a && b[0..] == b && s[0..] == s;
    Wrap(Value(a), Value(b), Value(s), Bit(CarryFrom(a, b, 0)), Pow2(|a|));
  }
}
