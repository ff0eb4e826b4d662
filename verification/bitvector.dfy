/**
  Bit vectors of the carry-completion adder: the operands A and B, the carry
  rails C0 and C1 and the sum S. A vector is a sequence of bits indexed by
  position; position 0 is the first character of a literal pattern.
 */
module BitVector {

  /** The widest operand the simulation uses. */
  const MAX_BITS: nat := 64

  type Bits = seq<bool>

  /** Fresh, zeroed storage of `n` bits. */
  function Zeros(n: nat): (r: Bits)
    ensures |r| == n
    ensures forall k :: 0 <= k < n ==> !r[k]
  {
    seq(n, _ => false)
  }

  /** The bit at `pos` as the unsigned value 0 or 1. */
  function GetBit(op: Bits, pos: nat): (v: nat)
    requires pos < |op|
    ensures v == 0 || v == 1
    ensures v == 1 <==> op[pos]
  {
    if op[pos] then 1 else 0
  }

  /** Sets the bit at `pos`; every other bit keeps its value. */
  function SetBit(op: Bits, pos: nat): (r: Bits)
    requires pos < |op|
    ensures |r| == |op|
    ensures GetBit(r, pos) == 1
    ensures forall q :: 0 <= q < |op| && q != pos ==> r[q] == op[q]
  {
    op[pos := true]
  }

  /** Clears the bit at `pos`; every other bit keeps its value. */
  function ClearBit(op: Bits, pos: nat): (r: Bits)
    requires pos < |op|
    ensures |r| == |op|
    ensures GetBit(r, pos) == 0
    ensures forall q :: 0 <= q < |op| && q != pos ==> r[q] == op[q]
  {
    op[pos := false]
  }

  /**
    Character `m` of the C string `pattern` is '1'. Index |pattern| is its
    terminator, which never is.
   */
  predicate IsOne(pattern: string, m: nat)
  {
    m < |pattern| && pattern[m] == '1'
  }

  /**
    ORs a literal pattern into the first `numBits` bits of `op`: bit `p` is
    set when character `p` is '1'. Every other character, whether '0' or not,
    leaves the bit as it was; nothing is validated. The pattern is a C
    string: position |pattern| holds its terminator, which is not '1', so a
    pattern one character short of `numBits` is still read in bounds.
   */
  method InsertOperand(op: Bits, numBits: nat, pattern: string) returns (r: Bits)
    requires numBits <= |op|
    requires numBits <= |pattern| + 1
    ensures |r| == |op|
    ensures forall p :: 0 <= p < numBits ==> (r[p] <==> op[p] || IsOne(pattern, p))
    ensures forall p :: numBits <= p < |op| ==> r[p] == op[p]
    ensures op == Zeros(|op|) ==> forall p :: 0 <= p < numBits ==> (r[p] <==> IsOne(pattern, p))
    ensures numBits == |pattern| + 1 ==> r[numBits - 1] == op[numBits - 1]
  {
    r := op;
    var pos := 0;
    var m := 0;
    while pos < numBits
      invariant pos <= numBits
      invariant m == pos
      invariant |r| == |op|
      invariant forall p :: 0 <= p < pos ==> (r[p] <==> op[p] || IsOne(pattern, p))
      invariant forall p :: pos <= p < |op| ==> r[p] == op[p]
    {
      if IsOne(pattern, m) {
        r := SetBit(r, pos);
      }
      m := m + 1;
      pos := pos + 1;
    }
  }
}
