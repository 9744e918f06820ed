/** The (39,32) code of riscv_ecc32: encoder, distance, decoder.
    A bit vector is a sequence of bits, bit 0 first. */
module Ecc {
  type Bits = seq<bool>

  const DATA_WIDTH: nat := 32
  const ECC_WIDTH: nat := 7
  const CODE_WIDTH: nat := 39

  // ---------- The source's encoder ----------

  // The masks of riscv_ecc32, in hexadecimal, most significant digit first.
  const MASKS: seq<string> := ["56aaad5b", "9b33366d", "e3c3c78e", "03fc07f0", "03fff800", "fc000000"]

  function HexDigit(c: char): nat {
    if '0' <= c <= '9' then c as nat - '0' as nat
    else if 'a' <= c <= 'f' then c as nat - 'a' as nat + 10
    else 0
  }

  // (n >> k) & 1
  predicate BitOf(n: nat, k: nat)
    requires k < 6
  {
    match k
    case 0 => n % 2 == 1
    case 1 => n / 2 % 2 == 1
    case 2 => n / 4 % 2 == 1
    case 3 => n / 8 % 2 == 1
    case 4 => n / 16 % 2 == 1
    case _ => n / 32 % 2 == 1
  }

  predicate HexBit(hex: string, i: nat)
    requires |hex| == 8 && i < DATA_WIDTH
  {
    BitOf(HexDigit(hex[7 - i / 4]), i % 4)
  }

  function Mask(k: nat): (m: Bits)
    requires k < 6
    ensures |m| == DATA_WIDTH
  {
    seq(DATA_WIDTH, i requires 0 <= i < DATA_WIDTH => HexBit(MASKS[k], i))
  }

  function And(x: Bits, y: Bits): (z: Bits)
    requires |x| == |y|
    ensures |z| == |x|
  {
    seq(|x|, i requires 0 <= i < |x| => x[i] && y[i])
  }

  function Xor(x: Bits, y: Bits): (z: Bits)
    requires |x| == |y|
    ensures |z| == |x|
    ensures forall i :: 0 <= i < |x| ==> z[i] == (x[i] != y[i])
  {
    seq(|x|, i requires 0 <= i < |x| => x[i] != y[i])
  }

  // The reduction operator ^x.
  predicate Parity(x: Bits) {
    x != [] && (x[|x| - 1] != Parity(x[..|x| - 1]))
  }

  function Checks(d: Bits): (e: Bits)
    requires |d| == DATA_WIDTH
    ensures |e| == 6
  {
    seq(6, k requires 0 <= k < 6 => Parity(And(d, Mask(k))))
  }

  function RiscvEcc32(d: Bits): (e: Bits)
    requires |d| == DATA_WIDTH
    ensures |e| == ECC_WIDTH
  {
    Checks(d) + [Parity(d + Checks(d))]
  }

  // {riscv_ecc32(data), data}
  function Codeword(d: Bits): (c: Bits)
    requires |d| == DATA_WIDTH
    ensures |c| == CODE_WIDTH
  {
    d + RiscvEcc32(d)
  }

  function Zeros(n: nat): (z: Bits)
    ensures |z| == n
  {
    seq(n, _ => false)
  }

  // What the preload tasks store: zero words skip the encoder.
  function Preloaded(d: Bits): Bits
    requires |d| == DATA_WIDTH
  {
    if d == Zeros(DATA_WIDTH) then Zeros(CODE_WIDTH) else Codeword(d)
  }

  // ---------- Linear algebra over bits ----------

  // The inner product of a row of the check matrix and a word.
  predicate Dot(r: Bits, x: Bits)
    requires |r| == |x|
  {
    Parity(And(r, x))
  }

  lemma DotLast(r: Bits, x: Bits)
    requires |r| == |x| > 0
    ensures Dot(r, x) == ((r[|r| - 1] && x[|x| - 1]) != Dot(r[..|r| - 1], x[..|x| - 1]))
  {
    assert And(r, x)[..|r| - 1] == And(r[..|r| - 1], x[..|x| - 1]);
  }

  lemma {:induction false} DotLinear(r: Bits, x: Bits, y: Bits)
    requires |r| == |x| == |y|
    ensures Dot(r, Xor(x, y)) == (Dot(r, x) != Dot(r, y))
  {
    if r != [] {
      var n := |r| - 1;
      DotLast(r, x);
      DotLast(r, y);
      DotLast(r, Xor(x, y));
      DotLinear(r[..n], x[..n], y[..n]);
      assert Xor(x, y)[..n] == Xor(x[..n], y[..n]);
    }
  }

  lemma {:induction false} DotConcat(r: Bits, s: Bits, x: Bits, y: Bits)
    requires |r| == |x| && |s| == |y|
    ensures Dot(r + s, x + y) == (Dot(r, x) != Dot(s, y))
  {
    if s == [] {
      assert r + s == r && x + y == x;
    } else {
      var n := |s| - 1;
      DotLast(s, y);
      DotLast(r + s, x + y);
      assert (r + s)[..|r + s| - 1] == r + s[..n] && (x + y)[..|x + y| - 1] == x + y[..n];
      DotConcat(r, s[..n], x, y[..n]);
    }
  }

  // The word with bit i alone set.
  function Unit(n: nat, i: nat): (u: Bits)
    requires i < n
    ensures |u| == n
  {
    seq(n, j => j == i)
  }

  lemma {:induction false} DotZeros(r: Bits)
    ensures !Dot(r, Zeros(|r|))
  {
    if r != [] {
      DotLast(r, Zeros(|r|));
      assert Zeros(|r|)[..|r| - 1] == Zeros(|r| - 1);
      DotZeros(r[..|r| - 1]);
    }
  }

  lemma {:induction false} DotUnit(r: Bits, i: nat)
    requires i < |r|
    ensures Dot(r, Unit(|r|, i)) == r[i]
  {
    var n := |r| - 1;
    DotLast(r, Unit(|r|, i));
    if i < n {
      assert Unit(|r|, i)[..n] == Unit(n, i);
      DotUnit(r[..n], i);
    } else {
      assert Unit(|r|, i)[..n] == Zeros(n);
      DotZeros(r[..n]);
    }
  }

  // Set bits.
  function Weight(x: Bits): nat {
    if x == [] then 0 else Weight(x[..|x| - 1]) + if x[|x| - 1] then 1 else 0
  }

  lemma {:induction false} ParityIsWeight(x: Bits)
    ensures Parity(x) == (Weight(x) % 2 == 1)
  {
    if x != [] {
      ParityIsWeight(x[..|x| - 1]);
    }
  }

  lemma {:induction false} WeightZero(x: Bits)
    ensures Weight(x) == 0 <==> x == Zeros(|x|)
  {
    if x != [] {
      WeightZero(x[..|x| - 1]);
      assert x == x[..|x| - 1] + [x[|x| - 1]];
      assert Zeros(|x|)[..|x| - 1] == Zeros(|x| - 1);
    }
  }

  // A word of weight w > 0 is a unit word plus a word of weight w - 1.
  lemma {:induction false} TakeBit(x: Bits) returns (i: nat)
    requires Weight(x) > 0
    ensures i < |x| && x[i] && Weight(Xor(x, Unit(|x|, i))) == Weight(x) - 1
  {
    var n := |x| - 1;
    if x[n] {
      i := n;
      assert Xor(x, Unit(|x|, i))[..n] == x[..n];
    } else {
      i := TakeBit(x[..n]);
      assert Xor(x, Unit(|x|, i))[..n] == Xor(x[..n], Unit(n, i));
    }
  }
}
