/** Distance of the code, and what a decoder makes of injected bit flips. */
module EccCode {
  import opened Ecc

  // ---------- The check matrix ----------

  function Ones(n: nat): (o: Bits)
    ensures |o| == n
  {
    seq(n, _ => true)
  }

  // Row k < 6 sums what mask k selects and check bit k; row 6 sums everything.
  function Row(k: nat): (r: Bits)
    requires k < ECC_WIDTH
    ensures |r| == CODE_WIDTH
  {
    if k < 6 then Mask(k) + Unit(ECC_WIDTH, k) else Ones(CODE_WIDTH)
  }

  lemma DotCommutes(x: Bits, y: Bits)
    requires |x| == |y|
    ensures Dot(x, y) == Dot(y, x)
  {
    assert And(x, y) == And(y, x);
  }

  lemma RowMeaning(k: nat, d: Bits, e: Bits)
    requires k < 6 && |d| == DATA_WIDTH && |e| == ECC_WIDTH
    ensures Dot(Row(k), d + e) == (Checks(d)[k] != e[k])
  {
    DotConcat(Mask(k), Unit(ECC_WIDTH, k), d, e);
    DotCommutes(Unit(ECC_WIDTH, k), e);
    DotUnit(e, k);
    DotCommutes(Mask(k), d);
  }

  lemma OnesMeaning(c: Bits)
    ensures Dot(Ones(|c|), c) == Parity(c)
  {
    assert And(Ones(|c|), c) == c;
  }

  // Every row of the check matrix is orthogonal to every codeword.
  lemma CodewordChecks(d: Bits, k: nat)
    requires |d| == DATA_WIDTH && k < ECC_WIDTH
    ensures !Dot(Row(k), Codeword(d))
  {
    if k < 6 {
      RowMeaning(k, d, RiscvEcc32(d));
    } else {
      OnesMeaning(Codeword(d));
      assert Codeword(d) == (d + Checks(d)) + [Parity(d + Checks(d))];
      assert Codeword(d)[..CODE_WIDTH - 1] == d + Checks(d);
    }
  }

  // ---------- Its columns are the Hamming positions ----------

  // Data bits sit at the positions 3, 5, 6, 7, 9, ... that are not powers of two, check bit k at
  // 2^k, the overall parity bit at 0.
  function Position(i: nat): nat
    requires i < CODE_WIDTH
  {
    if i < 1 then 3 else if i < 4 then i + 4 else if i < 11 then i + 5
    else if i < 26 then i + 6 else if i < 32 then i + 7
    else [1, 2, 4, 8, 16, 32, 0][i - 32]
  }

  predicate ColumnAgrees(i: nat)
    requires i < CODE_WIDTH
  {
    forall k :: 0 <= k < 6 ==> Row(k)[i] == BitOf(Position(i), k)
  }

  lemma DataColumn(i: nat, k: nat)
    requires i < DATA_WIDTH && k < 6
    ensures HexBit(MASKS[k], i) == BitOf(Position(i), k)
  {
    if k == 0 { Mask0(i); } else if k == 1 { Mask1(i); } else if k == 2 { Mask2(i); }
    else if k == 3 { Mask3(i); } else if k == 4 { Mask4(i); } else { Mask5(i); }
  }

  lemma ByDigit(i: nat)
    requires i < DATA_WIDTH
    ensures i == 4 * (i / 4) + i % 4 && i / 4 in [0, 1, 2, 3, 4, 5, 6, 7] && i % 4 in [0, 1, 2, 3]
  {
  }

  lemma Mask0(i: nat)
    requires i < DATA_WIDTH
    ensures HexBit("56aaad5b", i) == BitOf(Position(i), 0)
  {
    ByDigit(i);
  }

  lemma Mask1(i: nat)
    requires i < DATA_WIDTH
    ensures HexBit("9b33366d", i) == BitOf(Position(i), 1)
  {
    ByDigit(i);
  }

  lemma Mask2(i: nat)
    requires i < DATA_WIDTH
    ensures HexBit("e3c3c78e", i) == BitOf(Position(i), 2)
  {
    if i < 16 {
      Mask2Low(i);
    } else {
      Mask2High(i);
    }
  }

  lemma Mask2Low(i: nat)
    requires i < 16
    ensures HexBit("e3c3c78e", i) == BitOf(Position(i), 2)
  {
    ByDigit(i);
  }

  lemma Mask2High(i: nat)
    requires 16 <= i < DATA_WIDTH
    ensures HexBit("e3c3c78e", i) == BitOf(Position(i), 2)
  {
    ByDigit(i);
  }

  lemma Mask3(i: nat)
    requires i < DATA_WIDTH
    ensures HexBit("03fc07f0", i) == BitOf(Position(i), 3)
  {
    ByDigit(i);
  }

  lemma Mask4(i: nat)
    requires i < DATA_WIDTH
    ensures HexBit("03fff800", i) == BitOf(Position(i), 4)
  {
    ByDigit(i);
  }

  lemma Mask5(i: nat)
    requires i < DATA_WIDTH
    ensures HexBit("fc000000", i) == BitOf(Position(i), 5)
  {
    ByDigit(i);
  }

  lemma CheckColumn(i: nat, k: nat)
    requires DATA_WIDTH <= i < CODE_WIDTH && k < 6
    ensures Unit(ECC_WIDTH, k)[i - DATA_WIDTH] == BitOf(Position(i), k)
  {
  }

  lemma Column(i: nat)
    requires i < CODE_WIDTH
    ensures ColumnAgrees(i)
  {
    forall k | 0 <= k < 6 ensures Row(k)[i] == BitOf(Position(i), k) {
      if i < DATA_WIDTH {
        DataColumn(i, k);
      } else {
        CheckColumn(i, k);
      }
    }
  }

  // Bit k of n / 2 is bit k + 1 of n.
  lemma Halving(n: nat)
    requires n < 64
    ensures n / 2 < 32
    ensures forall k :: 0 <= k < 5 ==> BitOf(n / 2, k) == BitOf(n, k + 1)
    ensures BitOf(n, 0) == (n % 2 == 1)
  {
  }

  lemma {:induction false} BitsAgree(m: nat, n: nat, bits: nat)
    requires m < 64 && n < 64 && bits <= 6
    requires m < [1, 2, 4, 8, 16, 32, 64][bits] && n < [1, 2, 4, 8, 16, 32, 64][bits]
    requires forall k :: 0 <= k < bits ==> BitOf(m, k) == BitOf(n, k)
    ensures m == n
    decreases bits
  {
    if bits > 0 {
      Halving(m);
      Halving(n);
      forall k | 0 <= k < bits - 1 ensures BitOf(m / 2, k) == BitOf(n / 2, k) {
        assert BitOf(m, k + 1) == BitOf(n, k + 1);
      }
      BitsAgree(m / 2, n / 2, bits - 1);
      assert BitOf(m, 0) == BitOf(n, 0);
    }
  }

  lemma PositionsDistinct(i: nat, j: nat)
    requires i < CODE_WIDTH && j < CODE_WIDTH && Position(i) == Position(j)
    ensures i == j && Position(i) < 64
  {
  }

  // Two columns that agree in the first six rows are the same column.
  lemma ColumnsDistinct(i: nat, j: nat)
    requires i < CODE_WIDTH && j < CODE_WIDTH
    requires forall k :: 0 <= k < 6 ==> Row(k)[i] == Row(k)[j]
    ensures i == j
  {
    Column(i);
    Column(j);
    PositionsDistinct(i, i);
    PositionsDistinct(j, j);
    BitsAgree(Position(i), Position(j), 6);
    PositionsDistinct(i, j);
  }

  // ---------- Distance ----------

  lemma FlipMovesSyndrome(x: Bits, i: nat, k: nat)
    requires |x| == CODE_WIDTH && i < CODE_WIDTH && k < ECC_WIDTH
    ensures Dot(Row(k), Xor(x, Unit(CODE_WIDTH, i))) == (Dot(Row(k), x) != Row(k)[i])
  {
    DotLinear(Row(k), x, Unit(CODE_WIDTH, i));
    DotUnit(Row(k), i);
  }

  // A word of weight two is the sum of two different unit words.
  lemma TwoBits(x: Bits) returns (i: nat, j: nat)
    requires Weight(x) == 2
    ensures i < |x| && j < |x| && i != j && x == Xor(Unit(|x|, i), Unit(|x|, j))
  {
    i := TakeBit(x);
    var y := Xor(x, Unit(|x|, i));
    j := TakeBit(y);
    WeightZero(Xor(y, Unit(|x|, j)));
    var z := Xor(y, Unit(|x|, j));
    assert forall b :: 0 <= b < |x| ==> !z[b];
    assert x == Xor(Unit(|x|, i), Unit(|x|, j));
  }

  lemma OneBit(x: Bits) returns (i: nat)
    requires Weight(x) == 1
    ensures i < |x| && x == Unit(|x|, i)
  {
    i := TakeBit(x);
    var z := Xor(x, Unit(|x|, i));
    WeightZero(z);
    assert forall b :: 0 <= b < |x| ==> !z[b];
  }

  // A nonzero word orthogonal to the check matrix has at least four set bits.
  lemma CheckedWordIsHeavy(w: Bits)
    requires |w| == CODE_WIDTH && w != Zeros(CODE_WIDTH)
    requires forall k :: 0 <= k < ECC_WIDTH ==> !Dot(Row(k), w)
    ensures Weight(w) >= 4
  {
    WeightZero(w);
    OnesMeaning(w);
    assert !Dot(Row(6), w);
    ParityIsWeight(w);
    if Weight(w) == 2 {
      var i, j := TwoBits(w);
      forall k | 0 <= k < 6 ensures Row(k)[i] == Row(k)[j] {
        assert !Dot(Row(k), w);
        DotUnit(Row(k), i);
        FlipMovesSyndrome(Unit(CODE_WIDTH, i), j, k);
      }
      ColumnsDistinct(i, j);
    }
  }

  /** The codewords of two different data words differ in at least four bits ... */
  lemma CodeDistance(d1: Bits, d2: Bits)
    requires |d1| == |d2| == DATA_WIDTH && d1 != d2
    ensures Weight(Xor(Codeword(d1), Codeword(d2))) >= 4
  {
    var w := Xor(Codeword(d1), Codeword(d2));
    forall k | 0 <= k < ECC_WIDTH ensures !Dot(Row(k), w) {
      DotLinear(Row(k), Codeword(d1), Codeword(d2));
      CodewordChecks(d1, k);
      CodewordChecks(d2, k);
    }
    var b :| 0 <= b < DATA_WIDTH && d1[b] != d2[b];
    assert w[b];
    CheckedWordIsHeavy(w);
  }

  /** The preloads' shortcut for zero words stores what the encoder would give. */
  lemma ZeroShortcut(d: Bits)
    requires |d| == DATA_WIDTH
    ensures Preloaded(d) == Codeword(d)
  {
    var z := Zeros(DATA_WIDTH);
    forall k | 0 <= k < 6 ensures !Checks(z)[k] {
      DotCommutes(z, Mask(k));
      DotZeros(Mask(k));
    }
    assert Checks(z) == Zeros(6);
    assert z + Checks(z) == Zeros(DATA_WIDTH + 6);
    WeightZero(Zeros(DATA_WIDTH + 6));
    ParityIsWeight(Zeros(DATA_WIDTH + 6));
    assert Codeword(z) == Zeros(CODE_WIDTH);
  }

  // ---------- Decoding ----------

  datatype Decoded = Clean(data: Bits) | Corrected(data: Bits) | Uncorrectable

  // Recomputed against stored check bits.
  function Syndrome(c: Bits): (s: Bits)
    requires |c| == CODE_WIDTH
    ensures |s| == 6
  {
    Xor(Checks(c[..DATA_WIDTH]), c[DATA_WIDTH..CODE_WIDTH - 1])
  }

  // The syndrome a flip of bit i alone causes, by the masks.
  function FlipSyndrome(i: nat): (s: Bits)
    requires i < CODE_WIDTH
    ensures |s| == 6
  {
    if i < DATA_WIDTH then seq(6, k requires 0 <= k < 6 => Mask(k)[i])
    else seq(6, k => k == i - DATA_WIDTH)
  }

  function Locate(s: Bits, from: nat): nat
    requires from <= CODE_WIDTH
    decreases CODE_WIDTH - from
  {
    if from == CODE_WIDTH || FlipSyndrome(from) == s then from else Locate(s, from + 1)
  }

  function Decode(c: Bits): Decoded
    requires |c| == CODE_WIDTH
  {
    var s := Syndrome(c);
    if Parity(c) then
      var i := Locate(s, 0);
      if i < CODE_WIDTH then Corrected(Xor(c, Unit(CODE_WIDTH, i))[..DATA_WIDTH]) else Uncorrectable
    else if s == Zeros(6) then Clean(c[..DATA_WIDTH])
    else Uncorrectable
  }

  lemma SyndromeIsDot(c: Bits, k: nat)
    requires |c| == CODE_WIDTH && k < 6
    ensures Syndrome(c)[k] == Dot(Row(k), c)
  {
    RowMeaning(k, c[..DATA_WIDTH], c[DATA_WIDTH..]);
    assert c == c[..DATA_WIDTH] + c[DATA_WIDTH..];
  }

  lemma FlipSyndromeIsColumn(i: nat, k: nat)
    requires i < CODE_WIDTH && k < 6
    ensures FlipSyndrome(i)[k] == Row(k)[i]
  {
  }

  lemma {:induction false} LocateFinds(i: nat, from: nat)
    requires from <= i < CODE_WIDTH
    ensures Locate(FlipSyndrome(i), from) == i
    decreases i - from
  {
    if FlipSyndrome(from) == FlipSyndrome(i) {
      forall k | 0 <= k < 6 ensures Row(k)[i] == Row(k)[from] {
        FlipSyndromeIsColumn(i, k);
        FlipSyndromeIsColumn(from, k);
      }
      ColumnsDistinct(i, from);
    } else {
      LocateFinds(i, from + 1);
    }
  }

  lemma CleanDecodes(d: Bits)
    requires |d| == DATA_WIDTH
    ensures Decode(Codeword(d)) == Clean(d)
  {
    var c := Codeword(d);
    forall k | 0 <= k < 6 ensures !Syndrome(c)[k] {
      SyndromeIsDot(c, k);
      CodewordChecks(d, k);
    }
    CodewordChecks(d, 6);
    OnesMeaning(c);
    assert Syndrome(c) == Zeros(6);
  }

  lemma SingleFlipDecodes(d: Bits, i: nat)
    requires |d| == DATA_WIDTH && i < CODE_WIDTH
    ensures Decode(Xor(Codeword(d), Unit(CODE_WIDTH, i))) == Corrected(d)
  {
    var c := Codeword(d);
    var x := Xor(c, Unit(CODE_WIDTH, i));
    forall k | 0 <= k < 6 ensures Syndrome(x)[k] == FlipSyndrome(i)[k] {
      SyndromeIsDot(x, k);
      CodewordChecks(d, k);
      FlipMovesSyndrome(c, i, k);
      FlipSyndromeIsColumn(i, k);
    }
    assert Syndrome(x) == FlipSyndrome(i);
    CodewordChecks(d, 6);
    FlipMovesSyndrome(c, i, 6);
    OnesMeaning(x);
    LocateFinds(i, 0);
    assert Xor(x, Unit(CODE_WIDTH, i)) == c;
  }

  lemma DoubleFlipDecodes(d: Bits, i: nat, j: nat)
    requires |d| == DATA_WIDTH && i < CODE_WIDTH && j < CODE_WIDTH && i != j
    ensures Decode(Xor(Codeword(d), Xor(Unit(CODE_WIDTH, i), Unit(CODE_WIDTH, j)))) == Uncorrectable
  {
    var c := Codeword(d);
    var y := Xor(c, Unit(CODE_WIDTH, i));
    var x := Xor(y, Unit(CODE_WIDTH, j));
    assert x == Xor(c, Xor(Unit(CODE_WIDTH, i), Unit(CODE_WIDTH, j)));
    CodewordChecks(d, 6);
    FlipMovesSyndrome(c, i, 6);
    FlipMovesSyndrome(y, j, 6);
    OnesMeaning(x);
    if Syndrome(x) == Zeros(6) {
      forall k | 0 <= k < 6 ensures Row(k)[i] == Row(k)[j] {
        SyndromeIsDot(x, k);
        CodewordChecks(d, k);
        FlipMovesSyndrome(c, i, k);
        FlipMovesSyndrome(y, j, k);
      }
      ColumnsDistinct(i, j);
    }
  }

  /** For every data word and every mask of at most two set bits: one flip decodes back to the
      word, two flips are flagged and never miscorrected. */
  lemma FlipsDecode(d: Bits, mask: Bits)
    requires |d| == DATA_WIDTH && |mask| == CODE_WIDTH && Weight(mask) <= 2
    ensures Decode(Xor(Codeword(d), mask)) ==
            match Weight(mask) case 0 => Clean(d) case 1 => Corrected(d) case _ => Uncorrectable
  {
    if Weight(mask) == 0 {
      WeightZero(mask);
      assert Xor(Codeword(d), mask) == Codeword(d);
      CleanDecodes(d);
    } else if Weight(mask) == 1 {
      var i := OneBit(mask);
      SingleFlipDecodes(d, i);
    } else {
      var i, j := TwoBits(mask);
      DoubleFlipDecodes(d, i, j);
    }
  }
}
