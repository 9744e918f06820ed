/** What the number printers mean: numerals in a base, and reading them back. */
module Numerals {
  import opened Wrappers

  const INT_MIN: int := -0x8000_0000
  const UINT: int := 0x1_0000_0000

  type Base = b: nat | b == 8 || b == 10 || b == 16 witness 10

  predicate IsInt(v: int) {
    INT_MIN <= v < -INT_MIN
  }

  // Two's complement negation of an int.
  function Negate(v: int): int {
    if v == INT_MIN then v else -v
  }

  // C's division and remainder by ten, truncating toward zero.
  function TruncDiv10(v: int): int {
    if v >= 0 then v / 10 else -(-v / 10)
  }

  function TruncMod10(v: int): (r: int)
    ensures -10 < r < 10
  {
    v - 10 * TruncDiv10(v)
  }

  // '0' + d; for a negative remainder a character below '0'.
  function DecimalChar(d: int): char
    requires -10 < d < 10
  {
    ('0' as int + d) as char
  }

  // What the divide-by-ten loop collects, most significant digit first.
  function Decimal(v: int): (s: string)
    ensures |s| > 0
    decreases if v < 0 then -v else v
  {
    (if TruncDiv10(v) == 0 then "" else Decimal(TruncDiv10(v))) + [DecimalChar(TruncMod10(v))]
  }

  // ---------- Numerals ----------

  function DigitChar(d: nat): char
    requires d < 16
  {
    if d < 10 then '0' + d as char else 'A' + (d - 10) as char
  }

  function DigitValue(c: char): Option<nat> {
    if '0' <= c <= '9' then Some((c - '0') as nat)
    else if 'A' <= c <= 'F' then Some((c - 'A') as nat + 10)
    else None
  }

  predicate IsDigit(c: char, base: Base) {
    DigitValue(c).Some? && DigitValue(c).value < base
  }

  predicate IsNumeral(s: string, base: Base) {
    s != "" && forall i :: 0 <= i < |s| ==> IsDigit(s[i], base)
  }

  function Read(s: string, base: Base): nat
    requires s == "" || IsNumeral(s, base)
  {
    if s == "" then 0
    else
      assert IsDigit(s[|s| - 1], base);
      base * Read(s[..|s| - 1], base) + DigitValue(s[|s| - 1]).value
  }

  function Numeral(v: nat, base: Base): (s: string) {
    (if v / base == 0 then "" else Numeral(v / base, base)) + [DigitChar(v % base)]
  }

  lemma CharRoundTrip(c: char, base: Base)
    requires IsDigit(c, base)
    ensures DigitValue(c).value < 16 && DigitChar(DigitValue(c).value) == c
  {
  }

  lemma ReadSnoc(s: string, d: nat, base: Base)
    requires d < base && (s == "" || IsNumeral(s, base))
    ensures IsNumeral(s + [DigitChar(d)], base)
    ensures Read(s + [DigitChar(d)], base) == base * Read(s, base) + d
  {
  }

  lemma Recompose(v: nat, base: Base)
    ensures v == base * (v / base) + v % base && v % base < base
    ensures v / base != 0 ==> v != 0
  {
  }

  /** A numeral reads back as its number and has no leading zero. */
  lemma {:induction false} NumeralRoundTrip(v: nat, base: Base)
    ensures IsNumeral(Numeral(v, base), base) && Read(Numeral(v, base), base) == v
    ensures Numeral(v, base)[0] == '0' <==> v == 0
  {
    Recompose(v, base);
    if v / base != 0 {
      NumeralRoundTrip(v / base, base);
      ReadSnoc(Numeral(v / base, base), v % base, base);
    } else {
      ReadSnoc("", v % base, base);
    }
  }

  lemma NumeralSnoc(q: nat, d: nat, base: Base)
    requires d < base
    ensures Numeral(base * q + d, base) == (if q == 0 then "" else Numeral(q, base)) + [DigitChar(d)]
  {
    QuotientOf(q, d, base);
  }

  lemma QuotientOf(q: nat, d: nat, base: Base)
    requires d < base
    ensures (base * q + d) / base == q && (base * q + d) % base == d
  {
  }

  lemma CanonicalStep(head: string, last: char, base: Base)
    requires IsDigit(last, base)
    requires head == "" || (IsNumeral(head, base) && Read(head, base) != 0 && Numeral(Read(head, base), base) == head)
    ensures IsNumeral(head + [last], base) && Numeral(Read(head + [last], base), base) == head + [last]
  {
    CharRoundTrip(last, base);
    ReadSnoc(head, DigitValue(last).value, base);
    NumeralSnoc(Read(head, base), DigitValue(last).value, base);
    if head == "" {
      assert head + [last] == [last];
    }
  }

  lemma HeadIsNumeral(s: string, base: Base)
    requires IsNumeral(s, base)
    ensures |s| > 1 ==> IsNumeral(s[..|s| - 1], base) && s[..|s| - 1][0] == s[0]
    ensures IsDigit(s[|s| - 1], base)
  {
  }

  /** ... and every string of digits without a leading zero is the numeral of what it reads as. */
  lemma {:induction false} NumeralIsCanonical(s: string, base: Base)
    requires IsNumeral(s, base) && (s[0] == '0' ==> |s| == 1)
    ensures Numeral(Read(s, base), base) == s
    decreases |s|
  {
    HeadIsNumeral(s, base);
    var head, last := s[..|s| - 1], s[|s| - 1];
    if |s| > 1 {
      NumeralIsCanonical(head, base);
      NumeralRoundTrip(Read(head, base), base);
    }
    CanonicalStep(head, last, base);
    assert s == head + [last];
  }

  function Power10(n: nat): nat {
    if n == 0 then 1 else 10 * Power10(n - 1)
  }

  lemma {:induction false} DecimalIsNumeral(v: nat)
    ensures Decimal(v) == Numeral(v, 10)
  {
    if v / 10 != 0 {
      DecimalIsNumeral(v / 10);
    }
  }

  // ---------- The printed fields ----------

  function Repeat(c: char, n: int): (s: string)
    ensures |s| == if n < 0 then 0 else n
  {
    if n <= 0 then "" else Repeat(c, n - 1) + [c]
  }

  // Padded on the left to width columns.
  function Field(digits: string, width: int, pad: char): string {
    Repeat(pad, width - |digits|) + digits
  }

  function UnsignedText(v: nat, width: int, pad: char): string {
    Field(Decimal(v), width, pad)
  }

  // The sign stands before the padding and takes one column.
  function SignedText(v: int, width: int, pad: char): string {
    if v < 0 then "-" + Field(Decimal(Negate(v)), width - 1, pad) else Field(Decimal(v), width, pad)
  }

  function AsUnsigned(v: int): nat
    requires IsInt(v)
  {
    if v < 0 then v + UINT else v
  }

  function OctalText(v: nat): string {
    if v == 0 then "" else Numeral(v, 8)
  }

  function SkipBlanks(s: string): string {
    if s != "" && s[0] == ' ' then SkipBlanks(s[1..]) else s
  }

  function ScanUnsigned(s: string, base: Base): Option<nat> {
    var t := SkipBlanks(s);
    if IsNumeral(t, base) then Some(Read(t, base)) else None
  }

  function ScanSigned(s: string): Option<int> {
    var negative := s != "" && s[0] == '-';
    var n := ScanUnsigned(if negative then s[1..] else s, 10);
    if n.None? then None
    else
      var value: int := n.value;
      Some(if negative then -value else value)
  }

  lemma {:induction false} RepeatFront(c: char, n: int)
    ensures n > 0 ==> Repeat(c, n) == [c] + Repeat(c, n - 1)
  {
    if n > 1 {
      RepeatFront(c, n - 1);
    }
  }

  lemma {:induction false} BlanksSkipped(n: int, s: string)
    requires s != "" && s[0] != ' '
    ensures SkipBlanks(Repeat(' ', n) + s) == s
    decreases n
  {
    if n > 0 {
      RepeatFront(' ', n);
      assert (Repeat(' ', n) + s)[1..] == Repeat(' ', n - 1) + s;
      BlanksSkipped(n - 1, s);
    } else {
      assert Repeat(' ', n) + s == s;
    }
  }

  lemma {:induction false} ZerosIgnored(n: int, s: string, base: Base)
    requires IsNumeral(s, base)
    ensures IsNumeral(Repeat('0', n) + s, base) && Read(Repeat('0', n) + s, base) == Read(s, base)
    decreases |s|
  {
    var t := Repeat('0', n) + s;
    ZerosAreDigits(n, base);
    assert t[..|t| - 1] == Repeat('0', n) + s[..|s| - 1];
    if |s| > 1 {
      ZerosIgnored(n, s[..|s| - 1], base);
    } else {
      ZerosRead(n, base);
      assert Repeat('0', n) + s[..|s| - 1] == Repeat('0', n);
    }
  }

  lemma {:induction false} ZerosAreDigits(n: int, base: Base)
    ensures Repeat('0', n) == "" || IsNumeral(Repeat('0', n), base)
  {
    if n > 0 {
      ZerosAreDigits(n - 1, base);
    }
  }

  lemma {:induction false} ZerosRead(n: int, base: Base)
    requires Repeat('0', n) == "" || IsNumeral(Repeat('0', n), base)
    ensures Read(Repeat('0', n), base) == 0
  {
    if n > 0 {
      ZerosAreDigits(n - 1, base);
      ZerosRead(n - 1, base);
      assert Repeat('0', n)[..n - 1] == Repeat('0', n - 1);
    }
  }

  lemma PaddedNumeral(v: nat, n: int, pad: char, base: Base)
    requires pad == ' ' || pad == '0'
    ensures ScanUnsigned(Repeat(pad, n) + Numeral(v, base), base) == Some(v)
    ensures var s := Repeat(pad, n) + Numeral(v, base); s[0] != '-'
  {
    var s := Numeral(v, base);
    NumeralRoundTrip(v, base);
    assert IsDigit(s[0], base);
    if pad == ' ' {
      BlanksSkipped(n, s);
    } else {
      ZerosIgnored(n, s, base);
      var t := Repeat('0', n) + s;
      assert IsDigit(t[0], base);
    }
    RepeatFront(pad, n);
  }

  /** An unsigned decimal reads back for every value, padding and width ... */
  lemma UnsignedRoundTrip(v: nat, width: int, pad: char)
    requires pad == ' ' || pad == '0'
    ensures ScanUnsigned(UnsignedText(v, width, pad), 10) == Some(v)
    ensures |UnsignedText(v, width, pad)| == if width > |Numeral(v, 10)| then width else |Numeral(v, 10)|
  {
    DecimalIsNumeral(v);
    FieldScans(v, width, pad);
  }

  /** ... a signed one reads back exactly if it is not INT_MIN, whose negation is itself ... */
  lemma SignedRoundTrip(v: int, width: int, pad: char)
    requires IsInt(v) && (pad == ' ' || pad == '0')
    ensures ScanSigned(SignedText(v, width, pad)) == Some(v) <==> v != INT_MIN
    ensures var n := |Decimal(if v < 0 then Negate(v) else v)| + if v < 0 then 1 else 0;
            |SignedText(v, width, pad)| == if width > n then width else n
  {
    if v >= 0 {
      FieldScans(v, width, pad);
    } else if v == INT_MIN {
      IntMinUnreadable(v, width, pad);
    } else {
      NegativeRoundTrip(v, -v, width, pad);
    }
  }

  lemma ScanNegative(t: string)
    ensures ScanUnsigned(t, 10).None? ==> ScanSigned("-" + t) == None
    ensures ScanUnsigned(t, 10).Some? ==>
              ScanSigned("-" + t).Some? && ScanSigned("-" + t).value + ScanUnsigned(t, 10).value == 0
  {
  }

  lemma FieldScans(v: nat, width: int, pad: char)
    requires pad == ' ' || pad == '0'
    ensures ScanUnsigned(Field(Decimal(v), width, pad), 10) == Some(v)
    ensures Field(Decimal(v), width, pad)[0] != '-'
  {
    DecimalIsNumeral(v);
    PaddedNumeral(v, width - |Numeral(v, 10)|, pad, 10);
  }

  lemma NegativeRoundTrip(v: int, n: nat, width: int, pad: char)
    requires INT_MIN < v < 0 && n == Negate(v) && (pad == ' ' || pad == '0')
    ensures ScanSigned(SignedText(v, width, pad)) == Some(v)
  {
    FieldScans(n, width - 1, pad);
    ScanNegative(Field(Decimal(n), width - 1, pad));
  }

  lemma IntMinText(v: int)
    requires v == INT_MIN
    ensures Decimal(v)[|Decimal(v)| - 1] == '('
  {
  }

  lemma BadLastCharacter(t: string)
    requires t != "" && t[|t| - 1] == '('
    ensures ScanUnsigned(t, 10) == None
  {
    SkipKeepsLast(t);
    var u := SkipBlanks(t);
    assert !IsDigit(u[|u| - 1], 10);
  }

  lemma IntMinUnreadable(v: int, width: int, pad: char)
    requires v == INT_MIN
    ensures ScanSigned(SignedText(v, width, pad)) == None
  {
    IntMinText(v);
    BadLastCharacter(Field(Decimal(v), width - 1, pad));
    ScanNegative(Field(Decimal(v), width - 1, pad));
  }

  lemma {:induction false} SkipKeepsLast(s: string)
    requires s != "" && s[|s| - 1] != ' '
    ensures SkipBlanks(s) != "" && SkipBlanks(s)[|SkipBlanks(s)| - 1] == s[|s| - 1]
    decreases |s|
  {
    if s[0] == ' ' {
      SkipKeepsLast(s[1..]);
    }
  }

  /** ... hexadecimal reads back always, octal exactly if the value is not zero: zero prints nothing. */
  lemma HexAndOctalRoundTrip(v: int)
    requires IsInt(v)
    ensures ScanUnsigned(Numeral(AsUnsigned(v), 16), 16) == Some(AsUnsigned(v))
    ensures ScanUnsigned(OctalText(AsUnsigned(v)), 8) == Some(AsUnsigned(v)) <==> v != 0
  {
    var u := AsUnsigned(v);
    PaddedNumeral(u, 0, '0', 16);
    assert Repeat('0', 0) + Numeral(u, 16) == Numeral(u, 16);
    PaddedNumeral(u, 0, '0', 8);
    assert Repeat('0', 0) + Numeral(u, 8) == Numeral(u, 8);
  }
}
