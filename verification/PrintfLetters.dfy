/** What each conversion letter prints, read back from the text alone, and which format texts are
    conversions. */
module PrintfLetters {
  import opened Wrappers
  import opened Numerals
  import opened Console
  import opened Printf

  // The text of one directive that starts at argument k.
  function Printed(pad: char, star: bool, width: nat, letter: char, args: nat -> Arg, k: nat): string {
    Output([Conversion(pad, star, width, letter)], args, k)
  }

  function CountOf(pad: char, star: bool, width: nat, letter: char, args: nat -> Arg, k: nat): nat {
    Total([Conversion(pad, star, width, letter)], args, k)
  }

  // A star takes the argument before the one that is printed.
  function Operand(star: bool, args: nat -> Arg, k: nat): Arg {
    if star then args(k + 1) else args(k)
  }

  // The shortest numeral of v.
  predicate Shortest(t: string, base: Base, v: nat) {
    IsNumeral(t, base) && Read(t, base) == v && (t[0] == '0' ==> |t| == 1)
  }

  predicate UpperHex(t: string) {
    forall i :: 0 <= i < |t| ==> '0' <= t[i] <= '9' || 'A' <= t[i] <= 'F'
  }

  // n pad characters, as many as the width asks for, then the shortest decimal of v.
  predicate PaddedDecimal(t: string, n: nat, width: int, pad: char, v: nat) {
    && n < |t| && (forall i :: 0 <= i < n ==> t[i] == pad)
    && Shortest(t[n..], 10, v) && n == if width > |t| - n then width - (|t| - n) else 0
  }

  lemma OneDirective(d: Directive, args: nat -> Arg, k: nat)
    ensures Output([d], args, k) == Text(d, args, k) && Total([d], args, k) == Counted(d, args, k)
  {
    assert [d][1..] == [];
    assert Text(d, args, k) + "" == Text(d, args, k);
  }

  lemma {:induction false} DigitsAreUpper(v: nat)
    ensures UpperHex(Numeral(v, 16))
  {
    if v / 16 != 0 {
      DigitsAreUpper(v / 16);
    }
  }

  lemma NumeralIsShortest(v: nat, base: Base)
    ensures Shortest(Numeral(v, base), base, v)
  {
    NumeralRoundTrip(v, base);
    if Numeral(v, base)[0] == '0' {
      OneDigit(v, base);
    }
  }

  lemma OneDigit(v: nat, base: Base)
    requires v == 0
    ensures |Numeral(v, base)| == 1
  {
  }

  lemma WordAsUnsigned(v: int)
    requires IsInt(v)
    ensures AsUnsigned(v) == v % 0x1_0000_0000
  {
    assert -0x8000_0000 <= v < 0x8000_0000;
    if v < 0 {
      assert v == 0x1_0000_0000 * -1 + (v + 0x1_0000_0000);
    }
  }

  /** %x and %X print the word, unsigned, as the shortest upper-case hexadecimal; all of it counts. */
  lemma HexPrints(pad: char, star: bool, width: nat, letter: char, args: nat -> Arg, k: nat)
    requires letter == 'x' || letter == 'X'
    ensures var t := Printed(pad, star, width, letter, args, k);
            && Shortest(t, 16, Operand(star, args, k).word % 0x1_0000_0000) && UpperHex(t)
            && CountOf(pad, star, width, letter, args, k) == |t|
  {
    var v := Operand(star, args, k).word;
    OneDirective(Conversion(pad, star, width, letter), args, k);
    WordAsUnsigned(v);
    NumeralIsShortest(AsUnsigned(v), 16);
    DigitsAreUpper(AsUnsigned(v));
  }

  /** %o prints it as the shortest octal, and nothing for zero. */
  lemma OctalPrints(pad: char, star: bool, width: nat, args: nat -> Arg, k: nat)
    ensures var t, v := Printed(pad, star, width, 'o', args, k), Operand(star, args, k).word;
            && (if v == 0 then t == "" else Shortest(t, 8, v % 0x1_0000_0000))
            && CountOf(pad, star, width, 'o', args, k) == |t|
  {
    var v := Operand(star, args, k).word;
    OneDirective(Conversion(pad, star, width, 'o'), args, k);
    WordAsUnsigned(v);
    NumeralIsShortest(AsUnsigned(v), 8);
  }

  lemma {:induction false} RepeatIsPad(pad: char, n: int, i: nat)
    requires i < n
    ensures Repeat(pad, n)[i] == pad
  {
    if i < n - 1 {
      RepeatIsPad(pad, n - 1, i);
    }
  }

  lemma FieldIsPadded(v: nat, width: int, pad: char)
    ensures var t, d := Field(Decimal(v), width, pad), Decimal(v);
            |t| >= |d| && PaddedDecimal(t, |t| - |d|, width, pad, v)
  {
    var d, t := Decimal(v), Field(Decimal(v), width, pad);
    DecimalIsNumeral(v);
    NumeralIsShortest(v, 10);
    var n := |t| - |d|;
    assert t[n..] == d;
    forall i | 0 <= i < n ensures t[i] == pad {
      RepeatIsPad(pad, width - |d|, i);
    }
  }

  /** %u prints pad characters up to the width and the shortest decimal of the unsigned word; the
      padding does not count. */
  lemma UnsignedPrints(pad: char, star: bool, width: nat, args: nat -> Arg, k: nat) returns (n: nat)
    ensures var t, v := Printed(pad, star, width, 'u', args, k), Operand(star, args, k).word;
            && PaddedDecimal(t, n, width, pad, v % 0x1_0000_0000)
            && CountOf(pad, star, width, 'u', args, k) == |t| - n
  {
    var v := Operand(star, args, k).word;
    OneDirective(Conversion(pad, star, width, 'u'), args, k);
    WordAsUnsigned(v);
    FieldIsPadded(AsUnsigned(v), width, pad);
    n := |Field(Decimal(AsUnsigned(v)), width, pad)| - |Decimal(AsUnsigned(v))|;
    NoPadding(Decimal(AsUnsigned(v)), 0, ' ');
  }

  lemma NoPadding(digits: string, width: int, pad: char)
    requires width <= 0
    ensures Field(digits, width, pad) == digits
  {
  }

  /** %d prints a minus sign if there is one, the padding, and the shortest decimal of the magnitude,
      for every word but INT_MIN, in at least width columns; the padding does not count. */
  lemma SignedPrints(pad: char, star: bool, width: nat, args: nat -> Arg, k: nat) returns (n: nat)
    requires Operand(star, args, k).word != INT_MIN
    ensures var t, v := Printed(pad, star, width, 'd', args, k), Operand(star, args, k).word;
            && (if v >= 0 then PaddedDecimal(t, n, width, pad, v)
                else t != "" && t[0] == '-' && PaddedDecimal(t[1..], n, width - 1, pad, -v))
            && CountOf(pad, star, width, 'd', args, k) == |t| - n
  {
    var v := Operand(star, args, k).word;
    OneDirective(Conversion(pad, star, width, 'd'), args, k);
    if v >= 0 {
      FieldIsPadded(v, width, pad);
      NoPadding(Decimal(v), 0, pad);
      n := |Field(Decimal(v), width, pad)| - |Decimal(v)|;
    } else {
      n := NegativePrints(v, -v, width, pad);
    }
  }

  lemma NegativePrints(v: int, m: nat, width: nat, pad: char) returns (n: nat)
    requires INT_MIN < v < 0 && m == Negate(v)
    ensures var t := SignedText(v, width, pad);
            && t != "" && t[0] == '-' && PaddedDecimal(t[1..], n, width - 1, pad, m)
            && |SignedText(v, 0, pad)| == |t| - n
  {
    var d := Decimal(m);
    var field := Field(d, width - 1, pad);
    FieldIsPadded(m, width - 1, pad);
    NoPadding(d, -1, pad);
    MinusFirst(field);
    n := |field| - |d|;
  }

  lemma MinusFirst(t: string)
    ensures ("-" + t)[0] == '-' && ("-" + t)[1..] == t
  {
  }

  /** %c prints the character whose code is the word modulo 256, %s the string, and a letter that is no
      conversion nothing. */
  lemma OthersPrint(pad: char, star: bool, width: nat, letter: char, args: nat -> Arg, k: nat)
    ensures letter == 'c' ==>
              Printed(pad, star, width, letter, args, k) == [(Operand(star, args, k).word % 256) as char]
    ensures letter == 's' ==> Printed(pad, star, width, letter, args, k) == Operand(star, args, k).text
    ensures !IsConversion(letter) ==> Printed(pad, star, width, letter, args, k) == ""
    ensures letter == 'c' || letter == 's' || !IsConversion(letter) ==>
              CountOf(pad, star, width, letter, args, k) == |Printed(pad, star, width, letter, args, k)|
  {
    OneDirective(Conversion(pad, star, width, letter), args, k);
  }

  lemma PlainPrints(c: char, args: nat -> Arg, k: nat)
    ensures Output([Literal(c)], args, k) == [c] && Total([Literal(c)], args, k) == 1
    ensures Output([Percent], args, k) == "%" && Total([Percent], args, k) == 0
  {
    OneDirective(Literal(c), args, k);
    OneDirective(Percent, args, k);
  }

  // ---------- Arguments ----------

  predicate IsConversion(letter: char) {
    || letter == 'd' || letter == 'u' || letter == 'x' || letter == 'X' || letter == 'o'
    || letter == 'c' || letter == 's'
  }

  // Arguments that a list of directives uses up: one for each star and one for each conversion.
  function Used(ds: seq<Directive>): nat {
    if ds == [] then 0
    else
      var d := ds[|ds| - 1];
      Used(ds[..|ds| - 1])
      + (if d.Conversion? && d.star then 1 else 0) + if d.Conversion? && IsConversion(d.letter) then 1 else 0
  }

  // Pieces of text, and of count, whatever each is, one for each directive.
  function Joined(ds: seq<Directive>, piece: (Directive, nat) -> string, k: nat): string {
    if ds == [] then "" else piece(ds[0], k) + Joined(ds[1..], piece, k + Takes(ds[0]))
  }

  function Summed(ds: seq<Directive>, piece: (Directive, nat) -> nat, k: nat): nat {
    if ds == [] then 0 else piece(ds[0], k) + Summed(ds[1..], piece, k + Takes(ds[0]))
  }

  lemma {:induction false} JoinedSplits(a: seq<Directive>, b: seq<Directive>, piece: (Directive, nat) -> string, k: nat)
    ensures Joined(a + b, piece, k) == Joined(a, piece, k) + Joined(b, piece, k + Used(a))
    decreases |a|
  {
    if a == [] {
      assert a + b == b;
    } else {
      UsedFront(a);
      assert (a + b)[1..] == a[1..] + b;
      var later := k + Takes(a[0]);
      JoinedSplits(a[1..], b, piece, later);
      Associate(piece(a[0], k), Joined(a[1..], piece, later), Joined(b, piece, k + Used(a)));
    }
  }

  lemma {:induction false} SummedSplits(a: seq<Directive>, b: seq<Directive>, piece: (Directive, nat) -> nat, k: nat)
    ensures Summed(a + b, piece, k) == Summed(a, piece, k) + Summed(b, piece, k + Used(a))
    decreases |a|
  {
    if a == [] {
      assert a + b == b;
    } else {
      UsedFront(a);
      assert (a + b)[1..] == a[1..] + b;
      SummedSplits(a[1..], b, piece, k + Takes(a[0]));
    }
  }

  function TextOf(args: nat -> Arg): (Directive, nat) -> string {
    (d: Directive, i: nat) => Text(d, args, i)
  }

  function CountedOf(args: nat -> Arg): (Directive, nat) -> nat {
    (d: Directive, i: nat) => Counted(d, args, i)
  }

  lemma {:induction false} OutputIsJoined(ds: seq<Directive>, args: nat -> Arg, k: nat)
    ensures Output(ds, args, k) == Joined(ds, TextOf(args), k)
    ensures Total(ds, args, k) == Summed(ds, CountedOf(args), k)
  {
    if ds != [] {
      OutputIsJoined(ds[1..], args, k + Takes(ds[0]));
    }
  }

  /** Directives print one after the other, each from the argument after those used before it ... */
  lemma ArgumentsInOrder(a: seq<Directive>, b: seq<Directive>, args: nat -> Arg, k: nat, next: nat)
    requires next == k + Used(a)
    ensures Output(a + b, args, k) == Output(a, args, k) + Output(b, args, next)
  {
    calc {
      Output(a + b, args, k);
    == { OutputIsJoined(a + b, args, k); }
      Joined(a + b, TextOf(args), k);
    == { JoinedSplits(a, b, TextOf(args), k); }
      Joined(a, TextOf(args), k) + Joined(b, TextOf(args), next);
    == { OutputIsJoined(a, args, k); OutputIsJoined(b, args, next); }
      Output(a, args, k) + Output(b, args, next);
    }
  }

  /** ... and their counts add up. */
  lemma CountsAddUp(a: seq<Directive>, b: seq<Directive>, args: nat -> Arg, k: nat, next: nat)
    requires next == k + Used(a)
    ensures Total(a + b, args, k) == Total(a, args, k) + Total(b, args, next)
  {
    calc {
      Total(a + b, args, k);
    == { OutputIsJoined(a + b, args, k); }
      Summed(a + b, CountedOf(args), k);
    == { SummedSplits(a, b, CountedOf(args), k); }
      Summed(a, CountedOf(args), k) + Summed(b, CountedOf(args), next);
    == { OutputIsJoined(a, args, k); OutputIsJoined(b, args, next); }
      Total(a, args, k) + Total(b, args, next);
    }
  }

  lemma {:induction false} UsedFront(ds: seq<Directive>)
    requires ds != []
    ensures Used(ds) == Takes(ds[0]) + Used(ds[1..])
    decreases |ds|
  {
    if |ds| > 1 {
      UsedFront(ds[..|ds| - 1]);
      assert ds[1..][..|ds| - 2] == ds[..|ds| - 1][1..];
    } else {
      assert ds[..0] == [] == ds[1..];
    }
  }

  // ---------- Which texts are conversions ----------

  // Any zeros, perhaps a dash, a star or digits; a width that starts with a zero needs the dash.
  predicate HeadOk(zeros: nat, dash: bool, star: bool, digits: string) {
    && (digits == "" || IsNumeral(digits, 10)) && (star ==> digits == "")
    && (digits != "" && digits[0] == '0' ==> dash)
  }

  function Head(zeros: nat, dash: bool, star: bool, digits: string): string {
    Repeat('0', zeros) + ((if dash then "-" else "") + (if star then "*" else digits))
  }

  // What comes next is not taken for more of the head.
  predicate EndsHead(rest: string, dash: bool, star: bool, digits: string) {
    && (!star ==> !AtDigit(rest))
    && (!star && digits == "" ==> !At(rest, '*') && !At(rest, '0') && (!dash ==> !At(rest, '-')))
  }

  lemma {:induction false} ZerosSkipped(n: nat, t: string)
    requires !At(t, '0')
    ensures AfterZeros(Repeat('0', n) + t) == t
    decreases n
  {
    if n == 0 {
      assert Repeat('0', 0) + t == t;
    } else {
      RepeatFront('0', n);
      assert (Repeat('0', n) + t)[1..] == Repeat('0', n - 1) + t;
      ZerosSkipped(n - 1, t);
    }
  }

  lemma WidthPart(star: bool, digits: string, rest: string)
    requires (digits == "" || IsNumeral(digits, 10)) && (star ==> digits == "") && (!star ==> !AtDigit(rest))
    requires !star && digits == "" ==> !At(rest, '*')
    ensures var s := (if star then "*" else digits) + rest;
            && At(s, '*') == star && AfterWidth(s) == rest && Width(0, s) == Read(digits, 10)
  {
    if star {
      assert ("*" + rest)[1..] == rest;
    } else {
      DigitsRead(0, digits, rest);
      ShiftedZero(|digits|);
      if digits == "" {
        assert "" + rest == rest;
      } else {
        assert IsDigit(digits[0], 10);
      }
    }
  }

  lemma FlagPart(zeros: nat, dash: bool, star: bool, digits: string, rest: string)
    requires HeadOk(zeros, dash, star, digits) && EndsHead(rest, dash, star, digits)
    ensures AfterFlags(Head(zeros, dash, star, digits) + rest) == (if star then "*" else digits) + rest
    ensures At(Head(zeros, dash, star, digits) + rest, '0') <==> zeros > 0
  {
    var width := if star then "*" else digits;
    var mark := if dash then "-" else "";
    var t := mark + (width + rest);
    Associate(mark, width, rest);
    Associate(Repeat('0', zeros), mark + width, rest);
    assert Head(zeros, dash, star, digits) + rest == Repeat('0', zeros) + t;
    if digits != "" {
      assert IsDigit(digits[0], 10);
    }
    ZerosSkipped(zeros, t);
    if dash {
      assert t[1..] == width + rest;
    } else {
      assert t == width + rest;
    }
    RepeatFront('0', zeros);
  }

  /** After %, every head followed by a letter is that conversion, with the pad from the zeros, the width
      from the digits and the dash without effect ... */
  lemma AnyConversion(zeros: nat, dash: bool, star: bool, digits: string, letter: char, tail: string)
    requires HeadOk(zeros, dash, star, digits) && EndsHead([letter] + tail, dash, star, digits)
    requires Head(zeros, dash, star, digits) == "" ==> letter != '%'
    ensures Next("%" + (Head(zeros, dash, star, digits) + ([letter] + tail)))
         == Found(Conversion(if zeros > 0 then '0' else ' ', star, Read(digits, 10), letter), tail)
  {
    var rest := [letter] + tail;
    var s := Head(zeros, dash, star, digits) + rest;
    FlagPart(zeros, dash, star, digits, rest);
    WidthPart(star, digits, rest);
    assert ("%" + s)[1..] == s && rest[1..] == tail;
    FirstOfHead(zeros, dash, star, digits, rest);
  }

  lemma FirstOfHead(zeros: nat, dash: bool, star: bool, digits: string, rest: string)
    requires HeadOk(zeros, dash, star, digits)
    ensures var h := Head(zeros, dash, star, digits); h != "" ==> (h + rest)[0] == h[0] != '%'
    ensures Head(zeros, dash, star, digits) == "" ==> Head(zeros, dash, star, digits) + rest == rest
  {
    RepeatFront('0', zeros);
    if digits != "" {
      assert IsDigit(digits[0], 10);
    }
  }

  /** ... and a format that ends right after a head is cut off, one that ends after the % is not. */
  lemma EndOfFormat(zeros: nat, dash: bool, star: bool, digits: string)
    requires HeadOk(zeros, dash, star, digits)
    ensures var h := Head(zeros, dash, star, digits);
            Next("%" + h) == Stop(if h == "" then LonePercent else CutOff)
  {
    var h := Head(zeros, dash, star, digits);
    assert h + "" == h && ("%" + h)[1..] == h;
    FlagPart(zeros, dash, star, digits, "");
    WidthPart(star, digits, "");
    FirstOfHead(zeros, dash, star, digits, "");
  }

  lemma ReadsAsFF(t: string)
    requires Shortest(t, 16, 255)
    ensures t == "FF"
  {
    ReadSnoc("", 15, 16);
    ReadSnoc("F", 15, 16);
    assert [] + "F" == "F" && "F" + "F" == "FF";
    NumeralIsCanonical(t, 16);
    NumeralIsCanonical("FF", 16);
  }

  /** For one: a format of %x alone prints 255 as FF and counts two. */
  lemma HexOf255(args: nat -> Arg)
    requires args(0).word == 255
    ensures Parse("%x") == Parsed([Conversion(' ', false, 0, 'x')], Terminator)
    ensures Output(Parse("%x").directives, args, 0) == "FF" && Total(Parse("%x").directives, args, 0) == 2
  {
    ParsesHex();
    HexPrints(' ', false, 0, 'x', args, 0);
    ReadsAsFF(Printed(' ', false, 0, 'x', args, 0));
  }

  lemma ParsesHex()
    ensures Parse("%x") == Parsed([Conversion(' ', false, 0, 'x')], Terminator)
  {
    AnyConversion(0, false, false, "", 'x', "");
    assert "%" + (Head(0, false, false, "") + (['x'] + "")) == "%x";
    ParseFirst("%x");
    ParseFirst("");
  }
}
