/** The format language and the interpreter that walks it with one moving pointer. */
module Printf {
  import opened Numerals
  import opened Console

  type Int32 = v: int | IsInt(v)

  // An argument as va_arg reads it: as a word, or as the string it points to.
  datatype Arg = Arg(word: Int32, text: string)

  // ---------- The language ----------

  datatype Directive =
    | Literal(c: char)
    | Percent
    | Conversion(pad: char, star: bool, width: nat, letter: char)

  // How a format ends: at its terminator, at a lone %, or inside a directive after flags or width.
  datatype Ending = Terminator | LonePercent | CutOff

  datatype Parsed = Parsed(directives: seq<Directive>, ending: Ending)

  // A pointer into a format is the string it points at; "" is its terminator.
  predicate At(s: string, c: char) {
    s != "" && s[0] == c
  }

  predicate AtDigit(s: string) {
    s != "" && '0' <= s[0] <= '9'
  }

  function AfterZeros(s: string): (t: string)
    ensures |t| <= |s| && !At(t, '0')
  {
    if At(s, '0') then AfterZeros(s[1..]) else s
  }

  function AfterFlags(s: string): (t: string)
    ensures |t| <= |s|
  {
    var t := AfterZeros(s);
    if At(t, '-') then t[1..] else t
  }

  function AfterDigits(s: string): (t: string)
    ensures |t| <= |s| && !AtDigit(t)
  {
    if AtDigit(s) then AfterDigits(s[1..]) else s
  }

  function AfterWidth(s: string): (t: string)
    ensures |t| <= |s|
  {
    if At(s, '*') then s[1..] else AfterDigits(s)
  }

  function Width(w: nat, s: string): nat
    decreases |s|
  {
    if AtDigit(s) then Width(w * 10 + (s[0] - '0') as nat, s[1..]) else w
  }

  // The first directive of a format and what follows it, or how the format ends.
  datatype First = Found(directive: Directive, rest: string) | Stop(ending: Ending)

  function Next(s: string): (f: First)
    ensures f.Found? ==> |f.rest| < |s|
  {
    if s == "" then Stop(Terminator)
    else if s[0] != '%' then Found(Literal(s[0]), s[1..])
    else if s[1..] == "" then Stop(LonePercent)
    else if s[1] == '%' then Found(Percent, s[2..])
    else NextConversion(s[1..])
  }

  // What follows a %.
  function NextConversion(s: string): (f: First)
    requires s != ""
    ensures f.Found? ==> |f.rest| < |s|
  {
    var flags := AfterFlags(s);
    var rest := AfterWidth(flags);
    if rest == "" then Stop(CutOff)
    else Found(Conversion(if s[0] == '0' then '0' else ' ', At(flags, '*'), Width(0, flags), rest[0]), rest[1..])
  }

  function Parse(s: string): Parsed
    decreases |s|
  {
    match Next(s)
    case Stop(ending) => Parsed([], ending)
    case Found(d, rest) => var p := Parse(rest); p.(directives := [d] + p.directives)
  }

  // ---------- Its meaning ----------

  predicate TakesOne(letter: char) {
    letter == 'd' || letter == 'u' || letter == 'x' || letter == 'X' || letter == 'o' || letter == 'c' || letter == 's'
  }

  function Takes(d: Directive): nat {
    if !d.Conversion? then 0 else (if d.star then 1 else 0) + if TakesOne(d.letter) then 1 else 0
  }

  // The last argument a directive takes is the one it prints.
  function Text(d: Directive, args: nat -> Arg, k: nat): string {
    match d
    case Literal(c) => [c]
    case Percent => "%"
    case Conversion(pad, star, width, letter) => ConversionText(pad, width, letter, args(if star then k + 1 else k))
  }

  function ConversionText(pad: char, width: nat, letter: char, arg: Arg): string {
    match letter
    case 'd' => SignedText(arg.word, width, pad)
    case 'u' => UnsignedText(AsUnsigned(arg.word), width, pad)
    case 'x' => Numeral(AsUnsigned(arg.word), 16)
    case 'X' => Numeral(AsUnsigned(arg.word), 16)
    case 'o' => OctalText(AsUnsigned(arg.word))
    case 'c' => [(arg.word % 256) as char]
    case 's' => arg.text
    case _ => ""
  }

  // The count returned for a directive: a conversion without its padding, and nothing for %%.
  function Counted(d: Directive, args: nat -> Arg, k: nat): nat {
    match d
    case Literal(_) => 1
    case Percent => 0
    case Conversion(pad, star, width, letter) => |ConversionText(pad, 0, letter, args(if star then k + 1 else k))|
  }

  function Output(ds: seq<Directive>, args: nat -> Arg, k: nat): string {
    if ds == [] then "" else Text(ds[0], args, k) + Output(ds[1..], args, k + Takes(ds[0]))
  }

  function Total(ds: seq<Directive>, args: nat -> Arg, k: nat): nat {
    if ds == [] then 0 else Counted(ds[0], args, k) + Total(ds[1..], args, k + Takes(ds[0]))
  }

  // ---------- Accounting ----------

  function Missing(width: int, printed: int): nat {
    if width > printed then width - printed else 0
  }

  // The padding characters of a decimal conversion.
  function Padding(d: Directive, args: nat -> Arg, k: nat): nat {
    if d.Conversion? && (d.letter == 'd' || d.letter == 'u') then Missing(d.width, Counted(d, args, k)) else 0
  }

  function Paddings(ds: seq<Directive>, args: nat -> Arg, k: nat): nat {
    if ds == [] then 0 else Padding(ds[0], args, k) + Paddings(ds[1..], args, k + Takes(ds[0]))
  }

  function Percents(ds: seq<Directive>): nat {
    if ds == [] then 0 else (if ds[0].Percent? then 1 else 0) + Percents(ds[1..])
  }

  lemma DirectiveAccounting(d: Directive, args: nat -> Arg, k: nat)
    ensures |Text(d, args, k)| == Counted(d, args, k) + Padding(d, args, k) + if d.Percent? then 1 else 0
  {
  }

  /** The returned count, the padding characters and the %% escapes make up everything written. */
  lemma {:induction false} Accounting(ds: seq<Directive>, args: nat -> Arg, k: nat)
    ensures |Output(ds, args, k)| == Total(ds, args, k) + Paddings(ds, args, k) + Percents(ds)
  {
    if ds != [] {
      DirectiveAccounting(ds[0], args, k);
      Accounting(ds[1..], args, k + Takes(ds[0]));
    }
  }

  // ---------- Every directive list is written by some format ----------

  predicate Writable(d: Directive) {
    match d
    case Literal(c) => c != '%'
    case Percent => true
    case Conversion(pad, star, width, letter) =>
      (pad == ' ' || pad == '0') && (star ==> width == 0) && !AtDigit([letter]) && letter !in "%*-"
  }

  function WidthText(star: bool, width: nat): string {
    if star then "*" else if width == 0 then "" else Numeral(width, 10)
  }

  function Written(d: Directive): string {
    match d
    case Literal(c) => [c]
    case Percent => "%%"
    case Conversion(pad, star, width, letter) =>
      "%" + ((if pad == '0' then "0" else "") + (WidthText(star, width) + [letter]))
  }

  function Unparse(ds: seq<Directive>): string {
    if ds == [] then "" else Written(ds[0]) + Unparse(ds[1..])
  }

  lemma {:induction false} DigitsRead(w: nat, digits: string, rest: string)
    requires digits == "" || IsNumeral(digits, 10)
    requires !AtDigit(rest)
    ensures AfterDigits(digits + rest) == rest
    ensures Width(w, digits + rest) == Shifted(w, |digits|) + Read(digits, 10)
    decreases |digits|
  {
    if digits == "" {
      assert digits + rest == rest;
    } else {
      var c, more := digits[0], digits[1..];
      assert (digits + rest)[1..] == more + rest;
      assert IsDigit(c, 10);
      DigitsRead(w * 10 + (c - '0') as nat, more, rest);
      ReadFront(digits);
      ShiftedSum(w, (c - '0') as nat, |more|);
    }
  }

  // w followed by n zeros.
  function Shifted(w: nat, n: nat): nat {
    if n == 0 then w else 10 * Shifted(w, n - 1)
  }

  lemma {:induction false} ShiftedSum(w: nat, d: nat, n: nat)
    ensures Shifted(w * 10 + d, n) == Shifted(w, n + 1) + Shifted(d, n)
  {
    if n > 0 {
      ShiftedSum(w, d, n - 1);
    }
  }

  lemma {:induction false} ReadFront(s: string)
    requires IsNumeral(s, 10)
    ensures IsDigit(s[0], 10) && (|s| > 1 ==> IsNumeral(s[1..], 10))
    ensures Read(s, 10) == Shifted(DigitValue(s[0]).value, |s| - 1) + Read(s[1..], 10)
  {
    HeadIsNumeral(s, 10);
    if |s| > 1 {
      var n := |s| - 1;
      ReadFront(s[..n]);
      assert s[1..][..n - 1] == s[..n][1..];
    }
  }

  lemma WidthRead(star: bool, width: nat, rest: string)
    requires rest != "" && !AtDigit(rest) && !At(rest, '*') && !At(rest, '-') && (star ==> width == 0)
    ensures var s := WidthText(star, width) + rest;
            !At(s, '0') && !At(s, '-') && At(s, '*') == star && Width(0, s) == width && AfterWidth(s) == rest
  {
    var s := WidthText(star, width) + rest;
    if star {
      assert s[1..] == rest;
    } else if width == 0 {
      assert s == rest;
    } else {
      NumeralRoundTrip(width, 10);
      DigitsRead(0, Numeral(width, 10), rest);
      ShiftedZero(|Numeral(width, 10)|);
      assert IsDigit(s[0], 10);
    }
  }

  lemma {:induction false} ShiftedZero(n: nat)
    ensures Shifted(0, n) == 0
  {
    if n > 0 {
      ShiftedZero(n - 1);
    }
  }

  lemma FlagsParse(pad: char, star: bool, width: nat, rest: string)
    requires rest != "" && !AtDigit(rest) && !At(rest, '*') && !At(rest, '-') && (star ==> width == 0)
    ensures var t := WidthText(star, width) + rest;
            AfterFlags((if pad == '0' then "0" else "") + t) == t
  {
    var t := WidthText(star, width) + rest;
    WidthRead(star, width, rest);
    if pad == '0' {
      ZeroFlag(t);
    } else {
      assert "" + t == t;
    }
  }

  lemma ConversionParses(pad: char, star: bool, width: nat, letter: char, tail: string)
    requires Writable(Conversion(pad, star, width, letter))
    ensures Next(Written(Conversion(pad, star, width, letter)) + tail)
         == Found(Conversion(pad, star, width, letter), tail)
  {
    var rest := [letter] + tail;
    var zero := if pad == '0' then "0" else "";
    var s := zero + (WidthText(star, width) + rest);
    FlagsParse(pad, star, width, rest);
    WidthRead(star, width, rest);
    Associate(WidthText(star, width), [letter], tail);
    Associate(zero, WidthText(star, width) + [letter], tail);
    Associate("%", zero + (WidthText(star, width) + [letter]), tail);
    assert Written(Conversion(pad, star, width, letter)) + tail == "%" + s;
    assert rest[1..] == tail;
    assert NextConversion(s) == Found(Conversion(pad, star, width, letter), tail);
    assert ("%" + s)[1..] == s;
  }

  lemma ZeroFlag(t: string)
    requires t != "" && t[0] != '0' && t[0] != '-'
    ensures AfterFlags("0" + t) == t
  {
    assert ("0" + t)[1..] == t;
    assert AfterZeros("0" + t) == AfterZeros(t) == t;
  }

  lemma WrittenParses(d: Directive, tail: string)
    requires Writable(d)
    ensures Next(Written(d) + tail) == Found(d, tail)
  {
    match d
    case Literal(c) =>
      assert (Written(d) + tail)[1..] == tail;
    case Percent =>
      assert (Written(d) + tail)[2..] == tail;
    case Conversion(pad, star, width, letter) =>
      ConversionParses(pad, star, width, letter, tail);
  }

  /** Parsing inverts writing: no two lists of directives share a format. */
  lemma {:induction false} ParseUnparse(ds: seq<Directive>)
    requires forall i :: 0 <= i < |ds| ==> Writable(ds[i])
    ensures Parse(Unparse(ds)) == Parsed(ds, Terminator)
  {
    if ds != [] {
      WrittenParses(ds[0], Unparse(ds[1..]));
      ParseUnparse(ds[1..]);
      assert [ds[0]] + ds[1..] == ds;
    }
  }

  // ---------- The interpreter ----------

  // The pointer never passes the terminator; cut tells whether the next increment would.
  method PrintfImpl(port: Port, format: string, args: nat -> Arg) returns (count: nat, cut: bool)
    modifies port
    ensures port.out == old(port.out) + Output(Parse(format).directives, args, 0)
    ensures count == Total(Parse(format).directives, args, 0)
    ensures cut <==> Parse(format).ending == CutOff
  {
    count, cut := 0, false;
    var fp, k: nat := format, 0;
    ghost var all := Parse(format);
    ghost var todo, goal := all.directives, Finished(port.out, 0, all.directives, args, 0);
    while fp != ""
      invariant !cut && Parse(fp) == Parsed(todo, all.ending)
      invariant Finished(port.out, count, todo, args, k) == goal
      decreases |fp|
    {
      var more;
      fp, k, count, more, cut := Pass(port, fp, args, k, count, todo, all.ending);
      if !more {
        return;
      }
      todo := todo[1..];
    }
  }

  // One pass of the loop body moves one directive from what is still to be written to what is
  // written; more is false where the original leaves the loop.
  method Pass(port: Port, start: string, args: nat -> Arg, taken: nat, counted: nat,
              ghost todo: seq<Directive>, ghost ending: Ending)
    returns (fp: string, k: nat, count: nat, more: bool, cut: bool)
    requires start != "" && Parse(start) == Parsed(todo, ending)
    modifies port
    ensures more ==> !cut && |fp| < |start| && todo != [] && Parse(fp) == Parsed(todo[1..], ending)
    ensures more ==>
              Finished(port.out, count, todo[1..], args, k) == Finished(old(port.out), counted, todo, args, taken)
    ensures !more ==> todo == [] && ending == (if cut then CutOff else LonePercent)
    ensures !more ==> port.out == old(port.out) && count == counted
  {
    var n;
    ghost var d;
    fp, k, n, more, cut, d := Step(port, start, args, taken);
    ParseFirst(start);
    count := counted;
    if more {
      Moved(old(port.out), port.out, d, todo, args, taken, counted, n);
      count := count + n;
    }
  }

  // Output and count once the directives still to come are done.
  ghost function Finished(out: string, count: nat, todo: seq<Directive>, args: nat -> Arg, k: nat): (string, nat) {
    (out + Output(todo, args, k), count + Total(todo, args, k))
  }

  // One directive moved from what is still to be written to what is written.
  lemma Moved(before: string, after: string, d: Directive, todo: seq<Directive>, args: nat -> Arg, k: nat,
              count: nat, n: nat)
    requires todo != [] && todo[0] == d
    requires after == before + Text(d, args, k) && n == Counted(d, args, k)
    ensures Finished(before, count, todo, args, k) == Finished(after, count + n, todo[1..], args, k + Takes(d))
  {
    Associate(before, Text(d, args, k), Output(todo[1..], args, k + Takes(d)));
  }

  lemma ParseFirst(s: string)
    ensures Next(s).Stop? ==> Parse(s) == Parsed([], Next(s).ending)
    ensures Next(s).Found? ==>
              Parse(s).directives != [] && Parse(s).directives[0] == Next(s).directive &&
              Parse(Next(s).rest) == Parsed(Parse(s).directives[1..], Parse(s).ending)
  {
  }

  method Step(port: Port, start: string, args: nat -> Arg, taken: nat)
    returns (fp: string, k: nat, count: nat, more: bool, cut: bool, ghost d: Directive)
    requires start != ""
    modifies port
    ensures more ==> Next(start) == Found(d, fp)
    ensures more ==> port.out == old(port.out) + Text(d, args, taken)
    ensures more ==> count == Counted(d, args, taken) && k == taken + Takes(d) && !cut
    ensures !more ==> Next(start) == Stop(if cut then CutOff else LonePercent)
    ensures !more ==> port.out == old(port.out)
  {
    count, more, cut := 0, true, false;
    fp, k, d := start[1..], taken, Literal(start[0]);
    if start[0] != '%' {
      port.Putc(start[0]);
      count := 1;
      return;
    }
    if fp == "" {
      more := false;
      return;
    }
    if fp[0] == '%' {
      d := Percent;
      port.Putc('%');
      fp := fp[1..];
      return;
    }
    fp, k, count, cut, d := StepConversion(port, fp, args, taken);
    more := !cut;
  }

  method StepConversion(port: Port, start: string, args: nat -> Arg, taken: nat)
    returns (fp: string, k: nat, count: nat, cut: bool, ghost d: Directive)
    requires start != ""
    modifies port
    ensures !cut ==> NextConversion(start) == Found(d, fp)
    ensures !cut ==> port.out == old(port.out) + Text(d, args, taken)
    ensures !cut ==> count == Counted(d, args, taken) && k == taken + Takes(d)
    ensures cut ==> NextConversion(start) == Stop(CutOff) && port.out == old(port.out)
  {
    var pad, star, width;
    fp, pad := SkipFlags(start);
    fp, star, width := ReadWidth(fp);
    count, k := 0, if star then taken + 1 else taken;
    cut, d := fp == "", Percent;
    if cut {
      return;
    }
    d := Conversion(pad, star, width, fp[0]);
    count := Convert(port, pad, width, fp[0], args(k));
    if TakesOne(fp[0]) {
      k := k + 1;
    }
    fp := fp[1..];
  }

  method SkipFlags(start: string) returns (fp: string, pad: char)
    requires start != ""
    ensures fp == AfterFlags(start)
    ensures pad == if start[0] == '0' then '0' else ' '
  {
    fp, pad := start, ' ';
    while At(fp, '0')
      invariant AfterZeros(fp) == AfterZeros(start)
      invariant pad == ' ' ==> fp == start
      invariant pad == '0' ==> start[0] == '0'
      invariant pad == ' ' || pad == '0'
      decreases |fp|
    {
      pad := '0';
      fp := fp[1..];
    }
    if At(fp, '-') {
      fp := fp[1..];
    }
  }

  method ReadWidth(start: string) returns (fp: string, star: bool, width: nat)
    ensures fp == AfterWidth(start) && star == At(start, '*') && width == Width(0, start)
  {
    fp, star, width := start, At(start, '*'), 0;
    if star {
      fp := fp[1..];
    } else {
      while AtDigit(fp)
        invariant AfterDigits(fp) == AfterDigits(start) && Width(width, fp) == Width(0, start)
        decreases |fp|
      {
        width := width * 10 + (fp[0] - '0') as nat;
        fp := fp[1..];
      }
    }
  }

  // The switch over the conversion letter.
  method Convert(port: Port, pad: char, width: nat, letter: char, arg: Arg) returns (count: nat)
    modifies port
    ensures port.out == old(port.out) + ConversionText(pad, width, letter, arg)
    ensures count == |ConversionText(pad, 0, letter, arg)|
  {
    count := 0;
    match letter {
      case 'd' => count := port.PrintDecimal(arg.word, width, pad);
      case 'u' => count := port.PrintUnsigned(AsUnsigned(arg.word), width, pad);
      case 'x' =>
        count := port.PrintInt(arg.word, width, pad, 16);
      case 'X' =>
        count := port.PrintInt(arg.word, width, pad, 16);
      case 'o' =>
        count := port.PrintInt(arg.word, width, pad, 8);
      case 'c' =>
        port.Putc((arg.word % 256) as char);
        count := 1;
      case 's' =>
        var s := 0;
        while s < |arg.text|
          invariant count == s <= |arg.text| && port.out == old(port.out) + arg.text[..s]
        {
          port.Putc(arg.text[s]);
          s := s + 1;
          count := count + 1;
        }
      case _ =>
    }
  }
}
