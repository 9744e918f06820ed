/** The output port and the number printers, loop by loop. */
module Console {
  import opened Numerals

  // Right shift of an unsigned word.
  function Shift(v: nat, n: nat): nat {
    if n == 0 then v else Shift(v, n - 1) / 2
  }

  lemma ShiftBy3(v: nat, n: nat)
    ensures Shift(v, n + 3) == Shift(v, n) / 8
  {
    assert Shift(v, n + 3) == Shift(v, n + 2) / 2 == Shift(v, n + 1) / 2 / 2;
  }

  lemma ShiftBy4(v: nat, n: nat)
    ensures Shift(v, n + 4) == Shift(v, n) / 16
  {
    ShiftBy3(v, n);
    assert Shift(v, n + 4) == Shift(v, n + 3) / 2;
  }

  function Power16(n: nat): nat {
    if n == 0 then 1 else 16 * Power16(n - 1)
  }

  lemma {:induction false} NibblesLeft(v: nat, k: nat)
    requires v < Power16(8) && k <= 8
    ensures Shift(v, 4 * k) < Power16(8 - k)
  {
    if k > 0 {
      NibblesLeft(v, k - 1);
      ShiftBy4(v, 4 * (k - 1));
      assert Power16(8 - (k - 1)) == 16 * Power16(8 - k);
    }
  }

  // Nothing is left above the top group of bits.
  lemma TopIsEmpty(v: nat)
    requires v < UINT
    ensures Shift(v, 32) == 0 && Shift(v, 33) == 0
  {
    assert Power16(8) == UINT;
    NibblesLeft(v, 8);
    assert Shift(v, 33) == Shift(v, 32) / 2;
  }

  // The numeral of a number without leading zeros; nothing for zero.
  function Significant(v: nat, base: Base): string {
    if v == 0 then "" else Numeral(v, base)
  }

  lemma OctalStep(v: nat)
    ensures v / 8 != 0 <==> Significant(v / 8, 8) != ""
    ensures v != 0 ==> Significant(v, 8) == Significant(v / 8, 8) + [DigitChar(v % 8)]
    ensures Numeral(v, 8) == Significant(v / 8, 8) + [DigitChar(v % 8)]
    ensures v == 0 ==> v / 8 == 0 && v % 8 == 0
  {
  }

  lemma HexStep(v: nat)
    ensures v / 16 != 0 <==> Significant(v / 16, 16) != ""
    ensures v != 0 ==> Significant(v, 16) == Significant(v / 16, 16) + [DigitChar(v % 16)]
    ensures Numeral(v, 16) == Significant(v / 16, 16) + [DigitChar(v % 16)]
    ensures v == 0 ==> v / 16 == 0 && v % 16 == 0
  {
  }

  function Reversed(s: string): (r: string)
    ensures |r| == |s|
  {
    if s == "" then "" else [s[|s| - 1]] + Reversed(s[..|s| - 1])
  }

  function Magnitude(v: int): nat {
    if v < 0 then -v else v
  }

  lemma Shrinks(v: int, n: nat)
    requires n > 0 && Magnitude(v) < Power10(n)
    ensures Magnitude(TruncDiv10(v)) < Power10(n - 1)
    ensures TruncDiv10(v) != 0 ==> n > 1 && Magnitude(TruncDiv10(v)) < Magnitude(v)
  {
  }

  // Taking one more digit off the front of what is already collected.
  lemma DecimalPrepend(v: int, tail: string)
    ensures var more := tail + [DecimalChar(TruncMod10(v))];
            Decimal(v) + Reversed(tail) ==
            (if TruncDiv10(v) == 0 then "" else Decimal(TruncDiv10(v))) + Reversed(more)
  {
  }

  lemma Associate(a: string, b: string, c: string)
    ensures a + b + c == a + (b + c)
  {
  }

  // A subtraction in uint8_t.
  function Wrap8(v: int): (r: nat)
    ensures r < 256
  {
    v % 256
  }

  class Port {
    var out: string

    constructor ()
      ensures out == ""
    {
      out := "";
    }

    method Putc(c: char)
      modifies this
      ensures out == old(out) + [c]
    {
      out := out + [c];
    }

    method Puts(s: string) returns (n: int)
      modifies this
      ensures out == old(out) + s + "\n" && n == 1
    {
      var i := 0;
      while i < |s|
        invariant i <= |s| && out == old(out) + s[..i]
      {
        Putc(s[i]);
        i := i + 1;
      }
      Putc('\n');
      return 1;
    }

    // The divide-by-ten loop: the digits in the buffer, least significant first.
    method Collect(value: int, buffer: array<char>) returns (count: nat)
      requires buffer.Length == 20 && -UINT < value < UINT
      modifies buffer
      ensures 1 <= count <= 10
      ensures Reversed(buffer[..count]) == Decimal(value)
    {
      var v := value;
      count := 0;
      assert Power10(10) > UINT;
      while true
        invariant count < 10 && Magnitude(v) < Power10(10 - count)
        invariant Decimal(value) == Decimal(v) + Reversed(buffer[..count])
        decreases Magnitude(v)
      {
        ghost var tail := buffer[..count];
        var c := DecimalChar(TruncMod10(v));
        Shrinks(v, 10 - count);
        DecimalPrepend(v, tail);
        v := TruncDiv10(v);
        buffer[count] := c;
        count := count + 1;
        assert buffer[..count] == tail + [c];
        if v == 0 {
          break;
        }
      }
    }

    method PutPadding(from: nat, width: int, pad: char)
      modifies this
      ensures out == old(out) + Repeat(pad, width - from)
    {
      var i := from;
      while i < width
        invariant i == from || i <= width
        invariant i >= from && out == old(out) + Repeat(pad, i - from)
      {
        Putc(pad);
        i := i + 1;
      }
    }

    method PutReversed(buffer: array<char>, count: nat)
      requires count <= buffer.Length
      modifies this
      ensures out == old(out) + Reversed(buffer[..count])
    {
      var p, i := count - 1, 0;
      while i < count
        invariant i <= count && p == count - 1 - i
        invariant out + Reversed(buffer[..count - i]) == old(out) + Reversed(buffer[..count])
      {
        assert buffer[..count - i][..count - i - 1] == buffer[..count - i - 1];
        Putc(buffer[p]);
        p, i := p - 1, i + 1;
      }
    }

    method PutField(buffer: array<char>, count: nat, width: int, pad: char)
      requires count <= buffer.Length
      modifies this
      ensures out == old(out) + Field(Reversed(buffer[..count]), width, pad)
    {
      PutPadding(count, width, pad);
      PutReversed(buffer, count);
      Associate(old(out), Repeat(pad, width - count), Reversed(buffer[..count]));
    }

    method PrintUnsigned(value: nat, width: int, pad: char) returns (count: nat)
      requires value < UINT
      modifies this
      ensures out == old(out) + UnsignedText(value, width, pad)
      ensures count == |Decimal(value)| && count <= 10
    {
      var buffer := new char[20];
      count := Collect(value, buffer);
      PutField(buffer, count, width, pad);
    }

    method PrintDecimal(value: int, width: int, pad: char) returns (count: nat)
      requires IsInt(value)
      modifies this
      ensures out == old(out) + SignedText(value, width, pad)
      ensures count == if value < 0 then |Decimal(Negate(value))| + 1 else |Decimal(value)|
    {
      var buffer := new char[20];
      var v, w, neg := value, width, value < 0;
      if neg {
        v := Negate(value);
        Putc('-');
        w := w - 1;
      }
      count := Collect(v, buffer);
      PutField(buffer, count, w, pad);
      if neg {
        Associate(old(out), "-", Field(Decimal(v), w, pad));
        count := count + 1;
      }
    }

    // The loop variable is eight bits wide: the loop ends when subtracting wraps around.
    method PrintOctal(uu: nat) returns (count: nat)
      requires uu < UINT
      modifies this
      ensures out == old(out) + OctalText(uu) && count == |OctalText(uu)|
    {
      var flag := false;
      var ii: nat := 30;
      ghost var k, printed := 11, "";
      count := 0;
      TopIsEmpty(uu);
      while ii <= 30
        invariant k <= 11 && ii == if k == 0 then 253 else 3 * (k - 1)
        invariant printed == Significant(Shift(uu, 3 * k), 8)
        invariant out == old(out) + printed && count == |printed| && (flag <==> printed != "")
        decreases k
      {
        ShiftBy3(uu, ii);
        OctalStep(Shift(uu, ii));
        var digit := Shift(uu, ii) % 8;
        if digit != 0 || flag {
          flag := true;
          Putc(DigitChar(digit));
          count := count + 1;
          printed := printed + [DigitChar(digit)];
        }
        ii, k := Wrap8(ii - 3), k - 1;
      }
    }

    method PrintHex(uu: nat) returns (count: nat)
      requires uu < UINT
      modifies this
      ensures out == old(out) + Numeral(uu, 16) && count == |Numeral(uu, 16)|
    {
      var flag := false;
      var ii: nat := 28;
      ghost var k, printed := 8, "";
      count := 0;
      TopIsEmpty(uu);
      while ii <= 28
        invariant k <= 8 && ii == if k == 0 then 252 else 4 * (k - 1)
        invariant printed == if k == 0 then Numeral(uu, 16) else Significant(Shift(uu, 4 * k), 16)
        invariant out == old(out) + printed && count == |printed| && (flag <==> printed != "")
        decreases k
      {
        ShiftBy4(uu, ii);
        HexStep(Shift(uu, ii));
        var digit := Shift(uu, ii) % 16;
        if digit != 0 || flag || ii == 0 {
          flag := true;
          Putc(DigitChar(digit));
          count := count + 1;
          printed := printed + [DigitChar(digit)];
        }
        ii, k := Wrap8(ii - 4), k - 1;
      }
    }

    method PrintInt(value: int, width: int, pad: char, base: int) returns (count: int)
      requires IsInt(value)
      modifies this
      ensures base == 10 ==>
                out == old(out) + SignedText(value, width, pad) && count == |SignedText(value, 0, pad)|
      ensures base == 8 ==> out == old(out) + OctalText(AsUnsigned(value)) && count == |OctalText(AsUnsigned(value))|
      ensures base == 16 ==>
                out == old(out) + Numeral(AsUnsigned(value), 16) && count == |Numeral(AsUnsigned(value), 16)|
      ensures base != 8 && base != 10 && base != 16 ==> out == old(out) && count == -1
    {
      if base == 10 {
        count := PrintDecimal(value, width, pad);
        return;
      }
      var uu := AsUnsigned(value);
      if base == 8 {
        count := PrintOctal(uu);
      } else if base == 16 {
        count := PrintHex(uu);
      } else {
        return -1;
      }
    }
  }
}
