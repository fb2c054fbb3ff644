/** Escaped text: printing code points with backslash escapes and reading them back. */
module Escapes {
  import opened Options
  import opened Utf8

  const BACKSLASH: Byte := 92

  /** The letter of the short escape of a code point. */
  function Letter(c: int): Option<Byte> {
    if c == '\'' as int || c == '\"' as int || c == '?' as int || c == '\\' as int then Some(c)
    else if c == 7 then Some('a' as int)
    else if c == 8 then Some('b' as int)
    else if c == 12 then Some('f' as int)
    else if c == 10 then Some('n' as int)
    else if c == 13 then Some('r' as int)
    else if c == 9 then Some('t' as int)
    else if c == 11 then Some('v' as int)
    else if c == 0 then Some('0' as int)
    else if c == 27 then Some('e' as int)
    else None
  }

  /** The code point behind the letter of a short escape. */
  function Meaning(b: Byte): Option<int> {
    if b == '\'' as int || b == '\"' as int || b == '?' as int || b == '\\' as int then Some(b)
    else if b == 'a' as int then Some(7)
    else if b == 'b' as int then Some(8)
    else if b == 'f' as int then Some(12)
    else if b == 'n' as int then Some(10)
    else if b == 'r' as int then Some(13)
    else if b == 't' as int then Some(9)
    else if b == 'v' as int then Some(11)
    else if b == '0' as int then Some(0)
    else if b == 'e' as int then Some(27)
    else None
  }

  function Digit(d: nat): Byte
    requires d < 16
  {
    if d < 10 then '0' as int + d else 'a' as int + d - 10
  }

  function DigitValue(b: Byte): int {
    if '0' as int <= b <= '9' as int then b - '0' as int
    else if 'a' as int <= b <= 'f' as int then b - 'a' as int + 10
    else if 'A' as int <= b <= 'F' as int then b - 'A' as int + 10
    else -1
  }

  /** The last `width` hexadecimal digits. */
  function Hex(c: nat, width: nat): (r: seq<Byte>)
    ensures |r| == width
  {
    if width == 0 then [] else Hex(c / 16, width - 1) + [Digit(c % 16)]
  }

  function Power(n: nat): nat {
    if n == 0 then 1 else 16 * Power(n - 1)
  }

  /** A code point whose escape is `\x` and two digits. */
  predicate ShortHex(c: nat) {
    Letter(c).None? && c <= 0xFF && !(0x20 <= c <= 0x7E)
  }

  /** The escape of a code point; extra escapes come first. */
  function Printed(c: nat, extra: map<int, seq<Byte>>): seq<Byte> {
    if c in extra then extra[c]
    else if Letter(c).Some? then [BACKSLASH, Letter(c).value]
    else if 0x20 <= c <= 0x7E then [c]
    else if c <= 0xFF then [BACKSLASH, 'x' as int] + Hex(c, 2)
    else if c <= 0xFFFF then [BACKSLASH, 'u' as int] + Hex(c, 4)
    else [BACKSLASH, 'U' as int] + Hex(c, 8)
  }

  // ---------------------------------------------------------------- reading

  /** Hexadecimal digits for as long as there are any. */
  function Digits(s: seq<Byte>, i: nat, code: nat): (r: Parsed)
    ensures i <= r.next && r.code >= 0
    decreases Measure(s, i)
  {
    if DigitValue(At(s, i)) == -1 then Parsed(code, i) else Digits(s, i + 1, code * 16 + DigitValue(At(s, i)))
  }

  /** Exactly n hexadecimal digits. */
  function Fixed(s: seq<Byte>, i: nat, n: nat, code: nat): Option<nat>
    decreases n
  {
    if n == 0 then Some(code)
    else if DigitValue(At(s, i)) == -1 then None
    else Fixed(s, i + 1, n - 1, code * 16 + DigitValue(At(s, i)))
  }

  /** One code point or one escape at pos. */
  function NextEscaped(s: seq<Byte>, pos: nat, extra: map<seq<Byte>, int>): Parsed {
    var b := At(s, pos + 1);
    if At(s, pos) != BACKSLASH then Next(s, pos, ReturnInvalid)
    else if [BACKSLASH, b] in extra then Parsed(extra[[BACKSLASH, b]], pos + 2)
    else if Meaning(b).Some? then Parsed(Meaning(b).value, pos + 2)
    else if b == 'x' as int then
      var r := Digits(s, pos + 2, 0);
      if r.next == pos + 2 then Parsed(INVALID_ESCAPE, pos) else r
    else if b == 'u' as int || b == 'U' as int then
      var n := if b == 'u' as int then 4 else 8;
      var code := Fixed(s, pos + 2, n, 0);
      if code.Some? then Parsed(code.value, pos + 2 + n) else Parsed(INVALID_ESCAPE, pos)
    else Parsed(INVALID_ESCAPE, pos)
  }

  /** The reader with its two digit loops. */
  method ParseNextOrEscaped(s: seq<Byte>, pos: nat, extra: map<seq<Byte>, int>) returns (r: Parsed)
    ensures r == NextEscaped(s, pos, extra)
  {
    if At(s, pos) != BACKSLASH {
      r := ParseNext(s, pos, ReturnInvalid);
      return;
    }
    var b := At(s, pos + 1);
    if [BACKSLASH, b] in extra { return Parsed(extra[[BACKSLASH, b]], pos + 2); }
    if Meaning(b).Some? { return Parsed(Meaning(b).value, pos + 2); }
    if b == 'x' as int {
      var len: nat := 0;
      var code: nat := 0;
      var digit := DigitValue(At(s, pos + 2));
      while digit != -1
        invariant digit == DigitValue(At(s, pos + 2 + len))
        invariant Digits(s, pos + 2, 0) == Digits(s, pos + 2 + len, code)
        decreases Measure(s, pos + 2 + len)
      {
        code := code * 16 + digit;
        len := len + 1;
        digit := DigitValue(At(s, pos + 2 + len));
      }
      return if len == 0 then Parsed(INVALID_ESCAPE, pos) else Parsed(code, pos + 2 + len);
    } else if b == 'u' as int || b == 'U' as int {
      var n: nat := if b == 'u' as int then 4 else 8;
      var code: nat := 0;
      for i := 0 to n
        invariant Fixed(s, pos + 2, n, 0) == Fixed(s, pos + 2 + i, n - i, code)
      {
        var digit := DigitValue(At(s, pos + 2 + i));
        if digit == -1 { return Parsed(INVALID_ESCAPE, pos); }
        code := code * 16 + digit;
      }
      return Parsed(code, pos + 2 + n);
    }
    return Parsed(INVALID_ESCAPE, pos);
  }

  // ---------------------------------------------------------------- round trip

  lemma LetterMeaning(c: int)
    requires Letter(c).Some?
    ensures Meaning(Letter(c).value) == Some(c)
  {
  }

  lemma DigitBack(d: nat)
    requires d < 16
    ensures DigitValue(Digit(d)) == d
  {
  }

  /** The text holds the digits of c at i. */
  predicate HexAt(s: seq<Byte>, i: nat, c: nat, width: nat) {
    forall k {:trigger Hex(c, width)[k]} :: 0 <= k < width ==> At(s, i + k) == Hex(c, width)[k]
  }

  lemma HexFront(s: seq<Byte>, i: nat, c: nat, width: nat)
    requires width > 0 && HexAt(s, i, c, width)
    ensures HexAt(s, i, c / 16, width - 1) && At(s, i + width - 1) == Digit(c % 16)
  {
    forall k {:trigger Hex(c / 16, width - 1)[k]} | 0 <= k < width - 1
      ensures At(s, i + k) == Hex(c / 16, width - 1)[k]
    {
      assert Hex(c, width)[k] == Hex(c / 16, width - 1)[k];
    }
    assert Hex(c, width)[width - 1] == Digit(c % 16);
  }

  lemma {:induction false} FixedSplit(s: seq<Byte>, i: nat, n: nat, code: nat)
    ensures Fixed(s, i, n + 1, code)
            == if Fixed(s, i, n, code).Some? && DigitValue(At(s, i + n)) != -1
               then Some(Fixed(s, i, n, code).value * 16 + DigitValue(At(s, i + n))) else None
    decreases n
  {
    if n > 0 && DigitValue(At(s, i)) != -1 {
      FixedSplit(s, i + 1, n - 1, code * 16 + DigitValue(At(s, i)));
    }
  }

  /** Reading as many digits as were printed gives the number back if it has no more. */
  lemma {:induction false} FixedOfHex(s: seq<Byte>, i: nat, c: nat, width: nat)
    requires HexAt(s, i, c, width) && c < Power(width)
    ensures Fixed(s, i, width, 0) == Some(c)
    decreases width
  {
    if width > 0 {
      HexFront(s, i, c, width);
      FixedOfHex(s, i, c / 16, width - 1);
      FixedSplit(s, i, width - 1, 0);
      DigitBack(c % 16);
    }
  }

  lemma {:induction false} DigitsAfterFixed(s: seq<Byte>, i: nat, n: nat, code: nat)
    requires Fixed(s, i, n, code).Some?
    ensures Digits(s, i, code) == Digits(s, i + n, Fixed(s, i, n, code).value)
    decreases n
  {
    if n > 0 { DigitsAfterFixed(s, i + 1, n - 1, code * 16 + DigitValue(At(s, i))); }
  }

  lemma {:induction false} HexInside(s: seq<Byte>, pos: nat, c: nat, width: nat, a: Byte, b: Byte)
    requires Holds(s, pos, [a, b] + Hex(c, width))
    ensures At(s, pos) == a && At(s, pos + 1) == b && HexAt(s, pos + 2, c, width)
  {
    var e := [a, b] + Hex(c, width);
    HoldsAt(s, pos, e, 0);
    HoldsAt(s, pos, e, 1);
    forall k {:trigger Hex(c, width)[k]} | 0 <= k < width ensures At(s, pos + 2 + k) == Hex(c, width)[k] {
      HoldsAt(s, pos, e, 2 + k);
    }
  }

  lemma Powers()
    ensures Power(2) == 0x100 && Power(4) == 0x10000 && Power(8) == 0x100000000
  {
    assert Power(3) == 16 * Power(2) && Power(4) == 16 * Power(3) && Power(5) == 16 * Power(4);
    assert Power(6) == 16 * Power(5) && Power(7) == 16 * Power(6) && Power(8) == 16 * Power(7);
  }

  /** Reading a printed code point gives it back and stops behind it, exactly unless it was
      printed with `\x` and another hexadecimal digit follows. */
  lemma ReadsBackIff(s: seq<Byte>, pos: nat, c: nat)
    requires c < Power(8) && Holds(s, pos, Printed(c, map[]))
    ensures NextEscaped(s, pos, map[]) == Parsed(c, pos + |Printed(c, map[])|)
            <==> !(ShortHex(c) && DigitValue(At(s, pos + |Printed(c, map[])|)) != -1)
  {
    if Letter(c).Some? {
      LetterReadsBack(s, pos, c);
    } else if 0x20 <= c <= 0x7E {
      PlainReadsBack(s, pos, c);
    } else if c <= 0xFF {
      ShortReadsBackIff(s, pos, c);
    } else {
      LongReadsBack(s, pos, c);
    }
  }

  lemma LetterReadsBack(s: seq<Byte>, pos: nat, c: nat)
    requires Letter(c).Some? && Holds(s, pos, [BACKSLASH, Letter(c).value])
    ensures NextEscaped(s, pos, map[]) == Parsed(c, pos + 2)
  {
    HoldsAt(s, pos, [BACKSLASH, Letter(c).value], 0);
    HoldsAt(s, pos, [BACKSLASH, Letter(c).value], 1);
    LetterMeaning(c);
  }

  lemma PlainReadsBack(s: seq<Byte>, pos: nat, c: nat)
    requires Letter(c).None? && 0x20 <= c <= 0x7E && Holds(s, pos, [c])
    ensures NextEscaped(s, pos, map[]) == Parsed(c, pos + 1)
  {
    HoldsAt(s, pos, [c], 0);
    assert Encoded(c) == [c];
    NextOfEncoded(s, pos, c, ReturnInvalid);
  }

  lemma ShortReadsBackIff(s: seq<Byte>, pos: nat, c: nat)
    requires c <= 0xFF && Holds(s, pos, [BACKSLASH, 'x' as int] + Hex(c, 2))
    ensures NextEscaped(s, pos, map[]) == Parsed(c, pos + 4) <==> DigitValue(At(s, pos + 4)) == -1
  {
    HexInside(s, pos, c, 2, BACKSLASH, 'x' as int);
    Powers();
    FixedOfHex(s, pos + 2, c, 2);
    DigitsAfterFixed(s, pos + 2, 2, 0);
    hide Hex, Fixed, Letter, Holds;
    MoreDigits(s, pos + 4, c);
  }

  lemma LongReadsBack(s: seq<Byte>, pos: nat, c: nat)
    requires 0xFF < c < Power(8)
    requires Holds(s, pos, if c <= 0xFFFF then [BACKSLASH, 'u' as int] + Hex(c, 4)
                   else [BACKSLASH, 'U' as int] + Hex(c, 8))
    ensures NextEscaped(s, pos, map[]) == Parsed(c, pos + if c <= 0xFFFF then 6 else 10)
  {
    Powers();
    if c <= 0xFFFF {
      HexInside(s, pos, c, 4, BACKSLASH, 'u' as int);
      FixedOfHex(s, pos + 2, c, 4);
    } else {
      HexInside(s, pos, c, 8, BACKSLASH, 'U' as int);
      FixedOfHex(s, pos + 2, c, 8);
    }
  }

  lemma MoreDigits(s: seq<Byte>, i: nat, code: nat)
    ensures Digits(s, i, code).next == i <==> DigitValue(At(s, i)) == -1
    ensures DigitValue(At(s, i)) == -1 ==> Digits(s, i, code) == Parsed(code, i)
  {
  }

  // ---------------------------------------------------------------- printable text

  predicate Printable(bytes: seq<Byte>) {
    forall k {:trigger bytes[k]} :: 0 <= k < |bytes| ==> 0x20 <= bytes[k] <= 0x7E
  }

  lemma {:induction false} HexPrintable(c: nat, width: nat)
    ensures Printable(Hex(c, width))
  {
    if width > 0 { HexPrintable(c / 16, width - 1); }
  }

  lemma PrintedPrintable(c: nat)
    ensures Printable(Printed(c, map[]))
  {
    HexPrintable(c, 2);
    HexPrintable(c, 4);
    HexPrintable(c, 8);
  }

  // ---------------------------------------------------------------- the table

  /** Which code points have a letter, and which letter. */
  lemma LetterTable(c: int, l: Byte)
    ensures Letter(c) == Some(l) <==> Meaning(l) == Some(c)
    ensures Letter(c) == Some(l) <==>
              || (c == 0x00 && l == '0' as int) || (c == 0x07 && l == 'a' as int) || (c == 0x08 && l == 'b' as int)
              || (c == 0x09 && l == 't' as int) || (c == 0x0A && l == 'n' as int) || (c == 0x0B && l == 'v' as int)
              || (c == 0x0C && l == 'f' as int) || (c == 0x0D && l == 'r' as int) || (c == 0x1B && l == 'e' as int)
              || (c == 0x22 && l == 0x22) || (c == 0x27 && l == 0x27) || (c == 0x3F && l == 0x3F)
              || (c == 0x5C && l == 0x5C)
  {
  }

  lemma HexTwo(c: nat)
    ensures Hex(c, 2) == [Digit(c / 16 % 16), Digit(c % 16)]
  {
    assert Hex(c / 16, 1) == Hex(c / 16 / 16, 0) + [Digit(c / 16 % 16)];
  }

  lemma HexFour(c: nat)
    ensures Hex(c, 4) == Hex(c / 0x100, 2) + Hex(c, 2)
  {
    var d := c / 16;
    assert Hex(c, 4) == Hex(d, 3) + [Digit(c % 16)] && Hex(d, 3) == Hex(d / 16, 2) + [Digit(d % 16)];
    HexTwo(c);
    assert d / 16 == c / 0x100;
  }

  lemma HexEight(c: nat)
    ensures Hex(c, 8) == Hex(c / 0x10000, 4) + Hex(c, 4)
  {
    var d, e := c / 16, c / 16 / 16;
    assert e == c / 0x100 && e / 16 / 16 == c / 0x10000;
    assert Hex(c, 8) == Hex(e, 6) + Hex(c, 2) by {
      assert Hex(c, 8) == Hex(d, 7) + [Digit(c % 16)] && Hex(d, 7) == Hex(e, 6) + [Digit(d % 16)];
      HexTwo(c);
    }
    assert Hex(e, 6) == Hex(c / 0x10000, 4) + Hex(e, 2) by {
      assert Hex(e, 6) == Hex(e / 16, 5) + [Digit(e % 16)]
             && Hex(e / 16, 5) == Hex(e / 16 / 16, 4) + [Digit(e / 16 % 16)];
      HexTwo(e);
    }
    HexFour(c);
    hide Hex;
  }

  /** How code points are printed: as themselves, with their letter, or with two, four or eight
      lower-case digits. */
  lemma PrintedExamples()
    ensures Printed('A' as int, map[]) == [0x41] && Printed(0x7E, map[]) == [0x7E]
    ensures Printed(0x0A, map[]) == [0x5C, 0x6E] && Printed(0x7F, map[]) == [0x5C, 0x78, 0x37, 0x66]
    ensures Printed(0xE9, map[]) == [0x5C, 0x78, 0x65, 0x39]
    ensures Printed(0x100, map[]) == [0x5C, 0x75, 0x30, 0x31, 0x30, 0x30]
  {
    hide Hex;
    HexTwo(0x7F);
    HexTwo(0xE9);
    HexFour(0x100);
    HexTwo(0x1);
    HexTwo(0x100);
  }

  lemma LongExample()
    ensures Printed(0x1F600, map[]) == [0x5C, 0x55, 0x30, 0x30, 0x30, 0x31, 0x66, 0x36, 0x30, 0x30]
  {
    hide Hex;
    HexEight(0x1F600);
    HexFour(0x1);
    HexTwo(0x0);
    HexTwo(0x1);
    HexFour(0x1F600);
    HexTwo(0x1F6);
    HexTwo(0x1F600);
  }

  /** An extra escape goes before all others, in printing and in reading. */
  lemma ExtraReadsBack(s: seq<Byte>, pos: nat, c: nat, escape: seq<Byte>, printing: map<int, seq<Byte>>,
                       reading: map<seq<Byte>, int>)
    requires c in printing && printing[c] == escape && |escape| == 2 && escape[0] == 0x5C
    requires escape in reading && reading[escape] == c && Holds(s, pos, Printed(c, printing))
    ensures NextEscaped(s, pos, reading) == Parsed(c, pos + 2)
  {
    HoldsAt(s, pos, escape, 0);
    HoldsAt(s, pos, escape, 1);
    assert [escape[0], escape[1]] == escape;
  }

  /** The value of a hexadecimal digit in either case, and what is none. */
  lemma DigitTable(b: Byte)
    ensures DigitValue(b) == -1 <==> !(0x30 <= b <= 0x39 || 0x41 <= b <= 0x46 || 0x61 <= b <= 0x66)
    ensures 0x30 <= b <= 0x39 ==> DigitValue(b) == b - 0x30
    ensures 0x41 <= b <= 0x46 ==> DigitValue(b) == b - 0x41 + 10
    ensures 0x61 <= b <= 0x66 ==> DigitValue(b) == b - 0x61 + 10
  {
  }

  /** n hexadecimal digits stand at i. */
  predicate DigitsAt(s: seq<Byte>, i: nat, n: nat) {
    forall p {:trigger At(s, p)} :: i <= p < i + n ==> DigitValue(At(s, p)) != -1
  }

  /** Reading at a backslash fails, without moving, exactly if no extra escape applies and the
      next byte is no letter of the table and no `x`, `u` or `U` with one, four or eight digits. */
  lemma InvalidIff(s: seq<Byte>, pos: nat, extra: map<seq<Byte>, int>)
    requires At(s, pos) == 0x5C && [0x5C, At(s, pos + 1)] !in extra
    ensures
      var b, r := At(s, pos + 1), NextEscaped(s, pos, extra);
      && (r.next == pos <==>
            && Meaning(b).None? && !(b == 'x' as int && DigitsAt(s, pos + 2, 1))
            && !(b == 'u' as int && DigitsAt(s, pos + 2, 4)) && !(b == 'U' as int && DigitsAt(s, pos + 2, 8)))
      && (r.next == pos ==> r.code == -11)
  {
    FixedIff(s, pos + 2, 4, 0);
    FixedIff(s, pos + 2, 8, 0);
    MoreDigits(s, pos + 2, 0);
    assert DigitsAt(s, pos + 2, 1) <==> DigitValue(At(s, pos + 2)) != -1;
    hide Fixed, Digits, DigitValue, DigitsAt;
  }

  /** Elsewhere reading gives what parsing gives, and reports bytes that are not well formed. */
  lemma PlainReads(s: seq<Byte>, pos: nat, extra: map<seq<Byte>, int>)
    requires At(s, pos) != 0x5C
    ensures NextEscaped(s, pos, extra)
            == if WellFormed(s, pos) then Next(s, pos, ReturnByte) else Parsed(-10, pos)
  {
    NextByPolicy(s, pos);
    hide Next, WellFormed;
  }

  lemma {:induction false} FixedIff(s: seq<Byte>, i: nat, n: nat, code: nat)
    ensures Fixed(s, i, n, code).Some? <==> DigitsAt(s, i, n)
    decreases n
  {
    if n > 0 {
      if DigitValue(At(s, i)) != -1 { FixedIff(s, i + 1, n - 1, code * 16 + DigitValue(At(s, i))); }
    }
  }

  // ---------------------------------------------------------------- whole texts

  function PrintedAll(codes: seq<nat>): seq<Byte> {
    if codes == [] then [] else Printed(codes[0], map[]) + PrintedAll(codes[1..])
  }

  /** Reading on until the terminator or an error, which comes last. */
  function ReadAll(s: seq<Byte>, pos: nat): seq<int>
    decreases Measure(s, pos)
  {
    if At(s, pos) == 0 then []
    else
      var r := NextEscaped(s, pos, map[]);
      ReadMoves(s, pos);
      if r.code < 0 then [r.code] else [r.code] + ReadAll(s, r.next)
  }

  lemma ReadMoves(s: seq<Byte>, pos: nat)
    requires At(s, pos) != 0
    ensures
      var r := NextEscaped(s, pos, map[]);
      r.code >= 0 <==> r.next > pos
  {
    if At(s, pos) != BACKSLASH { NextMoves(s, pos, ReturnInvalid); }
  }

  /** A code point that is a hexadecimal digit. */
  predicate HexDigit(c: nat) {
    c < 256 && DigitValue(c) != -1
  }

  /** No code point whose escape is `\x` stands before a hexadecimal digit. */
  predicate Unambiguous(cs: seq<nat>) {
    forall i {:trigger ShortHex(cs[i])} :: 0 <= i < |cs| - 1 && ShortHex(cs[i]) ==> !HexDigit(cs[i + 1])
  }

  lemma UnambiguousFirst(cs: seq<nat>)
    requires cs != []
    ensures Unambiguous(cs) <==> !(ShortHex(cs[0]) && |cs| > 1 && HexDigit(cs[1])) && Unambiguous(cs[1..])
  {
    hide HexDigit, ShortHex;
    if Unambiguous(cs) {
      forall i {:trigger ShortHex(cs[1..][i])} | 0 <= i < |cs[1..]| - 1 && ShortHex(cs[1..][i])
        ensures !HexDigit(cs[1..][i + 1])
      {
        assert ShortHex(cs[i + 1]);
      }
    } else {
      var i :| 0 <= i < |cs| - 1 && ShortHex(cs[i]) && HexDigit(cs[i + 1]);
      if i > 0 { assert ShortHex(cs[1..][i - 1]) && cs[1..][i] == cs[i + 1]; }
    }
  }

  /** What a printed text starts with: a hexadecimal digit exactly for such a code point. */
  lemma PrintedFirst(c: nat)
    ensures |Printed(c, map[])| > 0 && Printed(c, map[])[0] != 0
    ensures DigitValue(Printed(c, map[])[0]) != -1 <==> HexDigit(c)
  {
  }

  lemma {:induction false} DigitsGrow(s: seq<Byte>, i: nat, code: nat)
    ensures Digits(s, i, code).code >= code
    ensures DigitValue(At(s, i)) != -1 ==> Digits(s, i, code).code >= code * 16
    decreases Measure(s, i)
  {
    if DigitValue(At(s, i)) != -1 { DigitsGrow(s, i + 1, code * 16 + DigitValue(At(s, i))); }
  }

  /** With a digit behind it an `\x` escape is read as a larger number. */
  lemma ReadTooMuch(s: seq<Byte>, pos: nat, c: nat)
    requires ShortHex(c) && Holds(s, pos, Printed(c, map[])) && DigitValue(At(s, pos + 4)) != -1
    ensures NextEscaped(s, pos, map[]).code > c
  {
    HexInside(s, pos, c, 2, BACKSLASH, 'x' as int);
    Powers();
    FixedOfHex(s, pos + 2, c, 2);
    DigitsAfterFixed(s, pos + 2, 2, 0);
    DigitsGrow(s, pos + 4, c);
  }

  predicate Printing(cs: seq<nat>) {
    forall i {:trigger cs[i]} :: 0 <= i < |cs| ==> cs[i] < Power(8)
  }

  /** The byte behind the first printed code point. */
  lemma AfterFirst(s: seq<Byte>, pos: nat, cs: seq<nat>)
    requires pos <= |s| && s[pos..] == PrintedAll(cs)
    ensures At(s, pos) == 0 <==> cs == []
    ensures DigitValue(At(s, pos)) != -1 <==> cs != [] && HexDigit(cs[0])
  {
    hide Printed, HexDigit, DigitValue;
    if cs != [] {
      PrintedFirst(cs[0]);
      assert s[pos..][0] == Printed(cs[0], map[])[0];
    }
    TerminatorIsNoDigit();
  }

  lemma TerminatorIsNoDigit()
    ensures DigitValue(0) == -1
  {
  }

  lemma {:induction false} ReadsAllBackIffFrom(s: seq<Byte>, pos: nat, cs: seq<nat>)
    requires Printing(cs) && pos <= |s| && s[pos..] == PrintedAll(cs)
    ensures ReadAll(s, pos) == cs <==> Unambiguous(cs)
    decreases |cs|
  {
    hide Printed, HexDigit, DigitValue, ShortHex, NextEscaped, Holds, Power, Unambiguous;
    AfterFirst(s, pos, cs);
    if cs == [] {
      NothingAmbiguous();
    } else {
      var e := Printed(cs[0], map[]);
      Fits(s, pos, e, PrintedAll(cs[1..]));
      AfterFirst(s, pos + |e|, cs[1..]);
      UnambiguousFirst(cs);
      ReadsBackIff(s, pos, cs[0]);
      ReadMoves(s, pos);
      if ShortHex(cs[0]) && DigitValue(At(s, pos + |e|)) != -1 {
        ShortLength(cs[0]);
        ReadTooMuch(s, pos, cs[0]);
      } else {
        ReadsAllBackIffFrom(s, pos + |e|, cs[1..]);
        assert [cs[0]] + cs[1..] == cs;
        Heads(cs[0], ReadAll(s, pos + |e|), cs[1..]);
      }
    }
  }

  lemma NothingAmbiguous()
    ensures Unambiguous([])
  {
  }

  lemma ShortLength(c: nat)
    requires ShortHex(c)
    ensures |Printed(c, map[])| == 4
  {
  }

  lemma Heads(c: int, a: seq<int>, b: seq<int>)
    ensures [c] + a == [c] + b <==> a == b
  {
    if [c] + a == [c] + b { assert ([c] + a)[1..] == a && ([c] + b)[1..] == b; }
  }

  /** Reading a printed list gives the list back exactly if no `\x` escape stands before a
      hexadecimal digit. */
  lemma ReadsAllBackIff(cs: seq<nat>)
    requires Printing(cs)
    ensures ReadAll(PrintedAll(cs), 0) == cs <==> Unambiguous(cs)
  {
    assert PrintedAll(cs)[0..] == PrintedAll(cs);
    ReadsAllBackIffFrom(PrintedAll(cs), 0, cs);
  }

  /** Code points parsed from bytes have at most 21 bits. */
  lemma {:induction false} ParsedArePrinting(raw: seq<Byte>, pos: nat)
    ensures Printing(All(raw, pos, ReturnByte))
    decreases Measure(raw, pos)
  {
    hide Next;
    Powers();
    if At(raw, pos) != 0 {
      NextMoves(raw, pos, ReturnByte);
      NextSmall(raw, pos);
      var r := Next(raw, pos, ReturnByte);
      ParsedArePrinting(raw, r.next);
      var rest := All(raw, r.next, ReturnByte);
      assert forall i {:trigger ([r.code] + rest)[i]} :: 0 < i <= |rest| ==> ([r.code] + rest)[i] == rest[i - 1];
    }
  }

  lemma NextSmall(raw: seq<Byte>, pos: nat)
    ensures Next(raw, pos, ReturnByte).code < 0x200000
  {
    var b := At(raw, pos);
    if Announced(b) > 0 {
      FirstByteBits(b);
      TailValue(raw, pos, FirstBits(b));
    }
  }

  /** Any bytes print to text of printable characters only, and reading it gives the code
      points of the bytes exactly if no `\x` escape stands before a hexadecimal digit. */
  method PrintAllEscaped(raw: seq<Byte>) returns (text: seq<Byte>)
    ensures text == PrintedAll(All(raw, 0, ReturnByte))
    ensures Printable(text)
    ensures ReadAll(text, 0) == All(raw, 0, ReturnByte) <==> Unambiguous(All(raw, 0, ReturnByte))
  {
    hide Printed, Unambiguous, ReadAll;
    text := [];
    var codes := ParseAll(raw, ReturnByte);
    for i := 0 to |codes|
      invariant text + PrintedAll(codes[i..]) == PrintedAll(codes) && Printable(text)
    {
      assert codes[i..][1..] == codes[i + 1..];
      PrintedPrintable(codes[i]);
      text := text + Printed(codes[i], map[]);
    }
    ParsedArePrinting(raw, 0);
    ReadsAllBackIff(codes);
  }
}
