/** The UTF-8 codec: printing and parsing code points over bytes up to a terminating zero. */
module Utf8 {
  import opened Options
  type Byte = b: int | 0 <= b < 256

  const INVALID_UTF8 := -10
  const INVALID_ESCAPE := -11

  datatype Policy = ReturnInvalid | ReturnByte
  /** A code point, or an error code, and where parsing goes on. */
  datatype Parsed = Parsed(code: int, next: nat)

  /** The byte behind the text is the terminator. */
  function At(s: seq<Byte>, i: nat): Byte {
    if i < |s| then s[i] else 0
  }

  // ---------------------------------------------------------------- printing

  /** The bytes of a code point, by the lengths of section 3 of RFC 3629. */
  function Encoded(c: nat): (r: seq<Byte>)
    requires c <= 0x10FFFF
    ensures 1 <= |r| <= 4
  {
    if c <= 0x7F then [c]
    else if c <= 0x7FF then [0xC0 + (c / 64) % 32, 0x80 + c % 64]
    else if c <= 0xFFFF then [0xE0 + (c / 4096) % 16, 0x80 + (c / 64) % 64, 0x80 + c % 64]
    else [0xF0 + (c / 262144) % 8, 0x80 + (c / 4096) % 64, 0x80 + (c / 64) % 64, 0x80 + c % 64]
  }

  /** Code points beyond the last one are an error. */
  function PrintAsUtf8(c: nat): Option<seq<Byte>> {
    if c > 0x10FFFF then None else Some(Encoded(c))
  }

  // ---------------------------------------------------------------- parsing

  /** How many bytes a first byte announces, 0 when it cannot be first. */
  function Announced(b: Byte): nat {
    if b < 0x80 then 1
    else if b < 0xC0 then 0
    else if b < 0xE0 then 2
    else if b < 0xF0 then 3
    else if b < 0xF8 then 4
    else 0
  }

  /** The bits of the code point in a first byte. */
  function FirstBits(b: Byte): nat
    requires Announced(b) > 0
  {
    match Announced(b)
    case 1 => b % 128
    case 2 => b % 32
    case 3 => b % 16
    case _ => b % 8
  }

  predicate Continues(b: Byte) {
    b != 0 && b / 64 == 2
  }

  /** The continuation bytes from i on: the code point, or None at a byte that is none. */
  function Tail(s: seq<Byte>, pos: nat, i: nat, n: nat, bits: nat): Option<nat>
    requires i <= n
    decreases n - i
  {
    if i == n then Some(bits)
    else if !Continues(At(s, pos + i)) then None
    else Tail(s, pos, i + 1, n, bits * 64 + At(s, pos + i) % 64)
  }

  /** One code point at pos. A sequence that breaks off gives an error where it started, or
      its first byte alone. */
  function Next(s: seq<Byte>, pos: nat, policy: Policy): Parsed {
    var b := At(s, pos);
    var code := if Announced(b) == 0 then None else Tail(s, pos, 1, Announced(b), FirstBits(b));
    if code.Some? then Parsed(code.value, pos + Announced(b))
    else if policy.ReturnInvalid? then Parsed(INVALID_UTF8, pos)
    else Parsed(b, pos + 1)
  }

  /** The parser moves on by at least one byte and never passes the terminator; only the
      policy that reports errors can stay, and then it reports one. */
  lemma NextMoves(s: seq<Byte>, pos: nat, policy: Policy)
    requires At(s, pos) != 0
    ensures
      var r := Next(s, pos, policy);
      && pos <= r.next
      && (forall k :: pos <= k < r.next ==> At(s, k) != 0)
      && (policy.ReturnByte? ==> pos < r.next && r.code >= 0)
      && (policy.ReturnInvalid? ==> (r.code == INVALID_UTF8 <==> r.next == pos) && (r.next > pos ==> r.code >= 0))
  {
    var b := At(s, pos);
    if Announced(b) > 0 { TailStops(s, pos, 1, Announced(b), FirstBits(b)); }
  }

  lemma {:induction false} TailStops(s: seq<Byte>, pos: nat, i: nat, n: nat, bits: nat)
    requires i <= n
    ensures Tail(s, pos, i, n, bits).Some? <==> forall k :: pos + i <= k < pos + n ==> Continues(At(s, k))
    decreases n - i
  {
    if i < n && Continues(At(s, pos + i)) {
      TailStops(s, pos, i + 1, n, bits * 64 + At(s, pos + i) % 64);
    }
  }

  /** The loop of the parser over the continuation bytes. */
  method ParseNext(s: seq<Byte>, pos: nat, policy: Policy) returns (r: Parsed)
    ensures r == Next(s, pos, policy)
  {
    var b := At(s, pos);
    var n := Announced(b);
    var accepted := n > 0;
    var bits: nat := 0;
    if accepted {
      bits := FirstBits(b);
      var i: nat := 1;
      while i < n
        invariant 1 <= i <= n
        invariant Tail(s, pos, i, n, bits) == Tail(s, pos, 1, n, FirstBits(b))
      {
        if !Continues(At(s, pos + i)) {
          accepted := false;
          break;
        }
        bits := bits * 64 + At(s, pos + i) % 64;
        i := i + 1;
      }
    }
    if !accepted {
      return if policy.ReturnInvalid? then Parsed(INVALID_UTF8, pos) else Parsed(b, pos + 1);
    }
    return Parsed(bits, pos + n);
  }

  function Measure(s: seq<Byte>, pos: nat): nat {
    if pos <= |s| then |s| - pos else 0
  }

  /** All code points up to the terminator; an error replaces everything. */
  function All(s: seq<Byte>, pos: nat, policy: Policy): (r: seq<int>)
    ensures policy.ReturnByte? ==> forall i :: 0 <= i < |r| ==> r[i] >= 0
    decreases Measure(s, pos)
  {
    if At(s, pos) == 0 then []
    else
      var r := Next(s, pos, policy);
      NextMoves(s, pos, policy);
      if r.code == INVALID_UTF8 then [INVALID_UTF8]
      else
        var rest := All(s, r.next, policy);
        if rest == [INVALID_UTF8] then rest else [r.code] + rest
  }

  lemma AllStep(s: seq<Byte>, pos: nat, policy: Policy, codes: seq<int>)
    requires At(s, pos) != 0
    ensures
      var r := Next(s, pos, policy);
      if r.code == INVALID_UTF8 then All(s, pos, policy) == [INVALID_UTF8]
      else
        && (All(s, r.next, policy) == [INVALID_UTF8] <==> All(s, pos, policy) == [INVALID_UTF8])
        && codes + All(s, pos, policy) == if All(s, r.next, policy) == [INVALID_UTF8] then codes + [INVALID_UTF8]
                                          else codes + [r.code] + All(s, r.next, policy)
  {
    hide Next;
    var r := Next(s, pos, policy);
    if r.code != INVALID_UTF8 {
      NextMoves(s, pos, policy);
      var rest := All(s, r.next, policy);
      assert ([r.code] + rest)[0] == r.code && codes + ([r.code] + rest) == codes + [r.code] + rest;
    }
  }

  lemma AllEnds(s: seq<Byte>, pos: nat, policy: Policy)
    requires At(s, pos) == 0
    ensures All(s, pos, policy) == []
  {
  }

  /** Whatever the bytes, the loop ends. */
  method ParseAll(s: seq<Byte>, policy: Policy) returns (codes: seq<int>)
    ensures codes == All(s, 0, policy)
  {
    hide Next, All;
    codes := [];
    var pos := 0;
    assert [] + All(s, 0, policy) == All(s, 0, policy);
    while At(s, pos) != 0
      invariant All(s, 0, policy) == if All(s, pos, policy) == [INVALID_UTF8] then [INVALID_UTF8]
                                     else codes + All(s, pos, policy)
      decreases Measure(s, pos)
    {
      NextMoves(s, pos, policy);
      AllStep(s, pos, policy, codes);
      var r := ParseNext(s, pos, policy);
      if r.code == INVALID_UTF8 { return [INVALID_UTF8]; }
      codes := codes + [r.code];
      pos := r.next;
    }
    AllEnds(s, pos, policy);
  }

  // ---------------------------------------------------------------- round trip

  /** The text holds these bytes at pos. */
  predicate Holds(s: seq<Byte>, pos: nat, bytes: seq<Byte>) {
    pos + |bytes| <= |s| && s[pos..pos + |bytes|] == bytes
  }

  lemma HoldsAt(s: seq<Byte>, pos: nat, bytes: seq<Byte>, k: nat)
    requires Holds(s, pos, bytes) && k < |bytes|
    ensures At(s, pos + k) == bytes[k]
  {
    assert s[pos..pos + |bytes|][k] == bytes[k];
  }

  lemma Quotients(c: nat)
    requires c <= 0x10FFFF
    ensures c == (c / 64) * 64 + c % 64 && c / 64 == (c / 4096) * 64 + (c / 64) % 64
    ensures c / 4096 == (c / 262144) * 64 + (c / 4096) % 64 && c / 262144 < 8
    ensures c <= 0x7FF ==> c / 64 < 32
    ensures c <= 0xFFFF ==> c / 4096 < 16
  {
    assert c / 64 / 64 == c / 4096 && c / 4096 / 64 == c / 262144;
  }

  /** The code point of up to three continuation bytes in closed form. */
  lemma TailValue(s: seq<Byte>, pos: nat, bits: nat)
    ensures
      var x, y, z := At(s, pos + 1), At(s, pos + 2), At(s, pos + 3);
      && Tail(s, pos, 1, 1, bits) == Some(bits)
      && Tail(s, pos, 1, 2, bits) == (if Continues(x) then Some(bits * 64 + x % 64) else None)
      && Tail(s, pos, 1, 3, bits)
         == (if Continues(x) && Continues(y) then Some((bits * 64 + x % 64) * 64 + y % 64) else None)
      && Tail(s, pos, 1, 4, bits)
         == (if Continues(x) && Continues(y) && Continues(z)
             then Some(((bits * 64 + x % 64) * 64 + y % 64) * 64 + z % 64) else None)
  {
    var f, x, y, z := bits, At(s, pos + 1), At(s, pos + 2), At(s, pos + 3);
    var g := f * 64 + x % 64;
    var h := g * 64 + y % 64;
    assert Tail(s, pos, 2, 2, g) == Some(g);
    assert Tail(s, pos, 3, 3, h) == Some(h);
    assert Tail(s, pos, 2, 3, g) == if Continues(y) then Some(h) else None;
    assert Tail(s, pos, 4, 4, h * 64 + z % 64) == Some(h * 64 + z % 64);
    assert Tail(s, pos, 3, 4, h) == if Continues(z) then Some(h * 64 + z % 64) else None;
    assert Tail(s, pos, 2, 4, g) == if Continues(y) && Continues(z) then Some(h * 64 + z % 64) else None;
  }

  /** First and continuation bytes carry the bits they were built from. */
  lemma ByteBits(x: nat)
    requires x < 64
    ensures Continues(0x80 + x) && (0x80 + x) % 64 == x
    ensures x < 32 ==> Announced(0xC0 + x) == 2 && FirstBits(0xC0 + x) == x
    ensures x < 16 ==> Announced(0xE0 + x) == 3 && FirstBits(0xE0 + x) == x
    ensures x < 8 ==> Announced(0xF0 + x) == 4 && FirstBits(0xF0 + x) == x
  {
  }

  /** The bits of the first byte and of n - 1 continuation bytes. */
  function Joined(n: nat, f: nat, x: nat, y: nat, z: nat): nat {
    match n
    case 1 => f
    case 2 => f * 64 + x
    case 3 => (f * 64 + x) * 64 + y
    case _ => ((f * 64 + x) * 64 + y) * 64 + z
  }

  /** A first byte with its continuation bytes parses to the bits joined. */
  lemma NextOfBits(s: seq<Byte>, pos: nat, n: nat, f: nat, x: nat, y: nat, z: nat, policy: Policy)
    requires x < 64 && y < 64 && z < 64
    requires n >= 2 ==> At(s, pos + 1) == 0x80 + x
    requires n >= 3 ==> At(s, pos + 2) == 0x80 + y
    requires n >= 4 ==> At(s, pos + 3) == 0x80 + z
    requires match n
             case 1 => f <= 0x7F && At(s, pos) == f
             case 2 => f < 32 && At(s, pos) == 0xC0 + f
             case 3 => f < 16 && At(s, pos) == 0xE0 + f
             case 4 => f < 8 && At(s, pos) == 0xF0 + f
             case _ => false
    ensures Next(s, pos, policy)
            == Parsed(Joined(n, f, x, y, z),
                      pos + n)
  {
    hide Tail, Continues, Announced, FirstBits;
    ByteBits(x);
    ByteBits(y);
    ByteBits(z);
    if n == 1 { Ascii(f); } else { ByteBits(f); }
    TailValue(s, pos, f);
  }

  /** The bytes of a code point at a length, even when fewer would do. */
  function Spread(c: nat, n: nat): seq<int> {
    match n
    case 1 => [c]
    case 2 => [0xC0 + c / 64, 0x80 + c % 64]
    case 3 => [0xE0 + c / 4096, 0x80 + (c / 64) % 64, 0x80 + c % 64]
    case _ => [0xF0 + c / 262144, 0x80 + (c / 4096) % 64, 0x80 + (c / 64) % 64, 0x80 + c % 64]
  }

  lemma SmallRemainder(x: nat, m: nat)
    requires x < m
    ensures x % m == x
  {
  }

  lemma EncodedIsSpread(c: nat)
    requires c <= 0x10FFFF
    ensures Encoded(c) == Spread(c, |Encoded(c)|)
  {
    Quotients(c);
    if c <= 0x7F {
    } else if c <= 0x7FF {
      SmallRemainder(c / 64, 32);
    } else if c <= 0xFFFF {
      SmallRemainder(c / 4096, 16);
    } else {
      SmallRemainder(c / 262144, 8);
    }
  }

  /** Parsing gives a printed code point back and stops right behind it, whatever follows
      and under both policies. */
  lemma NextOfEncoded(s: seq<Byte>, pos: nat, c: nat, policy: Policy)
    requires c <= 0x10FFFF && Holds(s, pos, Encoded(c))
    ensures Next(s, pos, policy) == Parsed(c, pos + |Encoded(c)|)
  {
    hide Next, At, Holds;
    var e := Encoded(c);
    EncodedIsSpread(c);
    HoldsAt(s, pos, e, 0);
    Quotients(c);
    if |e| > 1 { HoldsAt(s, pos, e, 1); }
    if |e| > 2 { HoldsAt(s, pos, e, 2); }
    if |e| > 3 { HoldsAt(s, pos, e, 3); }
    hide Encoded;
    match |e|
    case 1 => NextOfBits(s, pos, 1, c, 0, 0, 0, policy);
    case 2 => NextOfBits(s, pos, 2, c / 64, c % 64, 0, 0, policy);
    case 3 => NextOfBits(s, pos, 3, c / 4096, (c / 64) % 64, c % 64, 0, policy);
    case _ => NextOfBits(s, pos, 4, c / 262144, (c / 4096) % 64, (c / 64) % 64, c % 64, policy);
  }

  lemma Ascii(b: Byte)
    requires b <= 0x7F
    ensures Announced(b) == 1 && FirstBits(b) == b
  {
  }

  predicate CodePoints(cs: seq<nat>) {
    forall i {:trigger cs[i]} :: 0 <= i < |cs| ==> cs[i] <= 0x10FFFF
  }

  function EncodedAll(cs: seq<nat>): seq<Byte>
    requires CodePoints(cs)
  {
    if cs == [] then [] else Encoded(cs[0]) + EncodedAll(cs[1..])
  }

  /** The code points before the first 0. */
  function UpToZero(cs: seq<nat>): seq<int> {
    if cs == [] || cs[0] == 0 then [] else [cs[0]] + UpToZero(cs[1..])
  }

  lemma FirstByteZero(c: nat)
    requires c <= 0x10FFFF
    ensures Encoded(c)[0] == 0 <==> c == 0
  {
  }

  lemma Fits(s: seq<Byte>, pos: nat, e: seq<Byte>, rest: seq<Byte>)
    requires pos <= |s| && s[pos..] == e + rest
    ensures Holds(s, pos, e) && s[pos + |e|..] == rest
  {
    assert s[pos..][..|e|] == e && s[pos..][|e|..] == rest;
  }

  lemma {:induction false} AllOfEncoded(s: seq<Byte>, pos: nat, cs: seq<nat>, policy: Policy)
    requires CodePoints(cs) && pos <= |s| && s[pos..] == EncodedAll(cs)
    ensures All(s, pos, policy) == UpToZero(cs)
    decreases |cs|
  {
    hide Next, Encoded, Holds;
    if cs != [] {
      var e := Encoded(cs[0]);
      Fits(s, pos, e, EncodedAll(cs[1..]));
      NextOfEncoded(s, pos, cs[0], policy);
      HoldsAt(s, pos, e, 0);
      FirstByteZero(cs[0]);
      if cs[0] != 0 {
        AllOfEncoded(s, pos + |e|, cs[1..], policy);
        NoNegative(cs[1..]);
        assert [cs[0]] + UpToZero(cs[1..]) == UpToZero(cs);
      }
    }
  }

  lemma {:induction false} NoNegative(cs: seq<nat>)
    ensures UpToZero(cs) == [] || UpToZero(cs)[0] > 0
    ensures |UpToZero(cs)| <= |cs| && (|UpToZero(cs)| == |cs| <==> 0 !in cs)
    ensures 0 !in cs ==> UpToZero(cs) == cs
  {
    if cs != [] && cs[0] != 0 { NoNegative(cs[1..]); }
  }

  /** Decoding the concatenated encodings gives the list back exactly if no code point is 0;
      then decoding stops at the first 0. */
  lemma RoundTrip(cs: seq<nat>, policy: Policy)
    requires CodePoints(cs)
    ensures All(EncodedAll(cs), 0, policy) == UpToZero(cs)
    ensures All(EncodedAll(cs), 0, policy) == cs <==> 0 !in cs
  {
    assert EncodedAll(cs)[0..] == EncodedAll(cs);
    AllOfEncoded(EncodedAll(cs), 0, cs, policy);
    NoNegative(cs);
  }

  /** What a first byte is made of. */
  lemma FirstByteBits(b: Byte)
    requires Announced(b) > 0
    ensures Announced(b) <= 4
    ensures b == match Announced(b)
            case 1 => FirstBits(b)
            case 2 => 0xC0 + FirstBits(b)
            case 3 => 0xE0 + FirstBits(b)
            case _ => 0xF0 + FirstBits(b)
    ensures FirstBits(b) < match Announced(b) case 1 => 128 case 2 => 32 case 3 => 16 case _ => 8
  {
  }

  lemma ContinuationBits(b: Byte)
    requires Continues(b)
    ensures b == 0x80 + b % 64
  {
  }

  lemma Append(f: nat, x: nat)
    requires x < 64
    ensures (f * 64 + x) / 64 == f && (f * 64 + x) % 64 == x
  {
  }

  /** Parsing is exact: the bytes consumed are those of the code point at that length. */
  lemma NextIsSpread(s: seq<Byte>, pos: nat)
    requires At(s, pos) != 0 && Next(s, pos, ReturnInvalid).code >= 0
    ensures
      var r := Next(s, pos, ReturnInvalid);
      && pos < r.next <= |s| && r.next - pos <= 4
      && s[pos..r.next] == Spread(r.code, r.next - pos)
  {
    NextMoves(s, pos, ReturnInvalid);
    assert At(s, |s|) == 0;
    SpreadBytes(s, pos);
    hide Next, At, Spread;
    var r := Next(s, pos, ReturnInvalid);
    BytesAt(s, pos, r.next);
  }

  lemma BytesAt(s: seq<Byte>, pos: nat, next: nat)
    requires pos <= next <= |s|
    ensures forall k :: 0 <= k < next - pos ==> s[pos..next][k] == At(s, pos + k)
  {
  }

  /** The bytes consumed, one by one. */
  lemma SpreadBytes(s: seq<Byte>, pos: nat)
    requires At(s, pos) != 0 && Next(s, pos, ReturnInvalid).code >= 0
    ensures
      var r := Next(s, pos, ReturnInvalid);
      && pos < r.next <= pos + 4
      && |Spread(r.code, r.next - pos)| == r.next - pos
      && forall k {:trigger Spread(r.code, r.next - pos)[k]} :: 0 <= k < r.next - pos ==>
           At(s, pos + k) == Spread(r.code, r.next - pos)[k]
  {
    var r := Next(s, pos, ReturnInvalid);
    var n := Announced(At(s, pos));
    hide Tail, Continues, Announced, FirstBits, At;
    var b, x, y, z := At(s, pos), At(s, pos + 1), At(s, pos + 2), At(s, pos + 3);
    var f := FirstBits(b);
    FirstByteBits(b);
    TailValue(s, pos, f);
    hide Spread;
    SpreadOf(n, f, x % 64, y % 64, z % 64);
    if n >= 2 { ContinuationBits(x); }
    if n >= 3 { ContinuationBits(y); }
    if n >= 4 { ContinuationBits(z); }
  }

  lemma SpreadOf(n: nat, f: nat, x: nat, y: nat, z: nat)
    requires x < 64 && y < 64 && z < 64 && 1 <= n <= 4
    ensures match n
            case 1 => Spread(f, 1) == [f]
            case 2 => Spread(f * 64 + x, 2) == [0xC0 + f, 0x80 + x]
            case 3 => Spread((f * 64 + x) * 64 + y, 3) == [0xE0 + f, 0x80 + x, 0x80 + y]
            case _ => Spread(((f * 64 + x) * 64 + y) * 64 + z, 4) == [0xF0 + f, 0x80 + x, 0x80 + y, 0x80 + z]
  {
    var g := f * 64 + x;
    var h := g * 64 + y;
    Append(f, x);
    Append(g, y);
    Append(h, z);
    assert h / 4096 == h / 64 / 64;
    assert (h * 64 + z) / 4096 == (h * 64 + z) / 64 / 64;
    assert (h * 64 + z) / 262144 == (h * 64 + z) / 64 / 64 / 64;
  }

  /** The bytes at pos do not begin a form longer than needed. */
  predicate Shortest(s: seq<Byte>, pos: nat) {
    var b, x := At(s, pos), At(s, pos + 1);
    b != 0xC0 && b != 0xC1 && (b == 0xE0 ==> x >= 0xA0) && (b == 0xF0 ==> x >= 0x90)
  }

  /** The bytes at pos do not begin a code point beyond the last one. */
  predicate WithinLast(s: seq<Byte>, pos: nat) {
    At(s, pos) < 0xF4 || (At(s, pos) == 0xF4 && At(s, pos + 1) <= 0x8F)
  }

  /** The least and the largest code point with n bytes, by the first bits. */
  lemma LengthOf(n: nat, f: nat, x: nat, y: nat, z: nat)
    requires x < 64 && y < 64 && z < 64 && 1 <= n <= 4
    requires f < match n case 1 => 128 case 2 => 32 case 3 => 16 case _ => 8
    ensures
      var c := Joined(n, f, x, y, z);
      c <= 0x10FFFF && |Encoded(c)| == n
      <==> match n
           case 1 => true
           case 2 => f >= 2
           case 3 => f > 0 || x >= 32
           case _ => (f > 0 || x >= 16) && (f < 4 || (f == 4 && x < 16))
  {
  }

  /** The code point parsed has the length of its bytes exactly if the bytes say so. */
  lemma LengthIff(s: seq<Byte>, pos: nat)
    requires At(s, pos) != 0 && Next(s, pos, ReturnInvalid).code >= 0
    ensures
      var r := Next(s, pos, ReturnInvalid);
      r.code <= 0x10FFFF && |Encoded(r.code)| == r.next - pos <==> Shortest(s, pos) && WithinLast(s, pos)
  {
    var n := Announced(At(s, pos));
    hide Tail, Continues, Announced, FirstBits, At;
    var b, x, y, z := At(s, pos), At(s, pos + 1), At(s, pos + 2), At(s, pos + 3);
    var f := FirstBits(b);
    FirstByteBits(b);
    TailValue(s, pos, f);
    hide Encoded;
    LengthOf(n, f, x % 64, y % 64, z % 64);
    if n >= 2 { ContinuationBits(x); }
  }

  /** A parsed sequence prints to the same bytes exactly if they are the shortest form and do
      not go beyond the last code point. */
  lemma PrintsBackIff(s: seq<Byte>, pos: nat)
    requires At(s, pos) != 0 && Next(s, pos, ReturnInvalid).code >= 0
    ensures
      var r := Next(s, pos, ReturnInvalid);
      && pos < r.next <= |s|
      && (PrintAsUtf8(r.code) == Some(s[pos..r.next]) <==> Shortest(s, pos) && WithinLast(s, pos))
  {
    hide Next, At, Shortest, WithinLast;
    NextIsSpread(s, pos);
    LengthIff(s, pos);
    var r := Next(s, pos, ReturnInvalid);
    if r.code <= 0x10FFFF { EncodedIsSpread(r.code); }
  }

  // ---------------------------------------------------------------- whole texts

  /** The examples of section 7 of RFC 3629 and one code point of each length. */
  lemma EncodedExamples()
    ensures Encoded(0x24) == [0x24] && Encoded(0xA2) == [0xC2, 0xA2]
    ensures Encoded(0x2262) == [0xE2, 0x89, 0xA2] && Encoded(0x65E5) == [0xE6, 0x97, 0xA5]
    ensures Encoded(0x233B4) == [0xF0, 0xA3, 0x8E, 0xB4]
  {
  }

  predicate Between(b: Byte, low: Byte, high: Byte) {
    low <= b <= high
  }

  /** A first byte with as many continuation bytes as it announces. */
  predicate WellFormed(s: seq<Byte>, pos: nat) {
    var b, x, y, z := At(s, pos), At(s, pos + 1), At(s, pos + 2), At(s, pos + 3);
    || b < 0x80
    || (Between(b, 0xC0, 0xDF) && Between(x, 0x80, 0xBF))
    || (Between(b, 0xE0, 0xEF) && Between(x, 0x80, 0xBF) && Between(y, 0x80, 0xBF))
    || (Between(b, 0xF0, 0xF7) && Between(x, 0x80, 0xBF) && Between(y, 0x80, 0xBF) && Between(z, 0x80, 0xBF))
  }

  lemma ContinuesIff(b: Byte)
    ensures Continues(b) <==> 0x80 <= b <= 0xBF
  {
  }

  /** A well-formed sequence gives the same code point under both policies and moves on by its
      length. Otherwise one policy reports the error where it is and the other gives the byte. */
  lemma NextByPolicy(s: seq<Byte>, pos: nat)
    ensures
      var b, valid, byte := At(s, pos), Next(s, pos, ReturnInvalid), Next(s, pos, ReturnByte);
      if WellFormed(s, pos) then
        && valid == byte && valid.code >= 0
        && valid.next == pos + (if b < 0x80 then 1 else if b < 0xE0 then 2 else if b < 0xF0 then 3 else 4)
      else valid == Parsed(-10, pos) && byte == Parsed(b, pos + 1)
  {
    var b := At(s, pos);
    ContinuesIff(At(s, pos + 1));
    ContinuesIff(At(s, pos + 2));
    ContinuesIff(At(s, pos + 3));
    if Announced(b) > 0 {
      TailValue(s, pos, FirstBits(b));
    }
    hide Tail, Continues, FirstBits, At;
  }

  /** Somewhere on the way the bytes are not well formed. */
  predicate Breaks(s: seq<Byte>, pos: nat)
    decreases Measure(s, pos)
  {
    At(s, pos) != 0 &&
    (NextMoves(s, pos, ReturnByte);
     !WellFormed(s, pos) || Breaks(s, Next(s, pos, ReturnByte).next))
  }

  /** The policy that reports errors gives the single error exactly if the bytes break somewhere,
      and otherwise the same code points as the other, which never gives up. */
  lemma {:induction false} AllByPolicy(s: seq<Byte>, pos: nat)
    ensures All(s, pos, ReturnInvalid) == if Breaks(s, pos) then [-10] else All(s, pos, ReturnByte)
    decreases Measure(s, pos)
  {
    hide Next, WellFormed;
    if At(s, pos) != 0 {
      NextByPolicy(s, pos);
      NextMoves(s, pos, ReturnByte);
      AllStep(s, pos, ReturnByte, []);
      AllStep(s, pos, ReturnInvalid, []);
      var next := Next(s, pos, ReturnByte).next;
      if WellFormed(s, pos) { AllByPolicy(s, next); }
    }
  }

  /** All the bytes up to the terminator are shortest forms of code points in range. */
  predicate Canonical(s: seq<Byte>, pos: nat)
    decreases Measure(s, pos)
  {
    At(s, pos) == 0 ||
    (NextMoves(s, pos, ReturnByte);
     WellFormed(s, pos) && Shortest(s, pos) && WithinLast(s, pos) && Canonical(s, Next(s, pos, ReturnByte).next))
  }

  /** Printing what was parsed from such bytes gives back the bytes before the terminator. */
  lemma {:induction false} TextPrintsBack(s: seq<Byte>, pos: nat, end: nat)
    requires Canonical(s, pos) && pos <= end <= |s| && At(s, end) == 0
    requires forall i {:trigger At(s, i)} :: pos <= i < end ==> At(s, i) != 0
    ensures CodePoints(All(s, pos, ReturnByte)) && EncodedAll(All(s, pos, ReturnByte)) == s[pos..end]
    decreases Measure(s, pos)
  {
    hide Next, WellFormed, Shortest, WithinLast, Encoded;
    if pos < end {
      NextByPolicy(s, pos);
      NextMoves(s, pos, ReturnByte);
      PrintsBackIff(s, pos);
      AllFirst(s, pos);
      var r := Next(s, pos, ReturnByte);
      assert r.next <= end;
      TextPrintsBack(s, r.next, end);
      PrintsStep(s, pos, r.next, end, r.code, All(s, r.next, ReturnByte));
    } else {
      AllEnds(s, pos, ReturnByte);
    }
  }

  lemma AllFirst(s: seq<Byte>, pos: nat)
    requires At(s, pos) != 0
    ensures All(s, pos, ReturnByte)
            == [Next(s, pos, ReturnByte).code] + All(s, Next(s, pos, ReturnByte).next, ReturnByte)
  {
    hide Next;
    NextMoves(s, pos, ReturnByte);
    AllNatural(s, Next(s, pos, ReturnByte).next);
  }

  lemma AllNatural(s: seq<Byte>, pos: nat)
    ensures All(s, pos, ReturnByte) != [INVALID_UTF8]
  {
    if All(s, pos, ReturnByte) != [] { assert All(s, pos, ReturnByte)[0] >= 0; }
  }

  lemma PrintsStep(s: seq<Byte>, pos: nat, next: nat, end: nat, code: int, rest: seq<nat>)
    requires pos <= next <= end <= |s| && 0 <= code <= 0x10FFFF && Encoded(code) == s[pos..next]
    requires CodePoints(rest) && EncodedAll(rest) == s[next..end]
    ensures CodePoints([code] + rest) && EncodedAll([code] + rest) == s[pos..end]
  {
    hide Encoded;
    assert ([code] + rest)[1..] == rest;
    assert s[pos..end] == s[pos..next] + s[next..end];
  }
}
