/** The Base64 codec of yaml-cpp, after section 4 of RFC 4648. */
module Base64 {

  import opened Words

  /** A digit of the encoding. */
  type six = x: int | 0 <= x < 64

  const PAD: byte := '=' as int

  /** One entry of the encoding alphabet. */
  function Letter(v: six): (c: byte)
    ensures Sextet(c) == v && !IsSpace(c) && c != PAD
  {
    if v < 26 then 65 + v
    else if v < 52 then 71 + v
    else if v < 62 then v - 4
    else if v == 62 then 43
    else 47
  }

  /** One entry of the decoding table: 255 marks a character outside the alphabet, the padding
      character stands for six zero bits. */
  function Sextet(c: byte): (d: byte)
    ensures d < 64 || d == 255
  {
    if 65 <= c <= 90 then c - 65
    else if 97 <= c <= 122 then c - 71
    else if 48 <= c <= 57 then c + 4
    else if c == 43 then 62
    else if c == 47 then 63
    else if c == PAD then 0
    else 255
  }

  /** isspace in the C locale. */
  predicate IsSpace(c: byte) {
    c == 32 || 9 <= c <= 13
  }

  // ----- reference encoding: 24-bit groups read as four six-bit digits

  ghost function Group24(a: byte, b: byte, c: byte): (v: int)
    ensures 0 <= v < 0x1000000
  {
    a * 65536 + b * 256 + c
  }

  ghost function Digits(v: int): (r: seq<byte>)
    requires 0 <= v < 0x1000000
    ensures |r| == 4
  {
    [Letter(v / 262144), Letter(v / 4096 % 64), Letter(v / 64 % 64), Letter(v % 64)]
  }

  ghost function Encoded(x: seq<byte>): (r: seq<byte>) {
    if x == [] then []
    else if |x| == 1 then Digits(Group24(x[0], 0, 0))[..2] + [PAD, PAD]
    else if |x| == 2 then Digits(Group24(x[0], x[1], 0))[..3] + [PAD]
    else Digits(Group24(x[0], x[1], x[2])) + Encoded(x[3..])
  }

  // ----- the tables, against RFC 4648

  /** Table 1 of section 4, entry by entry. */
  lemma Alphabet()
    ensures Letter(0) == 'A' as int && Letter(1) == 'B' as int && Letter(2) == 'C' as int && Letter(3) == 'D' as int
    ensures Letter(4) == 'E' as int && Letter(5) == 'F' as int && Letter(6) == 'G' as int && Letter(7) == 'H' as int
    ensures Letter(8) == 'I' as int && Letter(9) == 'J' as int && Letter(10) == 'K' as int && Letter(11) == 'L' as int
    ensures Letter(12) == 'M' as int && Letter(13) == 'N' as int && Letter(14) == 'O' as int && Letter(15) == 'P' as int
    ensures Letter(16) == 'Q' as int && Letter(17) == 'R' as int && Letter(18) == 'S' as int && Letter(19) == 'T' as int
    ensures Letter(20) == 'U' as int && Letter(21) == 'V' as int && Letter(22) == 'W' as int && Letter(23) == 'X' as int
    ensures Letter(24) == 'Y' as int && Letter(25) == 'Z' as int && Letter(26) == 'a' as int && Letter(27) == 'b' as int
    ensures Letter(28) == 'c' as int && Letter(29) == 'd' as int && Letter(30) == 'e' as int && Letter(31) == 'f' as int
    ensures Letter(32) == 'g' as int && Letter(33) == 'h' as int && Letter(34) == 'i' as int && Letter(35) == 'j' as int
    ensures Letter(36) == 'k' as int && Letter(37) == 'l' as int && Letter(38) == 'm' as int && Letter(39) == 'n' as int
    ensures Letter(40) == 'o' as int && Letter(41) == 'p' as int && Letter(42) == 'q' as int && Letter(43) == 'r' as int
    ensures Letter(44) == 's' as int && Letter(45) == 't' as int && Letter(46) == 'u' as int && Letter(47) == 'v' as int
    ensures Letter(48) == 'w' as int && Letter(49) == 'x' as int && Letter(50) == 'y' as int && Letter(51) == 'z' as int
    ensures Letter(52) == '0' as int && Letter(53) == '1' as int && Letter(54) == '2' as int && Letter(55) == '3' as int
    ensures Letter(56) == '4' as int && Letter(57) == '5' as int && Letter(58) == '6' as int && Letter(59) == '7' as int
    ensures Letter(60) == '8' as int && Letter(61) == '9' as int && Letter(62) == '+' as int && Letter(63) == '/' as int
  {
  }

  /** 255 marks exactly what is neither in the alphabet nor the padding character. */
  lemma Foreign(c: byte)
    ensures Sextet(c) == 255 <==> c != '=' as int && forall v: six :: Letter(v) != c
    ensures Sextet('=' as int) == 0
    ensures IsSpace(c) <==> c in {9, 10, 11, 12, 13, 32}
  {
    if Sextet(c) != 255 && c != PAD {
      assert Letter(Sextet(c)) == c;
    }
  }

  /** Two letters that are easily exchanged. */
  lemma PlusAndSlash()
    ensures Encoded([0xFB, 0xFF, 0xBF]) == ['+' as int, '/' as int, '+' as int, '/' as int]
  {
    assert [0xFB, 0xFF, 0xBF][3..] == [];
    assert Encoded([]) == [];
  }

  lemma {:induction false} EncodedLength(x: seq<byte>)
    ensures |Encoded(x)| == 4 * ((|x| + 2) / 3)
  {
    hide Digits;
    if |x| >= 3 {
      EncodedLength(x[3..]);
    }
  }

  // The encoder's shifts and masks: first byte, first and second, second and third, third.

  function Top6(a: byte): six { a / 4 }
  function Low2High4(a: byte, b: byte): six { a % 4 * 16 + b / 16 }
  function Low4High2(b: byte, c: byte): six { b % 16 * 4 + c / 64 }
  function Low6(c: byte): six { c % 64 }

  /** They pick out the digits of the group. */
  lemma ShiftsAreDigits(a: byte, b: byte, c: byte)
    ensures Digits(Group24(a, b, c))
            == [Letter(Top6(a)), Letter(Low2High4(a, b)), Letter(Low4High2(b, c)), Letter(Low6(c))]
  {
    hide Letter;
    FirstDigits(a, b, c);
    LastDigits(a, b, c);
  }

  lemma FirstDigits(a: byte, b: byte, c: byte)
    ensures Group24(a, b, c) / 262144 == Top6(a)
    ensures Group24(a, b, c) / 4096 % 64 == Low2High4(a, b)
  {
    assert Group24(a, b, c) / 4096 == a * 16 + b / 16;
    OneDigit(a * 16 + b / 16, a / 4);
  }

  lemma LastDigits(a: byte, b: byte, c: byte)
    ensures Group24(a, b, c) / 64 % 64 == Low4High2(b, c)
    ensures Group24(a, b, c) % 64 == Low6(c)
  {
    OneDigit(c, c / 64);
    OneDigit(Group24(a, b, c), a * 1024 + b * 4 + c / 64);
    OneDigit(a * 1024 + b * 4 + c / 64, a * 16 + b / 16);
  }

  lemma OneDigit(v: int, q: int)
    requires 64 * q <= v < 64 * q + 64
    ensures v / 64 == q && v % 64 == v - 64 * q
  {
  }

  lemma EncodedNext(x: seq<byte>)
    requires |x| >= 3
    ensures Encoded(x)
            == [Letter(Top6(x[0])), Letter(Low2High4(x[0], x[1])), Letter(Low4High2(x[1], x[2])), Letter(Low6(x[2]))]
                           + Encoded(x[3..])
  {
    hide Digits, Letter, Top6, Low2High4, Low4High2, Low6;
    ShiftsAreDigits(x[0], x[1], x[2]);
  }

  lemma EncodedOne(x: seq<byte>)
    requires |x| == 1
    ensures Encoded(x) == [Letter(Top6(x[0])), Letter(Low2High4(x[0], 0)), PAD, PAD]
  {
    hide Digits, Letter, Top6, Low2High4, Low4High2, Low6, Group24;
    ShiftsAreDigits(x[0], 0, 0);
  }

  lemma EncodedTwo(x: seq<byte>)
    requires |x| == 2
    ensures Encoded(x) == [Letter(Top6(x[0])), Letter(Low2High4(x[0], x[1])), Letter(Low4High2(x[1], 0)), PAD]
  {
    hide Digits, Letter, Top6, Low2High4, Low4High2, Low6, Group24;
    ShiftsAreDigits(x[0], x[1], 0);
  }

  lemma NothingEncoded()
    ensures Encoded([]) == []
  {
  }

  /** Four times *out++ = c. */
  method PutFour(text: array<byte>, out: nat, a: byte, b: byte, c: byte, d: byte) returns (next: nat)
    requires out + 4 <= text.Length
    modifies text
    ensures next == out + 4 && text[..next] == old(text[..out]) + [a, b, c, d]
  {
    text[out] := a;
    text[out + 1] := b;
    text[out + 2] := c;
    text[out + 3] := d;
    next := out + 4;
  }

  /** EncodeBase64. The text buffer is sized up front and cut at the end. */
  method EncodeBase64(data: array<byte>) returns (ret: seq<byte>)
    ensures ret == Encoded(data[..])
    ensures |ret| == 4 * ((data.Length + 2) / 3)
  {
    hide Encoded, Letter, Top6, Low2High4, Low4High2, Low6;
    var size := data.Length;
    var text := new byte[4 * size / 3 + 3];
    var out := 0;
    var chunks, remainder := size / 3, size % 3;
    EncodedLength(data[..]);
    var at := 0;
    for i := 0 to chunks
      invariant at == 3 * i && out == 4 * i
      invariant text[..out] + Encoded(data[..][at..]) == Encoded(data[..])
    {
      EncodedNext(data[..][at..]);
      assert data[..][at..][3..] == data[..][at + 3..];
      out := PutFour(text, out, Letter(Top6(data[at])), Letter(Low2High4(data[at], data[at + 1])),
                     Letter(Low4High2(data[at + 1], data[at + 2])), Letter(Low6(data[at + 2])));
      at := at + 3;
    }
    if remainder == 1 {
      EncodedOne(data[..][at..]);
      out := PutFour(text, out, Letter(Top6(data[at])), Letter(Low2High4(data[at], 0)), PAD, PAD);
    } else if remainder == 2 {
      EncodedTwo(data[..][at..]);
      out := PutFour(text, out, Letter(Top6(data[at])), Letter(Low2High4(data[at], data[at + 1])),
                     Letter(Low4High2(data[at + 1], 0)), PAD);
    } else {
      NothingEncoded();
    }
    ret := text[..out];
  }

  // ----- reference decoding

  /** A character that counts, and whether the character just before it in the text, blanks
      included, is the padding character. */
  datatype Token = Token(c: byte, afterPad: bool)

  ghost function Tokens(prev: byte, s: seq<byte>): seq<Token>
    decreases |s|
  {
    if s == [] then [] else TokenOf(prev, s[0]) + Tokens(s[0], s[1..])
  }

  ghost function TokenOf(prev: byte, c: byte): seq<Token> {
    if IsSpace(c) then [] else [Token(c, prev == PAD)]
  }

  ghost function Last(prev: byte, s: seq<byte>): byte {
    if s == [] then prev else s[|s| - 1]
  }

  /** The value of the digits, most significant first. */
  ghost function Value(ts: seq<Token>): int {
    if ts == [] then 0 else Value(ts[..|ts| - 1]) * 64 + Sextet(ts[|ts| - 1].c)
  }

  ghost function GroupBytes(v: int, last: Token): seq<byte> {
    [v / 65536 % 256] + (if last.afterPad then [] else [v / 256 % 256]) + (if last.c == PAD then [] else [v % 256])
  }

  /** The bytes of the complete groups. */
  ghost function Bytes(ts: seq<Token>): seq<byte> {
    if |ts| < 4 then [] else GroupBytes(Value(ts[..4]), ts[3]) + Bytes(ts[4..])
  }

  ghost predicate InAlphabet(s: seq<byte>) {
    forall i :: 0 <= i < |s| ==> IsSpace(s[i]) || Sextet(s[i]) != 255
  }

  ghost function Decoded(s: seq<byte>): seq<byte> {
    if InAlphabet(s) then Bytes(Tokens(0, s)) else []
  }

  lemma {:induction false} TokensAppend(prev: byte, a: seq<byte>, b: seq<byte>)
    ensures Tokens(prev, a + b) == Tokens(prev, a) + Tokens(Last(prev, a), b)
    decreases |a|
  {
    hide TokenOf;
    if a == [] {
      assert a + b == b;
    } else {
      TokensAppend(a[0], a[1..], b);
      assert (a + b)[1..] == a[1..] + b;
    }
  }

  lemma {:induction false} BytesAppend(a: seq<Token>, b: seq<Token>)
    requires |a| % 4 == 0
    ensures Bytes(a + b) == Bytes(a) + Bytes(b)
    decreases |a|
  {
    hide GroupBytes, Value;
    if a == [] {
      assert a + b == b;
    } else {
      BytesAppend(a[4..], b);
      assert (a + b)[..4] == a[..4] && (a + b)[4..] == a[4..] + b;
      GroupFirst(GroupBytes(Value(a[..4]), a[3]), Bytes(a[4..]), Bytes(b));
    }
  }

  // ----- the decoder

  /** The tokens after the last complete group. */
  ghost function Open(ts: seq<Token>): (g: seq<Token>)
    ensures |g| == |ts| % 4
  {
    ts[|ts| - |ts| % 4..]
  }

  lemma OpenNext(ts: seq<Token>, t: Token)
    ensures Open(ts + [t]) == if |ts| % 4 == 3 then [] else Open(ts) + [t]
  {
  }

  lemma {:induction false} BytesNext(ts: seq<Token>, t: Token)
    ensures Bytes(ts + [t]) == if |ts| % 4 == 3 then Bytes(ts) + GroupBytes(Value(Open(ts) + [t]), t) else Bytes(ts)
    decreases |ts|
  {
    hide GroupBytes, Value, Open;
    if |ts| < 4 {
      OpenAll(ts);
      assert |ts| == 3 ==> (ts + [t])[..4] == ts + [t];
    } else {
      BytesNext(ts[4..], t);
      assert (ts + [t])[..4] == ts[..4] && (ts + [t])[4..] == ts[4..] + [t];
      OpenLater(ts);
      GroupFirst(GroupBytes(Value(ts[..4]), ts[3]), Bytes(ts[4..]), GroupBytes(Value(Open(ts) + [t]), t));
    }
  }

  lemma OpenAll(ts: seq<Token>)
    requires |ts| < 4
    ensures Open(ts) == ts
  {
  }

  lemma OpenLater(ts: seq<Token>)
    requires |ts| >= 4
    ensures Open(ts[4..]) == Open(ts)
  {
  }

  lemma GroupFirst(a: seq<byte>, b: seq<byte>, c: seq<byte>)
    ensures a + (b + c) == a + b + c
  {
  }

  lemma ValueNext(g: seq<Token>, t: Token)
    ensures Value(g + [t]) == Value(g) * 64 + Sextet(t.c)
  {
    assert (g + [t])[..|g|] == g;
  }

  /** The 32-bit value ends with the digits of the open group; what came before is left above them. */
  ghost predicate Holds(value: u32, g: seq<Token>) {
    && |g| <= 4
    && (|g| == 0 ==> Value(g) == 0)
    && (|g| == 1 ==> value % 64 == Value(g))
    && (|g| == 2 ==> value % 4096 == Value(g))
    && (|g| == 3 ==> value % 262144 == Value(g))
    && (|g| == 4 ==> value % 16777216 == Value(g))
  }

  /** value << 6 | d, in 32 bits. */
  function Shifted(value: u32, d: byte): u32
    requires d < 64
  {
    value * 64 % 0x1_0000_0000 + d
  }

  lemma ShiftedEndsWith(value: u32, d: byte)
    requires d < 64
    ensures Shifted(value, d) % 64 == d
    ensures Shifted(value, d) % 4096 == value % 64 * 64 + d
    ensures Shifted(value, d) % 262144 == value % 4096 * 64 + d
    ensures Shifted(value, d) % 16777216 == value % 262144 * 64 + d
  {
    LowTwo(value, d);
    LowThree(value, d);
    LowFour(value, d);
  }

  lemma LowTwo(value: u32, d: byte)
    requires d < 64
    ensures Shifted(value, d) % 64 == d && Shifted(value, d) % 4096 == value % 64 * 64 + d
  {
    var high, low := value / 64, value % 64;
    assert Shifted(value, d) == (high - high / 0x10_0000 * 0x10_0000) * 4096 + (low * 64 + d);
  }

  lemma LowThree(value: u32, d: byte)
    requires d < 64
    ensures Shifted(value, d) % 262144 == value % 4096 * 64 + d
  {
    var high, low := value / 4096, value % 4096;
    assert Shifted(value, d) == (high - high / 0x4000 * 0x4000) * 262144 + (low * 64 + d);
  }

  lemma LowFour(value: u32, d: byte)
    requires d < 64
    ensures Shifted(value, d) % 16777216 == value % 262144 * 64 + d
  {
    var high, low := value / 262144, value % 262144;
    assert Shifted(value, d) == (high - high / 0x100 * 0x100) * 16777216 + (low * 64 + d);
  }

  lemma HoldsNext(value: u32, g: seq<Token>, t: Token)
    requires Holds(value, g) && |g| < 4 && Sextet(t.c) < 64
    ensures Holds(Shifted(value, Sextet(t.c)), g + [t])
  {
    hide Shifted, Value, Sextet;
    ValueNext(g, t);
    ShiftedEndsWith(value, Sextet(t.c));
  }

  lemma LowBytes(value: u32, v: int)
    requires value % 16777216 == v
    ensures v / 65536 % 256 == value / 65536 % 256
    ensures v / 256 % 256 == value / 256 % 256
    ensures v % 256 == value % 256
  {
    var q := value / 16777216;
    assert value == q * 16777216 + v;
    assert value / 65536 == q * 256 + v / 65536;
    assert value / 256 == q * 65536 + v / 256;
  }

  lemma TokensNext(s: seq<byte>, i: nat)
    requires i < |s|
    ensures Tokens(0, s[..i + 1]) == Tokens(0, s[..i]) + TokenOf(Last(0, s[..i]), s[i])
  {
    assert s[..i + 1] == s[..i] + [s[i]];
    TokensAppend(0, s[..i], [s[i]]);
    assert [s[i]][1..] == [];
  }

  /** Up to three times *out++ = value >> k. */
  method PutGroup(buffer: array<byte>, out: nat, value: u32, second: bool, third: bool) returns (next: nat)
    requires out + 3 <= buffer.Length
    modifies buffer
    ensures next <= out + 3
    ensures buffer[..next] == old(buffer[..out]) + [value / 65536 % 256]
      + (if second then [value / 256 % 256] else []) + (if third then [value % 256] else [])
  {
    next := out;
    buffer[next] := value / 65536 % 256;
    next := next + 1;
    if second {
      buffer[next] := value / 256 % 256;
      next := next + 1;
    }
    if third {
      buffer[next] := value % 256;
      next := next + 1;
    }
  }

  /** DecodeBase64, over a 32-bit value that is never cleared between groups. */
  method DecodeBase64(input: seq<byte>) returns (ret: seq<byte>)
    ensures ret == Decoded(input)
  {
    hide Tokens, Bytes, Value, Sextet, Shifted, GroupBytes, Open, Holds;
    if input == [] {
      NothingDecoded();
      return [];
    }
    var buffer := new byte[3 * |input| / 4 + 1];
    var out: nat, value: u32, cnt := 0, 0, 0;
    ghost var ts: seq<Token> := [];
    NothingDecoded();
    for i := 0 to |input|
      invariant InAlphabet(input[..i])
      invariant ts == Tokens(0, input[..i]) && cnt == |ts| <= i
      invariant Holds(value, Open(ts))
      invariant out <= 3 * (cnt / 4) && buffer[..out] == Bytes(ts)
    {
      TokensNext(input, i);
      if IsSpace(input[i]) {
        continue;
      }
      var d := Sextet(input[i]);
      if d == 255 {
        return [];
      }
      ghost var t := Token(input[i], Last(0, input[..i]) == PAD);
      HoldsNext(value, Open(ts), t);
      BytesNext(ts, t);
      OpenNext(ts, t);
      value := Shifted(value, d);
      if cnt % 4 == 3 {
        out := PutGroup(buffer, out, value, i > 0 && input[i - 1] != PAD, input[i] != PAD);
        GroupWritten(value, Open(ts) + [t], t);
        NothingHeld(value);
      }
      ts := ts + [t];
      cnt := cnt + 1;
    }
    assert input[..|input|] == input;
    ret := buffer[..out];
  }

  lemma GroupWritten(value: u32, g: seq<Token>, t: Token)
    requires Holds(value, g) && |g| == 4
    ensures GroupBytes(Value(g), t) ==
      [value / 65536 % 256] + (if t.afterPad then [] else [value / 256 % 256])
          + (if t.c == PAD then [] else [value % 256])
  {
    LowBytes(value, Value(g));
  }

  lemma NothingHeld(value: u32)
    ensures Holds(value, [])
  {
  }

  lemma NothingDecoded()
    ensures Tokens(0, []) == [] && Bytes([]) == [] && Open([]) == [] && Holds(0, [])
  {
  }

  // ----- the round trip

  lemma DigitsTokens(prev: byte, g: seq<byte>, rest: seq<byte>)
    requires |g| == 4 && forall i :: 0 <= i < 4 ==> !IsSpace(g[i])
    ensures Tokens(prev, g + rest) ==
      [Token(g[0], prev == PAD), Token(g[1], g[0] == PAD), Token(g[2], g[1] == PAD), Token(g[3], g[2] == PAD)]
          + Tokens(g[3], rest)
  {
    TokensAppend(prev, g, rest);
    TokensAppend(prev, [g[0]], g[1..]);
    assert g == [g[0]] + g[1..];
    assert [g[0]][1..] == [];
    FourTokens(g);
  }

  lemma FourTokens(g: seq<byte>)
    requires |g| == 4
    ensures Tokens(g[0], g[1..]) == TokenOf(g[0], g[1]) + (TokenOf(g[1], g[2]) + TokenOf(g[2], g[3]))
  {
    hide TokenOf;
    assert g[1..][1..] == g[2..] && g[2..][1..] == g[3..] && g[3..][1..] == [];
    assert Tokens(g[2], g[3..]) == TokenOf(g[2], g[3]) + [];
    assert Tokens(g[1], g[2..]) == TokenOf(g[1], g[2]) + TokenOf(g[2], g[3]);
  }

  lemma ValueOfFour(a: Token, b: Token, c: Token, d: Token)
    ensures Value([a, b, c, d]) == Sextet(a.c) * 262144 + Sextet(b.c) * 4096 + Sextet(c.c) * 64 + Sextet(d.c)
  {
    hide Sextet;
    ValueNext([], a);
    ValueNext([a], b);
    ValueNext([a, b], c);
    ValueNext([a, b, c], d);
    assert [] + [a] == [a] && [a] + [b] == [a, b] && [a, b] + [c] == [a, b, c] && [a, b, c] + [d] == [a, b, c, d];
  }

  lemma DigitsOfValue(v: int)
    requires 0 <= v < 0x1000000
    ensures v / 262144 * 262144 + v / 4096 % 64 * 4096 + v / 64 % 64 * 64 + v % 64 == v
  {
    OneDigit(v, v / 64);
    OneDigit(v / 64, v / 4096);
    OneDigit(v / 4096, v / 262144);
  }

  lemma BytesOfGroup(a: byte, b: byte, c: byte)
    ensures Group24(a, b, c) / 65536 % 256 == a && Group24(a, b, c) / 256 % 256 == b && Group24(a, b, c) % 256 == c
  {
    assert Group24(a, b, c) == a * 65536 + (b * 256 + c) == (a * 256 + b) * 256 + c;
    assert Group24(a, b, c) / 65536 == a;
    assert Group24(a, b, c) / 256 == a * 256 + b;
  }

  /** A four-character group in front decodes on its own. */
  lemma GroupDecodes(prev: byte, g: seq<byte>, rest: seq<byte>)
    requires |g| == 4 && forall i :: 0 <= i < 4 ==> !IsSpace(g[i])
    ensures Bytes(Tokens(prev, g + rest)) ==
      GroupBytes(Sextet(g[0]) * 262144 + Sextet(g[1]) * 4096 + Sextet(g[2]) * 64 + Sextet(g[3]),
                 Token(g[3], g[2] == PAD))
      + Bytes(Tokens(g[3], rest))
  {
    hide GroupBytes, Sextet, IsSpace, Tokens;
    DigitsTokens(prev, g, rest);
    var first := [Token(g[0], prev == PAD), Token(g[1], g[0] == PAD), Token(g[2], g[1] == PAD),
        Token(g[3], g[2] == PAD)];
    ValueOfFour(first[0], first[1], first[2], first[3]);
    hide Value;
    assert (first + Tokens(g[3], rest))[..4] == first && (first + Tokens(g[3], rest))[4..] == Tokens(g[3], rest);
  }

  lemma AlphabetSplit(a: seq<byte>, b: seq<byte>)
    ensures InAlphabet(a + b) <==> InAlphabet(a) && InAlphabet(b)
  {
    hide IsSpace, Sextet;
    assert forall i :: 0 <= i < |a| ==> a[i] == (a + b)[i];
    assert forall i :: 0 <= i < |b| ==> b[i] == (a + b)[|a| + i];
  }

  lemma {:induction false} EncodedDecodes(prev: byte, x: seq<byte>)
    ensures InAlphabet(Encoded(x)) && Bytes(Tokens(prev, Encoded(x))) == x
    decreases |x|
  {
    hide Bytes, Tokens, Letter, Sextet, IsSpace, Group24;
    if x == [] {
      NothingDecodes(prev);
    } else if |x| == 1 {
      LastGroup(prev, x, Group24(x[0], 0, 0));
    } else if |x| == 2 {
      LastGroup(prev, x, Group24(x[0], x[1], 0));
    } else {
      var g := Digits(Group24(x[0], x[1], x[2]));
      EncodedDecodes(g[3], x[3..]);
      AlphabetSplit(g, Encoded(x[3..]));
      GroupDecodes(prev, g, Encoded(x[3..]));
      DigitsOfValue(Group24(x[0], x[1], x[2]));
      BytesOfGroup(x[0], x[1], x[2]);
    }
  }

  lemma NothingDecodes(prev: byte)
    ensures Tokens(prev, []) == [] && Bytes([]) == []
  {
  }

  lemma PaddingIs()
    ensures Sextet(PAD) == 0 && !IsSpace(PAD)
  {
  }

  lemma LastGroup(prev: byte, x: seq<byte>, v: int)
    requires 1 <= |x| <= 2
    requires v == Group24(x[0], if |x| == 2 then x[1] else 0, 0)
    ensures InAlphabet(Encoded(x)) && Bytes(Tokens(prev, Encoded(x))) == x
  {
    hide Bytes, Tokens, Letter, Sextet, IsSpace, Group24;
    var g := Encoded(x);
    assert g + [] == g;
    PaddingIs();
    GroupDecodes(prev, g, []);
    NothingDecodes(g[3]);
    PaddedDigits(x[0], if |x| == 2 then x[1] else 0);
    DigitsOfValue(v);
    BytesOfGroup(x[0], if |x| == 2 then x[1] else 0, 0);
  }

  lemma PaddedDigits(a: byte, b: byte)
    ensures Group24(a, b, 0) % 64 == 0 && (b == 0 ==> Group24(a, b, 0) / 64 % 64 == 0)
  {
  }

  /** Decoding undoes encoding, for every byte string. */
  lemma RoundTrip(x: seq<byte>)
    ensures Decoded(Encoded(x)) == x
  {
    EncodedDecodes(0, x);
  }

  // ----- blanks

  ghost predicate Blanks(s: seq<byte>) {
    forall i :: 0 <= i < |s| ==> IsSpace(s[i])
  }

  /** Where one blank changes the result: in front of the last character of a group, behind a padding
      character. There the decoder's look at the character before no longer sees the padding. */
  ghost predicate BreaksLookBehind(a: seq<byte>, b: seq<byte>) {
    && |Tokens(0, a)| % 4 == 3
    && Last(0, a) == PAD
    && b != [] && !IsSpace(b[0])
    && InAlphabet(a + b)
  }

  lemma {:induction false} SameDigits(g: seq<Token>, h: seq<Token>)
    requires |g| == |h| && forall i :: 0 <= i < |g| ==> g[i].c == h[i].c
    ensures Value(g) == Value(h)
    decreases |g|
  {
    if g != [] {
      SameDigits(g[..|g| - 1], h[..|h| - 1]);
    }
  }

  /** The look behind matters for the last token of a group only. */
  lemma {:induction false} FlagIgnored(ts: seq<Token>, t: Token, u: Token, rest: seq<Token>)
    requires t.c == u.c && |ts| % 4 != 3
    ensures Bytes(ts + [t] + rest) == Bytes(ts + [u] + rest)
    decreases |ts|
  {
    hide GroupBytes, Value;
    var x, y := ts + [t] + rest, ts + [u] + rest;
    if |ts| >= 4 {
      assert x[..4] == ts[..4] == y[..4];
      assert x[4..] == ts[4..] + [t] + rest && y[4..] == ts[4..] + [u] + rest;
      FlagIgnored(ts[4..], t, u, rest);
    } else if |x| >= 4 {
      SameDigits(x[..4], y[..4]);
      assert x[4..] == rest[3 - |ts|..] == y[4..];
    }
  }

  lemma FlagCounts(ts: seq<Token>, c: byte, rest: seq<Token>)
    requires |ts| % 4 == 3
    ensures |Bytes(ts + [Token(c, false)] + rest)| == |Bytes(ts + [Token(c, true)] + rest)| + 1
  {
    hide Value, Bytes;
    var t, u := Token(c, false), Token(c, true);
    BytesNext(ts, t);
    BytesNext(ts, u);
    BytesAppend(ts + [t], rest);
    BytesAppend(ts + [u], rest);
  }

  /** One blank put in anywhere leaves the decoded bytes alone exactly when it does not break the
      look behind; when it does, one byte too many comes out. */
  lemma OneBlank(a: seq<byte>, w: byte, b: seq<byte>)
    requires IsSpace(w)
    ensures Decoded(a + [w] + b) == Decoded(a + b) <==> !BreaksLookBehind(a, b)
    ensures BreaksLookBehind(a, b) ==> |Decoded(a + [w] + b)| == |Decoded(a + b)| + 1
  {
    hide Bytes, Sextet, IsSpace, Tokens;
    assert [w][1..] == [];
    AlphabetSplit(a, [w] + b);
    AlphabetSplit([w], b);
    AlphabetSplit(a, b);
    assert a + [w] + b == a + ([w] + b);
    TokensAppend(0, a, b);
    TokensAppend(0, a, [w] + b);
    BlankTokens(Last(0, a), w, b);
    if b != [] && !IsSpace(b[0]) {
      var ts, t, u, rest := Tokens(0, a), Token(b[0], false), Token(b[0], Last(0, a) == PAD), Tokens(b[0], b[1..]);
      assert ts + ([t] + rest) == ts + [t] + rest && ts + ([u] + rest) == ts + [u] + rest;
      if |ts| % 4 == 3 {
        FlagCounts(ts, b[0], rest);
      } else {
        FlagIgnored(ts, t, u, rest);
      }
    }
  }

  lemma BlankTokens(prev: byte, w: byte, b: seq<byte>)
    requires IsSpace(w)
    ensures b == [] || IsSpace(b[0]) ==> Tokens(prev, [w] + b) == Tokens(prev, b)
    ensures b != [] && !IsSpace(b[0]) ==> Tokens(prev, [w] + b) == [Token(b[0], false)] + Tokens(b[0], b[1..])
    ensures b != [] && !IsSpace(b[0]) ==> Tokens(prev, b) == [Token(b[0], prev == PAD)] + Tokens(b[0], b[1..])
  {
    assert ([w] + b)[1..] == b;
  }

  /** Blanks between complete groups change nothing, however many there are. */
  lemma {:induction false} BlanksBetweenGroups(a: seq<byte>, ws: seq<byte>, b: seq<byte>)
    requires |Tokens(0, a)| % 4 == 0 && Blanks(ws)
    ensures Decoded(a + ws + b) == Decoded(a + b)
    decreases |ws|
  {
    hide Decoded, Tokens, IsSpace;
    if ws == [] {
      assert a + ws == a;
    } else {
      var w, more := ws[0], ws[1..];
      BlanksBetweenGroups(a, more, b);
      OneBlank(a, w, more + b);
      assert a + [w] + (more + b) == a + ws + b && a + (more + b) == a + more + b;
    }
  }

  /** "QQ==" decodes to one byte; with a blank between the two padding characters it decodes to two. */
  lemma BlankInPadding()
    ensures BreaksLookBehind([81, 81, PAD], [PAD])
    ensures Decoded([81, 81, PAD, PAD]) == [65] && Decoded([81, 81, PAD, 32, PAD]) == [65, 0]
  {
    var g := [81, 81, PAD, PAD];
    assert Sextet(81) == 16 && Sextet(PAD) == 0 && IsSpace(32) && !IsSpace(PAD);
    GroupDecodes(0, g, []);
    assert g + [] == g;
    BlankAfterThree(81, PAD);
    hide Sextet, IsSpace, Tokens, Bytes;
    NothingDecodes(PAD);
    ValueOfFour(Token(81, false), Token(81, false), Token(PAD, false), Token(PAD, false));
  }

  /** A blank in front of the last of four characters: it no longer knows what stood before it. */
  lemma BlankAfterThree(a: byte, c: byte)
    requires !IsSpace(a) && !IsSpace(c) && a != PAD
    ensures Tokens(0, [a, a, c]) == [Token(a, false), Token(a, false), Token(c, false)]
    ensures Tokens(0, [a, a, c, 32, c]) == [Token(a, false), Token(a, false), Token(c, false), Token(c, false)]
    ensures Bytes(Tokens(0, [a, a, c, 32, c])) ==
      GroupBytes(Value([Token(a, false), Token(a, false), Token(c, false), Token(c, false)]), Token(c, false))
  {
    assert [a, a, c] == [a] + ([a] + ([c] + [])) && [a, a, c, 32, c] == [a] + ([a] + ([c] + ([32] + [c])));
    hide Tokens, Bytes, Value, GroupBytes;
    ThreeTokens(a, c, []);
    ThreeTokens(a, c, [32] + [c]);
    NothingDecodes(c);
    BlankTokens(c, 32, [c]);
    assert [c][1..] == [];
    OneGroup([Token(a, false), Token(a, false), Token(c, false), Token(c, false)]);
  }

  lemma TokensCons(prev: byte, x: byte, rest: seq<byte>)
    requires !IsSpace(x)
    ensures Tokens(prev, [x] + rest) == [Token(x, prev == PAD)] + Tokens(x, rest)
  {
    assert ([x] + rest)[1..] == rest;
  }

  lemma ThreeTokens(a: byte, c: byte, rest: seq<byte>)
    requires !IsSpace(a) && !IsSpace(c) && a != PAD
    ensures Tokens(0, [a] + ([a] + ([c] + rest))) == [Token(a, false), Token(a, false), Token(c, false)]
            + Tokens(c, rest)
  {
    hide Tokens;
    TokensCons(0, a, [a] + ([c] + rest));
    TokensCons(a, a, [c] + rest);
    TokensCons(a, c, rest);
  }

  lemma OneGroup(ts: seq<Token>)
    requires |ts| == 4
    ensures Bytes(ts) == GroupBytes(Value(ts), ts[3])
  {
    assert ts[..4] == ts && ts[4..] == [] && Bytes([]) == [];
  }

  // ----- whole texts

  ghost function WithoutBlanks(s: seq<byte>): seq<byte> {
    if s == [] then [] else (if IsSpace(s[0]) then [] else [s[0]]) + WithoutBlanks(s[1..])
  }

  /** The same characters; ts knows of a padding character before one of them only if us does. */
  ghost predicate KnowsLess(ts: seq<Token>, us: seq<Token>) {
    |ts| == |us| && forall j :: 0 <= j < |ts| ==> ts[j].c == us[j].c && (ts[j].afterPad ==> us[j].afterPad)
  }

  lemma {:induction false} BlanksOnlyHide(q: byte, p: byte, s: seq<byte>)
    requires q == p || IsSpace(q)
    ensures KnowsLess(Tokens(q, s), Tokens(p, WithoutBlanks(s)))
    decreases |s|
  {
    if s != [] {
      var c := s[0];
      if IsSpace(c) {
        BlanksOnlyHide(c, p, s[1..]);
        assert [] + WithoutBlanks(s[1..]) == WithoutBlanks(s[1..]);
        assert [] + Tokens(c, s[1..]) == Tokens(c, s[1..]);
      } else {
        BlanksOnlyHide(c, c, s[1..]);
        assert WithoutBlanks(s)[1..] == WithoutBlanks(s[1..]);
      }
    }
  }

  /** The groups whose last character lost sight of a padding character before it. */
  ghost function Broken(ts: seq<Token>, us: seq<Token>): nat
    requires |ts| == |us|
  {
    if |ts| < 4 then 0
    else (if us[3].afterPad && !ts[3].afterPad then 1 else 0) + Broken(ts[4..], us[4..])
  }

  lemma {:induction false} BrokenSurplus(ts: seq<Token>, us: seq<Token>)
    requires KnowsLess(ts, us)
    ensures |Bytes(ts)| == |Bytes(us)| + Broken(ts, us)
    ensures Broken(ts, us) == 0 ==> Bytes(ts) == Bytes(us)
    decreases |ts|
  {
    hide Value;
    if |ts| >= 4 {
      SameDigits(ts[..4], us[..4]);
      BrokenSurplus(ts[4..], us[4..]);
    }
  }

  ghost function BrokenPlaces(s: seq<byte>): nat {
    BlanksOnlyHide(0, 0, s);
    Broken(Tokens(0, s), Tokens(0, WithoutBlanks(s)))
  }

  lemma {:induction false} AlphabetWithoutBlanks(s: seq<byte>)
    ensures InAlphabet(WithoutBlanks(s)) <==> InAlphabet(s)
    decreases |s|
  {
    hide IsSpace, Sextet;
    if s != [] {
      AlphabetWithoutBlanks(s[1..]);
      AlphabetSplit([s[0]], s[1..]);
      assert s == [s[0]] + s[1..];
      if IsSpace(s[0]) {
        assert [] + WithoutBlanks(s[1..]) == WithoutBlanks(s[1..]);
      } else {
        AlphabetSplit([s[0]], WithoutBlanks(s[1..]));
      }
    }
  }

  /** Main result for blanks: a text over the alphabet, however it is broken into lines, decodes to one
      byte more than without its blanks for every place where they break the look behind, and to the
      same bytes exactly if there is none. */
  lemma BlanksInText(s: seq<byte>)
    requires InAlphabet(s)
    ensures |Decoded(s)| == |Decoded(WithoutBlanks(s))| + BrokenPlaces(s)
    ensures Decoded(s) == Decoded(WithoutBlanks(s)) <==> BrokenPlaces(s) == 0
  {
    BlanksOnlyHide(0, 0, s);
    AlphabetWithoutBlanks(s);
    BrokenSurplus(Tokens(0, s), Tokens(0, WithoutBlanks(s)));
  }
}
