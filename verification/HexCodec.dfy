/** Hexadecimal text: two encoders and three decoders. */
module HexCodec {
  import opened Numerals

  function HexChar(d: nat): (c: char)
    requires d < 16
    ensures DigitValue(c) == d && !IsSpace(c)
  {
    if d < 10 then ('0' as int + d) as char else ('a' as int + d - 10) as char
  }

  /** Two lower-case digits per octet. */
  function Hex(bytes: seq<uint8>): string {
    if bytes == [] then "" else [HexChar(bytes[0] / 16), HexChar(bytes[0] % 16)] + Hex(bytes[1..])
  }

  predicate IsHexDigit(c: char) {
    DigitValue(c) < 16
  }

  /** The octets of the leading pairs of digits. */
  function Decode(s: string): seq<uint8> {
    if |s| >= 2 && IsHexDigit(s[0]) && IsHexDigit(s[1])
    then [DigitValue(s[0]) * 16 + DigitValue(s[1])] + Decode(s[2..])
    else []
  }

  function Strip(s: string): string {
    if s == "" then "" else if IsSpace(s[0]) then Strip(s[1..]) else [s[0]] + Strip(s[1..])
  }

  // ---------------------------------------------------------------- laws

  lemma {:induction false} DecodeHex(bytes: seq<uint8>)
    ensures Decode(Hex(bytes)) == bytes && |Hex(bytes)| == 2 * |bytes|
  {
    if bytes != [] {
      DecodeHex(bytes[1..]);
      assert Hex(bytes)[2..] == Hex(bytes[1..]);
    }
  }

  lemma StripChar(c: char, rest: string)
    requires !IsSpace(c)
    ensures Strip([c] + rest) == [c] + Strip(rest)
  {
    assert ([c] + rest)[1..] == rest;
  }

  lemma {:induction false} StripHex(bytes: seq<uint8>)
    ensures Strip(Hex(bytes)) == Hex(bytes)
  {
    if bytes != [] {
      StripHex(bytes[1..]);
      var high, low := HexChar(bytes[0] / 16), HexChar(bytes[0] % 16);
      StripChar(low, Hex(bytes[1..]));
      StripChar(high, [low] + Hex(bytes[1..]));
      assert [high, low] + Hex(bytes[1..]) == [high] + ([low] + Hex(bytes[1..]));
    }
  }

  lemma {:induction false} HexAt(bytes: seq<uint8>, i: nat)
    requires i < |bytes|
    ensures |Hex(bytes)| == 2 * |bytes|
    ensures Hex(bytes)[2 * i] == HexChar(bytes[i] / 16) && Hex(bytes)[2 * i + 1] == HexChar(bytes[i] % 16)
  {
    DecodeHex(bytes);
    if i > 0 {
      HexAt(bytes[1..], i - 1);
      var rest := Hex(bytes[1..]);
      assert Hex(bytes) == [HexChar(bytes[0] / 16), HexChar(bytes[0] % 16)] + rest;
      assert Hex(bytes)[2 * i] == rest[2 * i - 2] && Hex(bytes)[2 * i + 1] == rest[2 * i - 1];
    }
  }

  /** The high half of an octet comes first, in lower case; the decoder takes both cases. */
  lemma HexByExample()
    ensures Hex([0x0a, 0xf1]) == "0af1" && Decode("0aF1") == [0x0a, 0xf1]
  {
    assert [0x0a, 0xf1][1..] == [0xf1] && [0xf1][1..] == [];
    assert Hex([0xf1]) == "f1";
    assert "0aF1"[2..] == "F1" && "F1"[2..] == "";
    assert Decode("F1") == [0xf1];
  }

  /** Everything is decoded iff the text is an even run of hex digits. */
  lemma {:induction false} DecodesAllIff(s: string)
    ensures 2 * |Decode(s)| <= |s|
    ensures 2 * |Decode(s)| == |s| <==> |s| % 2 == 0 && forall i :: 0 <= i < |s| ==> IsHexDigit(s[i])
  {
    if |s| >= 2 && IsHexDigit(s[0]) && IsHexDigit(s[1]) {
      DecodesAllIff(s[2..]);
      if forall i :: 0 <= i < |s| ==> IsHexDigit(s[i]) {
        assert forall i :: 0 <= i < |s[2..]| ==> IsHexDigit(s[2..][i]);
      }
      if forall i :: 0 <= i < |s[2..]| ==> IsHexDigit(s[2..][i]) {
        forall i | 0 <= i < |s| ensures IsHexDigit(s[i]) {
          assert i >= 2 ==> s[i] == s[2..][i - 2];
        }
      }
    }
  }

  /** Decoding a run of digits, octet by octet. */
  lemma {:induction false} DecodeAt(s: string, i: nat)
    requires 2 * i + 1 < |s| && forall j :: 0 <= j < 2 * i + 2 ==> IsHexDigit(s[j])
    ensures i < |Decode(s)| && Decode(s)[i] == DigitValue(s[2 * i]) * 16 + DigitValue(s[2 * i + 1])
  {
    if i > 0 {
      DecodeAt(s[2..], i - 1);
    }
  }

  /** The decoder stops at the first pair that is not two digits. */
  lemma {:induction false} DecodeStops(s: string, i: nat)
    requires 2 * i <= |s| && forall j :: 0 <= j < 2 * i ==> IsHexDigit(s[j])
    requires 2 * i + 1 >= |s| || !IsHexDigit(s[2 * i]) || !IsHexDigit(s[2 * i + 1])
    ensures |Decode(s)| == i
  {
    if i > 0 {
      DecodeStops(s[2..], i - 1);
    }
  }

  // ---------------------------------------------------------------- encoders

  /** sprintf("%02x") of each octet, one after the other; each call also writes a terminating NUL. */
  method WriteHex(bytes: seq<uint8>, data: array<char>)
    requires data.Length == 2 * |bytes| + 1 && data[0] == '\0'
    modifies data
    ensures data[..2 * |bytes|] == Hex(bytes) && data[2 * |bytes|] == '\0'
  {
    DecodeHex(bytes);
    for i := 0 to |bytes|
      invariant data[..2 * i] == Hex(bytes)[..2 * i] && data[2 * i] == '\0'
    {
      HexAt(bytes, i);
      data[2 * i], data[2 * i + 1], data[2 * i + 2] := HexChar(bytes[i] / 16), HexChar(bytes[i] % 16), '\0';
      TwoMore(data[..], Hex(bytes), 2 * i);
    }
  }

  lemma TwoMore(a: string, b: string, n: nat)
    requires n + 2 <= |a| && n + 2 <= |b| && a[..n] == b[..n] && a[n] == b[n] && a[n + 1] == b[n + 1]
    ensures a[..n + 2] == b[..n + 2]
  {
    assert a[..n + 2] == a[..n] + [a[n], a[n + 1]] && b[..n + 2] == b[..n] + [b[n], b[n + 1]];
  }

  /** The text up to the first NUL. */
  function CString(s: string): string {
    if s == "" || s[0] == '\0' then "" else [s[0]] + CString(s[1..])
  }

  lemma {:induction false} CStringOf(s: string, rest: string)
    requires forall i :: 0 <= i < |s| ==> s[i] != '\0'
    requires rest == "" || rest[0] == '\0'
    ensures CString(s + rest) == s
  {
    if s != "" {
      CStringOf(s[1..], rest);
      assert (s + rest)[1..] == s[1..] + rest;
    } else {
      assert s + rest == rest;
    }
  }

  lemma {:induction false} HexHasNoNul(bytes: seq<uint8>)
    ensures forall i :: 0 <= i < |Hex(bytes)| ==> Hex(bytes)[i] != '\0'
  {
    if bytes != [] {
      HexHasNoNul(bytes[1..]);
    }
  }

  method ConvertStringToHex(input: seq<uint8>) returns (output: string)
    ensures output == Hex(input)
  {
    var dataHex := new char[2 * |input| + 1](_ => '\0');
    WriteHex(input, dataHex);
    output := CString(dataHex[..]);
    HexHasNoNul(input);
    CStringOf(Hex(input), dataHex[2 * |input|..]);
    assert dataHex[..] == dataHex[..2 * |input|] + dataHex[2 * |input|..];
  }

  method OctetStreamToHexStream(buf: array<uint8>, len: nat) returns (out: string)
    requires len <= buf.Length
    ensures out == Hex(buf[..len])
  {
    var tmp := new char[2 * len + 1](_ => '\0');
    WriteHex(buf[..len], tmp);
    tmp[2 * len] := '\0';
    out := CString(tmp[..]);
    HexHasNoNul(buf[..len]);
    CStringOf(Hex(buf[..len]), tmp[2 * len..]);
    assert tmp[..] == tmp[..2 * len] + tmp[2 * len..];
  }

  // ---------------------------------------------------------------- ascii_to_hex

  /** Skips white space. */
  method SkipSpaces(h: string, at: nat) returns (next: nat)
    requires at <= |h|
    ensures at <= next <= |h| && Strip(h[next..]) == Strip(h[at..])
    ensures next < |h| ==> !IsSpace(h[next])
  {
    next := at;
    while next < |h| && IsSpace(h[next])
      invariant at <= next <= |h| && Strip(h[next..]) == Strip(h[at..])
    {
      assert h[next..][1..] == h[next + 1..];
      next := next + 1;
    }
  }

  lemma StripStep(h: string, at: nat)
    requires at < |h| && !IsSpace(h[at])
    ensures Strip(h[at..]) == [h[at]] + Strip(h[at + 1..])
  {
    assert h[at..][1..] == h[at + 1..];
  }

  lemma DecodePair(high: char, low: char, rest: string)
    ensures Decode([high] + ([low] + rest))
         == if IsHexDigit(high) && IsHexDigit(low) then [DigitValue(high) * 16 + DigitValue(low)] + Decode(rest) else []
  {
    var s := [high] + ([low] + rest);
    assert s[0] == high && s[1] == low && s[2..] == rest;
  }

  datatype Pair = End | Bad | Octet(value: uint8)

  /** The next character that is not white space. */
  method ReadChar(h: string, at: nat) returns (c: Option<char>, next: nat)
    requires at <= |h|
    ensures at <= next <= |h| && (c.Some? ==> at < next)
    ensures Strip(h[at..]) == if c.Some? then [c.value] + Strip(h[next..]) else ""
  {
    next := SkipSpaces(h, at);
    if next == |h| {
      return None, next;
    }
    StripStep(h, next);
    return Some(h[next]), next + 1;
  }

  /** Reads up to one pair of digits. */
  method ReadPair(h: string, at: nat) returns (p: Pair, next: nat)
    requires at <= |h|
    ensures at <= next <= |h| && (p.Octet? ==> at < next)
    ensures p == End ==> Strip(h[at..]) == ""
    ensures p == Bad ==> Strip(h[at..]) != "" && Decode(Strip(h[at..])) == []
    ensures p.Octet? ==> Decode(Strip(h[at..])) == [p.value] + Decode(Strip(h[next..]))
    ensures p.Octet? ==> |Strip(h[at..])| == 2 + |Strip(h[next..])|
  {
    var high, a := ReadChar(h, at);
    if high.None? {
      return End, a;
    }
    if !IsHexDigit(high.value) {
      return Bad, a;
    }
    var low, b := ReadChar(h, a);
    if low.None? {
      return Bad, b;
    }
    DecodePair(high.value, low.value, Strip(h[b..]));
    if !IsHexDigit(low.value) {
      return Bad, b;
    }
    return Octet(DigitValue(high.value) * 16 + DigitValue(low.value)), b;
  }

  /** Writes the decoded octets and returns 1 iff everything but white space was decoded. */
  method AsciiToHex(dst: array<uint8>, h: string) returns (ret: int)
    requires |Decode(Strip(h))| <= dst.Length
    modifies dst
    ensures dst[..|Decode(Strip(h))|] == Decode(Strip(h))
    ensures dst[|Decode(Strip(h))|..] == old(dst[|Decode(Strip(h))|..])
    ensures ret == if 2 * |Decode(Strip(h))| == |Strip(h)| then 1 else 0
  {
    var at, i := 0, 0;
    ghost var octets := Decode(Strip(h));
    assert h[0..] == h;
    while true
      invariant at <= |h| && i <= |octets|
      invariant |Strip(h)| == 2 * i + |Strip(h[at..])|
      invariant octets == dst[..i] + Decode(Strip(h[at..]))
      invariant dst[i..] == old(dst[i..])
      decreases |h| - at
    {
      var p, next := ReadPair(h, at);
      if p.End? {
        return 1;
      }
      if p.Bad? {
        return 0;
      }
      ghost var before := dst[..i];
      dst[i] := p.value;
      Associate(before, [p.value], Decode(Strip(h[next..])));
      assert dst[..i + 1] == before + [p.value];
      i, at := i + 1, next;
    }
  }

  /** ascii_to_hex succeeds iff the input without white space is an even run of hex digits. */
  lemma AsciiToHexSucceedsIff(h: string)
    ensures 2 * |Decode(Strip(h))| == |Strip(h)|
       <==> |Strip(h)| % 2 == 0 && forall i :: 0 <= i < |Strip(h)| ==> IsHexDigit(Strip(h)[i])
  {
    DecodesAllIff(Strip(h));
  }

  // ---------------------------------------------------------------- msg_str_2_msg_hex

  /** Encoding and decoding again: the octets of the message. */
  method MsgStrToMsgHex(msg: seq<uint8>) returns (b: seq<uint8>)
    ensures b == msg
  {
    var text := ConvertStringToHex(msg);
    var msgHex := new uint8[|text| / 2 + 1];
    StripHex(msg);
    DecodeHex(msg);
    var ret := AsciiToHex(msgHex, text);
    b := msgHex[..|text| / 2];
  }

  // ---------------------------------------------------------------- format_string_as_hex

  /** Octets of the leading pairs; what follows them in the buffer is not known. */
  method FormatStringAsHex(str: string) returns (value: array<uint8>)
    ensures fresh(value) && value.Length == |str| / 2 + 1
    ensures |Decode(str)| <= value.Length && value[..|Decode(str)|] == Decode(str)
  {
    value := new uint8[|str| / 2 + 1];
    DecodesAllIff(str);
    var i := 0;
    while i < |str|
      invariant i % 2 == 0 && i <= |str| + 1 && (i > |str| ==> false)
      invariant forall j :: 0 <= j < i ==> IsHexDigit(str[j])
      invariant forall j :: 0 <= j < i / 2 ==> value[j] == DigitValue(str[2 * j]) * 16 + DigitValue(str[2 * j + 1])
    {
      if i + 1 >= |str| || !IsHexDigit(str[i]) || !IsHexDigit(str[i + 1]) {
        break;
      }
      value[i / 2] := DigitValue(str[i]) * 16 + DigitValue(str[i + 1]);
      i := i + 2;
    }
    DecodeStops(str, i / 2);
    forall j | 0 <= j < i / 2 ensures value[j] == Decode(str)[j] {
      DecodeAt(str, j);
    }
  }

  // ---------------------------------------------------------------- hexStr2Byte

  function OrBits(a: nat, b: nat, n: nat): (r: nat) {
    if n == 0 then 0 else (if a % 2 + b % 2 > 0 then 1 else 0) + 2 * OrBits(a / 2, b / 2, n - 1)
  }

  function Power(n: nat): nat {
    if n == 0 then 1 else 2 * Power(n - 1)
  }

  lemma {:induction false} OrBound(a: nat, b: nat, n: nat)
    ensures OrBits(a, b, n) < Power(n)
  {
    if n > 0 {
      OrBound(a / 2, b / 2, n - 1);
    }
  }

  /** An unsigned char operation: exclusive low nibble or-ed to the shifted high one, cut to eight bits. */
  function Combine(high: uint8, low: uint8): uint8 {
    OrBound(high * 16, low, 8);
    assert Power(8) == 0x100;
    OrBits(high * 16, low, 8)
  }

  lemma {:induction false} OrZero(a: nat, n: nat)
    requires a < Power(n)
    ensures OrBits(a, 0, n) == a
  {
    if n > 0 {
      OrZero(a / 2, n - 1);
    }
  }

  lemma OrStep(a: nat, b: nat, n: nat)
    ensures OrBits(2 * a, b, n + 1) == b % 2 + 2 * OrBits(a, b / 2, n)
  {
    assert (2 * a) / 2 == a && (2 * a) % 2 == 0;
  }

  function ShiftLeft(a: nat, k: nat): nat {
    if k == 0 then a else 2 * ShiftLeft(a, k - 1)
  }

  /** Or-ing a number below 2^k to one shifted left by k adds them. */
  lemma {:induction false} OrShifted(a: nat, b: nat, n: nat, k: nat)
    requires a < Power(n) && b < Power(k)
    ensures OrBits(ShiftLeft(a, k), b, n + k) == ShiftLeft(a, k) + b
  {
    if k == 0 {
      OrZero(a, n);
    } else {
      OrShifted(a, b / 2, n, k - 1);
      OrStep(ShiftLeft(a, k - 1), b, n + k - 1);
    }
  }

  lemma CombineNibbles(high: uint8, low: uint8)
    requires high < 16 && low < 16
    ensures Combine(high, low) == high * 16 + low
  {
    assert Power(4) == 16;
    assert ShiftLeft(high, 1) == high * 2;
    assert ShiftLeft(high, 2) == high * 4;
    assert ShiftLeft(high, 3) == high * 8;
    assert ShiftLeft(high, 4) == high * 16;
    OrShifted(high, low, 4, 4);
  }

  function ToUpper(c: uint8): uint8 {
    if 'a' as int <= c <= 'z' as int then c - 0x20 else c
  }

  /** No check is made that the character is a digit. */
  function Nibble(c: uint8): uint8 {
    var u := ToUpper(c);
    if u > 0x39 then (u - 0x37) % 0x100 else (u - 0x30) % 0x100
  }

  /** A 16-bit index. */
  function ToShort(i: int): int {
    (i + 0x8000) % 0x1_0000 - 0x8000
  }

  /** The octet made of the characters 2 j and 2 j + 1. */
  function PairOctet(src: seq<uint8>, j: nat): uint8
    requires 2 * j + 1 < |src|
  {
    Combine(Nibble(src[2 * j]), Nibble(src[2 * j + 1]))
  }

  const LAST_INDEX: nat := 0x7FFE

  /** How many octets are written before the index is past the length or negative. */
  function OctetsWritten(len: nat): (n: nat)
    ensures n <= (len + 1) / 2
  {
    if len <= LAST_INDEX then (len + 1) / 2 else LAST_INDEX / 2 + 1
  }

  /** `src` includes the terminating NUL. When the 16-bit index turns negative the next access lies before the
      buffers: `overrun` stands for that, and nothing later is described. */
  method HexStrToByte(src: seq<uint8>, dest: array<uint8>, len: nat) returns (overrun: bool)
    requires len + len % 2 <= |src| && (len + 1) / 2 <= dest.Length
    modifies dest
    ensures overrun <==> len > LAST_INDEX
    ensures forall j :: 0 <= j < OctetsWritten(len) ==> dest[j] == PairOctet(src, j)
    ensures dest[OctetsWritten(len)..] == old(dest[OctetsWritten(len)..])
  {
    var i := 0;
    ghost var k := 0;
    ghost var before := dest[..];
    while i < len
      invariant 0 <= i == 2 * k <= LAST_INDEX && k <= OctetsWritten(len) && dest[..] == Written(before, src, k)
    {
      PairFits(len, k);
      WritePair(src, dest, i, k);
      NextIndex(k);
      i, k := ToShort(i + 2), k + 1;
      if i < 0 {
        WrittenIs(before, src, k);
        return true;
      }
    }
    WrittenIs(before, src, k);
    return false;
  }

  /** The buffer after the first k octets are written. */
  function Written(before: seq<uint8>, src: seq<uint8>, k: nat): (r: seq<uint8>)
    requires 2 * k <= |src| && k <= |before|
    ensures |r| == |before|
  {
    if k == 0 then before else Written(before, src, k - 1)[k - 1 := PairOctet(src, k - 1)]
  }

  lemma {:induction false} WrittenIs(before: seq<uint8>, src: seq<uint8>, k: nat)
    requires 2 * k <= |src| && k <= |before|
    ensures forall j :: 0 <= j < k ==> Written(before, src, k)[j] == PairOctet(src, j)
    ensures Written(before, src, k)[k..] == before[k..]
  {
    if k > 0 {
      WrittenIs(before, src, k - 1);
      forall j | k <= j < |before| ensures Written(before, src, k)[j] == before[j] {
        assert Written(before, src, k - 1)[k - 1..][j - (k - 1)] == before[k - 1..][j - (k - 1)];
      }
    }
  }

  lemma NextIndex(k: nat)
    requires 2 * k <= LAST_INDEX
    ensures ToShort(2 * k + 2) == if 2 * k < LAST_INDEX then 2 * k + 2 else -0x8000
  {
  }

  lemma PairFits(len: nat, k: nat)
    requires 2 * k < len && 2 * k <= LAST_INDEX
    ensures 2 * k + 1 < len + len % 2 && k < (len + 1) / 2 && k < OctetsWritten(len)
  {
  }

  method WritePair(src: seq<uint8>, dest: array<uint8>, i: nat, ghost k: nat)
    requires i == 2 * k && i + 1 < |src| && k < dest.Length
    modifies dest
    ensures dest[..] == old(dest[..])[k := PairOctet(src, k)]
  {
    dest[i / 2] := Combine(Nibble(src[i]), Nibble(src[i + 1]));
  }

  /** Advancing the index does not wrap. */
  predicate InRange(i: int) {
    ToShort(i + 2) == i + 2
  }

  lemma StepInRange(i: nat)
    requires i % 2 == 0 && i <= LAST_INDEX
    ensures InRange(i) <==> i < LAST_INDEX
    ensures i == LAST_INDEX ==> ToShort(i + 2) == -0x8000
  {
  }

  /** Up to which length the index stays in range: beyond it, it wraps to a negative value. */
  lemma ShortIndexBound(len: nat)
    ensures (forall i: nat :: i < len && i % 2 == 0 && i <= LAST_INDEX ==> InRange(i)) <==> len <= LAST_INDEX
  {
    forall i: nat | i % 2 == 0 && i <= LAST_INDEX ensures InRange(i) <==> i < LAST_INDEX {
      StepInRange(i);
    }
    assert LAST_INDEX < len ==> !InRange(LAST_INDEX);
  }

  /** What hexStr2Byte makes of any character: up to '9' the distance from '0', beyond it that of the upper-case letter
      from 'A', plus ten, both around 256. */
  lemma NibbleOfAny(c: uint8)
    ensures c <= 0x39 ==> (Nibble(c) + 0x30) % 0x100 == c
    ensures 0x3a <= c < 0x61 || c > 0x7a ==> (Nibble(c) + 0x37) % 0x100 == c
    ensures 0x61 <= c <= 0x7a ==> (Nibble(c) + 0x57) % 0x100 == c
  {
  }

  lemma NibbleOfHexChar(d: nat)
    requires d < 16
    ensures HexChar(d) as int < 0x80 && Nibble(HexChar(d) as int) == d
  {
  }

  lemma {:induction false} HexIsAscii(bytes: seq<uint8>)
    ensures forall i :: 0 <= i < |Hex(bytes)| ==> Hex(bytes)[i] as int < 0x80
  {
    if bytes != [] {
      HexIsAscii(bytes[1..]);
      NibbleOfHexChar(bytes[0] / 16);
      NibbleOfHexChar(bytes[0] % 16);
    }
  }

  /** The octets of a text of characters below 128. */
  function Bytes(s: string): (r: seq<uint8>)
    requires forall i :: 0 <= i < |s| ==> s[i] as int < 0x80
    ensures |r| == |s|
  {
    seq<uint8>(|s|, i requires 0 <= i < |s| => s[i] as int)
  }

  lemma PairOfText(text: string, j: nat)
    requires 2 * j + 1 < |text| && forall i :: 0 <= i < |text| ==> text[i] as int < 0x80
    ensures PairOctet(Bytes(text), j) == Combine(Nibble(text[2 * j] as int), Nibble(text[2 * j + 1] as int))
  {
  }

  /** hexStr2Byte, too, inverts the encoders: the pair of characters of octet j gives that octet back. */
  lemma HexStrToByteInverts(bytes: seq<uint8>, j: nat)
    requires j < |bytes|
    ensures forall i :: 0 <= i < |Hex(bytes)| ==> Hex(bytes)[i] as int < 0x80
    ensures |Hex(bytes)| == 2 * |bytes|
    ensures PairOctet(Bytes(Hex(bytes)), j) == bytes[j]
  {
    var text := Hex(bytes);
    HexIsAscii(bytes);
    HexAt(bytes, j);
    PairOfText(text, j);
    NibblesInvert(text[2 * j], text[2 * j + 1], bytes[j] / 16, bytes[j] % 16);
  }

  lemma NibblesInvert(c: char, d: char, high: nat, low: nat)
    requires high < 16 && low < 16 && c == HexChar(high) && d == HexChar(low)
    ensures c as int < 0x80 && d as int < 0x80
    ensures Combine(Nibble(c as int), Nibble(d as int)) == high * 16 + low
  {
    NibbleOfHexChar(high);
    NibbleOfHexChar(low);
    CombineNibbles(high, low);
  }
}
