/** Protection of NAS messages (sections 4.4.3 and 9.1.1 of 3GPP TS 24.501). The MAC and the key stream are arbitrary
    functions; direction is one of their arguments. */
module NasProtection {
  import opened Numerals

  type uint16 = x: int | 0 <= x < 0x1_0000
  type Key = seq<uint8>

  datatype Direction = Uplink | Downlink

  /** `mac(algorithm, key, count, direction, message)`; `keystream(algorithm, key, count, direction, i)` is the
      octet that the i-th octet of a message is XORed with. The bearer is always 1. */
  datatype Primitives = Primitives(
    mac: (nat, Key, uint8, Direction, seq<uint8>) -> uint32,
    keystream: (nat, Key, uint32, Direction, nat) -> uint8)

  const BUFFER_SIZE := 4096
  const EPD_5GS_MM_MSG: uint8 := 0x7e

  /** A nas_secu_ctx; the algorithm ids are four bits wide. */
  datatype SecuCtx = SecuCtx(available: bool, integrity: nat, encryption: nat, knasInt: Key, knasEnc: Key,
                             dlOverflow: uint16, dlSeq: uint8, ulOverflow: uint16, ulSeq: uint8)

  // ---------------------------------------------------------------- octets

  function Pow2(n: nat): nat {
    if n == 0 then 1 else 2 * Pow2(n - 1)
  }

  /** Exclusive or of the low n bits. */
  function XorBits(a: nat, b: nat, n: nat): (r: nat)
    ensures r < Pow2(n)
  {
    if n == 0 then 0 else (a + b) % 2 + 2 * XorBits(a / 2, b / 2, n - 1)
  }

  function Xor(a: uint8, b: uint8): uint8 {
    assert Pow2(8) == 0x100;
    XorBits(a, b, 8)
  }

  lemma LowBit(a: nat, k: nat, rest: nat)
    ensures var x := (a + k) % 2 + 2 * rest;
            x / 2 == rest && (x + k) % 2 == a % 2
  {
    var x := (a + k) % 2 + 2 * rest;
    assert x + k == a + 2 * (k + rest - (a + k) / 2);
  }

  lemma {:induction false} XorBitsTwice(a: nat, k: nat, n: nat)
    requires a < Pow2(n)
    ensures XorBits(XorBits(a, k, n), k, n) == a
  {
    if n > 0 {
      XorBitsTwice(a / 2, k / 2, n - 1);
      LowBit(a, k, XorBits(a / 2, k / 2, n - 1));
    }
  }

  lemma XorTwice(a: uint8, k: uint8)
    ensures Xor(Xor(a, k), k) == a
  {
    assert Pow2(8) == 0x100;
    XorBitsTwice(a, k, 8);
  }

  /** Big-endian octets of a 32-bit word. */
  function Octets(w: uint32): seq<uint8> {
    [w / 0x100 / 0x100 / 0x100, w / 0x100 / 0x100 % 0x100, w / 0x100 % 0x100, w % 0x100]
  }

  function Word(s: seq<uint8>): uint32
    requires |s| == 4
  {
    var a: int, b: int, c: int, d: int := s[0], s[1], s[2], s[3];
    ((a * 0x100 + b) * 0x100 + c) * 0x100 + d
  }

  lemma WordOfOctets(w: uint32)
    ensures Word(Octets(w)) == w
  {
  }

  // ---------------------------------------------------------------- integrity and ciphering

  function Count(c: SecuCtx, d: Direction): uint32 {
    if d == Downlink then c.dlOverflow * 0x100 + c.dlSeq else c.ulOverflow * 0x100 + c.ulSeq
  }

  /** nas_message_integrity_protected: the first octet alone is the count of the MAC, and an uplink message stores
      it. None where it returns false; an unknown algorithm leaves the MAC zero. */
  function Integrity(p: Primitives, c: SecuCtx, d: Direction, message: seq<uint8>): (SecuCtx, Option<uint32>)
    requires message != []
  {
    var c1 := if d == Uplink then c.(ulSeq := message[0]) else c;
    var mac :=
      if c.integrity == 0 then None
      else if c.integrity <= 2 then Some(p.mac(c.integrity, c.knasInt, message[0], d, message))
      else Some(0);
    (c1, mac)
  }

  function Whiten(p: Primitives, c: SecuCtx, d: Direction, message: seq<uint8>): (r: seq<uint8>)
    ensures |r| == |message|
  {
    seq<uint8>(|message|, i requires 0 <= i < |message| =>
      Xor(message[i], p.keystream(c.encryption, c.knasEnc, Count(c, d), d, i)))
  }

  /** How far NEA1 rounds a length up. */
  function Words(n: nat): nat {
    (n + 3) / 4 * 4
  }

  /** nas_message_cipher_protected: NEA1 works on whole words and so takes in the octets of memory that follow the
      message; an unknown algorithm gives no output. */
  function Cipher(p: Primitives, c: SecuCtx, d: Direction, message: seq<uint8>, memory: seq<uint8>): Option<seq<uint8>>
    requires |memory| == Words(|message|) - |message|
  {
    if c.encryption == 0 then Some(message)
    else if c.encryption == 1 then Some(Whiten(p, c, d, message + memory))
    else if c.encryption == 2 then Some(Whiten(p, c, d, message))
    else None
  }

  lemma WhitenTwice(p: Primitives, c: SecuCtx, d: Direction, q: Primitives, e: SecuCtx, f: Direction,
                    message: seq<uint8>, rest: seq<uint8>, n: nat)
    requires n <= |message|
    requires forall i: nat :: p.keystream(c.encryption, c.knasEnc, Count(c, d), d, i)
                           == q.keystream(e.encryption, e.knasEnc, Count(e, f), f, i)
    ensures Whiten(q, e, f, Whiten(p, c, d, message)[..n] + rest)[..n] == message[..n]
  {
    var out := Whiten(q, e, f, Whiten(p, c, d, message)[..n] + rest);
    forall i: nat | i < n ensures out[i] == message[i] {
      XorTwice(message[i], p.keystream(c.encryption, c.knasEnc, Count(c, d), d, i));
    }
  }

  // ---------------------------------------------------------------- the printer

  /** What the encoder does to its 4096-octet buffer for header types 2 and 3: octets 0, 1, 2 to 5 and 6 and what it
      copies from octet 7 on. */
  function Framed(buffer: seq<uint8>, header: uint8, mac: uint32, number: uint8, body: seq<uint8>): seq<uint8>
    requires 7 + |body| <= |buffer|
  {
    [EPD_5GS_MM_MSG, header] + Octets(mac) + [number] + body + buffer[7 + |body|..]
  }

  /** The octets copied from octet 7 on. */
  function Body(p: Primitives, c: SecuCtx, header: nat, input: seq<uint8>, memory: seq<uint8>): seq<uint8>
    requires |memory| == Words(|input|) - |input|
  {
    if header == 3 then input
    else match Cipher(p, c, Downlink, input, memory)
      case Some(ciphered) => ciphered
      case None => []
  }

  /** No access of the encoder leaves the buffer. */
  predicate Fits(c: SecuCtx, header: nat, length: nat) {
    header == 2 || header == 3 ==>
      && 7 + length <= BUFFER_SIZE
      && (header == 2 && c.encryption == 1 ==> 7 + Words(length) <= BUFFER_SIZE)
  }

  predicate Refused(header: nat, isNew: bool) {
    header == 3 && !isNew
  }

  /** What MAC the message gets: over the number and as many octets as the input has. */
  function MacOf(p: Primitives, c: SecuCtx, header: nat, input: seq<uint8>, memory: seq<uint8>, buffer: seq<uint8>):
    Option<uint32>
    requires |buffer| == BUFFER_SIZE && |memory| == Words(|input|) - |input| && Fits(c, header, |input|)
    requires header == 2 || header == 3
  {
    var body := Body(p, c, header, input, memory);
    var framed := Framed(buffer, header, 0, c.dlSeq, body);
    Integrity(p, c, Downlink, framed[6..7 + |input|]).1
  }

  /** encode_nas_message_protected: None where it returns without a message. Without integrity protection the
      input goes out plain; other header types give an empty message. */
  function Protect(p: Primitives, c: SecuCtx, isNew: bool, header: nat, input: seq<uint8>, memory: seq<uint8>,
                   buffer: seq<uint8>): Option<seq<uint8>>
    requires |buffer| == BUFFER_SIZE && |memory| == Words(|input|) - |input| && Fits(c, header, |input|)
  {
    if Refused(header, isNew) then None
    else if header != 2 && header != 3 then Some([])
    else match MacOf(p, c, header, input, memory, buffer)
      case None => Some(input)
      case Some(mac) =>
        Some(Framed(buffer, header, mac, c.dlSeq, Body(p, c, header, input, memory))[..7 + |input|])
  }

  /** Every call that is not refused takes a number. */
  function AfterProtect(c: SecuCtx, isNew: bool, header: nat): SecuCtx {
    if Refused(header, isNew) then c else c.(dlSeq := (c.dlSeq + 1) % 0x100)
  }

  /** Up to which length an input fits. */
  lemma FitsIff(c: SecuCtx, header: nat, length: nat)
    requires header == 2 || header == 3
    ensures Fits(c, header, length) <==> length <= (if header == 2 && c.encryption == 1 then 4088 else 4089)
  {
  }

  // ---------------------------------------------------------------- the parser

  /** Overrun: the source reads past the end of the message. */
  datatype Received = Rejected | Accepted(plain: Option<seq<uint8>>) | Overrun

  /** check_security_header_type; an unknown type counts as plain. */
  function HeaderType(message: seq<uint8>): Option<nat> {
    if |message| < 2 || message[0] != EPD_5GS_MM_MSG then None
    else Some(if message[1] % 0x10 <= 4 then message[1] % 0x10 else 0)
  }

  /** The receive path; None is a missing security context. */
  function Unprotect(p: Primitives, c: Option<SecuCtx>, message: seq<uint8>, memory: seq<uint8>):
    (Option<SecuCtx>, Received)
    requires |message| >= 7 ==> |memory| == Words(|message| - 7) - (|message| - 7)
  {
    match HeaderType(message)
    case None => (c, Rejected)
    case Some(t) =>
      if t == 0 then (c, Accepted(Some(message)))
      else if t == 1 then (c, if |message| < 7 then Overrun else Accepted(Some(message[7..])))
      else if c.None? then (c, Rejected)
      else if |message| < 7 then (c, Overrun)
      else
        var (c1, mac) := Integrity(p, c.value, Uplink, message[6..]);
        if mac.Some? && mac.value != Word(message[2..6]) then (Some(c1), Rejected)
        else (Some(c1), Accepted(Cipher(p, c1, Uplink, message[7..], memory)))
  }

  // ---------------------------------------------------------------- main results

  /** The receiver holds the sender's algorithms and keys, its uplink overflow is the sender's downlink overflow, and
      its primitives for the uplink are the sender's for the downlink. */
  ghost predicate Mirrors(p: Primitives, sender: SecuCtx, q: Primitives, receiver: SecuCtx) {
    && receiver.integrity == sender.integrity && receiver.encryption == sender.encryption
    && receiver.knasInt == sender.knasInt && receiver.knasEnc == sender.knasEnc
    && receiver.ulOverflow == sender.dlOverflow
    && (forall a: nat, k: Key, n: uint8, m: seq<uint8> :: p.mac(a, k, n, Downlink, m) == q.mac(a, k, n, Uplink, m))
    && (forall a: nat, k: Key, n: uint32, i: nat ::
          p.keystream(a, k, n, Downlink, i) == q.keystream(a, k, n, Uplink, i))
  }

  /** What is in the octets that go out. */
  lemma FramedOctets(buffer: seq<uint8>, header: uint8, mac: uint32, number: uint8, body: seq<uint8>, n: nat)
    requires |buffer| == BUFFER_SIZE && 7 + |body| <= BUFFER_SIZE && n <= |body|
    ensures var out := Framed(buffer, header, mac, number, body)[..7 + n];
            && |out| == 7 + n && out[0] == EPD_5GS_MM_MSG && out[1] == header && out[2..6] == Octets(mac)
            && out[6] == number && out[7..] == body[..n] && out[6..] == [number] + body[..n]
    ensures Framed(buffer, header, mac, number, body)[6..7 + n] == [number] + body[..n]
  {
    var head := [EPD_5GS_MM_MSG, header] + Octets(mac) + [number];
    assert |head| == 7 && head[6] == number && head[2..6] == Octets(mac);
    var all := Framed(buffer, header, mac, number, body);
    assert all == head + (body + buffer[7 + |body|..]);
    assert all[..7 + n] == head + body[..n];
  }

  /** The protected octets of a message of header type 2 with an integrity algorithm. */
  lemma ProtectedOctets(p: Primitives, c: SecuCtx, input: seq<uint8>, memory: seq<uint8>, buffer: seq<uint8>)
    requires |buffer| == BUFFER_SIZE && |memory| == Words(|input|) - |input| && Fits(c, 2, |input|)
    requires 1 <= c.integrity <= 2 && c.encryption <= 2
    ensures var body := Cipher(p, c, Downlink, input, memory).value;
            var sealed := [c.dlSeq] + body[..|input|];
            var out := Protect(p, c, false, 2, input, memory, buffer);
            && out.Some? && |out.value| == 7 + |input| && |input| <= |body| <= |input| + 3
            && out.value[0] == EPD_5GS_MM_MSG && out.value[1] == 2 && out.value[6..] == sealed
            && Word(out.value[2..6]) == p.mac(c.integrity, c.knasInt, c.dlSeq, Downlink, sealed)
            && out.value[7..] == body[..|input|]
  {
    var body := Body(p, c, 2, input, memory);
    var mac := MacOf(p, c, 2, input, memory, buffer).value;
    FramedOctets(buffer, 2, 0, c.dlSeq, body, |input|);
    FramedOctets(buffer, 2, mac, c.dlSeq, body, |input|);
    WordOfOctets(mac);
  }

  /** Deciphering the transmitted part of the ciphered octets. */
  lemma CipherTwice(p: Primitives, s: SecuCtx, q: Primitives, r: SecuCtx,
                    input: seq<uint8>, memory: seq<uint8>, memory2: seq<uint8>)
    requires Mirrors(p, s, q, r) && r.ulSeq == s.dlSeq && s.encryption <= 2
    requires |memory| == |memory2| == Words(|input|) - |input|
    ensures var sent := Cipher(p, s, Downlink, input, memory).value[..|input|];
            var got := Cipher(q, r, Uplink, sent, memory2);
            && got.Some?
            && (s.encryption != 1 ==> got.value == input)
            && (s.encryption == 1 ==> input <= got.value && |got.value| <= |input| + 3)
  {
    assert Count(r, Uplink) == Count(s, Downlink);
    if s.encryption == 1 {
      assert (input + memory)[..|input|] == input;
      WhitenTwice(p, s, Downlink, q, r, Uplink, input + memory, memory2, |input|);
    } else if s.encryption == 2 {
      WhitenTwice(p, s, Downlink, q, r, Uplink, input, [], |input|);
      var sent := Whiten(p, s, Downlink, input)[..|input|];
      assert sent + [] == sent && Whiten(q, r, Uplink, sent)[..|input|] == Whiten(q, r, Uplink, sent);
    }
  }

  lemma Unsealed(p: Primitives, c: SecuCtx, message: seq<uint8>, memory: seq<uint8>)
    requires HeaderType(message) == Some(2) && 1 <= c.integrity <= 2
    requires |message| >= 7 && |memory| == Words(|message| - 7) - (|message| - 7)
    requires Word(message[2..6]) == p.mac(c.integrity, c.knasInt, message[6], Uplink, message[6..])
    ensures var c1 := c.(ulSeq := message[6]);
            Unprotect(p, Some(c), message, memory) == (Some(c1), Accepted(Cipher(p, c1, Uplink, message[7..], memory)))
  {
    assert message[6..][0] == message[6];
  }

  /** What goes out with header type 2 under NIA1 or NIA2 is accepted by the mirrored receiver and gives back the
      plaintext: exactly under NEA0 and NEA2, and followed by at most three octets under NEA1. The receiver's
      uplink number is then the sender's downlink number. */
  lemma RoundTrip(p: Primitives, s: SecuCtx, q: Primitives, r: SecuCtx,
                  input: seq<uint8>, memory: seq<uint8>, buffer: seq<uint8>, memory2: seq<uint8>)
    requires Mirrors(p, s, q, r) && 1 <= s.integrity <= 2 && s.encryption <= 2
    requires |buffer| == BUFFER_SIZE && Fits(s, 2, |input|)
    requires |memory| == |memory2| == Words(|input|) - |input|
    ensures var out := Protect(p, s, false, 2, input, memory, buffer).value;
            && |out| == 7 + |input| && HeaderType(out) == Some(2)
            && var (r1, got) := Unprotect(q, Some(r), out, memory2);
               && r1 == Some(r.(ulSeq := s.dlSeq))
               && got.Accepted? && got.plain.Some?
               && (s.encryption != 1 ==> got.plain.value == input)
               && (s.encryption == 1 ==> input <= got.plain.value && |got.plain.value| <= |input| + 3)
  {
    var out := Protect(p, s, false, 2, input, memory, buffer).value;
    ProtectedOctets(p, s, input, memory, buffer);
    assert out[6..][0] == s.dlSeq;
    Unsealed(q, r, out, memory2);
    CipherTwice(p, s, q, r.(ulSeq := s.dlSeq), input, memory, memory2);
  }

  /** For header types 2 to 4 a message is accepted iff there is a context and, under NIA1 and NIA2, the MAC is right;
      the uplink number is taken over either way. */
  lemma AcceptedIffMac(p: Primitives, c: Option<SecuCtx>, message: seq<uint8>, memory: seq<uint8>)
    requires HeaderType(message).Some? && HeaderType(message).value >= 2
    requires |message| >= 7 && |memory| == Words(|message| - 7) - (|message| - 7)
    ensures var (c1, got) := Unprotect(p, c, message, memory);
            && (got.Accepted? <==>
                  c.Some? && (1 <= c.value.integrity <= 2 ==>
                    Word(message[2..6]) == p.mac(c.value.integrity, c.value.knasInt, message[6], Uplink, message[6..]))
                          && (c.value.integrity > 2 ==> Word(message[2..6]) == 0))
            && (c.Some? ==> c1 == Some(c.value.(ulSeq := message[6])))
  {
    assert message[6..][0] == message[6];
  }

  /** The source reads past the message iff it is shorter than seven octets and of a protected type, with a context at
      hand where the type needs one. */
  lemma OverrunIff(p: Primitives, c: Option<SecuCtx>, message: seq<uint8>, memory: seq<uint8>)
    requires |message| >= 7 ==> |memory| == Words(|message| - 7) - (|message| - 7)
    ensures Unprotect(p, c, message, memory).1.Overrun?
       <==> && |message| < 7 && HeaderType(message).Some?
            && (HeaderType(message).value == 1 || (HeaderType(message).value >= 2 && c.Some?))
  {
  }

  // ---------------------------------------------------------------- receiving again

  datatype Delivery = Delivery(message: seq<uint8>, memory: seq<uint8>)

  predicate WellFormed(d: Delivery) {
    |d.message| >= 7 ==> |d.memory| == Words(|d.message| - 7) - (|d.message| - 7)
  }

  /** The receiver's context after a run of messages. */
  function AfterReceiving(p: Primitives, c: Option<SecuCtx>, ds: seq<Delivery>): Option<SecuCtx>
    requires forall i :: 0 <= i < |ds| ==> WellFormed(ds[i])
  {
    if ds == [] then c
    else
      var last := ds[|ds| - 1];
      assert WellFormed(last);
      Unprotect(p, AfterReceiving(p, c, ds[..|ds| - 1]), last.message, last.memory).0
  }

  /** The contexts differ in the uplink number at most. */
  predicate SameButNumber(c: Option<SecuCtx>, d: Option<SecuCtx>) {
    (c.None? <==> d.None?) && (c.Some? ==> d.value == c.value.(ulSeq := d.value.ulSeq))
  }

  lemma ReceivingSetsNumberOnly(p: Primitives, c: Option<SecuCtx>, d: Delivery)
    requires WellFormed(d)
    ensures SameButNumber(c, Unprotect(p, c, d.message, d.memory).0)
  {
  }

  /** The stored uplink number is overwritten from the message before anything uses it. */
  lemma NumberIsNotUsed(p: Primitives, c: Option<SecuCtx>, c': Option<SecuCtx>, d: Delivery)
    requires WellFormed(d) && SameButNumber(c, c')
    ensures Unprotect(p, c, d.message, d.memory).1 == Unprotect(p, c', d.message, d.memory).1
  {
    if |d.message| >= 7 && c.Some? {
      assert d.message[6..][0] == d.message[6];
      assert c'.value.(ulSeq := d.message[6]) == c.value.(ulSeq := d.message[6]);
    }
  }

  /** What becomes of a message does not depend on the messages received before: one that is accepted is accepted again,
      with the same plaintext, after any run of messages, itself included. */
  lemma {:induction false} ReceiptIgnoresHistory(p: Primitives, c: Option<SecuCtx>, ds: seq<Delivery>, d: Delivery)
    requires WellFormed(d) && forall i :: 0 <= i < |ds| ==> WellFormed(ds[i])
    ensures SameButNumber(c, AfterReceiving(p, c, ds))
    ensures Unprotect(p, AfterReceiving(p, c, ds), d.message, d.memory).1 == Unprotect(p, c, d.message, d.memory).1
  {
    if ds != [] {
      ReceiptIgnoresHistory(p, c, ds[..|ds| - 1], d);
      ReceivingSetsNumberOnly(p, AfterReceiving(p, c, ds[..|ds| - 1]), ds[|ds| - 1]);
    }
    NumberIsNotUsed(p, c, AfterReceiving(p, c, ds), d);
  }

  // ---------------------------------------------------------------- numbers over a run

  /** A call of the encoder: its header type and whether the context is new. */
  datatype Call = Call(header: nat, isNew: bool)

  function AfterCalls(c: SecuCtx, calls: seq<Call>): SecuCtx {
    if calls == [] then c
    else
      var last := calls[|calls| - 1];
      AfterProtect(AfterCalls(c, calls[..|calls| - 1]), last.isNew, last.header)
  }

  /** How many calls are not refused. */
  function Taken(calls: seq<Call>): nat {
    if calls == [] then 0
    else
      var last := calls[|calls| - 1];
      Taken(calls[..|calls| - 1]) + if Refused(last.header, last.isNew) then 0 else 1
  }

  lemma NextNumber(k: nat, n: uint8)
    requires n == k % 0x100
    ensures (n + 1) % 0x100 == (k + 1) % 0x100
  {
  }

  /** The number after any calls is the first one plus how many were not refused, modulo 256; nothing else of the
      context changes, the overflow part included. */
  lemma {:induction false} NumberIsCallsTaken(c: SecuCtx, calls: seq<Call>)
    ensures AfterCalls(c, calls) == c.(dlSeq := (c.dlSeq + Taken(calls)) % 0x100)
  {
    if calls != [] {
      var init := calls[..|calls| - 1];
      NumberIsCallsTaken(c, init);
      NextNumber(c.dlSeq + Taken(init), (c.dlSeq + Taken(init)) % 0x100);
    }
  }

  lemma {:induction false} TakenSplit(calls: seq<Call>, i: nat, j: nat)
    requires i <= j <= |calls|
    ensures Taken(calls[..j]) == Taken(calls[..i]) + Taken(calls[i..j])
  {
    if i < j {
      TakenSplit(calls, i, j - 1);
      assert calls[..j][..j - 1] == calls[..j - 1] && calls[i..j][..j - i - 1] == calls[i..j - 1];
    } else {
      assert calls[i..j] == [];
    }
  }

  lemma SameNumberIff(first: uint8, m: nat, d: nat)
    ensures (first + m) % 0x100 == (first + (m + d)) % 0x100 <==> d % 0x100 == 0
  {
  }

  /** Two calls use the same count iff a multiple of 256 numbers was taken from the one up to the other. The overflow
      part never moves, so counts do come again. */
  lemma CountsRepeatIff(c: SecuCtx, calls: seq<Call>, i: nat, j: nat)
    requires i <= j <= |calls|
    ensures Count(AfterCalls(c, calls[..i]), Downlink) == Count(AfterCalls(c, calls[..j]), Downlink)
       <==> Taken(calls[i..j]) % 0x100 == 0
  {
    NumberIsCallsTaken(c, calls[..i]);
    NumberIsCallsTaken(c, calls[..j]);
    TakenSplit(calls, i, j);
    SameNumberIff(c.dlSeq, Taken(calls[..i]), Taken(calls[i..j]));
  }

  lemma {:induction false} FirstIsTaken(calls: seq<Call>)
    requires calls != [] && !Refused(calls[0].header, calls[0].isNew)
    ensures Taken(calls) >= 1
  {
    if |calls| > 1 {
      FirstIsTaken(calls[..|calls| - 1]);
    }
  }

  /** Any 256 consecutive messages use distinct counts, however many refused calls lie between them: call i makes a
      message, and fewer than 256 messages are made from it up to call j. */
  lemma NumbersDiffer(c: SecuCtx, calls: seq<Call>, i: nat, j: nat)
    requires i < j < |calls| && !Refused(calls[i].header, calls[i].isNew) && Taken(calls[i..j]) < 0x100
    ensures AfterCalls(c, calls[..i]).dlSeq == (c.dlSeq + Taken(calls[..i])) % 0x100
    ensures Count(AfterCalls(c, calls[..i]), Downlink) != Count(AfterCalls(c, calls[..j]), Downlink)
  {
    NumberIsCallsTaken(c, calls[..i]);
    CountsRepeatIff(c, calls, i, j);
    FirstIsTaken(calls[i..j]);
  }

  /** The 257th message repeats the count of the first. */
  lemma CountRepeats(c: SecuCtx)
    ensures var calls := seq(257, _ => Call(2, false));
            Count(AfterCalls(c, calls[..0]), Downlink) == Count(AfterCalls(c, calls[..256]), Downlink)
  {
    var calls := seq(257, _ => Call(2, false));
    TakenOfMessages(calls[0..256]);
    CountsRepeatIff(c, calls, 0, 256);
  }

  lemma {:induction false} TakenOfMessages(calls: seq<Call>)
    requires forall i :: 0 <= i < |calls| ==> calls[i] == Call(2, false)
    ensures Taken(calls) == |calls|
  {
    if calls != [] {
      TakenOfMessages(calls[..|calls| - 1]);
    }
  }

  /** The number goes out in octet 6 of the message. */
  lemma NumberOnTheWire(p: Primitives, c: SecuCtx, isNew: bool, header: nat, input: seq<uint8>, memory: seq<uint8>,
                        buffer: seq<uint8>)
    requires |buffer| == BUFFER_SIZE && |memory| == Words(|input|) - |input| && Fits(c, header, |input|)
    requires (header == 2 || header == 3) && !Refused(header, isNew) && c.integrity != 0
    ensures var out := Protect(p, c, isNew, header, input, memory, buffer);
            out.Some? && |out.value| == 7 + |input| && out.value[6] == c.dlSeq && out.value[1] == header
  {
    var body := Body(p, c, header, input, memory);
    var mac := MacOf(p, c, header, input, memory, buffer);
    assert mac.Some?;
    FramedHead(buffer, header, mac.value, c.dlSeq, body, |input|);
  }

  lemma FramedHead(buffer: seq<uint8>, header: uint8, mac: uint32, number: uint8, body: seq<uint8>, n: nat)
    requires |buffer| == BUFFER_SIZE && 7 + |body| <= BUFFER_SIZE && 7 + n <= BUFFER_SIZE
    ensures var out := Framed(buffer, header, mac, number, body)[..7 + n];
            |out| == 7 + n && out[1] == header && out[6] == number
  {
    var head := [EPD_5GS_MM_MSG, header] + Octets(mac) + [number];
    var rest := body + buffer[7 + |body|..];
    assert |head| == 7 && head[1] == header && head[6] == number;
    assert Framed(buffer, header, mac, number, body) == head + rest;
  }

  // ---------------------------------------------------------------- security mode control

  /** The context part of start_security_mode_control_procedure: whether it is taken as new, and the context. */
  function StartSmc(c: SecuCtx, integrity: nat, encryption: nat, knasInt: Key, knasEnc: Key): (SecuCtx, bool) {
    if !c.available then (SecuCtx(true, integrity, encryption, knasInt, knasEnc, 0, 0, 0, 0), true) else (c, false)
  }

  /** A Security Mode Command takes number 0 of a context that was not available before; for a context already in
      use the command is refused, no message is made and no number is taken. */
  lemma SecurityModeCommandNumber(c: SecuCtx, integrity: nat, encryption: nat, knasInt: Key, knasEnc: Key,
                                  calls: seq<Call>)
    ensures var (c1, isNew) := StartSmc(c, integrity, encryption, knasInt, knasEnc);
            && (c.available <==> Refused(3, isNew))
            && (c.available ==> AfterProtect(c1, isNew, 3) == c)
            && (!c.available ==>
                  c1.dlSeq == 0 && c1.dlOverflow == 0
                  && AfterCalls(c1, [Call(3, isNew)] + calls) == c1.(dlSeq := (1 + Taken(calls)) % 0x100))
  {
    if !c.available {
      var (c1, isNew) := StartSmc(c, integrity, encryption, knasInt, knasEnc);
      NumberIsCallsTaken(c1, [Call(3, isNew)] + calls);
      TakenAfter(Call(3, isNew), calls);
    }
  }

  lemma {:induction false} TakenAfter(first: Call, calls: seq<Call>)
    ensures Taken([first] + calls) == (if Refused(first.header, first.isNew) then 0 else 1) + Taken(calls)
  {
    var all := [first] + calls;
    if calls == [] {
      assert all[..0] == [];
    } else {
      assert all[..|all| - 1] == [first] + calls[..|calls| - 1];
      TakenAfter(first, calls[..|calls| - 1]);
    }
  }

  // ---------------------------------------------------------------- the octets on the wire

  function Bit(a: nat, i: nat): nat {
    if i == 0 then a % 2 else Bit(a / 2, i - 1)
  }

  lemma {:induction false} BitOfXorBits(a: nat, b: nat, n: nat, i: nat)
    requires i < n
    ensures Bit(XorBits(a, b, n), i) == (Bit(a, i) + Bit(b, i)) % 2
  {
    var rest := XorBits(a / 2, b / 2, n - 1);
    HalfAndBit((a + b) % 2, rest);
    if i > 0 {
      BitOfXorBits(a / 2, b / 2, n - 1, i - 1);
    } else {
      SumBit(a, b);
    }
  }

  lemma HalfAndBit(low: nat, rest: nat)
    requires low < 2
    ensures (low + 2 * rest) / 2 == rest && (low + 2 * rest) % 2 == low
  {
  }

  lemma SumBit(a: nat, b: nat)
    ensures (a + b) % 2 == (a % 2 + b % 2) % 2
  {
  }

  /** Bit by bit, the exclusive or is one where exactly one of the octets is. */
  lemma XorByBits(a: uint8, b: uint8, i: nat)
    requires i < 8
    ensures Bit(Xor(a, b), i) == if Bit(a, i) != Bit(b, i) then 1 else 0
  {
    BitOfXorBits(a, b, 8, i);
    BitIsBinary(a, i);
    BitIsBinary(b, i);
  }

  lemma {:induction false} BitIsBinary(a: nat, i: nat)
    ensures Bit(a, i) < 2
  {
    if i > 0 {
      BitIsBinary(a / 2, i - 1);
    }
  }

  /** The four octets from position i, most significant first. */
  predicate BigEndianAt(s: seq<uint8>, i: nat, w: uint32) {
    i + 4 <= |s|
    && var a: int, b: int, c: int, d: int := s[i], s[i + 1], s[i + 2], s[i + 3];
       a * 0x100_0000 + b * 0x1_0000 + c * 0x100 + d == w
  }

  lemma WordIsBigEndian(s: seq<uint8>)
    requires |s| >= 6
    ensures BigEndianAt(s, 2, Word(s[2..6]))
  {
    var m := s[2..6];
    assert m[0] == s[2] && m[1] == s[3] && m[2] == s[4] && m[3] == s[5];
    var a: int, b: int, c: int, d: int := s[2], s[3], s[4], s[5];
    assert ((a * 0x100 + b) * 0x100 + c) * 0x100 + d == a * 0x100_0000 + b * 0x1_0000 + c * 0x100 + d;
  }

  /** The 24-bit count of a direction. */
  function CountOf(c: SecuCtx, d: Direction): uint32 {
    match d
    case Downlink => c.dlOverflow * 256 + c.dlSeq
    case Uplink => c.ulOverflow * 256 + c.ulSeq
  }

  /** An octet under the encryption algorithm. */
  function Ciphered(p: Primitives, c: SecuCtx, d: Direction, octet: uint8, i: nat): uint8 {
    if c.encryption == 0 then octet else Xor(octet, p.keystream(c.encryption, c.knasEnc, CountOf(c, d), d, i))
  }

  lemma CipheredOctets(p: Primitives, c: SecuCtx, d: Direction, input: seq<uint8>, memory: seq<uint8>)
    requires |memory| == Words(|input|) - |input| && c.encryption <= 2
    ensures var body := Cipher(p, c, d, input, memory).value;
            && |body| == (if c.encryption == 1 then Words(|input|) else |input|)
            && forall i :: 0 <= i < |input| ==> body[i] == Ciphered(p, c, d, input[i], i)
  {
    var body := Cipher(p, c, d, input, memory).value;
    if c.encryption > 0 {
      var padded := if c.encryption == 1 then input + memory else input;
      assert body == Whiten(p, c, d, padded);
      forall i | 0 <= i < |input| ensures body[i] == Ciphered(p, c, d, input[i], i) {
        assert padded[i] == input[i];
        WhitenAt(p, c, d, padded, i);
      }
    }
  }

  lemma WhitenAt(p: Primitives, c: SecuCtx, d: Direction, message: seq<uint8>, i: nat)
    requires i < |message|
    ensures Whiten(p, c, d, message)[i] == Xor(message[i], p.keystream(c.encryption, c.knasEnc, CountOf(c, d), d, i))
  {
    assert CountOf(c, d) == Count(c, d);
  }

  /** A message of header type 2 under NIA1 or NIA2, octet by octet: discriminator, header type, MAC over the number and
      what follows, number, and the input, XORed under NEA1 and NEA2 with the key stream of the count. */
  lemma CipheredOnTheWire(p: Primitives, c: SecuCtx, isNew: bool, input: seq<uint8>, memory: seq<uint8>,
                          buffer: seq<uint8>)
    requires |buffer| == BUFFER_SIZE && |memory| == Words(|input|) - |input| && Fits(c, 2, |input|)
    requires 1 <= c.integrity <= 2 && c.encryption <= 2
    ensures var out := Protect(p, c, isNew, 2, input, memory, buffer);
            && out.Some? && |out.value| == 7 + |input|
            && out.value[0] == 0x7e && out.value[1] == 2 && out.value[6] == c.dlSeq
            && BigEndianAt(out.value, 2, p.mac(c.integrity, c.knasInt, c.dlSeq, Downlink, out.value[6..]))
            && forall i :: 0 <= i < |input| ==>
                 out.value[7 + i] == Ciphered(p, c, Downlink, input[i], i)
  {
    ProtectedOctets(p, c, input, memory, buffer);
    assert Protect(p, c, isNew, 2, input, memory, buffer) == Protect(p, c, false, 2, input, memory, buffer);
    var out := Protect(p, c, false, 2, input, memory, buffer).value;
    var body := Cipher(p, c, Downlink, input, memory).value;
    WordIsBigEndian(out);
    CipheredOctets(p, c, Downlink, input, memory);
    assert out[6..][0] == out[6];
    forall i | 0 <= i < |input| ensures out[7 + i] == body[i] {
      assert out[7..][i] == body[..|input|][i];
    }
  }

  /** A message of header type 3 for a new context goes out in plain, with the MAC over the number and the plain
      input. */
  lemma NewContextOnTheWire(p: Primitives, c: SecuCtx, input: seq<uint8>, memory: seq<uint8>, buffer: seq<uint8>)
    requires |buffer| == BUFFER_SIZE && |memory| == Words(|input|) - |input| && Fits(c, 3, |input|)
    requires 1 <= c.integrity <= 2
    ensures var out := Protect(p, c, true, 3, input, memory, buffer);
            && out.Some? && |out.value| == 7 + |input|
            && out.value[0] == 0x7e && out.value[1] == 3
            && out.value[6..] == [c.dlSeq] + input && out.value[7..] == input
            && BigEndianAt(out.value, 2, p.mac(c.integrity, c.knasInt, c.dlSeq, Downlink, [c.dlSeq] + input))
  {
    var mac := MacOf(p, c, 3, input, memory, buffer).value;
    FramedOctets(buffer, 3, 0, c.dlSeq, input, |input|);
    FramedOctets(buffer, 3, mac, c.dlSeq, input, |input|);
    assert input[..|input|] == input;
    WordOfOctets(mac);
    WordIsBigEndian(Protect(p, c, true, 3, input, memory, buffer).value);
  }

  /** Without integrity protection the input goes out as it is; an integrity algorithm that is not known gives MAC zero;
      and an encryption algorithm that is not known leaves what was in the buffer. */
  lemma OddAlgorithmsOnTheWire(p: Primitives, c: SecuCtx, header: nat, input: seq<uint8>, memory: seq<uint8>,
                               buffer: seq<uint8>)
    requires |buffer| == BUFFER_SIZE && |memory| == Words(|input|) - |input| && Fits(c, header, |input|)
    requires header == 2 || header == 3
    ensures var out := Protect(p, c, true, header, input, memory, buffer);
            && out.Some?
            && (c.integrity == 0 ==> out.value == input)
            && (c.integrity > 2 ==> |out.value| == 7 + |input| && BigEndianAt(out.value, 2, 0))
            && (c.integrity != 0 && header == 2 && c.encryption > 2 ==> out.value[7..] == buffer[7..7 + |input|])
  {
    if c.integrity != 0 {
      var body := Body(p, c, header, input, memory);
      var mac := MacOf(p, c, header, input, memory, buffer).value;
      FramedAll(buffer, header, mac, c.dlSeq, body, |input|);
      WordOfOctets(mac);
      WordIsBigEndian(Protect(p, c, true, header, input, memory, buffer).value);
    }
  }

  /** A message of type 3 for a context in use is refused; any type but 2 and 3 gives an empty message and takes a
      number. */
  lemma OtherTypesOnTheWire(p: Primitives, c: SecuCtx, isNew: bool, header: nat, input: seq<uint8>, memory: seq<uint8>,
                            buffer: seq<uint8>)
    requires |buffer| == BUFFER_SIZE && |memory| == Words(|input|) - |input| && Fits(c, header, |input|)
    requires header == 3 ==> !isNew
    ensures var out := Protect(p, c, isNew, header, input, memory, buffer);
            && (header == 3 ==> out == None && AfterProtect(c, isNew, header) == c)
            && (header != 2 && header != 3 ==>
                  out == Some([]) && AfterProtect(c, isNew, header) == c.(dlSeq := (c.dlSeq + 1) % 256))
  {
  }

  lemma FramedAll(buffer: seq<uint8>, header: uint8, mac: uint32, number: uint8, body: seq<uint8>, n: nat)
    requires |buffer| == BUFFER_SIZE && 7 + |body| <= BUFFER_SIZE && 7 + n <= BUFFER_SIZE
    ensures var out := Framed(buffer, header, mac, number, body)[..7 + n];
            |out| == 7 + n && out[2..6] == Octets(mac) && (body == [] ==> out[7..] == buffer[7..7 + n])
  {
    var head := [EPD_5GS_MM_MSG, header] + Octets(mac) + [number];
    var rest := body + buffer[7 + |body|..];
    assert |head| == 7 && head[2..6] == Octets(mac);
    assert Framed(buffer, header, mac, number, body) == head + rest;
    assert (head + rest)[..7 + n] == head + rest[..n];
    if body == [] {
      assert rest == buffer[7..];
    }
  }

  /** The Security Mode Command of a fresh context carries number 0 and the MAC under the newly selected integrity
      algorithm and key; the message after it is ciphered with the newly selected encryption algorithm and key, under
      count 1. */
  lemma SecurityModeOnTheWire(p: Primitives, c: SecuCtx, nia: nat, nea: nat, newInt: Key, newEnc: Key,
                              command: seq<uint8>, memory: seq<uint8>, next: seq<uint8>, memory2: seq<uint8>,
                              buffer: seq<uint8>)
    requires !c.available && 1 <= nia <= 2 && 1 <= nea <= 2 && |buffer| == BUFFER_SIZE
    requires |memory| == Words(|command|) - |command| && |memory2| == Words(|next|) - |next|
    requires |command| <= 4088 && |next| <= 4088
    ensures var (c0, isNew) := StartSmc(c, nia, nea, newInt, newEnc);
            && isNew && Fits(c0, 3, |command|)
            && var c1, out := AfterProtect(c0, isNew, 3), Protect(p, c0, isNew, 3, command, memory, buffer);
               && Fits(c1, 2, |next|) && out.Some? && |out.value| == 7 + |command| && out.value[6..] == [0] + command
               && BigEndianAt(out.value, 2, p.mac(nia, newInt, 0, Downlink, [0] + command))
               && var second := Protect(p, c1, false, 2, next, memory2, buffer);
                  && second.Some? && |second.value| == 7 + |next| && second.value[6] == 1
                  && BigEndianAt(second.value, 2, p.mac(nia, newInt, 1, Downlink, second.value[6..]))
                  && forall i :: 0 <= i < |next| ==>
                       second.value[7 + i] == Xor(next[i], p.keystream(nea, newEnc, 1, Downlink, i))
  {
    var (c0, isNew) := StartSmc(c, nia, nea, newInt, newEnc);
    var c1 := AfterProtect(c0, isNew, 3);
    FitsIff(c0, 3, |command|);
    FitsIff(c1, 2, |next|);
    NewContextOnTheWire(p, c0, command, memory, buffer);
    CipheredOnTheWire(p, c1, false, next, memory2, buffer);
  }

  /** What an accepted message yields: as it is for a plain one; without its first seven octets for header type 1, which
      is not checked; and for types 2 to 4, whatever the type says, deciphered with the number it carries. */
  lemma AcceptedContents(p: Primitives, c: Option<SecuCtx>, message: seq<uint8>, memory: seq<uint8>)
    requires |message| >= 7 && |memory| == Words(|message| - 7) - (|message| - 7) && HeaderType(message).Some?
    requires Unprotect(p, c, message, memory).1.Accepted?
    ensures var t, plain := HeaderType(message).value, Unprotect(p, c, message, memory).1.plain;
            && (t == 0 ==> plain == Some(message)) && (t == 1 ==> plain == Some(message[7..]))
            && (t >= 2 ==>
                  && c.Some?
                  && (plain.Some? <==> c.value.encryption <= 2)
                  && (plain.Some? ==>
                        && |plain.value| == (if c.value.encryption == 1 then Words(|message| - 7) else |message| - 7)
                        && forall i :: 0 <= i < |message| - 7 ==>
                             plain.value[i]
                             == Ciphered(p, c.value.(ulSeq := message[6]), Uplink, message[7 + i], i)))
  {
    if HeaderType(message).value >= 2 {
      assert message[6..][0] == message[6];
      if c.value.encryption <= 2 {
        CipheredOctets(p, c.value.(ulSeq := message[6]), Uplink, message[7..], memory);
      }
    }
  }

  /** The header type is the low half of the second octet, as far as it is at most 4; there is none without the
      discriminator. */
  lemma HeaderTypeIs(message: seq<uint8>)
    ensures HeaderType(message).Some? <==> |message| >= 2 && message[0] == 0x7e
    ensures forall t :: 0 <= t <= 4 && |message| >= 2 && message[0] == 0x7e ==>
              (HeaderType(message) == Some(t) <==> message[1] % 16 == t || (t == 0 && message[1] % 16 > 4))
  {
  }

  // ---------------------------------------------------------------- the code

  class NasSecuCtx {
    var available: bool
    var integrity: nat
    var encryption: nat
    var knasInt: Key
    var knasEnc: Key
    var dlOverflow: uint16
    var dlSeq: uint8
    var ulOverflow: uint16
    var ulSeq: uint8

    ghost function Value(): SecuCtx
      reads this
    {
      SecuCtx(available, integrity, encryption, knasInt, knasEnc, dlOverflow, dlSeq, ulOverflow, ulSeq)
    }

    /** Returns whether the context was taken as new. */
    method StartSecurityModeControl(nia: nat, nea: nat, newInt: Key, newEnc: Key) returns (isNew: bool)
      modifies this
      ensures (Value(), isNew) == StartSmc(old(Value()), nia, nea, newInt, newEnc)
    {
      isNew := false;
      if !available {
        dlOverflow, dlSeq := 0, 0;
        ulOverflow, ulSeq := 0, 0;
        integrity, encryption := nia, nea;
        available := true;
        knasInt, knasEnc := newInt, newEnc;
        isNew := true;
      }
    }

    method IntegrityProtected(p: Primitives, d: Direction, message: seq<uint8>) returns (ok: bool, mac32: uint32)
      requires message != []
      modifies this
      ensures Value() == Integrity(p, old(Value()), d, message).0
      ensures (if ok then Some(mac32) else None) == Integrity(p, old(Value()), d, message).1
    {
      ok, mac32 := true, 0;
      var count := message[0];
      if d == Uplink {
        ulSeq := count;
      }
      if integrity == 0 {
        ok := false;
      } else if integrity <= 2 {
        mac32 := p.mac(integrity, knasInt, count, d, message);
      }
    }

    /** The stream cipher: each octet is XORed with the key stream. */
    method StreamEncrypt(p: Primitives, d: Direction, message: seq<uint8>) returns (out: seq<uint8>)
      ensures out == Whiten(p, Value(), d, message)
    {
      var count: uint32 := if d == Downlink then dlOverflow * 0x100 + dlSeq else ulOverflow * 0x100 + ulSeq;
      assert count == Count(Value(), d);
      ghost var expected := Whiten(p, Value(), d, message);
      var data := new uint8[|message|];
      for i := 0 to |message|
        invariant forall j :: 0 <= j < i ==> data[j] == expected[j]
      {
        assert expected[i] == Xor(message[i], p.keystream(encryption, knasEnc, count, d, i));
        data[i] := Xor(message[i], p.keystream(encryption, knasEnc, count, d, i));
      }
      out := data[..];
    }

    method CipherProtected(p: Primitives, d: Direction, message: seq<uint8>, memory: seq<uint8>)
      returns (output: Option<seq<uint8>>)
      requires |memory| == Words(|message|) - |message|
      ensures output == Cipher(p, Value(), d, message, memory)
    {
      if encryption == 0 {
        output := Some(message);
      } else if encryption == 1 {
        var out := StreamEncrypt(p, d, message + memory);
        output := Some(out);
      } else if encryption == 2 {
        var out := StreamEncrypt(p, d, message);
        output := Some(out);
      } else {
        output := None;
      }
    }
  }

  method CopyTo(buf: array<uint8>, at: nat, data: seq<uint8>)
    requires at + |data| <= buf.Length
    modifies buf
    ensures buf[..] == old(buf[..at]) + data + old(buf[at + |data|..])
  {
    forall i | 0 <= i < |data| {
      buf[at + i] := data[i];
    }
  }

  /** Writes octets 0, 1, 6 and from 7 on, and leaves 2 to 5. */
  method WriteFrame(buf: array<uint8>, header: uint8, number: uint8, body: seq<uint8>)
    requires buf.Length == BUFFER_SIZE && 7 + |body| <= BUFFER_SIZE
    modifies buf
    ensures buf[..] == [EPD_5GS_MM_MSG, header] + old(buf[2..6]) + [number] + body + old(buf[7 + |body|..])
  {
    buf[0] := EPD_5GS_MM_MSG;
    buf[1] := header;
    buf[6] := number;
    assert buf[..7] == [EPD_5GS_MM_MSG, header] + old(buf[2..6]) + [number];
    assert buf[7 + |body|..] == old(buf[7 + |body|..]);
    CopyTo(buf, 7, body);
  }

  /** From octet 6 on a frame does not depend on what is in octets 2 to 5. */
  lemma FrameTail(buffer: seq<uint8>, header: uint8, mac: uint32, number: uint8, body: seq<uint8>, mid: seq<uint8>)
    requires |buffer| == BUFFER_SIZE && 7 + |body| <= BUFFER_SIZE && |mid| == 4
    ensures var all := [EPD_5GS_MM_MSG, header] + mid + [number] + body + buffer[7 + |body|..];
            && |all| == BUFFER_SIZE
            && all[..2] == [EPD_5GS_MM_MSG, header]
            && all[6..] == [number] + (body + buffer[7 + |body|..])
            && all[6..] == Framed(buffer, header, mac, number, body)[6..]
  {
    var head := [EPD_5GS_MM_MSG, header];
    var tail := [number] + (body + buffer[7 + |body|..]);
    assert head + mid + [number] + body + buffer[7 + |body|..] == (head + mid) + tail;
    assert Framed(buffer, header, mac, number, body) == (head + Octets(mac)) + tail;
  }

  lemma FrameSlice(a: seq<uint8>, b: seq<uint8>, n: nat)
    requires |a| == |b| && 7 + n <= |a| && a[6..] == b[6..]
    ensures a[6..7 + n] == b[6..7 + n]
  {
    assert a[6..7 + n] == a[6..][..1 + n] && b[6..7 + n] == b[6..][..1 + n];
  }

  lemma FrameWithMac(all: seq<uint8>, buffer: seq<uint8>, header: uint8, mac: uint32, number: uint8, body: seq<uint8>)
    requires |all| == |buffer| == BUFFER_SIZE && 7 + |body| <= BUFFER_SIZE
    requires all[..2] == [EPD_5GS_MM_MSG, header] && all[6..] == [number] + (body + buffer[7 + |body|..])
    ensures all[..2] + Octets(mac) + all[6..] == Framed(buffer, header, mac, number, body)
  {
    var head := [EPD_5GS_MM_MSG, header];
    assert head + Octets(mac) + [number] + body + buffer[7 + |body|..]
        == head + Octets(mac) + ([number] + (body + buffer[7 + |body|..]));
  }

  /** Frame, MAC, and the octets that go out. */
  method Seal(p: Primitives, nsc: NasSecuCtx, header: uint8, input: seq<uint8>, body: seq<uint8>, buf: array<uint8>)
    returns (out: seq<uint8>)
    requires buf.Length == BUFFER_SIZE && 7 + |body| <= BUFFER_SIZE && 7 + |input| <= BUFFER_SIZE
    modifies buf, nsc
    ensures nsc.Value() == old(nsc.Value())
    ensures var c, buffer := nsc.Value(), old(buf[..]);
            out == match Integrity(p, c, Downlink, Framed(buffer, header, 0, c.dlSeq, body)[6..7 + |input|]).1
                   case None => input
                   case Some(mac) => Framed(buffer, header, mac, c.dlSeq, body)[..7 + |input|]
  {
    ghost var buffer := buf[..];
    WriteFrame(buf, header, nsc.dlSeq, body);
    assert buffer[2..6] == old(buf[2..6]) && buffer[7 + |body|..] == old(buf[7 + |body|..]);
    FrameTail(buffer, header, 0, nsc.dlSeq, body, buffer[2..6]);
    FrameSlice(buf[..], Framed(buffer, header, 0, nsc.dlSeq, body), |input|);
    assert buf[6..7 + |input|] == buf[..][6..7 + |input|];
    var ok, mac32 := nsc.IntegrityProtected(p, Downlink, buf[6..7 + |input|]);
    if !ok {
      CopyTo(buf, 0, input);
      out := buf[..|input|];
    } else {
      FrameWithMac(buf[..], buffer, header, mac32, nsc.dlSeq, body);
      CopyTo(buf, 2, Octets(mac32));
      assert buf[..] == Framed(buffer, header, mac32, nsc.dlSeq, body);
      out := buf[..7 + |input|];
    }
  }

  /** encode_nas_message_protected, with its local buffer as an argument: what was in it before is not known. */
  method EncodeNasMessageProtected(p: Primitives, nsc: NasSecuCtx?, isNew: bool, header: nat, input: seq<uint8>,
                                   memory: seq<uint8>, buf: array<uint8>)
    returns (out: Option<seq<uint8>>)
    requires buf.Length == BUFFER_SIZE && |memory| == Words(|input|) - |input|
    requires nsc == null ==> header == 3
    requires nsc != null ==> Fits(nsc.Value(), header, |input|)
    modifies buf, if nsc == null then {} else {nsc}
    ensures nsc == null ==> out == None
    ensures nsc != null ==>
              && out == Protect(p, old(nsc.Value()), isNew, header, input, memory, old(buf[..]))
              && nsc.Value() == AfterProtect(old(nsc.Value()), isNew, header)
  {
    out := Some([]);
    if header == 2 {
      var ciphered := nsc.CipherProtected(p, Downlink, input, memory);
      var octets := Seal(p, nsc, 2, input, if ciphered.Some? then ciphered.value else [], buf);
      out := Some(octets);
    } else if header == 3 {
      if nsc == null || !isNew {
        out := None;
        return;
      }
      var octets := Seal(p, nsc, 3, input, input, buf);
      out := Some(octets);
    }
    nsc.dlSeq := (nsc.dlSeq + 1) % 0x100;
  }

  /** The receive path of the uplink. */
  method ReceiveNas(p: Primitives, nsc: NasSecuCtx?, message: seq<uint8>, memory: seq<uint8>) returns (got: Received)
    requires |message| >= 7 ==> |memory| == Words(|message| - 7) - (|message| - 7)
    modifies if nsc == null then {} else {nsc}
    ensures nsc == null ==> got == Unprotect(p, None, message, memory).1
    ensures nsc != null ==> (Some(nsc.Value()), got) == Unprotect(p, Some(old(nsc.Value())), message, memory)
  {
    var header := HeaderType(message);
    if header.None? {
      return Rejected;
    }
    if header.value == 0 {
      return Accepted(Some(message));
    }
    if header.value == 1 {
      return if |message| < 7 then Overrun else Accepted(Some(message[7..]));
    }
    if nsc == null {
      return Rejected;
    }
    if |message| < 7 {
      return Overrun;
    }
    var ok, mac32 := nsc.IntegrityProtected(p, Uplink, message[6..]);
    if ok && mac32 != Word(message[2..6]) {
      return Rejected;
    }
    var plain := nsc.CipherProtected(p, Uplink, message[7..], memory);
    got := Accepted(plain);
  }
}
