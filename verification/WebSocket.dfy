/** Octets as bit vectors and as numbers. */
module Octets {
  /** The octet with a given value. */
  function Octet(m: nat): bv8
    requires m < 256
  {
    if m == 0 then 0 else Octet(m - 1) + 1
  }

  lemma Successor(b: bv8)
    requires b as int < 255
    ensures (b + 1) as int == b as int + 1
  {
  }

  lemma {:induction false} OctetValue(m: nat)
    requires m < 256
    ensures Octet(m) as int == m
    decreases m
  {
    if m > 0 {
      OctetValue(m - 1);
      Successor(Octet(m - 1));
    }
  }

  /** The low eight bits of a number. */
  function ByteOf(n: nat): bv8 {
    Octet(n % 256)
  }

  lemma ByteRoundTrip(n: nat)
    ensures ByteOf(n) as int == n % 256
  {
    OctetValue(n % 256);
  }
}

/** WebSocket frames (sections 5.2 and 5.3 of RFC 6455): the masked writer and the reader. */
module WebSocket {

  import opened Octets

  type Byte = bv8

  type Bytes = seq<Byte>

  /** The largest payload the reader takes: 16 MiB. */
  const MAX_PAYLOAD := 16 * 1024 * 1024

  datatype Error = Eof | UnexpectedEof | TooLarge

  datatype ReadResult = Frame(opcode: Byte, payload: Bytes, rest: Bytes) | Failed(error: Error)

  // ----- Big-endian numbers -----

  function Pow256(k: nat): nat {
    if k == 0 then 1 else 256 * Pow256(k - 1)
  }

  function BigEndian(n: nat, k: nat): Bytes
    ensures |BigEndian(n, k)| == k
  {
    if k == 0 then [] else BigEndian(n / 256, k - 1) + [ByteOf(n)]
  }

  function FromBigEndian(s: Bytes): nat {
    if s == [] then 0 else 256 * FromBigEndian(s[..|s| - 1]) + s[|s| - 1] as int
  }

  lemma {:induction false} BigEndianRoundTrip(n: nat, k: nat)
    requires n < Pow256(k)
    ensures FromBigEndian(BigEndian(n, k)) == n
    decreases k
  {
    if k > 0 {
      BigEndianRoundTrip(n / 256, k - 1);
      ByteRoundTrip(n);
      assert BigEndian(n, k)[..k - 1] == BigEndian(n / 256, k - 1);
    }
  }

  // ----- Masking -----

  function Masked(payload: Bytes, key: Bytes): Bytes
    requires |key| == 4
  {
    seq(|payload|, i requires 0 <= i < |payload| => payload[i] ^ key[i % 4])
  }

  lemma MaskTwice(payload: Bytes, key: Bytes)
    requires |key| == 4
    ensures Masked(Masked(payload, key), key) == payload
  {
    assert forall a: bv8, b: bv8 {:trigger a ^ b} :: (a ^ b) ^ b == a;
  }

  // ----- The wire format -----

  /** How many length bytes follow the two header bytes. */
  function ExtendedSize(l: nat): nat {
    if l < 126 then 0 else if l <= 0xffff then 2 else 8
  }

  function ShortLength(l: nat): Byte {
    if l < 126 then ByteOf(l) else if l <= 0xffff then 126 else 127
  }

  /** A frame: a client always masks, a server does not (`key` empty). */
  function Encode(opcode: Byte, payload: Bytes, key: Bytes): Bytes
    requires |key| == 4 || key == []
  {
    var l := |payload|;
    [0x80 | opcode, (if key == [] then 0 else 0x80) | ShortLength(l)]
    + BigEndian(l, ExtendedSize(l)) + key + (if key == [] then payload else Masked(payload, key))
  }

  // ----- Reading -----

  /** `io.ReadFull`: asking for nothing succeeds; an exhausted input is `Eof`, a short one `UnexpectedEof`. */
  datatype FullRead = Got(bytes: Bytes, rest: Bytes) | Short(error: Error)

  function ReadFull(s: Bytes, n: nat): FullRead {
    if n <= |s| then Got(s[..n], s[n..]) else if s == [] then Short(Eof) else Short(UnexpectedEof)
  }

  const TWO_63 := 0x8000_0000_0000_0000

  /** Eight length bytes read into a signed 64-bit integer. */
  function Int64(n: nat): int {
    if n < TWO_63 then n else n - 2 * TWO_63
  }

  datatype Header = Header(opcode: Byte, masked: bool, short: nat)

  function HeaderOf(h0: Byte, h1: Byte): Header {
    Header(h0 & 0x0f, h1 & 0x80 != 0, (h1 & 0x7f) as int)
  }

  function ExtendedFor(short: nat): nat {
    if short == 126 then 2 else if short == 127 then 8 else 0
  }

  function ParseMask(opcode: Byte, masked: bool, length: nat, s: Bytes): ReadResult {
    match ReadFull(s, if masked then 4 else 0)
    case Short(e) => Failed(e)
    case Got(mask, s') =>
      match ReadFull(s', length)
      case Short(e) => Failed(e)
      case Got(payload, rest) => Frame(opcode, if masked then Masked(payload, mask) else payload, rest)
  }

  function ParseLength(h: Header, s: Bytes): ReadResult {
    match ReadFull(s, ExtendedFor(h.short))
    case Short(e) => Failed(e)
    case Got(ext, s') =>
      var length := if ext == [] then h.short else Int64(FromBigEndian(ext));
      if length < 0 || length > MAX_PAYLOAD then Failed(TooLarge) else ParseMask(h.opcode, h.masked, length, s')
  }

  /** One frame off the front of the input. */
  function Parse(s: Bytes): ReadResult {
    match ReadFull(s, 2)
    case Short(e) => Failed(e)
    case Got(h, s') => ParseLength(HeaderOf(h[0], h[1]), s')
  }

  // ----- Reading back what was written -----

  /** The 7-bit length field as a number. */
  function ShortField(l: nat): nat {
    if l < 126 then l else if l <= 0xffff then 126 else 127
  }

  lemma HeaderBits(opcode: Byte, maskBit: Byte, short: Byte)
    requires maskBit == 0 || maskBit == 0x80
    requires short < 0x80
    ensures HeaderOf(0x80 | opcode, maskBit | short) == Header(opcode & 0x0f, maskBit == 0x80, short as int)
  {
    assert (0x80 | opcode) & 0x0f == opcode & 0x0f;
    assert (maskBit | short) & 0x80 == maskBit;
    assert (maskBit | short) & 0x7f == short;
  }

  lemma SmallOctet(b: Byte)
    ensures b as int < 0x80 ==> b < 0x80
  {
  }

  lemma ShortLengthBits(l: nat)
    ensures ShortLength(l) < 0x80 && ShortLength(l) as int == ShortField(l)
  {
    ByteRoundTrip(l);
    SmallOctet(ShortLength(l));
  }

  lemma PowersOf256()
    ensures Pow256(2) == 0x1_0000 && Pow256(8) == 2 * TWO_63
  {
    assert Pow256(1) == 256;
    assert Pow256(3) == 256 * Pow256(2);
    assert Pow256(5) == 256 * Pow256(4) && Pow256(4) == 256 * Pow256(3);
    assert Pow256(7) == 256 * Pow256(6) && Pow256(6) == 256 * Pow256(5);
  }

  lemma ReadFullExact(a: Bytes, b: Bytes)
    ensures ReadFull(a + b, |a|) == Got(a, b)
  {
    assert (a + b)[..|a|] == a && (a + b)[|a|..] == b;
  }

  function Body(payload: Bytes, key: Bytes): Bytes
    requires |key| == 4 || key == []
    ensures |Body(payload, key)| == |payload|
  {
    if key == [] then payload else Masked(payload, key)
  }

  /** The two header bytes. */
  function HeaderBytes(opcode: Byte, l: nat, key: Bytes): Bytes {
    [0x80 | opcode, (if key == [] then 0 else 0x80) | ShortLength(l)]
  }

  function LengthBytes(l: nat): Bytes
    ensures |LengthBytes(l)| == ExtendedSize(l)
  {
    BigEndian(l, ExtendedSize(l))
  }

  lemma EncodeParts(opcode: Byte, payload: Bytes, key: Bytes)
    requires |key| == 4 || key == []
    ensures Encode(opcode, payload, key)
      == HeaderBytes(opcode, |payload|, key) + (LengthBytes(|payload|) + (key + Body(payload, key)))
  {
  }

  /** The header of a frame leads the reader to its length bytes. */
  lemma HeaderReadBack(opcode: Byte, l: nat, key: Bytes, s: Bytes)
    ensures Parse(HeaderBytes(opcode, l, key) + s) == ParseLength(Header(opcode & 0x0f, key != [], ShortField(l)), s)
  {
    ShortLengthBits(l);
    HeaderBits(opcode, if key == [] then 0 else 0x80, ShortLength(l));
    ReadFullExact(HeaderBytes(opcode, l, key), s);
  }

  lemma LengthField(l: nat)
    requires l < 2 * TWO_63
    ensures ExtendedFor(ShortField(l)) == ExtendedSize(l)
    ensures ExtendedSize(l) > 0 ==> FromBigEndian(LengthBytes(l)) == l
  {
    PowersOf256();
    if l >= 126 { BigEndianRoundTrip(l, ExtendedSize(l)); }
  }

  /** The length bytes are read back as the payload's length, up to the 64 bits they carry. */
  lemma LengthReadBack(opcode: Byte, masked: bool, l: nat, s: Bytes)
    requires l < 2 * TWO_63
    ensures ParseLength(Header(opcode, masked, ShortField(l)), LengthBytes(l) + s) ==
            if l > MAX_PAYLOAD then Failed(TooLarge) else ParseMask(opcode, masked, l, s)
  {
    LengthField(l);
    ReadFullExact(LengthBytes(l), s);
  }

  lemma BodyReadBack(opcode: Byte, payload: Bytes, key: Bytes, rest: Bytes)
    requires |key| == 4 || key == []
    ensures ParseMask(opcode, key != [], |payload|, key + Body(payload, key) + rest) == Frame(opcode, payload, rest)
  {
    assert key + Body(payload, key) + rest == key + (Body(payload, key) + rest);
    ReadFullExact(key, Body(payload, key) + rest);
    ReadFullExact(Body(payload, key), rest);
    if key != [] { MaskTwice(payload, key); }
  }

  /** A written frame is read back, with nothing else consumed, exactly when the payload is within the
      limit; a larger one is refused. All three length encodings are covered, masked or not. */
  lemma FrameRoundTrip(opcode: Byte, payload: Bytes, key: Bytes, rest: Bytes)
    requires |key| == 4 || key == []
    requires |payload| < 2 * TWO_63
    ensures Parse(Encode(opcode, payload, key) + rest) ==
            if |payload| > MAX_PAYLOAD then Failed(TooLarge) else Frame(opcode & 0x0f, payload, rest)
  {
    var l := |payload|;
    var tail := key + Body(payload, key) + rest;
    EncodeParts(opcode, payload, key);
    assert Encode(opcode, payload, key) + rest == HeaderBytes(opcode, l, key) + (LengthBytes(l) + tail);
    HeaderReadBack(opcode, l, key, LengthBytes(l) + tail);
    LengthReadBack(opcode & 0x0f, key != [], l, tail);
    if l <= MAX_PAYLOAD { BodyReadBack(opcode & 0x0f, payload, key, rest); }
  }

  // ----- The bytes of a frame, one by one -----

  /** Two and eight bytes as an unsigned number, the most significant first (section 5.2). */
  function Two(s: Bytes, at: nat): nat
    requires at + 2 <= |s|
  {
    256 * s[at] as int + s[at + 1] as int
  }

  function Eight(s: Bytes, at: nat): nat
    requires at + 8 <= |s|
  {
    0x1_0000 * (0x1_0000 * (0x1_0000 * Two(s, at) + Two(s, at + 2)) + Two(s, at + 4)) + Two(s, at + 6)
  }

  /** How many length bytes follow, and how many key bytes, by the second header byte. */
  function LengthSize(h1: Byte): (e: nat)
    ensures e == 0 || e == 2 || e == 8
  {
    if (h1 & 0x7f) as int == 126 then 2 else if (h1 & 0x7f) as int == 127 then 8 else 0
  }

  function KeySize(h1: Byte): nat {
    if h1 & 0x80 != 0 then 4 else 0
  }

  ghost predicate LengthIs(s: Bytes, l: nat)
    requires |s| >= 2
  {
    |s| >= 2 + LengthSize(s[1]) &&
    l == if LengthSize(s[1]) == 0 then (s[1] & 0x7f) as int
         else if LengthSize(s[1]) == 2 then Two(s, 2) else Eight(s, 2)
  }

  /** Key and body: each byte of the body is the payload's own, or combined with the key byte at its position
      modulo four (section 5.3). */
  ghost predicate BodyAt(t: Bytes, k: nat, payload: Bytes, rest: Bytes) {
    && (k == 0 || k == 4) && |t| == k + |payload| + |rest| && t[k + |payload|..] == rest
    && forall i :: 0 <= i < |payload| ==> t[k + i] == if k == 0 then payload[i] else payload[i] ^ t[i % 4]
  }

  /** A frame starts at the front of `s`: opcode in the low half of the first byte, then length, key and body. */
  ghost predicate FrameAt(s: Bytes, opcode: Byte, payload: Bytes, rest: Bytes) {
    && |s| >= 2 && opcode == s[0] & 0x0f && LengthIs(s, |payload|)
    && BodyAt(s[2 + LengthSize(s[1])..], KeySize(s[1]), payload, rest)
  }

  lemma TwoIs(s: Bytes)
    requires |s| == 2
    ensures FromBigEndian(s) == Two(s, 0)
  {
    assert s[..1][..0] == [];
    assert FromBigEndian(s[..1]) == s[0] as int;
  }

  lemma {:induction false} PairStep(s: Bytes)
    requires |s| >= 2
    ensures FromBigEndian(s) == 0x1_0000 * FromBigEndian(s[..|s| - 2]) + Two(s, |s| - 2)
  {
    var n := |s|;
    assert s[..n - 1][..n - 2] == s[..n - 2];
    assert FromBigEndian(s[..n - 1]) == 256 * FromBigEndian(s[..n - 2]) + s[n - 2] as int;
  }

  lemma SixIs(s: Bytes)
    requires |s| == 6
    ensures FromBigEndian(s) == 0x1_0000 * (0x1_0000 * Two(s, 0) + Two(s, 2)) + Two(s, 4)
  {
    var four := s[..4];
    assert four[..2] == s[..2];
    PairStep(s);
    PairStep(four);
    TwoIs(s[..2]);
  }

  lemma EightIs(s: Bytes)
    requires |s| == 8
    ensures FromBigEndian(s) == Eight(s, 0)
  {
    PairStep(s);
    SixIs(s[..6]);
  }

  lemma MaskFlip(a: Byte, k: Byte, p: Byte)
    ensures a ^ k == p <==> a == p ^ k
  {
  }

  lemma MaskedAt(payload: Bytes, key: Bytes, i: nat)
    requires |key| == 4 && i < |payload|
    ensures |Masked(payload, key)| == |payload| && Masked(payload, key)[i] == payload[i] ^ key[i % 4]
  {
  }

  lemma UnmaskedAt(body: Bytes, key: Bytes, payload: Bytes, i: nat)
    requires |key| == 4 && Masked(body, key) == payload && i < |payload|
    ensures body[i] == payload[i] ^ key[i % 4]
  {
    MaskedAt(body, key, i);
    MaskFlip(body[i], key[i % 4], payload[i]);
  }

  lemma UnmaskedFrom(body: Bytes, key: Bytes, payload: Bytes)
    requires |key| == 4 && |body| == |payload|
    requires forall i :: 0 <= i < |payload| ==> body[i] == payload[i] ^ key[i % 4]
    ensures Masked(body, key) == payload
  {
    var m := Masked(body, key);
    forall i | 0 <= i < |payload| ensures m[i] == payload[i] {
      MaskedAt(body, key, i);
      MaskFlip(body[i], key[i % 4], payload[i]);
    }
  }

  lemma PlainBody(t: Bytes, payload: Bytes, rest: Bytes)
    ensures BodyAt(t, 0, payload, rest) <==> t == payload + rest
  {
    if BodyAt(t, 0, payload, rest) {
      assert t == t[..|payload|] + t[|payload|..];
      assert t[..|payload|] == payload;
    }
    if t == payload + rest { assert t[|payload|..] == rest; }
  }

  lemma KeyedBody(key: Bytes, body: Bytes, payload: Bytes, rest: Bytes)
    requires |key| == 4 && |body| == |payload|
    ensures BodyAt(key + body + rest, 4, payload, rest) <==> Masked(body, key) == payload
  {
    var t := key + body + rest;
    assert t[4 + |payload|..] == rest;
    if Masked(body, key) == payload {
      forall i | 0 <= i < |payload| ensures t[4 + i] == payload[i] ^ t[i % 4] {
        UnmaskedAt(body, key, payload, i);
        assert t[4 + i] == body[i] && t[i % 4] == key[i % 4];
      }
    }
    if BodyAt(t, 4, payload, rest) {
      forall i | 0 <= i < |payload| ensures body[i] == payload[i] ^ key[i % 4] {
        assert t[4 + i] == body[i] && t[i % 4] == key[i % 4];
      }
      UnmaskedFrom(body, key, payload);
    }
  }

  /** Key and body are read as the payload they carry, and nothing else is. */
  lemma MaskExact(opcode: Byte, masked: bool, l: nat, t: Bytes, payload: Bytes, rest: Bytes)
    ensures ParseMask(opcode, masked, l, t) == Frame(opcode, payload, rest) <==>
            |payload| == l && BodyAt(t, if masked then 4 else 0, payload, rest)
  {
    var k := if masked then 4 else 0;
    if |t| >= k + l {
      var key, body, tail := t[..k], t[k..][..l], t[k..][l..];
      assert t == key + body + tail;
      if masked {
        if |payload| == l && rest == tail { KeyedBody(key, body, payload, rest); }
        if BodyAt(t, k, payload, rest) && |payload| == l { assert rest == tail; }
      } else {
        PlainBody(t, payload, rest);
        if |payload| == l && t == payload + rest { assert body == payload && tail == rest; }
      }
    }
  }

  lemma TwoShift(s: Bytes, at: nat, n: nat, i: nat)
    requires at + n <= |s| && i + 2 <= n
    ensures Two(s[at..at + n], i) == Two(s, at + i)
  {
  }

  lemma TwoAt(s: Bytes)
    requires |s| >= 4
    ensures FromBigEndian(s[2..4]) == Two(s, 2)
  {
    TwoIs(s[2..4]);
    TwoShift(s, 2, 2, 0);
  }

  lemma EightAt(s: Bytes)
    requires |s| >= 10
    ensures FromBigEndian(s[2..10]) == Eight(s, 2)
  {
    EightIs(s[2..10]);
    TwoShift(s, 2, 8, 0);
    TwoShift(s, 2, 8, 2);
    TwoShift(s, 2, 8, 4);
    TwoShift(s, 2, 8, 6);
  }

  /** The length the reader computes is the number the frame names. */
  lemma LengthExact(s: Bytes, l: nat)
    requires |s| >= 2 && |s| >= 2 + LengthSize(s[1])
    ensures var e, short := LengthSize(s[1]), (s[1] & 0x7f) as int;
      ExtendedFor(short) == e && (LengthIs(s, l) <==> l == if e == 0 then short else FromBigEndian(s[2..2 + e]))
  {
    var e := LengthSize(s[1]);
    if e == 2 { TwoAt(s); } else if e == 8 { EightAt(s); }
  }

  /** Reading the length leads to key and body, for a length within the limit. */
  lemma LengthLeads(s: Bytes, l: nat)
    requires |s| >= 2 && LengthIs(s, l) && l <= MAX_PAYLOAD
    ensures Parse(s) == ParseMask(s[0] & 0x0f, s[1] & 0x80 != 0, l, s[2 + LengthSize(s[1])..])
  {
    LengthExact(s, l);
    var e := LengthSize(s[1]);
    assert s[2..][..e] == s[2..2 + e] && s[2..][e..] == s[2 + e..];
  }

  lemma EightBound(s: Bytes, at: nat)
    requires at + 8 <= |s|
    ensures Eight(s, at) < 2 * TWO_63
  {
    assert Two(s, at) <= 0xffff && Two(s, at + 2) <= 0xffff && Two(s, at + 4) <= 0xffff && Two(s, at + 6) <= 0xffff;
  }

  /** The length the reader goes by, once it has the length bytes. */
  lemma ReadLengthBytes(s: Bytes)
    requires |s| >= 2 && |s| >= 2 + LengthSize(s[1])
    ensures var e, h := LengthSize(s[1]), HeaderOf(s[0], s[1]);
      var length := if e == 0 then h.short else Int64(FromBigEndian(s[2..2 + e]));
      Parse(s) == if length < 0 || length > MAX_PAYLOAD then Failed(TooLarge)
                  else ParseMask(h.opcode, h.masked, length, s[2 + e..])
  {
    var e := LengthSize(s[1]);
    assert s[2..][..e] == s[2..2 + e] && s[2..][e..] == s[2 + e..];
  }

  lemma MaskLength(opcode: Byte, masked: bool, l: nat, t: Bytes)
    ensures ParseMask(opcode, masked, l, t).Frame? ==> |ParseMask(opcode, masked, l, t).payload| == l
  {
  }

  lemma MaskOpcode(opcode: Byte, masked: bool, l: nat, t: Bytes)
    ensures ParseMask(opcode, masked, l, t).Frame? ==> ParseMask(opcode, masked, l, t).opcode == opcode
  {
  }

  /** A frame that was read named its length. */
  lemma ReadLengthIs(s: Bytes)
    requires Parse(s).Frame?
    ensures |s| >= 2 && LengthIs(s, |Parse(s).payload|) && |Parse(s).payload| <= MAX_PAYLOAD
  {
    var e, h := LengthSize(s[1]), HeaderOf(s[0], s[1]);
    assert ExtendedFor(h.short) == e;
    ReadLengthBytes(s);
    var length := if e == 0 then h.short else Int64(FromBigEndian(s[2..2 + e]));
    MaskLength(h.opcode, h.masked, length, s[2 + e..]);
    LengthExact(s, length);
    if e == 8 {
      EightAt(s);
      EightBound(s, 2);
    } else if e == 2 {
      TwoAt(s);
    }
  }

  lemma ReadIsFrame(s: Bytes, opcode: Byte, payload: Bytes, rest: Bytes)
    requires Parse(s) == Frame(opcode, payload, rest)
    ensures FrameAt(s, opcode, payload, rest) && |payload| <= MAX_PAYLOAD
  {
    ReadLengthIs(s);
    LengthLeads(s, |payload|);
    var h0, t := s[0] & 0x0f, s[2 + LengthSize(s[1])..];
    MaskOpcode(h0, s[1] & 0x80 != 0, |payload|, t);
    MaskExact(opcode, s[1] & 0x80 != 0, |payload|, t, payload, rest);
  }

  lemma FrameIsRead(s: Bytes, opcode: Byte, payload: Bytes, rest: Bytes)
    requires FrameAt(s, opcode, payload, rest) && |payload| <= MAX_PAYLOAD
    ensures Parse(s) == Frame(opcode, payload, rest)
  {
    LengthLeads(s, |payload|);
    MaskExact(opcode, s[1] & 0x80 != 0, |payload|, s[2 + LengthSize(s[1])..], payload, rest);
  }

  /** The reader takes a frame exactly when one stands at the front of its input, within the limit. */
  lemma ParseExact(s: Bytes, opcode: Byte, payload: Bytes, rest: Bytes)
    ensures Parse(s) == Frame(opcode, payload, rest) <==> FrameAt(s, opcode, payload, rest) && |payload| <= MAX_PAYLOAD
  {
    if Parse(s) == Frame(opcode, payload, rest) {
      ReadIsFrame(s, opcode, payload, rest);
    } else if FrameAt(s, opcode, payload, rest) && |payload| <= MAX_PAYLOAD {
      FrameIsRead(s, opcode, payload, rest);
    }
  }

  /** Final bit and opcode, mask bit, and the length in its shortest form. */
  ghost predicate ClientHead(s: Bytes, opcode: Byte, l: nat) {
    && |s| >= 2 && s[0] == 0x80 | opcode && s[1] & 0x80 != 0
    && LengthSize(s[1]) == (if l < 126 then 0 else if l <= 0xffff then 2 else 8) && LengthIs(s, l)
  }

  /** The bytes of a client's frame: header and length, key, masked body. */
  ghost predicate ClientFrame(s: Bytes, opcode: Byte, payload: Bytes, key: Bytes) {
    && ClientHead(s, opcode, |payload|) && |key| == 4
    && var at := 2 + LengthSize(s[1]);
       && |s| == at + 4 + |payload| && s[at..at + 4] == key
       && forall i :: 0 <= i < |payload| ==> s[at + 4 + i] == payload[i] ^ key[i % 4]
  }

  lemma ClientHeader(opcode: Byte, l: nat, key: Bytes)
    requires |key| == 4
    ensures var h := HeaderBytes(opcode, l, key);
      |h| == 2 && h[0] == 0x80 | opcode && h[1] & 0x80 != 0 && (h[1] & 0x7f) as int == ShortField(l)
  {
    ShortLengthBits(l);
    HeaderBits(opcode, 0x80, ShortLength(l));
  }

  /** The length bytes written name the length. */
  lemma ClientLength(h: Bytes, l: nat, tail: Bytes)
    requires |h| == 2 && (h[1] & 0x7f) as int == ShortField(l) && l < TWO_63
    ensures LengthSize(h[1]) == ExtendedSize(l) && LengthIs(h + LengthBytes(l) + tail, l)
  {
    var s := h + LengthBytes(l) + tail;
    LengthField(l);
    assert s[1] == h[1] && s[2..2 + ExtendedSize(l)] == LengthBytes(l);
    LengthExact(s, l);
  }

  lemma ClientHeadOf(h: Bytes, opcode: Byte, l: nat, tail: Bytes)
    requires |h| == 2 && h[0] == 0x80 | opcode && h[1] & 0x80 != 0
    requires (h[1] & 0x7f) as int == ShortField(l) && l < TWO_63
    ensures ClientHead(h + LengthBytes(l) + tail, opcode, l) && LengthSize(h[1]) == ExtendedSize(l)
  {
    ClientLength(h, l, tail);
    var s := h + LengthBytes(l) + tail;
    assert s[0] == h[0] && s[1] == h[1];
  }

  lemma ClientBody(s: Bytes, at: nat, payload: Bytes, key: Bytes)
    requires |key| == 4 && |s| == at + 4 + |payload| && s[at + 4..] == Masked(payload, key)
    ensures forall i :: 0 <= i < |payload| ==> s[at + 4 + i] == payload[i] ^ key[i % 4]
  {
    forall i | 0 <= i < |payload| ensures s[at + 4 + i] == payload[i] ^ key[i % 4] {
      MaskedAt(payload, key, i);
      assert s[at + 4..][i] == s[at + 4 + i];
    }
  }

  lemma PartsAt(h: Bytes, ext: Bytes, key: Bytes, body: Bytes)
    requires |h| == 2 && |key| == 4
    ensures var s, at := h + (ext + (key + body)), 2 + |ext|;
      && |s| == at + 4 + |body| && s[0] == h[0] && s[1] == h[1] && s[at..at + 4] == key && s[at + 4..] == body
      && s == h + ext + (key + body)
  {
  }

  lemma PartsWire(h: Bytes, ext: Bytes, opcode: Byte, payload: Bytes, key: Bytes)
    requires |key| == 4 && |payload| < TWO_63 && ext == LengthBytes(|payload|) && |h| == 2
    requires h[0] == 0x80 | opcode && h[1] & 0x80 != 0 && (h[1] & 0x7f) as int == ShortField(|payload|)
    ensures ClientFrame(h + (ext + (key + Masked(payload, key))), opcode, payload, key)
  {
    var body := Masked(payload, key);
    var s := h + (ext + (key + body));
    PartsAt(h, ext, key, body);
    ClientHeadOf(h, opcode, |payload|, key + body);
    ClientBody(s, 2 + |ext|, payload, key);
  }

  lemma EncodedWire(opcode: Byte, payload: Bytes, key: Bytes)
    requires |key| == 4 && |payload| < TWO_63
    ensures ClientFrame(Encode(opcode, payload, key), opcode, payload, key)
  {
    var l := |payload|;
    EncodeParts(opcode, payload, key);
    ClientHeader(opcode, l, key);
    PartsWire(HeaderBytes(opcode, l, key), LengthBytes(l), opcode, payload, key);
  }

  // ----- Streams of frames -----

  datatype Message = Message(opcode: Byte, payload: Bytes, key: Bytes)

  /** 4-bit opcodes, payloads within the limit. */
  ghost predicate Writable(m: Message) {
    m.opcode < 0x10 && |m.payload| <= MAX_PAYLOAD && (|m.key| == 4 || m.key == [])
  }

  ghost predicate AllWritable(ms: seq<Message>) {
    forall i :: 0 <= i < |ms| ==> Writable(ms[i])
  }

  ghost function Wire(m: Message): Bytes
    requires Writable(m)
  {
    Encode(m.opcode, m.payload, m.key)
  }

  ghost function Stream(ms: seq<Message>): Bytes
    requires AllWritable(ms)
  {
    if ms == [] then [] else assert Writable(ms[0]); Wire(ms[0]) + Stream(ms[1..])
  }

  lemma ParseShrinks(s: Bytes)
    ensures Parse(s).Frame? ==> |Parse(s).rest| < |s|
  {
  }

  /** Reading frames until the input is exhausted or malformed. */
  function ReadAll(s: Bytes): (seq<(Byte, Bytes)>, Error)
    decreases |s|
  {
    match Parse(s)
    case Failed(e) => ([], e)
    case Frame(op, payload, rest) =>
      ParseShrinks(s);
      var (fs, e) := ReadAll(rest);
      ([(op, payload)] + fs, e)
  }

  ghost function Contents(ms: seq<Message>): seq<(Byte, Bytes)> {
    seq(|ms|, i requires 0 <= i < |ms| => (ms[i].opcode, ms[i].payload))
  }

  lemma OpcodeBits(opcode: Byte)
    requires opcode < 0x10
    ensures opcode & 0x0f == opcode
  {
  }

  lemma ReadAllCons(m: Message, rest: Bytes)
    requires Writable(m)
    ensures ReadAll(Wire(m) + rest) == ([(m.opcode, m.payload)] + ReadAll(rest).0, ReadAll(rest).1)
  {
    FrameRoundTrip(m.opcode, m.payload, m.key, rest);
    OpcodeBits(m.opcode);
  }

  lemma StreamCons(ms: seq<Message>)
    requires AllWritable(ms) && ms != []
    ensures Writable(ms[0]) && AllWritable(ms[1..]) && Stream(ms) == Wire(ms[0]) + Stream(ms[1..])
    ensures Contents(ms) == [(ms[0].opcode, ms[0].payload)] + Contents(ms[1..])
  {
    var rest := ms[1..];
    assert forall i :: 0 <= i < |rest| ==> rest[i] == ms[i + 1] && Writable(ms[i + 1]);
    var whole, parts := Contents(ms), [(ms[0].opcode, ms[0].payload)] + Contents(rest);
    assert forall i :: 0 <= i < |ms| ==> whole[i] == parts[i];
  }

  /** Any sequence of frames, written with any keys, is read back in order and leaves nothing over. */
  lemma {:induction false} StreamRoundTrip(ms: seq<Message>)
    requires AllWritable(ms)
    ensures ReadAll(Stream(ms)) == (Contents(ms), Eof)
    decreases |ms|
  {
    if ms == [] {
      assert Contents(ms) == [];
    } else {
      StreamCons(ms);
      StreamRoundTrip(ms[1..]);
      ReadAllCons(ms[0], Stream(ms[1..]));
    }
  }

  // ----- Truncated input -----

  /** The read boundaries inside a frame: before it, after the header, after the length, after the key. */
  predicate AtBoundary(payload: Bytes, key: Bytes, n: nat) {
    var e := ExtendedSize(|payload|);
    n == 0 || n == 2 || n == 2 + e || n == 2 + e + |key|
  }

  lemma ReadFullShort(a: Bytes, m: nat)
    requires m < |a|
    ensures ReadFull(a[..m], |a|) == Short(if m == 0 then Eof else UnexpectedEof)
  {
  }

  lemma TruncatedBody(opcode: Byte, payload: Bytes, key: Bytes, m: nat)
    requires |key| == 4 || key == []
    requires m < |key| + |payload|
    ensures ParseMask(opcode, key != [], |payload|, (key + Body(payload, key))[..m]) ==
            Failed(if m == 0 || m == |key| then Eof else UnexpectedEof)
  {
    var body := Body(payload, key);
    if m < |key| {
      assert (key + body)[..m] == key[..m];
      ReadFullShort(key, m);
    } else {
      assert (key + body)[..m] == key + body[..m - |key|];
      ReadFullExact(key, body[..m - |key|]);
      ReadFullShort(body, m - |key|);
    }
  }

  lemma TruncatedLength(opcode: Byte, payload: Bytes, key: Bytes, m: nat)
    requires |key| == 4 || key == []
    requires |payload| <= MAX_PAYLOAD && m < ExtendedSize(|payload|) + |key| + |payload|
    ensures ParseLength(Header(opcode, key != [], ShortField(|payload|)),
      (LengthBytes(|payload|) + (key + Body(payload, key)))[..m]) ==
            Failed(if AtBoundary(payload, key, m + 2) then Eof else UnexpectedEof)
  {
    var l, e := |payload|, ExtendedSize(|payload|);
    var ext, tail := LengthBytes(l), key + Body(payload, key);
    LengthField(l);
    if m < e {
      assert (ext + tail)[..m] == ext[..m];
      ReadFullShort(ext, m);
    } else {
      assert (ext + tail)[..m] == ext + tail[..m - e];
      LengthReadBack(opcode, key != [], l, tail[..m - e]);
      TruncatedBody(opcode, payload, key, m - e);
    }
  }

  /** A frame cut short is never taken for a frame. The cut reads as a clean end of input exactly when it
      falls on a read boundary, even in the middle of the frame, and as an error everywhere else. */
  lemma TruncatedFrame(opcode: Byte, payload: Bytes, key: Bytes, n: nat)
    requires |key| == 4 || key == []
    requires |payload| <= MAX_PAYLOAD && n < |Encode(opcode, payload, key)|
    ensures Parse(Encode(opcode, payload, key)[..n])
      == Failed(if AtBoundary(payload, key, n) then Eof else UnexpectedEof)
  {
    var l := |payload|;
    var head, tail := HeaderBytes(opcode, l, key), LengthBytes(l) + (key + Body(payload, key));
    EncodeParts(opcode, payload, key);
    if n < 2 {
      assert (head + tail)[..n] == head[..n];
    } else {
      assert (head + tail)[..n] == head + tail[..n - 2];
      HeaderReadBack(opcode, l, key, tail[..n - 2]);
      TruncatedLength(opcode & 0x0f, payload, key, n - 2);
    }
  }

  lemma ReadsFrames(s: Bytes)
    ensures Parse(s).Frame? ==>
      FrameAt(s, Parse(s).opcode, Parse(s).payload, Parse(s).rest) && |Parse(s).payload| <= MAX_PAYLOAD
    ensures forall op, payload, rest :: FrameAt(s, op, payload, rest) && |payload| <= MAX_PAYLOAD ==>
      Parse(s) == Frame(op, payload, rest)
  {
    if Parse(s).Frame? { ParseExact(s, Parse(s).opcode, Parse(s).payload, Parse(s).rest); }
    forall op, payload, rest | FrameAt(s, op, payload, rest) && |payload| <= MAX_PAYLOAD
      ensures Parse(s) == Frame(op, payload, rest)
    {
      ParseExact(s, op, payload, rest);
    }
  }

  // ----- The code -----

  lemma TwoBytes(l: nat)
    ensures BigEndian(l, 2) == [ByteOf(l / 256), ByteOf(l)]
  {
    assert BigEndian(l / 256, 1) == [] + [ByteOf(l / 256)];
  }

  /** Any masking key: only its presence shows in the header. */
  const MASKED: Bytes := [0, 0, 0, 0]

  lemma JoinParts(a: Bytes, b: Bytes, c: Bytes, d: Bytes)
    ensures ((a + b) + c) + d == a + (b + (c + d))
  {
  }

  /** The header and length bytes of a masked frame, in the three length encodings. */
  method FrameHeader(opcode: Byte, l: nat) returns (h: Bytes)
    requires l < TWO_63
    ensures h == HeaderBytes(opcode, l, MASKED) + LengthBytes(l)
  {
    h := [0x80 | opcode];
    TwoBytes(l);
    if l < 126 {
      h := h + [0x80 | ByteOf(l)];
    } else if l <= 0xffff {
      h := h + [0x80 | 126, ByteOf(l / 256), ByteOf(l)];
    } else {
      h := h + [0x80 | 127];
      h := h + BigEndian(l, 8);
    }
  }

  /** The masked copy of a payload, filled in byte by byte. */
  method Mask(payload: Bytes, key: Bytes) returns (masked: array<Byte>)
    requires |key| == 4
    ensures fresh(masked) && masked[..] == Masked(payload, key)
  {
    masked := new Byte[|payload|];
    var i := 0;
    while i < |payload|
      invariant 0 <= i <= |payload|
      invariant forall j :: 0 <= j < i ==> masked[j] == payload[j] ^ key[j % 4]
    {
      masked[i] := payload[i] ^ key[i % 4];
      i := i + 1;
    }
  }

  lemma WireAppended(before: Bytes, after: Bytes, opcode: Byte, payload: Bytes, key: Bytes)
    requires |key| == 4 && |payload| < TWO_63 && after == before + Encode(opcode, payload, key)
    ensures before <= after && ClientFrame(after[|before|..], opcode, payload, key)
  {
    EncodedWire(opcode, payload, key);
    assert after[|before|..] == Encode(opcode, payload, key);
  }

  /** The connection being written to. */
  class Writer {
    var out: Bytes

    constructor ()
      ensures out == []
    {
      out := [];
    }

    method WriteFrame(opcode: Byte, payload: Bytes, key: Bytes)
      requires |key| == 4 && |payload| < TWO_63
      modifies this
      ensures out == old(out) + Encode(opcode, payload, key)
      ensures old(out) <= out && ClientFrame(out[|old(out)|..], opcode, payload, key)
    {
      var h := FrameHeader(opcode, |payload|);
      assert HeaderBytes(opcode, |payload|, key) == HeaderBytes(opcode, |payload|, MASKED);
      h := h + key;
      var masked := Mask(payload, key);
      var body := masked[..];
      EncodeParts(opcode, payload, key);
      assert h + body == Encode(opcode, payload, key) by {
        JoinParts(HeaderBytes(opcode, |payload|, key), LengthBytes(|payload|), key, body);
      }
      out := out + h;
      out := out + body;
      assert out == old(out) + (h + body);
      WireAppended(old(out), out, opcode, payload, key);
    }
  }

  /** Unmasks in place. */
  method Unmask(payload: array<Byte>, mask: Bytes)
    requires |mask| == 4
    modifies payload
    ensures payload[..] == Masked(old(payload[..]), mask)
  {
    var i := 0;
    while i < payload.Length
      invariant 0 <= i <= payload.Length
      invariant forall j :: 0 <= j < i ==> payload[j] == old(payload[j]) ^ mask[j % 4]
      invariant forall j :: i <= j < payload.Length ==> payload[j] == old(payload[j])
    {
      payload[i] := payload[i] ^ mask[i % 4];
      i := i + 1;
    }
  }

  /** The connection being read from. */
  class Reader {
    var input: Bytes

    constructor (s: Bytes)
      ensures input == s
    {
      input := s;
    }

    /** Takes exactly `n` bytes; a short input is used up. */
    method Take(n: nat) returns (r: FullRead)
      modifies this
      ensures r == ReadFull(old(input), n)
      ensures input == if r.Got? then r.rest else []
    {
      r := ReadFull(input, n);
      input := if r.Got? then r.rest else [];
    }

    method ReadBody(opcode: Byte, masked: bool, length: nat) returns (r: ReadResult)
      modifies this
      ensures r == ParseMask(opcode, masked, length, old(input))
      ensures r.Frame? ==> input == r.rest
    {
      var mask: Bytes := [];
      if masked {
        var m := Take(4);
        if m.Short? { return Failed(m.error); }
        mask := m.bytes;
      } else {
        assert ReadFull(input, 0) == Got([], input);
      }
      var body := Take(length);
      if body.Short? { return Failed(body.error); }
      var payload := new Byte[length](i requires 0 <= i < length => body.bytes[i]);
      assert payload[..] == body.bytes;
      if masked { Unmask(payload, mask); }
      r := Frame(opcode, payload[..], input);
    }

    method ReadLength(h: Header) returns (r: ReadResult)
      modifies this
      ensures r == ParseLength(h, old(input))
      ensures r.Frame? ==> input == r.rest
    {
      var length: int := h.short;
      if h.short == 126 || h.short == 127 {
        var ext := Take(if h.short == 126 then 2 else 8);
        if ext.Short? { return Failed(ext.error); }
        length := Int64(FromBigEndian(ext.bytes));
      } else {
        assert ReadFull(input, 0) == Got([], input);
      }
      if length < 0 || length > MAX_PAYLOAD { return Failed(TooLarge); }
      r := ReadBody(h.opcode, h.masked, length);
    }

    /** Takes the frame at the front of the input, whatever its key and length encoding. */
    method ReadFrame() returns (r: ReadResult)
      modifies this
      ensures r == Parse(old(input))
      ensures r.Frame? ==> input == r.rest
      ensures r.Frame? ==> FrameAt(old(input), r.opcode, r.payload, r.rest) && |r.payload| <= MAX_PAYLOAD
      ensures forall op, payload, rest :: FrameAt(old(input), op, payload, rest) && |payload| <= MAX_PAYLOAD ==>
        r == Frame(op, payload, rest)
    {
      ReadsFrames(input);
      var h := Take(2);
      if h.Short? { return Failed(h.error); }
      r := ReadLength(HeaderOf(h.bytes[0], h.bytes[1]));
    }
  }
}
