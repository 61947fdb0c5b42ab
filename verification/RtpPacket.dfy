/** The RTP packet codec: section 5.1 and section 5.3.1 of RFC 3550. */
module RtpPacket {
  import opened Bytes

  const MINIMUM_HEADER_SIZE := 12
  const MINIMUM_EXTENSION_SIZE := 4

  datatype Extension = Extension(id: word16, data: seq<word32>)

  datatype Header = Header(
    padding: bool,
    version: byte,
    payloadType: byte,
    marker: bool,
    sequenceNum: word16,
    timestamp: word32,
    ssrc: word32,
    csrcs: seq<word32>,
    extension: Option<Extension>)

  datatype Packet = Packet(header: Header, payload: seq<byte>)

  /** The headers whose fields fit the widths that the wire format gives them. */
  predicate FitsWire(h: Header) {
    && h.version < 4
    && h.payloadType < 128
    && |h.csrcs| <= 15
    && (h.extension.Some? ==> |h.extension.value.data| <= 0xFFFF)
  }

  // ---------------------------------------------------------------- the wire format

  function Bit(b: bool): nat {
    if b then 1 else 0
  }

  /** Bit-fields, least significant first; wider values are truncated by the assignment. */
  function FirstOctet(h: Header): byte {
    |h.csrcs| % 16 + 16 * Bit(h.extension.Some?) + 32 * Bit(h.padding) + 64 * (h.version % 4)
  }

  function SecondOctet(h: Header): byte {
    h.payloadType % 128 + 128 * Bit(h.marker)
  }

  function WordsToBytes(ws: seq<word32>): (s: seq<byte>)
    ensures |s| == 4 * |ws|
  {
    if ws == [] then [] else WordsToBytes(ws[..|ws| - 1]) + Be32(ws[|ws| - 1])
  }

  /** The `n` words that start at byte `i`. */
  function WordsAt(s: seq<byte>, i: nat, n: nat): (ws: seq<word32>)
    requires i + 4 * n <= |s|
    ensures |ws| == n
  {
    if n == 0 then [] else WordsAt(s, i, n - 1) + [Word32At(s, i + 4 * (n - 1))]
  }

  function Be16(v: word16): (s: seq<byte>)
    ensures |s| == 2
  {
    [v / 0x100, v % 0x100]
  }

  function Be32(v: word32): (s: seq<byte>)
    ensures |s| == 4
  {
    Be16(v / 0x1_0000) + Be16(v % 0x1_0000)
  }

  function Word16At(s: seq<byte>, i: nat): word16
    requires i + 2 <= |s|
  {
    var hi: int, lo: int := s[i], s[i + 1];
    0x100 * hi + lo
  }

  function Word32At(s: seq<byte>, i: nat): word32
    requires i + 4 <= |s|
  {
    var hi: int, lo: int := Word16At(s, i), Word16At(s, i + 2);
    0x1_0000 * hi + lo
  }

  /** Both are the numbers that the bytes stand for, most significant first. */
  lemma Word16IsBig(s: seq<byte>, i: nat)
    requires i + 2 <= |s|
    ensures Word16At(s, i) == FromBe(s[i..i + 2])
  {
    var t := s[i..i + 2];
    assert t[..1] == [s[i]] && FromBe([s[i]]) == s[i];
  }

  lemma Word32IsBig(s: seq<byte>, i: nat)
    requires i + 4 <= |s|
    ensures Word32At(s, i) == FromBe(s[i..i + 4])
  {
    Word16IsBig(s, i);
    Word16IsBig(s, i + 2);
    hide Word16At, FromBe;
    assert s[i..i + 4] == s[i..i + 2] + s[i + 2..i + 2 + 2];
    FromBeAppend(s[i..i + 2], s[i + 2..i + 4]);
    Pow256Values();
  }

  lemma Be16At(s: seq<byte>, i: nat, v: word16)
    requires i + 2 <= |s|
    ensures s[i..i + 2] == Be16(v) <==> Word16At(s, i) == v
  {
    var t := s[i..i + 2];
    assert t[0] == s[i] && t[1] == s[i + 1];
  }

  lemma Be32At(s: seq<byte>, i: nat, v: word32)
    requires i + 4 <= |s|
    ensures s[i..i + 4] == Be32(v) <==> Word32At(s, i) == v
  {
    hide Be16, Word16At;
    var hi, lo := v / 0x1_0000, v % 0x1_0000;
    Be16At(s, i, hi);
    Be16At(s, i + 2, lo);
    var t, u := s[i..i + 4], Be32(v);
    assert t[..2] == s[i..i + 2] && t[2..] == s[i + 2..i + 2 + 2] && t == t[..2] + t[2..];
    assert u[..2] == Be16(hi) && u[2..] == Be16(lo) && u == u[..2] + u[2..];
  }

  function FixedHeader(h: Header): (s: seq<byte>)
    ensures |s| == MINIMUM_HEADER_SIZE
  {
    [FirstOctet(h), SecondOctet(h)] + Be16(h.sequenceNum) + Be32(h.timestamp) + Be32(h.ssrc)
  }

  function ExtensionBytes(e: Option<Extension>): (s: seq<byte>)
    ensures |s| == ExtensionSize(e)
  {
    match e
    case None => []
    case Some(x) => Be16(x.id) + Be16(|x.data| % 0x1_0000) + WordsToBytes(x.data)
  }

  function ExtensionSize(e: Option<Extension>): nat {
    match e
    case None => 0
    case Some(x) => MINIMUM_EXTENSION_SIZE + 4 * |x.data|
  }

  function HeaderSize(h: Header): nat {
    MINIMUM_HEADER_SIZE + 4 * |h.csrcs| + ExtensionSize(h.extension)
  }

  function HeaderBytes(h: Header): (s: seq<byte>)
    ensures |s| == HeaderSize(h)
  {
    FixedHeader(h) + WordsToBytes(h.csrcs) + ExtensionBytes(h.extension)
  }

  function Encode(p: Packet): (s: seq<byte>)
    ensures |s| == HeaderSize(p.header) + |p.payload|
  {
    HeaderBytes(p.header) + p.payload
  }

  lemma PayloadOf(p: Packet)
    ensures Encode(p)[HeaderSize(p.header)..] == p.payload
  {
    hide HeaderBytes;
  }

  /** What a receiver reads out of a datagram, or None when it is too short for what it announces. */
  function Decode(s: seq<byte>): Option<Packet> {
    if |s| < MINIMUM_HEADER_SIZE then None
    else
      var cc := s[0] % 16;
      var base := MINIMUM_HEADER_SIZE + 4 * cc;
      if |s| < base then None
      else if (s[0] / 16) % 2 == 0 then Some(Packet(DecodeHeader(s, None), s[base..]))
      else if |s| < base + MINIMUM_EXTENSION_SIZE then None
      else
        var words := Word16At(s, base + 2);
        var end := base + MINIMUM_EXTENSION_SIZE + 4 * words;
        if |s| < end then None
        else
          var x := Extension(Word16At(s, base), WordsAt(s, base + 4, words));
          Some(Packet(DecodeHeader(s, Some(x)), s[end..]))
  }

  function DecodeHeader(s: seq<byte>, x: Option<Extension>): (h: Header)
    requires |s| >= MINIMUM_HEADER_SIZE && |s| >= MINIMUM_HEADER_SIZE + 4 * (s[0] % 16)
  {
    Header(
      (s[0] / 32) % 2 == 1, s[0] / 64, s[1] % 128, s[1] / 128 == 1,
      Word16At(s, 2), Word32At(s, 4), Word32At(s, 8),
      WordsAt(s, 12, s[0] % 16), x)
  }

  // ---------------------------------------------------------------- round trips

  lemma {:induction false} WordsFields(ws: seq<word32>, s: seq<byte>, i: nat)
    requires i + 4 * |ws| <= |s|
    ensures s[i..i + 4 * |ws|] == WordsToBytes(ws) <==> WordsAt(s, i, |ws|) == ws
  {
    hide Be32, Word32At;
    if ws != [] {
      var pre, last, j := ws[..|ws| - 1], ws[|ws| - 1], i + 4 * (|ws| - 1);
      WordsFields(pre, s, i);
      Be32At(s, j, last);
      LastFour(s, i, j, WordsToBytes(pre), Be32(last));
      assert ws == pre + [last];
    }
  }

  lemma LastFour(s: seq<byte>, i: nat, j: nat, a: seq<byte>, b: seq<byte>)
    requires i <= j && j + 4 <= |s| && |a| == j - i && |b| == 4
    ensures s[i..j + 4] == a + b <==> s[i..j] == a && s[j..j + 4] == b
  {
    var t := s[i..j + 4];
    assert t[..j - i] == s[i..j] && t[j - i..] == s[j..j + 4];
    assert t == t[..j - i] + t[j - i..];
    assert (a + b)[..|a|] == a && (a + b)[|a|..] == b;
  }

  /** A decoded header always fits the wire. */
  lemma DecodedFitsWire(s: seq<byte>)
    ensures Decode(s).Some? ==> FitsWire(Decode(s).value.header)
  {
  }

  lemma FixedHeaderFields(h: Header, s: seq<byte>)
    requires |s| >= 12
    ensures s[..12] == FixedHeader(h) <==>
            && s[0] == FirstOctet(h) && s[1] == SecondOctet(h)
            && Word16At(s, 2) == h.sequenceNum && Word32At(s, 4) == h.timestamp && Word32At(s, 8) == h.ssrc
  {
    hide Be16, Be32, Word16At, Word32At, FirstOctet, SecondOctet;
    Be16At(s, 2, h.sequenceNum);
    Be32At(s, 4, h.timestamp);
    Be32At(s, 8, h.ssrc);
    assert s[..12] == [s[0], s[1]] + s[2..4] + s[4..8] + s[8..12];
    if s[..12] == FixedHeader(h) {
      var t := s[..12];
      assert t[0] == s[0] && t[1] == s[1];
      assert s[2..4] == t[2..4] && s[4..8] == t[4..8] && s[8..12] == t[8..12];
    }
  }

  lemma ExtensionFields(x: Extension, s: seq<byte>, i: nat)
    requires i + 4 + 4 * |x.data| <= |s| && |x.data| <= 0xFFFF
    ensures s[i..i + 4 + 4 * |x.data|] == ExtensionBytes(Some(x)) <==>
            && Word16At(s, i) == x.id && Word16At(s, i + 2) == |x.data|
            && WordsAt(s, i + 4, |x.data|) == x.data
  {
    ExtensionBytesOf(x);
    hide Be16, Word16At, WordsAt, WordsToBytes, ExtensionBytes;
    Be16At(s, i, x.id);
    Be16At(s, i + 2, |x.data|);
    WordsFields(x.data, s, i + 4);
    ThreeParts(s[i..i + 4 + 4 * |x.data|], Be16(x.id), Be16(|x.data|), WordsToBytes(x.data));
    SliceOfSlice(s, i, i + 4 + 4 * |x.data|, 0, 2);
    SliceOfSlice(s, i, i + 4 + 4 * |x.data|, 2, 4);
    SliceOfSlice(s, i, i + 4 + 4 * |x.data|, 4, 4 + 4 * |x.data|);
  }

  lemma ExtensionBytesOf(x: Extension)
    requires |x.data| <= 0xFFFF
    ensures ExtensionBytes(Some(x)) == Be16(x.id) + Be16(|x.data|) + WordsToBytes(x.data)
  {
    hide Be16, WordsToBytes;
    Unwrapped(|x.data|);
  }

  lemma Unwrapped(n: nat)
    requires n <= 0xFFFF
    ensures n % 0x1_0000 == n
  {
  }

  lemma SliceOfSlice(s: seq<byte>, i: nat, j: nat, a: nat, b: nat)
    requires i <= j <= |s| && a <= b <= j - i
    ensures s[i..j][a..b] == s[i + a..i + b]
  {
    forall k | 0 <= k < b - a
      ensures s[i..j][a..b][k] == s[i + a..i + b][k]
    {
      assert s[i..j][a + k] == s[i + (a + k)];
    }
  }

  lemma ThreeParts(t: seq<byte>, a: seq<byte>, b: seq<byte>, c: seq<byte>)
    requires |a| == 2 && |b| == 2 && |t| == 4 + |c|
    ensures t == a + b + c <==> t[..2] == a && t[2..4] == b && t[4..] == c
  {
    var u := a + b + c;
    assert u[..2] == a && u[2..4] == b && u[4..] == c;
    assert t == t[..2] + t[2..4] + t[4..];
  }

  lemma EncodeThenDecode(p: Packet)
    requires FitsWire(p.header)
    ensures Decode(Encode(p)) == Some(p)
  {
    hide Be16, Be32, Word16At, Word32At, FirstOctet, SecondOctet, WordsAt, WordsToBytes, FixedHeader, ExtensionBytes;
    var h, s := p.header, Encode(p);
    var base := 12 + 4 * |h.csrcs|;
    var end := base + ExtensionSize(h.extension);
    assert s[..12] == FixedHeader(h);
    FixedHeaderFields(h, s);
    assert s[12..base] == WordsToBytes(h.csrcs);
    WordsFields(h.csrcs, s, 12);
    assert s[base..end] == ExtensionBytes(h.extension);
    assert s[end..] == p.payload;
    OctetFields(h);
    if h.extension.Some? {
      ExtensionFields(h.extension.value, s, base);
    }
  }

  /** Where the fields of a packet are in its encoding, and in which byte order. */
  lemma OctetsOnTheWire(p: Packet)
    requires FitsWire(p.header)
    ensures var h, d := p.header, Encode(p);
            var base := 12 + 4 * |h.csrcs|;
            && |d| >= base
            && d[0] == 64 * h.version + (if h.padding then 32 else 0) + (if h.extension.Some? then 16 else 0) + |h.csrcs|
            && d[1] == (if h.marker then 128 else 0) + h.payloadType
            && FromBe(d[2..4]) == h.sequenceNum && FromBe(d[4..8]) == h.timestamp && FromBe(d[8..12]) == h.ssrc
            && (forall k :: 0 <= k < |h.csrcs| ==> FromBe(d[12 + 4 * k..12 + 4 * k + 4]) == h.csrcs[k])
            && match h.extension
               case None => d[base..] == p.payload
               case Some(x) =>
                 var end := base + 4 + 4 * |x.data|;
                 && |d| >= end && FromBe(d[base..base + 2]) == x.id && FromBe(d[base + 2..base + 4]) == |x.data|
                 && (forall k :: 0 <= k < |x.data| ==> FromBe(d[base + 4 + 4 * k..base + 4 + 4 * k + 4]) == x.data[k])
                 && d[end..] == p.payload
  {
    hide Be16, Be32, Word16At, Word32At, FirstOctet, SecondOctet, WordsAt, WordsToBytes, FixedHeader, ExtensionBytes, FromBe;
    var h, d := p.header, Encode(p);
    var base := 12 + 4 * |h.csrcs|;
    var end := base + ExtensionSize(h.extension);
    assert d[..12] == FixedHeader(h);
    FixedHeaderFields(h, d);
    OctetValues(h);
    Word16IsBig(d, 2);
    Word32IsBig(d, 4);
    Word32IsBig(d, 8);
    assert d[12..base] == WordsToBytes(h.csrcs);
    WordsOnTheWire(h.csrcs, d, 12);
    assert d[end..] == p.payload;
    if h.extension.Some? {
      var x := h.extension.value;
      assert d[base..end] == ExtensionBytes(h.extension);
      ExtensionFields(x, d, base);
      Word16IsBig(d, base);
      Word16IsBig(d, base + 2);
      WordsFields(x.data, d, base + 4);
      WordsOnTheWire(x.data, d, base + 4);
    }
  }

  lemma WordsOnTheWire(ws: seq<word32>, s: seq<byte>, i: nat)
    requires i + 4 * |ws| <= |s| && s[i..i + 4 * |ws|] == WordsToBytes(ws)
    ensures forall k :: 0 <= k < |ws| ==> FromBe(s[i + 4 * k..i + 4 * k + 4]) == ws[k]
  {
    hide WordsToBytes, WordsAt, FromBe, Word32At;
    WordsFields(ws, s, i);
    forall k | 0 <= k < |ws|
      ensures FromBe(s[i + 4 * k..i + 4 * k + 4]) == ws[k]
    {
      WordAt(s, i, |ws|, k);
      Word32IsBig(s, i + 4 * k);
    }
  }

  lemma {:induction false} WordAt(s: seq<byte>, i: nat, n: nat, k: nat)
    requires i + 4 * n <= |s| && k < n
    ensures WordsAt(s, i, n)[k] == Word32At(s, i + 4 * k)
  {
    hide Word32At;
    if k < n - 1 {
      WordAt(s, i, n - 1, k);
    }
  }

  lemma OctetFields(h: Header)
    requires FitsWire(h)
    ensures var b := FirstOctet(h);
            b % 16 == |h.csrcs| && (b / 16) % 2 == Bit(h.extension.Some?) && (b / 32) % 2 == Bit(h.padding) &&
            b / 64 == h.version
    ensures SecondOctet(h) % 128 == h.payloadType && SecondOctet(h) / 128 == Bit(h.marker)
  {
    OctetValues(h);
    hide FirstOctet, SecondOctet;
    Fields(|h.csrcs|, Bit(h.extension.Some?), Bit(h.padding), h.version);
    LowSeven(h.payloadType, Bit(h.marker));
  }

  lemma LowSeven(t: nat, m: nat)
    requires t < 128 && m < 2
    ensures (t + 128 * m) % 128 == t && (t + 128 * m) / 128 == m
  {
  }

  lemma OctetValues(h: Header)
    requires |h.csrcs| < 16 && h.version < 4 && h.payloadType < 128
    ensures FirstOctet(h) == |h.csrcs| + 16 * Bit(h.extension.Some?) + 32 * Bit(h.padding) + 64 * h.version
    ensures SecondOctet(h) == h.payloadType + 128 * Bit(h.marker)
  {
  }

  lemma Fields(cc: nat, x: nat, p: nat, v: nat)
    requires cc < 16 && x < 2 && p < 2 && v < 4
    ensures var b := cc + 16 * x + 32 * p + 64 * v;
            b % 16 == cc && (b / 16) % 2 == x && (b / 32) % 2 == p && b / 64 == v
  {
    var b := cc + 16 * x + 32 * p + 64 * v;
    assert b / 64 == v;
    assert b / 32 == p + 2 * v;
    assert b / 16 == x + 2 * p + 4 * v;
  }

  /** The codec loses nothing exactly when every field fits its width on the wire. */
  lemma RoundTripIffFits(p: Packet)
    ensures Decode(Encode(p)) == Some(p) <==> FitsWire(p.header)
  {
    if FitsWire(p.header) {
      EncodeThenDecode(p);
    } else {
      DecodedFitsWire(Encode(p));
    }
  }

  lemma DecodedOctets(s: seq<byte>)
    requires Decode(s).Some?
    ensures FirstOctet(Decode(s).value.header) == s[0]
    ensures SecondOctet(Decode(s).value.header) == s[1]
  {
    hide Word16At, Word32At, WordsAt, FirstOctet, SecondOctet;
    var h := Decode(s).value.header;
    OctetsBack(h, s[0], s[1]);
  }

  lemma OctetsBack(h: Header, a: byte, b: byte)
    requires |h.csrcs| == a % 16 && h.extension.Some? == ((a / 16) % 2 == 1) && h.padding == ((a / 32) % 2 == 1)
    requires h.version == a / 64 && h.payloadType == b % 128 && h.marker == (b / 128 == 1)
    ensures FirstOctet(h) == a && SecondOctet(h) == b
  {
    OctetBits(a);
    OctetBits(b);
    OctetValues(h);
    hide FirstOctet, SecondOctet;
    assert Bit(h.extension.Some?) == a / 16 % 2 && Bit(h.padding) == a / 32 % 2 && Bit(h.marker) == b / 128;
  }

  lemma OctetBits(b: byte)
    ensures b == b % 16 + 16 * ((b / 16) % 2) + 32 * ((b / 32) % 2) + 64 * (b / 64)
    ensures b == b % 128 + 128 * (b / 128)
    ensures b / 64 < 4 && b / 128 < 2
  {
    assert b / 16 / 2 == b / 32 && b / 32 / 2 == b / 64;
  }

  /** Where the parts of a datagram that decodes lie. */
  lemma DecodedParts(s: seq<byte>)
    requires Decode(s).Some?
    ensures var p := Decode(s).value;
            var h := p.header;
            var base := 12 + 4 * |h.csrcs|;
            var end := base + ExtensionSize(h.extension);
            && end <= |s| && p.payload == s[end..] && h.csrcs == WordsAt(s, 12, |h.csrcs|)
            && h.sequenceNum == Word16At(s, 2) && h.timestamp == Word32At(s, 4) && h.ssrc == Word32At(s, 8)
            && (h.extension.Some? ==>
                  var x := h.extension.value;
                  |x.data| <= 0xFFFF && Word16At(s, base) == x.id && Word16At(s, base + 2) == |x.data| &&
                  WordsAt(s, base + 4, |x.data|) == x.data)
  {
    hide Word16At, Word32At, WordsAt;
  }

  /** Every datagram that decodes is reproduced byte for byte. */
  lemma DecodeThenEncode(s: seq<byte>)
    requires Decode(s).Some?
    ensures Encode(Decode(s).value) == s
  {
    hide Be16, Be32, Word16At, Word32At, WordsAt, WordsToBytes, FixedHeader, ExtensionBytes, FirstOctet, SecondOctet, Decode;
    var h := Decode(s).value.header;
    var base := 12 + 4 * |h.csrcs|;
    var end := base + ExtensionSize(h.extension);
    DecodedOctets(s);
    DecodedParts(s);
    FixedHeaderFields(h, s);
    WordsFields(h.csrcs, s, 12);
    ExtensionPart(h.extension, s, base);
    assert s == s[..12] + s[12..base] + s[base..end] + s[end..];
  }

  lemma ExtensionPart(e: Option<Extension>, s: seq<byte>, i: nat)
    requires i + ExtensionSize(e) <= |s|
    requires e.Some? ==>
               var x := e.value;
               |x.data| <= 0xFFFF && Word16At(s, i) == x.id && Word16At(s, i + 2) == |x.data| &&
               WordsAt(s, i + 4, |x.data|) == x.data
    ensures s[i..i + ExtensionSize(e)] == ExtensionBytes(e)
  {
    if e.Some? {
      hide Word16At, WordsAt, Be16, WordsToBytes, ExtensionBytes;
      ExtensionFields(e.value, s, i);
    }
  }

  // ---------------------------------------------------------------- the buffers

  /** What has been written so far, followed by what has not been touched yet. */
  ghost predicate Written(buf: array<byte>, done: seq<byte>, before: seq<byte>)
    reads buf
  {
    |before| == buf.Length && |done| <= buf.Length && buf[..] == done + before[|done|..]
  }

  method Append(buf: array<byte>, bytes: seq<byte>, ghost done: seq<byte>, ghost before: seq<byte>, pos: nat)
    returns (next: nat)
    requires Written(buf, done, before) && pos == |done|
    requires pos + |bytes| <= buf.Length
    modifies buf
    ensures next == pos + |bytes| && Written(buf, done + bytes, before)
  {
    Put(buf, pos, bytes);
    next := pos + |bytes|;
  }

  /**
   * The payload is `src[off..off + len]`; it may already lie in `buf` where the copy puts it,
   * or behind everything that is written.
   */
  method ToBuffer(h: Header, src: array<byte>, off: nat, len: nat, buf: array<byte>) returns (size: Option<nat>)
    requires off + len <= src.Length
    requires src != buf || off == HeaderSize(h) || off >= HeaderSize(h) + len
    modifies buf
    ensures size.Some? <==> HeaderSize(h) + len <= buf.Length
    ensures size.None? ==> buf[..] == old(buf[..])
    ensures size.Some? ==>
              size.value == HeaderSize(h) + len &&
              buf[..] == Encode(Packet(h, old(src[off..off + len]))) + old(buf[HeaderSize(h) + len..])
  {
    hide FixedHeader, ExtensionBytes, WordsToBytes, FirstOctet, SecondOctet, Be16, Be32;
    var extensionSize := if h.extension.Some? then MINIMUM_EXTENSION_SIZE + 4 * |h.extension.value.data| else 0;
    var bufferSize := MINIMUM_HEADER_SIZE + 4 * |h.csrcs| + extensionSize + len;
    if bufferSize > buf.Length {
      return None;
    }
    ghost var before := buf[..];
    var pos := AppendFixedHeader(buf, h, before);
    pos := AppendWords(buf, h.csrcs, FixedHeader(h), before, pos);
    pos := AppendExtension(buf, h.extension, FixedHeader(h) + WordsToBytes(h.csrcs), before, pos);
    PayloadKept(buf, HeaderBytes(h), before, off, len);
    assert src != buf ==> src[off..off + len] == old(src[off..off + len]);
    pos := Append(buf, src[off..off + len], HeaderBytes(h), before, pos);
    size := Some(bufferSize);
  }

  lemma NothingWritten(buf: array<byte>)
    ensures Written(buf, [], buf[..])
  {
  }

  lemma PayloadKept(buf: array<byte>, done: seq<byte>, before: seq<byte>, off: nat, len: nat)
    requires Written(buf, done, before)
    ensures |done| <= off && off + len <= |before| ==> buf[off..off + len] == before[off..off + len]
  {
    if |done| <= off && off + len <= |before| {
      assert buf[off..off + len] == buf[..][off..off + len];
    }
  }

  method AppendFixedHeader(buf: array<byte>, h: Header, ghost before: seq<byte>) returns (pos: nat)
    requires buf.Length >= MINIMUM_HEADER_SIZE && before == buf[..]
    modifies buf
    ensures pos == MINIMUM_HEADER_SIZE && Written(buf, FixedHeader(h), before)
  {
    hide Be16, Be32, FirstOctet, SecondOctet, Written;
    ghost var octets := [FirstOctet(h)] + [SecondOctet(h)];
    NothingWritten(buf);
    pos := Append(buf, [FirstOctet(h)], [], before, 0);
    assert [] + [FirstOctet(h)] == [FirstOctet(h)];
    pos := Append(buf, [SecondOctet(h)], [FirstOctet(h)], before, pos);
    pos := Append(buf, Be16(h.sequenceNum), octets, before, pos);
    pos := Append(buf, Be32(h.timestamp), octets + Be16(h.sequenceNum), before, pos);
    pos := Append(buf, Be32(h.ssrc), octets + Be16(h.sequenceNum) + Be32(h.timestamp), before, pos);
    assert FixedHeader(h) == octets + Be16(h.sequenceNum) + Be32(h.timestamp) + Be32(h.ssrc) by {
      assert octets == [FirstOctet(h), SecondOctet(h)];
    }
  }

  method AppendExtension(buf: array<byte>, e: Option<Extension>, ghost done: seq<byte>, ghost before: seq<byte>, start: nat)
    returns (pos: nat)
    requires Written(buf, done, before) && start == |done|
    requires start + ExtensionSize(e) <= buf.Length
    modifies buf
    ensures pos == start + ExtensionSize(e) && Written(buf, done + ExtensionBytes(e), before)
  {
    hide Be16, WordsToBytes, Written;
    pos := start;
    match e {
      case None =>
        assert done + [] == done;
      case Some(x) =>
        pos := Append(buf, Be16(x.id), done, before, pos);
        pos := Append(buf, Be16(|x.data| % 0x1_0000), done + Be16(x.id), before, pos);
        pos := AppendWords(buf, x.data, done + Be16(x.id) + Be16(|x.data| % 0x1_0000), before, pos);
        assert done + ExtensionBytes(e) == done + Be16(x.id) + Be16(|x.data| % 0x1_0000) + WordsToBytes(x.data);
    }
  }

  method AppendWords(buf: array<byte>, ws: seq<word32>, ghost done: seq<byte>, ghost before: seq<byte>, start: nat)
    returns (pos: nat)
    requires Written(buf, done, before) && start == |done|
    requires start + 4 * |ws| <= buf.Length
    modifies buf
    ensures pos == start + 4 * |ws| && Written(buf, done + WordsToBytes(ws), before)
  {
    hide Be32;
    pos := start;
    for i := 0 to |ws|
      invariant pos == start + 4 * i
      invariant Written(buf, done + WordsToBytes(ws[..i]), before)
    {
      pos := Append(buf, Be32(ws[i]), done + WordsToBytes(ws[..i]), before, pos);
      assert ws[..i + 1][..i] == ws[..i];
      assert done + WordsToBytes(ws[..i + 1]) == done + WordsToBytes(ws[..i]) + Be32(ws[i]);
    }
    assert ws[..|ws|] == ws;
  }

  method FromBuffer(buf: array<byte>) returns (r: Option<Packet>)
    ensures r == Decode(buf[..])
  {
    hide Word16At, Word32At;
    if buf.Length < MINIMUM_HEADER_SIZE {
      return None;
    }
    var s := buf[..];
    var cc := buf[0] % 16;
    var expectedSize := MINIMUM_HEADER_SIZE + cc * 4;
    if buf.Length < expectedSize {
      return None;
    }
    var pos := MINIMUM_HEADER_SIZE;
    var csrcs := ReadWords(buf, pos, cc);
    pos := pos + 4 * cc;
    var extension: Option<Extension> := None;
    if (buf[0] / 16) % 2 == 1 {
      expectedSize := expectedSize + MINIMUM_EXTENSION_SIZE;
      if buf.Length < expectedSize {
        return None;
      }
      var id := Word16At(s, pos);
      var dataSize: nat := Word16At(s, pos + 2);
      pos := pos + 4;
      expectedSize := expectedSize + dataSize * 4;
      if buf.Length < expectedSize {
        return None;
      }
      var data := ReadWords(buf, pos, dataSize);
      pos := pos + 4 * dataSize;
      extension := Some(Extension(id, data));
    }
    var h := Header((buf[0] / 32) % 2 == 1, buf[0] / 64, buf[1] % 128, buf[1] / 128 == 1,
                    Word16At(s, 2), Word32At(s, 4), Word32At(s, 8), csrcs, extension);
    r := Some(Packet(h, buf[pos..]));
  }

  method ReadWords(buf: array<byte>, start: nat, n: nat) returns (ws: seq<word32>)
    requires start + 4 * n <= buf.Length
    ensures ws == WordsAt(buf[..], start, n)
  {
    hide Word32At;
    ws := [];
    for i := 0 to n
      invariant ws == WordsAt(buf[..], start, i)
    {
      ws := ws + [Word32At(buf[..], start + 4 * i)];
    }
  }
}
