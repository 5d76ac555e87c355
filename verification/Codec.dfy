/** The wire envelope: preamble, version, header length, header, payload; what decodes is
    exactly what an encoder could have written, up to ignored header bytes. */
module Codec {
  import opened Outcomes

  type byte = x: int | 0 <= x < 0x100
  type u16 = x: int | 0 <= x < 0x1_0000
  type u32 = x: int | 0 <= x < 0x1_0000_0000
  type Bytes = seq<byte>

  datatype WireError =
    | TooShort
    | InvalidPreamble
    | UnsupportedVersion(version: u32)
    | MissingHeaderLength
    | HeaderTruncated
    | MalformedHeader
    | MalformedPayload
    | HeaderTooLarge

  /** The session id is an array of exactly 32 bytes. */
  type SessionId = s: Bytes | |s| == 32 witness seq(32, _ => 0)

  datatype Header = Header(sessionId: SessionId, protocolId: u16, round: u16, from: u16, to: u16)

  const PREAMBLE: Bytes := [0x4D, 0x50, 0x43, 0x45]
  const WIRE_VERSION: u32 := 1
  const HEADER_SIZE := 40

  // ---- integers ------------------------------------------------------------------------

  function U16Be(x: u16): Bytes {
    [x / 0x100, x % 0x100]
  }

  function FromU16Be(b: Bytes): u16
    requires |b| == 2
  {
    0x100 * (b[0] as int) + b[1]
  }

  function U32Be(x: u32): Bytes {
    U16Be(x / 0x1_0000) + U16Be(x % 0x1_0000)
  }

  function FromU32Be(b: Bytes): u32
    requires |b| == 4
  {
    0x1_0000 * FromU16Be(b[..2]) + FromU16Be(b[2..])
  }

  /** Little-endian is big-endian backwards. */
  function U32Le(x: u32): Bytes {
    var b := U32Be(x);
    [b[3], b[2], b[1], b[0]]
  }

  function FromU32Le(b: Bytes): u32
    requires |b| == 4
  {
    FromU32Be([b[3], b[2], b[1], b[0]])
  }

  lemma U16RoundTrip(x: u16, b: Bytes)
    requires |b| == 2
    ensures FromU16Be(U16Be(x)) == x && U16Be(FromU16Be(b)) == b
  {
  }

  lemma U32RoundTrip(x: u32, b: Bytes)
    requires |b| == 4
    ensures FromU32Be(U32Be(x)) == x && U32Be(FromU32Be(b)) == b
  {
    assert U32Be(x)[..2] == U16Be(x / 0x1_0000) && U32Be(x)[2..] == U16Be(x % 0x1_0000);
    U16RoundTrip(x / 0x1_0000, b[..2]);
    U16RoundTrip(x % 0x1_0000, b[2..]);
    assert b == b[..2] + b[2..];
  }

  lemma U32LeRoundTrip(x: u32, b: Bytes)
    requires |b| == 4
    ensures FromU32Le(U32Le(x)) == x && U32Le(FromU32Le(b)) == b
  {
    var be := U32Be(x);
    U32RoundTrip(x, [b[3], b[2], b[1], b[0]]);
    assert [be[0], be[1], be[2], be[3]] == be;
  }

  // ---- the header ----------------------------------------------------------------------

  function HeaderBytes(h: Header): (b: Bytes)
    ensures |b| == HEADER_SIZE
  {
    h.sessionId + U16Be(h.protocolId) + U16Be(h.round) + U16Be(h.from) + U16Be(h.to)
  }

  /** The fixed-width header decoder reads 40 bytes and ignores what follows. */
  function ParseHeader(b: Bytes): Option<Header> {
    if |b| < HEADER_SIZE then None
    else Some(Header(b[..32], FromU16Be(b[32..34]), FromU16Be(b[34..36]), FromU16Be(b[36..38]), FromU16Be(b[38..40])))
  }

  /** Parsing inverts encoding, and the first 40 bytes are the header it returns. */
  lemma HeaderRoundTrip(h: Header, extra: Bytes, b: Bytes)
    ensures ParseHeader(HeaderBytes(h) + extra) == Some(h)
    ensures ParseHeader(b).Some? <==> |b| >= HEADER_SIZE
    ensures |b| >= HEADER_SIZE ==> HeaderBytes(ParseHeader(b).value) == b[..HEADER_SIZE]
  {
    var e := HeaderBytes(h) + extra;
    assert e[..32] == h.sessionId;
    assert e[32..34] == U16Be(h.protocolId);
    assert e[34..36] == U16Be(h.round);
    assert e[36..38] == U16Be(h.from);
    assert e[38..40] == U16Be(h.to);
    if |b| >= HEADER_SIZE {
      U16RoundTrip(h.protocolId, b[32..34]);
      U16RoundTrip(h.round, b[34..36]);
      U16RoundTrip(h.from, b[36..38]);
      U16RoundTrip(h.to, b[38..40]);
      assert b[..40] == b[..32] + b[32..34] + b[34..36] + b[36..38] + b[38..40];
    }
  }

  // ---- the envelope --------------------------------------------------------------------

  /** What follows the fixed prefix: any payload encoding that the payload decoder inverts. */
  datatype PayloadCodec<!T> = PayloadCodec(enc: T -> Bytes, dec: Bytes -> Option<T>)

  ghost predicate RoundTrips<T(!new)>(c: PayloadCodec<T>) {
    forall p: T :: c.dec(c.enc(p)) == Some(p)
  }

  function Envelope(headerBytes: Bytes, payload: Bytes): Bytes
    requires |headerBytes| < 0x1_0000_0000
  {
    PREAMBLE + U32Le(WIRE_VERSION) + U32Be(|headerBytes|) + headerBytes + payload
  }

  /** The bytes `encode` produces. */
  function Encoded<T>(c: PayloadCodec<T>, h: Header, p: T): Bytes {
    Envelope(HeaderBytes(h), c.enc(p))
  }

  method Encode<T>(c: PayloadCodec<T>, h: Header, p: T) returns (r: Result<Bytes, WireError>)
    ensures r == Ok(Encoded(c, h, p))
  {
    var buf: Bytes := [];
    buf := buf + PREAMBLE;
    buf := buf + U32Le(WIRE_VERSION);
    var headerBytes := HeaderBytes(h);
    var payloadBytes := c.enc(p);
    if |headerBytes| >= 0x1_0000_0000 {
      return Err(HeaderTooLarge);
    }
    buf := buf + U32Be(|headerBytes|);
    buf := buf + headerBytes;
    buf := buf + payloadBytes;
    assert buf == PREAMBLE + U32Le(WIRE_VERSION) + U32Be(|headerBytes|) + headerBytes + payloadBytes;
    r := Ok(buf);
  }

  function Decode<T>(c: PayloadCodec<T>, data: Bytes): Result<(Header, T), WireError> {
    if |data| < 8 then Err(TooShort)
    else if data[..4] != PREAMBLE then Err(InvalidPreamble)
    else
      var version := FromU32Le(data[4..8]);
      if version != WIRE_VERSION then Err(UnsupportedVersion(version))
      else
        var rest := data[8..];
        if |rest| < 4 then Err(MissingHeaderLength)
        else
          var headerLen := FromU32Be(rest[..4]);
          if |rest| < 4 + headerLen then Err(HeaderTruncated)
          else
            match ParseHeader(rest[4..4 + headerLen])
            case None => Err(MalformedHeader)
            case Some(header) =>
              match c.dec(rest[4 + headerLen..])
              case None => Err(MalformedPayload)
              case Some(payload) => Ok((header, payload))
  }

  /** The parts of an envelope, as the decoder slices it. */
  lemma DecodeEnvelope<T>(c: PayloadCodec<T>, headerBytes: Bytes, payload: Bytes)
    requires |headerBytes| < 0x1_0000_0000
    ensures Decode(c, Envelope(headerBytes, payload))
            == match ParseHeader(headerBytes)
               case None => Err(MalformedHeader)
               case Some(h) => match c.dec(payload) case None => Err(MalformedPayload) case Some(p) => Ok((h, p))
  {
    var data := Envelope(headerBytes, payload);
    var n := |headerBytes|;
    assert data[..4] == PREAMBLE;
    assert data[4..8] == U32Le(WIRE_VERSION);
    U32LeRoundTrip(WIRE_VERSION, data[4..8]);
    var rest := data[8..];
    assert rest == U32Be(n) + headerBytes + payload;
    assert rest[..4] == U32Be(n);
    U32RoundTrip(n, rest[..4]);
    assert rest[4..4 + n] == headerBytes;
    assert rest[4 + n..] == payload;
  }

  /** Decoding inverts encoding, for every header and every payload. */
  lemma DecodeEncoded<T(!new)>(c: PayloadCodec<T>, h: Header, p: T)
    requires RoundTrips(c)
    ensures Decode(c, Encoded(c, h, p)) == Ok((h, p))
  {
    DecodeEnvelope(c, HeaderBytes(h), c.enc(p));
    HeaderRoundTrip(h, [], []);
    assert HeaderBytes(h) + [] == HeaderBytes(h);
  }

  /** Envelopes of different headers or payloads differ. */
  lemma EncodedInjective<T(!new)>(c: PayloadCodec<T>, h: Header, p: T, h': Header, p': T)
    requires RoundTrips(c) && Encoded(c, h, p) == Encoded(c, h', p')
    ensures h == h' && p == p'
  {
    DecodeEncoded(c, h, p);
    DecodeEncoded(c, h', p');
  }

  /** Data is an envelope of h, with ignored bytes after the header, and of this payload. */
  predicate Wraps(data: Bytes, h: Header, extra: Bytes, payload: Bytes) {
    HEADER_SIZE + |extra| < 0x1_0000_0000 && data == Envelope(HeaderBytes(h) + extra, payload)
  }

  /** Everything that decodes is an envelope: a longer header than 40 bytes is accepted, its
      surplus ignored. */
  lemma DecodeOkWraps<T>(c: PayloadCodec<T>, data: Bytes)
    requires Decode(c, data).Ok?
    ensures exists extra: Bytes, payload: Bytes ::
              Wraps(data, Decode(c, data).value.0, extra, payload) && c.dec(payload) == Some(Decode(c, data).value.1)
  {
    var rest := data[8..];
    var n := FromU32Be(rest[..4]);
    var headerBytes, payload := rest[4..4 + n], rest[4 + n..];
    var h := Decode(c, data).value.0;
    U32LeRoundTrip(WIRE_VERSION, data[4..8]);
    U32RoundTrip(n, rest[..4]);
    EnvelopeParts(data, headerBytes, payload);
    HeaderRoundTrip(h, [], headerBytes);
    var extra := headerBytes[HEADER_SIZE..];
    assert headerBytes == HeaderBytes(h) + extra;
    assert Wraps(data, h, extra, payload);
  }

  /** Data that starts with the fixed parts is the envelope of what follows. */
  lemma EnvelopeParts(data: Bytes, headerBytes: Bytes, payload: Bytes)
    requires |headerBytes| < 0x1_0000_0000 && |data| == 12 + |headerBytes| + |payload|
    requires data[..4] == PREAMBLE && data[4..8] == U32Le(WIRE_VERSION) && data[8..12] == U32Be(|headerBytes|)
    requires data[12..12 + |headerBytes|] == headerBytes && data[12 + |headerBytes|..] == payload
    ensures data == Envelope(headerBytes, payload)
  {
    assert data == data[..4] + data[4..8] + data[8..12] + data[12..12 + |headerBytes|] + data[12 + |headerBytes|..];
  }

  /** Exactly the envelopes with a decodable payload decode. */
  lemma DecodeOkIff<T>(c: PayloadCodec<T>, data: Bytes, h: Header, p: T)
    ensures Decode(c, data) == Ok((h, p))
            <==> exists extra: Bytes, payload: Bytes :: Wraps(data, h, extra, payload) && c.dec(payload) == Some(p)
  {
    if Decode(c, data) == Ok((h, p)) {
      DecodeOkWraps(c, data);
    }
    if extra: Bytes, payload: Bytes :| Wraps(data, h, extra, payload) && c.dec(payload) == Some(p) {
      DecodeEnvelope(c, HeaderBytes(h) + extra, payload);
      HeaderRoundTrip(h, extra, []);
    }
  }

  /** An envelope cut before the end of its header is refused, with the error of the place it
      is cut. */
  lemma TruncatedEnvelope<T>(c: PayloadCodec<T>, h: Header, payload: Bytes, cut: nat)
    requires cut < 12 + HEADER_SIZE
    ensures Decode(c, Envelope(HeaderBytes(h), payload)[..cut])
            == Err(if cut < 8 then TooShort else if cut < 12 then MissingHeaderLength else HeaderTruncated)
  {
    var data := Envelope(HeaderBytes(h), payload);
    var part := data[..cut];
    if cut >= 8 {
      EnvelopeSlices(HeaderBytes(h), payload);
      assert part[..4] == data[..4] && part[4..8] == data[4..8];
      U32LeRoundTrip(WIRE_VERSION, part[4..8]);
      if cut >= 12 {
        assert part[8..][..4] == data[8..12];
        U32RoundTrip(HEADER_SIZE, part[8..][..4]);
      }
    }
  }

  /** The fixed parts of an envelope. */
  lemma EnvelopeSlices(headerBytes: Bytes, payload: Bytes)
    requires |headerBytes| < 0x1_0000_0000
    ensures var data := Envelope(headerBytes, payload);
            && |data| == 12 + |headerBytes| + |payload|
            && data[..4] == PREAMBLE && data[4..8] == U32Le(WIRE_VERSION) && data[8..12] == U32Be(|headerBytes|)
  {
  }

  // ---- the bytes on the wire -----------------------------------------------------------

  lemma HeaderLayout(h: Header)
    ensures var b := HeaderBytes(h);
            && b[..32] == h.sessionId
            && b[32] == h.protocolId / 256 && b[33] == h.protocolId % 256
            && b[34] == h.round / 256 && b[35] == h.round % 256
            && b[36] == h.from / 256 && b[37] == h.from % 256
            && b[38] == h.to / 256 && b[39] == h.to % 256
  {
  }

  lemma PrefixLayout(headerBytes: Bytes, payload: Bytes)
    requires |headerBytes| == 40
    ensures var b := Envelope(headerBytes, payload);
            && |b| == 52 + |payload|
            && b[..12] == [0x4D, 0x50, 0x43, 0x45, 1, 0, 0, 0, 0, 0, 0, 40]
            && b[12..52] == headerBytes && b[52..] == payload
  {
  }

  /** An encoded message, position by position: the four letters, the version in little-endian
      order, the header length 40 and the header fields in big-endian order, the payload. */
  lemma EncodedLayout<T>(c: PayloadCodec<T>, h: Header, p: T)
    ensures var b := Encoded(c, h, p);
            && |b| == 52 + |c.enc(p)|
            && b[..12] == [0x4D, 0x50, 0x43, 0x45, 1, 0, 0, 0, 0, 0, 0, 40]
            && b[12..44] == h.sessionId
            && b[44] == h.protocolId / 256 && b[45] == h.protocolId % 256
            && b[46] == h.round / 256 && b[47] == h.round % 256
            && b[48] == h.from / 256 && b[49] == h.from % 256
            && b[50] == h.to / 256 && b[51] == h.to % 256
            && b[52..] == c.enc(p)
  {
    var b, hb := Encoded(c, h, p), HeaderBytes(h);
    PrefixLayout(hb, c.enc(p));
    HeaderLayout(h);
    assert b[12..44] == b[12..52][..32] == hb[..32];
    HeaderAt(b, hb, 32);
    HeaderAt(b, hb, 33);
    HeaderAt(b, hb, 34);
    HeaderAt(b, hb, 35);
    HeaderAt(b, hb, 36);
    HeaderAt(b, hb, 37);
    HeaderAt(b, hb, 38);
    HeaderAt(b, hb, 39);
  }

  lemma HeaderAt(b: Bytes, hb: Bytes, i: nat)
    requires i < 40 && |b| >= 52 && b[12..52] == hb
    ensures b[12 + i] == hb[i]
  {
    assert b[12..52][i] == b[12 + i];
  }

  /** Two and four bytes as a number, the most significant first. */
  function Two(a: byte, b: byte): u16 {
    256 * (a as int) + b
  }

  function Four(a: byte, b: byte, c: byte, d: byte): u32 {
    0x100_0000 * (a as int) + 0x1_0000 * (b as int) + 0x100 * (c as int) + d
  }

  lemma FromBytes(b: Bytes)
    requires |b| == 4
    ensures FromU32Be(b) == Four(b[0], b[1], b[2], b[3]) && FromU32Le(b) == Four(b[3], b[2], b[1], b[0])
  {
    var r: Bytes := [b[3], b[2], b[1], b[0]];
    assert b[..2] == [b[0], b[1]] && b[2..] == [b[2], b[3]];
    assert r[..2] == [b[3], b[2]] && r[2..] == [b[1], b[0]];
  }

  /** What the decoder answers to any bytes, read position by position: the first test that fails
      names the error. */
  lemma DecodedLayout<T>(c: PayloadCodec<T>, data: Bytes)
    ensures Decode(c, data)
            == if |data| < 8 then Err(TooShort)
               else if data[..4] != [0x4D, 0x50, 0x43, 0x45] then Err(InvalidPreamble)
               else if Four(data[7], data[6], data[5], data[4]) != 1 then
                 Err(UnsupportedVersion(Four(data[7], data[6], data[5], data[4])))
               else if |data| < 12 then Err(MissingHeaderLength)
               else
                 var n: nat := Four(data[8], data[9], data[10], data[11]);
                 if |data| < 12 + n then Err(HeaderTruncated)
                 else if n < 40 then Err(MalformedHeader)
                 else if c.dec(data[12 + n..]).None? then Err(MalformedPayload)
                 else
                   Ok((Header(data[12..44], Two(data[44], data[45]), Two(data[46], data[47]),
                              Two(data[48], data[49]), Two(data[50], data[51])),
                       c.dec(data[12 + n..]).value))
  {
    if |data| >= 8 {
      FromBytes(data[4..8]);
      if |data| >= 12 {
        FromBytes(data[8..][..4]);
        var n: nat := FromU32Be(data[8..][..4]);
        if |data| >= 12 + n {
          SliceOfRest(data, 8, 4, 4 + n);
          if n >= 40 {
            ParsedLayout(data, n);
          }
        }
      }
    }
  }

  lemma SliceOfRest(s: Bytes, from: nat, i: nat, j: nat)
    requires i <= j && from + j <= |s|
    ensures s[from..][i..j] == s[from + i..from + j] && s[from..][j..] == s[from + j..]
  {
  }

  lemma HeaderField(data: Bytes, n: nat, i: nat)
    requires |data| >= 12 + n && i + 2 <= n
    ensures FromU16Be(data[12..12 + n][i..i + 2]) == Two(data[12 + i], data[13 + i])
  {
    var b := data[12..12 + n][i..i + 2];
    assert b[0] == data[12 + i] && b[1] == data[13 + i];
  }

  lemma ParsedLayout(data: Bytes, n: nat)
    requires n >= 40 && |data| >= 12 + n
    ensures ParseHeader(data[12..12 + n])
            == Some(Header(data[12..44], Two(data[44], data[45]), Two(data[46], data[47]),
                           Two(data[48], data[49]), Two(data[50], data[51])))
  {
    assert data[12..12 + n][..32] == data[12..44];
    HeaderField(data, n, 32);
    HeaderField(data, n, 34);
    HeaderField(data, n, 36);
    HeaderField(data, n, 38);
  }
}
