/** The RTP packet of the streamer: the 12-byte fixed header of section 5.1
    of RFC 3550 (bit-packed bytes 0 and 1, big-endian sequence number,
    timestamp and SSRC) followed by the payload, with its encoder and decoder.
    Rust's `u8`, `u16` and `u32` are `bv8`, `bv16` and `bv32`, so shifts and
    `|` behave as in the source, overflowing bits included. */
module Rtp {
  import opened Wrappers

  const HEADER_SIZE: nat := 12
  const RTP_VERSION: bv8 := 2

  datatype RtpPacket = RtpPacket(
    version: bv8,
    padding: bool,
    extension: bool,
    cc: bv8,
    marker: bool,
    payloadType: bv8,
    sequenceNumber: bv16,
    timestamp: bv32,
    ssrc: bv32,
    payload: seq<bv8>)

  datatype DecodeError = TooSmall(length: nat) | InvalidVersion(version: bv8)

  /** `RtpPacket::new`: version 2, no padding, no extension, no CSRC, no marker. */
  function New(payloadType: bv8, sequenceNumber: bv16, timestamp: bv32, ssrc: bv32, payload: seq<bv8>): RtpPacket {
    RtpPacket(RTP_VERSION, false, false, 0, false, payloadType, sequenceNumber, timestamp, ssrc, payload)
  }

  /** `b as u8` for a `bool`. */
  function Bit(b: bool): bv8 {
    if b then 1 else 0
  }

  /** `to_be_bytes` of a `u16`. */
  function Be16(x: bv16): seq<bv8> {
    [(x >> 8) as bv8, (x & 0xFF) as bv8]
  }

  /** `to_be_bytes` of a `u32`. */
  function Be32(x: bv32): seq<bv8> {
    [(x >> 24) as bv8, ((x >> 16) & 0xFF) as bv8, ((x >> 8) & 0xFF) as bv8, (x & 0xFF) as bv8]
  }

  /** `u16::from_be_bytes`. */
  function FromBe16(b0: bv8, b1: bv8): bv16 {
    ((b0 as bv16) << 8) | (b1 as bv16)
  }

  /** `u32::from_be_bytes`. */
  function FromBe32(b0: bv8, b1: bv8, b2: bv8, b3: bv8): bv32 {
    ((b0 as bv32) << 24) | ((b1 as bv32) << 16) | ((b2 as bv32) << 8) | (b3 as bv32)
  }

  /** Byte 0 as `encode` computes it; `cc` is not masked. */
  function FirstByte(p: RtpPacket): bv8 {
    (p.version << 6) | (Bit(p.padding) << 5) | (Bit(p.extension) << 4) | p.cc
  }

  /** Byte 1 as `encode` computes it; `payload_type` is not masked. */
  function SecondByte(p: RtpPacket): bv8 {
    (Bit(p.marker) << 7) | p.payloadType
  }

  /** The bytes `encode` produces: the header, then the payload unchanged. */
  function Encoded(p: RtpPacket): seq<bv8> {
    [FirstByte(p), SecondByte(p)] + Be16(p.sequenceNumber) + Be32(p.timestamp) + Be32(p.ssrc) + p.payload
  }

  /** `buf[at..at + 2].copy_from_slice(&x.to_be_bytes())`. */
  method PutBe16(buf: array<bv8>, at: nat, x: bv16)
    requires at + 2 <= buf.Length
    modifies buf
    ensures buf[..] == old(buf[..])[..at] + Be16(x) + old(buf[..])[at + 2..]
  {
    buf[at] := (x >> 8) as bv8;
    buf[at + 1] := (x & 0xFF) as bv8;
  }

  /** `buf[at..at + 4].copy_from_slice(&x.to_be_bytes())`. */
  method PutBe32(buf: array<bv8>, at: nat, x: bv32)
    requires at + 4 <= buf.Length
    modifies buf
    ensures buf[..] == old(buf[..])[..at] + Be32(x) + old(buf[..])[at + 4..]
  {
    buf[at] := (x >> 24) as bv8;
    buf[at + 1] := ((x >> 16) & 0xFF) as bv8;
    buf[at + 2] := ((x >> 8) & 0xFF) as bv8;
    buf[at + 3] := (x & 0xFF) as bv8;
  }

  /** `encode`: fills a 12-byte header array, then appends header and payload. */
  method Encode(p: RtpPacket) returns (packet: seq<bv8>)
    ensures packet == Encoded(p)
    ensures |packet| == HEADER_SIZE + |p.payload| && packet[HEADER_SIZE..] == p.payload
  {
    var header := new bv8[HEADER_SIZE];
    header[0] := FirstByte(p);
    header[1] := SecondByte(p);
    ghost var top := header[..2];
    assert top == [FirstByte(p), SecondByte(p)];
    PutBe16(header, 2, p.sequenceNumber);
    PutBe32(header, 4, p.timestamp);
    PutBe32(header, 8, p.ssrc);
    assert header[..] == top + Be16(p.sequenceNumber) + Be32(p.timestamp) + Be32(p.ssrc);
    packet := [];
    packet := packet + header[..];
    packet := packet + p.payload;
  }

  /** `decode`: too short, or a version field other than 2, is an error;
      every other header value is accepted as it is. */
  function Decode(data: seq<bv8>): (r: Result<RtpPacket, DecodeError>)
    ensures r.Ok? <==> |data| >= HEADER_SIZE && data[0] >> 6 == RTP_VERSION
    ensures |data| < HEADER_SIZE ==> r == Err(TooSmall(|data|))
    ensures |data| >= HEADER_SIZE && data[0] >> 6 != RTP_VERSION ==> r == Err(InvalidVersion(data[0] >> 6))
    ensures r.Ok? ==> r.value.version == RTP_VERSION && r.value.payload == data[HEADER_SIZE..]
  {
    if |data| < HEADER_SIZE then Err(TooSmall(|data|))
    else
      var version := data[0] >> 6;
      if version != RTP_VERSION then Err(InvalidVersion(version))
      else
        Ok(RtpPacket(
          version,
          (data[0] >> 5) & 1 == 1,
          (data[0] >> 4) & 1 == 1,
          data[0] & 0x0F,
          (data[1] >> 7) & 1 == 1,
          data[1] & 0x7F,
          FromBe16(data[2], data[3]),
          FromBe32(data[4], data[5], data[6], data[7]),
          FromBe32(data[8], data[9], data[10], data[11]),
          data[HEADER_SIZE..]))
  }

  /** The packets `encode` can write without losing bits: `encode` does not mask. */
  predicate Encodable(p: RtpPacket) {
    p.version == RTP_VERSION && p.cc < 16 && p.payloadType < 128
  }

  lemma Be16RoundTrip(x: bv16)
    ensures FromBe16(Be16(x)[0], Be16(x)[1]) == x
  {
  }

  lemma Be32RoundTrip(x: bv32)
    ensures FromBe32(Be32(x)[0], Be32(x)[1], Be32(x)[2], Be32(x)[3]) == x
  {
  }

  lemma FirstByteFields(p: RtpPacket)
    requires Encodable(p)
    ensures FirstByte(p) >> 6 == RTP_VERSION
    ensures ((FirstByte(p) >> 5) & 1 == 1) == p.padding
    ensures ((FirstByte(p) >> 4) & 1 == 1) == p.extension
    ensures FirstByte(p) & 0x0F == p.cc
  {
  }

  lemma SecondByteFields(p: RtpPacket)
    requires Encodable(p)
    ensures ((SecondByte(p) >> 7) & 1 == 1) == p.marker
    ensures SecondByte(p) & 0x7F == p.payloadType
  {
  }

  /** decode(encode(p)) == p for every packet whose fields fit their bit widths. */
  lemma DecodeEncoded(p: RtpPacket)
    requires Encodable(p)
    ensures Decode(Encoded(p)) == Ok(p)
  {
    var e := Encoded(p);
    FirstByteFields(p);
    SecondByteFields(p);
    Be16RoundTrip(p.sequenceNumber);
    Be32RoundTrip(p.timestamp);
    Be32RoundTrip(p.ssrc);
    assert e[2..4] == Be16(p.sequenceNumber);
    assert e[4..8] == Be32(p.timestamp);
    assert e[8..12] == Be32(p.ssrc);
    assert e[HEADER_SIZE..] == p.payload;
  }

  lemma FirstByteOfDecoded(b: bv8)
    requires b >> 6 == RTP_VERSION
    ensures (RTP_VERSION << 6) | (Bit((b >> 5) & 1 == 1) << 5) | (Bit((b >> 4) & 1 == 1) << 4) | (b & 0x0F) == b
  {
  }

  lemma SecondByteOfDecoded(b: bv8)
    ensures (Bit((b >> 7) & 1 == 1) << 7) | (b & 0x7F) == b
  {
  }

  lemma Be16OfDecoded(b0: bv8, b1: bv8)
    ensures Be16(FromBe16(b0, b1)) == [b0, b1]
  {
  }

  lemma Be32OfDecoded(b0: bv8, b1: bv8, b2: bv8, b3: bv8)
    ensures Be32(FromBe32(b0, b1, b2, b3)) == [b0, b1, b2, b3]
  {
  }

  /** encode(decode(b)) == b: the codec is byte-exact on everything it accepts. */
  lemma EncodeDecoded(data: seq<bv8>)
    requires Decode(data).Ok?
    ensures Encodable(Decode(data).value)
    ensures Encoded(Decode(data).value) == data
  {
    var p := Decode(data).value;
    FirstByteOfDecoded(data[0]);
    SecondByteOfDecoded(data[1]);
    Be16OfDecoded(data[2], data[3]);
    Be32OfDecoded(data[4], data[5], data[6], data[7]);
    Be32OfDecoded(data[8], data[9], data[10], data[11]);
    assert data == data[..HEADER_SIZE] + data[HEADER_SIZE..];
  }

  /** A packet built by `new` decodes back to itself whenever its payload type fits 7 bits. */
  lemma DecodeNew(payloadType: bv8, sequenceNumber: bv16, timestamp: bv32, ssrc: bv32, payload: seq<bv8>)
    requires payloadType < 128
    ensures Decode(Encoded(New(payloadType, sequenceNumber, timestamp, ssrc, payload)))
         == Ok(New(payloadType, sequenceNumber, timestamp, ssrc, payload))
  {
    DecodeEncoded(New(payloadType, sequenceNumber, timestamp, ssrc, payload));
  }

  /** Why `Encodable` is needed: a CSRC count of 16 overflows into the extension bit. */
  lemma UnmaskedCcCorruptsExtension()
    ensures Decode(Encoded(RtpPacket(RTP_VERSION, false, false, 16, false, 26, 1, 2, 3, [])))
         == Ok(RtpPacket(RTP_VERSION, false, true, 0, false, 26, 1, 2, 3, []))
  {
    var p := RtpPacket(RTP_VERSION, false, false, 16, false, 26, 1, 2, 3, []);
    assert FirstByte(p) == 0x90;
    Be16RoundTrip(1);
    Be32RoundTrip(2);
    Be32RoundTrip(3);
  }
}
