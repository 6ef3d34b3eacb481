/** The wire format of a transport packet, with the 32-bit arithmetic of its length check. */
module Packets {
  import opened ByteOrder
  import opened Prelude

  type u32 = n: int | 0 <= n < TWO_TO_THE_32
  type i64 = n: int | -0x8000_0000_0000_0000 <= n < 0x8000_0000_0000_0000
  type PacketId = b: Bytes | |b| == 16 witness seq(16, i => 0)
  type NodeBytes = b: Bytes | |b| == 5 witness seq(5, i => 0)
  type Mac = b: Bytes | |b| == 32 witness seq(32, i => 0)

  const MAGIC: u32 := 0x4D534752
  const VERSION: byte := 1
  const HEADER := 41
  const MAC_SIZE := 32

  datatype Packet = Packet(
    magic: u32,
    version: byte,
    kind: byte,
    flags: byte,
    ttl: byte,
    id: PacketId,
    sender: NodeBytes,
    timestamp: i64,
    body: Bytes,
    mac: Mac)

  // ----- integers on the wire -----

  function U32Of(b: Bytes): u32
    requires |b| == 4
  {
    BigEndianOfValue(b);
    Widths();
    Value(b)
  }

  function U32Bytes(n: u32): (b: Bytes)
    ensures |b| == 4
  {
    BigEndian(n, 4)
  }

  lemma U32RoundTrip(n: u32)
    ensures U32Of(U32Bytes(n)) == n
  {
    Widths();
    ValueOfBigEndian(n, 4);
  }

  lemma U32BytesRoundTrip(b: Bytes)
    requires |b| == 4
    ensures U32Bytes(U32Of(b)) == b
  {
    BigEndianOfValue(b);
  }

  /** Two's complement. */
  function I64Bytes(t: i64): (b: Bytes)
    ensures |b| == 8
  {
    BigEndian(Wrap64(t), 8)
  }

  function I64Of(b: Bytes): i64
    requires |b| == 8
  {
    BigEndianOfValue(b);
    Widths();
    if Value(b) < 0x8000_0000_0000_0000 then Value(b) else Value(b) - TWO_TO_THE_64
  }

  lemma I64RoundTrip(t: i64)
    ensures I64Of(I64Bytes(t)) == t
  {
    Widths();
    ValueOfBigEndian(Wrap64(t), 8);
  }

  lemma I64BytesRoundTrip(b: Bytes)
    requires |b| == 8
    ensures I64Bytes(I64Of(b)) == b
  {
    BigEndianOfValue(b);
    Widths();
    assert Wrap64(I64Of(b)) == Value(b);
  }

  /** A negative time stamp has its sign bit first. */
  lemma MinusOneOnTheWire()
    ensures I64Bytes(-1) == [255, 255, 255, 255, 255, 255, 255, 255]
  {
    Widths();
    AllOnes(8);
  }

  // ----- the format -----

  /** The first 24 bytes, up to and including the packet identifier. */
  function HeaderBytes(p: Packet): (b: Bytes)
    ensures |b| == 24
  {
    U32Bytes(p.magic) + [p.version, p.kind, p.flags, p.ttl] + p.id
  }

  /** The body length is written as a uint32: longer bodies lose the high bits. */
  function Header(p: Packet): (b: Bytes)
    ensures |b| == HEADER
  {
    HeaderBytes(p) + (p.sender + (I64Bytes(p.timestamp) + U32Bytes(Wrap32(|p.body|))))
  }

  function Encoded(p: Packet): Bytes {
    Header(p) + (p.body + p.mac)
  }

  lemma FourBytes(b: Bytes, w: byte, x: byte, y: byte, z: byte)
    ensures b + [w] + [x] + [y] + [z] == b + [w, x, y, z]
  {
  }

  lemma Regrouped(b: Bytes, x: Bytes, y: Bytes, z: Bytes)
    ensures b + x + y == b + (x + y)
    ensures b + x + y + z == b + (x + (y + z))
  {
    assert x + y + z == x + (y + z);
  }

  method MarshalPacket(p: Packet) returns (buf: Bytes)
    ensures buf == Encoded(p)
  {
    buf := [];
    buf := buf + U32Bytes(p.magic);
    assert buf == U32Bytes(p.magic);
    FourBytes(buf, p.version, p.kind, p.flags, p.ttl);
    buf := buf + [p.version];
    buf := buf + [p.kind];
    buf := buf + [p.flags];
    buf := buf + [p.ttl];
    buf := buf + p.id;
    assert buf == HeaderBytes(p);
    Regrouped(buf, p.sender, I64Bytes(p.timestamp), U32Bytes(Wrap32(|p.body|)));
    buf := buf + p.sender;
    buf := buf + I64Bytes(p.timestamp);
    buf := buf + U32Bytes(Wrap32(|p.body|));
    assert buf == Header(p);
    Regrouped(buf, p.body, p.mac, []);
    buf := buf + p.body;
    buf := buf + p.mac;
  }

  /** The length check with its conversions to uint32 and its wrapping subtraction. */
  predicate LengthRejected(remaining: nat, bodyLen: u32) {
    Wrap32(Wrap32(remaining) - 32) < bodyLen
  }

  function Decoded(data: Bytes): Result<Packet> {
    if |data| < HEADER + MAC_SIZE then Err("packet too short")
    else if U32Of(data[..4]) != MAGIC then Err("bad magic")
    else if data[4] != VERSION then Err("unsupported version")
    else
      var bodyLen := U32Of(data[37..41]);
      if LengthRejected(|data| - HEADER, bodyLen) then Err("body_len exceeds remaining data")
      else
        NeverReadsPast(|data| - HEADER, bodyLen);
        Ok(PacketAt(data, bodyLen))
  }

  /** The fields at their places. */
  function PacketAt(data: Bytes, bodyLen: nat): Packet
    requires |data| >= 73 + bodyLen
  {
    Packet(U32Of(data[..4]), data[4], data[5], data[6], data[7], data[8..24], data[24..29],
           I64Of(data[29..37]), data[41..41 + bodyLen], data[41 + bodyLen..73 + bodyLen])
  }

  /** However long the input, and whether or not the subtraction wraps, a length that
      passes the check leaves room for the body and the code behind it. */
  lemma NeverReadsPast(remaining: nat, bodyLen: u32)
    requires remaining >= MAC_SIZE && !LengthRejected(remaining, bodyLen)
    ensures bodyLen + MAC_SIZE <= remaining
  {
  }

  /** Below 4 GiB nothing wraps: the check is the plain comparison. */
  lemma CheckIsExact(remaining: nat, bodyLen: u32)
    requires MAC_SIZE <= remaining < TWO_TO_THE_32
    ensures LengthRejected(remaining, bodyLen) <==> bodyLen + MAC_SIZE > remaining
  {
  }

  /** A reader over a byte slice, as the decoder uses it. */
  class Reader {
    const data: Bytes
    var at: nat

    constructor (data: Bytes)
      ensures this.data == data && at == 0
    {
      this.data, at := data, 0;
    }

    function Left(): int
      reads this
    {
      |data| - at
    }

    method Take(n: nat) returns (b: Bytes)
      requires at + n <= |data|
      modifies this
      ensures at == old(at) + n && b == data[old(at)..at] && |b| == n
    {
      b := data[at..at + n];
      at := at + n;
    }

    method TakeByte() returns (b: byte)
      requires at < |data|
      modifies this
      ensures at == old(at) + 1 && b == data[old(at)]
    {
      b := data[at];
      at := at + 1;
    }

    method TakeU32() returns (n: u32)
      requires at + 4 <= |data|
      modifies this
      ensures at == old(at) + 4 && n == U32Of(data[old(at)..at])
    {
      var b := Take(4);
      n := U32Of(b);
    }

    method TakeI64() returns (n: i64)
      requires at + 8 <= |data|
      modifies this
      ensures at == old(at) + 8 && n == I64Of(data[old(at)..at])
    {
      var b := Take(8);
      n := I64Of(b);
    }
  }

  /** The fields between the version and the time stamp. */
  method TakeRouting(reader: Reader) returns (kind: byte, flags: byte, ttl: byte, id: PacketId, sender: NodeBytes)
    requires reader.at == 5 && |reader.data| >= 29
    modifies reader
    ensures reader.at == 29
    ensures kind == reader.data[5] && flags == reader.data[6] && ttl == reader.data[7]
    ensures id == reader.data[8..24] && sender == reader.data[24..29]
  {
    kind := reader.TakeByte();
    flags := reader.TakeByte();
    ttl := reader.TakeByte();
    id := reader.Take(16);
    sender := reader.Take(5);
  }

  method UnmarshalPacket(data: Bytes) returns (r: Result<Packet>)
    ensures r == Decoded(data)
  {
    if |data| < HEADER + MAC_SIZE {
      return Err("packet too short");
    }
    var reader := new Reader(data);
    var magic := reader.TakeU32();
    assert data[0..4] == data[..4];
    if magic != MAGIC {
      return Err("bad magic");
    }
    var version := reader.TakeByte();
    if version != VERSION {
      return Err("unsupported version");
    }
    var kind, flags, ttl, id, sender := TakeRouting(reader);
    var timestamp := reader.TakeI64();
    var bodyLen := reader.TakeU32();
    if LengthRejected(reader.Left(), bodyLen) {
      return Err("body_len exceeds remaining data");
    }
    NeverReadsPast(reader.Left(), bodyLen);
    var body := reader.Take(bodyLen);
    var mac := reader.Take(32);
    return Ok(Packet(magic, version, kind, flags, ttl, id, sender, timestamp, body, mac));
  }

  /** Every packet the program sends starts with the letters MSGR and the version 1. */
  lemma EncodingStartsWithMsgr(p: Packet)
    requires Stamped(p)
    ensures Encoded(p)[..5] == ['M' as int, 'S' as int, 'G' as int, 'R' as int, 1]
  {
    HeaderFields(p);
    FourBytesOf(0x4D534752);
    assert Encoded(p)[..5] == Header(p)[..4] + [Header(p)[4]];
  }

  // ----- decoding what was encoded -----

  predicate Stamped(p: Packet) {
    p.magic == MAGIC && p.version == VERSION
  }

  lemma HeaderFields(p: Packet)
    ensures var h := Header(p);
            && h[..24] == HeaderBytes(p) && h[..4] == U32Bytes(p.magic)
            && h[4] == p.version && h[5] == p.kind && h[6] == p.flags && h[7] == p.ttl
            && h[8..24] == p.id && h[24..29] == p.sender && h[29..37] == I64Bytes(p.timestamp)
            && h[37..41] == U32Bytes(Wrap32(|p.body|))
  {
    var h := Header(p);
    assert h[..24] == HeaderBytes(p);
    assert h[..24][..4] == U32Bytes(p.magic) && h[..24][..4] == h[..4];
    assert h[..24][8..24] == p.id && h[..24][8..24] == h[8..24];
  }

  /** Reading a field of the header does not depend on what follows the header. */
  lemma PrefixSlices(h: Bytes, rest: Bytes, from: nat, to: nat)
    requires from <= to <= |h|
    ensures (h + rest)[from..to] == h[from..to]
  {
  }

  lemma HeaderReads(p: Packet, rest: Bytes)
    ensures var data := Header(p) + rest;
            && U32Of(data[..4]) == p.magic && data[4] == p.version && data[5] == p.kind && data[6] == p.flags
            && data[7] == p.ttl && data[8..24] == p.id && data[24..29] == p.sender && I64Of(data[29..37]) == p.timestamp
            && U32Of(data[37..41]) == Wrap32(|p.body|)
  {
    var data := Header(p) + rest;
    HeaderFields(p);
    U32RoundTrip(p.magic);
    U32RoundTrip(Wrap32(|p.body|));
    I64RoundTrip(p.timestamp);
    assert data[..4] == Header(p)[..4];
    PrefixSlices(Header(p), rest, 8, 24);
    PrefixSlices(Header(p), rest, 24, 29);
    PrefixSlices(Header(p), rest, 29, 37);
    PrefixSlices(Header(p), rest, 37, 41);
  }

  /** What the decoder makes of an encoded header followed by `rest`. */
  ghost predicate ReadsAs(r: Result<Packet>, p: Packet, rest: Bytes)
    requires |rest| >= MAC_SIZE
  {
    var n := Wrap32(|p.body|);
    if !Stamped(p) || LengthRejected(|rest|, n) then r.Err?
    else n + MAC_SIZE <= |rest| && r == Ok(p.(body := rest[..n], mac := rest[n..n + MAC_SIZE]))
  }

  lemma BodyAndCodeAt(h: Bytes, rest: Bytes, n: nat)
    requires |h| == 41 && |rest| >= n + MAC_SIZE
    ensures (h + rest)[41..41 + n] == rest[..n]
    ensures (h + rest)[41 + n..73 + n] == rest[n..n + MAC_SIZE]
  {
  }

  lemma DecodedAfterHeader(p: Packet, rest: Bytes)
    requires |rest| >= MAC_SIZE
    ensures ReadsAs(Decoded(Header(p) + rest), p, rest)
  {
    var n := Wrap32(|p.body|);
    HeaderReads(p, rest);
    if Stamped(p) && !LengthRejected(|rest|, n) {
      NeverReadsPast(|rest|, n);
      BodyAndCodeAt(Header(p), rest, n);
    }
  }

  /** A number is its remainder and whole multiples of 2^32. */
  lemma WrapIs(x: int, q: int, r: int)
    requires x == 0x1_0000_0000 * q + r && 0 <= r < 0x1_0000_0000
    ensures Wrap32(x) == r
  {
  }

  /** Wrapping before a subtraction makes no difference to the wrapped result. */
  lemma WrapUp(x: nat)
    ensures Wrap32(Wrap32(x) - 32) == Wrap32(x - 32)
  {
    var t := x % 0x1_0000_0000 - 32;
    var q, r := x / 0x1_0000_0000 + t / 0x1_0000_0000, t % 0x1_0000_0000;
    assert x - 32 == 0x1_0000_0000 * q + r;
    WrapIs(x - 32, q, r);
  }

  lemma CheckAfterEncoding(b: nat, s: nat)
    ensures LengthRejected(b + MAC_SIZE + s, Wrap32(b)) <==> Wrap32(b + s) < Wrap32(b)
  {
    WrapUp(b + MAC_SIZE + s);
  }

  predicate Recoverable(p: Packet, trailing: nat) {
    && Stamped(p)
    && |p.body| < TWO_TO_THE_32
    && Wrap32(|p.body| + trailing) >= |p.body|
  }

  lemma ReadsAsItself(r: Result<Packet>, p: Packet, suffix: Bytes)
    requires ReadsAs(r, p, p.body + p.mac + suffix)
    ensures r == Ok(p) <==> Recoverable(p, |suffix|)
    ensures |p.body| < TWO_TO_THE_32 ==> (r.Err? <==> !Recoverable(p, |suffix|))
  {
    var rest := p.body + p.mac + suffix;
    CheckAfterEncoding(|p.body|, |suffix|);
    if |p.body| < TWO_TO_THE_32 {
      assert rest[..|p.body|] == p.body && rest[|p.body|..|p.body| + MAC_SIZE] == p.mac;
    }
  }

  /** The decoder returns the packet if and only if its stamp is right, its body fits the
      length field, and what follows does not carry the remaining length past a multiple
      of 2^32: with nothing behind it, every body below 4 GiB. */
  lemma RoundTripIff(p: Packet, suffix: Bytes)
    ensures Decoded(Encoded(p) + suffix) == Ok(p) <==> Recoverable(p, |suffix|)
    ensures |p.body| < TWO_TO_THE_32 ==> (Decoded(Encoded(p) + suffix).Err? <==> !Recoverable(p, |suffix|))
  {
    var rest := p.body + p.mac + suffix;
    assert Encoded(p) + suffix == Header(p) + rest;
    DecodedAfterHeader(p, rest);
    ReadsAsItself(Decoded(Header(p) + rest), p, suffix);
  }

  /** In particular every packet sent below 4 GiB comes back. */
  lemma RoundTrip(p: Packet)
    requires Stamped(p) && |p.body| < TWO_TO_THE_32
    ensures Decoded(Encoded(p)) == Ok(p)
  {
    var none: Bytes := [];
    assert Recoverable(p, |none|);
    assert Encoded(p) + none == Encoded(p);
    RoundTripIff(p, none);
  }

  /** A trailing byte can make a valid encoding unreadable. */
  lemma SuffixCanBreak(p: Packet, suffix: Bytes)
    requires Stamped(p) && |p.body| == 0xFFFF_FFFF && |suffix| == 1
    ensures Decoded(Encoded(p) + suffix).Err?
  {
    assert Wrap32(|p.body| + 1) == 0;
    assert !Recoverable(p, |suffix|);
    RoundTripIff(p, suffix);
  }

  // ----- only encodings are accepted -----

  lemma HeaderOfFields(data: Bytes, n: nat)
    requires |data| >= 73 + n && n == U32Of(data[37..41])
    ensures Header(PacketAt(data, n)) == data[..41]
  {
    var p := PacketAt(data, n);
    U32BytesRoundTrip(data[..4]);
    I64BytesRoundTrip(data[29..37]);
    U32BytesRoundTrip(data[37..41]);
    assert Wrap32(|p.body|) == n;
    assert data[4..8] == [data[4], data[5], data[6], data[7]];
    assert HeaderBytes(p) == data[..24] by { Joined(data, 4, 8, 24); }
    Joined(data, 24, 29, 37);
    Joined(data, 24, 37, 41);
    Regrouped([], data[24..29], data[29..37], data[37..41]);
    assert data[..41] == data[..24] + data[24..41];
  }

  /** Adjacent slices join. */
  lemma Joined(data: Bytes, i: nat, j: nat, k: nat)
    requires i <= j <= k <= |data|
    ensures data[i..k] == data[i..j] + data[j..k]
    ensures data[..k] == data[..i] + data[i..j] + data[j..k]
  {
  }

  /** Whatever is accepted starts with the encoding of the packet returned. */
  lemma AcceptedIsEncoding(data: Bytes)
    requires Decoded(data).Ok?
    ensures var p := Decoded(data).value;
            |p.body| < TWO_TO_THE_32 && Extends(data, p)
  {
    var n := U32Of(data[37..41]);
    NeverReadsPast(|data| - HEADER, n);
    EncodedOfFields(data, n);
  }

  lemma EncodedOfFields(data: Bytes, n: nat)
    requires |data| >= 73 + n && n == U32Of(data[37..41])
    ensures Encoded(PacketAt(data, n)) == data[..73 + n]
  {
    HeaderOfFields(data, n);
    assert data[..73 + n] == data[..41] + (data[41..41 + n] + data[41 + n..73 + n]);
  }

  /** Below 4 GiB exactly the extensions of encodings with the right stamp are accepted. */
  lemma AcceptedIff(data: Bytes)
    requires |data| < TWO_TO_THE_32
    ensures Decoded(data).Ok? <==> exists p: Packet :: Extends(data, p)
  {
    if Decoded(data).Ok? {
      AcceptedIsEncoding(data);
      assert Extends(data, Decoded(data).value);
    }
    forall p: Packet | Extends(data, p)
      ensures Decoded(data) == Ok(p)
    {
      ExtensionDecodes(data, p);
    }
  }

  predicate Extends(data: Bytes, p: Packet) {
    Stamped(p) && Encoded(p) <= data
  }

  lemma ExtensionDecodes(data: Bytes, p: Packet)
    requires |data| < TWO_TO_THE_32 && Extends(data, p)
    ensures Decoded(data) == Ok(p)
  {
    var suffix := data[|Encoded(p)|..];
    assert data == Encoded(p) + suffix;
    RoundTripIff(p, suffix);
  }

  // ----- what the authentication code covers -----

  function MacInput(p: Packet): Bytes {
    HeaderBytes(p) + p.body
  }

  /** The authenticated header is the first 24 bytes on the wire, and the input of the
      code tells apart any two packets that differ in one of those fields or the body;
      sender and timestamp are not part of it. */
  lemma MacInputInjective(p: Packet, q: Packet)
    ensures HeaderBytes(p) == Encoded(p)[..24]
    ensures MacInput(p) == MacInput(q) <==>
            && p.magic == q.magic && p.version == q.version && p.kind == q.kind && p.flags == q.flags
            && p.ttl == q.ttl && p.id == q.id && p.body == q.body
  {
    HeaderFields(p);
    HeaderFields(q);
    assert Encoded(p)[..24] == Header(p)[..24];
    if MacInput(p) == MacInput(q) {
      assert HeaderBytes(p) == MacInput(p)[..24] == MacInput(q)[..24] == HeaderBytes(q);
      assert p.body == MacInput(p)[24..] == MacInput(q)[24..] == q.body;
      assert Header(p)[..24][..4] == Header(p)[..4] && Header(q)[..24][..4] == Header(q)[..4];
      U32RoundTrip(p.magic);
      U32RoundTrip(q.magic);
      assert forall i :: 4 <= i < 8 ==> Header(p)[i] == Header(p)[..24][i] && Header(q)[i] == Header(q)[..24][i];
      assert Header(p)[..24][8..24] == Header(p)[8..24] && Header(q)[..24][8..24] == Header(q)[8..24];
    }
  }
}
