/** The whole way of a direct-chat payload: compress, encrypt, put into a message, a
    packet and bytes; and back on the other side. */
module Pipeline {
  import opened FreeKeys
  import opened Prelude
  import P = Primitives
  import opened Ratchet
  import Packets
  import Compression

  /** The message as it travels inside a packet body. */
  datatype Message = Message(id: Bytes, chat: Bytes, sender: string, payload: Bytes)

  /** The JSON library. */
  datatype Json = Json(write: Message -> Bytes, read: Bytes -> Option<Message>)

  datatype Libraries<!K> = Libraries(crypto: P.Suite<K>, codecs: Compression.Codecs, json: Json)

  ghost predicate Lawful<K(!new)>(libs: Libraries<K>) {
    && P.Lawful(libs.crypto)
    && Compression.Lawful(libs.codecs)
    && forall m: Message :: libs.json.read(libs.json.write(m)) == Some(m)
  }

  /** One end of a direct chat, as far as encryption goes. */
  datatype Endpoint<+K> = Endpoint(e2e: bool, session: Option<Session<K>>, priv: K, peerPub: Option<K>)

  /** What frames a message: identifiers, type, time and the authentication code. */
  datatype Frame = Frame(id: Packets.PacketId, node: Packets.NodeBytes, kind: byte, timestamp: Packets.i64,
                         mac: Packets.Mac)

  const FLAGS: byte := 7    // compressed, encrypted, reliable: set on every message

  /** Packet types handled before a message body is even parsed. */
  const CONTROL: set<byte> := {0x20, 0x30, 0x41, 0xF0, 0xF1, 0xF2, 0xF3}

  /** The key of a peer without a session: one Diffie-Hellman, no ratchet. */
  function StaticKey<K>(crypto: P.Suite<K>, priv: K, peerPub: K): Option<K> {
    match crypto.dh(priv, peerPub)
    case None => None
    case Some(shared) => Some(crypto.kdf(shared, P.ZeroSalt, "ZT-Messenger-v1-Session"))
  }

  // ----- the sending side -----

  datatype Sealed<+K> = Sealed(after: Endpoint<K>, payload: Result<Bytes>)

  function EncryptForChat<K>(crypto: P.Suite<K>, from: Endpoint<K>, chat: Bytes, payload: Bytes,
                             nonce: Bytes): Sealed<K> {
    if !from.e2e then Sealed(from, Ok(payload))
    else if from.session.Some? then
      var s := from.session.value;
      Sealed(from.(session := Some(AfterSend(crypto, s))), Ok(crypto.seal(SendKey(crypto, s), nonce, payload, chat)))
    else if from.peerPub.None? then Sealed(from, Ok(payload))
    else
      match StaticKey(crypto, from.priv, from.peerPub.value)
      case None => Sealed(from, Err("low order point"))
      case Some(key) => Sealed(from, Ok(crypto.seal(key, nonce, payload, chat)))
  }

  function PacketOf<K>(libs: Libraries<K>, frame: Frame, msg: Message): Packets.Packet {
    Packets.Packet(Packets.MAGIC, Packets.VERSION, frame.kind, FLAGS, 64, frame.id, frame.node, frame.timestamp,
                   libs.json.write(msg), frame.mac)
  }

  /** The bytes sent, and the sender afterwards. */
  function Send<K>(libs: Libraries<K>, from: Endpoint<K>, msg: Message, frame: Frame, nonce: Bytes)
    : (Endpoint<K>, Result<Bytes>)
  {
    var packed := Compression.Packed(libs.codecs.zstdEncode, Compression.ZSTD, msg.payload);
    var sealed := EncryptForChat(libs.crypto, from, msg.chat, packed, nonce);
    match sealed.payload
    case Err(e) => (sealed.after, Err(e))
    case Ok(bytes) => (sealed.after, Ok(Packets.Encoded(PacketOf(libs, frame, msg.(payload := bytes)))))
  }

  // ----- the receiving side -----

  function DecryptFromPeer<K>(crypto: P.Suite<K>, to: Endpoint<K>, chat: Bytes, payload: Bytes): Sealed<K> {
    if !to.e2e then Sealed(to, Ok(payload))
    else if to.session.Some? then
      var s := to.session.value;
      Sealed(to.(session := Some(AfterReceive(crypto, s))),
             Compression.OrError(crypto.open(ReceiveKey(crypto, s), payload, chat)))
    else if to.peerPub.None? then Sealed(to, Ok(payload))
    else
      match StaticKey(crypto, to.priv, to.peerPub.value)
      case None => Sealed(to, Err("low order point"))
      case Some(key) => Sealed(to, Compression.OrError(crypto.open(key, payload, chat)))
  }

  function Receive<K>(libs: Libraries<K>, to: Endpoint<K>, data: Bytes): (Endpoint<K>, Result<Bytes>) {
    match Packets.Decoded(data)
    case Err(e) => (to, Err(e))
    case Ok(packet) =>
      if packet.kind in CONTROL then (to, Err("not a message"))
      else
        match libs.json.read(packet.body)
        case None => (to, Err("bad message body"))
        case Some(msg) =>
          var plain := DecryptFromPeer(libs.crypto, to, msg.chat, msg.payload);
          match plain.payload
          case Err(e) => (plain.after, Err(e))
          case Ok(packed) => (plain.after, Compression.Decompress(libs.codecs, packed))
  }

  // ----- ends that understand each other -----

  /** Encryption off at both ends. */
  predicate BothPlain<K>(from: Endpoint<K>, to: Endpoint<K>) {
    !from.e2e && !to.e2e
  }

  /** No session at either end, and each knows the other's identity key. */
  predicate BothStatic<K(==)>(crypto: P.Suite<K>, from: Endpoint<K>, to: Endpoint<K>) {
    && from.e2e && to.e2e && from.session.None? && to.session.None?
    && from.peerPub == Some(crypto.pub(to.priv)) && to.peerPub == Some(crypto.pub(from.priv))
  }

  /** Sessions whose chains and counters meet in this direction. */
  predicate BothRatcheting<K(==)>(from: Endpoint<K>, to: Endpoint<K>) {
    && from.e2e && to.e2e && from.session.Some? && to.session.Some?
    && to.session.value.recvChain == from.session.value.sendChain
    && to.session.value.recvCounter == from.session.value.sendCounter
  }

  predicate Matched<K(==)>(crypto: P.Suite<K>, from: Endpoint<K>, to: Endpoint<K>) {
    BothPlain(from, to) || BothStatic(crypto, from, to) || BothRatcheting(from, to)
  }

  lemma StaticKeysAgree<K(!new)>(crypto: P.Suite<K>, a: K, b: K)
    requires P.Lawful(crypto)
    ensures StaticKey(crypto, a, crypto.pub(b)).Some?
    ensures StaticKey(crypto, a, crypto.pub(b)) == StaticKey(crypto, b, crypto.pub(a))
  {
    assert crypto.dh(a, crypto.pub(b)) == crypto.dh(b, crypto.pub(a));
  }

  /** In the free algebra two peers' static key is theirs alone, and whoever holds it still
      cannot compute the secret it was derived from. */
  lemma StaticKeyIsTheirs(a: nat, b: nat, c: nat, d: nat)
    ensures StaticKey(FREE, Atom(a), Public(Atom(b))) == StaticKey(FREE, Atom(c), Public(Atom(d))) <==>
            (a == c && b == d) || (a == d && b == c)
    ensures !Computable({StaticKey(FREE, Atom(a), Public(Atom(b))).value}, Shared({Atom(a), Atom(b)}))
  {
    assert {Atom(a), Atom(b)} == {Atom(b), Atom(a)};
    assert Atom(a) in {Atom(a), Atom(b)} && Atom(b) in {Atom(a), Atom(b)};
    assert Atom(c) in {Atom(c), Atom(d)} && Atom(d) in {Atom(c), Atom(d)};
  }

  /** Decryption undoes encryption on matched ends and leaves them matched. */
  lemma EncryptionRestores<K(!new)>(crypto: P.Suite<K>, from: Endpoint<K>, to: Endpoint<K>, chat: Bytes,
                                    payload: Bytes, nonce: Bytes)
    requires P.Lawful(crypto) && Matched(crypto, from, to)
    ensures var s := EncryptForChat(crypto, from, chat, payload, nonce);
            && s.payload.Ok?
            && var r := DecryptFromPeer(crypto, to, chat, s.payload.value);
               r.payload == Ok(payload) && Matched(crypto, s.after, r.after)
  {
    if BothStatic(crypto, from, to) {
      StaticKeysAgree(crypto, from.priv, to.priv);
    }
  }

  datatype Outgoing = Outgoing(msg: Message, frame: Frame, nonce: Bytes)

  /** A message of a type that reaches the payload path and whose body fits the length field. */
  predicate Carried<K>(libs: Libraries<K>, from: Endpoint<K>, out: Outgoing) {
    var packed := Compression.Packed(libs.codecs.zstdEncode, Compression.ZSTD, out.msg.payload);
    var sealed := EncryptForChat(libs.crypto, from, out.msg.chat, packed, out.nonce).payload;
    && out.frame.kind !in CONTROL
    && (sealed.Ok? ==> |libs.json.write(out.msg.(payload := sealed.value))| < TWO_TO_THE_32)
  }

  /** Whatever the payload, what the receiver gets out is what the sender put in, and
      both are ready for the next message. */
  lemma PayloadIdentity<K(!new)>(libs: Libraries<K>, from: Endpoint<K>, to: Endpoint<K>, out: Outgoing)
    requires Lawful(libs) && Matched(libs.crypto, from, to) && Carried(libs, from, out)
    ensures var (from', data) := Send(libs, from, out.msg, out.frame, out.nonce);
            && data.Ok?
            && var (to', got) := Receive(libs, to, data.value);
               && got == Ok(out.msg.payload) && Matched(libs.crypto, from', to')
               && (!BothRatcheting(from, to) ==> from' == from && to' == to)
  {
    var msg := out.msg;
    var packed := Compression.Packed(libs.codecs.zstdEncode, Compression.ZSTD, msg.payload);
    Compression.CompressionRestores(libs.codecs, msg.payload);
    EncryptionRestores(libs.crypto, from, to, msg.chat, packed, out.nonce);
    var sealed := EncryptForChat(libs.crypto, from, msg.chat, packed, out.nonce);
    var inner := msg.(payload := sealed.payload.value);
    Packets.RoundTrip(PacketOf(libs, out.frame, inner));
    assert libs.json.read(libs.json.write(inner)) == Some(inner);
  }

  // ----- what travels -----

  /** The key the sender seals its next payload under, if encryption is on and there is a
      session or a known identity key to take it from. */
  function SealingKey<K>(crypto: P.Suite<K>, from: Endpoint<K>): Option<K> {
    if !from.e2e then None
    else if from.session.Some? then Some(PacketKey(crypto, from.session.value.sendChain,
                                                   NextCounter(from.session.value.sendCounter)))
    else if from.peerPub.Some? then StaticKey(crypto, from.priv, from.peerPub.value)
    else None
  }

  /** The message inside a packet on the wire, as anybody can parse it. */
  function OnTheWire<K>(libs: Libraries<K>, data: Bytes): Option<Message> {
    match Packets.Decoded(data)
    case Err(_) => None
    case Ok(packet) => libs.json.read(packet.body)
  }

  /** With a sealing key the wire carries the payload compressed and then sealed under it,
      bound to the chat; without one, compressed only. The rest of the message is the
      sender's, and the packet is marked compressed, encrypted and reliable either way. */
  lemma WireCarriesSealed<K(!new)>(libs: Libraries<K>, from: Endpoint<K>, out: Outgoing)
    requires Lawful(libs) && Carried(libs, from, out)
    requires from.e2e && from.session.None? && from.peerPub.Some? ==> SealingKey(libs.crypto, from).Some?
    ensures var data := Send(libs, from, out.msg, out.frame, out.nonce).1;
            var packed := Compression.Packed(libs.codecs.zstdEncode, Compression.ZSTD, out.msg.payload);
            var key := SealingKey(libs.crypto, from);
            && data.Ok?
            && OnTheWire(libs, data.value) == Some(out.msg.(payload :=
                 if key.Some? then libs.crypto.seal(key.value, out.nonce, packed, out.msg.chat) else packed))
            && Packets.Decoded(data.value).value.kind == out.frame.kind
            && Packets.Decoded(data.value).value.flags == 7
  {
    var packed := Compression.Packed(libs.codecs.zstdEncode, Compression.ZSTD, out.msg.payload);
    var sealed := EncryptForChat(libs.crypto, from, out.msg.chat, packed, out.nonce);
    var inner := out.msg.(payload := sealed.payload.value);
    Packets.RoundTrip(PacketOf(libs, out.frame, inner));
    assert libs.json.read(libs.json.write(inner)) == Some(inner);
  }

  /** Packets of the control types, and bytes that are no packet or hold no message, touch
      no session and yield no payload. */
  lemma OnlyMessagesAreOpened<K>(libs: Libraries<K>, to: Endpoint<K>, data: Bytes)
    requires || Packets.Decoded(data).Err?
             || Packets.Decoded(data).value.kind in CONTROL
             || libs.json.read(Packets.Decoded(data).value.body).None?
    ensures Receive(libs, to, data).0 == to && Receive(libs, to, data).1.Err?
  {
  }

  // ----- many messages -----

  function SendAll<K>(libs: Libraries<K>, from: Endpoint<K>, outs: seq<Outgoing>): seq<Result<Bytes>>
    decreases |outs|
  {
    if outs == [] then []
    else
      var (from', data) := Send(libs, from, outs[0].msg, outs[0].frame, outs[0].nonce);
      [data] + SendAll(libs, from', outs[1..])
  }

  function ReceiveAll<K>(libs: Libraries<K>, to: Endpoint<K>, datas: seq<Result<Bytes>>): seq<Result<Bytes>>
    decreases |datas|
  {
    if datas == [] then []
    else if datas[0].Err? then [datas[0]] + ReceiveAll(libs, to, datas[1..])
    else
      var (to', got) := Receive(libs, to, datas[0].value);
      [got] + ReceiveAll(libs, to', datas[1..])
  }

  ghost predicate AllCarried<K>(libs: Libraries<K>, from: Endpoint<K>, outs: seq<Outgoing>)
    decreases |outs|
  {
    outs == [] ||
    (Carried(libs, from, outs[0]) &&
     AllCarried(libs, Send(libs, from, outs[0].msg, outs[0].frame, outs[0].nonce).0, outs[1..]))
  }

  function PayloadsOf(outs: seq<Outgoing>): seq<Result<Bytes>>
    decreases |outs|
  {
    if outs == [] then [] else [Ok(outs[0].msg.payload)] + PayloadsOf(outs[1..])
  }

  /** In order and once each, every payload of a stream comes out, on all three paths. */
  lemma {:induction false} StreamIdentity<K(!new)>(libs: Libraries<K>, from: Endpoint<K>, to: Endpoint<K>,
                                                   outs: seq<Outgoing>)
    requires Lawful(libs) && Matched(libs.crypto, from, to) && AllCarried(libs, from, outs)
    ensures ReceiveAll(libs, to, SendAll(libs, from, outs)) == PayloadsOf(outs)
    decreases |outs|
  {
    if outs != [] {
      PayloadIdentity(libs, from, to, outs[0]);
      var (from', data) := Send(libs, from, outs[0].msg, outs[0].frame, outs[0].nonce);
      var (to', got) := Receive(libs, to, data.value);
      StreamIdentity(libs, from', to', outs[1..]);
      assert SendAll(libs, from, outs)[1..] == SendAll(libs, from', outs[1..]);
    }
  }

  /** Each message on the wire as the sender would put it there from one state. */
  function SentEach<K>(libs: Libraries<K>, from: Endpoint<K>, outs: seq<Outgoing>): seq<Result<Bytes>>
    decreases |outs|
  {
    if outs == [] then []
    else [Send(libs, from, outs[0].msg, outs[0].frame, outs[0].nonce).1] + SentEach(libs, from, outs[1..])
  }

  /** Without a ratchet the order does not matter, nor do losses and repeats: whatever
      messages of the sender arrive, in whatever sequence, each comes out as it went in. */
  lemma {:induction false} AnyOrderIdentity<K(!new)>(libs: Libraries<K>, from: Endpoint<K>, to: Endpoint<K>,
                                                     arriving: seq<Outgoing>)
    requires Lawful(libs) && (BothPlain(from, to) || BothStatic(libs.crypto, from, to))
    requires forall out <- arriving :: Carried(libs, from, out)
    ensures ReceiveAll(libs, to, SentEach(libs, from, arriving)) == PayloadsOf(arriving)
    decreases |arriving|
  {
    if arriving != [] {
      var first, rest := arriving[0], arriving[1..];
      PayloadIdentity(libs, from, to, first);
      AnyOrderIdentity(libs, from, to, rest);
      assert SentEach(libs, from, arriving)[1..] == SentEach(libs, from, rest);
    }
  }
}
