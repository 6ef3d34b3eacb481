/** Two sessions joined by a FIFO channel in each direction, run by arbitrary
    interleavings of encryptions and deliveries. A public key produced by a
    Diffie-Hellman step travels in the same FIFO as the packets. */
module RatchetNetwork {
  import opened Prelude
  import opened Primitives
  import opened Ratchet

  datatype Wire<+K> =
    | Packet(header: Bytes, sealed: Bytes)
    | NewKey(pub: K)

  /** One party: its session, the channel into it, the bodies it encrypted so far
      and what each packet delivered to it decrypted to. */
  datatype Side<+K> = Side(session: Session<K>, inbox: seq<Wire<K>>, sent: seq<Bytes>, got: seq<Option<Bytes>>)

  datatype Net<+K> = Net(left: Side<K>, right: Side<K>)

  datatype Party = Left | Right

  datatype Action<+K> =
    | Encrypt(header: Bytes, body: Bytes, nonce: Bytes)
    | Deliver(entropy: Option<K>)

  datatype Event<+K> = Event(who: Party, action: Action<K>)

  function Mirror<K>(net: Net<K>): Net<K> {
    Net(net.right, net.left)
  }

  // ----- steps -----

  function LeftEncrypts<K>(suite: Suite<K>, net: Net<K>, header: Bytes, body: Bytes, nonce: Bytes): Net<K> {
    var s := net.left.session;
    var packet := Packet(header, suite.seal(SendKey(suite, s), nonce, body, header));
    Net(net.left.(session := AfterSend(suite, s), sent := net.left.sent + [body]),
        net.right.(inbox := net.right.inbox + [packet]))
  }

  /** The head of the left inbox: a packet is decrypted, a key makes a ratchet step
      whose own new key, if the step completes, is put on the other channel. */
  function LeftReceives<K>(suite: Suite<K>, net: Net<K>, entropy: Option<K>): Net<K> {
    if net.left.inbox == [] then net
    else
      var s := net.left.session;
      var rest := net.left.inbox[1..];
      match net.left.inbox[0]
      case Packet(header, sealed) =>
        var body := suite.open(ReceiveKey(suite, s), sealed, header);
        Net(net.left.(session := AfterReceive(suite, s), inbox := rest, got := net.left.got + [body]), net.right)
      case NewKey(pub) =>
        var outcome := Ratcheted(suite, s, pub, entropy);
        Net(net.left.(session := outcome.session, inbox := rest),
            if outcome.ok
            then net.right.(inbox := net.right.inbox + [NewKey(outcome.session.localPub)])
            else net.right)
  }

  function LeftActs<K>(suite: Suite<K>, net: Net<K>, action: Action<K>): Net<K> {
    match action
    case Encrypt(header, body, nonce) => LeftEncrypts(suite, net, header, body, nonce)
    case Deliver(entropy) => LeftReceives(suite, net, entropy)
  }

  function Step<K>(suite: Suite<K>, net: Net<K>, event: Event<K>): Net<K> {
    match event.who
    case Left => LeftActs(suite, net, event.action)
    case Right => Mirror(LeftActs(suite, Mirror(net), event.action))
  }

  function Run<K>(suite: Suite<K>, net: Net<K>, events: seq<Event<K>>): Net<K>
    decreases |events|
  {
    if events == [] then net
    else Run(suite, Step(suite, net, events[0]), events[1..])
  }

  // ----- what is in a channel -----

  function Packets<K>(channel: seq<Wire<K>>): nat {
    if channel == [] then 0
    else (if channel[0].Packet? then 1 else 0) + Packets(channel[1..])
  }

  function Keys<K>(channel: seq<Wire<K>>): nat {
    if channel == [] then 0
    else (if channel[0].NewKey? then 1 else 0) + Keys(channel[1..])
  }

  lemma {:induction false} CountsOfAppend<K>(channel: seq<Wire<K>>, w: Wire<K>)
    ensures Packets(channel + [w]) == Packets(channel) + (if w.Packet? then 1 else 0)
    ensures Keys(channel + [w]) == Keys(channel) + (if w.NewKey? then 1 else 0)
  {
    if channel == [] {
      assert (channel + [w])[1..] == [];
    } else {
      assert (channel + [w])[1..] == channel[1..] + [w];
      CountsOfAppend(channel[1..], w);
    }
  }

  // ----- agreement -----

  /** Receiver `r`, reading `channel` to its end, opens every packet to the bodies in
      `expected`, takes at most the sender's current public key on the way, and ends
      with the chain and counter the sender `s` has now. */
  ghost predicate InStep<K>(suite: Suite<K>, r: Session<K>, channel: seq<Wire<K>>, s: Session<K>, expected: seq<Bytes>)
    decreases |channel|
  {
    if channel == [] then
      expected == [] && r.recvChain == s.sendChain && r.recvCounter == s.sendCounter
    else
      match channel[0]
      case Packet(header, sealed) =>
        && expected != []
        && suite.open(ReceiveKey(suite, r), sealed, header) == Some(expected[0])
        && InStep(suite, AfterReceive(suite, r), channel[1..], s, expected[1..])
      case NewKey(pub) =>
        && pub == s.localPub
        && suite.dh(r.localPriv, pub).Some?
        && InStep(suite, Followed(suite, r, pub, suite.dh(r.localPriv, pub).value), channel[1..], s, expected)
  }

  /** Everything delivered decrypted to what was sent, in order. */
  ghost predicate Delivered(got: seq<Option<Bytes>>, sent: seq<Bytes>) {
    && |got| <= |sent|
    && forall i :: 0 <= i < |got| ==> got[i] == Some(sent[i])
  }

  ghost predicate Flow<K>(suite: Suite<K>, from: Side<K>, to: Side<K>) {
    && Delivered(to.got, from.sent)
    && InStep(suite, to.session, to.inbox, from.session, from.sent[|to.got|..])
  }

  ghost predicate Keyed<K>(suite: Suite<K>, s: Session<K>) {
    s.localPub == suite.pub(s.localPriv)
  }

  /** `ahead` has made the step its peer has not yet followed. */
  ghost predicate OneRootAhead<K>(suite: Suite<K>, ahead: Session<K>, behind: Session<K>) {
    && suite.dh(behind.localPriv, ahead.localPub).Some?
    && ahead.rootKey == RootAfter(suite, behind.rootKey, suite.dh(behind.localPriv, ahead.localPub).value)
  }

  ghost predicate Common<K>(suite: Suite<K>, net: Net<K>) {
    && Keyed(suite, net.left.session)
    && Keyed(suite, net.right.session)
    && Flow(suite, net.left, net.right)
    && Flow(suite, net.right, net.left)
  }

  ghost predicate LeftAhead<K>(suite: Suite<K>, net: Net<K>) {
    && Common(suite, net)
    && OneRootAhead(suite, net.left.session, net.right.session)
    && Keys(net.right.inbox) == 1
    && Keys(net.left.inbox) == 0
  }

  /** Reached only when the random source failed in the middle of a step. */
  ghost predicate Level<K>(suite: Suite<K>, net: Net<K>) {
    && Common(suite, net)
    && net.left.session.rootKey == net.right.session.rootKey
    && Keys(net.right.inbox) == 0
    && Keys(net.left.inbox) == 0
  }

  ghost predicate Agreed<K>(suite: Suite<K>, net: Net<K>) {
    LeftAhead(suite, net) || LeftAhead(suite, Mirror(net)) || Level(suite, net)
  }

  // ----- lemmas about one channel -----

  /** Without a key in the channel only the receiving half of `r` and the sending
      half of `s` matter. */
  lemma {:induction false} InStepFrame<K>(suite: Suite<K>, r: Session<K>, r': Session<K>, channel: seq<Wire<K>>,
                                          s: Session<K>, s': Session<K>, expected: seq<Bytes>)
    requires InStep(suite, r, channel, s, expected)
    requires r'.recvChain == r.recvChain && r'.recvCounter == r.recvCounter
    requires s'.sendChain == s.sendChain && s'.sendCounter == s.sendCounter
    requires Keys(channel) == 0 || (r'.rootKey == r.rootKey && r'.localPriv == r.localPriv && s'.localPub == s.localPub)
    ensures InStep(suite, r', channel, s', expected)
    decreases |channel|
  {
    if channel != [] {
      match channel[0]
      case Packet(_, _) =>
        InStepFrame(suite, AfterReceive(suite, r), AfterReceive(suite, r'), channel[1..], s, s', expected[1..]);
      case NewKey(pub) =>
        var shared := suite.dh(r.localPriv, pub).value;
        InStepFrame(suite, Followed(suite, r, pub, shared), Followed(suite, r', pub, shared), channel[1..], s, s',
                    expected);
    }
  }

  lemma {:induction false} PacketAppended<K(!new)>(suite: Suite<K>, r: Session<K>, channel: seq<Wire<K>>, s: Session<K>,
                                                   expected: seq<Bytes>, header: Bytes, body: Bytes, nonce: Bytes)
    requires Lawful(suite)
    requires InStep(suite, r, channel, s, expected)
    ensures InStep(suite, r, channel + [Packet(header, suite.seal(SendKey(suite, s), nonce, body, header))],
                   AfterSend(suite, s), expected + [body])
    decreases |channel|
  {
    var packet := Packet(header, suite.seal(SendKey(suite, s), nonce, body, header));
    var longer := channel + [packet];
    if channel == [] {
      assert longer[1..] == [] && (expected + [body])[1..] == [];
      assert ReceiveKey(suite, r) == SendKey(suite, s);
    } else {
      assert longer[1..] == channel[1..] + [packet];
      match channel[0]
      case Packet(_, _) =>
        assert (expected + [body])[1..] == expected[1..] + [body];
        PacketAppended(suite, AfterReceive(suite, r), channel[1..], s, expected[1..], header, body, nonce);
      case NewKey(pub) =>
        PacketAppended(suite, Followed(suite, r, pub, suite.dh(r.localPriv, pub).value), channel[1..], s, expected,
                       header, body, nonce);
    }
  }

  /** A sender that led to a new root announces its key behind the packets of its old chain. */
  lemma {:induction false} KeyAppended<K>(suite: Suite<K>, r: Session<K>, channel: seq<Wire<K>>, s: Session<K>,
                                          s': Session<K>, expected: seq<Bytes>)
    requires InStep(suite, r, channel, s, expected)
    requires Keys(channel) == 0
    requires suite.dh(r.localPriv, s'.localPub).Some?
    requires s'.sendChain == ChainAfter(suite, r.rootKey, suite.dh(r.localPriv, s'.localPub).value)
    requires s'.sendCounter == s.sendCounter
    ensures InStep(suite, r, channel + [NewKey(s'.localPub)], s', expected)
    decreases |channel|
  {
    var longer := channel + [NewKey(s'.localPub)];
    if channel == [] {
      assert longer[1..] == [];
    } else {
      assert longer[1..] == channel[1..] + [NewKey(s'.localPub)];
      KeyAppended(suite, AfterReceive(suite, r), channel[1..], s, s', expected[1..]);
    }
  }

  /** The counters differ by exactly the packets in flight, and so do the logs. */
  lemma {:induction false} CountersAcrossChannel<K>(suite: Suite<K>, r: Session<K>, channel: seq<Wire<K>>,
                                                    s: Session<K>, expected: seq<Bytes>)
    requires InStep(suite, r, channel, s, expected)
    ensures |expected| == Packets(channel)
    ensures Wrap64(r.recvCounter + Packets(channel)) == Wrap64(s.sendCounter)
    decreases |channel|
  {
    if channel != [] {
      match channel[0]
      case Packet(_, _) =>
        CountersAcrossChannel(suite, AfterReceive(suite, r), channel[1..], s, expected[1..]);
        ModularSuccessor(r.recvCounter, Packets(channel[1..]));
      case NewKey(pub) =>
        CountersAcrossChannel(suite, Followed(suite, r, pub, suite.dh(r.localPriv, pub).value), channel[1..], s,
                              expected);
    }
  }

  lemma ModularSuccessor(n: nat, k: nat)
    ensures Wrap64(NextCounter(n) + k) == Wrap64(n + 1 + k)
  {
  }

  // ----- steps keep agreement -----

  lemma FlowAfterEncrypt<K(!new)>(suite: Suite<K>, net: Net<K>, header: Bytes, body: Bytes, nonce: Bytes)
    requires Lawful(suite) && Common(suite, net)
    ensures Common(suite, LeftEncrypts(suite, net, header, body, nonce))
  {
    var after := LeftEncrypts(suite, net, header, body, nonce);
    var pending := net.left.sent[|net.right.got|..];
    PacketAppended(suite, net.right.session, net.right.inbox, net.left.session, pending, header, body, nonce);
    assert after.left.sent[|after.right.got|..] == pending + [body];
    InStepFrame(suite, net.left.session, after.left.session, net.left.inbox, net.right.session, after.right.session,
                net.right.sent[|net.left.got|..]);
  }

  lemma EncryptKeepsAgreement<K(!new)>(suite: Suite<K>, net: Net<K>, header: Bytes, body: Bytes, nonce: Bytes)
    requires Lawful(suite) && Agreed(suite, net)
    ensures Agreed(suite, LeftEncrypts(suite, net, header, body, nonce))
    ensures LeftAhead(suite, net) ==> LeftAhead(suite, LeftEncrypts(suite, net, header, body, nonce))
  {
    FlowAfterEncrypt(suite, net, header, body, nonce);
    CountsOfAppend(net.right.inbox, LeftEncrypts(suite, net, header, body, nonce).right.inbox[|net.right.inbox|]);
  }

  lemma PacketKeepsAgreement<K>(suite: Suite<K>, net: Net<K>, entropy: Option<K>)
    requires Agreed(suite, net)
    requires net.left.inbox != [] && net.left.inbox[0].Packet?
    ensures Agreed(suite, LeftReceives(suite, net, entropy))
  {
    var after := LeftReceives(suite, net, entropy);
    var expected := net.right.sent[|net.left.got|..];
    assert net.right.sent[|after.left.got|..] == expected[1..];
    InStepFrame(suite, net.right.session, after.right.session, net.right.inbox, net.left.session, after.left.session,
                net.left.sent[|net.right.got|..]);
    assert Common(suite, after);
  }

  /** A completed Diffie-Hellman step restores "one root ahead" with the roles swapped. */
  lemma RatchetSwapsRoles<K(!new)>(suite: Suite<K>, net: Net<K>, priv: K)
    requires Lawful(suite)
    requires LeftAhead(suite, Mirror(net))
    requires net.left.inbox != [] && net.left.inbox[0].NewKey?
    ensures LeftAhead(suite, LeftReceives(suite, net, Some(priv)))
  {
    var after := LeftReceives(suite, net, Some(priv));
    var s, peer, pub := net.left.session, net.right.session, net.left.inbox[0].pub;
    var shared, shared2 := suite.dh(s.localPriv, pub).value, suite.dh(priv, pub).value;
    assert suite.dh(priv, pub) == suite.dh(peer.localPriv, suite.pub(priv));

    var followed := Followed(suite, s, pub, shared);
    assert followed.rootKey == peer.rootKey;
    assert after.left.session == Led(suite, followed, priv, shared2);
    InStepFrame(suite, followed, after.left.session, after.left.inbox, peer, peer, net.right.sent[|net.left.got|..]);
    KeyAppended(suite, peer, net.right.inbox, s, after.left.session, net.left.sent[|net.right.got|..]);
    CountsOfAppend(net.right.inbox, NewKey(suite.pub(priv)));
  }

  /** When no fresh pair can be drawn the step stops halfway: both roots are equal and
      traffic goes on under the old sending chain. */
  lemma HalfStepLevels<K(!new)>(suite: Suite<K>, net: Net<K>)
    requires Lawful(suite)
    requires LeftAhead(suite, Mirror(net))
    requires net.left.inbox != [] && net.left.inbox[0].NewKey?
    ensures Level(suite, LeftReceives(suite, net, None))
  {
    var after := LeftReceives(suite, net, None);
    InStepFrame(suite, net.right.session, net.right.session, net.right.inbox, net.left.session, after.left.session,
                net.left.sent[|net.right.got|..]);
  }

  /** A delivered key keeps "one root ahead" if and only if a fresh pair could be drawn. */
  lemma KeyKeepsOneAheadIff<K(!new)>(suite: Suite<K>, net: Net<K>, entropy: Option<K>)
    requires Lawful(suite)
    requires LeftAhead(suite, Mirror(net))
    requires net.left.inbox != [] && net.left.inbox[0].NewKey?
    ensures OneAhead(suite, LeftReceives(suite, net, entropy)) <==> entropy.Some?
  {
    match entropy
    case Some(priv) => RatchetSwapsRoles(suite, net, priv);
    case None => HalfStepLevels(suite, net);
  }

  lemma LeftKeepsAgreement<K(!new)>(suite: Suite<K>, net: Net<K>, action: Action<K>)
    requires Lawful(suite) && Agreed(suite, net)
    ensures Agreed(suite, LeftActs(suite, net, action))
  {
    match action
    case Encrypt(header, body, nonce) => EncryptKeepsAgreement(suite, net, header, body, nonce);
    case Deliver(entropy) =>
      if net.left.inbox == [] {
      } else if net.left.inbox[0].Packet? {
        PacketKeepsAgreement(suite, net, entropy);
      } else {
        match entropy
        case Some(priv) => RatchetSwapsRoles(suite, net, priv);
        case None => HalfStepLevels(suite, net);
      }
  }

  lemma MirrorAgreed<K>(suite: Suite<K>, net: Net<K>)
    ensures Agreed(suite, net) <==> Agreed(suite, Mirror(net))
  {
    assert Mirror(Mirror(net)) == net;
  }

  lemma StepKeepsAgreement<K(!new)>(suite: Suite<K>, net: Net<K>, event: Event<K>)
    requires Lawful(suite) && Agreed(suite, net)
    ensures Agreed(suite, Step(suite, net, event))
  {
    match event.who
    case Left => LeftKeepsAgreement(suite, net, event.action);
    case Right =>
      MirrorAgreed(suite, net);
      LeftKeepsAgreement(suite, Mirror(net), event.action);
      MirrorAgreed(suite, LeftActs(suite, Mirror(net), event.action));
  }

  // ----- whole runs -----

  lemma {:induction false} RunKeepsAgreement<K(!new)>(suite: Suite<K>, net: Net<K>, events: seq<Event<K>>)
    requires Lawful(suite) && Agreed(suite, net)
    ensures Agreed(suite, Run(suite, net, events))
    decreases |events|
  {
    if events != [] {
      StepKeepsAgreement(suite, net, events[0]);
      RunKeepsAgreement(suite, Step(suite, net, events[0]), events[1..]);
    }
  }

  /** What agreement means for the two users, in one direction. */
  ghost predicate Faithful<K>(from: Side<K>, to: Side<K>) {
    && Delivered(to.got, from.sent)
    && |from.sent| == |to.got| + Packets(to.inbox)
    && Wrap64(to.session.recvCounter + Packets(to.inbox)) == Wrap64(from.session.sendCounter)
  }

  lemma FlowIsFaithful<K>(suite: Suite<K>, from: Side<K>, to: Side<K>)
    requires Flow(suite, from, to)
    ensures Faithful(from, to)
  {
    CountersAcrossChannel(suite, to.session, to.inbox, from.session, from.sent[|to.got|..]);
  }

  lemma AgreedFlows<K>(suite: Suite<K>, net: Net<K>)
    requires Agreed(suite, net)
    ensures Flow(suite, net.left, net.right) && Flow(suite, net.right, net.left)
  {
    if LeftAhead(suite, Mirror(net)) {
      assert Common(suite, Mirror(net));
    }
  }

  /** In every interleaving, from a start where the left side is one root step ahead
      with its key on the way: every packet delivered opened to the body encrypted,
      nothing is lost or invented, and the counters differ by the packets in flight. */
  lemma EveryRunIsFaithful<K(!new)>(suite: Suite<K>, start: Net<K>, events: seq<Event<K>>)
    requires Lawful(suite) && Starting(suite, start)
    ensures var net := Run(suite, start, events);
            Faithful(net.left, net.right) && Faithful(net.right, net.left)
  {
    StartAgreed(suite, start);
    RunKeepsAgreement(suite, start, events);
    var net := Run(suite, start, events);
    AgreedFlows(suite, net);
    FlowIsFaithful(suite, net.left, net.right);
    FlowIsFaithful(suite, net.right, net.left);
  }

  /** Quiet channels, the left public key alone in flight, and the two chains aligned
      as a completed step on the left leaves them. */
  ghost predicate Starting<K>(suite: Suite<K>, net: Net<K>) {
    var l, r := net.left.session, net.right.session;
    && net.left.inbox == [] && net.right.inbox == [NewKey(l.localPub)]
    && net.left.sent == net.right.sent == [] && net.left.got == net.right.got == []
    && Keyed(suite, l) && Keyed(suite, r)
    && OneRootAhead(suite, l, r)
    && l.sendChain == ChainAfter(suite, r.rootKey, suite.dh(r.localPriv, l.localPub).value)
    && l.recvChain == r.sendChain
    && l.sendCounter == r.recvCounter && l.recvCounter == r.sendCounter
  }

  lemma StartAgreed<K>(suite: Suite<K>, net: Net<K>)
    requires Starting(suite, net)
    ensures LeftAhead(suite, net)
  {
    assert net.right.inbox[1..] == [];
    assert net.left.sent[|net.right.got|..] == [];
    assert net.right.sent[|net.left.got|..] == [];
  }

  // ----- which runs stay one root ahead -----

  ghost predicate OneAhead<K>(suite: Suite<K>, net: Net<K>) {
    LeftAhead(suite, net) || LeftAhead(suite, Mirror(net))
  }

  /** The event delivers a public key and no fresh pair can be drawn for the step. */
  predicate DrawFails<K>(net: Net<K>, event: Event<K>) {
    var inbox := if event.who.Left? then net.left.inbox else net.right.inbox;
    event.action.Deliver? && event.action.entropy.None? && inbox != [] && inbox[0].NewKey?
  }

  predicate NoDrawFails<K>(suite: Suite<K>, net: Net<K>, events: seq<Event<K>>)
    decreases |events|
  {
    events == [] || (!DrawFails(net, events[0]) && NoDrawFails(suite, Step(suite, net, events[0]), events[1..]))
  }

  /** A run leaves "one side is one root ahead" if and only if some delivery of a key
      found no fresh pair; nothing that comes later repairs it. */
  lemma {:induction false} RunStaysOneAheadIff<K(!new)>(suite: Suite<K>, net: Net<K>, events: seq<Event<K>>)
    requires Lawful(suite) && OneAhead(suite, net)
    ensures OneAhead(suite, Run(suite, net, events)) <==> NoDrawFails(suite, net, events)
    ensures Level(suite, Run(suite, net, events)) <==> !NoDrawFails(suite, net, events)
    decreases |events|
  {
    if events != [] {
      StepStaysOneAheadIff(suite, net, events[0]);
      var next := Step(suite, net, events[0]);
      if DrawFails(net, events[0]) {
        RunStaysLevel(suite, next, events[1..]);
      } else {
        RunStaysOneAheadIff(suite, next, events[1..]);
      }
    }
  }

  lemma StepStaysOneAheadIff<K(!new)>(suite: Suite<K>, net: Net<K>, event: Event<K>)
    requires Lawful(suite) && OneAhead(suite, net)
    ensures OneAhead(suite, Step(suite, net, event)) <==> !DrawFails(net, event)
    ensures Level(suite, Step(suite, net, event)) <==> DrawFails(net, event)
  {
    match event.who
    case Left => LeftStaysOneAheadIff(suite, net, event.action);
    case Right =>
      assert Mirror(Mirror(net)) == net;
      LeftStaysOneAheadIff(suite, Mirror(net), event.action);
      MirroredStates(suite, LeftActs(suite, Mirror(net), event.action));
  }

  lemma MirroredStates<K>(suite: Suite<K>, net: Net<K>)
    ensures OneAhead(suite, net) <==> OneAhead(suite, Mirror(net))
    ensures Level(suite, net) <==> Level(suite, Mirror(net))
  {
    assert Mirror(Mirror(net)) == net;
  }

  /** The number of keys in flight tells a one-ahead state from a level one. */
  lemma KeysTellApart<K>(suite: Suite<K>, net: Net<K>)
    requires Agreed(suite, net)
    ensures Level(suite, net) <==> Keys(net.left.inbox) + Keys(net.right.inbox) == 0
    ensures OneAhead(suite, net) <==> Keys(net.left.inbox) + Keys(net.right.inbox) == 1
  {
  }

  lemma LeftStaysOneAheadIff<K(!new)>(suite: Suite<K>, net: Net<K>, action: Action<K>)
    requires Lawful(suite) && OneAhead(suite, net)
    ensures OneAhead(suite, LeftActs(suite, net, action)) <==> !DrawFails(net, Event(Left, action))
    ensures Level(suite, LeftActs(suite, net, action)) <==> DrawFails(net, Event(Left, action))
  {
    LeftKeepsAgreement(suite, net, action);
    var after := LeftActs(suite, net, action);
    if action.Encrypt? {
      CountsOfAppend(net.right.inbox, after.right.inbox[|net.right.inbox|]);
    } else if net.left.inbox != [] && net.left.inbox[0].NewKey? {
      KeyKeepsOneAheadIff(suite, net, action.entropy);
    }
    KeysTellApart(suite, after);
  }

  lemma {:induction false} RunStaysLevel<K(!new)>(suite: Suite<K>, net: Net<K>, events: seq<Event<K>>)
    requires Lawful(suite) && Level(suite, net)
    ensures Level(suite, Run(suite, net, events)) && !OneAhead(suite, Run(suite, net, events))
    decreases |events|
  {
    if events != [] {
      StepStaysLevel(suite, net, events[0]);
      RunStaysLevel(suite, Step(suite, net, events[0]), events[1..]);
    }
  }

  lemma StepStaysLevel<K(!new)>(suite: Suite<K>, net: Net<K>, event: Event<K>)
    requires Lawful(suite) && Level(suite, net)
    ensures Level(suite, Step(suite, net, event))
  {
    StepKeepsAgreement(suite, net, event);
    var after := Step(suite, net, event);
    if event.action.Encrypt? {
      var grown := if event.who.Left? then after.right.inbox else after.left.inbox;
      var before := if event.who.Left? then net.right.inbox else net.left.inbox;
      CountsOfAppend(before, grown[|before|]);
    }
    KeysTellApart(suite, after);
  }

  // ----- progress -----

  /** The bodies one side encrypts in a run, in order. */
  function Bodies<K>(events: seq<Event<K>>, who: Party): seq<Bytes> {
    if events == [] then []
    else BodyOf(events[0], who) + Bodies(events[1..], who)
  }

  function BodyOf<K>(event: Event<K>, who: Party): seq<Bytes> {
    if event.who == who && event.action.Encrypt? then [event.action.body] else []
  }

  lemma StepSends<K>(suite: Suite<K>, net: Net<K>, event: Event<K>)
    ensures Step(suite, net, event).left.sent == net.left.sent + BodyOf(event, Left)
    ensures Step(suite, net, event).right.sent == net.right.sent + BodyOf(event, Right)
  {
    assert net.left.sent + [] == net.left.sent && net.right.sent + [] == net.right.sent;
  }

  lemma JoinedBodies(a: seq<Bytes>, b: seq<Bytes>, c: seq<Bytes>)
    ensures a + b + c == a + (b + c)
  {
  }

  lemma {:induction false} RunSends<K>(suite: Suite<K>, net: Net<K>, events: seq<Event<K>>)
    ensures Run(suite, net, events).left.sent == net.left.sent + Bodies(events, Left)
    ensures Run(suite, net, events).right.sent == net.right.sent + Bodies(events, Right)
    decreases |events|
  {
    if events == [] {
      assert net.left.sent + [] == net.left.sent && net.right.sent + [] == net.right.sent;
    } else {
      var next := Step(suite, net, events[0]);
      StepSends(suite, net, events[0]);
      RunSends(suite, next, events[1..]);
      JoinedBodies(net.left.sent, BodyOf(events[0], Left), Bodies(events[1..], Left));
      JoinedBodies(net.right.sent, BodyOf(events[0], Right), Bodies(events[1..], Right));
    }
  }

  /** The left side reads everything that is in its channel now. */
  function Reading<K>(entropies: seq<Option<K>>): seq<Event<K>> {
    if entropies == [] then [] else [Event(Left, Deliver(entropies[0]))] + Reading(entropies[1..])
  }

  lemma {:induction false} ReadingEmpties<K>(suite: Suite<K>, net: Net<K>, entropies: seq<Option<K>>)
    requires |entropies| == |net.left.inbox|
    ensures var net' := Run(suite, net, Reading(entropies));
            net'.left.inbox == [] && net'.right.sent == net.right.sent
    decreases |entropies|
  {
    if entropies != [] {
      var event := Event(Left, Deliver(entropies[0]));
      assert Reading(entropies)[0] == event && Reading(entropies)[1..] == Reading(entropies[1..]);
      ReadingEmpties(suite, Step(suite, net, event), entropies[1..]);
    }
  }

  /** After any run, once the left side has read its channel it has got every body the
      right side encrypted, in order. */
  lemma EverythingSentIsRead<K(!new)>(suite: Suite<K>, start: Net<K>, events: seq<Event<K>>,
                                      entropies: seq<Option<K>>)
    requires Lawful(suite) && Agreed(suite, start) && start.right.sent == []
    requires |entropies| == |Run(suite, start, events).left.inbox|
    ensures var got := Run(suite, Run(suite, start, events), Reading(entropies)).left.got;
            |got| == |Bodies(events, Right)| && forall i :: 0 <= i < |got| ==> got[i] == Some(Bodies(events, Right)[i])
  {
    var net := Run(suite, start, events);
    RunSends(suite, start, events);
    RunKeepsAgreement(suite, start, events);
    RunKeepsAgreement(suite, net, Reading(entropies));
    ReadingEmpties(suite, net, entropies);
    var net' := Run(suite, net, Reading(entropies));
    AgreedFlows(suite, net');
    FlowIsFaithful(suite, net'.right, net'.left);
    assert [] + Bodies(events, Right) == Bodies(events, Right);
  }
}
