/** Group membership and the local sender chain: which peers were ever offered the
    chain a message is sent under. End-to-end encryption is on throughout. */
module Groups {
  import opened FreeKeys
  import opened Prelude
  import opened SenderKeys

  type PeerKey = string   // PeerID.String()
  type ChatId = string

  datatype Chat = Chat(direct: bool, members: seq<PeerKey>)

  /** The local chain of a chat: the random atom it grew from and its position. */
  datatype OwnKey = OwnKey(seed: nat, steps: nat)

  /** A chain key sent to a peer, at the position the chain had then. */
  datatype Offer = Offer(peer: PeerKey, seed: nat, steps: nat)

  datatype Kind = UserMessage | MemberAdded | MemberRemoved(gone: PeerKey) | MemberLeft

  /** A message encrypted for the group: the chain position used (None: no key could
      be made and the payload stays as it is) and the members at that moment. */
  datatype Record = Record(kind: Kind, key: Option<OwnKey>, audience: set<PeerKey>)

  datatype Groups = Groups(
    local: PeerKey,
    chats: map<ChatId, Chat>,
    keys: map<ChatId, OwnKey>,
    offers: seq<Offer>,
    wire: seq<Record>,
    nextSeed: nat)            // every atom below this one has been drawn

  /** What the environment contributes to one operation: peers whose distribution goes
      out, and whether the random source answers at each draw and the store accepts. */
  datatype World = World(reach: set<PeerKey>, noticeRng: bool, rotateRng: bool, saves: bool)

  // ----- building blocks -----

  function Others(members: seq<PeerKey>, gone: PeerKey): (kept: seq<PeerKey>)
    ensures forall p :: p in kept <==> p in members && p != gone
  {
    if members == [] then []
    else (if members[0] != gone then [members[0]] else []) + Others(members[1..], gone)
  }

  /** One distribution message, if there is a local chain and the peer can be reached. */
  function OfferTo(g: Groups, c: ChatId, peer: PeerKey, reach: set<PeerKey>): Groups {
    if c in g.keys && peer in reach
    then g.(offers := g.offers + [Offer(peer, g.keys[c].seed, g.keys[c].steps)])
    else g
  }

  function OfferAll(g: Groups, c: ChatId, members: seq<PeerKey>, reach: set<PeerKey>): (g': Groups)
    ensures g' == g.(offers := g'.offers) && g.offers <= g'.offers
    decreases |members|
  {
    if members == [] then g
    else
      var n := |members| - 1;
      var earlier := OfferAll(g, c, members[..n], reach);
      if members[n] == g.local then earlier else OfferTo(earlier, c, members[n], reach)
  }

  /** What a distribution round adds: the chain as it stands, to listed peers only. */
  lemma {:induction false} OfferAllAdds(g: Groups, c: ChatId, members: seq<PeerKey>, reach: set<PeerKey>, i: nat)
    requires |g.offers| <= i < |OfferAll(g, c, members, reach).offers|
    ensures c in g.keys && OfferAll(g, c, members, reach).offers[i].peer in members
    ensures OfferAll(g, c, members, reach).offers[i].peer in reach
    ensures OfferAll(g, c, members, reach).offers[i].peer != g.local
    ensures OfferAll(g, c, members, reach).offers[i].seed == g.keys[c].seed
    ensures OfferAll(g, c, members, reach).offers[i].steps == g.keys[c].steps
    decreases |members|
  {
    var n := |members| - 1;
    var earlier := OfferAll(g, c, members[..n], reach);
    if i < |earlier.offers| {
      OfferAllAdds(g, c, members[..n], reach, i);
    } else {
      assert members[n] in members;
    }
  }

  /** The chat with a new chain at its start, not offered to anybody yet. */
  function Freshened(g: Groups, c: ChatId): Groups {
    g.(keys := g.keys[c := OwnKey(g.nextSeed, 0)], nextSeed := g.nextSeed + 1)
  }

  /** A fresh chain for the chat, offered to everyone on the list but the local peer. */
  function Rekey(g: Groups, c: ChatId, members: seq<PeerKey>, rng: bool, reach: set<PeerKey>): Groups {
    if rng then OfferAll(Freshened(g, c), c, members, reach) else g
  }

  /** And it adds one for every listed peer that can be reached. */
  lemma {:induction false} OfferAllReaches(g: Groups, c: ChatId, members: seq<PeerKey>, reach: set<PeerKey>,
                                           peer: PeerKey)
    requires c in g.keys && peer in members && peer in reach && peer != g.local
    ensures Offer(peer, g.keys[c].seed, g.keys[c].steps) in OfferAll(g, c, members, reach).offers
    decreases |members|
  {
    var n := |members| - 1;
    var earlier, whole := OfferAll(g, c, members[..n], reach), OfferAll(g, c, members, reach);
    if members[n] == peer {
      assert whole.offers[|earlier.offers|] == Offer(peer, g.keys[c].seed, g.keys[c].steps);
    } else {
      OfferAllReaches(g, c, members[..n], reach, peer);
      assert earlier.offers <= whole.offers;
    }
  }

  /** A direct chat with somebody else in it uses the pairwise session instead. */
  predicate UsesPairwise(g: Groups, c: ChatId)
    requires c in g.chats
  {
    g.chats[c].direct && exists p :: p in g.chats[c].members && p != g.local
  }

  function Audience(g: Groups, c: ChatId): set<PeerKey>
    requires c in g.chats
  {
    set p | p in g.chats[c].members
  }

  /** Encrypts under the next position of the chain that is there, or in the clear. */
  function Encrypted(g: Groups, c: ChatId, kind: Kind): Groups
    requires c in g.chats
  {
    if c in g.keys then
      var k := g.keys[c];
      g.(keys := g.keys[c := k.(steps := k.steps + 1)], wire := g.wire + [Record(kind, Some(k), Audience(g, c))])
    else
      g.(wire := g.wire + [Record(kind, None, Audience(g, c))])
  }

  function SendTo(g: Groups, c: ChatId, kind: Kind, rng: bool, reach: set<PeerKey>): Groups {
    if c !in g.chats || UsesPairwise(g, c) then g
    else
      var keyed := if c in g.keys then g else Rekey(g, c, g.chats[c].members, rng, reach);
      Encrypted(keyed, c, kind)
  }

  // ----- the operations -----

  datatype Op =
    | Create(c: ChatId, named: bool, invited: seq<PeerKey>, w: World)
    | Add(c: ChatId, peer: PeerKey, w: World)
    | Remove(c: ChatId, peer: PeerKey, w: World)
    | Leave(c: ChatId, w: World)
    | Send(c: ChatId, w: World)

  function CreateChat(g: Groups, c: ChatId, named: bool, invited: seq<PeerKey>, w: World): Groups {
    var direct := !(|invited| > 1 || named);
    var members := [g.local] + invited;
    if c in g.chats || !w.saves then g     // chat IDs are random: never one in use
    else
      var g1 := g.(chats := g.chats[c := Chat(direct, members)]);
      if direct then g1 else Rekey(g1, c, members, w.rotateRng, w.reach)
  }

  function AddMember(g: Groups, c: ChatId, peer: PeerKey, w: World): Groups {
    if c !in g.chats || peer in g.chats[c].members || !w.saves then g
    else
      var chat := g.chats[c].(members := g.chats[c].members + [peer]);
      var g1 := g.(chats := g.chats[c := chat]);
      OfferTo(SendTo(g1, c, MemberAdded, w.noticeRng, w.reach), c, peer, w.reach)
  }

  function RemoveMember(g: Groups, c: ChatId, peer: PeerKey, w: World): Groups {
    if c !in g.chats || !w.saves then g
    else
      var chat := g.chats[c].(members := Others(g.chats[c].members, peer));
      var g1 := g.(chats := g.chats[c := chat]);
      var g2 := SendTo(g1, c, MemberRemoved(peer), w.noticeRng, w.reach);
      var g3 := if peer == g.local then g2.(keys := g2.keys - {c}) else g2;
      Rekey(g3, c, chat.members, w.rotateRng, w.reach)
  }

  function LeaveGroup(g: Groups, c: ChatId, w: World): Groups {
    if c !in g.chats then g
    else
      var chat := g.chats[c].(members := Others(g.chats[c].members, g.local));
      var g1 := SendTo(g, c, MemberLeft, w.noticeRng, w.reach);
      var g2 := g1.(keys := g1.keys - {c});
      if w.saves then g2.(chats := g2.chats[c := chat]) else g2
  }

  function Apply(g: Groups, op: Op): Groups {
    match op
    case Create(c, named, invited, w) => CreateChat(g, c, named, invited, w)
    case Add(c, peer, w) => AddMember(g, c, peer, w)
    case Remove(c, peer, w) => RemoveMember(g, c, peer, w)
    case Leave(c, w) => LeaveGroup(g, c, w)
    case Send(c, w) => SendTo(g, c, UserMessage, w.noticeRng, w.reach)
  }

  function Run(g: Groups, ops: seq<Op>): Groups
    decreases |ops|
  {
    if ops == [] then g else Run(Apply(g, ops[0]), ops[1..])
  }

  // ----- the key-epoch invariant -----

  type Exempt = set<(ChatId, PeerKey)>

  /** Atoms are never reused and each belongs to one chat. */
  ghost predicate FreshSeeds(g: Groups) {
    && g.keys.Keys <= g.chats.Keys
    && (forall c :: c in g.keys ==> g.keys[c].seed < g.nextSeed)
    && (forall c, d :: c in g.keys && d in g.keys && c != d ==> g.keys[c].seed != g.keys[d].seed)
    && (forall o :: o in g.offers ==> o.seed < g.nextSeed)
    && (forall r :: r in g.wire && r.key.Some? ==> r.key.value.seed < g.nextSeed)
  }

  /** Every peer ever offered a chain that is current in some chat is a member of that
      chat (the exempt pairs aside), and positions only grow. */
  ghost predicate OffersToMembers(g: Groups, exempt: Exempt) {
    && (forall c, o :: c in g.keys && c in g.chats && o in g.offers && o.seed == g.keys[c].seed ==>
          o.steps <= g.keys[c].steps && (o.peer in g.chats[c].members || (c, o.peer) in exempt))
    && (forall c, r :: c in g.keys && r in g.wire && r.key.Some? && r.key.value.seed == g.keys[c].seed ==>
          r.key.value.steps < g.keys[c].steps)
  }

  /** A chain key given to somebody outside a message's audience starts behind that
      message; only the notice of a removal may be open to the one it removes. */
  ghost predicate Guarded(r: Record, o: Offer) {
    r.key.Some? && o.seed == r.key.value.seed ==>
      o.peer in r.audience || o.steps > r.key.value.steps || r.kind == MemberRemoved(o.peer)
  }

  ghost predicate Sound(g: Groups, exempt: Exempt) {
    && FreshSeeds(g)
    && OffersToMembers(g, exempt)
    && (forall r, o :: r in g.wire && o in g.offers ==> Guarded(r, o))
  }

  lemma OfferAllMembers(g: Groups, c: ChatId, members: seq<PeerKey>, reach: set<PeerKey>, o: Offer)
    requires o in OfferAll(g, c, members, reach).offers
    ensures o in g.offers ||
            (c in g.keys && o.peer in members && o.seed == g.keys[c].seed && o.steps == g.keys[c].steps)
  {
    var offers := OfferAll(g, c, members, reach).offers;
    var i :| 0 <= i < |offers| && offers[i] == o;
    if i < |g.offers| {
      assert g.offers[i] == o;
    } else {
      OfferAllAdds(g, c, members, reach, i);
    }
  }

  /** Offers of the chain as it stands, to members, keep the invariant. */
  lemma OffersKeepSound(g: Groups, g': Groups, c: ChatId, exempt: Exempt)
    requires Sound(g, exempt) && c in g.chats && g' == g.(offers := g'.offers)
    requires forall o :: o in g'.offers ==>
               o in g.offers ||
               (c in g.keys && o.peer in g.chats[c].members && o.seed == g.keys[c].seed && o.steps == g.keys[c].steps)
    ensures Sound(g', exempt)
  {
  }

  lemma OfferKeepsSound(g: Groups, c: ChatId, members: seq<PeerKey>, reach: set<PeerKey>, exempt: Exempt)
    requires Sound(g, exempt) && c in g.chats
    requires forall p :: p in members ==> p in g.chats[c].members
    ensures Sound(OfferAll(g, c, members, reach), exempt)
  {
    var g' := OfferAll(g, c, members, reach);
    forall o | o in g'.offers
      ensures o in g.offers ||
              (c in g.keys && o.peer in members && o.seed == g.keys[c].seed && o.steps == g.keys[c].steps)
    {
      OfferAllMembers(g, c, members, reach, o);
    }
    OffersKeepSound(g, g', c, exempt);
  }

  /** A fresh chain ends whatever exemption the chat had. */
  lemma FreshenedKeepsSound(g: Groups, c: ChatId, exempt: Exempt, kept: Exempt)
    requires Sound(g, exempt) && c in g.chats
    requires forall e :: e in exempt && e.0 != c ==> e in kept
    ensures Sound(Freshened(g, c), kept)
  {
  }

  lemma RekeyKeepsSound(g: Groups, c: ChatId, members: seq<PeerKey>, rng: bool, reach: set<PeerKey>, exempt: Exempt)
    requires Sound(g, exempt) && c in g.chats && members == g.chats[c].members
    ensures Sound(Rekey(g, c, members, rng, reach), exempt)
    ensures rng && (forall e :: e in exempt ==> e.0 == c) ==> Sound(Rekey(g, c, members, rng, reach), {})
  {
    if rng {
      FreshenedKeepsSound(g, c, exempt, exempt);
      OfferKeepsSound(Freshened(g, c), c, members, reach, exempt);
      if forall e :: e in exempt ==> e.0 == c {
        FreshenedKeepsSound(g, c, exempt, {});
        OfferKeepsSound(Freshened(g, c), c, members, reach, {});
      }
    }
  }

  lemma EncryptedKeepsSound(g: Groups, c: ChatId, kind: Kind, exempt: Exempt)
    requires Sound(g, exempt) && c in g.chats
    requires forall e :: e in exempt ==> kind == MemberRemoved(e.1)
    ensures Sound(Encrypted(g, c, kind), exempt)
  {
    if c in g.keys {
      var g' := Encrypted(g, c, kind);
      var added := Record(kind, Some(g.keys[c]), Audience(g, c));
      forall r | r in g'.wire
        ensures r in g.wire || r == added
      {
      }
      forall o | o in g'.offers
        ensures Guarded(added, o)
      {
      }
    }
  }

  lemma SendKeepsSound(g: Groups, c: ChatId, kind: Kind, rng: bool, reach: set<PeerKey>, exempt: Exempt)
    requires Sound(g, exempt)
    requires forall e :: e in exempt ==> kind == MemberRemoved(e.1)
    ensures Sound(SendTo(g, c, kind, rng, reach), exempt)
  {
    if c in g.chats && !UsesPairwise(g, c) {
      var keyed := if c in g.keys then g else Rekey(g, c, g.chats[c].members, rng, reach);
      RekeyKeepsSound(g, c, g.chats[c].members, rng, reach, exempt);
      EncryptedKeepsSound(keyed, c, kind, exempt);
    }
  }

  // ----- what one operation keeps -----

  /** The removal that leaves the old chain in place: the random source fails at the
      rotation and the removed peer holds the chain. */
  ghost predicate RotationMissed(g: Groups, c: ChatId, peer: PeerKey, w: World) {
    && c in g.chats && w.saves && !w.rotateRng
    && peer != g.local && c in g.keys
    && exists o :: o in g.offers && o.peer == peer && o.seed == g.keys[c].seed
  }

  lemma SendFrame(g: Groups, c: ChatId, kind: Kind, rng: bool, reach: set<PeerKey>)
    ensures var g' := SendTo(g, c, kind, rng, reach);
            && g'.chats == g.chats && g'.local == g.local && g.offers <= g'.offers
            && (c in g.keys ==> c in g'.keys && g'.keys[c].seed == g.keys[c].seed && g'.offers == g.offers)
  {
  }

  lemma DropKeyKeepsSound(g: Groups, c: ChatId, exempt: Exempt)
    requires Sound(g, exempt)
    requires forall e :: e in exempt ==> e.0 == c
    ensures Sound(g.(keys := g.keys - {c}), {})
  {
  }

  /** Dropping a member leaves, at worst, that member's offers to be excused. */
  lemma ShrinkKeepsSound(g: Groups, c: ChatId, gone: PeerKey)
    requires Sound(g, {}) && c in g.chats
    ensures Sound(g.(chats := g.chats[c := g.chats[c].(members := Others(g.chats[c].members, gone))]), {(c, gone)})
  {
  }

  /** An exemption nobody uses can be lifted. */
  lemma LiftExemption(g: Groups, c: ChatId, gone: PeerKey)
    requires Sound(g, {(c, gone)})
    requires c in g.keys ==> forall o :: o in g.offers && o.seed == g.keys[c].seed ==> o.peer != gone
    ensures Sound(g, {})
  {
  }

  lemma RemoveKeepsEpochIff(g: Groups, c: ChatId, peer: PeerKey, w: World)
    requires Sound(g, {})
    ensures Sound(RemoveMember(g, c, peer, w), {}) <==> !RotationMissed(g, c, peer, w)
  {
    if c in g.chats && w.saves {
      var chat := g.chats[c].(members := Others(g.chats[c].members, peer));
      var g1 := g.(chats := g.chats[c := chat]);
      ShrinkKeepsSound(g, c, peer);
      var g2 := SendTo(g1, c, MemberRemoved(peer), w.noticeRng, w.reach);
      SendKeepsSound(g1, c, MemberRemoved(peer), w.noticeRng, w.reach, {(c, peer)});
      SendFrame(g1, c, MemberRemoved(peer), w.noticeRng, w.reach);
      if peer == g.local {
        DropKeyKeepsSound(g2, c, {(c, peer)});
        RekeyKeepsSound(g2.(keys := g2.keys - {c}), c, chat.members, w.rotateRng, w.reach, {});
      } else if w.rotateRng {
        RekeyKeepsSound(g2, c, chat.members, true, w.reach, {(c, peer)});
      } else if RotationMissed(g, c, peer, w) {
        var o :| o in g.offers && o.peer == peer && o.seed == g.keys[c].seed;
        assert o in g2.offers && peer !in g2.chats[c].members;
      } else {
        NoticeOffersOnlyMembers(g, g1, c, peer, w);
        LiftExemption(g2, c, peer);
      }
    }
  }

  /** The chain in place after the notice was not offered to the removed peer. */
  lemma NoticeOffersOnlyMembers(g: Groups, g1: Groups, c: ChatId, peer: PeerKey, w: World)
    requires Sound(g, {}) && c in g.chats && !w.rotateRng && w.saves && peer != g.local
    requires !RotationMissed(g, c, peer, w)
    requires g1 == g.(chats := g.chats[c := g.chats[c].(members := Others(g.chats[c].members, peer))])
    ensures var g2 := SendTo(g1, c, MemberRemoved(peer), w.noticeRng, w.reach);
            c in g2.keys ==> forall o :: o in g2.offers && o.seed == g2.keys[c].seed ==> o.peer != peer
  {
    var g2 := SendTo(g1, c, MemberRemoved(peer), w.noticeRng, w.reach);
    if c !in g.keys && c in g2.keys {
      assert forall j :: 0 <= j < |g.offers| ==> g2.offers[j] == g.offers[j] && g.offers[j].seed < g.nextSeed;
      forall o | o in g2.offers && o.seed == g2.keys[c].seed
        ensures o.peer != peer
      {
        assert o !in g.offers;
        var i :| 0 <= i < |g2.offers| && g2.offers[i] == o;
        var chain := Freshened(g1, c);
        OfferAllAdds(chain, c, g1.chats[c].members, w.reach, i);
      }
    }
  }

  lemma CreateKeepsSound(g: Groups, c: ChatId, named: bool, invited: seq<PeerKey>, w: World)
    requires Sound(g, {})
    ensures Sound(CreateChat(g, c, named, invited, w), {})
  {
    if c !in g.chats && w.saves {
      var direct := !(|invited| > 1 || named);
      var g1 := g.(chats := g.chats[c := Chat(direct, [g.local] + invited)]);
      assert Sound(g1, {});
      RekeyKeepsSound(g1, c, [g.local] + invited, w.rotateRng, w.reach, {});
    }
  }

  lemma AddKeepsSound(g: Groups, c: ChatId, peer: PeerKey, w: World)
    requires Sound(g, {})
    ensures Sound(AddMember(g, c, peer, w), {})
  {
    if c in g.chats && peer !in g.chats[c].members && w.saves {
      var chat := g.chats[c].(members := g.chats[c].members + [peer]);
      var g1 := g.(chats := g.chats[c := chat]);
      assert Sound(g1, {});
      SendKeepsSound(g1, c, MemberAdded, w.noticeRng, w.reach, {});
      var g2 := SendTo(g1, c, MemberAdded, w.noticeRng, w.reach);
      SendFrame(g1, c, MemberAdded, w.noticeRng, w.reach);
      assert OfferTo(g2, c, peer, w.reach) == OfferTo(OfferAll(g2, c, [], w.reach), c, peer, w.reach);
      OfferOneKeepsSound(g2, c, peer, w.reach);
    }
  }

  lemma OfferOneKeepsSound(g: Groups, c: ChatId, peer: PeerKey, reach: set<PeerKey>)
    requires Sound(g, {}) && c in g.chats && peer in g.chats[c].members
    ensures Sound(OfferTo(g, c, peer, reach), {})
  {
    var g' := OfferTo(g, c, peer, reach);
    forall o | o in g'.offers
      ensures o in g.offers || (c in g.keys && o == Offer(peer, g.keys[c].seed, g.keys[c].steps))
    {
    }
  }

  lemma LeaveKeepsSound(g: Groups, c: ChatId, w: World)
    requires Sound(g, {})
    ensures Sound(LeaveGroup(g, c, w), {})
  {
    if c in g.chats {
      SendKeepsSound(g, c, MemberLeft, w.noticeRng, w.reach, {});
      SendFrame(g, c, MemberLeft, w.noticeRng, w.reach);
      DropKeyKeepsSound(SendTo(g, c, MemberLeft, w.noticeRng, w.reach), c, {});
    }
  }

  // ----- whole runs -----

  ghost predicate RotationWorks(g: Groups, op: Op) {
    op.Remove? ==> !RotationMissed(g, op.c, op.peer, op.w)
  }

  lemma ApplyKeepsSound(g: Groups, op: Op)
    requires Sound(g, {}) && RotationWorks(g, op)
    ensures Sound(Apply(g, op), {})
  {
    match op
    case Create(c, named, invited, w) => CreateKeepsSound(g, c, named, invited, w);
    case Add(c, peer, w) => AddKeepsSound(g, c, peer, w);
    case Remove(c, peer, w) => RemoveKeepsEpochIff(g, c, peer, w);
    case Leave(c, w) => LeaveKeepsSound(g, c, w);
    case Send(c, w) => SendKeepsSound(g, c, UserMessage, w.noticeRng, w.reach, {});
  }

  ghost predicate RotationsWork(g: Groups, ops: seq<Op>)
    decreases |ops|
  {
    ops == [] || (RotationWorks(g, ops[0]) && RotationsWork(Apply(g, ops[0]), ops[1..]))
  }

  lemma {:induction false} RunKeepsSound(g: Groups, ops: seq<Op>)
    requires Sound(g, {}) && RotationsWork(g, ops)
    ensures Sound(Run(g, ops), {})
    decreases |ops|
  {
    if ops != [] {
      ApplyKeepsSound(g, ops[0]);
      RunKeepsSound(Apply(g, ops[0]), ops[1..]);
    }
  }

  /** Everything a peer was ever sent of the local chains, in any chat. */
  ghost function ChainsGivenTo(g: Groups, peer: PeerKey): set<Term> {
    set o | o in g.offers && o.peer == peer :: ChainAt(FREE, Atom(o.seed), o.steps)
  }

  function Empty(local: PeerKey): Groups {
    Groups(local, map[], map[], [], [], 0)
  }

  /** A chain key of the record's chain at the record's position or before. */
  ghost predicate OfferedFor(g: Groups, peer: PeerKey, key: OwnKey) {
    exists o :: o in g.offers && o.peer == peer && o.seed == key.seed && o.steps <= key.steps
  }

  /** In any state a peer can compute a message key from all chain keys ever given to it,
      together with any knowledge of its own that the chain's atom is no part of, if and
      only if it was given a key of that chain from that position or before. */
  lemma ReadableIffOffered(g: Groups, peer: PeerKey, key: OwnKey, own: set<Term>)
    requires forall t :: t in own ==> Avoids(key.seed, t)
    ensures Computable(own + ChainsGivenTo(g, peer), KeyAt(FREE, Atom(key.seed), key.steps)) <==>
            OfferedFor(g, peer, key)
  {
    var known := own + ChainsGivenTo(g, peer);
    if OfferedFor(g, peer, key) {
      var o :| o in g.offers && o.peer == peer && o.seed == key.seed && o.steps <= key.steps;
      LaterMessagesOpen(known, o.seed, o.steps, key.steps);
    } else {
      forall t | t in known
        ensures Avoids(key.seed, t) || OnChainFrom(t, key.seed, key.steps + 1)
      {
        if t !in own {
          var o :| o in g.offers && o.peer == peer && t == ChainAt(FREE, Atom(o.seed), o.steps);
          if o.seed != key.seed {
            OtherChainAvoids(key.seed, o.seed, o.steps);
          }
        }
      }
      EarlierMessagesHidden(known, key.seed, key.steps + 1, key.steps);
    }
  }

  /** The rule at work: in any run whose rotations work, somebody who was not a member
      when a message was sent can compute its key, from all chain keys given to them
      before or after and knowledge of their own, exactly if the message is the notice of
      their own removal and they had been offered the chain it went out under. */
  lemma OutsidersCannotRead(local: PeerKey, ops: seq<Op>, r: Record, outsider: PeerKey, own: set<Term>)
    requires RotationsWork(Empty(local), ops)
    requires r in Run(Empty(local), ops).wire && r.key.Some?
    requires outsider !in r.audience
    requires forall t :: t in own ==> Avoids(r.key.value.seed, t)
    ensures Computable(own + ChainsGivenTo(Run(Empty(local), ops), outsider),
                       KeyAt(FREE, Atom(r.key.value.seed), r.key.value.steps)) <==>
            r.kind == MemberRemoved(outsider) && OfferedFor(Run(Empty(local), ops), outsider, r.key.value)
  {
    var g := Run(Empty(local), ops);
    RunKeepsSound(Empty(local), ops);
    ReadableIffOffered(g, outsider, r.key.value, own);
    if OfferedFor(g, outsider, r.key.value) {
      var o :| o in g.offers && o.peer == outsider && o.seed == r.key.value.seed && o.steps <= r.key.value.steps;
      assert Guarded(r, o);
    }
  }

  lemma {:induction false} OtherChainAvoids(id: nat, other: nat, n: nat)
    requires id != other
    ensures Avoids(id, ChainAt(FREE, Atom(other), n))
  {
    if n > 0 {
      OtherChainAvoids(id, other, n - 1);
    }
  }

  /** A re-keying offers only to the list. */
  lemma RekeyOffersListed(g: Groups, c: ChatId, members: seq<PeerKey>, rng: bool, reach: set<PeerKey>, o: Offer)
    requires o in Rekey(g, c, members, rng, reach).offers
    ensures o in g.offers ||
            (rng && o.peer in members && o.peer != g.local && o.peer in reach && o == Offer(o.peer, g.nextSeed, 0))
  {
    if rng {
      var chain := Freshened(g, c);
      var offers := OfferAll(chain, c, members, reach).offers;
      var i :| 0 <= i < |offers| && offers[i] == o;
      if i < |g.offers| {
        assert g.offers[i] == o;
      } else {
        OfferAllAdds(chain, c, members, reach, i);
      }
    }
  }

  /** Nothing is offered to the removed peer by its removal. */
  lemma RemovalOffersOthers(g: Groups, c: ChatId, peer: PeerKey, w: World, o: Offer)
    requires o in RemoveMember(g, c, peer, w).offers
    ensures o in g.offers || o.peer != peer
  {
    if c in g.chats && w.saves {
      var members := Others(g.chats[c].members, peer);
      var g1 := g.(chats := g.chats[c := g.chats[c].(members := members)]);
      var g2 := SendTo(g1, c, MemberRemoved(peer), w.noticeRng, w.reach);
      var g3 := if peer == g.local then g2.(keys := g2.keys - {c}) else g2;
      RekeyOffersListed(g3, c, members, w.rotateRng, w.reach, o);
      if o in g2.offers && !UsesPairwise(g1, c) && c !in g.keys {
        RekeyOffersListed(g1, c, members, w.noticeRng, w.reach, o);
      }
    }
  }

  lemma RemovalKeepsOffers(g: Groups, c: ChatId, peer: PeerKey, w: World, o: Offer)
    requires o in g.offers
    ensures o in RemoveMember(g, c, peer, w).offers
  {
    assert g.offers <= RemoveMember(g, c, peer, w).offers;
  }

  /** The record of the notice a removal sends, if there is a chain or one can be made. */
  lemma RemovalSendsNotice(g: Groups, c: ChatId, peer: PeerKey, w: World)
    requires c in g.chats && w.saves && (c in g.keys || w.noticeRng)
    requires !UsesPairwise(g.(chats := g.chats[c := g.chats[c].(members := Others(g.chats[c].members, peer))]), c)
    ensures var g' := RemoveMember(g, c, peer, w);
            && |g'.wire| == |g.wire| + 1
            && var notice := g'.wire[|g.wire|];
            && notice.kind == MemberRemoved(peer) && peer !in notice.audience
            && notice.key == Some(if c in g.keys then g.keys[c] else OwnKey(g.nextSeed, 0))
  {
  }

  /** The exception, exactly: the removal notice goes out before the rotation, so the
      removed peer can compute its key if and only if the chat had a chain and the peer
      was ever offered it. A chain made on the fly for the notice is out of its reach. */
  lemma RemovedPeerReadsNoticeIff(g: Groups, c: ChatId, peer: PeerKey, w: World, own: set<Term>)
    requires Sound(g, {}) && c in g.chats && w.saves && (c in g.keys || w.noticeRng)
    requires !UsesPairwise(g.(chats := g.chats[c := g.chats[c].(members := Others(g.chats[c].members, peer))]), c)
    requires forall t :: t in own ==> Avoids(if c in g.keys then g.keys[c].seed else g.nextSeed, t)
    ensures var g' := RemoveMember(g, c, peer, w);
            && |g'.wire| == |g.wire| + 1
            && var notice := g'.wire[|g.wire|];
            && notice.kind == MemberRemoved(peer) && peer !in notice.audience && notice.key.Some?
            && (Computable(own + ChainsGivenTo(g', peer),
                           KeyAt(FREE, Atom(notice.key.value.seed), notice.key.value.steps)) <==>
                c in g.keys && exists o :: o in g.offers && o.peer == peer && o.seed == g.keys[c].seed)
  {
    var g' := RemoveMember(g, c, peer, w);
    var key := if c in g.keys then g.keys[c] else OwnKey(g.nextSeed, 0);
    RemovalSendsNotice(g, c, peer, w);
    ReadableIffOffered(g', peer, key, own);
    if OfferedFor(g', peer, key) {
      var o :| o in g'.offers && o.peer == peer && o.seed == key.seed && o.steps <= key.steps;
      RemovalOffersOthers(g, c, peer, w, o);
    }
    if c in g.keys && exists o :: o in g.offers && o.peer == peer && o.seed == key.seed {
      var o :| o in g.offers && o.peer == peer && o.seed == key.seed;
      RemovalKeepsOffers(g, c, peer, w, o);
    }
  }

  /** The failure the invariant depends on is within reach: create, then remove with a
      random source that does not answer at the rotation. */
  lemma RotationMissedIsReached(local: PeerKey, c: ChatId, invited: seq<PeerKey>, peer: PeerKey, w: World, w': World)
    requires peer in invited && peer != local && peer in w.reach && w.saves && w.rotateRng
    requires w'.saves && !w'.rotateRng
    ensures RotationMissed(Run(Empty(local), [Create(c, true, invited, w)]), c, peer, w')
    ensures !RotationsWork(Empty(local), [Create(c, true, invited, w), Remove(c, peer, w')])
  {
    var create, remove := Create(c, true, invited, w), Remove(c, peer, w');
    var g := Apply(Empty(local), create);
    assert [create][1..] == [] && [create, remove][1..] == [remove];
    assert Run(Empty(local), [create]) == Run(g, []) == g;
    CreateOffersInvited(Empty(local), c, true, invited, w);
    assert RotationMissed(g, c, peer, w');
    assert RotationsWork(Empty(local), [create, remove]) ==> RotationsWork(g, [remove]);
    assert RotationsWork(g, [remove]) ==> RotationWorks(g, remove);
  }

  // ----- whom each operation offers the chain -----

  /** Creating a group offers its new chain, from the start, to exactly the invited peers
      that can be reached; a direct chat gets no chain. */
  lemma CreateOffersInvited(g: Groups, c: ChatId, named: bool, invited: seq<PeerKey>, w: World)
    requires c !in g.chats && w.saves
    ensures var g' := CreateChat(g, c, named, invited, w);
            var keyed := (|invited| > 1 || named) && w.rotateRng;
            && g.offers <= g'.offers
            && g'.keys == (if keyed then g.keys[c := OwnKey(g.nextSeed, 0)] else g.keys)
            && (!keyed ==> g'.offers == g.offers)
            && (forall o :: o in g'.offers ==>
                  o in g.offers || (o.peer in invited && o.peer != g.local && o.peer in w.reach &&
                                    o == Offer(o.peer, g.nextSeed, 0)))
            && (keyed ==> forall p :: p in invited && p in w.reach && p != g.local ==>
                Offer(p, g.nextSeed, 0) in g'.offers)
  {
    var members := [g.local] + invited;
    var g1 := g.(chats := g.chats[c := Chat(!(|invited| > 1 || named), members)]);
    var g' := CreateChat(g, c, named, invited, w);
    if (|invited| > 1 || named) && w.rotateRng {
      var chain := Freshened(g1, c);
      forall o | o in g'.offers
        ensures o in g.offers || (o.peer in invited && o.peer != g.local && o.peer in w.reach &&
                                  o == Offer(o.peer, g.nextSeed, 0))
      {
        RekeyOffersListed(g1, c, members, true, w.reach, o);
      }
      forall p | p in invited && p in w.reach && p != g.local
        ensures Offer(p, g.nextSeed, 0) in g'.offers
      {
        OfferAllReaches(chain, c, members, w.reach, p);
      }
    }
  }

  /** With a chain in place the new member is offered the position behind the notice that
      announces it, and nobody is offered anything else. */
  lemma AddOffersFromNow(g: Groups, c: ChatId, peer: PeerKey, w: World)
    requires c in g.chats && peer !in g.chats[c].members && w.saves && c in g.keys && !g.chats[c].direct
    ensures AddMember(g, c, peer, w).offers ==
            g.offers + if peer in w.reach then [Offer(peer, g.keys[c].seed, g.keys[c].steps + 1)] else []
  {
  }

  /** After leaving there is no local chain, whether or not the chat could be saved. */
  lemma LeaveDropsChain(g: Groups, c: ChatId, w: World)
    requires c in g.chats
    ensures var g' := LeaveGroup(g, c, w);
            c !in g'.keys && (g.local !in g'.chats[c].members <==> w.saves || g.local !in g.chats[c].members)
  {
    SendFrame(g, c, MemberLeft, w.noticeRng, w.reach);
  }

  // ----- what each operation stores and sends -----

  /** A new chat holds the local peer and then the invited, as they were named. It is
      direct if and only if it has no name and at most one peer was invited. */
  lemma CreateStores(g: Groups, c: ChatId, named: bool, invited: seq<PeerKey>, w: World)
    requires c !in g.chats
    ensures var g' := CreateChat(g, c, named, invited, w);
            && g'.chats == (if w.saves then g.chats[c := Chat(!named &&
                                                              |invited| <= 1, [g.local] + invited)] else g.chats)
            && g'.wire == g.wire
  {
  }

  /** A new member is put behind the others; a peer that is one already, an unknown chat
      and a failed save change nothing at all. */
  lemma AddStores(g: Groups, c: ChatId, peer: PeerKey, w: World)
    ensures var g' := AddMember(g, c, peer, w);
            if c in g.chats && peer !in g.chats[c].members && w.saves
            then g'.chats == g.chats[c := Chat(g.chats[c].direct, g.chats[c].members + [peer])]
            else g' == g
  {
    if c in g.chats && peer !in g.chats[c].members && w.saves {
      SendFrame(WithMembers(g, c, g.chats[c].members + [peer]), c, MemberAdded, w.noticeRng, w.reach);
    }
  }

  /** The notice of an addition goes to the old and the new members of a group, under the
      chain in place. */
  lemma AddSendsNotice(g: Groups, c: ChatId, peer: PeerKey, w: World)
    requires c in g.chats && peer !in g.chats[c].members && w.saves && c in g.keys && !g.chats[c].direct
    ensures AddMember(g, c, peer, w).wire ==
            g.wire + [Record(MemberAdded, Some(g.keys[c]), (set p | p in g.chats[c].members) + {peer})]
  {
    var g1 := WithMembers(g, c, g.chats[c].members + [peer]);
    assert Audience(g1, c) == (set p | p in g.chats[c].members) + {peer};
  }

  /** A removal takes out the peer, wherever it is listed, and leaves the others in their
      order; an unknown chat and a failed save change nothing at all. */
  lemma RemoveStores(g: Groups, c: ChatId, peer: PeerKey, w: World)
    ensures var g' := RemoveMember(g, c, peer, w);
            if c in g.chats && w.saves
            then g'.chats == g.chats[c := Chat(g.chats[c].direct, Others(g.chats[c].members, peer))]
            else g' == g
  {
    if c in g.chats && w.saves {
      SendFrame(WithMembers(g, c, Others(g.chats[c].members, peer)), c, MemberRemoved(peer), w.noticeRng, w.reach);
    }
  }

  /** The list without a peer, split anywhere, is the two parts without it, and a single
      entry stays or goes: the others keep their places, each as often as before. */
  lemma {:induction false} OthersKeepOrder(a: seq<PeerKey>, b: seq<PeerKey>, gone: PeerKey)
    ensures Others(a + b, gone) == Others(a, gone) + Others(b, gone)
  {
    if a == [] {
      assert a + b == b;
    } else {
      OthersKeepOrder(a[1..], b, gone);
      OthersOfCons(a[0], a[1..], gone);
      OthersOfCons(a[0], a[1..] + b, gone);
      assert a == [a[0]] + a[1..] && a + b == [a[0]] + (a[1..] + b);
      Joined([a[0]], Others(a[1..], gone), Others(b, gone));
    }
  }

  lemma Joined(a: seq<PeerKey>, b: seq<PeerKey>, c: seq<PeerKey>)
    ensures a + (b + c) == a + b + c
  {
  }

  lemma OthersOfCons(p: PeerKey, rest: seq<PeerKey>, gone: PeerKey)
    ensures Others([p] + rest, gone) == if p == gone then Others(rest, gone) else [p] + Others(rest, gone)
  {
    assert ([p] + rest)[1..] == rest;
  }

  /** Leaving a group with a chain in place sends the notice under it, to everybody who was
      a member before, the local peer included. */
  lemma LeaveSendsNotice(g: Groups, c: ChatId, w: World)
    requires c in g.chats && c in g.keys && !g.chats[c].direct
    ensures LeaveGroup(g, c, w).wire == g.wire + [Record(MemberLeft, Some(g.keys[c]), set p | p in g.chats[c].members)]
    ensures LeaveGroup(g, c, w).chats ==
            if w.saves then g.chats[c := Chat(false, Others(g.chats[c].members, g.local))] else g.chats
  {
  }

  /** In a direct chat with somebody else a send draws no chain, offers nothing and puts
      nothing on the group wire: the pairwise session carries it. */
  lemma DirectSendsPairwise(g: Groups, c: ChatId, other: PeerKey, w: World)
    requires c in g.chats && g.chats[c].direct && other in g.chats[c].members && other != g.local
    ensures Apply(g, Send(c, w)) == g
  {
  }

  /** A message stays off the group wire if and only if the chat is direct and has somebody
      else in it: a direct chat with nobody else uses the chain like a group. */
  lemma SendsOnGroupWireIff(g: Groups, c: ChatId, w: World)
    requires c in g.chats
    ensures Apply(g, Send(c, w)).wire == g.wire <==>
            g.chats[c].direct && exists p :: p in g.chats[c].members && p != g.local
  {
    var wire' := Apply(g, Send(c, w)).wire;
    assert wire' == g.wire || |wire'| == |g.wire| + 1;
  }

  /** In a group it puts exactly one record on the wire, to all members, under the chain in
      place, and the chain moves one position. */
  lemma GroupSendsUnderChain(g: Groups, c: ChatId, w: World)
    requires c in g.chats && !g.chats[c].direct && c in g.keys
    ensures var g' := Apply(g, Send(c, w));
            && g'.wire == g.wire + [Record(UserMessage, Some(g.keys[c]), set p | p in g.chats[c].members)]
            && g'.keys == g.keys[c := OwnKey(g.keys[c].seed, g.keys[c].steps + 1)]
            && g'.chats == g.chats && g'.offers == g.offers
  {
  }

  /** Without a chain in place a message draws one first, if it can: it goes out under the
      new chain at its start, and every reachable member computes its key. */
  lemma ChainOnTheFlyIsRead(g: Groups, c: ChatId, kind: Kind, reach: set<PeerKey>, member: PeerKey)
    requires c in g.chats && !g.chats[c].direct && c !in g.keys
    requires member in g.chats[c].members && member in reach && member != g.local
    ensures var g' := SendTo(g, c, kind, true, reach);
            && g'.wire == g.wire + [Record(kind, Some(OwnKey(g.nextSeed, 0)), Audience(g, c))]
            && Computable(ChainsGivenTo(g', member), KeyAt(FREE, Atom(g.nextSeed), 0))
  {
    var g' := SendTo(g, c, kind, true, reach);
    OfferAllReaches(Freshened(g, c), c, g.chats[c].members, reach, member);
    assert Offer(member, g.nextSeed, 0) in g'.offers;
    LaterMessagesOpen(ChainsGivenTo(g', member), g.nextSeed, 0, 0);
  }

  /** A group just created, with a random source that answers: the next message is one
      record under the new chain at its start, for the local peer and everybody invited,
      and every invited peer that could be reached computes its key. */
  lemma NewGroupReadsFirstMessage(g: Groups, c: ChatId, named: bool, invited: seq<PeerKey>, w: World, w': World,
                                  peer: PeerKey)
    requires c !in g.chats && w.saves && w.rotateRng && (named || |invited| > 1)
    requires peer in invited && peer in w.reach && peer != g.local
    ensures var g2 := Run(g, [Create(c, named, invited, w), Send(c, w')]);
            && g2.wire == g.wire + [Record(UserMessage, Some(OwnKey(g.nextSeed, 0)),
                                           {g.local} + (set p | p in invited))]
            && Computable(ChainsGivenTo(g2, peer), KeyAt(FREE, Atom(g.nextSeed), 0))
  {
    var create, send := Create(c, named, invited, w), Send(c, w');
    var g1 := Apply(g, create);
    assert [create, send][1..] == [send] && [send][1..] == [];
    assert Run(g, [create, send]) == Run(g1, [send]) == Run(Apply(g1, send), []);
    CreateStores(g, c, named, invited, w);
    CreateOffersInvited(g, c, named, invited, w);
    NextMessageOpens(g1, c, w', Offer(peer, g.nextSeed, 0));
    assert Audience(g1, c) == {g.local} + (set p | p in invited);
  }

  // ----- the clear-text fallback -----

  ghost predicate AllKeyed(g: Groups) {
    forall r :: r in g.wire ==> r.key.Some?
  }

  /** A message to the chat goes out in the clear: there is no chain and none can be drawn. */
  predicate SendsClear(g: Groups, c: ChatId, rng: bool) {
    c in g.chats && !UsesPairwise(g, c) && c !in g.keys && !rng
  }

  /** The operation sends such a message, its notice or the user message itself. */
  predicate ClearOp(g: Groups, op: Op) {
    match op
    case Create(_, _, _, _) => false
    case Add(c, peer, w) =>
      c in g.chats && peer !in g.chats[c].members && w.saves &&
        SendsClear(WithMembers(g, c, g.chats[c].members + [peer]), c, w.noticeRng)
    case Remove(c, peer, w) =>
      c in g.chats && w.saves && SendsClear(WithMembers(g, c, Others(g.chats[c].members, peer)), c, w.noticeRng)
    case Leave(c, w) => SendsClear(g, c, w.noticeRng)
    case Send(c, w) => SendsClear(g, c, w.noticeRng)
  }

  function WithMembers(g: Groups, c: ChatId, members: seq<PeerKey>): Groups
    requires c in g.chats
  {
    g.(chats := g.chats[c := g.chats[c].(members := members)])
  }

  predicate NoClearOps(g: Groups, ops: seq<Op>)
    decreases |ops|
  {
    ops == [] || (!ClearOp(g, ops[0]) && NoClearOps(Apply(g, ops[0]), ops[1..]))
  }

  lemma SentKeyedIff(g: Groups, c: ChatId, kind: Kind, rng: bool, reach: set<PeerKey>)
    ensures AllKeyed(SendTo(g, c, kind, rng, reach)) <==> AllKeyed(g) && !SendsClear(g, c, rng)
  {
    var wire, wire' := g.wire, SendTo(g, c, kind, rng, reach).wire;
    if wire' != wire {
      assert wire' == wire + [wire'[|wire|]];
      assert wire'[|wire|] in wire';
      assert forall r :: r in wire ==> r in wire';
    }
  }

  /** An operation adds a message in the clear if and only if its own draw failed while
      the chat had no chain. */
  lemma StepInTheClearIff(g: Groups, op: Op)
    ensures AllKeyed(Apply(g, op)) <==> AllKeyed(g) && !ClearOp(g, op)
  {
    match op
    case Create(_, _, _, _) =>
    case Add(c, peer, w) =>
      if c in g.chats {
        SentKeyedIff(WithMembers(g, c, g.chats[c].members + [peer]), c, MemberAdded, w.noticeRng, w.reach);
      }
    case Remove(c, peer, w) =>
      if c in g.chats {
        SentKeyedIff(WithMembers(g, c, Others(g.chats[c].members, peer)), c, MemberRemoved(peer), w.noticeRng, w.reach);
      }
    case Leave(c, w) => SentKeyedIff(g, c, MemberLeft, w.noticeRng, w.reach);
    case Send(c, w) => SentKeyedIff(g, c, UserMessage, w.noticeRng, w.reach);
  }

  /** Over a run every group payload is encrypted if and only if no operation was such. */
  lemma {:induction false} RunNeverInTheClearIff(g: Groups, ops: seq<Op>)
    ensures AllKeyed(Run(g, ops)) <==> AllKeyed(g) && NoClearOps(g, ops)
    decreases |ops|
  {
    if ops != [] {
      StepInTheClearIff(g, ops[0]);
      RunNeverInTheClearIff(Apply(g, ops[0]), ops[1..]);
    }
  }

  /** After a removal with a working random source the chat has a new chain at its
      start, offered to every remaining member that can be reached. */
  lemma RemovalOffersNewChain(g: Groups, c: ChatId, gone: PeerKey, w: World, member: PeerKey)
    requires c in g.chats && w.saves && w.rotateRng
    requires member in g.chats[c].members && member != gone && member != g.local && member in w.reach
    ensures var g1 := RemoveMember(g, c, gone, w);
            && g1.chats == g.chats[c := g.chats[c].(members := Others(g.chats[c].members, gone))]
            && c in g1.keys && g1.keys[c].steps == 0
            && Offer(member, g1.keys[c].seed, 0) in g1.offers
  {
    var members := Others(g.chats[c].members, gone);
    var noticed := SendTo(g.(chats := g.chats[c := g.chats[c].(members := members)]), c, MemberRemoved(gone),
                          w.noticeRng, w.reach);
    var dropped := if gone == g.local then noticed.(keys := noticed.keys - {c}) else noticed;
    var chain := Freshened(dropped, c);
    OfferAllReaches(chain, c, members, w.reach, member);
  }

  /** The other half of the rule: after a removal with a working random source, every
      remaining member that can be reached computes the key of the next user message. */
  lemma MembersReadAfterRemoval(g: Groups, c: ChatId, gone: PeerKey, w: World, w': World, member: PeerKey)
    requires c in g.chats && w.saves && w.rotateRng
    requires member in g.chats[c].members && member != gone && member != g.local && member in w.reach
    requires !g.chats[c].direct
    ensures var g1 := RemoveMember(g, c, gone, w);
            var g2 := Apply(g1, Send(c, w'));
            && |g2.wire| == |g1.wire| + 1
            && var r := g2.wire[|g1.wire|];
            && r.kind == UserMessage && r.audience == (set p | p in g.chats[c].members && p != gone)
            && r.key.Some?
            && Computable(ChainsGivenTo(g2, member), KeyAt(FREE, Atom(r.key.value.seed), r.key.value.steps))
  {
    RemovalOffersNewChain(g, c, gone, w, member);
    var g1 := RemoveMember(g, c, gone, w);
    var k := g1.keys[c];
    NextMessageOpens(g1, c, w', Offer(member, k.seed, 0));
  }

  lemma NextMessageOpens(g: Groups, c: ChatId, w: World, o: Offer)
    requires c in g.chats && !g.chats[c].direct && c in g.keys
    requires o in g.offers && o.seed == g.keys[c].seed && o.steps <= g.keys[c].steps
    ensures var g' := Apply(g, Send(c, w));
            && g'.wire == g.wire + [Record(UserMessage, Some(g.keys[c]), Audience(g, c))]
            && Computable(ChainsGivenTo(g', o.peer), KeyAt(FREE, Atom(o.seed), g.keys[c].steps))
  {
    var g' := Apply(g, Send(c, w));
    assert o in g'.offers;
    LaterMessagesOpen(ChainsGivenTo(g', o.peer), o.seed, o.steps, g.keys[c].steps);
  }
}
