/** The engine's group operations as they update the chat and key stores step by step,
    each tied to the function of the old state in `Groups`. */
module GroupEngine {
  import opened Prelude
  import opened Groups

  class Engine {
    const local: PeerKey
    var chats: map<ChatId, Chat>     // the chat store
    var keys: map<ChatId, OwnKey>    // the local sender keys
    var offers: seq<Offer>           // distribution messages handed to the transport
    var wire: seq<Record>            // group payloads encrypted
    var nextSeed: nat                // random atoms drawn so far

    constructor (local: PeerKey)
      ensures State() == Empty(local)
    {
      this.local := local;
      chats, keys, offers, wire, nextSeed := map[], map[], [], [], 0;
    }

    function State(): Groups
      reads this
    {
      Groups(local, chats, keys, offers, wire, nextSeed)
    }

    method DistributeSenderKeyTo(c: ChatId, peer: PeerKey, reach: set<PeerKey>)
      modifies this`offers
      ensures State() == OfferTo(old(State()), c, peer, reach)
    {
      if c in keys {
        if peer in reach {
          offers := offers + [Offer(peer, keys[c].seed, keys[c].steps)];
        }
      }
    }

    method InitGroupSenderKey(c: ChatId, members: seq<PeerKey>, rng: bool, reach: set<PeerKey>)
      modifies this`keys, this`offers, this`nextSeed
      ensures State() == Rekey(old(State()), c, members, rng, reach)
    {
      if !rng {
        return;
      }
      keys := keys[c := OwnKey(nextSeed, 0)];
      nextSeed := nextSeed + 1;
      ghost var started := State();
      for i := 0 to |members|
        invariant State() == OfferAll(started, c, members[..i], reach)
      {
        assert members[..i + 1][..i] == members[..i];
        if members[i] != local {
          DistributeSenderKeyTo(c, members[i], reach);
        }
      }
      assert members[..|members|] == members;
    }

    /** The sender-key branch of sending; `kind` tells a user message from a notice. */
    method SendMessage(c: ChatId, kind: Kind, rng: bool, reach: set<PeerKey>)
      modifies this`keys, this`offers, this`wire, this`nextSeed
      ensures State() == SendTo(old(State()), c, kind, rng, reach)
    {
      if c !in chats {
        return;
      }
      var recipient := FirstOther(chats[c].members);
      if chats[c].direct && recipient.Some? {
        return;
      }
      if c !in keys {
        InitGroupSenderKey(c, chats[c].members, rng, reach);
      }
      if c !in keys {
        wire := wire + [Record(kind, None, set p | p in chats[c].members)];
        return;
      }
      var k := keys[c];
      keys := keys[c := OwnKey(k.seed, k.steps + 1)];
      wire := wire + [Record(kind, Some(k), set p | p in chats[c].members)];
    }

    /** The recipient of a direct chat: the first member that is not the local peer. */
    method FirstOther(members: seq<PeerKey>) returns (recipient: Option<PeerKey>)
      ensures recipient.Some? <==> exists p :: p in members && p != local
      ensures recipient.Some? ==> recipient.value in members && recipient.value != local
    {
      for i := 0 to |members|
        invariant forall j :: 0 <= j < i ==> members[j] == local
      {
        if members[i] != local {
          assert members[i] in members;
          return Some(members[i]);
        }
      }
      return None;
    }

    method WithoutMember(members: seq<PeerKey>, gone: PeerKey) returns (filtered: seq<PeerKey>)
      ensures filtered == Others(members, gone)
    {
      filtered := [];
      for i := 0 to |members|
        invariant filtered + Others(members[i..], gone) == Others(members, gone)
      {
        if members[i] != gone {
          filtered := filtered + [members[i]];
        }
      }
    }

    method CreateGroup(c: ChatId, named: bool, invited: seq<PeerKey>, w: World)
      requires c !in chats    // a new random identifier
      modifies this
      ensures State() == CreateChat(old(State()), c, named, invited, w)
    {
      var direct := true;
      if |invited| > 1 || named {
        direct := false;
      }
      if !w.saves {
        return;
      }
      chats := chats[c := Chat(direct, [local] + invited)];
      if !direct {
        InitGroupSenderKey(c, chats[c].members, w.rotateRng, w.reach);
      }
    }

    method AddChatMember(c: ChatId, peer: PeerKey, w: World)
      modifies this
      ensures State() == AddMember(old(State()), c, peer, w)
    {
      if c !in chats {
        return;
      }
      var chat := chats[c];
      if peer in chat.members || !w.saves {
        return;
      }
      chats := chats[c := chat.(members := chat.members + [peer])];
      SendMessage(c, MemberAdded, w.noticeRng, w.reach);
      DistributeSenderKeyTo(c, peer, w.reach);
    }

    method RemoveChatMember(c: ChatId, peer: PeerKey, w: World)
      modifies this
      ensures State() == RemoveMember(old(State()), c, peer, w)
    {
      if c !in chats {
        return;
      }
      var filtered := WithoutMember(chats[c].members, peer);
      if !w.saves {
        return;
      }
      chats := chats[c := chats[c].(members := filtered)];
      SendMessage(c, MemberRemoved(peer), w.noticeRng, w.reach);
      if peer == local {
        keys := keys - {c};
      }
      InitGroupSenderKey(c, filtered, w.rotateRng, w.reach);
    }

    method LeaveChat(c: ChatId, w: World)
      modifies this
      ensures State() == LeaveGroup(old(State()), c, w)
    {
      if c !in chats {
        return;
      }
      var chat := chats[c];
      SendMessage(c, MemberLeft, w.noticeRng, w.reach);
      var filtered := WithoutMember(chat.members, local);
      keys := keys - {c};
      if w.saves {
        chats := chats[c := chat.(members := filtered)];
      }
    }
  }
}
