/** The client's real-time layer as a whole: the hooks mounted under one
    provider, each with its view state and whether its message listener is
    attached. One inbound envelope is delivered to every attached listener;
    requests go out through the provider's `sendMessage`. */
module ClientSync {
  import opened Wrappers
  import opened Protocol
  import opened Connection
  import opened Hooks
  import Replay

  /** The state of one mounted hook, by kind. */
  datatype View =
    | ChatListHook(chatList: seq<ChatSummary>)
    | SingleChatHook(friendId: int, chat: SingleChatState)
    | AllUsersHook(users: seq<WireUser>)
    | NewContactHook(result: ContactResult)
    | PingHook

  datatype Hook = Hook(view: View, listening: bool)

  predicate SameKind(a: View, b: View) {
    && a.ChatListHook? == b.ChatListHook? && a.SingleChatHook? == b.SingleChatHook?
    && a.AllUsersHook? == b.AllUsersHook? && a.NewContactHook? == b.NewContactHook?
    && a.PingHook? == b.PingHook?
  }

  /** The `type` values each hook's listener compares against. */
  function TrackedTags(v: View): set<string> {
    match v
    case ChatListHook(_) => {"friend_list"}
    case SingleChatHook(_, _) => {"single_chat", "new_message", "friend_data"}
    case AllUsersHook(_) => {"get_all_users"}
    case NewContactHook(_) => {"new_contact_response_text"}
    case PingHook => {"PONG"}
  }

  /** One hook's listener handling one envelope. The keepalive hook only
      logs PONG. */
  function ReduceView(v: View, e: Envelope): (r: View)
    ensures SameKind(v, r)
    ensures Tag(e) !in TrackedTags(v) ==> r == v
    ensures v.SingleChatHook? ==> r.friendId == v.friendId
  {
    match v
    case ChatListHook(l) => ChatListHook(ChatListReduce(l, e))
    case SingleChatHook(id, st) => SingleChatHook(id, SingleChatReduce(id, st, e))
    case AllUsersHook(u) => AllUsersHook(AllUsersReduce(u, e))
    case NewContactHook(res) => NewContactHook(ContactResultReduce(res, e))
    case PingHook => PingHook
  }

  /** Delivering one envelope to every mounted hook: only attached listeners
      run. */
  function Deliver(hooks: seq<Hook>, e: Envelope): (r: seq<Hook>)
    ensures |r| == |hooks|
    ensures forall i | 0 <= i < |hooks| :: r[i].listening == hooks[i].listening && SameKind(r[i].view, hooks[i].view)
  {
    seq(|hooks|, i requires 0 <= i < |hooks| =>
      if hooks[i].listening then Hook(ReduceView(hooks[i].view, e), true) else hooks[i])
  }

  /** An envelope changes only the attached hooks that track its tag. */
  lemma OnlyTrackingHooksChange(hooks: seq<Hook>, e: Envelope)
    ensures forall i | 0 <= i < |hooks| && Deliver(hooks, e)[i] != hooks[i] ::
              hooks[i].listening && Tag(e) in TrackedTags(hooks[i].view)
  {
  }

  /** A hook whose listener is not attached (its effect ran without a socket)
      keeps its initial state whatever arrives: in particular the contact
      result stays null. */
  lemma {:induction false} DetachedHookNeverChanges(hooks: seq<Hook>, es: seq<Envelope>, i: nat)
    requires i < |hooks| && !hooks[i].listening
    ensures |Replay.Run(Deliver, hooks, es)| == |hooks|
    ensures Replay.Run(Deliver, hooks, es)[i] == hooks[i]
    decreases |es|
  {
    if es != [] {
      DetachedHookNeverChanges(hooks, es[..|es| - 1], i);
    }
  }

  // -----------------------------------------------------------------------
  // Effects

  /** The requests a hook's effect sends when it runs. */
  function EffectRequests(v: View, hasSocket: bool): (rs: seq<Request>)
    ensures !hasSocket ==> rs == []
  {
    match v
    case ChatListHook(_) => ChatListRequests(hasSocket)
    case SingleChatHook(id, _) => SingleChatRequests(id, hasSocket)
    case AllUsersHook(_) => AllUsersRequests(hasSocket)
    case NewContactHook(_) => []
    case PingHook => []
  }

  /** Whether a hook's effect attaches its listener. */
  predicate AttachesListener(v: View, hasSocket: bool, isConnected: bool) {
    if v.PingHook? then PingActive(hasSocket, isConnected) else hasSocket
  }

  /** A hook's effect re-running for a new context: cleanup detaches the old
      listener, then the effect attaches a new one when it can and sends its
      requests. View state survives. */
  function RerunEffect(h: Hook, ctx: ContextValue): (r: (Hook, seq<Request>))
    ensures r.0.view == h.view
    ensures r.0.listening <==> AttachesListener(h.view, ctx.socket.Some?, ctx.isConnected)
    ensures r.1 == EffectRequests(h.view, ctx.socket.Some?)
  {
    (Hook(h.view, AttachesListener(h.view, ctx.socket.Some?, ctx.isConnected)),
     EffectRequests(h.view, ctx.socket.Some?))
  }

  /** Unmounting runs the effect's cleanup. */
  function Unmount(h: Hook): (r: Hook)
    ensures !r.listening && r.view == h.view
  {
    h.(listening := false)
  }

  /** The pings a mounted keepalive hook's interval sends over `elapsed`
      milliseconds: the interval exists exactly while the effect's listener
      does, since both are set up under the same guard and torn down by the
      same cleanup. */
  function TimerPings(h: Hook, elapsed: nat): (rs: seq<Request>)
    ensures !h.view.PingHook? || !h.listening ==> rs == []
    ensures h.view.PingHook? && h.listening ==> |rs| == elapsed / PingInterval
    ensures forall i | 0 <= i < |rs| :: rs[i] == Ping
  {
    if h.view.PingHook? && h.listening then PingsSent(true, true, elapsed) else []
  }

  /** After the keepalive effect runs for a context, its interval sends what
      the connection state allows; after unmounting it sends nothing. */
  lemma PingsFollowEffect(h: Hook, ctx: ContextValue, elapsed: nat)
    requires h.view.PingHook?
    ensures TimerPings(RerunEffect(h, ctx).0, elapsed) == PingsSent(ctx.socket.Some?, ctx.isConnected, elapsed)
    ensures TimerPings(Unmount(RerunEffect(h, ctx).0), elapsed) == []
  {
    var r := RerunEffect(h, ctx).0;
    if r.listening {
      var a := TimerPings(r, elapsed);
      var b := PingsSent(ctx.socket.Some?, ctx.isConnected, elapsed);
      assert |a| == |b|;
      assert forall i | 0 <= i < |a| :: a[i] == b[i];
    }
  }

  /** A screen's `friendId` changing: the hook re-subscribes and re-requests
      for the new peer, but the previous peer's messages stay until the next
      history snapshot. */
  function ChangeFriend(h: Hook, friendId: int, ctx: ContextValue): (r: (Hook, seq<Request>))
    requires h.view.SingleChatHook?
    ensures r.0.view.SingleChatHook? && r.0.view.friendId == friendId
    ensures r.0.view.chat == h.view.chat
    ensures ctx.socket.Some? ==> r.1 == [GetSingleChat(friendId), GetFriendData(friendId)]
  {
    RerunEffect(Hook(SingleChatHook(friendId, h.view.chat), h.listening), ctx)
  }

  /** Without a socket, a hook's effect sends nothing and attaches no listener. */
  lemma NoSocketNoTraffic(h: Hook, ctx: ContextValue)
    requires ctx.socket.None?
    ensures RerunEffect(h, ctx).1 == [] && !RerunEffect(h, ctx).0.listening
  {
  }

  // -----------------------------------------------------------------------
  // Transmission

  /** The frames actually transmitted when a hook issues `rs` in one render:
      all of them when the referenced socket is open, none otherwise. */
  function Transmit(p: Provider, rs: seq<Request>): (frames: seq<Fields>)
    ensures |frames| == (if CurrentIsOpen(p) then |rs| else 0)
    ensures forall i | 0 <= i < |frames| :: SendMessage(p, Encode(rs[i])) == Some(frames[i])
  {
    if CurrentIsOpen(p) then seq(|rs|, i requires 0 <= i < |rs| => Stamp(Encode(rs[i]), p.userId)) else []
  }

  /** Every transmitted frame names its request type and carries the
      provider's user id, whatever the hook supplied. */
  lemma FramesCarryIdentity(p: Provider, rs: seq<Request>)
    ensures forall i | 0 <= i < |Transmit(p, rs)| ::
              && Transmit(p, rs)[i]["type"] == JStr(RequestType(rs[i]))
              && Transmit(p, rs)[i]["userId"] == IntValue(p.userId)
  {
    var frames := Transmit(p, rs);
    forall i | 0 <= i < |frames|
      ensures frames[i]["type"] == JStr(RequestType(rs[i])) && frames[i]["userId"] == IntValue(p.userId)
    {
      assert SendMessage(p, Encode(rs[i])) == Some(frames[i]);
    }
  }
}
