/** The per-feature hooks of the client: each one issues its requests when
    its effect runs with a socket, and folds the inbound envelopes whose
    `type` it tests into its view state. Reducers are stated in terms of the
    wire tag, which is what the hooks compare. */
module Hooks {
  import opened Wrappers
  import opened Protocol
  import Replay

  // -----------------------------------------------------------------------
  // Listener registration on a socket

  /** The message listeners attached to one socket, by identity. Every
      effect run creates a fresh closure, so a new listener is never
      already present. */
  type Listeners = set<nat>

  function Subscribe(ls: Listeners, l: nat): (r: Listeners)
    ensures l in r && ls <= r
    ensures forall x :: x in r <==> x in ls || x == l
  {
    ls + {l}
  }

  function Unsubscribe(ls: Listeners, l: nat): (r: Listeners)
    ensures l !in r && r <= ls
    ensures forall x :: x in r <==> x in ls && x != l
  {
    ls - {l}
  }

  /** An effect's cleanup removes exactly the listener the effect added. */
  lemma CleanupRemovesOwnListener(ls: Listeners, l: nat)
    requires l !in ls
    ensures Unsubscribe(Subscribe(ls, l), l) == ls
  {
    assert forall x :: x in Unsubscribe(Subscribe(ls, l), l) <==> x in ls;
  }

  // -----------------------------------------------------------------------
  // useChatList

  const ChatListInitial: seq<ChatSummary> := []

  /** One effect run: one `get_chat_list` request when there is a socket. */
  function ChatListRequests(hasSocket: bool): (rs: seq<Request>)
    ensures hasSocket ==> rs == [GetChatList]
    ensures !hasSocket ==> rs == []
  {
    if hasSocket then [GetChatList] else []
  }

  function ChatListReduce(list: seq<ChatSummary>, e: Envelope): (r: seq<ChatSummary>)
    ensures Tag(e) == "friend_list" ==> r == e.summaries
    ensures Tag(e) != "friend_list" ==> r == list
  {
    if e.FriendList? then e.summaries else list
  }

  /** The list shows the payload of the last `friend_list` received, and is
      empty until one arrives. */
  lemma ChatListLastSnapshotWins(es: seq<Envelope>)
    ensures (forall i | 0 <= i < |es| :: !es[i].FriendList?) ==> Replay.Run(ChatListReduce, ChatListInitial, es) == []
    ensures forall i | 0 <= i < |es| && es[i].FriendList? && (forall j | i < j < |es| :: !es[j].FriendList?) ::
              Replay.Run(ChatListReduce, ChatListInitial, es) == es[i].summaries
  {
    var pick := (e: Envelope) => if e.FriendList? then Some(e.summaries) else None;
    Replay.LastPickWins(ChatListReduce, (l: seq<ChatSummary>) => l, pick, ChatListInitial, es);
  }

  /** Receiving the same snapshot twice is the same as receiving it once. */
  lemma ChatListIdempotent(list: seq<ChatSummary>, e: Envelope)
    ensures ChatListReduce(ChatListReduce(list, e), e) == ChatListReduce(list, e)
  {
  }

  // -----------------------------------------------------------------------
  // useSingleChat

  /** `friend` is `None` while undefined. A `friend_data` for a missing user
      carries a null payload, which the server's JSON writer omits, so the
      client reads it as undefined too. */
  datatype SingleChatState = SingleChatState(messages: seq<WireChat>, friend: Option<WireUser>)

  const SingleChatInitial: SingleChatState := SingleChatState([], None)

  /** One effect run: the history request, then the peer request, both for `friendId`. */
  function SingleChatRequests(friendId: int, hasSocket: bool): (rs: seq<Request>)
    ensures hasSocket ==> rs == [GetSingleChat(friendId), GetFriendData(friendId)]
    ensures !hasSocket ==> rs == []
  {
    if hasSocket then [GetSingleChat(friendId), GetFriendData(friendId)] else []
  }

  /** A pushed message belongs to the open conversation when the peer is
      either its recipient or its sender. */
  function Involves(friendId: int, c: WireChat): (b: bool)
    ensures b <==> c.to.id == friendId || c.from.id == friendId
  {
    c.to.id == friendId || c.from.id == friendId
  }

  function SingleChatReduce(friendId: int, st: SingleChatState, e: Envelope): (r: SingleChatState)
    ensures Tag(e) == "single_chat" ==> r == st.(messages := e.chats)
    ensures Tag(e) == "new_message" && Involves(friendId, e.chat) ==> r == st.(messages := st.messages + [e.chat])
    ensures Tag(e) == "new_message" && !Involves(friendId, e.chat) ==> r == st
    ensures Tag(e) == "friend_data" ==> r == st.(friend := e.friend)
    ensures Tag(e) !in {"single_chat", "new_message", "friend_data"} ==> r == st
  {
    match e
    case SingleChat(chats) => st.(messages := chats)
    case NewMessage(c) => if Involves(friendId, c) then st.(messages := st.messages + [c]) else st
    case FriendData(f) => st.(friend := f)
    case _ => st
  }

  function SingleChatStep(friendId: int): (SingleChatState, Envelope) -> SingleChatState {
    (st: SingleChatState, e: Envelope) => SingleChatReduce(friendId, st, e)
  }

  /** The pushed messages of `es` that belong to the conversation with
      `friendId`, in arrival order. */
  function Accepted(friendId: int, es: seq<Envelope>): (r: seq<WireChat>)
    ensures |r| <= |es|
    ensures forall k | 0 <= k < |r| :: Involves(friendId, r[k])
    ensures (forall i | 0 <= i < |es| :: !es[i].NewMessage?) ==> r == []
    decreases |es|
  {
    if es == [] then []
    else
      var e := es[|es| - 1];
      Accepted(friendId, es[..|es| - 1]) + (if e.NewMessage? && Involves(friendId, e.chat) then [e.chat] else [])
  }

  /** Without a history snapshot, the accepted pushes are appended to the
      messages already shown, in arrival order and without deduplication. */
  lemma {:induction false} MessagesAppendAccepted(friendId: int, st: SingleChatState, es: seq<Envelope>)
    requires forall i | 0 <= i < |es| :: !es[i].SingleChat?
    ensures Replay.Run(SingleChatStep(friendId), st, es).messages == st.messages + Accepted(friendId, es)
    decreases |es|
  {
    if es != [] {
      MessagesAppendAccepted(friendId, st, es[..|es| - 1]);
    }
  }

  /** After the last history snapshot `es[i]`, the conversation is that
      snapshot followed by the accepted pushes that arrived after it. */
  lemma MessagesAfterSnapshot(friendId: int, st: SingleChatState, es: seq<Envelope>, i: nat)
    requires i < |es| && es[i].SingleChat?
    requires forall j | i < j < |es| :: !es[j].SingleChat?
    ensures Replay.Run(SingleChatStep(friendId), st, es).messages == es[i].chats + Accepted(friendId, es[i + 1..])
  {
    var step := SingleChatStep(friendId);
    var a, b := es[..i + 1], es[i + 1..];
    assert es == a + b;
    Replay.RunAppend(step, st, a, b);
    var mid := Replay.Run(step, st, a);
    assert a[..|a| - 1] == es[..i];
    assert mid.messages == es[i].chats;
    MessagesAppendAccepted(friendId, mid, b);
  }

  /** `friend` holds the payload of the last `friend_data`, and is undefined
      until one arrives or when that payload is the dropped null. */
  lemma FriendLastSnapshotWins(friendId: int, es: seq<Envelope>)
    ensures (forall i | 0 <= i < |es| :: !es[i].FriendData?) ==>
              Replay.Run(SingleChatStep(friendId), SingleChatInitial, es).friend == None
    ensures forall i | 0 <= i < |es| && es[i].FriendData? && (forall j | i < j < |es| :: !es[j].FriendData?) ::
              Replay.Run(SingleChatStep(friendId), SingleChatInitial, es).friend == es[i].friend
  {
    var pick := (e: Envelope) => if e.FriendData? then Some(e.friend) else None;
    Replay.LastPickWins(SingleChatStep(friendId), (st: SingleChatState) => st.friend, pick, SingleChatInitial, es);
  }

  // -----------------------------------------------------------------------
  // getAllUsers

  const AllUsersInitial: seq<WireUser> := []

  function AllUsersRequests(hasSocket: bool): (rs: seq<Request>)
    ensures hasSocket ==> rs == [GetAllUsers]
    ensures !hasSocket ==> rs == []
  {
    if hasSocket then [GetAllUsers] else []
  }

  function AllUsersReduce(users: seq<WireUser>, e: Envelope): (r: seq<WireUser>)
    ensures Tag(e) == "get_all_users" ==> r == e.users
    ensures Tag(e) != "get_all_users" ==> r == users
  {
    if e.AllUsers? then e.users else users
  }

  /** The directory shows the last `get_all_users` payload, in its order. */
  lemma AllUsersLastSnapshotWins(es: seq<Envelope>)
    ensures (forall i | 0 <= i < |es| :: !es[i].AllUsers?) ==> Replay.Run(AllUsersReduce, AllUsersInitial, es) == []
    ensures forall i | 0 <= i < |es| && es[i].AllUsers? && (forall j | i < j < |es| :: !es[j].AllUsers?) ::
              Replay.Run(AllUsersReduce, AllUsersInitial, es) == es[i].users
  {
    var pick := (e: Envelope) => if e.AllUsers? then Some(e.users) else None;
    Replay.LastPickWins(AllUsersReduce, (l: seq<WireUser>) => l, pick, AllUsersInitial, es);
  }

  // -----------------------------------------------------------------------
  // useSendNewContact

  /** `responseStatus` is `None` while null. */
  datatype ContactResult = ContactResult(responseText: string, responseStatus: Option<bool>)

  const ContactResultInitial: ContactResult := ContactResult("", None)

  /** `sendNewContact(user)`: exactly one request carrying the draft as given. */
  function SendNewContactRequests(user: ContactDraft): (rs: seq<Request>)
    ensures |rs| == 1 && rs[0].SaveNewContact? && rs[0].user == user
  {
    [SaveNewContact(user)]
  }

  function ContactResultReduce(res: ContactResult, e: Envelope): (r: ContactResult)
    ensures Tag(e) == "new_contact_response_text" ==> r == ContactResult(e.message, Some(e.responseStatus))
    ensures Tag(e) != "new_contact_response_text" ==> r == res
  {
    if e.NewContactResponse? then ContactResult(e.message, Some(e.responseStatus)) else res
  }

  /** Results are not correlated with requests: the state is that of the
      last result envelope received, whatever was sent in between. */
  lemma ContactResultLastWins(es: seq<Envelope>)
    ensures (forall i | 0 <= i < |es| :: !es[i].NewContactResponse?) ==>
              Replay.Run(ContactResultReduce, ContactResultInitial, es) == ContactResultInitial
    ensures forall i | 0 <= i < |es| && es[i].NewContactResponse? && (forall j | i < j < |es| :: !es[j].NewContactResponse?) ::
              Replay.Run(ContactResultReduce, ContactResultInitial, es) == ContactResult(es[i].message, Some(es[i].responseStatus))
  {
    var pick := (e: Envelope) => if e.NewContactResponse? then Some(ContactResult(e.message, Some(e.responseStatus))) else None;
    Replay.LastPickWins(ContactResultReduce, (r: ContactResult) => r, pick, ContactResultInitial, es);
  }

  // -----------------------------------------------------------------------
  // useWebSocketPing

  const PingInterval: nat := 30000

  /** The keepalive runs only with a socket that is connected. */
  function PingActive(hasSocket: bool, isConnected: bool): (active: bool)
    ensures active <==> hasSocket && isConnected
  {
    hasSocket && isConnected
  }

  /** The pings sent while the effect has been in place for `elapsed`
      milliseconds: one per completed interval, none when inactive. */
  function PingsSent(hasSocket: bool, isConnected: bool, elapsed: nat): (rs: seq<Request>)
    ensures PingActive(hasSocket, isConnected) ==> |rs| == elapsed / PingInterval
    ensures !PingActive(hasSocket, isConnected) ==> rs == []
    ensures forall i | 0 <= i < |rs| :: rs[i] == Ping
  {
    if PingActive(hasSocket, isConnected) then seq(elapsed / PingInterval, _ => Ping) else []
  }
}
