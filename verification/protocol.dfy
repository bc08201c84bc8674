/** The wire contract between the mobile client and the chat server: the
    records that travel inside frames, the closed set of inbound envelopes
    (one variant per `type` tag), and the outbound requests with their
    field-map encoding. Frames are modelled already decoded; JSON text is
    not modelled. */
module Protocol {
  import opened Wrappers

  /** Delivery status of one chat message. */
  datatype ChatStatus = Sent | Delivered | Read

  /** A user as serialised in payloads: the client's `User` interface plus the
      status string the directory screen reads. */
  datatype WireUser = WireUser(
    id: int,
    firstName: string,
    lastName: string,
    countryCode: string,
    contactNo: string,
    profileImage: Option<string>,
    status: string)

  /** One chat message with both endpoints expanded. Timestamps are
      milliseconds since the epoch. */
  datatype WireChat = WireChat(
    id: int,
    message: string,
    from: WireUser,
    to: WireUser,
    createdAt: int,
    updatedAt: int,
    status: ChatStatus)

  /** One row of the conversation list. */
  datatype ChatSummary = ChatSummary(
    friendId: int,
    friendName: string,
    lastMessage: string,
    lastTimeStamp: int,
    unreadCount: int,
    profileImage: string)

  /** Server-to-client frames, one variant per `type` tag. `ChatPush` is the
      server's "chat" frame, which no client hook listens for. */
  datatype Envelope =
    | FriendList(summaries: seq<ChatSummary>)
    | SingleChat(chats: seq<WireChat>)
    | NewMessage(chat: WireChat)
    | FriendData(friend: Option<WireUser>)
    | AllUsers(users: seq<WireUser>)
    | NewContactResponse(message: string, responseStatus: bool)
    | Pong
    | ChatPush(pushed: WireChat)

  function Tag(e: Envelope): string {
    match e
    case FriendList(_) => "friend_list"
    case SingleChat(_) => "single_chat"
    case NewMessage(_) => "new_message"
    case FriendData(_) => "friend_data"
    case AllUsers(_) => "get_all_users"
    case NewContactResponse(_, _) => "new_contact_response_text"
    case Pong => "PONG"
    case ChatPush(_) => "chat"
  }

  /** Demultiplexing by tag is unambiguous: equal tags mean the same variant. */
  lemma TagsDistinguishVariants(e1: Envelope, e2: Envelope)
    requires Tag(e1) == Tag(e2)
    ensures e1.FriendList? == e2.FriendList? && e1.SingleChat? == e2.SingleChat?
    ensures e1.NewMessage? == e2.NewMessage? && e1.FriendData? == e2.FriendData?
    ensures e1.AllUsers? == e2.AllUsers? && e1.NewContactResponse? == e2.NewContactResponse?
    ensures e1.Pong? == e2.Pong? && e1.ChatPush? == e2.ChatPush?
  {
  }

  // -----------------------------------------------------------------------
  // Client-to-server frames

  /** The `user` object of a `save_new_contact` request. Absent optional
      fields are `None`; the ISO timestamps the screens attach are not
      modelled. */
  datatype ContactDraft = ContactDraft(
    id: int,
    firstName: string,
    lastName: string,
    displayName: Option<string>,
    countryCode: Option<string>,
    contactNo: string,
    status: string)

  type Positive = n: int | n > 0 witness 1

  /** A decoded JSON value as the server sees it. Numbers are rationals
      `num / den`; the contact draft is the only nested object clients send. */
  datatype JValue =
    | JNull
    | JBool(b: bool)
    | JNum(num: int, den: Positive)
    | JStr(s: string)
    | JContact(draft: ContactDraft)

  /** A frame as a map from field name to value (a JavaScript object literal). */
  type Fields = map<string, JValue>

  /** The requests the client hooks issue. */
  datatype Request =
    | GetChatList
    | GetSingleChat(friendId: int)
    | GetFriendData(friendId: int)
    | GetAllUsers
    | SaveNewContact(user: ContactDraft)
    | Ping

  function RequestType(r: Request): string {
    match r
    case GetChatList => "get_chat_list"
    case GetSingleChat(_) => "get_single_chat"
    case GetFriendData(_) => "friend_data"
    case GetAllUsers => "get_all_users"
    case SaveNewContact(_) => "save_new_contact"
    case Ping => "ping"
  }

  function IntValue(n: int): JValue {
    JNum(n, 1)
  }

  /** The object literal a hook passes to `sendMessage`. */
  function Encode(r: Request): (f: Fields)
    ensures "type" in f && f["type"] == JStr(RequestType(r))
    ensures "userId" !in f
  {
    match r
    case GetChatList => map["type" := JStr("get_chat_list")]
    case GetSingleChat(id) => map["type" := JStr("get_single_chat"), "friendId" := IntValue(id)]
    case GetFriendData(id) => map["type" := JStr("friend_data"), "friendId" := IntValue(id)]
    case GetAllUsers => map["type" := JStr("get_all_users")]
    case SaveNewContact(u) => map["type" := JStr("save_new_contact"), "user" := JContact(u)]
    case Ping => map["type" := JStr("ping")]
  }
}
