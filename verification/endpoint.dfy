/** The server's WebSocket endpoint: the session-to-user map, the open,
    close and error callbacks that keep it and the chat service's registry
    in step, and the dispatch of each inbound frame to its handler. The JSON
    text of a frame is taken as already decoded; a frame the decoder
    rejects is ignored like any other frame that throws. */
module ChatEndPoint {
  import opened Wrappers
  import opened Strings
  import opened Protocol
  import opened Store
  import ChatService
  import UserService

  /** Everything the endpoint's callbacks read or change. Sessions are
      named by number; `open` holds the sessions whose socket is open. */
  datatype Server = Server(db: Db, sessionUser: map<nat, int>, registry: ChatService.Registry, open: set<nat>)

  /** The state after a callback and the frames it sent, in order. */
  datatype Step = Step(server: Server, sent: seq<ChatService.Delivery>)

  /** Every frame goes to an open session some user is registered with. */
  predicate Routed(s: Server, ds: seq<ChatService.Delivery>) {
    forall d | d in ds :: d.session in s.open && exists x | x in s.registry :: s.registry[x] == d.session
  }

  lemma SendToUserRouted(s: Server, userId: int, frame: Option<Envelope>)
    ensures Routed(s, ChatService.SendToUser(s.registry, s.open, userId, frame))
  {
  }

  lemma StatusChangeKeepsValid(db: Db, id: int, status: Status, now: int)
    ensures Valid(db) ==> Valid(UserService.UpdateUserStatus(db, id, status, now))
  {
    if Valid(db) {
      UserService.UpdateUserStatusKeepsValid(db, id, status, now);
    }
  }

  // -----------------------------------------------------------------------
  // Opening, closing, errors

  const QueryPrefix: string := "userId="

  /** The user a connection claims: the query must start with `userId=` and
      the rest must be a Java int. */
  function QueryUser(query: Option<string>): (r: Option<int>)
    ensures r.Some? <==> query.Some? && StartsWith(query.value, QueryPrefix)
                         && JavaParseInt(query.value[|QueryPrefix|..]).Some?
    ensures r.Some? ==> r == JavaParseInt(query.value[|QueryPrefix|..]) && InInt32(r.value)
  {
    if query.Some? && StartsWith(query.value, QueryPrefix) then JavaParseInt(query.value[|QueryPrefix|..])
    else None
  }

  /** The query the client's socket URL carries reads back as its user id. */
  lemma ClientQueryReadsBack(n: int)
    requires InInt32(n)
    ensures QueryUser(Some(QueryPrefix + IntToString(n))) == Some(n)
  {
    var q := QueryPrefix + IntToString(n);
    assert q[..|QueryPrefix|] == QueryPrefix;
    assert q[|QueryPrefix|..] == IntToString(n);
    JavaParseIntOfIntToString(n);
  }

  /** `onOpen`: a valid claim maps the session to the user, registers it,
      marks the user ONLINE and sends the user's conversation list; any
      other query closes the session and changes nothing else. */
  function OnOpen(s: Server, session: nat, query: Option<string>, now: int): (r: Step)
    ensures QueryUser(query).None? ==> r == Step(s.(open := s.open - {session}), [])
    ensures QueryUser(query).Some? ==>
              var id := QueryUser(query).value;
              && r.server.sessionUser == s.sessionUser[session := id]
              && r.server.registry == ChatService.Register(s.registry, id, session)
              && r.server.db == UserService.LogIn(s.db, id, now)
              && r.server.open == s.open + {session}
              && r.sent == [ChatService.Delivery(session, Some(FriendList(ChatService.FriendChats(r.server.db, id))))]
    ensures Valid(s.db) ==> Valid(r.server.db)
  {
    match QueryUser(query)
    case None => Step(s.(open := s.open - {session}), [])
    case Some(id) =>
      var db := UserService.LogIn(s.db, id, now);
      StatusChangeKeepsValid(s.db, id, Online, now);
      var s2 := Server(db, s.sessionUser[session := id], ChatService.Register(s.registry, id, session), s.open + {session});
      Step(s2, ChatService.SendToUser(s2.registry, s2.open, id, Some(FriendList(ChatService.FriendChats(db, id)))))
  }

  /** `onClose`: the session's mapping always goes; a positive user id is
      also unregistered and marked OFFLINE, whichever session that user is
      registered with now. */
  function OnClose(s: Server, session: nat, now: int): (r: Step)
    ensures r.sent == []
    ensures r.server.sessionUser == s.sessionUser - {session} && r.server.open == s.open - {session}
    ensures session in s.sessionUser && s.sessionUser[session] > 0 ==>
              && r.server.registry == ChatService.Unregister(s.registry, s.sessionUser[session])
              && r.server.db == UserService.LogOut(s.db, s.sessionUser[session], now)
    ensures !(session in s.sessionUser && s.sessionUser[session] > 0) ==>
              r.server.registry == s.registry && r.server.db == s.db
    ensures Valid(s.db) ==> Valid(r.server.db)
  {
    var s2 := s.(sessionUser := s.sessionUser - {session}, open := s.open - {session});
    if session in s.sessionUser && s.sessionUser[session] > 0 then
      var id := s.sessionUser[session];
      StatusChangeKeepsValid(s.db, id, Offline, now);
      Step(s2.(registry := ChatService.Unregister(s.registry, id), db := UserService.LogOut(s.db, id, now)), [])
    else
      Step(s2, [])
  }

  /** `onError`: only a session mapped to a positive user id is touched; it
      loses its mapping, the user is marked OFFLINE and unregistered. The
      socket itself stays as it is. */
  function OnError(s: Server, session: nat, now: int): (r: Step)
    ensures r.sent == [] && r.server.open == s.open
    ensures session in s.sessionUser && s.sessionUser[session] > 0 ==>
              && r.server.sessionUser == s.sessionUser - {session}
              && r.server.registry == ChatService.Unregister(s.registry, s.sessionUser[session])
              && r.server.db == UserService.LogOut(s.db, s.sessionUser[session], now)
    ensures !(session in s.sessionUser && s.sessionUser[session] > 0) ==> r.server == s
    ensures Valid(s.db) ==> Valid(r.server.db)
  {
    if session in s.sessionUser && s.sessionUser[session] > 0 then
      var id := s.sessionUser[session];
      StatusChangeKeepsValid(s.db, id, Offline, now);
      Step(s.(db := UserService.LogOut(s.db, id, now), sessionUser := s.sessionUser - {session},
              registry := ChatService.Unregister(s.registry, id)), [])
    else
      Step(s, [])
  }

  // -----------------------------------------------------------------------
  // Reading fields

  function Field(f: Fields, key: string): Option<JValue> {
    if key in f then Some(f[key]) else None
  }

  /** `Number.intValue()` on a decoded number: the quotient truncated toward
      zero, saturated at the int range. */
  function NumberIntValue(num: int, den: Positive): (n: int)
    ensures InInt32(n)
    ensures num >= 0 ==> 0 <= n && n * den <= num && (n == IntMax || num < (n + 1) * den)
    ensures num < 0 ==> n <= 0 && num <= n * den && (n == IntMin || (n - 1) * den < num)
  {
    if num >= 0 then
      var q := num / den;
      if q > IntMax then IntMax else q
    else
      var q := -((-num) / den);
      if q < IntMin then IntMin else q
  }

  /** `getIntValue`: numbers by `intValue()`, strings by `Integer.parseInt`;
      anything else, and a missing field, throws (`None`). */
  function GetIntValue(v: Option<JValue>): (r: Option<int>)
    ensures r.Some? ==> InInt32(r.value)
    ensures r.Some? <==> v.Some? && (v.value.JNum? || (v.value.JStr? && JavaParseInt(v.value.s).Some?))
    ensures v.Some? && v.value.JNum? ==> r == Some(NumberIntValue(v.value.num, v.value.den))
    ensures v.Some? && v.value.JStr? ==> r == JavaParseInt(v.value.s)
  {
    match v
    case Some(JNum(num, den)) => Some(NumberIntValue(num, den))
    case Some(JStr(s)) => JavaParseInt(s)
    case _ => None
  }

  /** An id the client sends, as a number or as its decimal text, is read
      back unchanged. */
  lemma ClientIdsReadBack(n: int)
    requires InInt32(n)
    ensures GetIntValue(Some(IntValue(n))) == Some(n)
    ensures GetIntValue(Some(JStr(IntToString(n)))) == Some(n)
  {
    JavaParseIntOfIntToString(n);
  }

  const PlainDoubleBound: int := 10_000_000

  /** `String.valueOf` of a decoded field: `"null"` for a missing or null
      field, the text of a string or boolean, and `n.0` for a whole number
      below ten million in magnitude. Other numbers and objects are not
      modelled (`None`). */
  function MessageText(v: Option<JValue>): (r: Option<string>)
    ensures v.None? || v.value.JNull? ==> r == Some("null")
    ensures v.Some? && v.value.JStr? ==> r == Some(v.value.s)
    ensures v.Some? && v.value.JBool? ==> r == Some(if v.value.b then "true" else "false")
    ensures v.Some? && v.value.JNum? && v.value.num % v.value.den == 0 && -PlainDoubleBound < v.value.num / v.value.den < PlainDoubleBound
            ==> r == Some(IntToString(v.value.num / v.value.den) + ".0")
    ensures v.Some? && v.value.JContact? ==> r.None?
  {
    match v
    case None => Some("null")
    case Some(JNull) => Some("null")
    case Some(JStr(s)) => Some(s)
    case Some(JBool(b)) => Some(if b then "true" else "false")
    case Some(JNum(num, den)) =>
      if num % den == 0 && -PlainDoubleBound < num / den < PlainDoubleBound then Some(IntToString(num / den) + ".0")
      else None
    case Some(JContact(_)) => None
  }

  // -----------------------------------------------------------------------
  // Dispatch

  /** The handlers `onMessage` switches to. */
  datatype Route =
    | ToSendChat | ToChatList | ToSingleChat | ToSendMessage | ToFriendData
    | ToAllUsers | ToSaveContact | ToUserProfile | ToPing | ToUnknown

  const HandledTypes: set<string> :=
    {"send_chat", "get_chat_list", "get_single_chat", "send_message", "friend_data",
     "get_all_users", "save_new_contact", "use_user_profile", "ping"}

  /** The switch on `type`. `get_user_image` has no handler of its own: its
      stub does nothing and falls through to the unknown-type branch. */
  function Dispatch(t: string): (h: Route)
    ensures h.ToUnknown? <==> t !in HandledTypes
    ensures t == "send_chat" <==> h.ToSendChat?
    ensures t == "get_chat_list" <==> h.ToChatList?
    ensures t == "get_single_chat" <==> h.ToSingleChat?
    ensures t == "send_message" <==> h.ToSendMessage?
    ensures t == "friend_data" <==> h.ToFriendData?
    ensures t == "get_all_users" <==> h.ToAllUsers?
    ensures t == "save_new_contact" <==> h.ToSaveContact?
    ensures t == "use_user_profile" <==> h.ToUserProfile?
    ensures t == "ping" <==> h.ToPing?
  {
    if t == "send_chat" then ToSendChat
    else if t == "get_chat_list" then ToChatList
    else if t == "get_single_chat" then ToSingleChat
    else if t == "send_message" then ToSendMessage
    else if t == "friend_data" then ToFriendData
    else if t == "get_all_users" then ToAllUsers
    else if t == "save_new_contact" then ToSaveContact
    else if t == "use_user_profile" then ToUserProfile
    else if t == "ping" then ToPing
    else ToUnknown
  }

  /** Every request the client hooks build reaches the handler meant for it. */
  lemma ClientRequestsReachTheirHandlers(r: Request)
    ensures var h := Dispatch(Encode(r)["type"].s);
            && (r.GetChatList? ==> h.ToChatList?)
            && (r.GetSingleChat? ==> h.ToSingleChat?)
            && (r.GetFriendData? ==> h.ToFriendData?)
            && (r.GetAllUsers? ==> h.ToAllUsers?)
            && (r.SaveNewContact? ==> h.ToSaveContact?)
            && (r.Ping? ==> h.ToPing?)
  {
  }

  lemma ImageRequestIsUnhandled()
    ensures Dispatch("get_user_image").ToUnknown?
  {
    assert "get_user_image" !in HandledTypes;
  }

  // -----------------------------------------------------------------------
  // Handlers; `u` is the user the session is mapped to

  /** `send_chat`: sender and recipient come from the frame, not from the
      session, and both must exist; the message must be a string. */
  function HandleSendChat(s: Server, frame: Fields, now: int): (r: Step)
    requires Valid(s.db)
    ensures r.server.sessionUser == s.sessionUser && r.server.registry == s.registry && r.server.open == s.open
    ensures Valid(r.server.db) && Routed(s, r.sent)
    ensures var from := GetIntValue(Field(frame, "fromId"));
            var to := GetIntValue(Field(frame, "toId"));
            var text := Field(frame, "message");
            if from.Some? && to.Some? && text.Some? && text.value.JStr? && HasUser(s.db, from.value) && HasUser(s.db, to.value)
            then (r.server.db, r.sent) == ChatService.DeliverChat(s.db, s.registry, s.open, from.value, to.value, text.value.s, now)
            else r == Step(s, [])
  {
    var from := GetIntValue(Field(frame, "fromId"));
    var to := GetIntValue(Field(frame, "toId"));
    var text := Field(frame, "message");
    if from.Some? && to.Some? && text.Some? && text.value.JStr? && HasUser(s.db, from.value) && HasUser(s.db, to.value) then
      var (db, ds) := ChatService.DeliverChat(s.db, s.registry, s.open, from.value, to.value, text.value.s, now);
      SendToUserRouted(s, to.value, Some(ChatPush(ChatJson(db, db.chats[|s.db.chats|]))));
      SendToUserRouted(s, from.value, Some(ChatPush(ChatJson(db, db.chats[|s.db.chats|]))));
      SendToUserRouted(s, to.value, Some(FriendList(ChatService.FriendChats(db, to.value))));
      SendToUserRouted(s, from.value, Some(FriendList(ChatService.FriendChats(db, from.value))));
      Step(s.(db := db), ds)
    else
      Step(s, [])
  }

  /** `get_single_chat`: the history (marking the friend's messages READ),
      then the refreshed conversation list, both to `u`. */
  function HandleSingleChat(s: Server, u: int, frame: Fields): (r: Step)
    requires Valid(s.db)
    ensures r.server.sessionUser == s.sessionUser && r.server.registry == s.registry && r.server.open == s.open
    ensures Valid(r.server.db)
    ensures GetIntValue(Field(frame, "friendId")).None? ==> r == Step(s, [])
    ensures GetIntValue(Field(frame, "friendId")).Some? ==>
              var f := GetIntValue(Field(frame, "friendId")).value;
              var (db, list) := ChatService.ReadHistory(s.db, u, f);
              && r.server.db == db
              && r.sent == ChatService.SendToUser(s.registry, s.open, u, Some(SingleChat(ChatService.HistoryJson(db, list))))
                           + ChatService.SendToUser(s.registry, s.open, u, Some(FriendList(ChatService.FriendChats(db, u))))
  {
    match GetIntValue(Field(frame, "friendId"))
    case None => Step(s, [])
    case Some(f) =>
      var (db, list) := ChatService.ReadHistory(s.db, u, f);
      ChatService.HistoryReadKeepsValid(s.db, u, f);
      Step(s.(db := db),
           ChatService.SendToUser(s.registry, s.open, u, Some(SingleChat(ChatService.HistoryJson(db, list))))
           + ChatService.SendToUser(s.registry, s.open, u, Some(FriendList(ChatService.FriendChats(db, u)))))
  }

  lemma SaveNewChatRouted(s: Server, u: int, p: int, text: string, now: int)
    requires Valid(s.db)
    ensures Routed(s, ChatService.SaveNewChat(s.db, s.registry, s.open, u, p, text, now).1)
  {
    var (db, ds) := ChatService.SaveNewChat(s.db, s.registry, s.open, u, p, text, now);
    if HasUser(s.db, u) && HasUser(s.db, p) && FriendshipRows(s.db.friends, u, p) <= 1 {
      var c := ChatService.SavedChat(s.db, u, p, text, now);
      SendToUserRouted(s, u, Some(NewMessage(ChatJson(db, c))));
      SendToUserRouted(s, p, Some(NewMessage(ChatJson(db, c))));
      SendToUserRouted(s, u, Some(FriendList(ChatService.FriendChats(db, u))));
      SendToUserRouted(s, p, Some(FriendList(ChatService.FriendChats(db, p))));
    }
  }

  lemma SingleChatRouted(s: Server, u: int, frame: Fields)
    requires Valid(s.db)
    ensures Routed(s, HandleSingleChat(s, u, frame).sent)
  {
    if GetIntValue(Field(frame, "friendId")).Some? {
      var f := GetIntValue(Field(frame, "friendId")).value;
      var (db, list) := ChatService.ReadHistory(s.db, u, f);
      ChatService.HistoryReadKeepsValid(s.db, u, f);
      SendToUserRouted(s, u, Some(SingleChat(ChatService.HistoryJson(db, list))));
      SendToUserRouted(s, u, Some(FriendList(ChatService.FriendChats(db, u))));
    }
  }

  /** `send_message`: a message from `u` to `toUserId`, stored and
      announced by `saveNewChat`. */
  function HandleSendMessage(s: Server, u: int, frame: Fields, now: int): (r: Step)
    requires Valid(s.db)
    ensures r.server.sessionUser == s.sessionUser && r.server.registry == s.registry && r.server.open == s.open
    ensures Valid(r.server.db) && Routed(s, r.sent)
    ensures var to := GetIntValue(Field(frame, "toUserId"));
            var text := MessageText(Field(frame, "message"));
            if to.Some? && text.Some?
            then (r.server.db, r.sent) == ChatService.SaveNewChat(s.db, s.registry, s.open, u, to.value, text.value, now)
            else r == Step(s, [])
  {
    var to := GetIntValue(Field(frame, "toUserId"));
    var text := MessageText(Field(frame, "message"));
    if to.Some? && text.Some? then
      var (db, ds) := ChatService.SaveNewChat(s.db, s.registry, s.open, u, to.value, text.value, now);
      SaveNewChatRouted(s, u, to.value, text.value, now);
      Step(s.(db := db), ds)
    else
      Step(s, [])
  }

  /** `save_new_contact`: the frame's `user` object, if it is one. */
  function ContactOf(frame: Fields): (d: Option<ContactDraft>)
    ensures d.Some? <==> "user" in frame && frame["user"].JContact?
    ensures d.Some? ==> d.value == frame["user"].draft
  {
    if "user" in frame && frame["user"].JContact? then Some(frame["user"].draft) else None
  }

  /** The handlers that answer only the requesting user. */
  function Reply(s: Server, u: int, route: Route, frame: Fields, imageFound: bool): (r: Step)
    requires Valid(s.db)
    requires !(route.ToSendChat? || route.ToSingleChat? || route.ToSendMessage?)
    ensures r.server.sessionUser == s.sessionUser && r.server.registry == s.registry && r.server.open == s.open
    ensures Valid(r.server.db)
    ensures !route.ToSaveContact? ==> r.server.db == s.db
    ensures |r.sent| <= 1
    ensures forall d | d in r.sent :: u in s.registry && d.session == s.registry[u] && d.session in s.open
    ensures route.ToUserProfile? || route.ToUnknown? ==> r == Step(s, [])
    ensures route.ToPing? ==> r.sent == ChatService.SendToUser(s.registry, s.open, u, Some(Pong))
  {
    match route
    case ToChatList =>
      Step(s, ChatService.SendToUser(s.registry, s.open, u, Some(FriendList(ChatService.FriendChats(s.db, u)))))
    case ToFriendData =>
      (match GetIntValue(Field(frame, "friendId"))
       case None => Step(s, [])
       case Some(f) => Step(s, ChatService.SendToUser(s.registry, s.open, u, Some(UserService.GetFriendData(s.db, f)))))
    case ToAllUsers =>
      Step(s, ChatService.SendToUser(s.registry, s.open, u, UserService.GetAllUsers(s.db, u, imageFound)))
    case ToSaveContact =>
      var (db, e) := UserService.SaveNewContact(s.db, u, ContactOf(frame));
      Step(s.(db := db), ChatService.SendToUser(s.registry, s.open, u, e))
    case ToPing => Step(s, ChatService.SendToUser(s.registry, s.open, u, Some(Pong)))
    // The three routes with handlers of their own never reach here (see the
    // requires); they share the silent arm.
    case ToUserProfile | ToUnknown | ToSendChat | ToSingleChat | ToSendMessage => Step(s, [])
  }

  /** `onMessage`. A frame from an unmapped session, a `user` field that is
      neither an object nor null, or a `type` that is missing, null or not a
      string is ignored; otherwise the frame goes to its handler with the
      session's user. The frame's own `userId` field is never read. */
  function OnMessage(s: Server, session: nat, frame: Fields, now: int, imageFound: bool): (r: Step)
    requires Valid(s.db)
    ensures r.server.sessionUser == s.sessionUser && r.server.registry == s.registry && r.server.open == s.open
    ensures Valid(r.server.db)
    ensures Routed(s, r.sent)
    ensures session !in s.sessionUser ==> r == Step(s, [])
    ensures "type" !in frame || !frame["type"].JStr? ==> r == Step(s, [])
    ensures "user" in frame && !(frame["user"].JContact? || frame["user"].JNull?) ==> r == Step(s, [])
  {
    if session !in s.sessionUser then Step(s, [])
    else if "user" in frame && !(frame["user"].JContact? || frame["user"].JNull?) then Step(s, [])
    else if "type" !in frame || !frame["type"].JStr? then Step(s, [])
    else
      var u := s.sessionUser[session];
      match Dispatch(frame["type"].s)
      case ToSendChat => HandleSendChat(s, frame, now)
      case ToSingleChat =>
        SingleChatRouted(s, u, frame);
        HandleSingleChat(s, u, frame)
      case ToSendMessage => HandleSendMessage(s, u, frame, now)
      case route => Reply(s, u, route, frame, imageFound)
  }

  // -----------------------------------------------------------------------
  // Properties of the whole endpoint

  /** The server answers the session, not the id a frame claims: the
      `userId` the client stamps on every frame changes nothing. */
  lemma ClaimedUserIdIgnored(s: Server, session: nat, frame: Fields, v: JValue, now: int, imageFound: bool)
    requires Valid(s.db) && "userId" !in frame
    ensures OnMessage(s, session, frame["userId" := v], now, imageFound) == OnMessage(s, session, frame, now, imageFound)
  {
    var f2 := frame["userId" := v];
    assert Field(f2, "fromId") == Field(frame, "fromId") && Field(f2, "toId") == Field(frame, "toId");
    assert Field(f2, "message") == Field(frame, "message") && Field(f2, "friendId") == Field(frame, "friendId");
    assert Field(f2, "toUserId") == Field(frame, "toUserId") && ContactOf(f2) == ContactOf(frame);
  }

  /** `send_chat` trusts the frame's sender: a session of one user can store
      a message in another user's name. */
  lemma SendChatActsForAnySender(s: Server, session: nat, from: int, to: int, text: string, now: int, imageFound: bool)
    requires Valid(s.db) && session in s.sessionUser && s.sessionUser[session] != from
    requires InInt32(from) && InInt32(to) && HasUser(s.db, from) && HasUser(s.db, to)
    ensures var frame := map["type" := JStr("send_chat"), "fromId" := IntValue(from), "toId" := IntValue(to),
                             "message" := JStr(text)];
            var after := OnMessage(s, session, frame, now, imageFound).server.db;
            && |after.chats| == |s.db.chats| + 1
            && after.chats[|s.db.chats|].from == from && after.chats[|s.db.chats|].from != s.sessionUser[session]
  {
    var frame := map["type" := JStr("send_chat"), "fromId" := IntValue(from), "toId" := IntValue(to),
                     "message" := JStr(text)];
    ClientIdsReadBack(from);
    ClientIdsReadBack(to);
    assert Field(frame, "fromId") == Some(IntValue(from)) && Field(frame, "toId") == Some(IntValue(to));
    assert Dispatch(frame["type"].s).ToSendChat?;
  }

  /** A ping from a connected user's current session is answered with one
      PONG on that session. */
  lemma PingAnsweredOnSameSession(s: Server, session: nat, n: int, now: int, later: int, imageFound: bool)
    requires Valid(s.db) && InInt32(n)
    ensures var connected := OnOpen(s, session, Some(QueryPrefix + IntToString(n)), now).server;
            OnMessage(connected, session, map["type" := JStr("ping")], later, imageFound).sent
              == [ChatService.Delivery(session, Some(Pong))]
  {
    ClientQueryReadsBack(n);
    assert Dispatch("ping").ToPing?;
  }

  /** Reconnecting and then closing the older session leaves the user with
      no registered session: the newer, still open session gets no replies. */
  lemma StaleCloseSilencesNewSession(s: Server, s1: nat, s2: nat, n: int, now: int, imageFound: bool)
    requires Valid(s.db) && InInt32(n) && n > 0 && s1 != s2
    ensures var q := Some(QueryPrefix + IntToString(n));
            var first := OnOpen(s, s1, q, now).server;
            var second := OnOpen(first, s2, q, now).server;
            var closed := OnClose(second, s1, now).server;
            && s2 in closed.open && s2 in closed.sessionUser && closed.sessionUser[s2] == n
            && n !in closed.registry
            && OnMessage(closed, s2, map["type" := JStr("ping")], now, imageFound).sent == []
  {
    ClientQueryReadsBack(n);
    assert Dispatch("ping").ToPing?;
  }

  /** An id of zero or below is accepted at open but never unregistered:
      after its session closes, the registry still names that session. */
  lemma NonPositiveIdOutlivesClose(s: Server, session: nat, n: int, now: int)
    requires InInt32(n) && n <= 0
    ensures var q := Some(QueryPrefix + IntToString(n));
            var after := OnClose(OnOpen(s, session, q, now).server, session, now).server;
            && n in after.registry && after.registry[n] == session
            && session !in after.sessionUser && session !in after.open
  {
    ClientQueryReadsBack(n);
  }
}
