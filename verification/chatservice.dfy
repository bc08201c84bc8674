/** The server's chat service: the user-to-session registry that routes
    outbound frames, the derived conversation list (partners, latest
    message, unread count), the chat history read that marks messages READ,
    and the two ways a message is stored and announced. */
module ChatService {
  import opened Wrappers
  import opened Strings
  import opened Protocol
  import opened Store
  import opened Sorting

  // -----------------------------------------------------------------------
  // Session registry

  /** The session registered for each user id; sessions are named by number. */
  type Registry = map<int, nat>

  /** One frame handed to one session. `None` is a `null` payload, which the
      JSON encoder writes as the text `null`. */
  datatype Delivery = Delivery(session: nat, frame: Option<Envelope>)

  /** `register` replaces any earlier session of the same user. */
  function Register(reg: Registry, userId: int, session: nat): (r: Registry)
    ensures userId in r && r[userId] == session
    ensures forall u | u != userId :: (u in r <==> u in reg) && (u in reg ==> r[u] == reg[u])
  {
    reg[userId := session]
  }

  function Unregister(reg: Registry, userId: int): (r: Registry)
    ensures userId !in r
    ensures forall u | u != userId :: (u in r <==> u in reg) && (u in reg ==> r[u] == reg[u])
  {
    reg - {userId}
  }

  /** `sendToUser`: a frame reaches the user's registered session if that
      session is open, and is otherwise dropped. */
  function SendToUser(reg: Registry, open: set<nat>, userId: int, frame: Option<Envelope>): (ds: seq<Delivery>)
    ensures |ds| <= 1
    ensures ds != [] <==> userId in reg && reg[userId] in open
    ensures ds != [] ==> ds[0] == Delivery(reg[userId], frame)
  {
    if userId in reg && reg[userId] in open then [Delivery(reg[userId], frame)] else []
  }

  /** A user whose registered session is open. */
  predicate Reachable(reg: Registry, open: set<nat>, userId: int) {
    userId in reg && reg[userId] in open
  }

  /** After a second registration only the newer session receives the
      user's frames, and after unregistering none does. */
  lemma LatestRegistrationReceives(reg: Registry, open: set<nat>, userId: int, s1: nat, s2: nat, frame: Option<Envelope>)
    requires s2 in open
    ensures SendToUser(Register(Register(reg, userId, s1), userId, s2), open, userId, frame) == [Delivery(s2, frame)]
    ensures SendToUser(Unregister(Register(reg, userId, s1), userId), open, userId, frame) == []
  {
  }

  // -----------------------------------------------------------------------
  // Conversation list

  predicate Between(c: Chat, u: int, p: int) {
    (c.from == u && c.to == p) || (c.from == p && c.to == u)
  }

  /** The other end of a chat that involves `u`. */
  function Other(c: Chat, u: int): (p: int)
    requires c.to == u || c.from == u
    ensures Between(c, u, p)
    ensures forall q :: Between(c, u, q) ==> q == p
  {
    if c.to == u then c.from else c.to
  }

  /** `getChatPartners`: the distinct senders of chats to `u` and recipients
      of chats from `u`. The source collects them in a hash set; the model
      keeps them in order of first appearance. */
  function Partners(chats: seq<Chat>, u: int): (ps: seq<int>)
    ensures forall p :: p in ps <==> exists c | c in chats :: Between(c, u, p)
    ensures forall i, j | 0 <= i < j < |ps| :: ps[i] != ps[j]
    decreases |chats|
  {
    if chats == [] then []
    else
      var init := chats[..|chats| - 1];
      var c := chats[|chats| - 1];
      assert chats == init + [c];
      var ps := Partners(init, u);
      if (c.to == u || c.from == u) && Other(c, u) !in ps then ps + [Other(c, u)] else ps
  }

  /** `getLatestChatBetweenUsers`: a chat between the two with the largest
      `updatedAt`, none when they never chatted. Among equal timestamps the
      model keeps the earliest row; the source leaves the choice to the
      database. */
  function LatestChat(chats: seq<Chat>, u: int, p: int): (r: Option<Chat>)
    ensures r.None? <==> forall c | c in chats :: !Between(c, u, p)
    ensures r.Some? ==> r.value in chats && Between(r.value, u, p)
    ensures r.Some? ==> forall c | c in chats && Between(c, u, p) :: c.updatedAt <= r.value.updatedAt
  {
    if chats == [] then None
    else
      assert forall i | 1 <= i < |chats| :: chats[i] == chats[1..][i - 1];
      var rest := LatestChat(chats[1..], u, p);
      if !Between(chats[0], u, p) then rest
      else if rest.Some? && rest.value.updatedAt > chats[0].updatedAt then rest
      else Some(chats[0])
  }

  predicate Unread(c: Chat, u: int, p: int) {
    c.from == p && c.to == u && c.status != Read
  }

  /** `getUnreadMessageCount`: chats from `p` to `u` not yet READ, so
      DELIVERED ones still count. */
  function UnreadCount(chats: seq<Chat>, u: int, p: int): (n: nat)
    ensures n == 0 <==> forall i | 0 <= i < |chats| :: !Unread(chats[i], u, p)
    ensures n <= |chats|
  {
    Count(chats, (c: Chat) => Unread(c, u, p))
  }

  const ServerUrl: string := "https://028b2f1a1b3d.ngrok-free.app"

  const ImagePrefix: string := ServerUrl + "/ChatApp/profile-images/"
  const ImageSuffix: string := "/profile1.png"

  /** The partner's picture as the conversation list names it: the server's
      image folder, a non-empty segment that reads back as the partner's id,
      and the fixed file name. */
  function PartnerImage(p: int): (url: string)
    ensures |url| > |ImagePrefix| + |ImageSuffix|
    ensures url[..|ImagePrefix|] == ImagePrefix && url[|url| - |ImageSuffix|..] == ImageSuffix
    ensures InInt32(p) ==> JavaParseInt(url[|ImagePrefix|..|url| - |ImageSuffix|]) == Some(p)
  {
    var seg := IntToString(p);
    var url := ImagePrefix + seg + ImageSuffix;
    assert url[|ImagePrefix|..|url| - |ImageSuffix|] == seg;
    ImageSegmentReadsBack(p);
    url
  }

  lemma ImageSegmentReadsBack(p: int)
    ensures InInt32(p) ==> JavaParseInt(IntToString(p)) == Some(p)
  {
    if InInt32(p) {
      JavaParseIntOfIntToString(p);
    }
  }

  /** The row for one partner: present only when the two have a chat and the
      partner's user record exists. */
  function SummaryFor(db: Db, u: int, p: int): (r: Option<ChatSummary>)
    ensures r.Some? <==> (exists c | c in db.chats :: Between(c, u, p)) && FindUser(db, p).Some?
    ensures r.Some? ==> && r.value.friendId == p
                        && r.value.friendName == FindUser(db, p).value.firstName + " " + FindUser(db, p).value.lastName
                        && r.value.lastMessage == LatestChat(db.chats, u, p).value.message
                        && r.value.lastTimeStamp == LatestChat(db.chats, u, p).value.updatedAt
                        && r.value.unreadCount == UnreadCount(db.chats, u, p)
                        && r.value.profileImage == PartnerImage(p)
  {
    match LatestChat(db.chats, u, p)
    case None => None
    case Some(c) =>
      match FindUser(db, p)
      case None => None
      case Some(partner) =>
        Some(ChatSummary(p, partner.firstName + " " + partner.lastName, c.message, c.updatedAt,
                         UnreadCount(db.chats, u, p), PartnerImage(p)))
  }

  /** The rows for a list of partners, in that order, skipping those
      without a row. */
  function SummariesOf(ps: seq<int>, row: int -> Option<ChatSummary>): (r: seq<ChatSummary>)
    requires forall p | p in ps && row(p).Some? :: row(p).value.friendId == p
    ensures forall i | 0 <= i < |r| :: r[i].friendId in ps && row(r[i].friendId) == Some(r[i])
    ensures forall p | p in ps && row(p).Some? :: row(p).value in r
    ensures (forall i, j | 0 <= i < j < |ps| :: ps[i] != ps[j]) ==>
              forall i, j | 0 <= i < j < |r| :: r[i].friendId != r[j].friendId
  {
    if ps == [] then []
    else
      assert forall i | 1 <= i < |ps| :: ps[i] == ps[1..][i - 1];
      var rest := SummariesOf(ps[1..], row);
      if row(ps[0]).None? then rest
      else
        var r := [row(ps[0]).value] + rest;
        assert ps[0] in ps && r[0].friendId == ps[0];
        assert forall i | 1 <= i < |r| :: r[i] == rest[i - 1];
        r
  }

  /** `getFriendChatsForUser`: one row per partner that has a user record,
      never two rows for the same partner. */
  function FriendChats(db: Db, u: int): (r: seq<ChatSummary>)
    ensures forall i, j | 0 <= i < j < |r| :: r[i].friendId != r[j].friendId
    ensures forall i | 0 <= i < |r| :: SummaryFor(db, u, r[i].friendId) == Some(r[i])
    ensures forall p | SummaryFor(db, u, p).Some? :: SummaryFor(db, u, p).value in r
  {
    var ps := Partners(db.chats, u);
    var row := p => SummaryFor(db, u, p);
    var r := SummariesOf(ps, row);
    forall p | SummaryFor(db, u, p).Some? ensures SummaryFor(db, u, p).value in r {
      assert p in ps && row(p).Some?;
    }
    r
  }

  // -----------------------------------------------------------------------
  // Chat history

  /** Opening a conversation marks what the friend sent and the user has not
      yet received as READ; DELIVERED chats keep their status. */
  function MarkRead(c: Chat, u: int, p: int): (r: Chat)
    ensures c.from == p && c.to == u && c.status == Sent ==> r == c.(status := Read)
    ensures !(c.from == p && c.to == u && c.status == Sent) ==> r == c
  {
    if c.from == p && c.to == u && c.status == Sent then c.(status := Read) else c
  }

  function CreatedAt(c: Chat): int {
    c.createdAt
  }

  function ChatsBetween(chats: seq<Chat>, u: int, p: int): (r: seq<Chat>)
    ensures forall c :: c in r <==> c in chats && Between(c, u, p)
    ensures multiset(r) <= multiset(chats)
  {
    if chats == [] then []
    else
      var rest := ChatsBetween(chats[1..], u, p);
      assert chats == [chats[0]] + chats[1..];
      if Between(chats[0], u, p) then [chats[0]] + rest else rest
  }

  /** `getChatHistory`: the chats between the two in either direction,
      oldest first, after marking; the marks are written back to the store. */
  function ReadHistory(db: Db, u: int, p: int): (r: (Db, seq<Chat>))
    ensures r.0.users == db.users && r.0.friends == db.friends
    ensures |r.0.chats| == |db.chats|
    ensures forall i | 0 <= i < |db.chats| :: r.0.chats[i] == MarkRead(db.chats[i], u, p)
    ensures SortedBy(CreatedAt, r.1)
    ensures forall c :: c in r.1 <==> c in r.0.chats && Between(c, u, p)
    ensures multiset(r.1) == multiset(ChatsBetween(r.0.chats, u, p))
  {
    var chats := seq(|db.chats|, i requires 0 <= i < |db.chats| => MarkRead(db.chats[i], u, p));
    var list := SortBy(CreatedAt, ChatsBetween(chats, u, p));
    assert forall c :: c in list <==> c in multiset(list);
    (db.(chats := chats), list)
  }

  /** Reading a history leaves no unread SENT message from the friend, and
      the friend's unread count drops to the DELIVERED ones. */
  lemma HistoryReadLeavesOnlyDelivered(db: Db, u: int, p: int)
    ensures var after := ReadHistory(db, u, p).0;
            && (forall i | 0 <= i < |after.chats| :: !(after.chats[i].from == p && after.chats[i].to == u
                                                      && after.chats[i].status == Sent))
            && UnreadCount(after.chats, u, p)
               == Count(db.chats, (c: Chat) => c.from == p && c.to == u && c.status == Delivered)
  {
    var after := ReadHistory(db, u, p).0;
    CountMapped(db.chats, after.chats, (c: Chat) => c.from == p && c.to == u && c.status == Delivered,
                (c: Chat) => Unread(c, u, p));
  }

  /** Reading the same history twice changes nothing more. */
  lemma HistoryReadIdempotent(db: Db, u: int, p: int)
    ensures ReadHistory(ReadHistory(db, u, p).0, u, p) == ReadHistory(db, u, p)
  {
    var once := ReadHistory(db, u, p).0;
    var twice := ReadHistory(once, u, p).0;
    assert twice.chats == once.chats;
  }

  /** Marking keeps every chat's endpoints, so a valid store stays valid. */
  lemma HistoryReadKeepsValid(db: Db, u: int, p: int)
    requires Valid(db)
    ensures Valid(ReadHistory(db, u, p).0)
  {
    var after := ReadHistory(db, u, p).0;
    forall c | c in after.chats ensures HasUser(after, c.from) && HasUser(after, c.to) {
      var i :| 0 <= i < |after.chats| && after.chats[i] == c;
      assert db.chats[i] in db.chats;
    }
  }

  /** The history as sent: each chat with both endpoints expanded. */
  function HistoryJson(db: Db, list: seq<Chat>): (r: seq<WireChat>)
    requires Valid(db) && forall c | c in list :: c in db.chats
    ensures |r| == |list|
    ensures forall i | 0 <= i < |list| :: r[i] == ChatJson(db, list[i])
  {
    seq(|list|, i requires 0 <= i < |list| => ChatJson(db, list[i]))
  }

  // -----------------------------------------------------------------------
  // Storing a message

  /** The four frames that announce a stored message: the message to
      `first` and then to `second`, then each one's refreshed conversation
      list, in that order. */
  function Announce(db: Db, reg: Registry, open: set<nat>, first: int, second: int, e: Envelope): (ds: seq<Delivery>)
    ensures |ds| == 2 * ((if Reachable(reg, open, first) then 1 else 0) + (if Reachable(reg, open, second) then 1 else 0))
    ensures forall k | 0 <= k < |ds| :: ds[k].session in open
    ensures Reachable(reg, open, first) ==> ds[0] == Delivery(reg[first], Some(e))
    ensures forall k | 0 <= k < |ds| ::
              || (first in reg && ds[k] == Delivery(reg[first], Some(e)))
              || (second in reg && ds[k] == Delivery(reg[second], Some(e)))
              || (first in reg && ds[k] == Delivery(reg[first], Some(FriendList(FriendChats(db, first)))))
              || (second in reg && ds[k] == Delivery(reg[second], Some(FriendList(FriendChats(db, second)))))
  {
    Frames(reg, open, first, second, e, FriendList(FriendChats(db, first)), FriendList(FriendChats(db, second)))
  }

  /** The message to both users, then each one's own list. */
  function Frames(reg: Registry, open: set<nat>, first: int, second: int, e: Envelope, l1: Envelope, l2: Envelope): (ds: seq<Delivery>)
    ensures |ds| == 2 * ((if Reachable(reg, open, first) then 1 else 0) + (if Reachable(reg, open, second) then 1 else 0))
    ensures forall k | 0 <= k < |ds| :: ds[k].session in open
    ensures Reachable(reg, open, first) ==> ds[0] == Delivery(reg[first], Some(e))
    ensures forall k | 0 <= k < |ds| ::
              || (first in reg && ds[k] == Delivery(reg[first], Some(e)))
              || (second in reg && ds[k] == Delivery(reg[second], Some(e)))
              || (first in reg && ds[k] == Delivery(reg[first], Some(l1)))
              || (second in reg && ds[k] == Delivery(reg[second], Some(l2)))
  {
    var a := SendToUser(reg, open, first, Some(e));
    var b := SendToUser(reg, open, second, Some(e));
    var c := SendToUser(reg, open, first, Some(l1));
    var d := SendToUser(reg, open, second, Some(l2));
    AnnounceParts(a, b, c, d);
    a + b + c + d
  }

  lemma AnnounceParts(a: seq<Delivery>, b: seq<Delivery>, c: seq<Delivery>, d: seq<Delivery>)
    ensures forall k | 0 <= k < |a + b + c + d| ::
              var x := (a + b + c + d)[k];
              x in a || x in b || x in c || x in d
  {
  }

  /** The chat row `saveNewChat` builds. */
  function SavedChat(db: Db, u: int, p: int, message: string, now: int): (c: Chat)
    ensures c.from == u && c.to == p && c.message == message && c.status == Sent
    ensures c.files == "FILE:" && c.createdAt == now && c.updatedAt == now
    ensures forall i | 0 <= i < |db.chats| :: db.chats[i].id < c.id
  {
    Chat(FreshId(db.chats, ChatKey), u, p, message, "FILE:", Sent, now, now)
  }

  /** The friendship table after `saveNewChat`: the me→friend row is added
      when absent; the reverse row never is. */
  function FriendsAfterChat(friends: seq<Friendship>, u: int, p: int): (r: seq<Friendship>)
    ensures FriendshipRows(friends, u, p) == 0 ==> r == friends + [NewFriendship(u, p, None)]
    ensures FriendshipRows(friends, u, p) > 0 ==> r == friends
  {
    if FriendshipRows(friends, u, p) == 0 then friends + [NewFriendship(u, p, None)] else friends
  }

  /** `saveNewChat` (the `send_message` path). Nothing is stored or sent
      unless both users exist and at most one friendship row links them;
      otherwise the me→friend friendship is added if missing, the SENT chat
      is appended, and `new_message` then `friend_list` go to both. */
  function SaveNewChat(db: Db, reg: Registry, open: set<nat>, u: int, p: int, message: string, now: int)
    : (r: (Db, seq<Delivery>))
    requires Valid(db)
    ensures !HasUser(db, u) || !HasUser(db, p) || FriendshipRows(db.friends, u, p) > 1 ==> r == (db, [])
    ensures HasUser(db, u) && HasUser(db, p) && FriendshipRows(db.friends, u, p) <= 1 ==>
              && r.0 == Db(db.users, db.chats + [SavedChat(db, u, p, message, now)], FriendsAfterChat(db.friends, u, p))
              && r.1 == Announce(r.0, reg, open, u, p, NewMessage(ChatJson(r.0, SavedChat(db, u, p, message, now))))
    ensures Valid(r.0)
  {
    if !HasUser(db, u) || !HasUser(db, p) || FriendshipRows(db.friends, u, p) > 1 then (db, [])
    else
      var c := SavedChat(db, u, p, message, now);
      var db2 := Db(db.users, db.chats + [c], FriendsAfterChat(db.friends, u, p));
      AppendKeepsValid(db, c, db2.friends);
      (db2, Announce(db2, reg, open, u, p, NewMessage(ChatJson(db2, c))))
  }

  /** `deliverChat` (the `send_chat` path): the caller has checked that both
      users exist; the chat is stored without touching friendships, and a
      `chat` frame goes to the recipient first, then to the sender, followed
      by both conversation lists. */
  function DeliverChat(db: Db, reg: Registry, open: set<nat>, from: int, to: int, message: string, now: int)
    : (r: (Db, seq<Delivery>))
    requires Valid(db) && HasUser(db, from) && HasUser(db, to)
    ensures r.0.users == db.users && r.0.friends == db.friends
    ensures |r.0.chats| == |db.chats| + 1 && r.0.chats[..|db.chats|] == db.chats
    ensures var c := r.0.chats[|db.chats|];
            && c.from == from && c.to == to && c.message == message && c.status == Sent && c.files == ""
            && r.1 == Announce(r.0, reg, open, to, from, ChatPush(ChatJson(r.0, c)))
    ensures Valid(r.0)
  {
    var c := NewChat(FreshId(db.chats, ChatKey), from, message, to, "", Sent, now);
    var db2 := db.(chats := db.chats + [c]);
    AppendKeepsValid(db, c, db.friends);
    assert db2.chats[..|db.chats|] == db.chats;
    (db2, Announce(db2, reg, open, to, from, ChatPush(ChatJson(db2, c))))
  }

  /** A chat newer than all others between the two is their latest. */
  lemma NewestIsLatest(chats: seq<Chat>, c: Chat, u: int, p: int)
    requires Between(c, u, p)
    requires forall x | x in chats :: x.updatedAt < c.updatedAt
    ensures LatestChat(chats + [c], u, p) == Some(c)
  {
    var l := LatestChat(chats + [c], u, p);
    assert c in chats + [c];
    assert l.value in chats + [c];
  }

  /** A message stored later than every earlier chat becomes the last
      message of the conversation on both users' lists. */
  lemma NewChatTopsBothLists(db: Db, reg: Registry, open: set<nat>, u: int, p: int, message: string, now: int)
    requires Valid(db) && HasUser(db, u) && HasUser(db, p) && FriendshipRows(db.friends, u, p) <= 1
    requires forall c | c in db.chats :: c.updatedAt < now
    ensures var after := SaveNewChat(db, reg, open, u, p, message, now).0;
            && SummaryFor(after, u, p).Some? && SummaryFor(after, u, p).value.lastMessage == message
            && SummaryFor(after, p, u).Some? && SummaryFor(after, p, u).value.lastMessage == message
  {
    var c := SavedChat(db, u, p, message, now);
    var after := SaveNewChat(db, reg, open, u, p, message, now).0;
    assert after.chats == db.chats + [c] && after.users == db.users;
    NewestIsLatest(db.chats, c, u, p);
    NewestIsLatest(db.chats, c, p, u);
    assert c in after.chats;
    assert FindUser(after, p).Some? && FindUser(after, u).Some?;
  }
}
