/** The server's user service: presence status, the delivery receipts a
    user's friends' messages get while the user is online, the friend-data
    and directory replies, and the add-contact decision table. */
module UserService {
  import opened Wrappers
  import opened Strings
  import opened Protocol
  import opened Store
  import ChatService

  // -----------------------------------------------------------------------
  // Presence

  function SetStatus(users: seq<User>, id: int, status: Status, now: int): (r: seq<User>)
    ensures SameKeys(users, r)
  {
    if users == [] then []
    else
      var head := if users[0].id == id then users[0].(status := status, updatedAt := now) else users[0];
      var r := [head] + SetStatus(users[1..], id, status, now);
      assert forall i | 1 <= i < |r| :: r[i] == SetStatus(users[1..], id, status, now)[i - 1];
      r
  }

  lemma {:induction false} FindAfterSetStatus(users: seq<User>, id: int, status: Status, now: int, x: int)
    ensures var r := FindUserIn(SetStatus(users, id, status, now), x);
            && (x != id ==> r == FindUserIn(users, x))
            && (x == id && FindUserIn(users, x).Some? ==>
                  r == Some(FindUserIn(users, x).value.(status := status, updatedAt := now)))
            && (FindUserIn(users, x).None? ==> r.None?)
  {
    if users != [] {
      FindAfterSetStatus(users[1..], id, status, now, x);
    }
  }

  /** `updateUserStatus`: an existing user's status and update time change;
      an unknown id changes nothing. */
  function UpdateUserStatus(db: Db, id: int, status: Status, now: int): (r: Db)
    ensures r.chats == db.chats && r.friends == db.friends
    ensures SameKeys(db.users, r.users)
    ensures FindUser(db, id).Some? ==> FindUser(r, id) == Some(FindUser(db, id).value.(status := status, updatedAt := now))
    ensures FindUser(db, id).None? ==> r == db
    ensures forall x | x != id :: FindUser(r, x) == FindUser(db, x)
  {
    if FindUser(db, id).None? then db
    else
      var r := db.(users := SetStatus(db.users, id, status, now));
      FindAfterSetStatus(db.users, id, status, now, id);
      forall x | x != id ensures FindUser(r, x) == FindUser(db, x) {
        FindAfterSetStatus(db.users, id, status, now, x);
      }
      r
  }

  lemma UpdateUserStatusKeepsValid(db: Db, id: int, status: Status, now: int)
    requires Valid(db)
    ensures Valid(UpdateUserStatus(db, id, status, now))
  {
    SameKeysKeepValid(db, UpdateUserStatus(db, id, status, now).users);
  }

  function LogIn(db: Db, id: int, now: int): (r: Db)
    ensures FindUser(db, id).Some? ==> FindUser(r, id).Some? && FindUser(r, id).value.status == Online
    ensures FindUser(db, id).None? ==> r == db
    ensures forall x | x != id :: FindUser(r, x) == FindUser(db, x)
    ensures r.chats == db.chats && r.friends == db.friends
  {
    UpdateUserStatus(db, id, Online, now)
  }

  function LogOut(db: Db, id: int, now: int): (r: Db)
    ensures FindUser(db, id).Some? ==> FindUser(r, id).Some? && FindUser(r, id).value.status == Offline
    ensures FindUser(db, id).None? ==> r == db
    ensures forall x | x != id :: FindUser(r, x) == FindUser(db, x)
    ensures r.chats == db.chats && r.friends == db.friends
  {
    UpdateUserStatus(db, id, Offline, now)
  }

  // -----------------------------------------------------------------------
  // Delivery receipts

  predicate UserOnline(db: Db, id: int) {
    FindUser(db, id).Some? && FindUser(db, id).value.status == Online
  }

  function MarkDelivered(c: Chat, now: int): (r: Chat)
    ensures r.status == Delivered && r.updatedAt == now
    ensures r.(status := c.status, updatedAt := c.updatedAt) == c
  {
    c.(status := Delivered, updatedAt := now)
  }

  /** One friend's undelivered chats to `u` become DELIVERED. */
  function DeliverFrom(chats: seq<Chat>, friend: int, u: int, now: int): (r: seq<Chat>)
    ensures |r| == |chats|
    ensures forall i | 0 <= i < |chats| ::
              r[i] == if chats[i].from == friend && chats[i].to == u && chats[i].status == Sent
                      then MarkDelivered(chats[i], now) else chats[i]
  {
    seq(|chats|, i requires 0 <= i < |chats| =>
      if chats[i].from == friend && chats[i].to == u && chats[i].status == Sent then MarkDelivered(chats[i], now) else chats[i])
  }

  /** The loop over `u`'s ACTIVE friendship rows, each handled while the
      row's owner is ONLINE. */
  function DeliverAll(db: Db, fs: seq<Friendship>, u: int, now: int, chats: seq<Chat>): (r: seq<Chat>)
    ensures |r| == |chats|
    ensures forall i | 0 <= i < |chats| :: r[i].id == chats[i].id && r[i].message == chats[i].message
    decreases |fs|
  {
    if fs == [] then chats
    else
      var f := fs[0];
      var next := if f.userId == u && f.status == Active && UserOnline(db, f.userId)
                  then DeliverFrom(chats, f.friendId, u, now) else chats;
      DeliverAll(db, fs[1..], u, now, next)
  }

  predicate ActiveFriendIn(fs: seq<Friendship>, u: int, friend: int) {
    exists k | 0 <= k < |fs| :: fs[k].userId == u && fs[k].friendId == friend && fs[k].status == Active
  }

  /** The loop's net effect: a chat is marked exactly when it went from an
      ACTIVE friend of the online user `u` to `u` and was still SENT. */
  lemma {:induction false} DeliverAllMeaning(db: Db, fs: seq<Friendship>, u: int, now: int, chats: seq<Chat>)
    ensures |DeliverAll(db, fs, u, now, chats)| == |chats|
    ensures forall i | 0 <= i < |chats| ::
              DeliverAll(db, fs, u, now, chats)[i]
              == if chats[i].to == u && chats[i].status == Sent && UserOnline(db, u) && ActiveFriendIn(fs, u, chats[i].from)
                 then MarkDelivered(chats[i], now) else chats[i]
    decreases |fs|
  {
    if fs != [] {
      var f := fs[0];
      var next := if f.userId == u && f.status == Active && UserOnline(db, f.userId)
                  then DeliverFrom(chats, f.friendId, u, now) else chats;
      DeliverAllMeaning(db, fs[1..], u, now, next);
      forall i | 0 <= i < |chats|
        ensures ActiveFriendIn(fs, u, chats[i].from) <==>
                (f.userId == u && f.friendId == chats[i].from && f.status == Active) || ActiveFriendIn(fs[1..], u, chats[i].from)
      {
        if ActiveFriendIn(fs, u, chats[i].from) {
          var k :| 0 <= k < |fs| && fs[k].userId == u && fs[k].friendId == chats[i].from && fs[k].status == Active;
          if k > 0 {
            assert fs[1..][k - 1] == fs[k];
          }
        }
        if ActiveFriendIn(fs[1..], u, chats[i].from) {
          var k :| 0 <= k < |fs[1..]| && fs[1..][k].userId == u && fs[1..][k].friendId == chats[i].from && fs[1..][k].status == Active;
          assert fs[k + 1] == fs[1..][k];
        }
      }
    }
  }

  /** `updateFriendChatStatus`: while `u` is ONLINE, every SENT chat to `u`
      from a friend `u` lists as ACTIVE becomes DELIVERED with a new update
      time; nothing else changes. */
  function UpdateFriendChatStatus(db: Db, u: int, now: int): (r: Db)
    ensures r.users == db.users && r.friends == db.friends
    ensures |r.chats| == |db.chats|
    ensures forall i | 0 <= i < |db.chats| ::
              r.chats[i] == if db.chats[i].to == u && db.chats[i].status == Sent && UserOnline(db, u)
                               && ActiveFriendIn(db.friends, u, db.chats[i].from)
                            then MarkDelivered(db.chats[i], now) else db.chats[i]
  {
    DeliverAllMeaning(db, db.friends, u, now, db.chats);
    db.(chats := DeliverAll(db, db.friends, u, now, db.chats))
  }

  /** Delivery receipts never change any unread count: DELIVERED still
      counts as unread. */
  lemma DeliveryKeepsUnreadCounts(db: Db, u: int, now: int, a: int, b: int)
    ensures ChatService.UnreadCount(UpdateFriendChatStatus(db, u, now).chats, a, b) == ChatService.UnreadCount(db.chats, a, b)
  {
    var r := UpdateFriendChatStatus(db, u, now);
    CountMapped(db.chats, r.chats, (c: Chat) => ChatService.Unread(c, a, b), (c: Chat) => ChatService.Unread(c, a, b));
  }

  /** A second pass finds nothing left to mark. */
  lemma DeliveryIdempotent(db: Db, u: int, now: int, later: int)
    ensures UpdateFriendChatStatus(UpdateFriendChatStatus(db, u, now), u, later) == UpdateFriendChatStatus(db, u, now)
  {
    var once := UpdateFriendChatStatus(db, u, now);
    var twice := UpdateFriendChatStatus(once, u, later);
    assert twice.chats == once.chats;
  }

  /** Offline users get no receipts. */
  lemma OfflineUserGetsNoReceipts(db: Db, u: int, now: int)
    requires !UserOnline(db, u)
    ensures UpdateFriendChatStatus(db, u, now) == db
  {
    var r := UpdateFriendChatStatus(db, u, now);
    assert r.chats == db.chats;
  }

  // -----------------------------------------------------------------------
  // Replies

  /** `getFriendData`: the user as payload, or null when there is none. The
      JSON writer omits null fields, so that frame reaches the client with
      no `payload` key. */
  function GetFriendData(db: Db, id: int): (e: Envelope)
    ensures e.FriendData?
    ensures e.friend.Some? <==> FindUser(db, id).Some?
    ensures e.friend.Some? ==> e.friend.value == WireUserOf(FindUser(db, id).value, None) && e.friend.value.id == id
  {
    match FindUser(db, id)
    case None => FriendData(None)
    case Some(u) => FriendData(Some(WireUserOf(u, None)))
  }

  /** What the image lookup answers for the requester: the local URL when the
      server reports the file, else the empty string. */
  function RequesterImage(userId: int, found: bool): (url: string)
    ensures !found ==> url == ""
    ensures found ==> url == "http://localhost:8080/ChatApp/profile-images/" + IntToString(userId) + "/profile1.png"
  {
    if found then "http://localhost:8080/ChatApp/profile-images/" + IntToString(userId) + "/profile1.png" else ""
  }

  /** The friendship rows the directory query reads for one listed user. */
  function ListedRows(friends: seq<Friendship>, requester: int, listed: int): nat {
    Count(friends, (f: Friendship) => f.friendId == listed && f.userId == requester && f.status != Blocked)
  }

  function Dtos(users: seq<User>, friends: seq<Friendship>, requester: int, image: string): (r: Option<seq<WireUser>>)
    ensures r.None? <==> exists i | 0 <= i < |users| :: ListedRows(friends, requester, users[i].id) > 1
    ensures r.Some? ==> |r.value| == |users|
    ensures r.Some? ==> forall i | 0 <= i < |users| :: r.value[i] == WireUserOf(users[i], Some(image))
  {
    if users == [] then Some([])
    else
      assert forall i | 1 <= i < |users| :: users[i] == users[1..][i - 1];
      var rest := Dtos(users[1..], friends, requester, image);
      if ListedRows(friends, requester, users[0].id) > 1 then None
      else if rest.None? then None
      else
        var r := [WireUserOf(users[0], Some(image))] + rest.value;
        assert forall i | 1 <= i < |r| :: r[i] == rest.value[i - 1];
        Some(r)
  }

  /** `getAllUsers`: one entry per stored user, the requester included, in
      query order. The image lookup is made for the requester, so every entry
      carries the requester's picture. A friendship lookup that finds more
      than one row aborts the reply, which is then null. */
  function GetAllUsers(db: Db, requester: int, imageFound: bool): (r: Option<Envelope>)
    ensures r.None? <==> exists i | 0 <= i < |db.users| :: ListedRows(db.friends, requester, db.users[i].id) > 1
    ensures r.Some? ==> r.value.AllUsers? && |r.value.users| == |db.users|
    ensures r.Some? ==> forall i | 0 <= i < |db.users| ::
              r.value.users[i] == WireUserOf(db.users[i], Some(RequesterImage(requester, imageFound)))
  {
    match Dtos(db.users, db.friends, requester, RequesterImage(requester, imageFound))
    case None => None
    case Some(ds) => Some(AllUsers(ds))
  }

  /** Every entry carries the same picture, and the requester is listed too. */
  lemma DirectoryListsRequesterWithOneImage(db: Db, requester: int, imageFound: bool)
    requires GetAllUsers(db, requester, imageFound).Some?
    ensures var us := GetAllUsers(db, requester, imageFound).value.users;
            && (forall i, j | 0 <= i < |us| && 0 <= j < |us| :: us[i].profileImage == us[j].profileImage)
            && (FindUser(db, requester).Some? ==> exists i | 0 <= i < |us| :: us[i].id == requester)
  {
    var us := GetAllUsers(db, requester, imageFound).value.users;
    if FindUser(db, requester).Some? {
      var i :| 0 <= i < |db.users| && db.users[i] == FindUser(db, requester).value;
      assert us[i].id == requester;
    }
  }

  // -----------------------------------------------------------------------
  // Adding a contact

  const NotOnApp: string := "This user is not on this app"
  const AlreadyFriend: string := "This user is already your friend"
  const CurrentUserMissing: string := "Current user not found"
  const FriendAdded: string := "User added as friend"

  function UsersWithContact(users: seq<User>, contactNo: string): nat {
    Count(users, (x: User) => x.contactNo == contactNo)
  }

  function FirstWithContact(users: seq<User>, contactNo: string): (u: User)
    requires UsersWithContact(users, contactNo) > 0
    ensures u in users && u.contactNo == contactNo
  {
    if users[0].contactNo == contactNo then users[0]
    else
      assert forall i | 1 <= i < |users| :: users[i] == users[1..][i - 1];
      FirstWithContact(users[1..], contactNo)
  }

  /** The display name as stored: the text of the field, "null" when absent. */
  function StoredDisplayName(d: ContactDraft): (s: string)
    ensures d.displayName.Some? ==> s == d.displayName.value
    ensures d.displayName.None? ==> s == "null"
  {
    d.displayName.GetOr("null")
  }

  /** `saveNewContact`, its decision table in order: no user with the
      contact number (the country code is not consulted); a friendship row
      already from me to that user, whatever its status; no current user;
      otherwise one ACTIVE friendship row is added. A missing `user` object
      or a lookup that finds more than one row aborts the reply (null). */
  function SaveNewContact(db: Db, me: int, user: Option<ContactDraft>): (r: (Db, Option<Envelope>))
    requires Valid(db)
    ensures user.None? ==> r == (db, None)
    ensures r.1.Some? ==> r.1.value.NewContactResponse?
    ensures user.Some? && UsersWithContact(db.users, user.value.contactNo) == 0 ==>
              r == (db, Some(NewContactResponse(NotOnApp, false)))
    ensures user.Some? && UsersWithContact(db.users, user.value.contactNo) == 1 ==>
              var friend := FirstWithContact(db.users, user.value.contactNo);
              var rows := FriendshipRows(db.friends, me, friend.id);
              && (rows > 1 ==> r == (db, None))
              && (rows == 1 ==> r == (db, Some(NewContactResponse(AlreadyFriend, false))))
              && (rows == 0 && !HasUser(db, me) ==> r == (db, Some(NewContactResponse(CurrentUserMissing, false))))
              && (rows == 0 && HasUser(db, me) ==>
                    && r.0 == db.(friends := db.friends + [NewFriendship(me, friend.id, Some(StoredDisplayName(user.value)))])
                    && r.1 == Some(NewContactResponse(FriendAdded, true)))
    ensures user.Some? && UsersWithContact(db.users, user.value.contactNo) > 1 ==> r == (db, None)
    ensures r.1.Some? && r.1.value.responseStatus <==> r.0 != db
    ensures Valid(r.0)
  {
    match user
    case None => (db, None)
    case Some(d) =>
      var n := UsersWithContact(db.users, d.contactNo);
      if n > 1 then (db, None)
      else if n == 0 then (db, Some(NewContactResponse(NotOnApp, false)))
      else
        var friend := FirstWithContact(db.users, d.contactNo);
        var rows := FriendshipRows(db.friends, me, friend.id);
        if rows > 1 then (db, None)
        else if rows == 1 then (db, Some(NewContactResponse(AlreadyFriend, false)))
        else if !HasUser(db, me) then (db, Some(NewContactResponse(CurrentUserMissing, false)))
        else
          var f := NewFriendship(me, friend.id, Some(StoredDisplayName(d)));
          var db2 := db.(friends := db.friends + [f]);
          assert db2.friends != db.friends by { assert |db2.friends| == |db.friends| + 1; }
          assert HasUser(db, friend.id) by {
            var i :| 0 <= i < |db.users| && db.users[i] == friend;
          }
          assert Valid(db2) by {
            assert forall id :: HasUser(db2, id) == HasUser(db, id);
          }
          (db2, Some(NewContactResponse(FriendAdded, true)))
  }

  /** Sending the same contact again after it was added is refused as
      already a friend, and stores nothing. */
  lemma SecondAddIsAlreadyFriend(db: Db, me: int, d: ContactDraft)
    requires Valid(db)
    requires SaveNewContact(db, me, Some(d)).1 == Some(NewContactResponse(FriendAdded, true))
    ensures var db2 := SaveNewContact(db, me, Some(d)).0;
            SaveNewContact(db2, me, Some(d)) == (db2, Some(NewContactResponse(AlreadyFriend, false)))
  {
    var db2 := SaveNewContact(db, me, Some(d)).0;
    var friend := FirstWithContact(db.users, d.contactNo);
    var f := NewFriendship(me, friend.id, Some(StoredDisplayName(d)));
    assert db2.friends == db.friends + [f];
    assert db2.users == db.users;
    var keep := (x: Friendship) => x.userId == me && x.friendId == friend.id;
    CountAppendOne(db.friends, f, keep);
  }

  /** The country code plays no part in the decision. */
  lemma CountryCodeIgnored(db: Db, me: int, d: ContactDraft, code: Option<string>)
    requires Valid(db)
    ensures SaveNewContact(db, me, Some(d.(countryCode := code))) == SaveNewContact(db, me, Some(d))
  {
  }
}
