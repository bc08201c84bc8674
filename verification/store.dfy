/** The server's persistent state: users, chat messages and friendships, as
    the relational tables hold them, in query order. Rows refer to users by
    id. Timestamps are milliseconds since the epoch and are passed in by the
    caller wherever the server reads the clock. */
module Store {
  import opened Wrappers
  import opened Strings
  import opened Protocol

  /** The shared status enumeration of users and friendships. Chat rows keep
      their own three-valued delivery status (`Protocol.ChatStatus`). */
  datatype Status = Online | Offline | Active | Blocked

  function StatusName(s: Status): string {
    match s
    case Online => "ONLINE"
    case Offline => "OFFLINE"
    case Active => "ACTIVE"
    case Blocked => "BLOCKED"
  }

  datatype User = User(
    id: int,
    firstName: string,
    lastName: string,
    countryCode: string,
    contactNo: string,
    status: Status,
    createdAt: int,
    updatedAt: int)

  datatype Chat = Chat(
    id: int,
    from: int,
    to: int,
    message: string,
    files: string,
    status: ChatStatus,
    createdAt: int,
    updatedAt: int)

  /** A directed friendship row: `userId` lists `friendId`. The display name
      is null unless the add-contact path set one. */
  datatype Friendship = Friendship(userId: int, friendId: int, status: Status, displayName: Option<string>)

  datatype Db = Db(users: seq<User>, chats: seq<Chat>, friends: seq<Friendship>)

  // -----------------------------------------------------------------------
  // Entity constructors and their field defaults

  /** A registration: a new user starts ONLINE. */
  function NewUser(id: int, firstName: string, lastName: string, countryCode: string, contactNo: string, now: int)
    : (u: User)
    ensures u.status == Online && u.createdAt == now && u.updatedAt == now
    ensures u.id == id && u.firstName == firstName && u.lastName == lastName
    ensures u.countryCode == countryCode && u.contactNo == contactNo
  {
    User(id, firstName, lastName, countryCode, contactNo, Online, now, now)
  }

  /** The five-argument chat constructor drops its status argument, so every
      chat it builds is SENT whatever the caller asked for. */
  function NewChat(id: int, from: int, message: string, to: int, files: string, status: ChatStatus, now: int)
    : (c: Chat)
    ensures c.status == Sent
    ensures c.from == from && c.to == to && c.message == message && c.files == files
    ensures c.id == id && c.createdAt == now && c.updatedAt == now
  {
    Chat(id, from, to, message, files, Sent, now, now)
  }

  lemma ChatConstructorIgnoresStatus(id: int, from: int, message: string, to: int, files: string, now: int)
    ensures NewChat(id, from, message, to, files, Read, now) == NewChat(id, from, message, to, files, Sent, now)
  {
  }

  /** A new friendship row is ACTIVE. */
  function NewFriendship(userId: int, friendId: int, displayName: Option<string>): (f: Friendship)
    ensures f.status == Active && f.userId == userId && f.friendId == friendId && f.displayName == displayName
  {
    Friendship(userId, friendId, Active, displayName)
  }

  // -----------------------------------------------------------------------
  // Keys

  /** The generated key of a new row: one more than the largest key so far,
      hence positive and distinct from every existing key. */
  function FreshId<T>(rows: seq<T>, key: T -> int): (id: int)
    ensures id > 0
    ensures forall i | 0 <= i < |rows| :: key(rows[i]) < id
  {
    if rows == [] then 1
    else
      var rest := FreshId(rows[1..], key);
      assert forall i | 1 <= i < |rows| :: rows[i] == rows[1..][i - 1];
      if key(rows[0]) < rest then rest else key(rows[0]) + 1
  }

  function UserKey(u: User): int {
    u.id
  }

  function ChatKey(c: Chat): int {
    c.id
  }

  predicate HasUser(db: Db, id: int) {
    exists i | 0 <= i < |db.users| :: db.users[i].id == id
  }

  /** The schema's guarantees: user keys are unique and positive, and every
      chat and friendship row refers to existing users. */
  predicate Valid(db: Db) {
    && (forall i | 0 <= i < |db.users| :: db.users[i].id > 0)
    && (forall i, j | 0 <= i < j < |db.users| :: db.users[i].id != db.users[j].id)
    && (forall c | c in db.chats :: HasUser(db, c.from) && HasUser(db, c.to))
    && (forall f | f in db.friends :: HasUser(db, f.userId) && HasUser(db, f.friendId))
  }

  /** Two user tables with the same keys in the same order. */
  predicate SameKeys(a: seq<User>, b: seq<User>) {
    |a| == |b| && forall i | 0 <= i < |a| :: a[i].id == b[i].id
  }

  /** Changing non-key user columns keeps the store valid and every lookup
      defined. */
  lemma SameKeysKeepValid(db: Db, users: seq<User>)
    requires Valid(db) && SameKeys(db.users, users)
    ensures Valid(db.(users := users))
    ensures forall id :: HasUser(db, id) <==> HasUser(db.(users := users), id)
  {
    var db2 := db.(users := users);
    forall id ensures HasUser(db, id) <==> HasUser(db2, id) {
      if HasUser(db, id) {
        var i :| 0 <= i < |db.users| && db.users[i].id == id;
        assert db2.users[i].id == id;
      }
      if HasUser(db2, id) {
        var i :| 0 <= i < |db2.users| && db2.users[i].id == id;
        assert db.users[i].id == id;
      }
    }
  }

  /** Appending a chat between existing users, with a friendship table
      whose rows link existing users, keeps the store valid. */
  lemma AppendKeepsValid(db: Db, c: Chat, friends: seq<Friendship>)
    requires Valid(db) && HasUser(db, c.from) && HasUser(db, c.to)
    requires forall f | f in friends :: HasUser(db, f.userId) && HasUser(db, f.friendId)
    ensures Valid(Db(db.users, db.chats + [c], friends))
  {
    var db2 := Db(db.users, db.chats + [c], friends);
    assert forall id :: HasUser(db2, id) == HasUser(db, id);
  }

  /** Lookup by primary key. */
  function FindUser(db: Db, id: int): (r: Option<User>)
    ensures r.None? <==> forall i | 0 <= i < |db.users| :: db.users[i].id != id
    ensures r.Some? ==> r.value in db.users && r.value.id == id
  {
    FindUserIn(db.users, id)
  }

  function FindUserIn(users: seq<User>, id: int): (r: Option<User>)
    ensures r.None? <==> forall i | 0 <= i < |users| :: users[i].id != id
    ensures r.Some? ==> r.value in users && r.value.id == id
  {
    if users == [] then None
    else if users[0].id == id then Some(users[0])
    else
      assert forall i | 1 <= i < |users| :: users[i] == users[1..][i - 1];
      FindUserIn(users[1..], id)
  }

  /** In a valid store the row found is the only one with that key. */
  lemma FindUserUnique(db: Db, i: nat)
    requires Valid(db) && i < |db.users|
    ensures FindUser(db, db.users[i].id) == Some(db.users[i])
  {
    var r := FindUser(db, db.users[i].id);
    var j :| 0 <= j < |db.users| && db.users[j] == r.value;
    assert i == j;
  }

  // -----------------------------------------------------------------------
  // Serialised forms

  /** A user entity as its JSON form: the entity has no image field. */
  function WireUserOf(u: User, profileImage: Option<string>): (w: WireUser)
    ensures w.id == u.id && w.firstName == u.firstName && w.lastName == u.lastName
    ensures w.countryCode == u.countryCode && w.contactNo == u.contactNo
    ensures w.status == StatusName(u.status) && w.profileImage == profileImage
  {
    WireUser(u.id, u.firstName, u.lastName, u.countryCode, u.contactNo, profileImage, StatusName(u.status))
  }

  /** A chat entity as its JSON form, both endpoints expanded from the user
      table. */
  function ChatJson(db: Db, c: Chat): (w: WireChat)
    requires HasUser(db, c.from) && HasUser(db, c.to)
    ensures w.id == c.id && w.message == c.message && w.status == c.status
    ensures w.from == WireUserOf(FindUser(db, c.from).value, None)
    ensures w.to == WireUserOf(FindUser(db, c.to).value, None)
    ensures w.from.id == c.from && w.to.id == c.to
    ensures w.createdAt == c.createdAt && w.updatedAt == c.updatedAt
  {
    var from := FindUser(db, c.from).value;
    var to := FindUser(db, c.to).value;
    WireChat(c.id, c.message, WireUserOf(from, None), WireUserOf(to, None), c.createdAt, c.updatedAt, c.status)
  }

  // -----------------------------------------------------------------------
  // Counting rows

  /** The number of rows a criteria query with a row-count projection returns. */
  function Count<T>(s: seq<T>, keep: T -> bool): (n: nat)
    ensures n <= |s|
    ensures n == 0 <==> forall i | 0 <= i < |s| :: !keep(s[i])
    ensures n == |s| <==> forall i | 0 <= i < |s| :: keep(s[i])
  {
    if s == [] then 0
    else
      assert forall i | 1 <= i < |s| :: s[i] == s[1..][i - 1];
      (if keep(s[0]) then 1 else 0) + Count(s[1..], keep)
  }

  /** The friendship rows from `userId` to `friendId`. */
  function FriendshipRows(friends: seq<Friendship>, userId: int, friendId: int): (n: nat)
    ensures n == 0 <==> forall i | 0 <= i < |friends| :: !(friends[i].userId == userId && friends[i].friendId == friendId)
  {
    Count(friends, (f: Friendship) => f.userId == userId && f.friendId == friendId)
  }

  /** Appending one row adds one to the count exactly when the row is kept. */
  lemma {:induction false} CountAppendOne<T>(s: seq<T>, x: T, keep: T -> bool)
    ensures Count(s + [x], keep) == Count(s, keep) + (if keep(x) then 1 else 0)
  {
    if s != [] {
      assert (s + [x])[1..] == s[1..] + [x];
      CountAppendOne(s[1..], x, keep);
    }
  }

  /** Counting after a row-wise update: if the update turns exactly the rows
      satisfying `before` into rows satisfying `after`, the counts agree. */
  lemma {:induction false} CountMapped<T>(s: seq<T>, t: seq<T>, before: T -> bool, after: T -> bool)
    requires |s| == |t|
    requires forall i | 0 <= i < |s| :: after(t[i]) == before(s[i])
    ensures Count(t, after) == Count(s, before)
  {
    if s != [] {
      assert forall i | 0 <= i < |s| - 1 :: t[1..][i] == t[i + 1] && s[1..][i] == s[i + 1];
      CountMapped(s[1..], t[1..], before, after);
    }
  }
}
