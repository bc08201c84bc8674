/** The new-chat tab: a directory of all users kept in step with the
    `get_all_users` hook, searchable by name or number, with an avatar
    fallback, a presence dot, a status label and the parameters passed to the
    conversation screen. */
module Directory {
  import opened Wrappers
  import opened Strings
  import opened Protocol
  import Hooks
  import Replay

  datatype DirectoryState = DirectoryState(users: seq<WireUser>, loading: bool)

  const DirectoryInitial: DirectoryState := DirectoryState([], true)

  /** The effect on the hook's list: a non-empty list replaces the shown
      users and ends loading; an empty one is ignored. */
  function UpdateUsers(st: DirectoryState, allUsers: seq<WireUser>): (r: DirectoryState)
    ensures |allUsers| > 0 ==> r == DirectoryState(allUsers, false)
    ensures |allUsers| == 0 ==> r == st
  {
    if |allUsers| > 0 then DirectoryState(allUsers, false) else st
  }

  /** The hook's list and the screen's copy, advanced together by one envelope. */
  datatype Screen = Screen(hookUsers: seq<WireUser>, shown: DirectoryState)

  /** Every directory payload is a freshly decoded array, so the screen's
      effect runs after each `get_all_users` envelope. */
  function ScreenStep(s: Screen, e: Envelope): (r: Screen)
    ensures r.hookUsers == if e.AllUsers? then e.users else s.hookUsers
    ensures e.AllUsers? && |e.users| > 0 ==> r.shown == DirectoryState(e.users, false)
    ensures !(e.AllUsers? && |e.users| > 0) ==> r.shown == s.shown
  {
    var hookUsers := Hooks.AllUsersReduce(s.hookUsers, e);
    Screen(hookUsers, if e.AllUsers? then UpdateUsers(s.shown, hookUsers) else s.shown)
  }

  /** The screen shows the last non-empty directory received; an empty
      directory never clears it. */
  lemma ShownIsLastNonEmptyDirectory(es: seq<Envelope>)
    ensures var s := Replay.Run(ScreenStep, Screen([], DirectoryInitial), es);
            forall i | 0 <= i < |es| && es[i].AllUsers? && |es[i].users| > 0
                       && (forall j | i < j < |es| :: !(es[j].AllUsers? && |es[j].users| > 0)) ::
              s.shown == DirectoryState(es[i].users, false)
    ensures (forall i | 0 <= i < |es| :: !(es[i].AllUsers? && |es[i].users| > 0)) ==>
              Replay.Run(ScreenStep, Screen([], DirectoryInitial), es).shown == DirectoryInitial
  {
    var pick := (e: Envelope) => if e.AllUsers? && |e.users| > 0 then Some(DirectoryState(e.users, false)) else None;
    Replay.LastPickWins(ScreenStep, (s: Screen) => s.shown, pick, Screen([], DirectoryInitial), es);
  }

  // -----------------------------------------------------------------------
  // Search

  function FullName(u: WireUser): string {
    u.firstName + " " + u.lastName
  }

  predicate UserMatches(u: WireUser, search: string) {
    Contains(ToLower(FullName(u)), ToLower(search)) || Contains(u.contactNo, search)
  }

  function FilterUsers(users: seq<WireUser>, search: string): (r: seq<WireUser>)
    ensures JsBlank(search) ==> r == users
    ensures !JsBlank(search) ==> forall u :: u in r <==> u in users && UserMatches(u, search)
    ensures !JsBlank(search) ==> forall u :: multiset(r)[u] == if UserMatches(u, search) then multiset(users)[u] else 0
    ensures multiset(r) <= multiset(users)
  {
    if JsBlank(search) then users else MatchingUsers(users, search)
  }

  /** `users.filter(...)`: each matching user as many times as it occurs,
      in the directory's order (see `MatchingUsersAppend`). */
  function MatchingUsers(users: seq<WireUser>, search: string): (r: seq<WireUser>)
    ensures |r| <= |users|
    ensures multiset(r) <= multiset(users)
    ensures forall u :: u in r <==> u in users && UserMatches(u, search)
    ensures forall u :: multiset(r)[u] == if UserMatches(u, search) then multiset(users)[u] else 0
  {
    MatchedCounts(users, search);
    var r := Matched(users, search);
    assert forall u :: u in r <==> u in multiset(r);
    assert forall u :: u in users <==> u in multiset(users);
    r
  }

  function Matched(users: seq<WireUser>, search: string): seq<WireUser>
    decreases |users|
  {
    if users == [] then []
    else (if UserMatches(users[0], search) then [users[0]] else []) + Matched(users[1..], search)
  }

  lemma {:induction false} MatchedCounts(users: seq<WireUser>, search: string)
    ensures |Matched(users, search)| <= |users|
    ensures forall u :: multiset(Matched(users, search))[u] == if UserMatches(u, search) then multiset(users)[u] else 0
    decreases |users|
  {
    if users != [] {
      MatchedCounts(users[1..], search);
      assert users == [users[0]] + users[1..];
      assert multiset(users) == multiset{users[0]} + multiset(users[1..]);
    }
  }

  lemma {:induction false} MatchedAppend(a: seq<WireUser>, b: seq<WireUser>, search: string)
    ensures Matched(a + b, search) == Matched(a, search) + Matched(b, search)
    decreases |a|
  {
    if a == [] {
      assert a + b == b;
    } else {
      assert (a + b)[0] == a[0] && (a + b)[1..] == a[1..] + b;
      MatchedAppend(a[1..], b, search);
    }
  }

  /** Filtering keeps the directory's order: it distributes over concatenation. */
  lemma MatchingUsersAppend(a: seq<WireUser>, b: seq<WireUser>, search: string)
    ensures MatchingUsers(a + b, search) == MatchingUsers(a, search) + MatchingUsers(b, search)
  {
    MatchedAppend(a, b, search);
  }

  // -----------------------------------------------------------------------
  // Row rendering and navigation

  const AvatarBase: string := "https://avatar.iran.liara.run/public/"

  /** The avatar: the stored image unless absent or blank, else a
      placeholder keyed by the user id. */
  function AvatarUri(u: WireUser): (uri: string)
    ensures u.profileImage.Some? && !JsBlank(u.profileImage.value) ==> uri == u.profileImage.value
    ensures u.profileImage.None? || JsBlank(u.profileImage.value) ==> uri == AvatarBase + IntToString(u.id)
  {
    if u.profileImage.Some? && !JsBlank(u.profileImage.value) then u.profileImage.value
    else AvatarBase + IntToString(u.id)
  }

  /** Users without a usable stored image get placeholders that tell them
      apart: distinct ids give distinct URLs, and the tail after the
      service's address is the id's rendering. */
  lemma PlaceholdersDistinct(u: WireUser, v: WireUser)
    requires u.profileImage.None? || JsBlank(u.profileImage.value)
    requires v.profileImage.None? || JsBlank(v.profileImage.value)
    ensures AvatarUri(u)[..|AvatarBase|] == AvatarBase && AvatarUri(u)[|AvatarBase|..] == IntToString(u.id)
    ensures AvatarUri(u) == AvatarUri(v) <==> u.id == v.id
  {
    if AvatarUri(u) == AvatarUri(v) {
      assert AvatarUri(u)[|AvatarBase|..] == AvatarUri(v)[|AvatarBase|..];
      IntToStringInjective(u.id, v.id);
    }
  }

  /** The presence dot is green for ONLINE and ACTIVE only. */
  function ShowsOnline(status: string): (g: bool)
    ensures g <==> status == "ONLINE" || status == "ACTIVE"
  {
    status == "ONLINE" || status == "ACTIVE"
  }

  /** The status line: lower-cased with the first '_' turned into a space;
      "No status" when the status is empty. */
  function StatusLabel(status: string): (text: string)
    ensures status == [] ==> text == "No status"
    ensures status != [] ==> |text| == |status|
    ensures status != [] ==> forall k | 0 <= k < |status| ::
              text[k] == if status[k] == '_' && '_' !in status[..k] then ' ' else LowerChar(status[k])
  {
    if status == [] then "No status"
    else
      var lower := ToLower(status);
      assert forall k | 0 <= k < |status| :: ('_' in lower[..k] <==> '_' in status[..k]) by {
        forall k | 0 <= k < |status| ensures '_' in lower[..k] <==> '_' in status[..k] {
          assert forall j | 0 <= j < k :: lower[..k][j] == LowerChar(status[..k][j]);
        }
      }
      ReplaceFirst(lower, '_', ' ')
  }

  /** Only the first underscore becomes a space. */
  lemma StatusLabelReplacesFirstUnderscoreOnly()
    ensures StatusLabel("ONLINE") == "online"
    ensures StatusLabel("A_B_C") == "a b_c"
  {
    assert ToLower("ONLINE") == "online";
    assert ToLower("A_B_C") == "a_b_c";
    assert IndexOf("a_b_c", '_') == Some(1);
    assert IndexOf("online", '_') == None;
  }

  /** A green dot always sits next to the label "online" or "active"; any
      other status, "online" in lower case included, shows a grey dot. */
  lemma GreenDotLabels(status: string)
    ensures ShowsOnline(status) ==> StatusLabel(status) == "online" || StatusLabel(status) == "active"
    ensures status == "online" ==> !ShowsOnline(status) && StatusLabel(status) == "online"
  {
    if status == "ONLINE" {
      assert ToLower("ONLINE") == "online";
      assert IndexOf("online", '_') == None;
    } else if status == "ACTIVE" {
      assert ToLower("ACTIVE") == "active";
      assert IndexOf("active", '_') == None;
    } else if status == "online" {
      assert ToLower("online") == "online";
      assert IndexOf("online", '_') == None;
    }
  }

  datatype ChatParams = ChatParams(chatId: int, friendName: string, lastSeenTime: string, profileImage: string)

  /** The chat button: opens the conversation with the user's id, full name
      and avatar. */
  function OpenChat(u: WireUser): (p: ChatParams)
    ensures p.chatId == u.id && p.friendName == u.firstName + " " + u.lastName
    ensures p.lastSeenTime == "Online" && p.profileImage == AvatarUri(u)
  {
    ChatParams(u.id, FullName(u), "Online", AvatarUri(u))
  }
}
