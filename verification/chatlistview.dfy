/** The conversation list tab: the search filter, the newest-first ordering,
    the relative time shown on each row, the unread badge and the empty-list
    title. Timestamps are milliseconds since the epoch. */
module ChatListView {
  import opened Wrappers
  import opened Strings
  import opened Protocol
  import opened Sorting

  // -----------------------------------------------------------------------
  // Search

  /** Case-insensitive match of the search text against the peer's name or
      the last message. */
  predicate MatchesSearch(c: ChatSummary, search: string) {
    Contains(ToLower(c.friendName), ToLower(search)) || Contains(ToLower(c.lastMessage), ToLower(search))
  }

  /** The conversations that match, in their original order. */
  function FilterChats(chats: seq<ChatSummary>, search: string): (r: seq<ChatSummary>)
    ensures |r| <= |chats|
    ensures multiset(r) <= multiset(chats)
    ensures forall c :: c in r <==> c in chats && MatchesSearch(c, search)
    ensures forall c :: multiset(r)[c] == if MatchesSearch(c, search) then multiset(chats)[c] else 0
  {
    KeptCounts(chats, search);
    var r := Kept(chats, search);
    assert forall c :: c in r <==> c in multiset(r);
    assert forall c :: c in chats <==> c in multiset(chats);
    r
  }

  function Kept(chats: seq<ChatSummary>, search: string): seq<ChatSummary>
    decreases |chats|
  {
    if chats == [] then []
    else (if MatchesSearch(chats[0], search) then [chats[0]] else []) + Kept(chats[1..], search)
  }

  lemma {:induction false} KeptCounts(chats: seq<ChatSummary>, search: string)
    ensures |Kept(chats, search)| <= |chats|
    ensures forall c :: multiset(Kept(chats, search))[c] == if MatchesSearch(c, search) then multiset(chats)[c] else 0
    decreases |chats|
  {
    if chats != [] {
      KeptCounts(chats[1..], search);
      assert chats == [chats[0]] + chats[1..];
      assert multiset(chats) == multiset{chats[0]} + multiset(chats[1..]);
    }
  }

  lemma {:induction false} KeptAppend(a: seq<ChatSummary>, b: seq<ChatSummary>, search: string)
    ensures Kept(a + b, search) == Kept(a, search) + Kept(b, search)
    decreases |a|
  {
    if a == [] {
      assert a + b == b;
    } else {
      assert (a + b)[0] == a[0] && (a + b)[1..] == a[1..] + b;
      KeptAppend(a[1..], b, search);
    }
  }

  /** Filtering keeps the list's order: it distributes over concatenation. */
  lemma FilterChatsAppend(a: seq<ChatSummary>, b: seq<ChatSummary>, search: string)
    ensures FilterChats(a + b, search) == FilterChats(a, search) + FilterChats(b, search)
  {
    KeptAppend(a, b, search);
  }

  /** An empty search keeps every conversation, in order. */
  lemma {:induction false} EmptySearchKeepsAll(chats: seq<ChatSummary>)
    ensures FilterChats(chats, "") == chats
  {
    if chats != [] {
      ContainsEmpty(ToLower(chats[0].friendName));
      EmptySearchKeepsAll(chats[1..]);
    }
  }

  // -----------------------------------------------------------------------
  // Newest first

  predicate NewestFirst(s: seq<ChatSummary>) {
    forall i, j | 0 <= i < j < |s| :: s[i].lastTimeStamp >= s[j].lastTimeStamp
  }

  function Recency(c: ChatSummary): int {
    -c.lastTimeStamp
  }

  /** The comparator `b - a` on timestamps: newest first. The sort is
      `SortBy`, which is stable, so chats with equal timestamps keep the
      order the server sent them in. */
  function SortByRecency(s: seq<ChatSummary>): (r: seq<ChatSummary>)
    ensures NewestFirst(r)
    ensures multiset(r) == multiset(s)
  {
    SortBy(Recency, s)
  }

  /** What the list shows: the matching conversations, newest first. */
  function VisibleChats(chats: seq<ChatSummary>, search: string): (r: seq<ChatSummary>)
    ensures NewestFirst(r)
    ensures multiset(r) == multiset(FilterChats(chats, search))
    ensures forall c :: c in r <==> c in chats && MatchesSearch(c, search)
    ensures forall c :: multiset(r)[c] == if MatchesSearch(c, search) then multiset(chats)[c] else 0
  {
    var r := SortByRecency(FilterChats(chats, search));
    assert forall c :: c in r <==> c in multiset(r);
    r
  }

  // -----------------------------------------------------------------------
  // Relative time

  const MinuteMs: int := 60000
  const HourMs: int := 3600000
  const DayMs: int := 86400000

  /** `formatTime` over the difference `now - then`, with JavaScript's
      `Math.floor` divisions: "now" under a minute (a future timestamp
      included), then whole minutes 1-59, whole hours 1-23, else whole days.
      The `days === 1` special case renders the same text as the general
      one. */
  function FormatTime(diff: int): (t: string)
    ensures diff < MinuteMs ==> t == "now"
    ensures MinuteMs <= diff < HourMs ==> t == IntToString(diff / MinuteMs) + "m" && 1 <= diff / MinuteMs < 60
    ensures HourMs <= diff < DayMs ==> t == IntToString(diff / HourMs) + "h" && 1 <= diff / HourMs < 24
    ensures DayMs <= diff ==> t == IntToString(diff / DayMs) + "d" && diff / DayMs >= 1
  {
    var hours := diff / HourMs;
    if hours < 1 then
      var minutes := diff / MinuteMs;
      if minutes < 1 then "now" else IntToString(minutes) + "m"
    else if hours < 24 then IntToString(hours) + "h"
    else
      var days := hours / 24;
      FloorOfFloor(diff);
      OneDay();
      if days == 1 then "1d" else IntToString(days) + "d"
  }

  lemma OneDay()
    ensures IntToString(1) + "d" == "1d"
  {
    assert DigitChar(1) == '1';
    assert IntToString(1) == "1";
  }

  lemma FloorOfFloor(d: int)
    requires d >= 0
    ensures (d / HourMs) / 24 == d / DayMs
  {
    var h := d / HourMs;
    var q := h / 24;
    assert d == h * HourMs + d % HourMs;
    assert h == q * 24 + h % 24;
    assert d == q * DayMs + ((h % 24) * HourMs + d % HourMs);
    assert 0 <= (h % 24) * HourMs + d % HourMs < DayMs;
  }

  // -----------------------------------------------------------------------
  // Badge and empty state

  /** The unread badge: hidden unless positive, capped at "99+". */
  function UnreadBadge(count: int): (b: Option<string>)
    ensures b.Some? <==> count > 0
    ensures b.Some? ==> (b.value == "99+" <==> count > 99)
    ensures 0 < count <= 99 ==> b == Some(IntToString(count))
  {
    if count <= 0 then None
    else if count > 99 then Some("99+")
    else
      assert AllDigits(IntToString(count));
      assert !IsDigit("99+"[2]);
      Some(IntToString(count))
  }

  /** A numeric badge is the count's decimal form: one or two characters,
      denoting the count (`parseInt` reads it back). */
  lemma UnreadBadgeReadsBack(count: int)
    requires 0 < count <= 99
    ensures UnreadBadge(count).Some? && JsParseInt(UnreadBadge(count).value) == Some(count)
    ensures |UnreadBadge(count).value| <= 2
  {
    assert IntToString(count) == NatToString(count);
    JsParseIntOfNatToString(count);
    if count >= 10 {
      assert NatToString(count) == NatToString(count / 10) + [DigitChar(count % 10)];
    }
  }

  /** The title of the empty list: depends on the unfiltered list only. */
  function EmptyTitle(chats: seq<ChatSummary>): (t: string)
    ensures t == "No conversations yet" <==> chats == []
    ensures t != "No conversations yet" ==> t == "No chats found"
  {
    if |chats| == 0 then "No conversations yet" else "No chats found"
  }
}
