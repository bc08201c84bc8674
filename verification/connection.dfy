/** The client's connection manager (`WebSocketProvider`): one effect keyed
    by the numeric user id that closes the previously held socket and opens
    a new one only for a positive id, the `connected` flag driven by the
    socket handlers, and the `sendMessage` primitive that stamps every frame
    with the provider's id. Sockets are values; the transport's events
    (open, close, error) are explicit steps naming the socket they concern. */
module Connection {
  import opened Wrappers
  import opened Strings
  import opened Protocol

  datatype ReadyState = Connecting | Open | Closing | Closed

  datatype Socket = Socket(url: string, state: ReadyState)

  /** Provider state. `sockets` lists every socket the provider created, in
      creation order; `current` is the socket reference (`socketRef.current`),
      which is never cleared once set. */
  datatype Provider = Provider(
    userId: int,
    sockets: seq<Socket>,
    current: Option<nat>,
    connected: bool)

  predicate Live(s: Socket) {
    s.state == Connecting || s.state == Open
  }

  /** The socket reference points into `sockets`, and no socket other than
      the referenced one is live. */
  predicate Valid(p: Provider) {
    && (p.current.Some? ==> p.current.value < |p.sockets|)
    && forall k | 0 <= k < |p.sockets| && Live(p.sockets[k]) :: p.current == Some(k)
  }

  predicate CurrentIsOpen(p: Provider) {
    p.current.Some? && p.current.value < |p.sockets| && p.sockets[p.current.value].state == Open
  }

  /** No socket at all is live. */
  predicate AllClosed(p: Provider) {
    forall k | 0 <= k < |p.sockets| :: !Live(p.sockets[k])
  }

  // -----------------------------------------------------------------------
  // Identity input

  /** The numeric id the app hands the provider: the stored string id parsed
      with `parseInt(_, 10)`, 0 when nothing is stored. A NaN parse is
      represented by 0: both are falsy and behave identically below. */
  function ProviderIdOf(stored: Option<string>): (id: int)
    ensures stored.None? || stored == Some("") ==> id == 0
    ensures stored.Some? && JsParseInt(stored.value).None? ==> id == 0
  {
    if stored.None? || stored.value == "" then 0
    else JsParseInt(stored.value).GetOr(0)
  }

  /** A stored decimal id reaches the provider unchanged. */
  lemma ProviderIdOfStoredNumber(n: nat)
    requires n <= MaxSafeInteger
    ensures ProviderIdOf(Some(NatToString(n))) == n
  {
    JsParseIntOfNatToString(n);
  }

  // -----------------------------------------------------------------------
  // The connection effect

  const DefaultHost: string := "localhost:8080"
  const ChatPath: string := "/ChatApp/chat?userId="

  /** `wss://{host}/ChatApp/chat?userId={id}`; an unset or empty host setting
      falls back to `localhost:8080`. */
  function SocketUrl(wsHost: Option<string>, userId: int): (url: string)
    ensures wsHost.None? || wsHost.value == "" ==> url == "wss://localhost:8080" + ChatPath + IntToString(userId)
    ensures wsHost.Some? && wsHost.value != "" ==> url == "wss://" + wsHost.value + ChatPath + IntToString(userId)
  {
    var host := if wsHost.Some? && wsHost.value != "" then wsHost.value else DefaultHost;
    "wss://" + host + ChatPath + IntToString(userId)
  }

  /** `WebSocket.close()`: a connecting or open socket starts closing; closing
      or closed sockets are unaffected. */
  function CloseSocket(s: Socket): (r: Socket)
    ensures !Live(r) && r.url == s.url
    ensures !Live(s) ==> r == s
  {
    if Live(s) then s.(state := Closing) else s
  }

  /** Closes the referenced socket, if any. */
  function CloseCurrent(p: Provider): (r: Provider)
    ensures r.userId == p.userId && r.current == p.current && r.connected == p.connected
    ensures |r.sockets| == |p.sockets|
    ensures Valid(p) ==> Valid(r) && AllClosed(r)
    ensures forall k | 0 <= k < |p.sockets| && p.current != Some(k) :: r.sockets[k] == p.sockets[k]
  {
    if p.current.Some? && p.current.value < |p.sockets| then
      var k := p.current.value;
      p.(sockets := p.sockets[k := CloseSocket(p.sockets[k])])
    else p
  }

  /** One run of the effect for `userId`: close the held socket, then open a
      new one when the id is positive, otherwise clear `connected`. The
      socket reference keeps the closed socket when no new one is opened. */
  function RunEffect(p: Provider, userId: int, wsHost: Option<string>): (r: Provider)
    ensures r.userId == userId
    ensures userId > 0 ==> (&& |r.sockets| == |p.sockets| + 1 && r.current == Some(|p.sockets|)
                            && r.sockets[|p.sockets|] == Socket(SocketUrl(wsHost, userId), Connecting))
    ensures userId <= 0 ==> |r.sockets| == |p.sockets| && r.current == p.current && !r.connected
    ensures userId <= 0 && Valid(p) ==> AllClosed(r)
    ensures r.connected ==> p.connected
    ensures Valid(p) ==> Valid(r)
  {
    var closed := CloseCurrent(p);
    if userId > 0 then
      var s := Socket(SocketUrl(wsHost, userId), Connecting);
      Provider(userId, closed.sockets + [s], Some(|p.sockets|), closed.connected)
    else
      closed.(userId := userId, connected := false)
  }

  /** The effect's cleanup, run before the next effect and on unmount. */
  function Cleanup(p: Provider): (r: Provider)
    ensures Valid(p) ==> Valid(r) && AllClosed(r)
    ensures r.current == p.current && r.userId == p.userId
  {
    CloseCurrent(p)
  }

  /** The provider's first render with `userId`. */
  function Mount(userId: int, wsHost: Option<string>): (r: Provider)
    ensures Valid(r)
    ensures |r.sockets| == (if userId > 0 then 1 else 0)
    ensures !r.connected
  {
    RunEffect(Provider(userId, [], None, false), userId, wsHost)
  }

  /** A new `userId` prop: the old effect's cleanup, then the new effect. */
  function ChangeUserId(p: Provider, userId: int, wsHost: Option<string>): (r: Provider)
    ensures Valid(p) ==> Valid(r)
  {
    RunEffect(Cleanup(p), userId, wsHost)
  }

  // -----------------------------------------------------------------------
  // Transport events. Each handler was bound to socket `k` when it was
  // created, so it fires for that socket whether or not it is still the
  // referenced one.

  /** `onopen`: only a connecting socket can open; its handler sets `connected`. */
  function SocketOpened(p: Provider, k: nat): (r: Provider)
    ensures r.connected <==> p.connected || (k < |p.sockets| && p.sockets[k].state == Connecting)
    ensures r.current == p.current && r.userId == p.userId && |r.sockets| == |p.sockets|
    ensures Valid(p) ==> Valid(r)
  {
    if k < |p.sockets| && p.sockets[k].state == Connecting then
      p.(sockets := p.sockets[k := p.sockets[k].(state := Open)], connected := true)
    else p
  }

  /** `onclose` (and `onerror`, which precedes it): the socket ends up closed
      and its handler clears `connected`. A socket that is already closed
      raises no further events. */
  function SocketClosed(p: Provider, k: nat): (r: Provider)
    ensures k < |p.sockets| && p.sockets[k].state != Closed ==> !r.connected
    ensures !(k < |p.sockets| && p.sockets[k].state != Closed) ==> r == p
    ensures r.current == p.current && r.userId == p.userId && |r.sockets| == |p.sockets|
    ensures Valid(p) ==> Valid(r)
  {
    if k < |p.sockets| && p.sockets[k].state != Closed then
      p.(sockets := p.sockets[k := p.sockets[k].(state := Closed)], connected := false)
    else p
  }

  // -----------------------------------------------------------------------
  // Sending

  /** `{...data, userId}`: the caller's fields with `userId` set to the
      provider's id, replacing any `userId` the caller supplied. */
  function Stamp(data: Fields, userId: int): (f: Fields)
    ensures f.Keys == data.Keys + {"userId"}
    ensures f["userId"] == IntValue(userId)
    ensures forall key | key in data && key != "userId" :: f[key] == data[key]
  {
    data["userId" := IntValue(userId)]
  }

  /** `sendMessage(data)`: the frame transmitted, or None when the referenced
      socket is missing or not open (a silent no-op). */
  function SendMessage(p: Provider, data: Fields): (sent: Option<Fields>)
    ensures sent.Some? <==> CurrentIsOpen(p)
    ensures sent.Some? ==> sent.value == Stamp(data, p.userId)
  {
    if CurrentIsOpen(p) then Some(Stamp(data, p.userId)) else None
  }

  /** Switching to a non-positive id leaves nothing that can transmit, even
      though the socket reference still holds the old (closing) socket. */
  lemma NoSendAfterInvalidId(p: Provider, userId: int, wsHost: Option<string>, data: Fields)
    requires Valid(p) && userId <= 0
    ensures SendMessage(ChangeUserId(p, userId, wsHost), data).None?
    ensures !ChangeUserId(p, userId, wsHost).connected
  {
    var r := ChangeUserId(p, userId, wsHost);
    if r.current.Some? && r.current.value < |r.sockets| {
      assert !Live(r.sockets[r.current.value]);
    }
  }

  /** A change of id closes every socket of the old id before the new socket
      exists: the new socket is the only live one afterwards. */
  lemma SwitchLeavesOnlyNewSocketLive(p: Provider, userId: int, wsHost: Option<string>)
    requires Valid(p) && userId > 0
    ensures var r := ChangeUserId(p, userId, wsHost);
            && r.current == Some(|p.sockets|)
            && forall k | 0 <= k < |p.sockets| :: !Live(r.sockets[k])
  {
    var c := Cleanup(p);
    var r := RunEffect(c, userId, wsHost);
    assert AllClosed(c);
    forall k | 0 <= k < |p.sockets|
      ensures !Live(r.sockets[k])
    {
      assert r.sockets[k] == c.sockets[k];
    }
  }

  /** The close handler of a replaced socket still clears `connected`: after
      a switch to a positive id and the new socket opening, a late close
      event from any old socket not yet closed leaves `connected` false while
      the referenced socket is open. */
  lemma StaleCloseClearsConnected(p: Provider, userId: int, wsHost: Option<string>, k: nat)
    requires Valid(p) && userId > 0 && k < |p.sockets|
    requires ChangeUserId(p, userId, wsHost).sockets[k].state != Closed
    ensures var p1 := SocketOpened(ChangeUserId(p, userId, wsHost), |p.sockets|);
            var p2 := SocketClosed(p1, k);
            p1.connected && CurrentIsOpen(p2) && !p2.connected
  {
    var n := |p.sockets|;
    var r := ChangeUserId(p, userId, wsHost);
    var p1 := SocketOpened(r, n);
    assert p1.sockets == r.sockets[n := r.sockets[n].(state := Open)];
    assert p1.sockets[k] == r.sockets[k];
    var p2 := SocketClosed(p1, k);
    assert p2.sockets == p1.sockets[k := p1.sockets[k].(state := Closed)];
    assert p2.sockets[n] == p1.sockets[n];
  }

  // -----------------------------------------------------------------------
  // Context access

  /** What the provider exposes to the hooks. */
  datatype ContextValue = ContextValue(socket: Option<Socket>, isConnected: bool, userId: int)

  function Context(p: Provider): (c: ContextValue)
    ensures c.socket.Some? <==> p.current.Some? && p.current.value < |p.sockets|
    ensures c.isConnected == p.connected && c.userId == p.userId
  {
    var s := if p.current.Some? && p.current.value < |p.sockets| then Some(p.sockets[p.current.value]) else None;
    ContextValue(s, p.connected, p.userId)
  }

  const OutsideProviderError: string := "useWebSocket must be used within a WebSocketProvider"

  /** `useWebSocket()`: the context value, or the error thrown outside a provider. */
  function UseWebSocket(ctx: Option<ContextValue>): (r: Result<ContextValue, string>)
    ensures r.Err? <==> ctx.None?
    ensures r.Err? ==> r.error == OutsideProviderError
    ensures r.Ok? ==> r.value == ctx.value
  {
    match ctx
    case None => Err(OutsideProviderError)
    case Some(c) => Ok(c)
  }
}
