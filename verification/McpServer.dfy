/**
 The MCP fixture server (scripts/mcp_conformance/server.py): the legacy
 initialize handshake, the table of HTTP sessions, and the JSON-RPC discipline
 of requests and notifications.

 What a method does once the handshake is over is a parameter; here it only
 matters whether it yields a result or an error.
 */
module McpServer {
  import opened Options
  import opened Json

  const PARSE_ERROR := -32700
  const INVALID_REQUEST := -32600
  const METHOD_NOT_FOUND := -32601
  const INVALID_PARAMS := -32602
  const HEADER_MISMATCH := -32020
  const UNSUPPORTED_PROTOCOL_VERSION := -32022

  const INITIALIZE := "initialize"
  const INITIALIZED := "notifications/initialized"
  const DISCOVER := "server/discover"

  datatype ProtocolMode = Legacy | Modern(version: string)

  datatype Profile = MismatchedDiscoveryId | NullDiscoveryId | OtherProfile

  /** The `_meta` object of modern requests: its protocol version, and whether it has capabilities. */
  datatype Meta = NoMeta | Meta(version: Option<string>, capabilities: bool)

  datatype Params = NotAnObject | Params(protocolVersion: Option<string>, meta: Meta, rest: Value)

  /** `call` is None when the method is missing or not a string, `id` when there is no id. */
  datatype Incoming = NotObject | Incoming(jsonrpc2: bool, call: Option<string>, id: Option<Value>, params: Params)

  datatype Reply = Result(id: Value, body: Value) | Error(id: Value, code: int)

  datatype Served = Answer(body: Value) | Refusal(code: int)

  datatype Config = Config(
    mode: ProtocolMode,
    profile: Profile,
    greeting: Value,
    serve: (string, Params) -> Served,
    notices: (string, Params) -> seq<Value>,
    mismatched: Value -> Value)

  datatype State = State(initializeSeen: bool, initialized: bool)

  const UNSEEN := State(false, false)

  predicate WellFormed(m: Incoming) {
    m.Incoming? && m.jsonrpc2 && m.call.Some?
  }

  predicate Notification(m: Incoming) {
    WellFormed(m) && m.id.None?
  }

  predicate IsRequest(m: Incoming) {
    WellFormed(m) && m.id.Some?
  }

  function IdOf(m: Incoming): Value {
    if m.Incoming? && m.id.Some? then m.id.value else Null
  }

  predicate Calls(m: Incoming, name: string) {
    m.Incoming? && m.call == Some(name)
  }

  function Reply1(id: Value, served: Served): Reply {
    match served
    case Answer(body) => Result(id, body)
    case Refusal(code) => Error(id, code)
  }

  function ModernReply(c: Config, m: Incoming): Reply
    requires IsRequest(m) && m.params.Params? && c.mode.Modern?
  {
    var id, meta := m.id.value, m.params.meta;
    if m.call.value == INITIALIZE then Error(id, METHOD_NOT_FOUND)
    else if meta.NoMeta? || meta.version.None? || !meta.capabilities then Error(id, INVALID_PARAMS)
    else if meta.version.value != c.mode.version then Error(id, UNSUPPORTED_PROTOCOL_VERSION)
    else if m.call.value == DISCOVER then
      Result(match c.profile
             case MismatchedDiscoveryId => c.mismatched(id)
             case NullDiscoveryId => Null
             case OtherProfile => id,
             c.greeting)
    else Reply1(id, c.serve(m.call.value, m.params))
  }

  /** A legacy initialize that is accepted. */
  predicate Accepted(c: Config, m: Incoming) {
    c.mode.Legacy? && IsRequest(m) && Calls(m, INITIALIZE) && m.params.Params? && m.params.protocolVersion.Some?
  }

  /** The notification that completes the handshake. */
  predicate Confirms(c: Config, m: Incoming) {
    c.mode.Legacy? && Notification(m) && Calls(m, INITIALIZED) && m.params.Params?
  }

  function NextState(c: Config, s: State, m: Incoming): State {
    if Accepted(c, m) then s.(initializeSeen := true)
    else if Confirms(c, m) && s.initializeSeen then s.(initialized := true)
    else s
  }

  function ReplyTo(c: Config, s: State, m: Incoming): Option<Reply> {
    if !WellFormed(m) then Some(Error(IdOf(m), INVALID_REQUEST))
    else if m.params.NotAnObject? then
      if Notification(m) then None else Some(Error(IdOf(m), INVALID_PARAMS))
    else if Notification(m) then None
    else if c.mode.Modern? then Some(ModernReply(c, m))
    else if Calls(m, INITIALIZE) then
      Some(if Accepted(c, m) then Result(IdOf(m), c.greeting) else Error(IdOf(m), INVALID_PARAMS))
    else if Calls(m, DISCOVER) then Some(Error(IdOf(m), METHOD_NOT_FOUND))
    else if !s.initialized then Some(Error(IdOf(m), INVALID_REQUEST))
    else Some(Reply1(IdOf(m), c.serve(m.call.value, m.params)))
  }

  /** The request gets as far as the method it calls. */
  predicate Reaches(c: Config, s: State, m: Incoming) {
    && IsRequest(m) && m.params.Params? && !Calls(m, INITIALIZE) && !Calls(m, DISCOVER)
    && match c.mode
       case Legacy => s.initialized
       case Modern(version) => m.params.meta.Meta? && m.params.meta.version == Some(version) && m.params.meta.capabilities
  }

  /** The notifications that a method sends ahead of its reply. */
  function NoticesOf(c: Config, s: State, m: Incoming): seq<Value> {
    if Reaches(c, s, m) then c.notices(m.call.value, m.params) else []
  }

  // ---------- JSON-RPC discipline ----------

  predicate BrokenDiscovery(c: Config, m: Incoming) {
    c.mode.Modern? && c.profile != OtherProfile && Calls(m, DISCOVER)
  }

  /**
   Sections 4.1 and 5 of JSON-RPC 2.0: notifications are never answered, anything
   else exactly once, and under its own id (null when it has none) unless one of
   the two malformed-discovery profiles is at work.
   */
  lemma OneReplyPerRequest(c: Config, s: State, m: Incoming)
    ensures ReplyTo(c, s, m).None? <==> Notification(m)
    ensures !Notification(m) && !BrokenDiscovery(c, m) ==> ReplyTo(c, s, m).value.id == IdOf(m)
  {
  }

  // ---------- The connection state as it is written ----------

  class ConnectionState {
    var initializeSeen: bool
    var initialized: bool

    constructor ()
      ensures Abs() == UNSEEN
    {
      initializeSeen, initialized := false, false;
    }

    ghost function Abs(): State
      reads this
    {
      State(initializeSeen, initialized)
    }
  }

  /** `ProtocolServer.handle`. */
  method Handle(c: Config, m: Incoming, state: ConnectionState) returns (reply: Option<Reply>, notices: seq<Value>)
    modifies state
    ensures state.Abs() == NextState(c, old(state.Abs()), m)
    ensures reply == ReplyTo(c, old(state.Abs()), m) && notices == NoticesOf(c, old(state.Abs()), m)
  {
    if m.NotObject? {
      return Some(Error(Null, INVALID_REQUEST)), [];
    }
    if !m.jsonrpc2 || m.call.None? {
      return Some(Error(IdOf(m), INVALID_REQUEST)), [];
    }
    var isNotification := m.id.None?;
    if m.params.NotAnObject? {
      return if isNotification then None else Some(Error(m.id.value, INVALID_PARAMS)), [];
    }
    if isNotification {
      if c.mode.Legacy? && m.call.value == INITIALIZED && state.initializeSeen {
        state.initialized := true;
      }
      return None, [];
    }
    if c.mode.Modern? {
      reply, notices := HandleModern(c, m);
      return;
    }
    reply, notices := HandleLegacy(c, m, state);
  }

  /** `_handle_modern`: no state, everything is in the request. */
  method HandleModern(c: Config, m: Incoming) returns (reply: Option<Reply>, notices: seq<Value>)
    requires c.mode.Modern? && IsRequest(m) && m.params.Params?
    ensures forall s :: reply == ReplyTo(c, s, m) && notices == NoticesOf(c, s, m)
  {
    var id, call, meta := m.id.value, m.call.value, m.params.meta;
    if call == INITIALIZE {
      return Some(Error(id, METHOD_NOT_FOUND)), [];
    }
    if meta.NoMeta? || meta.version.None? || !meta.capabilities {
      return Some(Error(id, INVALID_PARAMS)), [];
    }
    if meta.version.value != c.mode.version {
      return Some(Error(id, UNSUPPORTED_PROTOCOL_VERSION)), [];
    }
    if call == DISCOVER {
      match c.profile
      case MismatchedDiscoveryId => return Some(Result(c.mismatched(id), c.greeting)), [];
      case NullDiscoveryId => return Some(Result(Null, c.greeting)), [];
      case OtherProfile => return Some(Result(id, c.greeting)), [];
    }
    return Some(Reply1(id, c.serve(call, m.params))), c.notices(call, m.params);
  }

  method HandleLegacy(c: Config, m: Incoming, state: ConnectionState) returns (reply: Option<Reply>, notices: seq<Value>)
    requires c.mode.Legacy? && IsRequest(m) && m.params.Params?
    modifies state
    ensures state.Abs() == NextState(c, old(state.Abs()), m)
    ensures reply == ReplyTo(c, old(state.Abs()), m) && notices == NoticesOf(c, old(state.Abs()), m)
  {
    var id := m.id.value;
    if m.call.value == INITIALIZE {
      if m.params.protocolVersion.None? {
        return Some(Error(id, INVALID_PARAMS)), [];
      }
      state.initializeSeen := true;
      return Some(Result(id, c.greeting)), [];
    }
    if m.call.value == DISCOVER {
      return Some(Error(id, METHOD_NOT_FOUND)), [];
    }
    if !state.initialized {
      return Some(Error(id, INVALID_REQUEST)), [];
    }
    return Some(Reply1(id, c.serve(m.call.value, m.params))), c.notices(m.call.value, m.params);
  }

  // ---------- The session table ----------

  type Table = map<string, State>

  /** A legacy HTTP exchange; `issued` is the id a new session would get. */
  datatype Exchange =
    | Post(message: Incoming, session: Option<string>, issued: string)
    | Delete(session: Option<string>)

  /** The session an exchange reads or writes, if any. */
  function Target(e: Exchange): Option<string> {
    match e
    case Delete(session) => session
    case Post(m, session, issued) =>
      if Calls(m, INITIALIZE) then Some(issued) else if Calls(m, DISCOVER) then None else session
  }

  function NextTable(c: Config, t: Table, e: Exchange): Table {
    var sid := Target(e);
    if sid.None? then t
    else if e.Delete? then t - {sid.value}
    else if Calls(e.message, INITIALIZE) then t[sid.value := NextState(c, UNSEEN, e.message)]
    else if sid.value in t then t[sid.value := NextState(c, t[sid.value], e.message)]
    else t
  }

  /** The JSON body sent back by a POST that carries a JSON object. */
  function PostReply(c: Config, t: Table, e: Exchange): Option<Reply>
    requires e.Post?
  {
    var sid := Target(e);
    if Calls(e.message, INITIALIZE) || Calls(e.message, DISCOVER) then ReplyTo(c, UNSEEN, e.message)
    else if sid.None? || sid.value !in t then Some(Error(IdOf(e.message), INVALID_REQUEST))
    else ReplyTo(c, t[sid.value], e.message)
  }

  datatype Deletion = NotAllowed | Removed | Unknown

  /** How a DELETE is answered. */
  function Deleted(c: Config, t: Table, endpoint: bool, session: Option<string>): Deletion {
    if !endpoint || c.mode.Modern? then NotAllowed
    else if session.Some? && session.value in t then Removed
    else Unknown
  }

  class FixtureServer {
    const config: Config
    var sessions: map<string, ConnectionState>

    /** Sessions do not share their state objects. */
    ghost predicate Valid()
      reads this
    {
      forall a, b | a in sessions && b in sessions && a != b :: sessions[a] != sessions[b]
    }

    ghost function Abs(): Table
      reads this, sessions.Values
    {
      map sid | sid in sessions :: sessions[sid].Abs()
    }

    constructor (config: Config)
      ensures Valid() && Abs() == map[] && this.config == config
    {
      this.config := config;
      sessions := map[];
    }

    /** `do_DELETE`: only the endpoint of a legacy server knows sessions. */
    method DoDelete(endpoint: bool, session: Option<string>) returns (status: Deletion)
      requires Valid()
      modifies this
      ensures Valid()
      ensures status == Deleted(config, old(Abs()), endpoint, session)
      ensures Abs() == if status == NotAllowed then old(Abs()) else NextTable(config, old(Abs()), Delete(session))
    {
      if !endpoint || config.mode.Modern? {
        return NotAllowed;
      }
      var existed := session.Some? && session.value in sessions;
      if session.Some? {
        sessions := sessions - {session.value};
      }
      return if existed then Removed else Unknown;
    }

    /** A new session under the id issued to it. */
    method OpenSession(m: Incoming, issued: string) returns (reply: Option<Reply>)
      requires Valid()
      modifies this
      ensures Valid()
      ensures Abs() == old(Abs())[issued := NextState(config, UNSEEN, m)]
      ensures reply == ReplyTo(config, UNSEEN, m)
    {
      var state := new ConnectionState();
      var notices;
      reply, notices := Handle(config, m, state);
      sessions := sessions[issued := state];
    }

    method DoPost(m: Incoming, session: Option<string>, issued: string) returns (reply: Option<Reply>)
      requires Valid() && config.mode.Legacy?
      modifies this, sessions.Values
      ensures Valid()
      ensures Abs() == NextTable(config, old(Abs()), Post(m, session, issued))
      ensures reply == PostReply(config, old(Abs()), Post(m, session, issued))
    {
      if m.NotObject? {
        return Some(Error(Null, INVALID_REQUEST));
      }
      if m.call == Some(INITIALIZE) {
        reply := OpenSession(m, issued);
        return;
      }
      if m.call == Some(DISCOVER) {
        var state := new ConnectionState();
        var notices;
        reply, notices := Handle(config, m, state);
        return;
      }
      if session.None? || session.value !in sessions {
        return Some(Error(IdOf(m), INVALID_REQUEST));
      }
      var notices;
      reply, notices := Handle(config, m, sessions[session.value]);
    }
  }

  // ---------- The HTTP front ----------

  /** What is checked of a POST before its body is looked at. */
  datatype Head = Head(endpoint: bool, originAllowed: bool, jsonType: bool, lengthOk: bool)

  /** The code a POST is turned away with; the body is None when it is no JSON. */
  function Rejection(head: Head, body: Option<Incoming>): Option<int> {
    if !head.endpoint then Some(METHOD_NOT_FOUND)
    else if !head.originAllowed || !head.jsonType || !head.lengthOk then Some(INVALID_REQUEST)
    else if body.None? then Some(PARSE_ERROR)
    else None
  }

  /** `do_POST`: a request that is turned away touches no session, and a modern one never does. */
  method HandlePost(server: FixtureServer, head: Head, body: Option<Incoming>, headersMatch: bool,
                    session: Option<string>, issued: string)
    returns (reply: Option<Reply>)
    requires server.Valid()
    modifies server, server.sessions.Values
    ensures server.Valid()
    ensures Rejection(head, body).Some? ==>
              server.Abs() == old(server.Abs()) && reply == Some(Error(Null, Rejection(head, body).value))
    ensures Rejection(head, body).None? && server.config.mode.Legacy? ==>
              && server.Abs() == NextTable(server.config, old(server.Abs()), Post(body.value, session, issued))
              && reply == PostReply(server.config, old(server.Abs()), Post(body.value, session, issued))
    ensures Rejection(head, body).None? && !server.config.mode.Legacy? ==>
              && server.Abs() == old(server.Abs())
              && reply == if body.value.Incoming? && body.value.id.Some? && !headersMatch
                          then Some(Error(IdOf(body.value), HEADER_MISMATCH))
                          else ReplyTo(server.config, UNSEEN, body.value)
  {
    if !head.endpoint {
      return Some(Error(Null, METHOD_NOT_FOUND));
    }
    if !head.originAllowed || !head.jsonType || !head.lengthOk {
      return Some(Error(Null, INVALID_REQUEST));
    }
    if body.None? {
      return Some(Error(Null, PARSE_ERROR));
    }
    var m := body.value;
    if server.config.mode.Legacy? {
      reply := server.DoPost(m, session, issued);
      return;
    }
    if m.Incoming? && m.id.Some? && !headersMatch {
      return Some(Error(m.id.value, HEADER_MISMATCH));
    }
    var state := new ConnectionState();
    var notices;
    reply, notices := Handle(server.config, m, state);
  }

  // ---------- Every run ----------

  function After(c: Config, run: seq<Exchange>): Table {
    if run == [] then map[] else NextTable(c, After(c, run[..|run| - 1]), run[|run| - 1])
  }

  predicate Opens(c: Config, e: Exchange, sid: string) {
    e.Post? && Accepted(c, e.message) && e.issued == sid
  }

  predicate Completes(c: Config, e: Exchange, sid: string) {
    e.Post? && Confirms(c, e.message) && e.session == Some(sid)
  }

  /** The session is closed, or its id is issued to a new one. */
  predicate Ends(e: Exchange, sid: string) {
    match e
    case Delete(session) => session == Some(sid)
    case Post(m, _, issued) => Calls(m, INITIALIZE) && issued == sid
  }

  /** The exchange at `i` opened the session that now has this id. */
  predicate OpenedAt(c: Config, run: seq<Exchange>, sid: string, i: nat) {
    i < |run| && Opens(c, run[i], sid) && forall k | i < k < |run| :: !Ends(run[k], sid)
  }

  predicate Opened(c: Config, run: seq<Exchange>, sid: string) {
    exists i :: 0 <= i < |run| && OpenedAt(c, run, sid, i)
  }

  /** The handshake of the session that now has this id: opened, and then completed. */
  predicate ShookHands(c: Config, run: seq<Exchange>, sid: string) {
    exists i, j :: 0 <= i < j < |run| && OpenedAt(c, run, sid, i) && Completes(c, run[j], sid)
  }

  lemma OpenedAtGrows(c: Config, run: seq<Exchange>, e: Exchange, sid: string, i: nat)
    requires i < |run|
    ensures OpenedAt(c, run + [e], sid, i) <==> OpenedAt(c, run, sid, i) && !Ends(e, sid)
  {
    var longer := run + [e];
    assert forall k | 0 <= k < |run| :: longer[k] == run[k];
    assert longer[|run|] == e;
  }

  lemma OpenedGrows(c: Config, run: seq<Exchange>, e: Exchange, sid: string)
    ensures Opened(c, run + [e], sid) <==> Opens(c, e, sid) || (Opened(c, run, sid) && !Ends(e, sid))
  {
    var longer := run + [e];
    assert longer[|run|] == e;
    forall i | 0 <= i < |run|
      ensures OpenedAt(c, longer, sid, i) <==> OpenedAt(c, run, sid, i) && !Ends(e, sid)
    {
      OpenedAtGrows(c, run, e, sid, i);
    }
    assert OpenedAt(c, longer, sid, |run|) <==> Opens(c, e, sid);
  }

  lemma ShookHandsGrows(c: Config, run: seq<Exchange>, e: Exchange, sid: string)
    ensures ShookHands(c, run + [e], sid) <==>
            !Ends(e, sid) && (ShookHands(c, run, sid) || (Opened(c, run, sid) && Completes(c, e, sid)))
  {
    var longer := run + [e];
    assert forall k | 0 <= k < |run| :: longer[k] == run[k];
    assert longer[|run|] == e;
    forall i | 0 <= i < |run|
      ensures OpenedAt(c, longer, sid, i) <==> OpenedAt(c, run, sid, i) && !Ends(e, sid)
    {
      OpenedAtGrows(c, run, e, sid, i);
    }
    if !Ends(e, sid) && ShookHands(c, run, sid) {
      var i, j :| 0 <= i < j < |run| && OpenedAt(c, run, sid, i) && Completes(c, run[j], sid);
      assert OpenedAt(c, longer, sid, i) && Completes(c, longer[j], sid);
    }
    if !Ends(e, sid) && Opened(c, run, sid) && Completes(c, e, sid) {
      var i :| 0 <= i < |run| && OpenedAt(c, run, sid, i);
      assert OpenedAt(c, longer, sid, i) && Completes(c, longer[|run|], sid);
    }
  }

  /** The state of a session says exactly what has happened since its id was last issued. */
  lemma {:induction false} StateRemembersHandshake(c: Config, run: seq<Exchange>, sid: string)
    ensures sid in After(c, run) && After(c, run)[sid].initializeSeen <==> Opened(c, run, sid)
    ensures sid in After(c, run) && After(c, run)[sid].initialized <==> ShookHands(c, run, sid)
  {
    if run == [] {
    } else {
      var n := |run| - 1;
      var before, e := run[..n], run[n];
      assert run == before + [e];
      OpenedGrows(c, before, e, sid);
      ShookHandsGrows(c, before, e, sid);
      StateRemembersHandshake(c, before, sid);
    }
  }

  /** No method but initialize yields a result on a session that has not shaken hands. */
  lemma NoResultBeforeHandshake(c: Config, run: seq<Exchange>, e: Exchange)
    requires c.mode.Legacy? && e.Post? && !Calls(e.message, INITIALIZE)
    requires PostReply(c, After(c, run), e).Some? && PostReply(c, After(c, run), e).value.Result?
    ensures e.session.Some? && e.session.value in After(c, run) && ShookHands(c, run, e.session.value)
  {
    StateRemembersHandshake(c, run, e.session.value);
  }

  /** A well-formed request is served if and only if its session has shaken hands, and is refused otherwise. */
  lemma ServedExactlyAfterHandshake(c: Config, run: seq<Exchange>, e: Exchange)
    requires c.mode.Legacy? && e.Post? && IsRequest(e.message) && e.message.params.Params?
    requires !Calls(e.message, INITIALIZE) && !Calls(e.message, DISCOVER)
    ensures PostReply(c, After(c, run), e) ==
            if e.session.Some? && ShookHands(c, run, e.session.value)
            then Some(Reply1(IdOf(e.message), c.serve(e.message.call.value, e.message.params)))
            else Some(Error(IdOf(e.message), INVALID_REQUEST))
  {
    if e.session.Some? {
      StateRemembersHandshake(c, run, e.session.value);
    }
  }

  /** The exchanges that concern one session. */
  function Only(run: seq<Exchange>, sid: string): seq<Exchange> {
    if run == [] then []
    else
      var n := |run| - 1;
      Only(run[..n], sid) + (if Target(run[n]) == Some(sid) then [run[n]] else [])
  }

  function Lookup(t: Table, sid: string): Option<State> {
    if sid in t then Some(t[sid]) else None
  }

  lemma StepIsLocal(c: Config, t: Table, u: Table, e: Exchange, sid: string)
    requires Lookup(t, sid) == Lookup(u, sid)
    ensures Target(e) == Some(sid) ==> Lookup(NextTable(c, t, e), sid) == Lookup(NextTable(c, u, e), sid)
    ensures Target(e) != Some(sid) ==> Lookup(NextTable(c, t, e), sid) == Lookup(t, sid)
  {
  }

  /** Sessions never affect one another: a session is what its own exchanges made of it. */
  lemma {:induction false} SessionsAreIsolated(c: Config, run: seq<Exchange>, sid: string)
    ensures Lookup(After(c, run), sid) == Lookup(After(c, Only(run, sid)), sid)
  {
    if run == [] {
    } else {
      var n := |run| - 1;
      SessionsAreIsolated(c, run[..n], sid);
      StepIsLocal(c, After(c, run[..n]), After(c, Only(run[..n], sid)), run[n], sid);
      var only := Only(run, sid);
      if Target(run[n]) == Some(sid) {
        assert only[..|only| - 1] == Only(run[..n], sid) && only[|only| - 1] == run[n];
      } else {
        assert only == Only(run[..n], sid);
      }
    }
  }

  predicate Reissued(run: seq<Exchange>, sid: string) {
    exists i :: 0 <= i < |run| && run[i].Post? && Calls(run[i].message, INITIALIZE) && run[i].issued == sid
  }

  /** A session that is not there comes back only if its id is issued again. */
  lemma {:induction false} GoneStaysGone(c: Config, before: seq<Exchange>, run: seq<Exchange>, sid: string)
    requires sid !in After(c, before) && !Reissued(run, sid)
    ensures sid !in After(c, before + run)
  {
    if run == [] {
      assert before + run == before;
    } else {
      var n := |run| - 1;
      assert forall i | 0 <= i < n :: run[..n][i] == run[i];
      GoneStaysGone(c, before, run[..n], sid);
      assert (before + run)[..|before| + n] == before + run[..n];
    }
  }

  /** After a delete every later exchange on that session is refused, given fresh ids. */
  lemma DeletedSessionIsRefused(c: Config, before: seq<Exchange>, run: seq<Exchange>, sid: string, e: Exchange)
    requires !Reissued(run, sid)
    requires e.Post? && e.session == Some(sid) && !Calls(e.message, INITIALIZE) && !Calls(e.message, DISCOVER)
    ensures PostReply(c, After(c, before + [Delete(Some(sid))] + run), e) == Some(Error(IdOf(e.message), INVALID_REQUEST))
  {
    var closed := before + [Delete(Some(sid))];
    assert closed[..|closed| - 1] == before;
    assert sid !in After(c, closed);
    GoneStaysGone(c, closed, run, sid);
  }

  /** Over HTTP a notification is answered after all exactly when it needs a session and its session is unknown. */
  lemma NotificationAnsweredExactlyWhenUnknown(c: Config, t: Table, e: Exchange)
    requires c.mode.Legacy? && e.Post? && Notification(e.message)
    ensures PostReply(c, t, e).Some? <==>
            && !Calls(e.message, INITIALIZE) && !Calls(e.message, DISCOVER)
            && (e.session.None? || e.session.value !in t)
  {
    if e.session.Some? && e.session.value in t {
      OneReplyPerRequest(c, t[e.session.value], e.message);
    }
    OneReplyPerRequest(c, UNSEEN, e.message);
  }

  /** Over HTTP everything but a notification is answered, and every answer carries the id of its message. */
  lemma PostRepliesCarryIds(c: Config, t: Table, e: Exchange)
    requires e.Post?
    ensures !Notification(e.message) ==> PostReply(c, t, e).Some?
    ensures PostReply(c, t, e).Some? && !BrokenDiscovery(c, e.message) ==> PostReply(c, t, e).value.id == IdOf(e.message)
  {
    OneReplyPerRequest(c, UNSEEN, e.message);
    if e.session.Some? && e.session.value in t {
      OneReplyPerRequest(c, t[e.session.value], e.message);
    }
  }

  /** A cancellation for a session that was never opened is answered with an error. */
  lemma StrayCancellationIsAnswered(c: Config, session: string, issued: string)
    requires c.mode.Legacy?
    ensures var m := Incoming(true, Some("notifications/cancelled"), None, Params(None, NoMeta, Null));
            Notification(m) && PostReply(c, After(c, []), Post(m, Some(session), issued)) == Some(Error(Null, INVALID_REQUEST))
  {
    assert "notifications/cancelled"[0] == 'n' && INITIALIZE[0] == 'i' && DISCOVER[0] == 's';
  }

  // ---------- The standard streams ----------

  /** A line of input; None when it is no JSON. */
  type Line = Option<Incoming>

  function StateAfter(c: Config, lines: seq<Line>): State {
    if lines == [] then UNSEEN
    else
      var n := |lines| - 1;
      var s := StateAfter(c, lines[..n]);
      if lines[n].None? then s else NextState(c, s, lines[n].value)
  }

  function LineReply(c: Config, s: State, line: Line): Option<Reply> {
    if line.None? then Some(Error(Null, PARSE_ERROR)) else ReplyTo(c, s, line.value)
  }

  /** The replies written to the standard output for these lines. */
  function Replies(c: Config, lines: seq<Line>): seq<Reply> {
    if lines == [] then []
    else
      var n := |lines| - 1;
      var reply := LineReply(c, StateAfter(c, lines[..n]), lines[n]);
      Replies(c, lines[..n]) + (if reply.Some? then [reply.value] else [])
  }

  /** The lines that are owed a reply. */
  function Owed(lines: seq<Line>): seq<Line> {
    if lines == [] then []
    else
      var n := |lines| - 1;
      Owed(lines[..n]) + (if lines[n].Some? && Notification(lines[n].value) then [] else [lines[n]])
  }

  /** A line of output. */
  datatype Output = Notice(body: Value) | Sent(reply: Reply)

  function AsNotices(bodies: seq<Value>): seq<Output> {
    seq(|bodies|, i requires 0 <= i < |bodies| => Notice(bodies[i]))
  }

  /** What one line of input puts out: the notifications of its method, then its reply. */
  function LineOutput(c: Config, s: State, line: Line): seq<Output> {
    var reply := LineReply(c, s, line);
    (if line.Some? then AsNotices(NoticesOf(c, s, line.value)) else []) + (if reply.Some? then [Sent(reply.value)] else [])
  }

  function Outputs(c: Config, lines: seq<Line>): seq<Output> {
    if lines == [] then []
    else
      var n := |lines| - 1;
      Outputs(c, lines[..n]) + LineOutput(c, StateAfter(c, lines[..n]), lines[n])
  }

  function SentOnly(output: seq<Output>): seq<Reply> {
    if output == [] then []
    else
      var n := |output| - 1;
      SentOnly(output[..n]) + (if output[n].Sent? then [output[n].reply] else [])
  }

  method RunStdio(c: Config, lines: seq<Line>) returns (output: seq<Output>)
    ensures output == Outputs(c, lines)
    ensures SentOnly(output) == Replies(c, lines)
  {
    output := [];
    var state := new ConnectionState();
    for i := 0 to |lines|
      invariant fresh(state)
      invariant state.Abs() == StateAfter(c, lines[..i])
      invariant output == Outputs(c, lines[..i])
    {
      assert lines[..i + 1][..i] == lines[..i];
      if lines[i].None? {
        assert LineOutput(c, StateAfter(c, lines[..i]), lines[i]) == [Sent(Error(Null, PARSE_ERROR))];
        output := output + [Sent(Error(Null, PARSE_ERROR))];
        continue;
      }
      ghost var before := output;
      var reply, notices := Handle(c, lines[i].value, state);
      output := output + AsNotices(notices);
      if reply.Some? {
        output := output + [Sent(reply.value)];
      }
      assert output == before + LineOutput(c, StateAfter(c, lines[..i]), lines[i]);
    }
    assert lines[..|lines|] == lines;
    SentAreReplies(c, lines);
  }

  lemma {:induction false} SentConcat(a: seq<Output>, b: seq<Output>)
    ensures SentOnly(a + b) == SentOnly(a) + SentOnly(b)
  {
    if b == [] {
      assert a + b == a;
    } else {
      var n := |b| - 1;
      SentConcat(a, b[..n]);
      assert (a + b)[..|a| + n] == a + b[..n];
    }
  }

  lemma {:induction false} NoticesAreNotSent(bodies: seq<Value>)
    ensures SentOnly(AsNotices(bodies)) == []
  {
    if bodies == [] {
    } else {
      var n := |bodies| - 1;
      NoticesAreNotSent(bodies[..n]);
      assert AsNotices(bodies)[..n] == AsNotices(bodies[..n]);
    }
  }

  /** Only the lines of a method's notifications are put between the replies. */
  lemma {:induction false} SentAreReplies(c: Config, lines: seq<Line>)
    ensures SentOnly(Outputs(c, lines)) == Replies(c, lines)
  {
    if lines == [] {
    } else {
      var n := |lines| - 1;
      var s := StateAfter(c, lines[..n]);
      var reply := LineReply(c, s, lines[n]);
      var notices := if lines[n].Some? then AsNotices(NoticesOf(c, s, lines[n].value)) else [];
      var sent := if reply.Some? then [Sent(reply.value)] else [];
      SentAreReplies(c, lines[..n]);
      SentConcat(Outputs(c, lines[..n]), LineOutput(c, s, lines[n]));
      SentConcat(notices, sent);
      if lines[n].Some? {
        NoticesAreNotSent(NoticesOf(c, s, lines[n].value));
      }
      if reply.Some? {
        assert [Sent(reply.value)][..0] == [];
      }
    }
  }

  /** Over a whole session replies and requests correspond one to one, in order, each reply under the id of its request. */
  lemma {:induction false} RepliesMatchRequests(c: Config, lines: seq<Line>)
    ensures |Replies(c, lines)| == |Owed(lines)|
    ensures forall k | 0 <= k < |Owed(lines)| ::
              var line := Owed(lines)[k];
              line.None? || !BrokenDiscovery(c, line.value) ==>
                Replies(c, lines)[k].id == if line.Some? then IdOf(line.value) else Null
  {
    if lines == [] {
    } else {
      var n := |lines| - 1;
      RepliesMatchRequests(c, lines[..n]);
      if lines[n].Some? {
        OneReplyPerRequest(c, StateAfter(c, lines[..n]), lines[n].value);
      }
    }
  }

  predicate Shaken(c: Config, lines: seq<Line>) {
    exists j :: 0 <= j < |lines| && lines[j].Some? && Confirms(c, lines[j].value) && Asked(c, lines[..j])
  }

  predicate Asked(c: Config, lines: seq<Line>) {
    exists i :: 0 <= i < |lines| && lines[i].Some? && Accepted(c, lines[i].value)
  }

  lemma AskedGrows(c: Config, lines: seq<Line>, line: Line)
    ensures Asked(c, lines + [line]) <==> Asked(c, lines) || (line.Some? && Accepted(c, line.value))
  {
    var longer := lines + [line];
    assert longer[|lines|] == line;
    assert forall k | 0 <= k < |lines| :: longer[k] == lines[k];
  }

  lemma ShakenGrows(c: Config, lines: seq<Line>, line: Line)
    ensures Shaken(c, lines + [line]) <==> Shaken(c, lines) || (line.Some? && Confirms(c, line.value) && Asked(c, lines))
  {
    var longer := lines + [line];
    assert longer[|lines|] == line && longer[..|lines|] == lines;
    assert forall k | 0 <= k < |lines| :: longer[k] == lines[k] && longer[..k] == lines[..k];
  }

  /** Over the standard streams, too, the state says exactly whether the handshake has been completed. */
  lemma {:induction false} StdioRemembersHandshake(c: Config, lines: seq<Line>)
    ensures StateAfter(c, lines).initializeSeen <==> Asked(c, lines)
    ensures StateAfter(c, lines).initialized <==> Shaken(c, lines)
  {
    if lines == [] {
    } else {
      var n := |lines| - 1;
      assert lines == lines[..n] + [lines[n]];
      StdioRemembersHandshake(c, lines[..n]);
      AskedGrows(c, lines[..n], lines[n]);
      ShakenGrows(c, lines[..n], lines[n]);
    }
  }
}
