/**
 The JSONL client that drives the app server
 (scripts/mcp_conformance/run_codex_compliance.py).  One stream carries
 responses, requests by the server and notifications; the client hands out
 responses, answers requests and logs everything else.

 The outside world is a script fixed in advance: what each read of the message
 queue yields, and how many writes succeed before the process is gone.
 */
module RpcClient {
  import opened Options
  import opened Json

  /** A message read from the server: the fields the client looks at, and the rest. */
  datatype Message = Message(id: Option<Value>, call: Option<Value>, params: Option<Value>, rest: string)

  datatype Delivery = Got(message: Message) | Closed | TimedOut

  datatype Outgoing =
    | Request(requestId: int, name: string, params: Option<Value>)
    | Notification(name: string)
    | Accept(id: Value, content: Value)
    | Refuse(id: Value, name: string)

  datatype Failure = ProcessExited | StdoutClosed | ReadTimedOut

  datatype Result = Ok(message: Message) | Err(failure: Failure)

  const ELICITATION := "mcpServer/elicitation/request"

  predicate RespondsTo(m: Message, requestId: int) {
    m.id == Some(Number(requestId)) && m.call.None?
  }

  predicate ServerRequest(m: Message) {
    m.id.Some? && m.call.Some? && m.call.value.Text?
  }

  predicate Elicitation(m: Message) {
    ServerRequest(m) && m.call.value.text == ELICITATION
  }

  predicate Matches(m: Message, name: string, wanted: Value -> bool) {
    m.call == Some(Text(name)) && m.params.Some? && m.params.value.Object? && wanted(m.params.value)
  }

  function ElicitationParams(m: Message): Value {
    if m.params.Some? && m.params.value.Object? then m.params.value else Object(map[])
  }

  /** The one reply a server request gets. */
  function Answer(m: Message, content: Value -> Value): Outgoing
    requires ServerRequest(m)
  {
    if Elicitation(m) then Accept(m.id.value, content(ElicitationParams(m)))
    else Refuse(m.id.value, m.call.value.text)
  }

  // ---------- What the logs must say about each other ----------

  function Answers(events: seq<Message>, content: Value -> Value): seq<Outgoing> {
    if events == [] then []
    else
      var n := |events| - 1;
      Answers(events[..n], content) + (if ServerRequest(events[n]) then [Answer(events[n], content)] else [])
  }

  function Elicited(events: seq<Message>): seq<Value> {
    if events == [] then []
    else
      var n := |events| - 1;
      var m := events[n];
      Elicited(events[..n]) +
      (if Elicitation(m) && m.params.Some? && m.params.value.Object? then [m.params.value] else [])
  }

  function Replies(sent: seq<Outgoing>): seq<Outgoing> {
    if sent == [] then []
    else
      var n := |sent| - 1;
      Replies(sent[..n]) + (if sent[n].Accept? || sent[n].Refuse? then [sent[n]] else [])
  }

  function RequestIds(sent: seq<Outgoing>): seq<int> {
    if sent == [] then []
    else
      var n := |sent| - 1;
      RequestIds(sent[..n]) + (if sent[n].Request? then [sent[n].requestId] else [])
  }

  predicate Increasing(ids: seq<int>, bound: int) {
    && (forall i | 0 <= i < |ids| :: 0 < ids[i] < bound)
    && (forall i, j | 0 <= i < j < |ids| :: ids[i] < ids[j])
  }

  /** The messages among a stretch of deliveries. */
  function Arrived(deliveries: seq<Delivery>): seq<Message> {
    if deliveries == [] then []
    else
      var n := |deliveries| - 1;
      Arrived(deliveries[..n]) + (if deliveries[n].Got? then [deliveries[n].message] else [])
  }

  /** What became of a consumed message. */
  datatype Fate = Returned(message: Message) | Logged(message: Message)

  function Consumed(fates: seq<Fate>): seq<Message> {
    seq(|fates|, i requires 0 <= i < |fates| => fates[i].message)
  }

  function LoggedOnly(fates: seq<Fate>): seq<Message> {
    if fates == [] then []
    else
      var n := |fates| - 1;
      LoggedOnly(fates[..n]) + (if fates[n].Logged? then [fates[n].message] else [])
  }

  // ---------- Waiting for a notification ----------

  /**
   Whether a wait would take the event at position j: from the log it takes any
   match at or after `after`; live, from position `seen` on, it passes over
   requests by the server.
   */
  predicate Eligible(events: seq<Message>, seen: nat, after: nat, name: string, wanted: Value -> bool, j: nat)
    requires j < |events|
  {
    Matches(events[j], name, wanted) && (if j < seen then after <= j else !ServerRequest(events[j]))
  }

  predicate NoneEligible(events: seq<Message>, seen: nat, after: nat, name: string, wanted: Value -> bool, upTo: nat)
    requires upTo <= |events|
  {
    forall j | 0 <= j < upTo :: !Eligible(events, seen, after, name, wanted, j)
  }

  /** k is the earliest match at or after `after`, wherever it came from. */
  predicate EarliestMatch(events: seq<Message>, after: nat, name: string, wanted: Value -> bool, k: nat)
    requires k < |events|
  {
    && after <= k && Matches(events[k], name, wanted)
    && forall j | after <= j < k :: !Matches(events[j], name, wanted)
  }

  /**
   A wait returns the earliest match exactly when it does not return an event from
   before the cursor and passed over no matching server request behind it.
   */
  lemma WaitReturnsTheEarliest(events: seq<Message>, seen: nat, after: nat, name: string, wanted: Value -> bool, k: nat)
    requires k < |events|
    requires Eligible(events, seen, after, name, wanted, k) && NoneEligible(events, seen, after, name, wanted, k)
    ensures EarliestMatch(events, after, name, wanted, k) <==>
            && after <= k
            && forall j | seen <= j < k && after <= j :: !(ServerRequest(events[j]) && Matches(events[j], name, wanted))
  {
    forall j | after <= j < k && Matches(events[j], name, wanted)
      ensures seen <= j && ServerRequest(events[j])
    {
      assert !Eligible(events, seen, after, name, wanted, j);
    }
  }

  /** The same log, a different answer: a matching server request is taken from the log and skipped live. */
  lemma ServerRequestsAreSkippedLive(name: string, params: Value)
    requires params.Object?
    ensures var asked := Message(Some(Number(7)), Some(Text(name)), Some(params), "");
            var told := Message(None, Some(Text(name)), Some(params), "");
            var events := [asked, told];
            var all := (v: Value) => true;
            && Eligible(events, 2, 0, name, all, 0)
            && !Eligible(events, 0, 0, name, all, 0) && Eligible(events, 0, 0, name, all, 1)
            && EarliestMatch(events, 0, name, all, 0) && !EarliestMatch(events, 0, name, all, 1)
  {
    var asked := Message(Some(Number(7)), Some(Text(name)), Some(params), "");
    var told := Message(None, Some(Text(name)), Some(params), "");
    var events := [asked, told];
    assert events[0] == asked && events[1] == told;
    assert Matches(events[0], name, (v: Value) => true);
  }

  /** With a cursor past the end of the log, a live wait takes an event from before the cursor. */
  lemma CursorPastTheEndIsIgnored(name: string, params: Value, after: nat)
    requires params.Object? && after > 0
    ensures var events := [Message(None, Some(Text(name)), Some(params), "")];
            var all := (v: Value) => true;
            && Eligible(events, 0, after, name, all, 0) && NoneEligible(events, 0, after, name, all, 0)
            && !ServerRequest(events[0]) && !EarliestMatch(events, after, name, all, 0)
  {
  }

  /** Where `events[after:]` starts: a negative index counts from the end. */
  function SliceStart(after: int, length: nat): nat {
    if after >= 0 then after else if length + after >= 0 then length + after else 0
  }

  class AppServerClient {
    const script: seq<Delivery>
    const writes: Option<nat>
    const content: Value -> Value
    var position: nat
    var nextId: int
    var events: seq<Message>
    var elicitations: seq<Value>
    var sent: seq<Outgoing>
    var broken: bool
    ghost var fates: seq<Fate>

    /** What holds of the logs at every moment. */
    ghost predicate Consistent()
      reads this
    {
      && position <= |script|
      && events == LoggedOnly(fates)
      && elicitations == Elicited(events)
      && nextId >= 1 && Increasing(RequestIds(sent), nextId)
      && (writes.Some? ==> |sent| <= writes.value)
      && (broken ==> writes.Some? && |sent| == writes.value)
      && Replies(sent) <= Answers(events, content)
      && (!broken ==> Replies(sent) == Answers(events, content))
    }

    /** Every message read has had one fate, in order of arrival. */
    ghost predicate Valid()
      reads this
    {
      Consistent() && Consumed(fates) == Arrived(script[..position])
    }

    /** One message has been read and not yet dealt with. */
    ghost predicate Pending(m: Message)
      reads this
    {
      Consistent() && Consumed(fates) + [m] == Arrived(script[..position])
    }

    /** The last read brought no message. */
    predicate Starved()
      reads this
    {
      position >= |script| || (position > 0 && !script[position - 1].Got?)
    }

    /** Why a read failed can be seen: a write was refused, or nothing more arrived. */
    predicate Explains(f: Failure)
      reads this
    {
      if f.ProcessExited? then broken else Starved()
    }

    constructor (script: seq<Delivery>, writes: Option<nat>, content: Value -> Value)
      ensures Valid() && nextId == 1 && events == [] && sent == [] && fates == []
      ensures this.script == script && this.writes == writes && this.content == content
    {
      this.script, this.writes, this.content := script, writes, content;
      position, nextId, broken := 0, 1, false;
      events, elicitations, sent, fates := [], [], [], [];
    }

    /** `_send`: nothing is written once the process has exited. */
    method Send(message: Outgoing) returns (ok: bool)
      modifies this`sent, this`broken
      ensures ok <==> writes.None? || old(|sent|) < writes.value
      ensures ok ==> sent == old(sent) + [message] && broken == old(broken)
      ensures !ok ==> sent == old(sent) && broken
    {
      ok := writes.None? || |sent| < writes.value;
      if ok {
        sent := sent + [message];
      } else {
        broken := true;
      }
    }

    /** The next read of the queue; past the script nothing arrives any more. */
    method Read() returns (d: Delivery)
      requires Valid()
      modifies this`position
      ensures d == if old(position) < |script| then script[old(position)] else TimedOut
      ensures d.Got? ==> Pending(d.message) && position == old(position) + 1
      ensures !d.Got? ==> Valid() && Starved()
    {
      if position == |script| {
        return TimedOut;
      }
      d := script[position];
      assert script[..position + 1][..position] == script[..position];
      position := position + 1;
    }

    method LogEvent(m: Message)
      requires Pending(m) && !ServerRequest(m)
      modifies this`events, this`fates
      ensures Valid()
      ensures events == old(events) + [m] && fates == old(fates) + [Logged(m)]
    {
      LogStep(fates, events, m);
      EventStep(events, m, content);
      events, fates := events + [m], fates + [Logged(m)];
    }

    /** Everything is in order except that the answer `owed` is still to be sent. */
    ghost predicate Owing(owed: Outgoing, settled: seq<Outgoing>)
      reads this
    {
      && position <= |script|
      && Consumed(fates) == Arrived(script[..position])
      && events == LoggedOnly(fates)
      && elicitations == Elicited(events)
      && nextId >= 1 && Increasing(RequestIds(sent), nextId)
      && (writes.Some? ==> |sent| <= writes.value)
      && (broken ==> writes.Some? && |sent| == writes.value)
      && Answers(events, content) == settled + [owed]
      && Replies(sent) <= settled && (!broken ==> Replies(sent) == settled)
    }

    method LogRequest(m: Message)
      requires Pending(m) && ServerRequest(m)
      modifies this`events, this`fates, this`elicitations
      ensures Owing(Answer(m, content), Answers(old(events), content))
      ensures events == old(events) + [m] && fates == old(fates) + [Logged(m)]
    {
      LogStep(fates, events, m);
      EventStep(events, m, content);
      events, fates := events + [m], fates + [Logged(m)];
      if Elicitation(m) && m.params.Some? && m.params.value.Object? {
        elicitations := elicitations + [m.params.value];
      }
    }

    method Settle(owed: Outgoing, ghost settled: seq<Outgoing>) returns (ok: bool)
      requires Owing(owed, settled) && (owed.Accept? || owed.Refuse?)
      modifies this`sent, this`broken
      ensures Valid()
      ensures ok <==> writes.None? || old(|sent|) < writes.value
      ensures sent == old(sent) + if ok then [owed] else []
      ensures !ok ==> broken
    {
      AppendSent(sent, owed);
      ok := Send(owed);
    }

    method HandleServerRequest(m: Message) returns (ok: bool)
      requires Pending(m) && ServerRequest(m)
      modifies this`events, this`fates, this`sent, this`broken, this`elicitations
      ensures Valid()
      ensures events == old(events) + [m] && fates == old(fates) + [Logged(m)]
      ensures ok <==> writes.None? || old(|sent|) < writes.value
      ensures sent == old(sent) + if ok then [Answer(m, content)] else []
      ensures !ok ==> broken
    {
      LogRequest(m);
      ok := Settle(Answer(m, content), Answers(old(events), content));
    }

    method Notify(name: string) returns (ok: bool)
      requires Valid()
      modifies this`sent, this`broken
      ensures Valid()
      ensures ok <==> writes.None? || old(|sent|) < writes.value
      ensures sent == old(sent) + if ok then [Notification(name)] else []
    {
      AppendSent(sent, Notification(name));
      ok := Send(Notification(name));
    }

    /** Hands a response to its caller: the one consumed message that is not logged. */
    ghost method HandOut(m: Message)
      requires Pending(m)
      modifies this`fates
      ensures Valid() && fates == old(fates) + [Returned(m)]
    {
      LogStep(fates, events, m);
      fates := fates + [Returned(m)];
    }

    /** Files a message that is not the awaited response. */
    method File(m: Message) returns (ok: bool)
      requires Pending(m)
      modifies this`events, this`fates, this`sent, this`broken, this`elicitations
      ensures Valid()
      ensures events == old(events) + [m] && fates == old(fates) + [Logged(m)]
      ensures old(sent) <= sent
      ensures !ServerRequest(m) ==> ok
      ensures !ok ==> broken
    {
      ok := true;
      if ServerRequest(m) {
        ok := HandleServerRequest(m);
      } else {
        LogEvent(m);
      }
    }

    /** One turn of the reading loop of a request; None when it has to go on. */
    method ReadOne(requestId: int) returns (outcome: Option<Result>)
      requires Valid()
      modifies this`position, this`events, this`fates, this`sent, this`broken, this`elicitations
      ensures Valid() && old(sent) <= sent && old(events) <= events
      ensures outcome.None? ==> old(position) < position && OnlyLogged(old(fates), fates, requestId)
      ensures outcome.Some? && outcome.value.Err? ==>
                OnlyLogged(old(fates), fates, requestId) && Explains(outcome.value.failure)
      ensures outcome.Some? && outcome.value.Ok? ==>
                RespondsTo(outcome.value.message, requestId) && fates == old(fates) + [Returned(outcome.value.message)]
    {
      var d := Read();
      if !d.Got? {
        return Some(Err(if d.Closed? then StdoutClosed else ReadTimedOut));
      }
      if RespondsTo(d.message, requestId) {
        HandOut(d.message);
        return Some(Ok(d.message));
      }
      var ok := FileOther(d.message, requestId);
      return if ok then None else Some(Err(ProcessExited));
    }

    /** Files a message that does not answer this request. */
    method FileOther(m: Message, ghost requestId: int) returns (ok: bool)
      requires Pending(m) && !RespondsTo(m, requestId)
      modifies this`events, this`fates, this`sent, this`broken, this`elicitations
      ensures Valid() && old(sent) <= sent && old(events) <= events
      ensures OnlyLogged(old(fates), fates, requestId)
      ensures !ok ==> broken
    {
      ok := File(m);
    }

    /** The reading loop of a request. */
    method AwaitResponse(requestId: int) returns (r: Result)
      requires Valid()
      modifies this`position, this`events, this`fates, this`sent, this`broken, this`elicitations
      ensures Valid()
      ensures r.Ok? ==> RespondsTo(r.message, requestId) && Answered(old(fates), fates, r.message, requestId)
      ensures r.Err? ==> OnlyLogged(old(fates), fates, requestId) && Explains(r.failure)
      ensures old(sent) <= sent && old(events) <= events
    {
      var outcome: Option<Result> := None;
      ghost var logged := fates;
      while outcome.None?
        invariant Valid() && OnlyLogged(old(fates), logged, requestId)
        invariant outcome.None? || outcome.value.Err? ==> fates == logged
        invariant outcome.Some? && outcome.value.Err? ==> Explains(outcome.value.failure)
        invariant outcome.Some? && outcome.value.Ok? ==>
          RespondsTo(outcome.value.message, requestId) && fates == logged + [Returned(outcome.value.message)]
        invariant old(sent) <= sent && old(events) <= events
        decreases outcome.None?, |script| - position
      {
        outcome := ReadOne(requestId);
        if outcome.None? || outcome.value.Err? {
          logged := fates;
        }
      }
      r := outcome.value;
    }

    method Call(name: string, params: Option<Value>) returns (r: Result)
      requires Valid()
      modifies this
      ensures Valid()
      ensures nextId == old(nextId) + 1
      ensures r.Ok? ==>
                && RespondsTo(r.message, old(nextId))
                && Answered(old(fates), fates, r.message, old(nextId))
                && old(sent) + [Request(old(nextId), name, params)] <= sent
      ensures r.Err? ==> OnlyLogged(old(fates), fates, old(nextId)) && Explains(r.failure)
      ensures old(events) <= events
    {
      var requestId := nextId;
      nextId := nextId + 1;
      AppendSent(sent, Request(requestId, name, params));
      var ok := Send(Request(requestId, name, params));
      if !ok {
        return Err(ProcessExited);
      }
      r := AwaitResponse(requestId);
    }

    /** The scan of the log before a wait starts to read. */
    method ScanLog(name: string, wanted: Value -> bool, after: nat) returns (k: nat)
      ensures k < |events| ==>
                && Eligible(events, |events|, after, name, wanted, k)
                && NoneEligible(events, |events|, after, name, wanted, k)
      ensures k >= |events| ==> NoneEligible(events, |events|, after, name, wanted, |events|)
    {
      k := after;
      while k < |events|
        invariant after <= k
        invariant forall j | 0 <= j < k && j < |events| :: !Eligible(events, |events|, after, name, wanted, j)
      {
        if Matches(events[k], name, wanted) {
          return;
        }
        k := k + 1;
      }
    }

    method WaitForNotification(name: string, wanted: Value -> bool, after: int) returns (r: Result, ghost k: nat)
      requires Valid()
      modifies this`position, this`events, this`fates, this`sent, this`broken, this`elicitations
      ensures Valid()
      ensures old(events) <= events
      ensures r.Ok? ==>
                && k < |events| && r.message == events[k]
                && Eligible(events, |old(events)|, SliceStart(after, |old(events)|), name, wanted, k)
                && NoneEligible(events, |old(events)|, SliceStart(after, |old(events)|), name, wanted, k)
                && (if k < |old(events)| then fates == old(fates) else k == |events| - 1)
      ensures r.Err? ==> NoneEligible(events, |old(events)|, SliceStart(after, |old(events)|), name, wanted, |events|) && Explains(r.failure)
    {
      var start := SliceStart(after, |events|);
      var found := ScanLog(name, wanted, start);
      k := found;
      if found < |events| {
        return Ok(events[found]), k;
      }
      r, k := AwaitNotification(name, wanted, start);
    }

    /** The reading loop of a wait. */
    method AwaitNotification(name: string, wanted: Value -> bool, ghost after: nat) returns (r: Result, ghost k: nat)
      requires Valid() && NoneEligible(events, |events|, after, name, wanted, |events|)
      modifies this`position, this`events, this`fates, this`sent, this`broken, this`elicitations
      ensures Valid() && old(events) <= events
      ensures r.Ok? ==>
                && k == |events| - 1 >= |old(events)| && r.message == events[k]
                && Eligible(events, |old(events)|, after, name, wanted, k)
                && NoneEligible(events, |old(events)|, after, name, wanted, k)
      ensures r.Err? ==> NoneEligible(events, |old(events)|, after, name, wanted, |events|) && Explains(r.failure)
    {
      ghost var seen := |events|;
      k := 0;
      while true
        invariant Valid() && old(events) <= events
        invariant NoneEligible(events, seen, after, name, wanted, |events|)
        decreases |script| - position
      {
        ghost var before := events;
        var turn := ReadEvent();
        if turn.Ok? {
          StillNone(before, turn.message, seen, after, name, wanted);
          if !ServerRequest(turn.message) && Matches(turn.message, name, wanted) {
            k := |events| - 1;
            return turn, k;
          }
        } else {
          if events != before {
            StillNone(before, events[|before|], seen, after, name, wanted);
          }
          return turn, k;
        }
      }
    }

    /** One turn of that loop: the message read and filed, or why there is none. */
    method ReadEvent() returns (turn: Result)
      requires Valid()
      modifies this`position, this`events, this`fates, this`sent, this`broken, this`elicitations
      ensures Valid()
      ensures turn.Ok? ==> old(position) < position && events == old(events) + [turn.message]
      ensures turn.Err? ==> Explains(turn.failure)
      ensures turn.Err? ==>
                events == old(events) ||
                (|events| == |old(events)| + 1 && events == old(events) + [events[|old(events)|]] && ServerRequest(events[|old(events)|]))
    {
      var d := Read();
      if !d.Got? {
        return Err(if d.Closed? then StdoutClosed else ReadTimedOut);
      }
      var ok := File(d.message);
      return if ok then Ok(d.message) else Err(ProcessExited);
    }
  }

  /** One more event leaves the earlier ones as eligible as they were. */
  lemma StillNone(events: seq<Message>, m: Message, seen: nat, after: nat, name: string, wanted: Value -> bool)
    requires seen <= |events| && NoneEligible(events, seen, after, name, wanted, |events|)
    ensures NoneEligible(events + [m], seen, after, name, wanted, |events|)
    ensures Eligible(events + [m], seen, after, name, wanted, |events|) <==> Matches(m, name, wanted) && !ServerRequest(m)
  {
    forall j | 0 <= j < |events|
      ensures !Eligible(events + [m], seen, after, name, wanted, j)
    {
      assert !Eligible(events, seen, after, name, wanted, j);
    }
  }

  /** `fates` extends `start` by logged messages that do not answer `requestId`. */
  predicate OnlyLogged(start: seq<Fate>, fates: seq<Fate>, requestId: int) {
    && start <= fates
    && forall i | |start| <= i < |fates| :: fates[i].Logged? && !RespondsTo(fates[i].message, requestId)
  }

  /** ... and then the response itself was handed out, unlogged. */
  predicate Answered(start: seq<Fate>, fates: seq<Fate>, response: Message, requestId: int) {
    && fates != [] && fates[|fates| - 1] == Returned(response)
    && OnlyLogged(start, fates[..|fates| - 1], requestId)
  }

  /** The server requests of a log are answered one for one, each under its own id. */
  lemma {:induction false} AnsweredOneForOne(events: seq<Message>, content: Value -> Value)
    ensures |Answers(events, content)| == |ServerRequests(events)|
    ensures forall i | 0 <= i < |ServerRequests(events)| ::
              && ServerRequest(ServerRequests(events)[i])
              && var answer := Answers(events, content)[i];
                 (answer.Accept? || answer.Refuse?) && answer.id == ServerRequests(events)[i].id.value
  {
    if events == [] {
    } else {
      AnsweredOneForOne(events[..|events| - 1], content);
    }
  }

  function ServerRequests(events: seq<Message>): seq<Message> {
    if events == [] then []
    else
      var n := |events| - 1;
      ServerRequests(events[..n]) + (if ServerRequest(events[n]) then [events[n]] else [])
  }

  lemma LogStep(fates: seq<Fate>, events: seq<Message>, m: Message)
    requires events == LoggedOnly(fates)
    ensures events + [m] == LoggedOnly(fates + [Logged(m)])
    ensures Consumed(fates + [Logged(m)]) == Consumed(fates) + [m]
    ensures LoggedOnly(fates + [Returned(m)]) == events
    ensures Consumed(fates + [Returned(m)]) == Consumed(fates) + [m]
  {
    assert (fates + [Logged(m)])[..|fates|] == fates && (fates + [Returned(m)])[..|fates|] == fates;
  }

  lemma EventStep(events: seq<Message>, m: Message, content: Value -> Value)
    ensures Answers(events + [m], content) == Answers(events, content) + (if ServerRequest(m) then [Answer(m, content)] else [])
    ensures Elicited(events + [m]) ==
            Elicited(events) + (if Elicitation(m) && m.params.Some? && m.params.value.Object? then [m.params.value] else [])
  {
    assert (events + [m])[..|events|] == events;
  }

  lemma AppendSent(sent: seq<Outgoing>, message: Outgoing)
    ensures Replies(sent + [message]) == Replies(sent) + (if message.Accept? || message.Refuse? then [message] else [])
    ensures RequestIds(sent + [message]) == RequestIds(sent) + (if message.Request? then [message.requestId] else [])
  {
    assert (sent + [message])[..|sent|] == sent;
  }
}
