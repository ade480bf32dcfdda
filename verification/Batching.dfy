/**
 Splitting one vector of analytics events into HTTP requests
 (codex-rs/analytics/src/client.rs, codex-rs/analytics/src/events.rs).
 Only the parts of an event that the two routing predicates read are kept;
 everything else is `payload`.
 */
module Batching {
  import opened Options

  datatype TrackEvent =
    | AcceptedLineFingerprints(payload: string)
    | PluginUsed(pluginId: Option<string>, payload: string)
    | SkillInvocation(pluginId: Option<string>, payload: string)
    | McpToolCall(pluginId: Option<string>, payload: string)
    | ArtifactOperation(ownerId: string, payload: string)
    | OtherEvent(payload: string)
  {
    predicate Isolated() {
      AcceptedLineFingerprints?
    }

    predicate SendableWithApiKey() {
      match this
      case PluginUsed(id, _) => id.Some?
      case SkillInvocation(id, _) => id.Some?
      case McpToolCall(id, _) => id.Some?
      case ArtifactOperation(id, _) => id != ""
      case _ => false
    }
  }

  type Batch = seq<TrackEvent>

  /** The answer of the authentication manager when a delivery starts. */
  datatype Auth = NoAuth | ApiKey | CodexBackend | UnsupportedAuth

  function Flatten(batches: seq<Batch>): seq<TrackEvent> {
    if batches == [] then [] else batches[0] + Flatten(batches[1..])
  }

  predicate Regular(batch: Batch) {
    forall e | e in batch :: !e.Isolated()
  }

  /** A batch the backend accepts: non-empty, and an isolated event travels alone. */
  predicate Admissible(batch: Batch) {
    batch != [] && (Regular(batch) || |batch| == 1)
  }

  predicate Admissibles(batches: seq<Batch>) {
    forall i | 0 <= i < |batches| :: Admissible(batches[i])
  }

  predicate Partitions(batches: seq<Batch>, events: seq<TrackEvent>) {
    Flatten(batches) == events && Admissibles(batches)
  }

  /** No two neighbouring batches could have been sent as one. */
  predicate Tight(batches: seq<Batch>) {
    forall i | 0 <= i < |batches| - 1 :: !(Regular(batches[i]) && Regular(batches[i + 1]))
  }

  /** Fewest requests, and the only partition with that few. */
  ghost predicate Optimal(batches: seq<Batch>, events: seq<TrackEvent>) {
    && Partitions(batches, events)
    && forall other | Partitions(other, events) ::
         |batches| <= |other| && (|batches| == |other| ==> batches == other)
  }

  lemma {:induction false} FlattenAppend(batches: seq<Batch>, last: Batch)
    ensures Flatten(batches + [last]) == Flatten(batches) + last
  {
    if batches == [] {
      assert [last][1..] == [];
    } else {
      FlattenAppend(batches[1..], last);
      assert (batches + [last])[1..] == batches[1..] + [last];
    }
  }

  predicate EndsIsolated(batches: seq<Batch>) {
    batches == [] || !Regular(batches[|batches| - 1])
  }

  /** Closing a batch keeps the partition tight when one of the two neighbours is isolated. */
  lemma AppendKeepsTight(batches: seq<Batch>, last: Batch)
    requires Admissibles(batches) && Tight(batches) && Admissible(last)
    requires EndsIsolated(batches) || !Regular(last)
    ensures Admissibles(batches + [last]) && Tight(batches + [last])
    ensures Flatten(batches + [last]) == Flatten(batches) + last
    ensures EndsIsolated(batches + [last]) <==> !Regular(last)
  {
    FlattenAppend(batches, last);
  }

  /**
   A tight partition beats every admissible partition of the same events:
   the first batches are compared, and when the other one is shorter the rest of
   the tight batch is carried over to the comparison of the remainders.
   */
  lemma {:induction false} TightIsOptimal(tight: seq<Batch>, other: seq<Batch>)
    requires Admissibles(tight) && Tight(tight) && Admissibles(other)
    requires Flatten(tight) == Flatten(other)
    ensures |tight| <= |other|
    ensures |tight| == |other| ==> tight == other
    decreases |other|
  {
    if tight == [] || other == [] {
      EmptyFlatten(tight);
      EmptyFlatten(other);
      return;
    }
    var a, b := tight[0], other[0];
    var events := Flatten(tight);
    assert a == events[..|a|] && b == events[..|b|];
    assert Admissible(a) && Admissible(b);
    PrefixWithinFirst(tight, b);
    RemainderAfterFirst(tight);
    RemainderAfterFirst(other);
    if |a| == |b| {
      TightIsOptimal(tight[1..], other[1..]);
      assert tight == [a] + tight[1..] && other == [b] + other[1..];
    } else {
      var rest := [a[|b|..]] + tight[1..];
      assert rest[1..] == tight[1..];
      assert Flatten(rest) == Flatten(other[1..]);
      assert Regular(a) && Regular(rest[0]);
      assert Admissibles(rest) && Tight(rest);
      TightIsOptimal(rest, other[1..]);
    }
  }

  lemma EmptyFlatten(batches: seq<Batch>)
    requires Admissibles(batches)
    ensures Flatten(batches) == [] <==> batches == []
  {
    if batches != [] {
      assert Admissible(batches[0]);
    }
  }

  lemma RemainderAfterFirst(batches: seq<Batch>)
    requires batches != []
    ensures Flatten(batches[1..]) == Flatten(batches)[|batches[0]|..]
  {
  }

  /** No admissible batch at the front of the events reaches past the first tight batch. */
  lemma PrefixWithinFirst(tight: seq<Batch>, prefix: Batch)
    requires tight != [] && Admissibles(tight) && Tight(tight)
    requires Admissible(prefix) && prefix <= Flatten(tight)
    ensures |prefix| <= |tight[0]|
  {
    var a, events := tight[0], Flatten(tight);
    assert Admissible(a);
    if |a| < |events| {
      RemainderAfterFirst(tight);
      EmptyFlatten(tight[1..]);
      var next := tight[1];
      assert Admissible(next) && next == tight[1..][0] && events[|a|] == next[0];
      assert next[0] in events[..|a| + 1] && a[0] in events[..|a| + 1];
      assert forall e | e in a :: e in events[..|a| + 1];
      assert !Regular(events[..|a| + 1]);
      assert Regular(prefix) ==> forall i | 0 <= i < |prefix| :: prefix[i] in prefix && !events[i].Isolated();
    }
  }

  /** The batches that one vector of events is sent in. */
  function BatchesOf(events: seq<TrackEvent>): seq<Batch> {
    if events == [] then []
    else
      var rest := BatchesOf(events[1..]);
      if !events[0].Isolated() && rest != [] && Regular(rest[0])
      then [[events[0]] + rest[0]] + rest[1..]
      else [[events[0]]] + rest
  }

  lemma {:induction false} BatchesAreTight(events: seq<TrackEvent>)
    ensures Partitions(BatchesOf(events), events) && Tight(BatchesOf(events))
  {
    if events == [] {
    } else {
      var rest, batches := BatchesOf(events[1..]), BatchesOf(events);
      BatchesAreTight(events[1..]);
      if !events[0].Isolated() && rest != [] && Regular(rest[0]) {
        assert batches[1..] == rest[1..];
        assert Regular(batches[0]);
      } else {
        assert batches[1..] == rest;
        assert Regular(batches[0]) <==> !events[0].Isolated() by { assert events[0] in batches[0]; }
      }
    }
  }

  /** Order kept, no empty request, isolated events alone, and no partition does with fewer requests. */
  lemma BatchesAreOptimal(events: seq<TrackEvent>)
    ensures Optimal(BatchesOf(events), events)
  {
    BatchesAreTight(events);
    forall other | Partitions(other, events)
      ensures |BatchesOf(events)| <= |other| && (|BatchesOf(events)| == |other| ==> BatchesOf(events) == other)
    {
      TightIsOptimal(BatchesOf(events), other);
    }
  }

  lemma TightIsTheOnlyOne(batches: seq<Batch>, events: seq<TrackEvent>)
    requires Partitions(batches, events) && Tight(batches)
    ensures batches == BatchesOf(events) && Optimal(batches, events)
  {
    BatchesAreOptimal(events);
    TightIsOptimal(batches, BatchesOf(events));
  }

  method TrackEventRequestBatches(events: seq<TrackEvent>) returns (batches: seq<Batch>)
    ensures Optimal(batches, events)
    ensures batches == BatchesOf(events)
  {
    batches := [];
    var current: Batch := [];
    for i := 0 to |events|
      invariant Flatten(batches) + current == events[..i]
      invariant Admissibles(batches) && Tight(batches) && EndsIsolated(batches)
      invariant Regular(current)
    {
      var event := events[i];
      assert events[..i + 1] == events[..i] + [event];
      if event.Isolated() {
        if current != [] {
          AppendKeepsTight(batches, current);
          batches := batches + [current];
          current := [];
        }
        assert !Regular([event]) by { assert event in [event]; }
        AppendKeepsTight(batches, [event]);
        batches := batches + [[event]];
      } else {
        current := current + [event];
      }
    }
    assert events[..|events|] == events;
    if current != [] {
      AppendKeepsTight(batches, current);
      batches := batches + [current];
    }
    TightIsTheOnlyOne(batches, events);
  }

  function Filter(events: seq<TrackEvent>): (kept: seq<TrackEvent>)
    ensures forall e | e in kept :: e.SendableWithApiKey()
  {
    if events == [] then []
    else
      var rest := Filter(events[1..]);
      if events[0].SendableWithApiKey() then [events[0]] + rest else rest
  }

  /** Retaining keeps exactly the sendable events, each as often as it occurred. */
  lemma {:induction false} FilterCounts(events: seq<TrackEvent>, e: TrackEvent)
    ensures multiset(Filter(events))[e] == if e.SendableWithApiKey() then multiset(events)[e] else 0
  {
    if events == [] {
    } else {
      FilterCounts(events[1..], e);
      assert events == [events[0]] + events[1..];
    }
  }

  /** Retaining keeps the order of what it keeps. */
  lemma {:induction false} FilterConcat(left: seq<TrackEvent>, right: seq<TrackEvent>)
    ensures Filter(left + right) == Filter(left) + Filter(right)
  {
    if left == [] {
      assert left + right == right;
    } else {
      FilterConcat(left[1..], right);
      assert (left + right)[1..] == left[1..] + right;
      assert (left + right)[0] == left[0];
    }
  }

  /** The events that survive the authentication check. */
  function Retained(auth: Auth, events: seq<TrackEvent>): seq<TrackEvent> {
    match auth
    case ApiKey => Filter(events)
    case CodexBackend => events
    case _ => []
  }

  /** The requests posted for one vector of events. */
  function Requests(auth: Auth, events: seq<TrackEvent>): seq<Batch> {
    BatchesOf(Retained(auth, events))
  }

  /** Under an API key nothing isolated survives, so one request carries it all. */
  lemma ApiKeySendsOneRequest(events: seq<TrackEvent>)
    ensures Requests(ApiKey, events) == if Filter(events) == [] then [] else [Filter(events)]
  {
    var kept := Filter(events);
    if kept != [] {
      assert Regular(kept);
      assert [kept][1..] == [];
      assert Flatten([kept]) == kept;
      assert Admissible([kept][0]);
      BatchesAreTight(kept);
      TightIsOptimal(BatchesOf(kept), [kept]);
      EmptyFlatten(BatchesOf(kept));
    }
  }

  method SendTrackEvents(events: seq<TrackEvent>, auth: Auth) returns (posted: seq<Batch>)
    ensures posted == Requests(auth, events)
  {
    posted := [];
    if events == [] || auth.NoAuth? {
      return;
    }
    var retained := events;
    if auth.ApiKey? {
      retained := Filter(events);
    } else if !auth.CodexBackend? {
      return;
    }
    if retained == [] {
      return;
    }
    posted := PostBatches(retained);
  }

  method PostBatches(events: seq<TrackEvent>) returns (posted: seq<Batch>)
    ensures posted == BatchesOf(events)
  {
    posted := [];
    var batches := TrackEventRequestBatches(events);
    BatchesAreTight(events);
    for i := 0 to |batches|
      invariant posted == batches[..i]
    {
      assert Admissible(batches[i]);
      if batches[i] != [] {
        posted := posted + [batches[i]];
      }
    }
  }
}
