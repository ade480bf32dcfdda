/**
 The analytics delivery pipeline (codex-rs/analytics/src/client.rs): producers
 record facts into a bounded channel and lose them when it has no free place,
 flushers wait for a place and enqueue barriers, and one worker folds the
 channel through the reducer and posts the resulting events.

 A place in the channel is a permit of its semaphore.  A flusher that finds none
 waits in line; a place that becomes free goes to the first in line and is kept
 for it, so facts can be lost while the channel itself is not full.

 A `Step` is one atomic action of one party, so a list of steps is an
 interleaving.  The machine itself is `Pipeline`; `History` only observes it.
 The reducer is a parameter: its two operations are arbitrary functions.
 */
module Pipeline {
  import opened Options
  import opened Batching

  const QUEUE_SIZE := 256

  datatype Message<F> = Fact(fact: F) | Flush(id: nat)

  datatype Reducer<!S, !F> = Reducer(
    initial: S,
    ingest: (S, F) -> (S, seq<TrackEvent>),
    flush: S -> (S, seq<TrackEvent>))
  {
    function Apply(s: S, m: Message<F>): (S, seq<TrackEvent>) {
      match m
      case Fact(f) => ingest(s, f)
      case Flush(_) => flush(s)
    }

    /** The reducer after a whole sequence of messages, from the left. */
    function Fold(ms: seq<Message<F>>): S {
      if ms == [] then initial else Apply(Fold(ms[..|ms| - 1]), ms[|ms| - 1]).0
    }

    /** The event vectors that a sequence of messages gives rise to, one per message. */
    function Emitted(ms: seq<Message<F>>): (vectors: seq<seq<TrackEvent>>)
      ensures |vectors| == |ms|
    {
      if ms == [] then []
      else
        var before := ms[..|ms| - 1];
        Emitted(before) + [Apply(Fold(before), ms[|ms| - 1]).1]
    }
  }

  datatype Worker<F> =
    | Idle
    | Reducing(message: Message<F>)
    | Sending(batches: seq<Batch>, barrier: Option<nat>)

  /** Flushers that have been given a place but not filled it, and those still in line. */
  datatype Senders = Senders(granted: nat, waiting: nat)

  datatype Pipeline<S, F> = Pipeline(
    channel: seq<Message<F>>,
    senders: Senders,
    reducer: S,
    worker: Worker<F>,
    flushes: nat,
    abandoned: set<nat>)

  datatype Step<F> =
    | Record(fact: F)
    | BeginFlush
    | CancelFlush(granted: bool)
    | EnqueueFlush
    | AbandonFlush(id: nat)
    | Receive
    | Reduce(auth: Auth)
    | Post
    | Finish

  /** The steps of `n` posted requests. */
  function Posts<F>(n: nat): seq<Step<F>> {
    if n == 0 then [] else Posts(n - 1) + [Post]
  }

  lemma NextOf<T>(xs: seq<T>, i: nat)
    requires i < |xs|
    ensures xs[i..] != [] && xs[i..][0] == xs[i] && xs[i..][1..] == xs[i + 1..]
    ensures xs[..i + 1] == xs[..i] + [xs[i]]
  {
  }

  function Start<S, F>(r: Reducer<S, F>): Pipeline<S, F> {
    Pipeline([], Senders(0, 0), r.initial, Idle, 0, {})
  }

  /** Some place in the channel is neither taken nor kept for a flusher. */
  predicate Room<S, F>(p: Pipeline<S, F>) {
    |p.channel| + p.senders.granted < QUEUE_SIZE
  }

  /** A place becomes free: it goes to the first in line, if anyone is. */
  function Release(senders: Senders): Senders {
    if senders.waiting > 0 then Senders(senders.granted + 1, senders.waiting - 1) else senders
  }

  /** What each party must see before it can take the step. */
  predicate Enabled<S, F>(p: Pipeline<S, F>, step: Step<F>) {
    match step
    case Record(_) => true
    case BeginFlush => true
    case CancelFlush(granted) => if granted then p.senders.granted > 0 else p.senders.waiting > 0
    case EnqueueFlush => p.senders.granted > 0
    case AbandonFlush(id) => id < p.flushes
    case Receive => p.worker.Idle? && p.channel != []
    case Reduce(_) => p.worker.Reducing?
    case Post => p.worker.Sending? && p.worker.batches != []
    case Finish => p.worker.Sending? && p.worker.batches == []
  }

  function Next<S, F>(r: Reducer<S, F>, p: Pipeline<S, F>, step: Step<F>): Pipeline<S, F>
    requires Enabled(p, step)
  {
    match step
    case Record(f) =>
      if Room(p) then p.(channel := p.channel + [Fact(f)]) else p
    case BeginFlush =>
      var Senders(granted, waiting) := p.senders;
      p.(senders := if Room(p) then Senders(granted + 1, waiting) else Senders(granted, waiting + 1))
    case CancelFlush(granted) =>
      if granted then p.(senders := Release(p.senders.(granted := p.senders.granted - 1)))
      else p.(senders := p.senders.(waiting := p.senders.waiting - 1))
    case EnqueueFlush =>
      p.(channel := p.channel + [Flush(p.flushes)], flushes := p.flushes + 1,
         senders := p.senders.(granted := p.senders.granted - 1))
    case AbandonFlush(id) =>
      p.(abandoned := p.abandoned + {id})
    case Receive =>
      p.(channel := p.channel[1..], senders := Release(p.senders), worker := Reducing(p.channel[0]))
    case Reduce(auth) =>
      var m := p.worker.message;
      var (s, events) := r.Apply(p.reducer, m);
      var barrier := if m.Flush? then Some(m.id) else None;
      p.(reducer := s, worker := Sending(Requests(auth, events), barrier))
    case Post =>
      p.(worker := p.worker.(batches := p.worker.batches[1..]))
    case Finish =>
      p.(worker := Idle)
  }

  /** What an outside observer of the steps has seen. */
  datatype History<F> = History(
    recorded: nat,
    dropped: nat,
    accepted: seq<Message<F>>,
    taken: seq<Message<F>>,
    handed: seq<seq<TrackEvent>>,
    auths: seq<Auth>,
    posted: seq<Batch>,
    finished: nat,
    acknowledged: seq<nat>)

  function Unobserved<F>(): History<F> {
    History(0, 0, [], [], [], [], [], 0, [])
  }

  function Observe<S, F>(r: Reducer<S, F>, h: History<F>, p: Pipeline<S, F>, step: Step<F>): History<F>
    requires Enabled(p, step)
  {
    match step
    case Record(f) =>
      if Room(p)
      then h.(recorded := h.recorded + 1, accepted := h.accepted + [Fact(f)])
      else h.(recorded := h.recorded + 1, dropped := h.dropped + 1)
    case EnqueueFlush => h.(accepted := h.accepted + [Flush(p.flushes)])
    case BeginFlush => h
    case CancelFlush(_) => h
    case AbandonFlush(_) => h
    case Receive => h.(taken := h.taken + [p.channel[0]])
    case Reduce(auth) =>
      h.(handed := h.handed + [r.Apply(p.reducer, p.worker.message).1], auths := h.auths + [auth])
    case Post => h.(posted := h.posted + [p.worker.batches[0]])
    case Finish =>
      var done := h.(finished := h.finished + 1);
      if p.worker.barrier.Some? && p.worker.barrier.value !in p.abandoned
      then done.(acknowledged := h.acknowledged + [p.worker.barrier.value])
      else done
  }

  datatype Snapshot<S, F> = Snapshot(now: Pipeline<S, F>, seen: History<F>)

  function Observed<S, F>(r: Reducer<S, F>, s: Snapshot<S, F>, step: Step<F>): Snapshot<S, F>
    requires Enabled(s.now, step)
  {
    Snapshot(Next(r, s.now, step), Observe(r, s.seen, s.now, step))
  }

  /** The snapshot after an interleaving, or None when a step in it could not be taken. */
  function Run<S, F>(r: Reducer<S, F>, steps: seq<Step<F>>): Option<Snapshot<S, F>> {
    if steps == [] then Some(Snapshot(Start(r), Unobserved()))
    else
      var before := Run(r, steps[..|steps| - 1]);
      var step := steps[|steps| - 1];
      if before.None? || !Enabled(before.value.now, step) then None
      else Some(Observed(r, before.value, step))
  }

  function Facts<F>(ms: seq<Message<F>>): nat {
    if ms == [] then 0 else Facts(ms[..|ms| - 1]) + (if ms[|ms| - 1].Fact? then 1 else 0)
  }

  /** Everything posted when each vector is delivered under its own authentication. */
  function Deliveries(auths: seq<Auth>, vectors: seq<seq<TrackEvent>>): seq<Batch>
    requires |auths| == |vectors|
  {
    if auths == [] then []
    else
      var n := |auths| - 1;
      Deliveries(auths[..n], vectors[..n]) + Requests(auths[n], vectors[n])
  }

  function InFlight<F>(w: Worker<F>): seq<Message<F>> {
    if w.Reducing? then [w.message] else []
  }

  function Unsent<F>(w: Worker<F>): seq<Batch> {
    if w.Sending? then w.batches else []
  }

  /** The messages the reducer has applied. */
  function Reduced<S, F>(s: Snapshot<S, F>): seq<Message<F>>
    requires |s.seen.handed| <= |s.seen.taken|
  {
    s.seen.taken[..|s.seen.handed|]
  }

  predicate FlushesNumbered<F>(ms: seq<Message<F>>, bound: nat) {
    && (forall i | 0 <= i < |ms| :: ms[i].Flush? ==> ms[i].id < bound)
    && (forall i, j | 0 <= i < j < |ms| :: ms[i].Flush? && ms[j].Flush? ==> ms[i].id != ms[j].id)
  }

  /** No place is given out twice, and nobody waits while there is one. */
  predicate PlacesAddUp<S, F>(p: Pipeline<S, F>) {
    && |p.channel| + p.senders.granted <= QUEUE_SIZE
    && (p.senders.waiting > 0 ==> !Room(p))
  }

  /** Where messages are: the channel is the unread end of what was accepted. */
  ghost predicate Conserved<S, F>(s: Snapshot<S, F>) {
    && PlacesAddUp(s.now)
    && MessagesAddUp(s.seen.taken, s.now.channel, s.seen.accepted, s.seen.recorded, s.seen.dropped, s.now.flushes)
  }

  ghost predicate MessagesAddUp<F>(
    taken: seq<Message<F>>, channel: seq<Message<F>>, accepted: seq<Message<F>>, recorded: nat, dropped: nat, flushes: nat)
  {
    && accepted == taken + channel
    && recorded == dropped + Facts(accepted)
    && FlushesNumbered(accepted, flushes)
  }

  /** How far the worker is: the reducer and the network hold exactly the fold so far. */
  ghost predicate Folded<S, F>(r: Reducer<S, F>, s: Snapshot<S, F>) {
    && |s.seen.handed| == |s.seen.auths| <= |s.seen.taken|
    && FoldedTo(r, s.now.worker, s.now.reducer, s.seen.taken, Reduced(s), s.seen.handed)
    && DeliveredTo(s.now.worker, s.seen.auths, s.seen.handed, s.seen.posted, s.seen.finished)
  }

  ghost predicate FoldedTo<S, F>(
    r: Reducer<S, F>, worker: Worker<F>, reducer: S,
    taken: seq<Message<F>>, reduced: seq<Message<F>>, handed: seq<seq<TrackEvent>>)
  {
    && taken == reduced + InFlight(worker)
    && reducer == r.Fold(reduced)
    && handed == r.Emitted(reduced)
    && (worker.Sending? ==>
          && reduced != []
          && var last := reduced[|reduced| - 1];
             worker.barrier == if last.Flush? then Some(last.id) else None)
  }

  ghost predicate DeliveredTo<F>(
    worker: Worker<F>, auths: seq<Auth>, handed: seq<seq<TrackEvent>>, posted: seq<Batch>, finished: nat)
    requires |auths| == |handed|
  {
    && posted + Unsent(worker) == Deliveries(auths, handed)
    && |handed| == finished + (if worker.Sending? then 1 else 0)
    && Deliveries(auths[..finished], handed[..finished]) <= posted
  }

  /** Every finished barrier was acknowledged unless its flusher had gone. */
  ghost predicate Acknowledged<S, F>(s: Snapshot<S, F>) {
    AcknowledgedTo(s.seen.taken, s.seen.finished, s.seen.acknowledged, s.now.abandoned)
  }

  ghost predicate AcknowledgedTo<F>(taken: seq<Message<F>>, finished: nat, acknowledged: seq<nat>, abandoned: set<nat>) {
    && finished <= |taken|
    && (forall id | id in acknowledged :: Flush(id) in taken[..finished])
    && (forall k | 0 <= k < finished && taken[k].Flush? :: taken[k].id in acknowledged || taken[k].id in abandoned)
  }

  ghost predicate Invariant<S, F>(r: Reducer<S, F>, s: Snapshot<S, F>) {
    Conserved(s) && Folded(r, s) && Acknowledged(s)
  }

  lemma FactsAppend<F>(ms: seq<Message<F>>, m: Message<F>)
    ensures Facts(ms + [m]) == Facts(ms) + (if m.Fact? then 1 else 0)
  {
    assert (ms + [m])[..|ms|] == ms;
  }

  lemma FoldAppend<S, F>(r: Reducer<S, F>, ms: seq<Message<F>>, m: Message<F>)
    ensures r.Fold(ms + [m]) == r.Apply(r.Fold(ms), m).0
    ensures r.Emitted(ms + [m]) == r.Emitted(ms) + [r.Apply(r.Fold(ms), m).1]
  {
    assert (ms + [m])[..|ms|] == ms;
  }

  lemma DeliveriesAppend(auths: seq<Auth>, vectors: seq<seq<TrackEvent>>, auth: Auth, vector: seq<TrackEvent>)
    requires |auths| == |vectors|
    ensures Deliveries(auths + [auth], vectors + [vector]) == Deliveries(auths, vectors) + Requests(auth, vector)
  {
    assert (auths + [auth])[..|auths|] == auths && (vectors + [vector])[..|auths|] == vectors;
  }

  lemma NumberedAppend<F>(ms: seq<Message<F>>, bound: nat, m: Message<F>)
    requires FlushesNumbered(ms, bound) && (m.Flush? ==> m.id == bound)
    ensures FlushesNumbered(ms + [m], if m.Flush? then bound + 1 else bound)
  {
    var longer := ms + [m];
    assert longer[|ms|] == m && forall i | 0 <= i < |ms| :: longer[i] == ms[i];
  }

  /** A message goes into the channel. */
  lemma AcceptConserves<F>(
    taken: seq<Message<F>>, channel: seq<Message<F>>, accepted: seq<Message<F>>, recorded: nat, dropped: nat, flushes: nat,
    m: Message<F>)
    requires MessagesAddUp(taken, channel, accepted, recorded, dropped, flushes) && (m.Flush? ==> m.id == flushes)
    ensures MessagesAddUp(taken, channel + [m], accepted + [m],
                          if m.Fact? then recorded + 1 else recorded, dropped, if m.Flush? then flushes + 1 else flushes)
  {
    FactsAppend(accepted, m);
    NumberedAppend(accepted, flushes, m);
    assert (taken + channel) + [m] == taken + (channel + [m]);
  }

  /** The worker takes a message out of the channel. */
  lemma TakeConserves<F>(
    taken: seq<Message<F>>, channel: seq<Message<F>>, accepted: seq<Message<F>>, recorded: nat, dropped: nat, flushes: nat)
    requires channel != [] && MessagesAddUp(taken, channel, accepted, recorded, dropped, flushes)
    ensures MessagesAddUp(taken + [channel[0]], channel[1..], accepted, recorded, dropped, flushes)
  {
    assert taken + channel == (taken + [channel[0]]) + channel[1..];
  }

  lemma StepPlaces<S, F>(r: Reducer<S, F>, p: Pipeline<S, F>, step: Step<F>)
    requires PlacesAddUp(p) && Enabled(p, step)
    ensures PlacesAddUp(Next(r, p, step))
  {
  }

  lemma StepConserves<S, F>(r: Reducer<S, F>, s: Snapshot<S, F>, step: Step<F>)
    requires Conserved(s) && Enabled(s.now, step)
    ensures Conserved(Observed(r, s, step))
  {
    var p, h := s.now, s.seen;
    StepPlaces(r, p, step);
    match step
    case Record(f) =>
      AcceptConserves(h.taken, p.channel, h.accepted, h.recorded, h.dropped, p.flushes, Fact(f));
    case EnqueueFlush =>
      AcceptConserves(h.taken, p.channel, h.accepted, h.recorded, h.dropped, p.flushes, Flush(p.flushes));
    case Receive =>
      TakeConserves(h.taken, p.channel, h.accepted, h.recorded, h.dropped, p.flushes);
    case _ =>
  }

  lemma ReduceFolds<S, F>(r: Reducer<S, F>, s: Snapshot<S, F>, auth: Auth)
    requires Folded(r, s) && s.now.worker.Reducing?
    ensures Folded(r, Observed(r, s, Reduce(auth)))
  {
    var t, m := Observed(r, s, Reduce(auth)), s.now.worker.message;
    var events := r.Apply(s.now.reducer, m).1;
    FoldAppend(r, Reduced(s), m);
    DeliveriesAppend(s.seen.auths, s.seen.handed, auth, events);
    assert Reduced(t) == Reduced(s) + [m] == t.seen.taken;
    assert s.seen.posted + [] == s.seen.posted;
  }

  lemma PostFolds<S, F>(r: Reducer<S, F>, s: Snapshot<S, F>)
    requires Folded(r, s) && Enabled(s.now, Post)
    ensures Folded(r, Observed(r, s, Post))
  {
    var h, w := s.seen, s.now.worker;
    PostDelivers<F>(w.batches, w.barrier, h.auths, h.handed, h.posted, h.finished);
  }

  lemma PostDelivers<F>(
    batches: seq<Batch>, barrier: Option<nat>, auths: seq<Auth>, handed: seq<seq<TrackEvent>>, posted: seq<Batch>, finished: nat)
    requires batches != [] && |auths| == |handed|
    requires DeliveredTo<F>(Sending(batches, barrier), auths, handed, posted, finished)
    ensures DeliveredTo<F>(Sending(batches[1..], barrier), auths, handed, posted + [batches[0]], finished)
  {
    assert posted + batches == (posted + [batches[0]]) + batches[1..];
  }

  lemma ReceiveFolds<S, F>(r: Reducer<S, F>, s: Snapshot<S, F>)
    requires Folded(r, s) && Enabled(s.now, Receive)
    ensures Folded(r, Observed(r, s, Receive))
  {
    assert Reduced(Observed(r, s, Receive)) == Reduced(s) == s.seen.taken;
  }

  lemma FinishFolds<S, F>(r: Reducer<S, F>, s: Snapshot<S, F>)
    requires Folded(r, s) && Enabled(s.now, Finish)
    ensures Folded(r, Observed(r, s, Finish))
  {
    var n := |s.seen.handed|;
    assert s.seen.auths[..n] == s.seen.auths && s.seen.handed[..n] == s.seen.handed;
  }

  lemma StepFolds<S, F>(r: Reducer<S, F>, s: Snapshot<S, F>, step: Step<F>)
    requires Folded(r, s) && Enabled(s.now, step)
    ensures Folded(r, Observed(r, s, step))
  {
    match step
    case Reduce(auth) => ReduceFolds(r, s, auth);
    case Receive => ReceiveFolds(r, s);
    case Post => PostFolds(r, s);
    case Finish => FinishFolds(r, s);
    case _ =>
  }

  /** The barrier of a turn is the message the turn is about. */
  lemma BarrierOfTurn<S, F>(r: Reducer<S, F>, s: Snapshot<S, F>)
    requires Folded(r, s) && s.now.worker.Sending?
    ensures s.seen.finished < |s.seen.taken|
    ensures var m := s.seen.taken[s.seen.finished]; s.now.worker.barrier == if m.Flush? then Some(m.id) else None
  {
    assert s.seen.taken == Reduced(s);
  }

  lemma StepAcknowledges<S, F>(r: Reducer<S, F>, s: Snapshot<S, F>, step: Step<F>)
    requires Folded(r, s) && Acknowledged(s) && Enabled(s.now, step)
    ensures Acknowledged(Observed(r, s, step))
  {
    var h := s.seen;
    match step
    case Finish =>
      BarrierOfTurn(r, s);
      FinishAcknowledges(h.taken, h.finished, h.acknowledged, s.now.abandoned);
    case Receive => TakeAcknowledges(h.taken, s.now.channel[0], h.finished, h.acknowledged, s.now.abandoned);
    case _ =>
  }

  lemma FinishAcknowledges<F>(taken: seq<Message<F>>, finished: nat, acknowledged: seq<nat>, abandoned: set<nat>)
    requires AcknowledgedTo(taken, finished, acknowledged, abandoned) && finished < |taken|
    ensures var m := taken[finished];
            var more := if m.Flush? && m.id !in abandoned then acknowledged + [m.id] else acknowledged;
            AcknowledgedTo(taken, finished + 1, more, abandoned)
  {
    assert taken[..finished + 1] == taken[..finished] + [taken[finished]];
  }

  lemma TakeAcknowledges<F>(taken: seq<Message<F>>, m: Message<F>, finished: nat, acknowledged: seq<nat>, abandoned: set<nat>)
    requires AcknowledgedTo(taken, finished, acknowledged, abandoned)
    ensures AcknowledgedTo(taken + [m], finished, acknowledged, abandoned)
  {
    assert (taken + [m])[..finished] == taken[..finished];
  }

  /** Safety of every interleaving. */
  lemma {:induction false} EveryRunIsSafe<S, F>(r: Reducer<S, F>, steps: seq<Step<F>>)
    requires Run(r, steps).Some?
    ensures Invariant(r, Run(r, steps).value)
  {
    if steps == [] {
    } else {
      var before := steps[..|steps| - 1];
      EveryRunIsSafe(r, before);
      var s, step := Run(r, before).value, steps[|steps| - 1];
      StepConserves(r, s, step);
      StepFolds(r, s, step);
      StepAcknowledges(r, s, step);
    }
  }

  lemma {:induction false} Grows<S, F>(r: Reducer<S, F>, steps: seq<Step<F>>, i: nat)
    requires Run(r, steps).Some? && i <= |steps|
    ensures Run(r, steps[..i]).Some?
    ensures var then_, now := Run(r, steps[..i]).value, Run(r, steps).value;
            && then_.seen.accepted <= now.seen.accepted
            && then_.seen.posted <= now.seen.posted
            && then_.seen.finished <= now.seen.finished
            && then_.now.flushes <= now.now.flushes
  {
    if i < |steps| {
      var n := |steps| - 1;
      Grows(r, steps[..n], i);
      assert steps[..n][..i] == steps[..i];
      StepGrows(r, Run(r, steps[..n]).value, steps[n]);
    } else {
      assert steps[..i] == steps;
    }
  }

  lemma StepGrows<S, F>(r: Reducer<S, F>, s: Snapshot<S, F>, step: Step<F>)
    requires Enabled(s.now, step)
    ensures var now := Observed(r, s, step);
            && s.seen.accepted <= now.seen.accepted
            && s.seen.posted <= now.seen.posted
            && s.seen.finished <= now.seen.finished
            && s.now.flushes <= now.now.flushes
  {
  }

  lemma {:induction false} EmittedPrefix<S, F>(r: Reducer<S, F>, ms: seq<Message<F>>, n: nat)
    requires n <= |ms|
    ensures r.Emitted(ms)[..n] == r.Emitted(ms[..n])
  {
    if n < |ms| {
      EmittedPrefix(r, ms[..|ms| - 1], n);
      assert ms[..|ms| - 1][..n] == ms[..n];
    } else {
      assert ms[..n] == ms;
    }
  }

  /** A barrier keeps its place: the n-th accepted message is the n-th one taken. */
  lemma BarrierPosition<S, F>(r: Reducer<S, F>, steps: seq<Step<F>>, i: nat)
    requires Run(r, steps).Some? && i < |steps| && steps[i].EnqueueFlush?
    ensures Run(r, steps[..i]).Some?
    ensures var at, now := Run(r, steps[..i]).value, Run(r, steps).value;
            && at.seen.accepted + [Flush(at.now.flushes)] <= now.seen.accepted
            && (forall k | 0 <= k < |now.seen.accepted| ::
                  now.seen.accepted[k] == Flush(at.now.flushes) ==> k == |at.seen.accepted|)
  {
    Grows(r, steps, i);
    Grows(r, steps, i + 1);
    assert steps[..i + 1][..i] == steps[..i];
    EveryRunIsSafe(r, steps);
    var at, now := Run(r, steps[..i]).value, Run(r, steps).value;
    var p := at.seen.accepted + [Flush(at.now.flushes)];
    assert Run(r, steps[..i + 1]).value.seen.accepted == p;
    assert now.seen.accepted[|at.seen.accepted|] == p[|at.seen.accepted|];
  }

  /**
   The flush barrier: once the flush enqueued at step i is acknowledged, every
   message accepted before it has been through the reducer in order, its events
   were handed over in order, and all their requests have been posted.
   */
  lemma FlushBarrier<S, F>(r: Reducer<S, F>, steps: seq<Step<F>>, i: nat)
    requires Run(r, steps).Some? && i < |steps| && steps[i].EnqueueFlush?
    requires Run(r, steps[..i]).Some?
    requires Run(r, steps[..i]).value.now.flushes in Run(r, steps).value.seen.acknowledged
    ensures var at, now := Run(r, steps[..i]).value, Run(r, steps).value;
            var upTo := at.seen.accepted + [Flush(at.now.flushes)];
            var n := |upTo|;
            && n <= now.seen.finished <= |now.seen.handed| == |now.seen.auths| <= |now.seen.taken|
            && upTo == now.seen.taken[..n]
            && r.Emitted(upTo) == now.seen.handed[..n]
            && Deliveries(now.seen.auths[..n], r.Emitted(upTo)) <= now.seen.posted
  {
    AnsweredPosition(r, steps, i);
    EveryRunIsSafe(r, steps);
    var at, now := Run(r, steps[..i]).value, Run(r, steps).value;
    var n := |at.seen.accepted| + 1;
    assert Reduced(now)[..n] == now.seen.taken[..n];
    FinishedAreDelivered(r, now, n);
  }

  lemma AnsweredPosition<S, F>(r: Reducer<S, F>, steps: seq<Step<F>>, i: nat)
    requires Run(r, steps).Some? && i < |steps| && steps[i].EnqueueFlush?
    requires Run(r, steps[..i]).Some?
    requires Run(r, steps[..i]).value.now.flushes in Run(r, steps).value.seen.acknowledged
    ensures var at, now := Run(r, steps[..i]).value, Run(r, steps).value;
            var n := |at.seen.accepted| + 1;
            && n <= now.seen.finished <= |now.seen.taken|
            && now.seen.taken[..n] == at.seen.accepted + [Flush(at.now.flushes)]
  {
    EveryRunIsSafe(r, steps);
    BarrierPosition(r, steps, i);
    var at, now := Run(r, steps[..i]).value, Run(r, steps).value;
    var k :| 0 <= k < now.seen.finished && now.seen.taken[k] == Flush(at.now.flushes);
    TakenAgrees(now.seen.accepted, now.seen.taken, now.now.channel, at.seen.accepted + [Flush(at.now.flushes)], k);
  }

  lemma TakenAgrees<F>(accepted: seq<Message<F>>, taken: seq<Message<F>>, channel: seq<Message<F>>, upTo: seq<Message<F>>, k: nat)
    requires accepted == taken + channel && k < |taken| && upTo <= accepted
    ensures accepted[k] == taken[k]
    ensures k + 1 == |upTo| ==> taken[..k + 1] == upTo
  {
    assert taken[..k + 1] == accepted[..k + 1];
  }

  lemma {:induction false} DeliveriesPrefix(auths: seq<Auth>, vectors: seq<seq<TrackEvent>>, n: nat)
    requires |auths| == |vectors| && n <= |auths|
    ensures Deliveries(auths[..n], vectors[..n]) <= Deliveries(auths, vectors)
  {
    if n < |auths| {
      var k := |auths| - 1;
      DeliveriesPrefix(auths[..k], vectors[..k], n);
      assert auths[..k][..n] == auths[..n] && vectors[..k][..n] == vectors[..n];
    } else {
      assert auths[..n] == auths && vectors[..n] == vectors;
    }
  }

  lemma FinishedAreDelivered<S, F>(r: Reducer<S, F>, s: Snapshot<S, F>, n: nat)
    requires Folded(r, s) && n <= s.seen.finished
    ensures r.Emitted(Reduced(s)[..n]) == s.seen.handed[..n]
    ensures Deliveries(s.seen.auths[..n], s.seen.handed[..n]) <= s.seen.posted
  {
    var m := s.seen.finished;
    DeliveriesPrefix(s.seen.auths[..m], s.seen.handed[..m], n);
    assert s.seen.auths[..m][..n] == s.seen.auths[..n] && s.seen.handed[..m][..n] == s.seen.handed[..n];
    EmittedPrefix(r, Reduced(s), n);
  }

  function Busy<F>(w: Worker<F>): nat {
    if w.Idle? then 0 else 1
  }

  /**
   Progress without fairness towards producers: a barrier is answered, or its
   flusher has left, after as many completed worker turns as there were messages
   ahead of it plus its own, however many facts were recorded meanwhile.
   */
  lemma FlushIsAnswered<S, F>(r: Reducer<S, F>, steps: seq<Step<F>>, i: nat)
    requires Run(r, steps).Some? && i < |steps| && steps[i].EnqueueFlush?
    requires Run(r, steps[..i]).Some?
    requires var at := Run(r, steps[..i]).value;
             Run(r, steps).value.seen.finished >= at.seen.finished + Busy(at.now.worker) + |at.now.channel| + 1
    ensures var at, now := Run(r, steps[..i]).value, Run(r, steps).value;
            at.now.flushes in now.seen.acknowledged || at.now.flushes in now.now.abandoned
  {
    EveryRunIsSafe(r, steps[..i]);
    EveryRunIsSafe(r, steps);
    BarrierPosition(r, steps, i);
    var at, now := Run(r, steps[..i]).value, Run(r, steps).value;
    var k := |at.seen.accepted|;
    assert now.seen.accepted[k] == Flush(at.now.flushes);
    assert now.seen.taken[k] == now.seen.accepted[k];
  }

  /** No flush is told twice. */
  lemma {:induction false} AcknowledgedOnce<S, F>(r: Reducer<S, F>, steps: seq<Step<F>>)
    requires Run(r, steps).Some?
    ensures var ids := Run(r, steps).value.seen.acknowledged; forall i, j | 0 <= i < j < |ids| :: ids[i] != ids[j]
  {
    if steps == [] {
    } else {
      var before, step := steps[..|steps| - 1], steps[|steps| - 1];
      AcknowledgedOnce(r, before);
      EveryRunIsSafe(r, before);
      if step.Finish? {
        NewlyAcknowledged(r, Run(r, before).value);
      }
    }
  }

  lemma NewlyAcknowledged<S, F>(r: Reducer<S, F>, s: Snapshot<S, F>)
    requires Invariant(r, s) && s.now.worker.Sending?
    ensures s.now.worker.barrier.Some? ==> s.now.worker.barrier.value !in s.seen.acknowledged
  {
    BarrierOfTurn(r, s);
    var taken, n := s.seen.taken, s.seen.finished;
    assert taken <= s.seen.accepted;
    forall k | 0 <= k < n && taken[n].Flush?
      ensures taken[k] != taken[n]
    {
      assert s.seen.accepted[k] == taken[k] && s.seen.accepted[n] == taken[n];
    }
  }

  /** Facts are dropped, waiting, in the worker's hands, or reduced: none is lost or doubled. */
  lemma FactsAccountedFor<S, F>(r: Reducer<S, F>, steps: seq<Step<F>>)
    requires Run(r, steps).Some?
    ensures var s := Run(r, steps).value;
            && PlacesAddUp(s.now)
            && |s.seen.handed| <= |s.seen.taken|
            && Reduced(s) <= s.seen.accepted
            && s.seen.recorded == s.seen.dropped + Facts(s.now.channel) + Facts(InFlight(s.now.worker)) + Facts(Reduced(s))
            && s.now.reducer == r.Fold(Reduced(s))
  {
    EveryRunIsSafe(r, steps);
    var s := Run(r, steps).value;
    FactsConcat(s.seen.taken, s.now.channel);
    FactsConcat(Reduced(s), InFlight(s.now.worker));
  }

  function Records<F>(f: F, n: nat): seq<Step<F>> {
    if n == 0 then [] else Records(f, n - 1) + [Record(f)]
  }

  lemma {:induction false} RecordsFill<S, F>(r: Reducer<S, F>, f: F, n: nat)
    requires n <= QUEUE_SIZE
    ensures Run(r, Records(f, n)).Some?
    ensures var p := Run(r, Records(f, n)).value.now; |p.channel| == n && p.senders == Senders(0, 0) && p.worker.Idle?
  {
    if n == 0 {
    } else {
      RecordsFill(r, f, n - 1);
      RunAppend(r, Records(f, n - 1), Record(f));
    }
  }

  /** A fact can be lost while the channel is not full: the free place is kept for a flusher. */
  lemma FactLostBesideFreePlace<S, F>(r: Reducer<S, F>, f: F)
    ensures var steps := Records(f, QUEUE_SIZE) + [BeginFlush] + [Receive];
            && Run(r, steps).Some? && Run(r, steps + [Record(f)]).Some?
            && |Run(r, steps).value.now.channel| < QUEUE_SIZE
            && Run(r, steps + [Record(f)]).value.seen.dropped == Run(r, steps).value.seen.dropped + 1
  {
    var full := Records(f, QUEUE_SIZE);
    RecordsFill(r, f, QUEUE_SIZE);
    RunAppend(r, full, BeginFlush);
    RunAppend(r, full + [BeginFlush], Receive);
    RunAppend(r, full + [BeginFlush] + [Receive], Record(f));
  }

  lemma {:induction false} FactsConcat<F>(a: seq<Message<F>>, b: seq<Message<F>>)
    ensures Facts(a + b) == Facts(a) + Facts(b)
  {
    if b == [] {
      assert a + b == a;
    } else {
      var k := |b| - 1;
      FactsConcat(a, b[..k]);
      assert a + b == (a + b[..k]) + [b[k]];
      FactsAppend(a + b[..k], b[k]);
    }
  }

  lemma RunAppend<S, F>(r: Reducer<S, F>, steps: seq<Step<F>>, step: Step<F>)
    requires Run(r, steps).Some? && Enabled(Run(r, steps).value.now, step)
    ensures Run(r, steps + [step]) == Some(Observed(r, Run(r, steps).value, step))
  {
    assert (steps + [step])[..|steps|] == steps;
  }

  /**
   The queue object and its worker as they are written: mutable fields, a loop
   over the batches.  `steps` logs the atomic steps taken, and `Valid` says the
   fields are what the machine reaches on that log, so every theorem about runs
   is a theorem about this object.
   */
  class AnalyticsEventsQueue<S, F> {
    const logic: Reducer<S, F>
    var channel: seq<Message<F>>
    var senders: Senders
    var reducer: S
    var flushes: nat
    var abandoned: set<nat>
    var posted: seq<Batch>
    var acknowledged: seq<nat>
    ghost var steps: seq<Step<F>>

    ghost predicate Matches(worker: Worker<F>)
      reads this
    {
      && Run(logic, steps).Some?
      && var s := Run(logic, steps).value;
         && s.now == Pipeline(channel, senders, reducer, worker, flushes, abandoned)
         && s.seen.posted == posted
         && s.seen.acknowledged == acknowledged
    }

    ghost predicate Valid()
      reads this
    {
      Matches(Idle)
    }

    constructor (logic: Reducer<S, F>)
      ensures Valid() && this.logic == logic && steps == []
    {
      this.logic := logic;
      channel, senders, reducer, flushes, abandoned := [], Senders(0, 0), logic.initial, 0, {};
      posted, acknowledged, steps := [], [], [];
    }

    method TrySend(fact: F) returns (kept: bool)
      requires Valid()
      modifies this`channel, this`steps
      ensures Valid() && steps == old(steps) + [Record(fact)]
      ensures kept <==> old(|channel|) + senders.granted < QUEUE_SIZE
      ensures channel == if kept then old(channel) + [Fact(fact)] else old(channel)
    {
      RunAppend(logic, steps, Record(fact));
      kept := |channel| + senders.granted < QUEUE_SIZE;
      if kept {
        channel := channel + [Fact(fact)];
      }
      steps := steps + [Record(fact)];
    }

    /** A flusher starts to send: it gets a place, or stands in line. */
    method BeginFlush() returns (granted: bool)
      requires Valid()
      modifies this`senders, this`steps
      ensures Valid() && steps == old(steps) + [Step.BeginFlush]
      ensures granted <==> |channel| + old(senders).granted < QUEUE_SIZE
      ensures senders == if granted then Senders(old(senders).granted + 1, old(senders).waiting)
                         else Senders(old(senders).granted, old(senders).waiting + 1)
    {
      RunAppend(logic, steps, Step.BeginFlush);
      granted := |channel| + senders.granted < QUEUE_SIZE;
      if granted {
        senders := senders.(granted := senders.granted + 1);
      } else {
        senders := senders.(waiting := senders.waiting + 1);
      }
      steps := steps + [Step.BeginFlush];
    }

    /** A flusher times out before its marker is in the channel; a place it had goes to the next in line. */
    method CancelFlush(granted: bool)
      requires Valid() && (if granted then senders.granted > 0 else senders.waiting > 0)
      modifies this`senders, this`steps
      ensures Valid() && steps == old(steps) + [Step.CancelFlush(granted)]
      ensures senders.granted + senders.waiting == old(senders).granted + old(senders).waiting - 1
      ensures senders.waiting > 0 ==> senders.granted == old(senders).granted
    {
      RunAppend(logic, steps, Step.CancelFlush(granted));
      if !granted || senders.waiting > 0 {
        senders := senders.(waiting := senders.waiting - 1);
      } else {
        senders := senders.(granted := senders.granted - 1);
      }
      steps := steps + [Step.CancelFlush(granted)];
    }

    /** A flusher fills the place it was given. */
    method EnqueueFlush() returns (id: nat)
      requires Valid() && senders.granted > 0
      modifies this`channel, this`senders, this`flushes, this`steps
      ensures Valid() && steps == old(steps) + [Step.EnqueueFlush]
      ensures channel == old(channel) + [Flush(id)] && id == old(flushes) && flushes == id + 1
      ensures senders == old(senders).(granted := old(senders).granted - 1)
    {
      RunAppend(logic, steps, Step.EnqueueFlush);
      id := flushes;
      channel, flushes := channel + [Flush(id)], flushes + 1;
      senders := senders.(granted := senders.granted - 1);
      steps := steps + [Step.EnqueueFlush];
    }

    method AbandonFlush(id: nat)
      requires Valid() && id < flushes
      modifies this
      ensures Valid() && steps == old(steps) + [Step.AbandonFlush(id)]
    {
      RunAppend(logic, steps, Step.AbandonFlush(id));
      abandoned := abandoned + {id};
      steps := steps + [Step.AbandonFlush(id)];
    }

    method PostOne(batches: seq<Batch>, ghost barrier: Option<nat>)
      requires batches != [] && Matches(Sending(batches, barrier))
      modifies this`posted, this`steps
      ensures Matches(Sending(batches[1..], barrier))
      ensures posted == old(posted) + [batches[0]] && steps == old(steps) + [Post]
    {
      RunAppend(logic, steps, Post);
      posted, steps := posted + [batches[0]], steps + [Post];
    }

    /** The posting loop of a delivery. */
    method PostAll(batches: seq<Batch>, ghost barrier: Option<nat>)
      requires Matches(Sending(batches, barrier))
      modifies this`posted, this`steps
      ensures Matches(Sending([], barrier))
      ensures posted == old(posted) + batches
      ensures steps == old(steps) + Posts(|batches|)
    {
      for i := 0 to |batches|
        invariant Matches(Sending(batches[i..], barrier))
        invariant posted == old(posted) + batches[..i]
        invariant steps == old(steps) + Posts(i)
      {
        NextOf(batches, i);
        PostOne(batches[i..], barrier);
        assert posted == old(posted) + (batches[..i] + [batches[i]]);
        assert steps == old(steps) + (Posts(i) + [Post]);
      }
    }

    method ReceiveMessage() returns (m: Message<F>)
      requires Valid() && channel != []
      modifies this`channel, this`senders, this`steps
      ensures Matches(Reducing(m))
      ensures old(channel) == [m] + channel && steps == old(steps) + [Receive]
      ensures senders == Release(old(senders))
    {
      RunAppend(logic, steps, Receive);
      m := channel[0];
      channel, steps := channel[1..], steps + [Receive];
      if senders.waiting > 0 {
        senders := Senders(senders.granted + 1, senders.waiting - 1);
      }
    }

    method ReduceMessage(m: Message<F>, auth: Auth) returns (batches: seq<Batch>, ghost barrier: Option<nat>)
      requires Matches(Reducing(m))
      modifies this`reducer, this`steps
      ensures Matches(Sending(batches, barrier))
      ensures barrier == if m.Flush? then Some(m.id) else None
      ensures reducer == logic.Apply(old(reducer), m).0
      ensures batches == Requests(auth, logic.Apply(old(reducer), m).1)
      ensures steps == old(steps) + [Reduce(auth)]
    {
      RunAppend(logic, steps, Reduce(auth));
      var (state, events) := logic.Apply(reducer, m);
      batches, barrier := Requests(auth, events), if m.Flush? then Some(m.id) else None;
      reducer, steps := state, steps + [Reduce(auth)];
    }

    method FinishTurn(m: Message<F>)
      requires Matches(Sending([], if m.Flush? then Some(m.id) else None))
      modifies this`acknowledged, this`steps
      ensures Valid()
      ensures acknowledged == old(acknowledged) + Answered(m) && steps == old(steps) + [Finish]
    {
      RunAppend(logic, steps, Finish);
      if m.Flush? && m.id !in abandoned {
        acknowledged := acknowledged + [m.id];
      }
      steps := steps + [Finish];
    }

    /** One iteration of the worker's receive loop. */
    method WorkerTurn(auth: Auth)
      requires Valid() && channel != []
      modifies this`channel, this`senders, this`reducer, this`posted, this`acknowledged, this`steps
      ensures Valid()
      ensures channel == old(channel)[1..] && senders == Release(old(senders))
      ensures reducer == logic.Apply(old(reducer), old(channel)[0]).0
      ensures posted == old(posted) + Requests(auth, logic.Apply(old(reducer), old(channel)[0]).1)
      ensures acknowledged == old(acknowledged) + Answered(old(channel)[0])
      ensures var n := |Requests(auth, logic.Apply(old(reducer), old(channel)[0]).1)|;
              steps == old(steps) + [Receive] + [Reduce(auth)] + Posts(n) + [Finish]
    {
      var m := ReceiveMessage();
      var batches, barrier := ReduceMessage(m, auth);
      PostAll(batches, barrier);
      FinishTurn(m);
    }

    /** The flush that is told when the turn for `m` ends. */
    function Answered(m: Message<F>): seq<nat>
      reads this
    {
      if m.Flush? && m.id !in abandoned then [m.id] else []
    }
  }
}
