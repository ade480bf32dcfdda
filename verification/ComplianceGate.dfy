/**
 The compliance regression gate: what it decides between two reports
 (scripts/mcp_conformance/run_codex_compliance.py).
 */
module ComplianceGate {
  import opened Json
  import opened Orders
  import opened ComplianceReport

  function KeyOf(i: Identity): seq<string> {
    [i.mode, i.transport, i.source, i.scenario, i.checkId]
  }

  lemma KeysAreDistinct(ids: set<Identity>)
    ensures DistinctKeys(ids, KeyOf)
  {
    forall x, y | x in ids && y in ids && KeyOf(x) == KeyOf(y)
      ensures x == y
    {
      assert forall k | 0 <= k < 5 :: KeyOf(x)[k] == KeyOf(y)[k];
      assert KeyOf(x)[0] == x.mode && KeyOf(x)[1] == x.transport && KeyOf(x)[2] == x.source;
      assert KeyOf(y)[0] == y.mode && KeyOf(y)[1] == y.transport && KeyOf(y)[2] == y.source;
    }
  }

  /** `sorted` over the keys of a dictionary. */
  function SortedIds(ids: set<Identity>): seq<Identity> {
    KeysAreDistinct(ids);
    Sorted(ids, KeyOf)
  }

  // ---------- What the gate decides ----------

  function NewFailures(candidate: set<Observation>, baseline: set<Observation>): set<Identity> {
    set i | i in Ids(candidate) && (i, Fail) in candidate && (i, Fail) !in baseline
  }

  function KnownFailures(candidate: set<Observation>, baseline: set<Observation>): set<Identity> {
    set i | i in Ids(candidate) && (i, Fail) in candidate && (i, Fail) in baseline
  }

  /** Lost passes, and known failures that were not run again. */
  function MissingChecks(candidate: set<Observation>, baseline: set<Observation>): set<Identity> {
    set i | i in Ids(baseline) &&
            (((i, Pass) in baseline && (i, Pass) !in candidate) ||
             ((i, Fail) in baseline && (i, Fail) !in candidate && (i, Pass) !in candidate))
  }

  function FixedChecks(candidate: set<Observation>, baseline: set<Observation>): set<Identity> {
    set i | i in Ids(baseline) && (i, Fail) in baseline && (i, Fail) !in candidate && (i, Pass) in candidate
  }

  predicate ShippingClean(pins: Pins, observed: set<Observation>) {
    forall o | o in observed :: o.0.mode == pins.shipping ==> o.1 != Fail
  }

  predicate SamePolicy(candidate: Value, baseline: Value)
    requires candidate.Object? && baseline.Object?
  {
    candidate.Get(AutomaticAuthRequired).Bool? && candidate.Get(AutomaticAuthRequired) == baseline.Get(AutomaticAuthRequired)
  }

  predicate Passes(pins: Pins, candidate: Value, baseline: Value)
    requires candidate.Object? && baseline.Object?
  {
    var now, before := Observations(pins, candidate), Observations(pins, baseline);
    && WellFormed(pins, candidate) && WellFormed(pins, baseline)
    && SamePolicy(candidate, baseline)
    && ShippingClean(pins, now) && ShippingClean(pins, before)
    && NewFailures(now, before) == {} && MissingChecks(now, before) == {}
  }

  // ---------- The gate as it is written ----------

  datatype GateError =
    | InBaseline(problem: Problem) | InCandidate(problem: Problem)
    | PolicyNotRecorded | PolicyDiffers
    | ShippingFailed(checkId: string) | BaselineShippingFailed(checkId: string)

  datatype GateResult = GateResult(
    success: bool,
    errors: seq<GateError>,
    newFailures: seq<Identity>,
    missingChecks: seq<Identity>,
    knownFailures: seq<Identity>,
    fixedChecks: seq<Identity>)

  function Lookup(statuses: Statuses, i: Identity): set<CheckStatus> {
    if i in statuses then statuses[i] else {}
  }

  lemma LookupGroup(observed: set<Observation>, i: Identity)
    ensures Group(observed).Keys == Ids(observed)
    ensures forall s :: s in Lookup(Group(observed), i) <==> (i, s) in observed
  {
    forall s
      ensures s in Lookup(Group(observed), i) <==> (i, s) in observed
    {
      if (i, s) in observed {
        assert (i, s).0 in Ids(observed);
      }
    }
  }

  lemma SortedMembers(ids: set<Identity>)
    ensures forall i, j | 0 <= i < j < |SortedIds(ids)| :: SortedIds(ids)[i] != SortedIds(ids)[j]
    ensures forall x :: x in SortedIds(ids) <==> x in ids
    ensures SortedIds(ids) == [] <==> ids == {}
  {
    KeysAreDistinct(ids);
    SortedDistinct(ids, KeyOf);
  }

  lemma KeepIds(all: set<Identity>, ids: set<Identity>)
    requires ids <= all
    ensures Keep(SortedIds(all), ids) == SortedIds(ids)
  {
    KeysAreDistinct(all);
    KeepSorted(all, ids, KeyOf);
  }

  method CompareFailures(pins: Pins, candidate: Statuses, baseline: Statuses,
                         ghost now: set<Observation>, ghost before: set<Observation>)
    returns (errors: seq<GateError>, newFailures: seq<Identity>, knownFailures: seq<Identity>)
    requires candidate == Group(now) && baseline == Group(before)
    ensures errors == [] <==> ShippingClean(pins, now)
    ensures newFailures == SortedIds(NewFailures(now, before))
    ensures knownFailures == SortedIds(KnownFailures(now, before))
  {
    errors, newFailures, knownFailures := [], [], [];
    var ids := SortedIds(candidate.Keys);
    for k := 0 to |ids|
      invariant newFailures == Keep(ids[..k], NewFailures(now, before))
      invariant knownFailures == Keep(ids[..k], KnownFailures(now, before))
      invariant errors == [] <==> forall j | 0 <= j < k :: ids[j].mode == pins.shipping ==> (ids[j], Fail) !in now
    {
      var i := ids[k];
      assert ids[..k + 1][..k] == ids[..k];
      LookupGroup(now, i);
      LookupGroup(before, i);
      if Fail !in Lookup(candidate, i) {
        continue;
      }
      if i.mode == pins.shipping {
        errors := errors + [ShippingFailed(i.checkId)];
      }
      if Fail in Lookup(baseline, i) {
        knownFailures := knownFailures + [i];
      } else {
        newFailures := newFailures + [i];
      }
    }
    assert ids[..|ids|] == ids;
    FinishComparison(pins, now, ids);
    KeepIds(Ids(now), NewFailures(now, before));
    KeepIds(Ids(now), KnownFailures(now, before));
  }

  lemma FinishComparison(pins: Pins, observed: set<Observation>, ids: seq<Identity>)
    requires ids == SortedIds(Group(observed).Keys)
    ensures Group(observed).Keys == Ids(observed)
    ensures ShippingClean(pins, observed) <==>
            forall j | 0 <= j < |ids| :: ids[j].mode == pins.shipping ==> (ids[j], Fail) !in observed
  {
    assert Group(observed).Keys == Ids(observed);
    SortedMembers(Ids(observed));
    forall o | o in observed
      ensures o.0 in ids
    {
      assert o.0 in Ids(observed);
    }
  }

  /** What became of a check of the baseline. */
  lemma LeftBehind(now: set<Observation>, before: set<Observation>, i: Identity)
    ensures i in MissingChecks(now, before) <==>
            || ((i, Pass) in before && (i, Pass) !in now)
            || ((i, Fail) in before && (i, Fail) !in now && (i, Pass) !in now)
    ensures i in FixedChecks(now, before) <==> (i, Fail) in before && (i, Fail) !in now && (i, Pass) in now
  {
    forall s | (i, s) in before
      ensures i in Ids(before)
    {
      assert (i, s).0 in Ids(before);
    }
  }

  method CompareBaseline(pins: Pins, candidate: Statuses, baseline: Statuses,
                         ghost now: set<Observation>, ghost before: set<Observation>)
    returns (errors: seq<GateError>, missingChecks: seq<Identity>, fixedChecks: seq<Identity>)
    requires candidate == Group(now) && baseline == Group(before)
    ensures errors == [] <==> ShippingClean(pins, before)
    ensures missingChecks == SortedIds(MissingChecks(now, before))
    ensures fixedChecks == SortedIds(FixedChecks(now, before))
  {
    errors, missingChecks, fixedChecks := [], [], [];
    var ids := SortedIds(baseline.Keys);
    for k := 0 to |ids|
      invariant missingChecks == Keep(ids[..k], MissingChecks(now, before))
      invariant fixedChecks == Keep(ids[..k], FixedChecks(now, before))
      invariant errors == [] <==> forall j | 0 <= j < k :: ids[j].mode == pins.shipping ==> (ids[j], Fail) !in before
    {
      var i := ids[k];
      KeepNext(ids, MissingChecks(now, before), k);
      KeepNext(ids, FixedChecks(now, before), k);
      LookupGroup(now, i);
      LookupGroup(before, i);
      LeftBehind(now, before, i);
      var was, is_ := Lookup(baseline, i), Lookup(candidate, i);
      if i.mode == pins.shipping && Fail in was {
        errors := errors + [BaselineShippingFailed(i.checkId)];
      }
      if Pass in was && Pass !in is_ {
        missingChecks := missingChecks + [i];
      } else if Fail in was && Fail !in is_ && Pass !in is_ {
        missingChecks := missingChecks + [i];
      } else if Fail in was && Fail !in is_ {
        fixedChecks := fixedChecks + [i];
      }
    }
    assert ids[..|ids|] == ids;
    FinishComparison(pins, before, ids);
    KeepIds(Ids(before), MissingChecks(now, before));
    KeepIds(Ids(before), FixedChecks(now, before));
  }

  function PolicyErrors(candidate: Value, baseline: Value): (errors: seq<GateError>)
    requires candidate.Object? && baseline.Object?
    ensures errors == [] <==> SamePolicy(candidate, baseline)
  {
    var was, is_ := baseline.Get(AutomaticAuthRequired), candidate.Get(AutomaticAuthRequired);
    if !was.Bool? || !is_.Bool? then [PolicyNotRecorded] else if was != is_ then [PolicyDiffers] else []
  }

  method EvaluateRegressionGate(pins: Pins, candidate: Value, baseline: Value) returns (gate: GateResult)
    requires candidate.Object? && baseline.Object?
    ensures gate.success <==> Passes(pins, candidate, baseline)
    ensures gate.success <==> gate.errors == [] && gate.newFailures == [] && gate.missingChecks == []
    ensures var now, before := Observations(pins, candidate), Observations(pins, baseline);
            && gate.newFailures == SortedIds(NewFailures(now, before))
            && gate.missingChecks == SortedIds(MissingChecks(now, before))
            && gate.knownFailures == SortedIds(KnownFailures(now, before))
            && gate.fixedChecks == SortedIds(FixedChecks(now, before))
  {
    ghost var now, before := Observations(pins, candidate), Observations(pins, baseline);
    var was, baselineProblems := RequiredRegressionChecks(pins, baseline);
    var is_, candidateProblems := RequiredRegressionChecks(pins, candidate);
    var failed, newFailures, knownFailures := CompareFailures(pins, is_, was, now, before);
    var shipped, missingChecks, fixedChecks := CompareBaseline(pins, is_, was, now, before);
    var errors := seq(|baselineProblems|, k requires 0 <= k < |baselineProblems| => InBaseline(baselineProblems[k]))
                + seq(|candidateProblems|, k requires 0 <= k < |candidateProblems| => InCandidate(candidateProblems[k]))
                + PolicyErrors(candidate, baseline) + failed + shipped;
    assert errors == [] <==>
           baselineProblems == [] && candidateProblems == [] && PolicyErrors(candidate, baseline) == [] && failed == [] && shipped == [];
    SortedMembers(NewFailures(now, before));
    SortedMembers(MissingChecks(now, before));
    gate := GateResult(errors == [] && newFailures == [] && missingChecks == [],
                       errors, newFailures, missingChecks, knownFailures, fixedChecks);
  }

  // ---------- The gate is a preorder ----------

  /** A report passes against itself exactly when it could be a baseline at all. */
  lemma GateReflexive(pins: Pins, report: Value)
    requires report.Object?
    ensures Passes(pins, report, report) <==>
            && WellFormed(pins, report)
            && report.Get(AutomaticAuthRequired).Bool?
            && ShippingClean(pins, Observations(pins, report))
  {
    var now := Observations(pins, report);
    assert NewFailures(now, now) == {} && MissingChecks(now, now) == {};
  }

  predicate NoWorse(candidate: set<Observation>, baseline: set<Observation>) {
    && (forall o | o in candidate && o.1 == Fail :: o in baseline)
    && (forall o | o in baseline && o.1 == Pass :: o in candidate)
    && (forall o | o in baseline && o.1 == Fail :: o in candidate || (o.0, Pass) in candidate)
  }

  lemma NoWorseIsTheGate(candidate: set<Observation>, baseline: set<Observation>)
    ensures NoWorse(candidate, baseline) <==> NewFailures(candidate, baseline) == {} && MissingChecks(candidate, baseline) == {}
  {
    var added, missing := NewFailures(candidate, baseline), MissingChecks(candidate, baseline);
    if NoWorse(candidate, baseline) {
      assert added == {} && missing == {};
    }
    if added == {} && missing == {} {
      forall o | o in candidate && o.1 == Fail
        ensures o in baseline
      {
        assert o.0 in Ids(candidate) && o == (o.0, Fail) && o.0 !in added;
      }
      forall o | o in baseline && o.1 != Skip
        ensures (o.1 == Pass ==> o in candidate) && (o.1 == Fail ==> o in candidate || (o.0, Pass) in candidate)
      {
        assert o.0 in Ids(baseline) && o == (o.0, o.1) && o.0 !in missing;
      }
    }
  }

  lemma GateTransitive(pins: Pins, a: Value, b: Value, c: Value)
    requires a.Object? && b.Object? && c.Object?
    requires Passes(pins, a, b) && Passes(pins, b, c)
    ensures Passes(pins, a, c)
  {
    NoWorseIsTheGate(Observations(pins, a), Observations(pins, b));
    NoWorseIsTheGate(Observations(pins, b), Observations(pins, c));
    NoWorseIsTheGate(Observations(pins, a), Observations(pins, c));
  }

  function IdsWith(observed: set<Observation>, status: CheckStatus): set<Identity> {
    set o | o in observed && o.1 == status :: o.0
  }

  lemma NoWorseKeeps(candidate: set<Observation>, baseline: set<Observation>)
    requires NoWorse(candidate, baseline)
    ensures IdsWith(baseline, Pass) <= IdsWith(candidate, Pass)
    ensures IdsWith(candidate, Fail) <= IdsWith(baseline, Fail)
  {
  }

  /** `next` was let through with `previous` as its baseline. */
  function Gated(pins: Pins): (Value, Value) -> bool {
    (previous: Value, next: Value) => previous.Object? && next.Object? && Passes(pins, next, previous)
  }

  lemma GatedTransitive(pins: Pins)
    ensures Transitive(Gated(pins))
  {
    forall a, b, c | Gated(pins)(a, b) && Gated(pins)(b, c)
      ensures Gated(pins)(a, c)
    {
      GateTransitive(pins, c, b, a);
    }
  }

  /** Along any chain of gated releases passing checks are never lost and failures only shrink. */
  lemma ChainsNeverRegress(pins: Pins, releases: seq<Value>, i: nat, j: nat)
    requires Chain(Gated(pins), releases) && i < j < |releases|
    ensures Gated(pins)(releases[i], releases[j])
    ensures IdsWith(Observations(pins, releases[i]), Pass) <= IdsWith(Observations(pins, releases[j]), Pass)
    ensures IdsWith(Observations(pins, releases[j]), Fail) <= IdsWith(Observations(pins, releases[i]), Fail)
  {
    GatedTransitive(pins);
    ChainRelates(Gated(pins), releases, i, j);
    var now, before := Observations(pins, releases[j]), Observations(pins, releases[i]);
    NoWorseIsTheGate(now, before);
    NoWorseKeeps(now, before);
  }
}
