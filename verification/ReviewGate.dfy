/**
 The reviewer regression gate and its compact baselines
 (scripts/mcp_conformance/review_regressions.py).
 */
module ReviewGate {
  import opened Options
  import opened Json
  import opened Orders
  import opened ReviewReport

  // ---------- What an error-free full report says ----------

  predicate Lists(list: seq<Value>, checkId: string, success: bool) {
    exists k :: 0 <= k < |list| && CheckEntry(list[k]) == Some((checkId, success))
  }

  /** Some check of the case record says that `id` succeeded or not. */
  predicate Says(record: Value, id: ReviewId, success: bool) {
    && CaseOf(record) == Some((id.mode, id.transport))
    && Lists(ItemsOf(record.Get(Key.Checks)), id.checkId, success)
  }

  predicate AnySays(list: seq<Value>, id: ReviewId, success: bool) {
    exists k :: 0 <= k < |list| && Says(list[k], id, success)
  }

  lemma FirstIsTheOnlyEntry(list: seq<Value>, name: string, success: bool)
    requires GoodChecks(list)
    ensures FirstEntry(list, name) == Some(success) <==> Lists(list, name, success)
  {
    if Lists(list, name, success) {
      var k :| 0 <= k < |list| && CheckEntry(list[k]) == Some((name, success));
      assert Names(list[k], name);
    }
  }

  lemma FirstIsTheOnlyRecord(list: seq<Value>, record: Value, c: Case)
    requires DistinctCases(list) && record in list && CaseOf(record) == Some(c)
    ensures FirstRecord(list, c) == Some(record)
  {
    var k :| 0 <= k < |list| && list[k] == record;
    assert CaseOf(list[k]) == Some(c);
  }

  /** In a report that reads without errors a check has the status some case record gives it. */
  lemma CasesMeaning(pins: Pins, list: seq<Value>, id: ReviewId, success: bool)
    requires GoodCases(pins, list)
    ensures StatusOf(ReadCases(pins, list).checks, id) == Some(success) <==> AnySays(list, id, success)
  {
    var c := (id.mode, id.transport);
    CasesStatus(pins, list, id);
    forall k | 0 <= k < |list| && CaseOf(list[k]) == Some(c)
      ensures FirstRecord(list, c) == Some(list[k])
      ensures FirstEntry(list[k].Get(Key.Checks).items, id.checkId) == Some(success) <==> Says(list[k], id, success)
    {
      FirstIsTheOnlyRecord(list, list[k], c);
      assert GoodCase(pins, list[k]);
      FirstIsTheOnlyEntry(list[k].Get(Key.Checks).items, id.checkId, success);
    }
  }

  // ---------- Compact baselines ----------

  function IdKey(id: ReviewId): seq<string> {
    [id.mode, id.transport, id.checkId]
  }

  function CaseKey(c: Case): seq<string> {
    [c.0, c.1]
  }

  lemma IdKeysDistinct(ids: set<ReviewId>)
    ensures DistinctKeys(ids, IdKey)
  {
    forall x, y | x in ids && y in ids && IdKey(x) == IdKey(y)
      ensures x == y
    {
      assert IdKey(x)[0] == IdKey(y)[0] && IdKey(x)[1] == IdKey(y)[1] && IdKey(x)[2] == IdKey(y)[2];
    }
  }

  lemma CaseKeysDistinct(cases: set<Case>)
    ensures DistinctKeys(cases, CaseKey)
  {
    forall x, y | x in cases && y in cases && CaseKey(x) == CaseKey(y)
      ensures x == y
    {
      assert CaseKey(x)[0] == CaseKey(y)[0] && CaseKey(x)[1] == CaseKey(y)[1];
    }
  }

  function SortedIds(ids: set<ReviewId>): seq<ReviewId> {
    IdKeysDistinct(ids);
    Sorted(ids, IdKey)
  }

  function SortedCases(cases: set<Case>): seq<Case> {
    CaseKeysDistinct(cases);
    Sorted(cases, CaseKey)
  }

  function RecordOf(id: ReviewId): Value {
    Object(map[Mode := Text(id.mode), Transport := Text(id.transport), CheckId := Text(id.checkId)])
  }

  function CaseRecord(c: Case): Value {
    Object(map[Mode := Text(c.0), Transport := Text(c.1)])
  }

  function Records(ids: seq<ReviewId>): seq<Value> {
    seq(|ids|, k requires 0 <= k < |ids| => RecordOf(ids[k]))
  }

  function CaseRecords(cases: seq<Case>): seq<Value> {
    seq(|cases|, k requires 0 <= k < |cases| => CaseRecord(cases[k]))
  }

  function FailingIds(checks: Checks): set<ReviewId> {
    set id | id in checks && !checks[id]
  }

  function CompactSummary(summary: Value): Value
    requires summary.Object?
  {
    Object(map[
      Passed := summary.Get(Passed), Failed := summary.Get(Failed), Total := summary.Get(Total),
      CasesPassed := summary.Get(CasesPassed), CasesTotal := summary.Get(CasesTotal)])
  }

  function CompactChecks(checks: Checks): Value {
    Object(map[
      Passing := List(Records(SortedIds(PassingIds(checks)))),
      Failing := List(Records(SortedIds(FailingIds(checks))))])
  }

  function Assemble(pins: Pins, summary: Value, checks: Value): Value {
    Object(map[
      BaselineKind := Text(pins.baselineKind),
      Key.SchemaVersion := Number(SCHEMA_VERSION),
      Reviewer := Text(pins.reviewer),
      RequiredModes := Texts(pins.modes),
      RequiredCases := List(CaseRecords(SortedCases(pins.cases))),
      Summary := summary,
      Key.Checks := checks])
  }

  /** The compact baseline, or None where the script raises. */
  function CompactBaseline(pins: Pins, report: Value): (baseline: Option<Value>)
    requires report.Object?
    ensures baseline.Some? <==> WellFormed(pins, report)
    ensures baseline.Some? ==> baseline.value.Object?
  {
    if !WellFormed(pins, report) then None
    else Some(Assemble(pins, CompactSummary(report.Get(Summary)), CompactChecks(ChecksIn(pins, report))))
  }

  predicate Assembled(pins: Pins, baseline: Value, summary: Value, checks: Value) {
    && baseline.Object?
    && baseline.Get(BaselineKind) == Text(pins.baselineKind)
    && baseline.Get(Key.SchemaVersion) == Number(SCHEMA_VERSION)
    && baseline.Get(Reviewer) == Text(pins.reviewer)
    && baseline.Get(RequiredModes) == Texts(pins.modes)
    && baseline.Get(RequiredCases) == List(CaseRecords(SortedCases(pins.cases)))
    && baseline.Get(Summary) == summary
    && baseline.Get(Key.Checks) == checks
  }

  lemma AssembleAssembles(pins: Pins, summary: Value, checks: Value)
    ensures Assembled(pins, Assemble(pins, summary, checks), summary, checks)
  {
  }

  // ---------- Reading back what was written ----------

  predicate AllValid(pins: Pins, checks: Checks) {
    forall id | id in checks :: ValidId(pins, id)
  }

  lemma {:induction false} ReadChecksValid(pins: Pins, c: Case, list: seq<Value>, before: Checks)
    requires AllValid(pins, before) && c in pins.cases
    ensures AllValid(pins, ReadChecks(c, list, before).checks)
  {
    if list == [] {
    } else {
      ReadChecksValid(pins, c, list[..|list| - 1], before);
    }
  }

  lemma {:induction false} ReadCasesValid(pins: Pins, list: seq<Value>)
    ensures AllValid(pins, ReadCases(pins, list).checks)
  {
    if list == [] {
    } else {
      var n := |list| - 1;
      ReadCasesValid(pins, list[..n]);
      var c := CaseOf(list[n]);
      if c.Some? && c.value in pins.cases && list[n].Get(Key.Checks).List? {
        ReadChecksValid(pins, c.value, list[n].Get(Key.Checks).items, ReadCases(pins, list[..n]).checks);
      }
    }
  }

  lemma {:induction false} ReadRecordsValid(pins: Pins, list: seq<Value>, success: bool, before: Checks)
    requires AllValid(pins, before)
    ensures AllValid(pins, ReadRecords(pins, list, success, before).checks)
  {
    if list == [] {
    } else {
      ReadRecordsValid(pins, list[..|list| - 1], success, before);
    }
  }

  lemma ChecksInValid(pins: Pins, report: Value)
    requires report.Object?
    ensures AllValid(pins, ChecksIn(pins, report))
  {
    if Compact(report) {
      var checks := report.Get(Key.Checks);
      if checks.Object? {
        var passing := ReadRecords(pins, ItemsOf(checks.Get(Passing)), true, map[]);
        ReadRecordsValid(pins, ItemsOf(checks.Get(Passing)), true, map[]);
        ReadRecordsValid(pins, ItemsOf(checks.Get(Failing)), false, passing.checks);
      }
    } else {
      ReadCasesValid(pins, ItemsOf(report.Get(Cases)));
    }
  }

  predicate Distinct<T(==)>(q: seq<T>) {
    forall i, j | 0 <= i < j < |q| :: q[i] != q[j]
  }

  function AllTo(ids: seq<ReviewId>, success: bool): Checks {
    map id | id in ids :: success
  }

  lemma ExtendAll(ids: seq<ReviewId>, success: bool, before: Checks)
    requires ids != [] && Distinct(ids)
    ensures var n := |ids| - 1;
            && ids[n] !in ids[..n]
            && before + AllTo(ids, success) == (before + AllTo(ids[..n], success))[ids[n] := success]
  {
    var n := |ids| - 1;
    assert ids == ids[..n] + [ids[n]];
  }

  lemma RecordParses(pins: Pins, id: ReviewId)
    requires ValidId(pins, id)
    ensures RecordId(pins, RecordOf(id)) == Some(id)
  {
  }

  lemma {:induction false} RecordsRoundTrip(pins: Pins, ids: seq<ReviewId>, success: bool, before: Checks)
    requires Distinct(ids)
    requires forall id | id in ids :: ValidId(pins, id) && id !in before
    ensures ReadRecords(pins, Records(ids), success, before) == BucketReading(before + AllTo(ids, success), true)
  {
    if ids == [] {
      assert before + AllTo(ids, success) == before;
    } else {
      var n := |ids| - 1;
      RecordsRoundTrip(pins, ids[..n], success, before);
      ExtendAll(ids, success, before);
      RecordParses(pins, ids[n]);
      assert Records(ids)[..n] == Records(ids[..n]);
    }
  }

  lemma SplitChecks(checks: Checks)
    ensures AllTo(SortedIds(PassingIds(checks)), true) + AllTo(SortedIds(FailingIds(checks)), false) == checks
    ensures Distinct(SortedIds(PassingIds(checks))) && Distinct(SortedIds(FailingIds(checks)))
    ensures forall id | id in SortedIds(PassingIds(checks)) :: id in checks && checks[id]
    ensures forall id | id in SortedIds(FailingIds(checks)) :: id in checks && !checks[id]
  {
    SortedIdsMembers(PassingIds(checks));
    SortedIdsMembers(FailingIds(checks));
    Rebuild(checks, SortedIds(PassingIds(checks)), SortedIds(FailingIds(checks)));
  }

  lemma SortedIdsMembers(ids: set<ReviewId>)
    ensures Distinct(SortedIds(ids)) && forall id :: id in SortedIds(ids) <==> id in ids
  {
    IdKeysDistinct(ids);
    SortedDistinct(ids, IdKey);
  }

  lemma Rebuild(checks: Checks, passing: seq<ReviewId>, failing: seq<ReviewId>)
    requires forall id :: id in passing <==> id in PassingIds(checks)
    requires forall id :: id in failing <==> id in FailingIds(checks)
    ensures AllTo(passing, true) + AllTo(failing, false) == checks
  {
  }

  lemma BucketsRoundTrip(pins: Pins, checks: Checks)
    requires AllValid(pins, checks)
    ensures ReadBuckets(pins, CompactChecks(checks)) == BucketReading(checks, true)
  {
    var passing, failing := SortedIds(PassingIds(checks)), SortedIds(FailingIds(checks));
    SplitChecks(checks);
    RecordsRoundTrip(pins, passing, true, map[]);
    assert map[] + AllTo(passing, true) == AllTo(passing, true);
    RecordsRoundTrip(pins, failing, false, AllTo(passing, true));
  }

  lemma {:induction false} CaseListRoundTrip(cases: seq<Case>)
    requires Distinct(cases)
    ensures ReadCaseList(CaseRecords(cases)).clean
    ensures ReadCaseList(CaseRecords(cases)).cases == set c | c in cases
  {
    if cases == [] {
    } else {
      var n := |cases| - 1;
      CaseListRoundTrip(cases[..n]);
      assert CaseRecords(cases)[..n] == CaseRecords(cases[..n]);
      CaseParses(cases[n]);
      assert cases == cases[..n] + [cases[n]];
    }
  }

  lemma CaseParses(c: Case)
    ensures CaseOf(CaseRecord(c)) == Some(c)
  {
  }

  lemma SortedCasesRoundTrip(cases: set<Case>)
    ensures ReadCaseList(CaseRecords(SortedCases(cases))) == CaseList(cases, true)
  {
    CaseKeysDistinct(cases);
    SortedDistinct(cases, CaseKey);
    CaseListRoundTrip(SortedCases(cases));
    assert (set c | c in SortedCases(cases)) == cases;
  }

  lemma SummarySurvives(summary: Value, checks: Checks, cases: set<Case>)
    requires SummaryOk(summary, checks, cases)
    ensures SummaryOk(CompactSummary(summary), checks, cases)
    ensures CompactSummary(CompactSummary(summary)) == CompactSummary(summary)
  {
  }

  lemma AssembledReads(pins: Pins, baseline: Value, summary: Value, checks: Checks)
    requires Assembled(pins, baseline, summary, CompactChecks(checks)) && AllValid(pins, checks)
    ensures ReadAny(pins, baseline) == Reading(checks, pins.cases, true)
  {
    BucketsRoundTrip(pins, checks);
    SortedCasesRoundTrip(pins.cases);
  }

  /** A valid report survives compaction whole: same checks, same totals, still no errors. */
  lemma CompactionRoundTrip(pins: Pins, report: Value)
    requires report.Object? && WellFormed(pins, report)
    ensures var baseline := CompactBaseline(pins, report).value;
            ChecksIn(pins, baseline) == ChecksIn(pins, report) && WellFormed(pins, baseline)
  {
    var summary, checks := report.Get(Summary), ChecksIn(pins, report);
    AssembleAssembles(pins, CompactSummary(summary), CompactChecks(checks));
    ChecksInValid(pins, report);
    SummarySurvives(summary, checks, pins.cases);
    AssembledIsWellFormed(pins, CompactBaseline(pins, report).value, CompactSummary(summary), checks);
  }

  lemma AssembledIsWellFormed(pins: Pins, baseline: Value, summary: Value, checks: Checks)
    requires Assembled(pins, baseline, summary, CompactChecks(checks)) && AllValid(pins, checks)
    requires SummaryOk(summary, checks, pins.cases)
    ensures ChecksIn(pins, baseline) == checks && WellFormed(pins, baseline)
  {
    AssembledReads(pins, baseline, summary, checks);
    ReadingExactly(pins, baseline);
  }

  lemma CompactionIdempotent(pins: Pins, report: Value)
    requires report.Object? && WellFormed(pins, report)
    ensures CompactBaseline(pins, CompactBaseline(pins, report).value) == CompactBaseline(pins, report)
  {
    CompactionRoundTrip(pins, report);
    SummarySurvives(report.Get(Summary), ChecksIn(pins, report), pins.cases);
    AssembleAssembles(pins, CompactSummary(report.Get(Summary)), CompactChecks(ChecksIn(pins, report)));
  }

  // ---------- What the gate decides ----------

  function NewFailures(candidate: Checks, baseline: Checks): set<ReviewId> {
    set id | id in candidate && !candidate[id] && !(id in baseline && !baseline[id])
  }

  function KnownFailures(candidate: Checks, baseline: Checks): set<ReviewId> {
    set id | id in candidate && !candidate[id] && id in baseline && !baseline[id]
  }

  function MissingChecks(candidate: Checks, baseline: Checks): set<ReviewId> {
    set id | id in baseline && id !in candidate
  }

  function FixedChecks(candidate: Checks, baseline: Checks): set<ReviewId> {
    set id | id in baseline && id in candidate && !baseline[id] && candidate[id]
  }

  predicate Passes(pins: Pins, candidate: Value, baseline: Value)
    requires candidate.Object? && baseline.Object?
  {
    && WellFormed(pins, candidate) && WellFormed(pins, baseline)
    && NewFailures(ChecksIn(pins, candidate), ChecksIn(pins, baseline)) == {}
    && MissingChecks(ChecksIn(pins, candidate), ChecksIn(pins, baseline)) == {}
  }

  datatype GateResult = GateResult(
    success: bool,
    errors: seq<Problem>,
    knownFailures: seq<ReviewId>,
    newFailures: seq<ReviewId>,
    missingChecks: seq<ReviewId>,
    fixedChecks: seq<ReviewId>)

  lemma KeepIds(all: set<ReviewId>, ids: set<ReviewId>)
    requires ids <= all
    ensures Keep(SortedIds(all), ids) == SortedIds(ids)
    ensures SortedIds(ids) == [] <==> ids == {}
    ensures forall id :: id in SortedIds(all) <==> id in all
  {
    IdKeysDistinct(all);
    IdKeysDistinct(ids);
    SortedDistinct(all, IdKey);
    SortedDistinct(ids, IdKey);
    KeepSorted(all, ids, IdKey);
  }

  method CompareFailures(candidate: Checks, baseline: Checks)
    returns (knownFailures: seq<ReviewId>, newFailures: seq<ReviewId>)
    ensures knownFailures == SortedIds(KnownFailures(candidate, baseline))
    ensures newFailures == SortedIds(NewFailures(candidate, baseline))
  {
    knownFailures, newFailures := [], [];
    var ids := SortedIds(candidate.Keys);
    SortedIdsMembers(candidate.Keys);
    for k := 0 to |ids|
      invariant knownFailures == Keep(ids[..k], KnownFailures(candidate, baseline))
      invariant newFailures == Keep(ids[..k], NewFailures(candidate, baseline))
    {
      var id := ids[k];
      assert id in ids;
      KeepNext(ids, KnownFailures(candidate, baseline), k);
      KeepNext(ids, NewFailures(candidate, baseline), k);
      if candidate[id] {
        continue;
      }
      if id in baseline && !baseline[id] {
        knownFailures := knownFailures + [id];
      } else {
        newFailures := newFailures + [id];
      }
    }
    assert ids[..|ids|] == ids;
    KeepIds(candidate.Keys, KnownFailures(candidate, baseline));
    KeepIds(candidate.Keys, NewFailures(candidate, baseline));
  }

  method CompareBaseline(candidate: Checks, baseline: Checks)
    returns (missingChecks: seq<ReviewId>, fixedChecks: seq<ReviewId>)
    ensures missingChecks == SortedIds(MissingChecks(candidate, baseline))
    ensures fixedChecks == SortedIds(FixedChecks(candidate, baseline))
  {
    missingChecks, fixedChecks := [], [];
    var ids := SortedIds(baseline.Keys);
    SortedIdsMembers(baseline.Keys);
    for k := 0 to |ids|
      invariant missingChecks == Keep(ids[..k], MissingChecks(candidate, baseline))
      invariant fixedChecks == Keep(ids[..k], FixedChecks(candidate, baseline))
    {
      var id := ids[k];
      assert id in ids;
      KeepNext(ids, MissingChecks(candidate, baseline), k);
      KeepNext(ids, FixedChecks(candidate, baseline), k);
      if id !in candidate {
        missingChecks := missingChecks + [id];
      } else if !baseline[id] && candidate[id] {
        fixedChecks := fixedChecks + [id];
      }
    }
    assert ids[..|ids|] == ids;
    KeepIds(baseline.Keys, MissingChecks(candidate, baseline));
    KeepIds(baseline.Keys, FixedChecks(candidate, baseline));
  }

  lemma RecordsAppend(ids: seq<ReviewId>, id: ReviewId)
    ensures Records(ids + [id]) == Records(ids) + [RecordOf(id)]
  {
  }

  /** The records of the checks with one status, in order. */
  method FillBucket(checks: Checks, success: bool) returns (records: seq<Value>)
    ensures records == Records(SortedIds(if success then PassingIds(checks) else FailingIds(checks)))
  {
    records := [];
    var ids := SortedIds(checks.Keys);
    ghost var wanted := if success then PassingIds(checks) else FailingIds(checks);
    SortedIdsMembers(checks.Keys);
    for k := 0 to |ids|
      invariant records == Records(Keep(ids[..k], wanted))
    {
      assert ids[k] in ids;
      KeepNext(ids, wanted, k);
      RecordsAppend(Keep(ids[..k], wanted), ids[k]);
      if checks[ids[k]] == success {
        records := records + [RecordOf(ids[k])];
      }
    }
    assert ids[..|ids|] == ids;
    KeepIds(checks.Keys, wanted);
  }

  /** Compaction as the script does it: read, give up on any error, fill the buckets. */
  method CompactReviewRegressionBaseline(pins: Pins, report: Value) returns (baseline: Option<Value>)
    requires report.Object?
    ensures baseline == CompactBaseline(pins, report)
  {
    var checks, errors := RequiredReviewChecks(pins, report);
    if errors != [] {
      return None;
    }
    var passing := FillBucket(checks, true);
    var failing := FillBucket(checks, false);
    var written := Object(map[Passing := List(passing), Failing := List(failing)]);
    return Some(Assemble(pins, CompactSummary(report.Get(Summary)), written));
  }

  method EvaluateReviewRegressionGate(pins: Pins, candidate: Value, baseline: Value) returns (gate: GateResult)
    requires candidate.Object? && baseline.Object?
    ensures gate.success <==> Passes(pins, candidate, baseline)
    ensures gate.success <==> gate.errors == [] && gate.newFailures == [] && gate.missingChecks == []
    ensures var now, before := ChecksIn(pins, candidate), ChecksIn(pins, baseline);
            && gate.knownFailures == SortedIds(KnownFailures(now, before))
            && gate.newFailures == SortedIds(NewFailures(now, before))
            && gate.missingChecks == SortedIds(MissingChecks(now, before))
            && gate.fixedChecks == SortedIds(FixedChecks(now, before))
  {
    var before, baselineErrors := RequiredReviewChecks(pins, baseline);
    var now, candidateErrors := RequiredReviewChecks(pins, candidate);
    var known, added := CompareFailures(now, before);
    var missing, fixed_ := CompareBaseline(now, before);
    KeepIds(NewFailures(now, before), NewFailures(now, before));
    KeepIds(MissingChecks(now, before), MissingChecks(now, before));
    var errors := baselineErrors + candidateErrors;
    gate := GateResult(errors == [] && added == [] && missing == [], errors, known, added, missing, fixed_);
  }

  // ---------- The gate is a preorder ----------

  lemma GateReflexive(pins: Pins, report: Value)
    requires report.Object?
    ensures Passes(pins, report, report) <==> WellFormed(pins, report)
  {
    var now := ChecksIn(pins, report);
    assert NewFailures(now, now) == {} && MissingChecks(now, now) == {};
  }

  predicate NoWorse(candidate: Checks, baseline: Checks) {
    && (forall id | id in baseline :: id in candidate)
    && (forall id | id in candidate && !candidate[id] :: id in baseline && !baseline[id])
  }

  lemma NoWorseIsTheGate(candidate: Checks, baseline: Checks)
    ensures NoWorse(candidate, baseline) <==> NewFailures(candidate, baseline) == {} && MissingChecks(candidate, baseline) == {}
  {
    forall id
      ensures id in NewFailures(candidate, baseline) <==> id in candidate && !candidate[id] && !(id in baseline && !baseline[id])
      ensures id in MissingChecks(candidate, baseline) <==> id in baseline && id !in candidate
    {
    }
    if NoWorse(candidate, baseline) {
      assert NewFailures(candidate, baseline) == {} && MissingChecks(candidate, baseline) == {};
    }
  }

  lemma GateTransitive(pins: Pins, a: Value, b: Value, c: Value)
    requires a.Object? && b.Object? && c.Object?
    requires Passes(pins, a, b) && Passes(pins, b, c)
    ensures Passes(pins, a, c)
  {
    NoWorseIsTheGate(ChecksIn(pins, a), ChecksIn(pins, b));
    NoWorseIsTheGate(ChecksIn(pins, b), ChecksIn(pins, c));
    NoWorseIsTheGate(ChecksIn(pins, a), ChecksIn(pins, c));
  }

  /** `next` was let through with `previous` as its baseline. */
  function Gated(pins: Pins): (Value, Value) -> bool {
    (previous: Value, next: Value) => previous.Object? && next.Object? && Passes(pins, next, previous)
  }

  lemma GatedTransitive(pins: Pins)
    ensures Transitive(Gated(pins))
  {
    forall a, b, c | Gated(pins)(a, b) && Gated(pins)(b, c)
      ensures Gated(pins)(a, c)
    {
      GateTransitive(pins, c, b, a);
    }
  }

  /** A check that passes once passes in every later release of the chain. */
  lemma ChainsNeverRegress(pins: Pins, releases: seq<Value>, i: nat, j: nat)
    requires Chain(Gated(pins), releases) && i < j < |releases|
    ensures releases[i].Object? && releases[j].Object? && Passes(pins, releases[j], releases[i])
    ensures PassingIds(ChecksIn(pins, releases[i])) <= PassingIds(ChecksIn(pins, releases[j]))
    ensures FailingIds(ChecksIn(pins, releases[j])) <= FailingIds(ChecksIn(pins, releases[i]))
  {
    GatedTransitive(pins);
    ChainRelates(Gated(pins), releases, i, j);
    NoWorseIsTheGate(ChecksIn(pins, releases[j]), ChecksIn(pins, releases[i]));
  }

  /** Gating against the compact baseline is gating against the report. */
  lemma CompactionKeepsVerdicts(pins: Pins, candidate: Value, report: Value)
    requires candidate.Object? && report.Object? && WellFormed(pins, report)
    ensures Passes(pins, candidate, CompactBaseline(pins, report).value) <==> Passes(pins, candidate, report)
  {
    CompactionRoundTrip(pins, report);
  }

  /** The next release is gated against the baseline made of the previous one. */
  function GatedByBaseline(pins: Pins): (Value, Value) -> bool {
    (previous: Value, next: Value) =>
      && previous.Object? && next.Object? && WellFormed(pins, previous)
      && Passes(pins, next, CompactBaseline(pins, previous).value)
  }

  /** Along a chain in which each release is gated against the baseline of the one before, nothing regresses. */
  lemma BaselineChainsNeverRegress(pins: Pins, releases: seq<Value>, i: nat, j: nat)
    requires Chain(GatedByBaseline(pins), releases) && i < j < |releases|
    ensures GatedByBaseline(pins)(releases[i], releases[j])
    ensures PassingIds(ChecksIn(pins, releases[i])) <= PassingIds(ChecksIn(pins, releases[j]))
    ensures FailingIds(ChecksIn(pins, releases[j])) <= FailingIds(ChecksIn(pins, releases[i]))
  {
    forall k, l | 0 <= k < l < |releases| && l == k + 1
      ensures Gated(pins)(releases[k], releases[l])
    {
      assert GatedByBaseline(pins)(releases[k], releases[l]);
      CompactionKeepsVerdicts(pins, releases[l], releases[k]);
    }
    ChainsNeverRegress(pins, releases, i, j);
    assert GatedByBaseline(pins)(releases[i], releases[i + 1]);
    CompactionKeepsVerdicts(pins, releases[j], releases[i]);
  }
}
