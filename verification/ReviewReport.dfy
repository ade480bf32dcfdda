/**
 Reading a reviewer regression report, full or compact
 (scripts/mcp_conformance/review_regressions.py).  Unlike the compliance
 reports, a check may appear only once; the first appearance counts and every
 later one is an error.  What a report must be and which status it gives a check
 is said declaratively; the left-to-right readings and the loops of the script
 are proved to compute that.
 */
module ReviewReport {
  import opened Options
  import opened Json

  const SCHEMA_VERSION := 1

  datatype Pins = Pins(modes: seq<string>, reviewer: string, baselineKind: string, cases: set<Case>)

  type Case = (string, string)

  datatype ReviewId = ReviewId(mode: string, transport: string, checkId: string)

  type Checks = map<ReviewId, bool>

  predicate ReviewCheckId(id: string) {
    "review/" <= id
  }

  // ---------- One record ----------

  function CheckEntry(check: Value): Option<(string, bool)> {
    if check.Object? && check.Get(Name).Text? && ReviewCheckId(check.Get(Name).text) && check.Get(Success).Bool?
    then Some((check.Get(Name).text, check.Get(Success).flag))
    else None
  }

  function CaseOf(record: Value): Option<Case> {
    if record.Object? && record.Get(Mode).Text? && record.Get(Transport).Text?
    then Some((record.Get(Mode).text, record.Get(Transport).text))
    else None
  }

  function RecordId(pins: Pins, record: Value): (id: Option<ReviewId>)
    ensures id.Some? ==> ValidId(pins, id.value)
  {
    var c := CaseOf(record);
    if c.None? || c.value !in pins.cases then None
    else if !record.Get(CheckId).Text? || !ReviewCheckId(record.Get(CheckId).text) then None
    else Some(ReviewId(c.value.0, c.value.1, record.Get(CheckId).text))
  }

  predicate ValidId(pins: Pins, id: ReviewId) {
    (id.mode, id.transport) in pins.cases && ReviewCheckId(id.checkId)
  }

  // ---------- Full reports ----------

  datatype CaseReading = CaseReading(checks: Checks, success: bool, clean: bool)

  /** The checks of one case, added to the checks read before it. */
  function ReadChecks(c: Case, list: seq<Value>, before: Checks): CaseReading {
    if list == [] then CaseReading(before, true, true)
    else
      var n := |list| - 1;
      var r := ReadChecks(c, list[..n], before);
      var entry := CheckEntry(list[n]);
      if entry.None? then r.(clean := false)
      else
        var id := ReviewId(c.0, c.1, entry.value.0);
        if id in r.checks then r.(clean := false)
        else CaseReading(r.checks[id := entry.value.1], r.success && entry.value.1, r.clean)
  }

  datatype Reading = Reading(checks: Checks, cases: set<Case>, clean: bool)

  function ReadCase(pins: Pins, r: Reading, record: Value): Reading {
    var c := CaseOf(record);
    if c.None? || c.value !in pins.cases || c.value in r.cases then r.(clean := false)
    else
      var list := record.Get(Key.Checks);
      var seen := r.cases + {c.value};
      if !list.List? || list.items == [] then Reading(r.checks, seen, false)
      else
        var read := ReadChecks(c.value, list.items, r.checks);
        Reading(read.checks, seen, r.clean && read.clean && record.Get(Success) == Bool(read.success))
  }

  function ReadCases(pins: Pins, list: seq<Value>): Reading {
    if list == [] then Reading(map[], {}, true)
    else ReadCase(pins, ReadCases(pins, list[..|list| - 1]), list[|list| - 1])
  }

  // ---------- Compact baselines ----------

  datatype BucketReading = BucketReading(checks: Checks, clean: bool)

  function ReadRecords(pins: Pins, list: seq<Value>, success: bool, before: Checks): BucketReading {
    if list == [] then BucketReading(before, true)
    else
      var n := |list| - 1;
      var r := ReadRecords(pins, list[..n], success, before);
      var id := RecordId(pins, list[n]);
      if id.None? || id.value in r.checks then r.(clean := false)
      else r.(checks := r.checks[id.value := success])
  }

  datatype CaseList = CaseList(cases: set<Case>, clean: bool)

  function ReadCaseList(list: seq<Value>): CaseList {
    if list == [] then CaseList({}, true)
    else
      var n := |list| - 1;
      var r := ReadCaseList(list[..n]);
      var c := CaseOf(list[n]);
      if c.None? || c.value in r.cases then r.(clean := false) else r.(cases := r.cases + {c.value})
  }

  function ReadBuckets(pins: Pins, checks: Value): BucketReading {
    if !checks.Object? then BucketReading(map[], false)
    else
      var passing := ReadRecords(pins, ItemsOf(checks.Get(Passing)), true, map[]);
      var failing := ReadRecords(pins, ItemsOf(checks.Get(Failing)), false, passing.checks);
      BucketReading(failing.checks,
                    checks.Get(Passing).List? && checks.Get(Failing).List? && passing.clean && failing.clean)
  }

  // ---------- Totals ----------

  function PassingIds(checks: Checks): set<ReviewId> {
    set id | id in checks && checks[id]
  }

  function IdsOfCase(checks: Checks, c: Case): set<ReviewId> {
    set id | id in checks && (id.mode, id.transport) == c
  }

  predicate CasePassed(checks: Checks, c: Case) {
    IdsOfCase(checks, c) != {} && forall id | id in IdsOfCase(checks, c) :: checks[id]
  }

  function PassedCases(checks: Checks, cases: set<Case>): set<Case> {
    set c | c in cases && CasePassed(checks, c)
  }

  predicate SummaryOk(summary: Value, checks: Checks, cases: set<Case>) {
    && summary.Object?
    && summary.Get(Passed) == Number(|PassingIds(checks)|)
    && summary.Get(Failed) == Number(|checks| - |PassingIds(checks)|)
    && summary.Get(Total) == Number(|checks|)
    && summary.Get(CasesPassed) == Number(|PassedCases(checks, cases)|)
    && summary.Get(CasesTotal) == Number(|cases|)
  }

  // ---------- What a list of checks must be ----------

  predicate Names(check: Value, name: string) {
    CheckEntry(check).Some? && CheckEntry(check).value.0 == name
  }

  predicate DistinctNames(list: seq<Value>) {
    forall j, k | 0 <= j < k < |list| && CheckEntry(list[j]).Some? :: !Names(list[k], CheckEntry(list[j]).value.0)
  }

  predicate GoodChecks(list: seq<Value>) {
    (forall k | 0 <= k < |list| :: CheckEntry(list[k]).Some?) && DistinctNames(list)
  }

  /** No check of the case has been read before. */
  predicate NewTo(c: Case, list: seq<Value>, before: Checks) {
    forall k | 0 <= k < |list| && CheckEntry(list[k]).Some? :: ReviewId(c.0, c.1, CheckEntry(list[k]).value.0) !in before
  }

  predicate AllSucceed(list: seq<Value>) {
    forall k | 0 <= k < |list| :: CheckEntry(list[k]).Some? ==> CheckEntry(list[k]).value.1
  }

  /** The status that the first well-formed entry of this name gives. */
  function FirstEntry(list: seq<Value>, name: string): (status: Option<bool>)
    ensures status.Some? ==>
              exists k :: 0 <= k < |list| && CheckEntry(list[k]) == Some((name, status.value)) && Unnamed(list[..k], name)
    ensures status.None? ==> Unnamed(list, name)
  {
    if list == [] then None
    else
      var n := |list| - 1;
      var before := FirstEntry(list[..n], name);
      if before.Some? then
        var k :| 0 <= k < n && CheckEntry(list[..n][k]) == Some((name, before.value)) && Unnamed(list[..n][..k], name);
        assert list[..n][..k] == list[..k] && list[..n][k] == list[k];
        before
      else
        assert forall k | 0 <= k < n :: list[..n][k] == list[k];
        if Names(list[n], name) then Some(CheckEntry(list[n]).value.1) else None
  }

  predicate Unnamed(list: seq<Value>, name: string) {
    forall k | 0 <= k < |list| :: !Names(list[k], name)
  }

  function StatusOf(checks: Checks, id: ReviewId): Option<bool> {
    if id in checks then Some(checks[id]) else None
  }

  // ---------- What the cases of a full report must be ----------

  /** The first record for this case; later ones are reported and ignored. */
  function FirstRecord(list: seq<Value>, c: Case): (record: Option<Value>)
    ensures record.Some? ==> exists k :: 0 <= k < |list| && list[k] == record.value && CaseOf(list[k]) == Some(c) && NoCase(list[..k], c)
    ensures record.None? ==> NoCase(list, c)
  {
    if list == [] then None
    else
      var n := |list| - 1;
      var before := FirstRecord(list[..n], c);
      if before.Some? then
        var k :| 0 <= k < n && list[..n][k] == before.value && CaseOf(list[..n][k]) == Some(c) && NoCase(list[..n][..k], c);
        assert list[..n][..k] == list[..k] && list[..n][k] == list[k];
        before
      else
        assert forall k | 0 <= k < n :: list[..n][k] == list[k];
        if CaseOf(list[n]) == Some(c) then Some(list[n]) else None
  }

  predicate NoCase(list: seq<Value>, c: Case) {
    forall k | 0 <= k < |list| :: CaseOf(list[k]) != Some(c)
  }

  predicate DistinctCases(list: seq<Value>) {
    forall j, k | 0 <= j < k < |list| :: CaseOf(list[j]).Some? ==> CaseOf(list[k]) != CaseOf(list[j])
  }

  /** A required case with checks, each well formed and named once, whose success is that of its checks. */
  predicate GoodCase(pins: Pins, record: Value) {
    && CaseOf(record).Some? && CaseOf(record).value in pins.cases
    && record.Get(Key.Checks).List? && record.Get(Key.Checks).items != []
    && GoodChecks(record.Get(Key.Checks).items)
    && record.Get(Success) == Bool(AllSucceed(record.Get(Key.Checks).items))
  }

  predicate GoodCases(pins: Pins, list: seq<Value>) {
    (forall k | 0 <= k < |list| :: GoodCase(pins, list[k])) && DistinctCases(list)
  }

  function CaseStatus(pins: Pins, list: seq<Value>, id: ReviewId): Option<bool> {
    var record := FirstRecord(list, (id.mode, id.transport));
    if (id.mode, id.transport) !in pins.cases || record.None? then None
    else FirstEntry(ItemsOf(record.value.Get(Key.Checks)), id.checkId)
  }

  // ---------- What a compact baseline must be ----------

  predicate Recorded(pins: Pins, list: seq<Value>, id: ReviewId) {
    exists k :: 0 <= k < |list| && RecordId(pins, list[k]) == Some(id)
  }

  predicate GoodRecords(pins: Pins, list: seq<Value>) {
    && (forall k | 0 <= k < |list| :: RecordId(pins, list[k]).Some?)
    && (forall j, k | 0 <= j < k < |list| :: RecordId(pins, list[j]) != RecordId(pins, list[k]))
  }

  predicate GoodCaseList(list: seq<Value>) {
    (forall k | 0 <= k < |list| :: CaseOf(list[k]).Some?) && DistinctCases(list)
  }

  function CasesOf(list: seq<Value>): set<Case> {
    set k | 0 <= k < |list| && CaseOf(list[k]).Some? :: CaseOf(list[k]).value
  }

  /** Both buckets hold valid records, and no check is recorded twice. */
  predicate GoodBuckets(pins: Pins, checks: Value) {
    && checks.Object? && checks.Get(Passing).List? && checks.Get(Failing).List?
    && GoodRecords(pins, checks.Get(Passing).items) && GoodRecords(pins, checks.Get(Failing).items)
    && (forall k | 0 <= k < |checks.Get(Failing).items| ::
          !Recorded(pins, checks.Get(Passing).items, RecordId(pins, checks.Get(Failing).items[k]).value))
  }

  function BucketStatus(pins: Pins, checks: Value, id: ReviewId): Option<bool> {
    if !checks.Object? then None
    else if Recorded(pins, ItemsOf(checks.Get(Passing)), id) then Some(true)
    else if Recorded(pins, ItemsOf(checks.Get(Failing)), id) then Some(false)
    else None
  }

  // ---------- Any report ----------

  predicate Compact(report: Value)
    requires report.Object?
  {
    report.Get(BaselineKind) != Null
  }

  function ReadAny(pins: Pins, report: Value): Reading
    requires report.Object?
  {
    if Compact(report) then
      var cases := ReadCaseList(ItemsOf(report.Get(RequiredCases)));
      var buckets := ReadBuckets(pins, report.Get(Key.Checks));
      Reading(buckets.checks, cases.cases,
              && report.Get(BaselineKind) == Text(pins.baselineKind)
              && report.Get(RequiredCases).List? && cases.clean && buckets.clean)
    else
      var r := ReadCases(pins, ItemsOf(report.Get(Cases)));
      r.(clean := r.clean && report.Get(Cases).List?)
  }

  function ChecksIn(pins: Pins, report: Value): Checks
    requires report.Object?
  {
    ReadAny(pins, report).checks
  }

  /** The status that a report, however malformed, gives a check. */
  function StatusIn(pins: Pins, report: Value, id: ReviewId): Option<bool>
    requires report.Object?
  {
    if Compact(report) then BucketStatus(pins, report.Get(Key.Checks), id)
    else CaseStatus(pins, ItemsOf(report.Get(Cases)), id)
  }

  predicate GoodShape(pins: Pins, report: Value)
    requires report.Object?
  {
    if Compact(report) then
      && report.Get(BaselineKind) == Text(pins.baselineKind)
      && report.Get(RequiredCases).List? && GoodCaseList(report.Get(RequiredCases).items)
      && GoodBuckets(pins, report.Get(Key.Checks))
    else
      report.Get(Cases).List? && GoodCases(pins, report.Get(Cases).items)
  }

  function CasesIn(report: Value): set<Case>
    requires report.Object?
  {
    CasesOf(ItemsOf(if Compact(report) then report.Get(RequiredCases) else report.Get(Cases)))
  }

  predicate HeaderOk(pins: Pins, report: Value)
    requires report.Object?
  {
    && report.Get(Key.SchemaVersion) == Number(SCHEMA_VERSION)
    && report.Get(Reviewer) == Text(pins.reviewer)
    && (if Compact(report) then report.Get(RequiredModes) else report.Get(Modes)) == Texts(pins.modes)
  }

  predicate TotalsOk(report: Value, checks: Checks, cases: set<Case>)
    requires report.Object?
  {
    && SummaryOk(report.Get(Summary), checks, cases)
    && (Compact(report) || report.Get(Success) == Bool(cases != {} && |checks| == |PassingIds(checks)|))
  }

  /** A report against which nothing is reported while it is read. */
  predicate WellFormed(pins: Pins, report: Value)
    requires report.Object?
  {
    && HeaderOk(pins, report)
    && GoodShape(pins, report)
    && CasesIn(report) == pins.cases
    && TotalsOk(report, ChecksIn(pins, report), pins.cases)
  }

  // ---------- The readings compute that ----------

  lemma {:induction false} ChecksStatus(c: Case, list: seq<Value>, before: Checks, id: ReviewId)
    ensures StatusOf(ReadChecks(c, list, before).checks, id) ==
            if id in before then Some(before[id])
            else if (id.mode, id.transport) == c then FirstEntry(list, id.checkId)
            else None
  {
    if list == [] {
    } else {
      ChecksStatus(c, list[..|list| - 1], before, id);
    }
  }

  lemma GoodChecksGrow(list: seq<Value>)
    requires list != []
    ensures var n := |list| - 1;
            GoodChecks(list) <==>
            GoodChecks(list[..n]) && CheckEntry(list[n]).Some? && FirstEntry(list[..n], CheckEntry(list[n]).value.0).None?
  {
    var n := |list| - 1;
    var front := list[..n];
    assert forall k | 0 <= k < n :: front[k] == list[k];
    if CheckEntry(list[n]).Some? {
      var name := CheckEntry(list[n]).value.0;
      assert FirstEntry(front, name).None? <==> Unnamed(front, name);
      if GoodChecks(front) && Unnamed(front, name) {
        forall j, k | 0 <= j < k < |list| && CheckEntry(list[j]).Some?
          ensures !Names(list[k], CheckEntry(list[j]).value.0)
        {
          assert !Names(front[j], name);
          assert k < n ==> !Names(front[k], CheckEntry(front[j]).value.0);
        }
      }
    }
  }

  lemma SuccessGrows(list: seq<Value>)
    requires list != []
    ensures var n := |list| - 1;
            AllSucceed(list) <==> AllSucceed(list[..n]) && (CheckEntry(list[n]).Some? ==> CheckEntry(list[n]).value.1)
  {
    assert forall k | 0 <= k < |list| - 1 :: list[..|list| - 1][k] == list[k];
  }

  lemma NewGrows(c: Case, list: seq<Value>, before: Checks)
    requires list != []
    ensures var n := |list| - 1;
            NewTo(c, list, before) <==>
            NewTo(c, list[..n], before) &&
            (CheckEntry(list[n]).Some? ==> ReviewId(c.0, c.1, CheckEntry(list[n]).value.0) !in before)
  {
    assert forall k | 0 <= k < |list| - 1 :: list[..|list| - 1][k] == list[k];
  }

  /** Reading the checks of a case is silent exactly when they are good and new, and then tells whether all succeed. */
  lemma {:induction false} ChecksCleanExactly(c: Case, list: seq<Value>, before: Checks)
    ensures ReadChecks(c, list, before).clean <==> GoodChecks(list) && NewTo(c, list, before)
    ensures ReadChecks(c, list, before).clean ==> (ReadChecks(c, list, before).success <==> AllSucceed(list))
  {
    if list == [] {
    } else {
      var n := |list| - 1;
      ChecksCleanExactly(c, list[..n], before);
      GoodChecksGrow(list);
      NewGrows(c, list, before);
      SuccessGrows(list);
      if CheckEntry(list[n]).Some? {
        ChecksStatus(c, list[..n], before, ReviewId(c.0, c.1, CheckEntry(list[n]).value.0));
      }
    }
  }

  lemma {:induction false} CasesSeen(pins: Pins, list: seq<Value>, c: Case)
    ensures c in ReadCases(pins, list).cases <==> c in pins.cases && FirstRecord(list, c).Some?
  {
    if list == [] {
    } else {
      CasesSeen(pins, list[..|list| - 1], c);
    }
  }

  /** The status a full report gives a check is that of the first entry in the first record of its case. */
  lemma {:induction false} CasesStatus(pins: Pins, list: seq<Value>, id: ReviewId)
    ensures StatusOf(ReadCases(pins, list).checks, id) == CaseStatus(pins, list, id)
  {
    if list == [] {
    } else {
      var n := |list| - 1;
      var c := CaseOf(list[n]);
      CasesStatus(pins, list[..n], id);
      if c.Some? && c.value in pins.cases {
        CasesSeen(pins, list[..n], c.value);
        if list[n].Get(Key.Checks).List? {
          ChecksStatus(c.value, list[n].Get(Key.Checks).items, ReadCases(pins, list[..n]).checks, id);
        }
      }
    }
  }

  lemma NewCaseIsNew(pins: Pins, list: seq<Value>, c: Case, checks: seq<Value>)
    requires FirstRecord(list, c).None?
    ensures NewTo(c, checks, ReadCases(pins, list).checks)
  {
    forall k | 0 <= k < |checks| && CheckEntry(checks[k]).Some?
      ensures ReviewId(c.0, c.1, CheckEntry(checks[k]).value.0) !in ReadCases(pins, list).checks
    {
      CasesStatus(pins, list, ReviewId(c.0, c.1, CheckEntry(checks[k]).value.0));
    }
  }

  lemma DistinctCasesGrow(list: seq<Value>)
    requires list != []
    ensures var n := |list| - 1;
            DistinctCases(list) <==>
            DistinctCases(list[..n]) && (CaseOf(list[n]).Some? ==> FirstRecord(list[..n], CaseOf(list[n]).value).None?)
  {
    var n := |list| - 1;
    var front := list[..n];
    assert forall k | 0 <= k < n :: front[k] == list[k];
    if CaseOf(list[n]).Some? {
      assert FirstRecord(front, CaseOf(list[n]).value).None? <==> NoCase(front, CaseOf(list[n]).value);
    }
  }

  lemma GoodCasesGrow(pins: Pins, list: seq<Value>)
    requires list != []
    ensures var n := |list| - 1;
            GoodCases(pins, list) <==>
            GoodCases(pins, list[..n]) && GoodCase(pins, list[n]) && FirstRecord(list[..n], CaseOf(list[n]).value).None?
  {
    DistinctCasesGrow(list);
    assert forall k | 0 <= k < |list| - 1 :: list[..|list| - 1][k] == list[k];
  }

  lemma CaseCleanExactly(pins: Pins, list: seq<Value>, record: Value)
    requires var c := CaseOf(record); c.Some? && c.value in pins.cases ==> FirstRecord(list, c.value).None?
    ensures ReadCase(pins, ReadCases(pins, list), record).clean <==> ReadCases(pins, list).clean && GoodCase(pins, record)
  {
    var c := CaseOf(record);
    if c.Some? && c.value in pins.cases {
      CasesSeen(pins, list, c.value);
      if record.Get(Key.Checks).List? {
        ChecksCleanExactly(c.value, record.Get(Key.Checks).items, ReadCases(pins, list).checks);
        NewCaseIsNew(pins, list, c.value, record.Get(Key.Checks).items);
      }
    }
  }

  lemma {:induction false} CasesCleanExactly(pins: Pins, list: seq<Value>)
    ensures ReadCases(pins, list).clean <==> GoodCases(pins, list)
  {
    if list == [] {
    } else {
      var n := |list| - 1;
      CasesCleanExactly(pins, list[..n]);
      GoodCasesGrow(pins, list);
      var c := CaseOf(list[n]);
      if c.Some? && c.value in pins.cases && FirstRecord(list[..n], c.value).Some? {
        CasesSeen(pins, list[..n], c.value);
      } else {
        CaseCleanExactly(pins, list[..n], list[n]);
      }
    }
  }

  lemma CasesOfGrow(list: seq<Value>)
    requires list != []
    ensures var n := |list| - 1;
            CasesOf(list) == CasesOf(list[..n]) + (if CaseOf(list[n]).Some? then {CaseOf(list[n]).value} else {})
  {
    var n := |list| - 1;
    assert forall k | 0 <= k < n :: list[..n][k] == list[k];
    forall c | c in CasesOf(list)
      ensures c in CasesOf(list[..n]) || CaseOf(list[n]) == Some(c)
    {
      var k :| 0 <= k < |list| && CaseOf(list[k]) == Some(c);
      assert k < n ==> CaseOf(list[..n][k]) == Some(c);
    }
    forall c | c in CasesOf(list[..n])
      ensures c in CasesOf(list)
    {
      var k :| 0 <= k < n && CaseOf(list[..n][k]) == Some(c);
      assert CaseOf(list[k]) == Some(c);
    }
  }

  lemma KnownCasesSeen(pins: Pins, list: seq<Value>)
    ensures ReadCases(pins, list).cases == CasesOf(list) * pins.cases
  {
    forall c
      ensures c in ReadCases(pins, list).cases <==> c in CasesOf(list) && c in pins.cases
    {
      CasesSeen(pins, list, c);
    }
  }

  // ---------- ... and so do the readings of compact baselines ----------

  lemma RecordedGrows(pins: Pins, list: seq<Value>, id: ReviewId)
    requires list != []
    ensures var n := |list| - 1;
            Recorded(pins, list, id) <==> Recorded(pins, list[..n], id) || RecordId(pins, list[n]) == Some(id)
  {
    var n := |list| - 1;
    if Recorded(pins, list, id) {
      var k :| 0 <= k < |list| && RecordId(pins, list[k]) == Some(id);
      assert k < n ==> list[..n][k] == list[k];
    }
    if Recorded(pins, list[..n], id) {
      var k :| 0 <= k < n && RecordId(pins, list[..n][k]) == Some(id);
      assert list[k] == list[..n][k];
    }
  }

  lemma {:induction false} RecordsStatus(pins: Pins, list: seq<Value>, success: bool, before: Checks, id: ReviewId)
    ensures StatusOf(ReadRecords(pins, list, success, before).checks, id) ==
            if id in before then Some(before[id]) else if Recorded(pins, list, id) then Some(success) else None
  {
    if list == [] {
    } else {
      RecordsStatus(pins, list[..|list| - 1], success, before, id);
      RecordedGrows(pins, list, id);
    }
  }

  predicate NewRecords(pins: Pins, list: seq<Value>, before: Checks) {
    forall k | 0 <= k < |list| && RecordId(pins, list[k]).Some? :: RecordId(pins, list[k]).value !in before
  }

  lemma GoodRecordsGrow(pins: Pins, list: seq<Value>, before: Checks)
    requires list != []
    ensures var n := |list| - 1;
            GoodRecords(pins, list) && NewRecords(pins, list, before) <==>
            && GoodRecords(pins, list[..n]) && NewRecords(pins, list[..n], before)
            && RecordId(pins, list[n]).Some?
            && RecordId(pins, list[n]).value !in before && !Recorded(pins, list[..n], RecordId(pins, list[n]).value)
  {
    var n := |list| - 1;
    var front, id := list[..n], RecordId(pins, list[n]);
    assert forall k | 0 <= k < n :: front[k] == list[k];
    if id.Some? && Recorded(pins, front, id.value) {
      var k :| 0 <= k < n && RecordId(pins, front[k]) == id;
      assert RecordId(pins, list[k]) == RecordId(pins, list[n]);
    }
    if GoodRecords(pins, front) && id.Some? && !Recorded(pins, front, id.value) {
      forall j, k | 0 <= j < k < |list|
        ensures RecordId(pins, list[j]) != RecordId(pins, list[k])
      {
        assert RecordId(pins, front[j]) != id;
        assert k < n ==> RecordId(pins, front[j]) != RecordId(pins, front[k]);
      }
    }
  }

  lemma {:induction false} RecordsCleanExactly(pins: Pins, list: seq<Value>, success: bool, before: Checks)
    ensures ReadRecords(pins, list, success, before).clean <==> GoodRecords(pins, list) && NewRecords(pins, list, before)
  {
    if list == [] {
    } else {
      var n := |list| - 1;
      RecordsCleanExactly(pins, list[..n], success, before);
      GoodRecordsGrow(pins, list, before);
      if RecordId(pins, list[n]).Some? {
        RecordsStatus(pins, list[..n], success, before, RecordId(pins, list[n]).value);
      }
    }
  }

  lemma {:induction false} CaseListExactly(list: seq<Value>)
    ensures ReadCaseList(list).cases == CasesOf(list)
    ensures ReadCaseList(list).clean <==> GoodCaseList(list)
  {
    if list == [] {
    } else {
      var n := |list| - 1;
      CaseListExactly(list[..n]);
      CasesOfGrow(list);
      GoodCaseListGrows(list);
    }
  }

  lemma GoodCaseListGrows(list: seq<Value>)
    requires list != []
    ensures var n := |list| - 1;
            GoodCaseList(list) <==>
            GoodCaseList(list[..n]) && CaseOf(list[n]).Some? && CaseOf(list[n]).value !in CasesOf(list[..n])
  {
    var n := |list| - 1;
    DistinctCasesGrow(list);
    assert forall k | 0 <= k < n :: list[..n][k] == list[k];
    if CaseOf(list[n]).Some? {
      Unlisted(list[..n], CaseOf(list[n]).value);
    }
  }

  lemma Unlisted(list: seq<Value>, c: Case)
    ensures c !in CasesOf(list) <==> NoCase(list, c)
    ensures c !in CasesOf(list) <==> FirstRecord(list, c).None?
  {
  }

  lemma BucketsStatus(pins: Pins, checks: Value, id: ReviewId)
    ensures StatusOf(ReadBuckets(pins, checks).checks, id) == BucketStatus(pins, checks, id)
  {
    if checks.Object? {
      var passing := ReadRecords(pins, ItemsOf(checks.Get(Passing)), true, map[]);
      RecordsStatus(pins, ItemsOf(checks.Get(Passing)), true, map[], id);
      RecordsStatus(pins, ItemsOf(checks.Get(Failing)), false, passing.checks, id);
    }
  }

  lemma BucketsCleanExactly(pins: Pins, checks: Value)
    ensures ReadBuckets(pins, checks).clean <==> GoodBuckets(pins, checks)
  {
    if checks.Object? && checks.Get(Passing).List? && checks.Get(Failing).List? {
      var first, second := checks.Get(Passing).items, checks.Get(Failing).items;
      var passing := ReadRecords(pins, first, true, map[]);
      RecordsCleanExactly(pins, first, true, map[]);
      RecordsCleanExactly(pins, second, false, passing.checks);
      forall k | 0 <= k < |second| && RecordId(pins, second[k]).Some?
        ensures RecordId(pins, second[k]).value in passing.checks <==> Recorded(pins, first, RecordId(pins, second[k]).value)
      {
        RecordsStatus(pins, first, true, map[], RecordId(pins, second[k]).value);
      }
    }
  }

  /** The meaning of any report: which status it gives each check, and when nothing is wrong with its shape. */
  lemma ReadingExactly(pins: Pins, report: Value)
    requires report.Object?
    ensures forall id :: StatusOf(ChecksIn(pins, report), id) == StatusIn(pins, report, id)
    ensures ReadAny(pins, report).clean <==> GoodShape(pins, report)
    ensures GoodShape(pins, report) ==> ReadAny(pins, report).cases == CasesIn(report)
  {
    forall id
      ensures StatusOf(ChecksIn(pins, report), id) == StatusIn(pins, report, id)
    {
      if Compact(report) {
        BucketsStatus(pins, report.Get(Key.Checks), id);
      } else {
        CasesStatus(pins, ItemsOf(report.Get(Cases)), id);
      }
    }
    if Compact(report) {
      BucketsCleanExactly(pins, report.Get(Key.Checks));
      CaseListExactly(ItemsOf(report.Get(RequiredCases)));
    } else {
      CasesCleanExactly(pins, ItemsOf(report.Get(Cases)));
      if report.Get(Cases).List? && GoodCases(pins, report.Get(Cases).items) {
        KnownCasesSeen(pins, report.Get(Cases).items);
        assert CasesOf(report.Get(Cases).items) <= pins.cases;
      }
    }
  }

  // ---------- The loops of the script ----------

  datatype Problem =
    | WrongSchema | WrongReviewer | WrongModes | UnsupportedBaseline | NoRequiredCases | MalformedCase | DuplicateCase
    | NoIdentities | MalformedCheck | DuplicateCheck | NoCases | UnexpectedCase | NoChecks | InconsistentCase
    | MissingCases | InconsistentTotals | InconsistentSuccess

  method CollectChecks(c: Case, list: seq<Value>, before: Checks) returns (checks: Checks, success: bool, errors: seq<Problem>)
    ensures var r := ReadChecks(c, list, before);
            checks == r.checks && success == r.success && (errors == [] <==> r.clean)
    ensures errors == [] <==> GoodChecks(list) && NewTo(c, list, before)
    ensures errors == [] ==> (success <==> AllSucceed(list))
    ensures forall id ::
              StatusOf(checks, id) ==
              if id in before then Some(before[id])
              else if (id.mode, id.transport) == c then FirstEntry(list, id.checkId)
              else None
  {
    checks, success, errors := before, true, [];
    for i := 0 to |list|
      invariant var r := ReadChecks(c, list[..i], before);
                checks == r.checks && success == r.success && (errors == [] <==> r.clean)
    {
      assert list[..i + 1][..i] == list[..i];
      var entry := CheckEntry(list[i]);
      if entry.None? {
        errors := errors + [MalformedCheck];
        continue;
      }
      var id := ReviewId(c.0, c.1, entry.value.0);
      if id in checks {
        errors := errors + [DuplicateCheck];
        continue;
      }
      checks, success := checks[id := entry.value.1], success && entry.value.1;
    }
    assert list[..|list|] == list;
    ChecksCleanExactly(c, list, before);
    forall id {
      ChecksStatus(c, list, before, id);
    }
  }

  method CollectCases(pins: Pins, list: seq<Value>) returns (checks: Checks, cases: set<Case>, errors: seq<Problem>)
    ensures var r := ReadCases(pins, list);
            checks == r.checks && cases == r.cases && (errors == [] <==> r.clean)
    ensures errors == [] <==> GoodCases(pins, list)
    ensures cases == CasesOf(list) * pins.cases
    ensures forall id :: StatusOf(checks, id) == CaseStatus(pins, list, id)
  {
    checks, cases, errors := map[], {}, [];
    for i := 0 to |list|
      invariant var r := ReadCases(pins, list[..i]);
                checks == r.checks && cases == r.cases && (errors == [] <==> r.clean)
    {
      assert list[..i + 1][..i] == list[..i];
      var c := CaseOf(list[i]);
      if c.None? || c.value !in pins.cases {
        errors := errors + [UnexpectedCase];
        continue;
      }
      if c.value in cases {
        errors := errors + [DuplicateCase];
        continue;
      }
      cases := cases + {c.value};
      var items := list[i].Get(Key.Checks);
      if !items.List? || items.items == [] {
        errors := errors + [NoChecks];
        continue;
      }
      var success, more;
      checks, success, more := CollectChecks(c.value, items.items, checks);
      errors := errors + more;
      if list[i].Get(Success) != Bool(success) {
        errors := errors + [InconsistentCase];
      }
    }
    assert list[..|list|] == list;
    CasesCleanExactly(pins, list);
    KnownCasesSeen(pins, list);
    forall id {
      CasesStatus(pins, list, id);
    }
  }

  method CollectRecords(pins: Pins, list: seq<Value>, success: bool, before: Checks)
    returns (checks: Checks, errors: seq<Problem>)
    ensures var r := ReadRecords(pins, list, success, before);
            checks == r.checks && (errors == [] <==> r.clean)
    ensures errors == [] <==> GoodRecords(pins, list) && NewRecords(pins, list, before)
    ensures forall id ::
              StatusOf(checks, id) ==
              if id in before then Some(before[id]) else if Recorded(pins, list, id) then Some(success) else None
  {
    checks, errors := before, [];
    for i := 0 to |list|
      invariant var r := ReadRecords(pins, list[..i], success, before);
                checks == r.checks && (errors == [] <==> r.clean)
    {
      assert list[..i + 1][..i] == list[..i];
      var id := RecordId(pins, list[i]);
      if id.None? {
        errors := errors + [MalformedCheck];
      } else if id.value in checks {
        errors := errors + [DuplicateCheck];
      } else {
        checks := checks[id.value := success];
      }
    }
    assert list[..|list|] == list;
    RecordsCleanExactly(pins, list, success, before);
    forall id {
      RecordsStatus(pins, list, success, before, id);
    }
  }

  method CollectCaseList(list: seq<Value>) returns (cases: set<Case>, errors: seq<Problem>)
    ensures cases == ReadCaseList(list).cases && (errors == [] <==> ReadCaseList(list).clean)
    ensures cases == CasesOf(list) && (errors == [] <==> GoodCaseList(list))
  {
    CaseListExactly(list);
    cases, errors := {}, [];
    for i := 0 to |list|
      invariant cases == ReadCaseList(list[..i]).cases && (errors == [] <==> ReadCaseList(list[..i]).clean)
    {
      assert list[..i + 1][..i] == list[..i];
      var c := CaseOf(list[i]);
      if c.None? {
        errors := errors + [MalformedCase];
      } else if c.value in cases {
        errors := errors + [DuplicateCase];
      } else {
        cases := cases + {c.value};
      }
    }
    assert list[..|list|] == list;
  }

  method CollectCompact(pins: Pins, report: Value) returns (checks: Checks, cases: set<Case>, errors: seq<Problem>)
    requires report.Object? && Compact(report)
    ensures var r := ReadAny(pins, report);
            checks == r.checks && cases == r.cases && (errors == [] <==> r.clean)
    ensures errors == [] <==> GoodShape(pins, report)
    ensures forall id :: StatusOf(checks, id) == StatusIn(pins, report, id)
  {
    ReadingExactly(pins, report);
    errors := if report.Get(BaselineKind) == Text(pins.baselineKind) then [] else [UnsupportedBaseline];
    var more;
    if !report.Get(RequiredCases).List? {
      errors := errors + [NoRequiredCases];
    }
    cases, more := CollectCaseList(ItemsOf(report.Get(RequiredCases)));
    errors := errors + more;
    var raw := report.Get(Key.Checks);
    checks := map[];
    if !raw.Object? {
      errors := errors + [NoIdentities];
      return;
    }
    checks, more := CollectRecords(pins, ItemsOf(raw.Get(Passing)), true, checks);
    errors := errors + (if raw.Get(Passing).List? then [] else [NoIdentities]) + more;
    checks, more := CollectRecords(pins, ItemsOf(raw.Get(Failing)), false, checks);
    errors := errors + (if raw.Get(Failing).List? then [] else [NoIdentities]) + more;
  }

  method CollectAny(pins: Pins, report: Value) returns (checks: Checks, cases: set<Case>, errors: seq<Problem>)
    requires report.Object?
    ensures checks == ChecksIn(pins, report)
    ensures errors == [] <==> GoodShape(pins, report)
    ensures errors == [] ==> cases == CasesIn(report)
  {
    ReadingExactly(pins, report);
    if Compact(report) {
      checks, cases, errors := CollectCompact(pins, report);
    } else {
      checks, cases, errors := CollectCases(pins, ItemsOf(report.Get(Cases)));
      if !report.Get(Cases).List? {
        errors := [NoCases] + errors;
      }
    }
  }

  method ReadHeader(pins: Pins, report: Value) returns (errors: seq<Problem>)
    requires report.Object?
    ensures errors == [] <==> HeaderOk(pins, report)
  {
    errors := if report.Get(Key.SchemaVersion) == Number(SCHEMA_VERSION) then [] else [WrongSchema];
    if report.Get(Reviewer) != Text(pins.reviewer) {
      errors := errors + [WrongReviewer];
    }
    var modes := if Compact(report) then report.Get(RequiredModes) else report.Get(Modes);
    if modes != Texts(pins.modes) {
      errors := errors + [WrongModes];
    }
  }

  method ReadTotals(report: Value, checks: Checks, cases: set<Case>) returns (errors: seq<Problem>)
    requires report.Object?
    ensures errors == [] <==> TotalsOk(report, checks, cases)
  {
    errors := if SummaryOk(report.Get(Summary), checks, cases) then [] else [InconsistentTotals];
    var failed := |checks| - |PassingIds(checks)|;
    if !Compact(report) && report.Get(Success) != Bool(cases != {} && failed == 0) {
      errors := errors + [InconsistentSuccess];
    }
  }

  method RequiredReviewChecks(pins: Pins, report: Value) returns (checks: Checks, errors: seq<Problem>)
    requires report.Object?
    ensures checks == ChecksIn(pins, report)
    ensures forall id :: StatusOf(checks, id) == StatusIn(pins, report, id)
    ensures errors == [] <==> WellFormed(pins, report)
  {
    ReadingExactly(pins, report);
    var header := ReadHeader(pins, report);
    var cases, body;
    checks, cases, body := CollectAny(pins, report);
    var totals := ReadTotals(report, checks, cases);
    var missing := if pins.cases == cases then [] else [MissingCases];
    errors := header + body + missing + totals;
  }
}
