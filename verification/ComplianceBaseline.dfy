/**
 Compacting a compliance report into a reviewed baseline
 (scripts/mcp_conformance/run_codex_compliance.py): what survives, when the
 result can be read back, and that gating against it is gating against the report.
 */
module ComplianceBaseline {
  import opened Options
  import opened Json
  import opened Orders
  import opened ComplianceReport
  import opened ComplianceGate

  function RecordOf(i: Identity): Value {
    Object(map[Mode := Text(i.mode), Transport := Text(i.transport), Source := Text(i.source),
               Scenario := Text(i.scenario), CheckId := Text(i.checkId)])
  }

  function Records(ids: seq<Identity>): seq<Value> {
    seq(|ids|, k requires 0 <= k < |ids| => RecordOf(ids[k]))
  }

  predicate Compactable(pins: Pins, report: Value)
    requires report.Object?
  {
    && WellFormed(pins, report)
    && report.Get(AutomaticAuthRequired).Bool?
    && ShippingClean(pins, Observations(pins, report))
  }

  function Catalogs(modes: seq<string>, selected: Value): map<Key, Value>
    requires selected.Object?
  {
    map m | m in modes :: Named(m) := selected.Get(Named(m))
  }

  function CompactOfficial(pins: Pins, report: Value): Value
    requires report.Object?
  {
    Object(map[
      Repository := Text(pins.repository),
      GitRef := Text(pins.gitRef),
      AuthenticationIncluded := Bool(true),
      Scenarios := Object(Catalogs(pins.modes, SelectedScenarios(report)))])
  }

  function CompactChecks(observed: set<Observation>): Value {
    Object(map[
      Passing := List(Records(SortedIds(IdsWith(observed, Pass)))),
      Failing := List(Records(SortedIds(IdsWith(observed, Fail))))])
  }

  function Assemble(pins: Pins, policy: Value, official: Value, checks: Value): Value {
    Object(map[
      BaselineKind := Text(pins.baselineKind),
      SchemaVersion := Number(SCHEMA_VERSION),
      RequiredModes := Texts(pins.modes),
      Transports := Texts([STDIO, HTTP]),
      VersionCheck := Object(map[Success := Bool(true)]),
      ModernFeatureEnablement := Bool(true),
      AutomaticAuthRequired := policy,
      OfficialConformance := official,
      Checks := checks])
  }

  /** The compact baseline, or None where the script raises. */
  function CompactBaseline(pins: Pins, report: Value): (baseline: Option<Value>)
    requires report.Object?
    ensures baseline.Some? <==> Compactable(pins, report)
    ensures baseline.Some? ==> baseline.value.Object?
  {
    if !Compactable(pins, report) then None
    else Some(Assemble(pins, report.Get(AutomaticAuthRequired),
                       CompactOfficial(pins, report), CompactChecks(Observations(pins, report))))
  }

  /** `baseline` has the fields a compact baseline is assembled from. */
  predicate Assembled(pins: Pins, baseline: Value, policy: Value, official: Value, checks: Value) {
    && baseline.Object?
    && baseline.Get(BaselineKind) == Text(pins.baselineKind)
    && baseline.Get(SchemaVersion) == Number(SCHEMA_VERSION)
    && baseline.Get(RequiredModes) == Texts(pins.modes)
    && baseline.Get(Transports) == Texts([STDIO, HTTP])
    && baseline.Get(VersionCheck) == Object(map[Success := Bool(true)])
    && baseline.Get(ModernFeatureEnablement) == Bool(true)
    && baseline.Get(AutomaticAuthRequired) == policy
    && baseline.Get(OfficialConformance) == official
    && baseline.Get(Checks) == checks
  }

  lemma AssembleAssembles(pins: Pins, policy: Value, official: Value, checks: Value)
    ensures Assembled(pins, Assemble(pins, policy, official, checks), policy, official, checks)
  {
  }

  /** The observations that say PASS or FAIL. */
  function Decided(observed: set<Observation>): set<Observation> {
    set o | o in observed && o.1 != Skip
  }

  // ---------- Compaction as the script does it ----------

  lemma RecordsKeep(q: seq<Identity>, s: set<Identity>, k: nat)
    requires k < |q|
    ensures Records(Keep(q[..k + 1], s)) == Records(Keep(q[..k], s)) + (if q[k] in s then [RecordOf(q[k])] else [])
  {
    KeepNext(q, s, k);
  }

  /** The records of the checks observed with one status, in order. */
  method FillBucket(statuses: Statuses, status: CheckStatus, ghost observed: set<Observation>) returns (records: seq<Value>)
    requires statuses == Group(observed)
    ensures records == Records(SortedIds(IdsWith(observed, status)))
  {
    records := [];
    var ids := SortedIds(statuses.Keys);
    ghost var wanted := IdsWith(observed, status);
    for k := 0 to |ids|
      invariant records == Records(Keep(ids[..k], wanted))
    {
      LookupGroup(observed, ids[k]);
      RecordsKeep(ids, wanted, k);
      if status in Lookup(statuses, ids[k]) {
        records := records + [RecordOf(ids[k])];
      }
    }
    assert ids[..|ids|] == ids && statuses.Keys == Ids(observed);
    KeepIds(Ids(observed), wanted);
  }

  method ShippingFails(pins: Pins, statuses: Statuses, ghost observed: set<Observation>) returns (fails: bool)
    requires statuses == Group(observed)
    ensures fails <==> !ShippingClean(pins, observed)
  {
    fails := false;
    var ids := SortedIds(statuses.Keys);
    FinishComparison(pins, observed, ids);
    for k := 0 to |ids|
      invariant fails <==> exists j :: 0 <= j < k && ids[j].mode == pins.shipping && (ids[j], Fail) in observed
    {
      LookupGroup(observed, ids[k]);
      if ids[k].mode == pins.shipping && Fail in Lookup(statuses, ids[k]) {
        fails := true;
      }
    }
  }

  method CompactRegressionBaseline(pins: Pins, report: Value) returns (baseline: Option<Value>)
    requires report.Object?
    ensures baseline == CompactBaseline(pins, report)
  {
    var statuses, errors := RequiredRegressionChecks(pins, report);
    var policy := report.Get(AutomaticAuthRequired);
    var fails := ShippingFails(pins, statuses, Observations(pins, report));
    if errors != [] || !policy.Bool? || fails {
      return None;
    }
    var passing := FillBucket(statuses, Pass, Observations(pins, report));
    var failing := FillBucket(statuses, Fail, Observations(pins, report));
    var checks := Object(map[Passing := List(passing), Failing := List(failing)]);
    return Some(Assemble(pins, policy, CompactOfficial(pins, report), checks));
  }

  // ---------- Reading back what was written ----------

  lemma StableNameNonEmpty(name: string)
    requires name != ""
    ensures StableName(name) != ""
  {
  }

  lemma CheckSetValid(pins: Pins, mode: string, transport: string, checks: seq<Value>, o: Observation)
    requires mode in pins.modes && KnownTransport(transport) && o in CheckSet(mode, transport, checks)
    ensures ValidIdentity(pins, o.0)
  {
    var c :| c in checks && CheckObservation(mode, transport, c) == Some(o);
    StableNameNonEmpty(c.Get(Name).text);
  }

  lemma ObservationsValid(pins: Pins, report: Value, o: Observation)
    requires report.Object? && o in Observations(pins, report)
    ensures ValidIdentity(pins, o.0)
  {
    if report.Get(BaselineKind) == Null {
      var list := ItemsOf(report.Get(Cases));
      ModesSetMember(pins, list, pins.modes, o);
      CheckSetValid(pins, o.0.mode, o.0.transport, ChecksOf(FirstCase(pins, list, (o.0.mode, o.0.transport))), o);
    }
  }

  lemma RecordRoundTrip(pins: Pins, i: Identity)
    requires ValidIdentity(pins, i)
    ensures RecordIdentity(pins, RecordOf(i)) == Some(i)
  {
  }

  lemma RecordsRoundTrip(pins: Pins, ids: set<Identity>, status: CheckStatus)
    requires forall i | i in ids :: ValidIdentity(pins, i)
    ensures RecordsOk(pins, Records(SortedIds(ids)))
    ensures RecordSet(pins, Records(SortedIds(ids)), status) == set i | i in ids :: (i, status)
  {
    var sorted := SortedIds(ids);
    var records := Records(sorted);
    SortedMembers(ids);
    forall k | 0 <= k < |sorted|
      ensures RecordIdentity(pins, records[k]) == Some(sorted[k])
    {
      assert sorted[k] in ids;
      RecordRoundTrip(pins, sorted[k]);
    }
    forall i | i in ids
      ensures (i, status) in RecordSet(pins, records, status)
    {
      var k :| 0 <= k < |sorted| && sorted[k] == i;
      assert records[k] in records;
    }
  }

  lemma ChecksRoundTrip(pins: Pins, observed: set<Observation>)
    requires forall o | o in observed :: ValidIdentity(pins, o.0)
    ensures CompactObservations(pins, CompactChecks(observed)) == Decided(observed)
    ensures RecordsOk(pins, Records(SortedIds(IdsWith(observed, Pass))))
    ensures RecordsOk(pins, Records(SortedIds(IdsWith(observed, Fail))))
  {
    RecordsRoundTrip(pins, IdsWith(observed, Pass), Pass);
    RecordsRoundTrip(pins, IdsWith(observed, Fail), Fail);
    assert (set i | i in IdsWith(observed, Pass) :: (i, Pass)) + (set i | i in IdsWith(observed, Fail) :: (i, Fail)) == Decided(observed);
  }

  lemma CatalogSurvives(pins: Pins, report: Value, baseline: Value, mode: string)
    requires report.Object? && baseline.Object? && mode in pins.modes
    requires baseline.Get(OfficialConformance) == CompactOfficial(pins, report)
    ensures SelectedScenarios(baseline).Get(Named(mode)) == SelectedScenarios(report).Get(Named(mode))
  {
    assert Named(mode) in Catalogs(pins.modes, SelectedScenarios(report));
  }

  lemma WellFormedCatalog(pins: Pins, report: Value, mode: string)
    requires report.Object? && WellFormed(pins, report) && mode in pins.modes
    ensures CatalogSelected(pins, report, mode)
  {
  }

  lemma AllObservationsValid(pins: Pins, report: Value)
    requires report.Object?
    ensures forall o | o in Observations(pins, report) :: ValidIdentity(pins, o.0)
  {
    forall o | o in Observations(pins, report)
      ensures ValidIdentity(pins, o.0)
    {
      ObservationsValid(pins, report, o);
    }
  }

  lemma AssembledObserves(pins: Pins, baseline: Value, policy: Value, official: Value, observed: set<Observation>)
    requires Assembled(pins, baseline, policy, official, CompactChecks(observed))
    requires forall o | o in observed :: ValidIdentity(pins, o.0)
    ensures Observations(pins, baseline) == Decided(observed)
  {
    ChecksRoundTrip(pins, observed);
  }

  lemma AssembledShape(pins: Pins, baseline: Value, policy: Value, report: Value, observed: set<Observation>)
    requires report.Object? && WellFormed(pins, report)
    requires Assembled(pins, baseline, policy, CompactOfficial(pins, report), CompactChecks(observed))
    requires forall o | o in observed :: ValidIdentity(pins, o.0)
    ensures HeaderOk(pins, baseline) && CompactShape(pins, baseline)
  {
    ChecksRoundTrip(pins, observed);
    AssembledCatalogs(pins, baseline, report);
    AssembledHeader(pins, baseline, policy, report, CompactChecks(observed));
  }

  lemma AssembledCatalogs(pins: Pins, baseline: Value, report: Value)
    requires report.Object? && WellFormed(pins, report)
    requires baseline.Object? && baseline.Get(OfficialConformance) == CompactOfficial(pins, report)
    ensures forall m | m in pins.modes :: CatalogSelected(pins, baseline, m)
  {
    forall m | m in pins.modes
      ensures CatalogSelected(pins, baseline, m)
    {
      CatalogSurvives(pins, report, baseline, m);
      WellFormedCatalog(pins, report, m);
    }
  }

  lemma AssembledHeader(pins: Pins, baseline: Value, policy: Value, report: Value, checks: Value)
    requires report.Object?
    requires Assembled(pins, baseline, policy, CompactOfficial(pins, report), checks)
    ensures HeaderOk(pins, baseline)
  {
  }

  /** The facts about a compact baseline that the theorems below use. */
  lemma CompactFields(pins: Pins, report: Value)
    requires report.Object? && Compactable(pins, report)
    ensures Assembled(pins, CompactBaseline(pins, report).value, report.Get(AutomaticAuthRequired),
                      CompactOfficial(pins, report), CompactChecks(Observations(pins, report)))
  {
    AssembleAssembles(pins, report.Get(AutomaticAuthRequired),
                      CompactOfficial(pins, report), CompactChecks(Observations(pins, report)));
  }

  /**
   Compacting erases exactly the SKIP observations, and the result reads back
   without errors exactly when every required case and every catalog scenario
   keeps a PASS or FAIL.
   */
  lemma CompactionMeaning(pins: Pins, report: Value)
    requires report.Object? && Compactable(pins, report)
    ensures var baseline := CompactBaseline(pins, report).value;
            && Observations(pins, baseline) == Decided(Observations(pins, report))
            && (WellFormed(pins, baseline) <==> Covered(pins, Decided(Observations(pins, report))))
  {
    var observed, policy := Observations(pins, report), report.Get(AutomaticAuthRequired);
    CompactFields(pins, report);
    AllObservationsValid(pins, report);
    AssembledObserves(pins, CompactBaseline(pins, report).value, policy, CompactOfficial(pins, report), observed);
    AssembledShape(pins, CompactBaseline(pins, report).value, policy, report, observed);
  }

  lemma DecidedVerdicts(candidate: set<Observation>, baseline: set<Observation>)
    ensures NewFailures(candidate, Decided(baseline)) == NewFailures(candidate, baseline)
    ensures KnownFailures(candidate, Decided(baseline)) == KnownFailures(candidate, baseline)
    ensures MissingChecks(candidate, Decided(baseline)) == MissingChecks(candidate, baseline)
    ensures FixedChecks(candidate, Decided(baseline)) == FixedChecks(candidate, baseline)
  {
    var decided := Decided(baseline);
    forall i, s | s != Skip
      ensures (i, s) in decided <==> (i, s) in baseline
      ensures (i, s) in baseline ==> i in Ids(decided) && i in Ids(baseline)
    {
      if (i, s) in baseline {
        assert (i, s).0 in Ids(decided) && (i, s).0 in Ids(baseline);
      }
    }
  }

  lemma DecidedShipping(pins: Pins, observed: set<Observation>)
    ensures ShippingClean(pins, Decided(observed)) <==> ShippingClean(pins, observed)
  {
  }

  /** Against the compact baseline every candidate gets the lists it gets against the report. */
  lemma CompactionKeepsLists(pins: Pins, candidate: Value, report: Value)
    requires candidate.Object? && report.Object? && Compactable(pins, report)
    ensures var now := Observations(pins, candidate);
            var full, compact := Observations(pins, report), Observations(pins, CompactBaseline(pins, report).value);
            && NewFailures(now, compact) == NewFailures(now, full)
            && KnownFailures(now, compact) == KnownFailures(now, full)
            && MissingChecks(now, compact) == MissingChecks(now, full)
            && FixedChecks(now, compact) == FixedChecks(now, full)
  {
    CompactionMeaning(pins, report);
    DecidedVerdicts(Observations(pins, candidate), Observations(pins, report));
  }

  lemma CoveredKeepsVerdict(pins: Pins, candidate: Value, report: Value)
    requires candidate.Object? && report.Object? && Compactable(pins, report)
    requires Covered(pins, Decided(Observations(pins, report)))
    ensures Passes(pins, candidate, CompactBaseline(pins, report).value) <==> Passes(pins, candidate, report)
  {
    CompactionMeaning(pins, report);
    CompactionKeepsLists(pins, candidate, report);
    DecidedShipping(pins, Observations(pins, report));
  }

  /** Every verdict is kept exactly when the decided observations still cover the suite. */
  lemma CompactionKeepsVerdictsIff(pins: Pins, report: Value)
    requires report.Object? && Compactable(pins, report)
    ensures (forall candidate: Value | candidate.Object? ::
               Passes(pins, candidate, CompactBaseline(pins, report).value) <==> Passes(pins, candidate, report))
            <==> Covered(pins, Decided(Observations(pins, report)))
  {
    if Covered(pins, Decided(Observations(pins, report))) {
      forall candidate: Value | candidate.Object?
        ensures Passes(pins, candidate, CompactBaseline(pins, report).value) <==> Passes(pins, candidate, report)
      {
        CoveredKeepsVerdict(pins, candidate, report);
      }
    } else {
      CompactionMeaning(pins, report);
      GateReflexive(pins, report);
      assert !Passes(pins, report, CompactBaseline(pins, report).value);
    }
  }

  lemma SameCatalogs(modes: seq<string>, a: Value, b: Value)
    requires a.Object? && b.Object?
    requires forall m | m in modes :: a.Get(Named(m)) == b.Get(Named(m))
    ensures Catalogs(modes, a) == Catalogs(modes, b)
  {
  }

  lemma OfficialSurvives(pins: Pins, report: Value, baseline: Value)
    requires report.Object? && baseline.Object?
    requires baseline.Get(OfficialConformance) == CompactOfficial(pins, report)
    ensures CompactOfficial(pins, baseline) == CompactOfficial(pins, report)
  {
    forall m | m in pins.modes
      ensures SelectedScenarios(baseline).Get(Named(m)) == SelectedScenarios(report).Get(Named(m))
    {
      CatalogSurvives(pins, report, baseline, m);
    }
    SameCatalogs(pins.modes, SelectedScenarios(baseline), SelectedScenarios(report));
  }

  lemma ChecksSurvive(observed: set<Observation>)
    ensures CompactChecks(Decided(observed)) == CompactChecks(observed)
  {
    assert IdsWith(Decided(observed), Pass) == IdsWith(observed, Pass);
    assert IdsWith(Decided(observed), Fail) == IdsWith(observed, Fail);
  }

  /** Compacting twice is compacting once; where the first result cannot be read, the second raises. */
  lemma CompactionIdempotent(pins: Pins, report: Value)
    requires report.Object? && Compactable(pins, report)
    ensures var baseline := CompactBaseline(pins, report).value;
            CompactBaseline(pins, baseline) ==
              if Covered(pins, Decided(Observations(pins, report))) then Some(baseline) else None
  {
    CompactionMeaning(pins, report);
    DecidedShipping(pins, Observations(pins, report));
    CompactFields(pins, report);
    OfficialSurvives(pins, report, CompactBaseline(pins, report).value);
    ChecksSurvive(Observations(pins, report));
  }

  // ---------- Chains of reviewed baselines ----------

  /** The next release is gated against the baseline made of the previous one. */
  function GatedByBaseline(pins: Pins): (Value, Value) -> bool {
    (previous: Value, next: Value) =>
      && previous.Object? && next.Object? && Compactable(pins, previous)
      && Passes(pins, next, CompactBaseline(pins, previous).value)
  }

  /** Passing against the baseline is at least passing against the report it was made of. */
  lemma BaselineGateIsTheGate(pins: Pins, candidate: Value, report: Value)
    requires candidate.Object? && report.Object? && Compactable(pins, report)
    requires Passes(pins, candidate, CompactBaseline(pins, report).value)
    ensures Passes(pins, candidate, report)
  {
    CompactionMeaning(pins, report);
    CoveredKeepsVerdict(pins, candidate, report);
  }

  /** Along a chain in which each release is gated against the baseline of the one before, nothing regresses. */
  lemma BaselineChainsNeverRegress(pins: Pins, releases: seq<Value>, i: nat, j: nat)
    requires Chain(GatedByBaseline(pins), releases) && i < j < |releases|
    ensures GatedByBaseline(pins)(releases[i], releases[j])
    ensures IdsWith(Observations(pins, releases[i]), Pass) <= IdsWith(Observations(pins, releases[j]), Pass)
    ensures IdsWith(Observations(pins, releases[j]), Fail) <= IdsWith(Observations(pins, releases[i]), Fail)
  {
    forall k, l | 0 <= k < l < |releases| && l == k + 1
      ensures Gated(pins)(releases[k], releases[l])
    {
      assert GatedByBaseline(pins)(releases[k], releases[l]);
      BaselineGateIsTheGate(pins, releases[l], releases[k]);
    }
    ChainsNeverRegress(pins, releases, i, j);
    assert GatedByBaseline(pins)(releases[i], releases[i + 1]);
    CompactionMeaning(pins, releases[i]);
    CoveredKeepsVerdict(pins, releases[j], releases[i]);
  }

  // ---------- Baselines that cannot be read back ----------

  const SKIPPED_CHECK := Object(map[
    Source := Text("supplemental"), Name := Text("check"), CheckId := Text("check"),
    Status := Text("SKIP"), Success := Bool(true)])

  /** A case record whose only check was skipped. */
  function SkipCase(case_: Value): Value
    requires case_.Object?
  {
    Object(case_.fields[Checks := List([SKIPPED_CHECK])])
  }

  /** The cases, with the stdio case of one mode replaced by one skipped check. */
  function SkipStdio(pins: Pins, cases: seq<Value>, mode: string): seq<Value> {
    seq(|cases|, i requires 0 <= i < |cases| =>
      if CaseKey(pins, cases[i]) == Some((mode, STDIO)) then SkipCase(cases[i]) else cases[i])
  }

  function SkipStdioOf(pins: Pins, report: Value, mode: string): Value
    requires report.Object?
  {
    Object(report.fields[Cases := List(SkipStdio(pins, ItemsOf(report.Get(Cases)), mode))])
  }

  lemma SkippedCheckObserved(mode: string, transport: string)
    ensures CheckObservation(mode, transport, SKIPPED_CHECK) ==
            Some((Identity(mode, transport, "supplemental", "", "check"), Skip))
  {
    var check := SKIPPED_CHECK;
    assert check.Get(Source) == Text("supplemental") && check.Get(Name) == Text("check");
    assert check.Get(CheckId) == Text("check") && check.Get(Scenario) == Null;
    assert "SKIP"[0] == 'S' && "PASS"[0] == 'P' && "FAIL"[0] == 'F';
  }

  lemma SkipKeepsKeys(pins: Pins, case_: Value)
    requires case_.Object?
    ensures CaseKey(pins, SkipCase(case_)) == CaseKey(pins, case_) && CaseShape(pins, SkipCase(case_)) == CaseShape(pins, case_)
    ensures ChecksOf(Some(SkipCase(case_))) == [SKIPPED_CHECK]
  {
  }

  lemma SkipStdioKeys(pins: Pins, cases: seq<Value>, mode: string)
    ensures forall i | 0 <= i < |cases| ::
              && CaseKey(pins, SkipStdio(pins, cases, mode)[i]) == CaseKey(pins, cases[i])
              && CaseShape(pins, SkipStdio(pins, cases, mode)[i]) == CaseShape(pins, cases[i])
    ensures Shapes(pins, SkipStdio(pins, cases, mode)) <==> Shapes(pins, cases)
    ensures NoDuplicateCase(pins, SkipStdio(pins, cases, mode)) <==> NoDuplicateCase(pins, cases)
  {
    forall i | 0 <= i < |cases|
      ensures CaseKey(pins, SkipStdio(pins, cases, mode)[i]) == CaseKey(pins, cases[i])
      ensures CaseShape(pins, SkipStdio(pins, cases, mode)[i]) == CaseShape(pins, cases[i])
    {
      if cases[i].Object? {
        SkipKeepsKeys(pins, cases[i]);
      }
    }
  }

  lemma {:induction false} SkipStdioFirst(pins: Pins, cases: seq<Value>, mode: string, key: (string, string))
    ensures var first, skipped := FirstCase(pins, cases, key), FirstCase(pins, SkipStdio(pins, cases, mode), key);
            if first.None? then skipped.None?
            else if key == (mode, STDIO) then first.value.Object? && skipped == Some(SkipCase(first.value))
            else skipped == first
  {
    if cases == [] {
    } else {
      var n := |cases| - 1;
      SkipStdioFirst(pins, cases[..n], mode, key);
      assert SkipStdio(pins, cases, mode)[..n] == SkipStdio(pins, cases[..n], mode);
      SkipStdioKeys(pins, cases, mode);
    }
  }

  /** Only the observations over stdio in that mode change: they become one that was skipped. */
  lemma SkipStdioSet(pins: Pins, cases: seq<Value>, mode: string, m: string, t: string)
    requires CaseComplete(pins, cases, m, t)
    ensures var skipped := SkipStdio(pins, cases, mode);
            && CaseComplete(pins, skipped, m, t)
            && CaseSet(pins, skipped, m, t) ==
               if (m, t) == (mode, STDIO) then {(Identity(m, t, "supplemental", "", "check"), Skip)} else CaseSet(pins, cases, m, t)
  {
    SkipStdioFirst(pins, cases, mode, (m, t));
    if (m, t) == (mode, STDIO) {
      SkipKeepsKeys(pins, FirstCase(pins, cases, (m, t)).value);
      SkippedCheckObserved(m, t);
      assert SKIPPED_CHECK in [SKIPPED_CHECK];
    }
  }

  lemma SkipStdioFields(pins: Pins, report: Value, mode: string)
    requires report.Object?
    ensures var skipped := SkipStdioOf(pins, report, mode);
            && (HeaderOk(pins, skipped) <==> HeaderOk(pins, report))
            && skipped.Get(BaselineKind) == report.Get(BaselineKind)
            && skipped.Get(AutomaticAuthRequired) == report.Get(AutomaticAuthRequired)
            && skipped.Get(OfficialConformance) == report.Get(OfficialConformance)
            && skipped.Get(Cases) == List(SkipStdio(pins, ItemsOf(report.Get(Cases)), mode))
  {
  }

  lemma SkipStdioMode(pins: Pins, report: Value, mode: string, m: string)
    requires report.Object? && report.Get(Cases).List? && ModeComplete(pins, report, report.Get(Cases).items, m)
    ensures var skipped := SkipStdioOf(pins, report, mode); ModeComplete(pins, skipped, ItemsOf(skipped.Get(Cases)), m)
  {
    var cases := report.Get(Cases).items;
    SkipStdioFields(pins, report, mode);
    SkipStdioSet(pins, cases, mode, m, STDIO);
    SkipStdioSet(pins, cases, mode, m, HTTP);
    assert STDIO[0] == 's' && HTTP[0] == 'o';
  }

  lemma SkipStdioWellFormed(pins: Pins, report: Value, mode: string)
    requires report.Object? && report.Get(BaselineKind) == Null && WellFormed(pins, report)
    ensures WellFormed(pins, SkipStdioOf(pins, report, mode))
  {
    var skipped, cases := SkipStdioOf(pins, report, mode), ItemsOf(report.Get(Cases));
    SkipStdioFields(pins, report, mode);
    SkipStdioKeys(pins, cases, mode);
    CompleteByMode(pins, report);
    CompleteByMode(pins, skipped);
    EachModeComplete(pins, report, cases, pins.modes);
    EachModeComplete(pins, skipped, ItemsOf(skipped.Get(Cases)), pins.modes);
    forall m | m in pins.modes
      ensures ModeComplete(pins, skipped, ItemsOf(skipped.Get(Cases)), m)
    {
      SkipStdioMode(pins, report, mode, m);
    }
  }

  lemma SkipStdioObserves(pins: Pins, report: Value, mode: string, o: Observation)
    requires report.Object? && report.Get(BaselineKind) == Null && WellFormed(pins, report)
    requires o in Observations(pins, SkipStdioOf(pins, report, mode))
    ensures if (o.0.mode, o.0.transport) == (mode, STDIO) then o.1 == Skip else o in Observations(pins, report)
  {
    var cases := report.Get(Cases).items;
    SkipStdioFields(pins, report, mode);
    ModesSetMember(pins, SkipStdio(pins, cases, mode), pins.modes, o);
    RequiredCaseComplete(pins, report, o.0.mode, o.0.transport);
    SkipStdioMember(pins, cases, mode, o);
  }

  lemma SkipStdioMember(pins: Pins, cases: seq<Value>, mode: string, o: Observation)
    requires o.0.mode in pins.modes && KnownTransport(o.0.transport) && CaseComplete(pins, cases, o.0.mode, o.0.transport)
    requires o in CaseSet(pins, SkipStdio(pins, cases, mode), o.0.mode, o.0.transport)
    ensures if (o.0.mode, o.0.transport) == (mode, STDIO) then o.1 == Skip else o in ModesSet(pins, cases, pins.modes)
  {
    SkipStdioSet(pins, cases, mode, o.0.mode, o.0.transport);
    ModesSetMember(pins, cases, pins.modes, o);
  }

  lemma RequiredCaseComplete(pins: Pins, report: Value, m: string, t: string)
    requires report.Object? && report.Get(BaselineKind) == Null && WellFormed(pins, report)
    requires m in pins.modes && KnownTransport(t)
    ensures CaseComplete(pins, report.Get(Cases).items, m, t)
  {
    CompleteByMode(pins, report);
    EachModeComplete(pins, report, report.Get(Cases).items, pins.modes);
  }

  /**
   In every suite, any report that can be compacted turns into one whose baseline
   cannot be read when the stdio case of a mode is replaced by one skipped check:
   the report still passes against itself, and nothing passes against its baseline.
   */
  lemma SkippedReportIsLost(pins: Pins, report: Value, mode: string, candidate: Value)
    requires report.Object? && report.Get(BaselineKind) == Null && Compactable(pins, report) && mode in pins.modes
    requires candidate.Object?
    ensures var skipped := SkipStdioOf(pins, report, mode);
            && Compactable(pins, skipped) && Passes(pins, skipped, skipped)
            && !WellFormed(pins, CompactBaseline(pins, skipped).value)
            && !Passes(pins, candidate, CompactBaseline(pins, skipped).value)
  {
    var skipped := SkipStdioOf(pins, report, mode);
    SkipStdioFields(pins, report, mode);
    SkipStdioWellFormed(pins, report, mode);
    forall o | o in Observations(pins, skipped)
      ensures o.0.mode == pins.shipping ==> o.1 != Fail
      ensures (o.0.mode, o.0.transport) == (mode, STDIO) ==> o.1 == Skip
    {
      SkipStdioObserves(pins, report, mode, o);
    }
    NotCovered(pins, Decided(Observations(pins, skipped)), mode);
    GateReflexive(pins, skipped);
    CompactionMeaning(pins, skipped);
  }

  lemma NotCovered(pins: Pins, observed: set<Observation>, mode: string)
    requires mode in pins.modes && forall o | o in observed :: (o.0.mode, o.0.transport) != (mode, STDIO)
    ensures !Covered(pins, observed)
  {
    assert !Covers(observed, mode, STDIO);
  }
}
