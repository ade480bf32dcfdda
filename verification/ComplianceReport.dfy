/**
 Reading a compliance report (scripts/mcp_conformance/run_codex_compliance.py):
 which checks it observed, with which statuses, and whether it is complete.
 The declarations say what a report means; the methods below them are the loops
 of the script, proved to compute that meaning.
 */
module ComplianceReport {
  import opened Options
  import opened Json
  import Strings

  const SCHEMA_VERSION := 4
  const STDIO := "stdio"
  const HTTP := "official-http"

  /** The pinned suite: protocol versions, the shipping one, and the scenario catalog. */
  datatype Pins = Pins(
    modes: seq<string>,
    shipping: string,
    repository: string,
    gitRef: string,
    baselineKind: string,
    catalog: string -> seq<string>)

  datatype CheckStatus = Pass | Fail | Skip

  datatype Identity = Identity(mode: string, transport: string, source: string, scenario: string, checkId: string)

  type Observation = (Identity, CheckStatus)

  predicate KnownTransport(t: string) {
    t == STDIO || t == HTTP
  }

  predicate KnownSource(s: string) {
    s == "official" || s == "harness" || s == "supplemental"
  }

  /** Sources whose scenarios count towards the catalog. */
  predicate CatalogSource(s: string) {
    s == "official" || s == "harness"
  }

  // ---------- Identities ----------

  /** A check name without its arrival number. */
  function StableName(name: string): string {
    var at := Strings.LastIndex(name, '#');
    if at.Some? && at.value > 0 && Strings.Digits(name[at.value + 1..]) then name[..at.value] else name
  }

  function OptionalText(v: Value): Option<Option<string>> {
    match v
    case Null => Some(None)
    case Text(s) => if s == "" then None else Some(Some(s))
    case _ => None
  }

  function CheckIdentity(mode: string, transport: string, check: Value): Option<Identity>
    requires check.Object?
  {
    var source, name := check.Get(Source), check.Get(Name);
    var scenario, checkId := OptionalText(check.Get(Scenario)), OptionalText(check.Get(CheckId));
    if !source.Text? || !KnownSource(source.text) then None
    else if !name.Text? || name.text == "" then None
    else if scenario.None? || checkId.None? then None
    else
      Some(Identity(mode, transport, source.text,
                    if scenario.value.Some? then scenario.value.value else "",
                    if checkId.value.Some? then checkId.value.value else StableName(name.text)))
  }

  function StatusOf(v: Value): Option<CheckStatus> {
    if v == Text("PASS") then Some(Pass)
    else if v == Text("FAIL") then Some(Fail)
    else if v == Text("SKIP") then Some(Skip)
    else None
  }

  /** What one check record says, or None when it is malformed. */
  function CheckObservation(mode: string, transport: string, check: Value): Option<Observation> {
    if !check.Object? then None
    else
      var identity, status := CheckIdentity(mode, transport, check), StatusOf(check.Get(Status));
      if identity.None? || status.None? || check.Get(Success) != Bool(status.value != Fail) then None
      else Some((identity.value, status.value))
  }

  function CheckSet(mode: string, transport: string, checks: seq<Value>): set<Observation> {
    set c | c in checks && CheckObservation(mode, transport, c).Some? :: CheckObservation(mode, transport, c).value
  }

  // ---------- Full reports ----------

  /** The required case a record stands for, if any. */
  function CaseKey(pins: Pins, case_: Value): Option<(string, string)> {
    if case_.Object? && case_.Get(Mode).Text? && case_.Get(Mode).text in pins.modes && case_.Get(Transport).Text?
    then Some((case_.Get(Mode).text, case_.Get(Transport).text))
    else None
  }

  predicate CaseShape(pins: Pins, case_: Value) {
    && case_.Object?
    && (case_.Get(Mode).Text? && case_.Get(Mode).text in pins.modes ==> case_.Get(Transport).Text?)
  }

  predicate NoDuplicateCase(pins: Pins, cases: seq<Value>) {
    forall i, j | 0 <= i < j < |cases| ::
      CaseKey(pins, cases[i]).Some? ==> CaseKey(pins, cases[i]) != CaseKey(pins, cases[j])
  }

  /** The first case with this key; later ones are reported and ignored. */
  function FirstCase(pins: Pins, cases: seq<Value>, key: (string, string)): (found: Option<Value>)
    ensures found.Some? ==> found.value in cases && CaseKey(pins, found.value) == Some(key)
    ensures found.None? ==> forall c | c in cases :: CaseKey(pins, c) != Some(key)
  {
    if cases == [] then None
    else
      var n := |cases| - 1;
      var earlier := FirstCase(pins, cases[..n], key);
      assert cases == cases[..n] + [cases[n]];
      if earlier.Some? then earlier
      else if CaseKey(pins, cases[n]) == Some(key) then Some(cases[n])
      else None
  }

  function ChecksOf(case_: Option<Value>): seq<Value> {
    if case_.Some? && case_.value.Object? && case_.value.Get(Checks).List? then case_.value.Get(Checks).items else []
  }

  function CaseSet(pins: Pins, cases: seq<Value>, mode: string, transport: string): set<Observation> {
    CheckSet(mode, transport, ChecksOf(FirstCase(pins, cases, (mode, transport))))
  }

  function ModesSet(pins: Pins, cases: seq<Value>, modes: seq<string>): set<Observation> {
    if modes == [] then {}
    else
      var n := |modes| - 1;
      ModesSet(pins, cases, modes[..n]) + CaseSet(pins, cases, modes[n], STDIO) + CaseSet(pins, cases, modes[n], HTTP)
  }

  predicate AllRead(mode: string, transport: string, checks: seq<Value>) {
    forall c | c in checks :: CheckObservation(mode, transport, c).Some?
  }

  predicate CaseComplete(pins: Pins, cases: seq<Value>, mode: string, transport: string) {
    var checks := ChecksOf(FirstCase(pins, cases, (mode, transport)));
    checks != [] && AllRead(mode, transport, checks)
  }

  /** The catalog scenarios that some observation over HTTP belongs to. */
  function ObservedScenarios(observed: set<Observation>, mode: string): set<string> {
    set o | o in observed && o.0.mode == mode && o.0.transport == HTTP && CatalogSource(o.0.source) :: o.0.scenario
  }

  predicate ScenariosComplete(pins: Pins, observed: set<Observation>, mode: string) {
    ObservedScenarios(observed, mode) == set s | s in pins.catalog(mode)
  }

  // ---------- Compact baselines ----------

  predicate ValidIdentity(pins: Pins, i: Identity) {
    i.mode in pins.modes && KnownTransport(i.transport) && KnownSource(i.source) && i.checkId != ""
  }

  function RecordIdentity(pins: Pins, record: Value): (found: Option<Identity>)
    ensures found.Some? ==> ValidIdentity(pins, found.value)
  {
    if !record.Object? then None
    else
      var mode, transport, source := record.Get(Mode), record.Get(Transport), record.Get(Source);
      var scenario, checkId := record.Get(Scenario), record.Get(CheckId);
      if !(mode.Text? && transport.Text? && source.Text? && scenario.Text? && checkId.Text?) then None
      else
        var i := Identity(mode.text, transport.text, source.text, scenario.text, checkId.text);
        if ValidIdentity(pins, i) then Some(i) else None
  }

  function RecordSet(pins: Pins, records: seq<Value>, status: CheckStatus): set<Observation> {
    set r | r in records && RecordIdentity(pins, r).Some? :: (RecordIdentity(pins, r).value, status)
  }

  predicate RecordsOk(pins: Pins, records: seq<Value>) {
    && (forall i | 0 <= i < |records| :: RecordIdentity(pins, records[i]).Some?)
    && (forall i, j | 0 <= i < j < |records| :: RecordIdentity(pins, records[i]) != RecordIdentity(pins, records[j]))
  }

  predicate Covers(observed: set<Observation>, mode: string, transport: string) {
    exists o :: o in observed && o.0.mode == mode && o.0.transport == transport
  }

  // ---------- Any report ----------

  predicate HeaderOk(pins: Pins, report: Value)
    requires report.Object?
  {
    var version, official := report.Get(VersionCheck), report.Get(OfficialConformance);
    && report.Get(SchemaVersion) == Number(SCHEMA_VERSION)
    && version.Object? && version.Get(Success) == Bool(true)
    && report.Get(ModernFeatureEnablement) == Bool(true)
    && official.Object?
    && official.Get(Repository) == Text(pins.repository)
    && official.Get(GitRef) == Text(pins.gitRef)
    && official.Get(AuthenticationIncluded) == Bool(true)
    && official.Get(Scenarios).Object?
  }

  function SelectedScenarios(report: Value): Value
    requires report.Object?
    ensures SelectedScenarios(report).Object?
  {
    var official := report.Get(OfficialConformance);
    if official.Object? && official.Get(Scenarios).Object? then official.Get(Scenarios) else Object(map[])
  }

  predicate CatalogSelected(pins: Pins, report: Value, mode: string)
    requires report.Object?
  {
    SelectedScenarios(report).Get(Named(mode)) == Texts(pins.catalog(mode))
  }

  function CompactObservations(pins: Pins, checks: Value): set<Observation>
    requires checks.Object?
  {
    RecordSet(pins, ItemsOf(checks.Get(Passing)), Pass) + RecordSet(pins, ItemsOf(checks.Get(Failing)), Fail)
  }

  /** Everything a report, full or compact, observed. */
  function Observations(pins: Pins, report: Value): set<Observation>
    requires report.Object?
  {
    if report.Get(BaselineKind) == Null then ModesSet(pins, ItemsOf(report.Get(Cases)), pins.modes)
    else if report.Get(BaselineKind) == Text(pins.baselineKind) && report.Get(Checks).Object?
    then CompactObservations(pins, report.Get(Checks))
    else {}
  }

  predicate FullComplete(pins: Pins, report: Value)
    requires report.Object?
  {
    && report.Get(Cases).List?
    && var cases := report.Get(Cases).items;
       && (forall i | 0 <= i < |cases| :: CaseShape(pins, cases[i]))
       && NoDuplicateCase(pins, cases)
       && (forall m | m in pins.modes ::
             && CatalogSelected(pins, report, m)
             && CaseComplete(pins, cases, m, STDIO)
             && CaseComplete(pins, cases, m, HTTP)
             && ScenariosComplete(pins, Observations(pins, report), m))
  }

  predicate CompactShape(pins: Pins, report: Value)
    requires report.Object?
  {
    && report.Get(BaselineKind) == Text(pins.baselineKind)
    && report.Get(RequiredModes) == Texts(pins.modes)
    && (report.Get(Transports) == Texts([STDIO, HTTP]) || report.Get(Transports) == Texts([HTTP, STDIO]))
    && report.Get(Checks).Object?
    && report.Get(Checks).Get(Passing).List?
    && report.Get(Checks).Get(Failing).List?
    && RecordsOk(pins, report.Get(Checks).Get(Passing).items)
    && RecordsOk(pins, report.Get(Checks).Get(Failing).items)
    && forall m | m in pins.modes :: CatalogSelected(pins, report, m)
  }

  predicate Covered(pins: Pins, observed: set<Observation>) {
    forall m | m in pins.modes ::
      Covers(observed, m, STDIO) && Covers(observed, m, HTTP) && ScenariosComplete(pins, observed, m)
  }

  /** A report against which nothing is reported while it is read. */
  predicate WellFormed(pins: Pins, report: Value)
    requires report.Object?
  {
    && HeaderOk(pins, report)
    && if report.Get(BaselineKind) == Null then FullComplete(pins, report)
       else CompactShape(pins, report) && Covered(pins, Observations(pins, report))
  }

  // ---------- The loops of the script ----------

  datatype Problem =
    | WrongSchema | NoVersionCheck | ModernFeatureOff | NoOfficialMetadata | WrongRepository | WrongRevision
    | NoAuthScenarios | NoCatalog | UnsupportedBaseline | WrongModes | WrongTransports | NoIdentities
    | MalformedRecord | DuplicateRecord | IncompleteCatalog | MissingCase | ScenarioMismatch | NoCases
    | MalformedCase | DuplicateCase | NoChecks | MalformedCheck

  type Statuses = map<Identity, set<CheckStatus>>

  function Ids(observed: set<Observation>): set<Identity> {
    set o | o in observed :: o.0
  }

  function StatusesOf(observed: set<Observation>, i: Identity): set<CheckStatus> {
    set o | o in observed && o.0 == i :: o.1
  }

  /** The dictionary a script builds out of a set of observations. */
  function Group(observed: set<Observation>): Statuses {
    map i | i in Ids(observed) :: StatusesOf(observed, i)
  }

  function AddStatus(statuses: Statuses, o: Observation): Statuses {
    statuses[o.0 := (if o.0 in statuses then statuses[o.0] else {}) + {o.1}]
  }

  lemma GroupAdd(observed: set<Observation>, o: Observation)
    ensures AddStatus(Group(observed), o) == Group(observed + {o})
  {
    var grown := observed + {o};
    assert Ids(grown) == Ids(observed) + {o.0};
    forall i | i in Ids(grown)
      ensures AddStatus(Group(observed), o)[i] == StatusesOf(grown, i)
    {
      assert StatusesOf(grown, i) == StatusesOf(observed, i) + (if i == o.0 then {o.1} else {});
      assert i !in Ids(observed) ==> StatusesOf(observed, i) == {};
    }
  }

  lemma GroupMore(earlier: set<Observation>, observed: set<Observation>, o: Observation)
    ensures AddStatus(Group(earlier + observed), o) == Group(earlier + (observed + {o}))
  {
    GroupAdd(earlier + observed, o);
    assert earlier + (observed + {o}) == earlier + observed + {o};
  }

  function Found(o: Option<Observation>): set<Observation> {
    if o.Some? then {o.value} else {}
  }

  /** What one check adds. */
  method CollectCheck(mode: string, transport: string, found: Option<Observation>, before: Statuses, seen: set<string>,
                      ghost earlier: set<Observation>, ghost observed: set<Observation>)
    returns (statuses: Statuses, scenarios: set<string>, errors: seq<Problem>)
    requires found.Some? ==> found.value.0.mode == mode && found.value.0.transport == transport
    requires before == Group(earlier + observed)
    requires seen == if transport == HTTP then ObservedScenarios(observed, mode) else {}
    ensures statuses == Group(earlier + (observed + Found(found)))
    ensures scenarios == if transport == HTTP then ObservedScenarios(observed + Found(found), mode) else {}
    ensures errors == [] <==> found.Some?
  {
    statuses, scenarios, errors := before, seen, [];
    if found.None? {
      assert observed + Found(found) == observed;
      return statuses, scenarios, [MalformedCheck];
    }
    GroupMore(earlier, observed, found.value);
    ScenariosGrow(observed, found.value, mode);
    statuses := AddStatus(statuses, found.value);
    if transport == HTTP && CatalogSource(found.value.0.source) {
      scenarios := scenarios + {found.value.0.scenario};
    }
  }

  method CollectChecks(mode: string, transport: string, checks: seq<Value>, before: Statuses, ghost earlier: set<Observation>)
    returns (statuses: Statuses, scenarios: set<string>, errors: seq<Problem>)
    requires before == Group(earlier)
    ensures statuses == Group(earlier + CheckSet(mode, transport, checks))
    ensures scenarios == if transport == HTTP then ObservedScenarios(CheckSet(mode, transport, checks), mode) else {}
    ensures errors == [] <==> AllRead(mode, transport, checks)
  {
    statuses, scenarios, errors := before, {}, [];
    assert earlier + CheckSet(mode, transport, []) == earlier;
    for i := 0 to |checks|
      invariant statuses == Group(earlier + CheckSet(mode, transport, checks[..i]))
      invariant scenarios == if transport == HTTP then ObservedScenarios(CheckSet(mode, transport, checks[..i]), mode) else {}
      invariant errors == [] <==> AllRead(mode, transport, checks[..i])
    {
      var more;
      CheckSetGrows(mode, transport, checks, i);
      statuses, scenarios, more :=
        CollectCheck(mode, transport, CheckObservation(mode, transport, checks[i]), statuses, scenarios,
                     earlier, CheckSet(mode, transport, checks[..i]));
      errors := errors + more;
    }
    assert checks[..|checks|] == checks;
  }

  lemma CheckSetGrows(mode: string, transport: string, checks: seq<Value>, i: nat)
    requires i < |checks|
    ensures var found := CheckObservation(mode, transport, checks[i]);
            CheckSet(mode, transport, checks[..i + 1]) ==
            CheckSet(mode, transport, checks[..i]) + Found(found)
    ensures var found := CheckObservation(mode, transport, checks[i]);
            found.Some? ==> found.value.0.mode == mode && found.value.0.transport == transport
    ensures AllRead(mode, transport, checks[..i + 1]) <==>
            AllRead(mode, transport, checks[..i]) && CheckObservation(mode, transport, checks[i]).Some?
  {
    assert checks[..i + 1] == checks[..i] + [checks[i]];
  }

  lemma ScenariosGrow(observed: set<Observation>, o: Observation, mode: string)
    ensures ObservedScenarios(observed + {o}, mode) ==
            ObservedScenarios(observed, mode) +
            (if o.0.mode == mode && o.0.transport == HTTP && CatalogSource(o.0.source) then {o.0.scenario} else {})
  {
  }

  ghost predicate Indexes(pins: Pins, list: seq<Value>, cases: map<(string, string), Value>) {
    && (forall key :: key in cases <==> FirstCase(pins, list, key).Some?)
    && (forall key | key in cases :: FirstCase(pins, list, key) == Some(cases[key]))
  }

  lemma CasesGrow(pins: Pins, list: seq<Value>, i: nat)
    requires i < |list|
    ensures forall key :: FirstCase(pins, list[..i + 1], key) ==
                          if FirstCase(pins, list[..i], key).None? && CaseKey(pins, list[i]) == Some(key)
                          then Some(list[i]) else FirstCase(pins, list[..i], key)
  {
    assert list[..i + 1][..i] == list[..i] && list[..i + 1][i] == list[i];
  }

  lemma DuplicatesGrow(pins: Pins, front: seq<Value>, last: Value)
    ensures NoDuplicateCase(pins, front + [last]) <==>
            && NoDuplicateCase(pins, front)
            && (CaseKey(pins, last).Some? ==> FirstCase(pins, front, CaseKey(pins, last).value).None?)
  {
    var longer, key, n := front + [last], CaseKey(pins, last), |front|;
    assert longer[n] == last && forall k | 0 <= k < n :: longer[k] == front[k];
    if key.Some? {
      KeyFound(pins, front, key.value);
      if NoDuplicateCase(pins, longer) {
        assert forall k | 0 <= k < n :: CaseKey(pins, longer[k]) != CaseKey(pins, longer[n]);
      }
    }
  }

  lemma KeyFound(pins: Pins, list: seq<Value>, key: (string, string))
    ensures FirstCase(pins, list, key).Some? <==> exists k :: 0 <= k < |list| && CaseKey(pins, list[k]) == Some(key)
  {
    var first := FirstCase(pins, list, key);
    if first.Some? {
      var k :| 0 <= k < |list| && list[k] == first.value;
    } else {
      assert forall k | 0 <= k < |list| :: list[k] in list;
    }
  }

  predicate Shapes(pins: Pins, list: seq<Value>) {
    forall i | 0 <= i < |list| :: CaseShape(pins, list[i])
  }

  predicate GoodCases(pins: Pins, list: seq<Value>) {
    Shapes(pins, list) && NoDuplicateCase(pins, list)
  }

  /** What one more case record does to the index. */
  lemma IndexGrows(pins: Pins, list: seq<Value>, i: nat, cases: map<(string, string), Value>)
    requires i < |list| && Indexes(pins, list[..i], cases)
    ensures var key := CaseKey(pins, list[i]);
            Indexes(pins, list[..i + 1], if key.Some? && key.value !in cases then cases[key.value := list[i]] else cases)
  {
    CasesGrow(pins, list, i);
  }

  lemma ShapesGrow(pins: Pins, front: seq<Value>, last: Value)
    ensures Shapes(pins, front + [last]) <==> Shapes(pins, front) && CaseShape(pins, last)
  {
    var longer := front + [last];
    assert longer[|front|] == last && forall k | 0 <= k < |front| :: longer[k] == front[k];
  }

  lemma GoodCasesGrow(pins: Pins, list: seq<Value>, i: nat)
    requires i < |list|
    ensures var key := CaseKey(pins, list[i]);
            GoodCases(pins, list[..i + 1]) <==>
            && GoodCases(pins, list[..i]) && CaseShape(pins, list[i])
            && (key.Some? ==> FirstCase(pins, list[..i], key.value).None?)
  {
    ShapesGrow(pins, list[..i], list[i]);
    assert list[..i + 1] == list[..i] + [list[i]];
    DuplicatesGrow(pins, list[..i], list[i]);
  }

  method CollectCases(pins: Pins, list: seq<Value>) returns (cases: map<(string, string), Value>, errors: seq<Problem>)
    ensures Indexes(pins, list, cases)
    ensures errors == [] <==> GoodCases(pins, list)
  {
    cases, errors := map[], [];
    for i := 0 to |list|
      invariant Indexes(pins, list[..i], cases)
      invariant errors == [] <==> GoodCases(pins, list[..i])
    {
      IndexGrows(pins, list, i, cases);
      GoodCasesGrow(pins, list, i);
      var key := CaseKey(pins, list[i]);
      if !CaseShape(pins, list[i]) {
        errors := errors + [MalformedCase];
        continue;
      }
      if key.None? {
        continue;
      }
      if key.value in cases {
        errors := errors + [DuplicateCase];
        continue;
      }
      cases := cases[key.value := list[i]];
    }
    assert list[..|list|] == list;
  }

  /** The http case of a mode shows exactly its catalog. */
  predicate CaseCatalog(pins: Pins, list: seq<Value>, mode: string) {
    ObservedScenarios(CaseSet(pins, list, mode, HTTP), mode) == set s | s in pins.catalog(mode)
  }

  method ReadCase(pins: Pins, ghost list: seq<Value>, cases: map<(string, string), Value>,
                  mode: string, transport: string, before: Statuses, ghost earlier: set<Observation>)
    returns (statuses: Statuses, errors: seq<Problem>)
    requires Indexes(pins, list, cases) && before == Group(earlier) && KnownTransport(transport)
    ensures statuses == Group(earlier + CaseSet(pins, list, mode, transport))
    ensures errors == [] <==>
            CaseComplete(pins, list, mode, transport) && (transport == HTTP ==> CaseCatalog(pins, list, mode))
  {
    statuses, errors := before, [];
    assert CheckSet(mode, transport, []) == {} && earlier + {} == earlier;
    if (mode, transport) !in cases {
      errors := [MissingCase];
      return;
    }
    var checks := cases[(mode, transport)].Get(Checks);
    if !checks.List? || checks.items == [] {
      errors := [NoChecks];
      return;
    }
    var scenarios;
    statuses, scenarios, errors := CollectChecks(mode, transport, checks.items, before, earlier);
    if transport == HTTP && scenarios != set s | s in pins.catalog(mode) {
      errors := errors + [ScenarioMismatch];
    }
  }

  /** What one mode contributes to a complete full report. */
  predicate ModeComplete(pins: Pins, report: Value, list: seq<Value>, mode: string)
    requires report.Object?
  {
    && CatalogSelected(pins, report, mode)
    && CaseComplete(pins, list, mode, STDIO)
    && CaseComplete(pins, list, mode, HTTP)
    && CaseCatalog(pins, list, mode)
  }

  predicate ModesComplete(pins: Pins, report: Value, list: seq<Value>, modes: seq<string>)
    requires report.Object?
  {
    modes == [] || (ModesComplete(pins, report, list, modes[..|modes| - 1]) && ModeComplete(pins, report, list, modes[|modes| - 1]))
  }

  lemma {:induction false} EachModeComplete(pins: Pins, report: Value, list: seq<Value>, modes: seq<string>)
    requires report.Object?
    ensures ModesComplete(pins, report, list, modes) <==> forall m | m in modes :: ModeComplete(pins, report, list, m)
  {
    if modes == [] {
    } else {
      EachModeComplete(pins, report, list, modes[..|modes| - 1]);
      assert modes == modes[..|modes| - 1] + [modes[|modes| - 1]];
    }
  }

  method ReadMode(pins: Pins, report: Value, ghost list: seq<Value>, cases: map<(string, string), Value>,
                  mode: string, before: Statuses, ghost earlier: set<Observation>)
    returns (statuses: Statuses, errors: seq<Problem>)
    requires report.Object? && Indexes(pins, list, cases) && before == Group(earlier)
    ensures statuses == Group(earlier + CaseSet(pins, list, mode, STDIO) + CaseSet(pins, list, mode, HTTP))
    ensures errors == [] <==> ModeComplete(pins, report, list, mode)
  {
    errors := if CatalogSelected(pins, report, mode) then [] else [IncompleteCatalog];
    var more;
    statuses, more := ReadCase(pins, list, cases, mode, STDIO, before, earlier);
    errors := errors + more;
    statuses, more := ReadCase(pins, list, cases, mode, HTTP, statuses, earlier + CaseSet(pins, list, mode, STDIO));
    errors := errors + more;
  }

  method ReadModes(pins: Pins, report: Value, ghost list: seq<Value>, cases: map<(string, string), Value>)
    returns (statuses: Statuses, errors: seq<Problem>)
    requires report.Object? && Indexes(pins, list, cases)
    ensures statuses == Group(ModesSet(pins, list, pins.modes))
    ensures errors == [] <==> ModesComplete(pins, report, list, pins.modes)
  {
    statuses, errors := map[], [];
    ghost var observed: set<Observation> := {};
    assert Group({}) == map[];
    for i := 0 to |pins.modes|
      invariant statuses == Group(observed) && observed == ModesSet(pins, list, pins.modes[..i])
      invariant errors == [] <==> ModesComplete(pins, report, list, pins.modes[..i])
    {
      assert pins.modes[..i + 1][..i] == pins.modes[..i];
      var more;
      statuses, more := ReadMode(pins, report, list, cases, pins.modes[i], statuses, observed);
      errors := errors + more;
      observed := ModesSet(pins, list, pins.modes[..i + 1]);
    }
    assert pins.modes[..|pins.modes|] == pins.modes;
  }

  method ReadFull(pins: Pins, report: Value) returns (statuses: Statuses, errors: seq<Problem>)
    requires report.Object? && report.Get(BaselineKind) == Null
    ensures statuses == Group(Observations(pins, report))
    ensures errors == [] <==> FullComplete(pins, report)
  {
    var list := ItemsOf(report.Get(Cases));
    var cases, caseErrors := CollectCases(pins, list);
    var modeErrors;
    statuses, modeErrors := ReadModes(pins, report, list, cases);
    errors := (if report.Get(Cases).List? then [] else [NoCases]) + caseErrors + modeErrors;
    CompleteByMode(pins, report);
  }

  lemma CompleteByMode(pins: Pins, report: Value)
    requires report.Object? && report.Get(BaselineKind) == Null
    ensures var list := ItemsOf(report.Get(Cases));
            FullComplete(pins, report) <==>
            && report.Get(Cases).List?
            && (forall i | 0 <= i < |list| :: CaseShape(pins, list[i]))
            && NoDuplicateCase(pins, list)
            && ModesComplete(pins, report, list, pins.modes)
  {
    var list := ItemsOf(report.Get(Cases));
    forall m | m in pins.modes
      ensures CaseCatalog(pins, list, m) <==> ScenariosComplete(pins, Observations(pins, report), m)
    {
      HttpScenarios(pins, list, pins.modes, m);
    }
    EachModeComplete(pins, report, list, pins.modes);
  }

  /** An observation carries the mode and transport of the case it was read from. */
  lemma CaseSetMember(pins: Pins, list: seq<Value>, mode: string, transport: string, o: Observation)
    requires o in CaseSet(pins, list, mode, transport)
    ensures o.0.mode == mode && o.0.transport == transport && KnownSource(o.0.source)
  {
  }

  lemma ModeSetMember(pins: Pins, list: seq<Value>, mode: string, o: Observation)
    ensures o in CaseSet(pins, list, mode, STDIO) || o in CaseSet(pins, list, mode, HTTP) <==>
            o.0.mode == mode && KnownTransport(o.0.transport) && o in CaseSet(pins, list, mode, o.0.transport)
  {
    if o in CaseSet(pins, list, mode, STDIO) {
      CaseSetMember(pins, list, mode, STDIO, o);
    } else if o in CaseSet(pins, list, mode, HTTP) {
      CaseSetMember(pins, list, mode, HTTP, o);
    }
  }

  lemma InFrontOrLast<T>(q: seq<T>, x: T)
    requires q != []
    ensures x in q <==> x in q[..|q| - 1] || x == q[|q| - 1]
  {
    assert q == q[..|q| - 1] + [q[|q| - 1]];
  }

  lemma {:induction false} ModesSetMember(pins: Pins, list: seq<Value>, modes: seq<string>, o: Observation)
    ensures o in ModesSet(pins, list, modes) <==>
            o.0.mode in modes && KnownTransport(o.0.transport) && o in CaseSet(pins, list, o.0.mode, o.0.transport)
  {
    if modes == [] {
    } else {
      var n := |modes| - 1;
      ModesSetMember(pins, list, modes[..n], o);
      ModeSetMember(pins, list, modes[n], o);
      InFrontOrLast(modes, o.0.mode);
    }
  }

  lemma HttpScenarios(pins: Pins, list: seq<Value>, modes: seq<string>, mode: string)
    requires mode in modes
    ensures ObservedScenarios(ModesSet(pins, list, modes), mode) == ObservedScenarios(CaseSet(pins, list, mode, HTTP), mode)
  {
    forall o
      ensures o in ModesSet(pins, list, modes) <==>
              o.0.mode in modes && KnownTransport(o.0.transport) && o in CaseSet(pins, list, o.0.mode, o.0.transport)
    {
      ModesSetMember(pins, list, modes, o);
    }
  }

  method ReadBucket(pins: Pins, records: seq<Value>, status: CheckStatus, before: Statuses, ghost earlier: set<Observation>)
    returns (statuses: Statuses, errors: seq<Problem>)
    requires before == Group(earlier)
    ensures statuses == Group(earlier + RecordSet(pins, records, status))
    ensures errors == [] <==> RecordsOk(pins, records)
  {
    statuses, errors := before, [];
    var seen: set<Identity> := {};
    assert RecordSet(pins, [], status) == {} && earlier + {} == earlier;
    for i := 0 to |records|
      invariant statuses == Group(earlier + RecordSet(pins, records[..i], status))
      invariant seen == Ids(RecordSet(pins, records[..i], status))
      invariant errors == [] <==> RecordsOk(pins, records[..i])
    {
      RecordSetGrows(pins, records, status, i);
      RecordsOkGrows(pins, records, status, i);
      var found := RecordIdentity(pins, records[i]);
      if found.None? {
        errors := errors + [MalformedRecord];
        continue;
      }
      IdsGrow(RecordSet(pins, records[..i], status), found.value, status);
      if found.value in seen {
        errors := errors + [DuplicateRecord];
        continue;
      }
      GroupGrows(pins, records, status, i, earlier);
      seen := seen + {found.value};
      statuses := AddStatus(statuses, (found.value, status));
    }
    assert records[..|records|] == records;
  }

  lemma IdsGrow(observed: set<Observation>, i: Identity, status: CheckStatus)
    requires forall o | o in observed :: o.1 == status
    ensures Ids(observed + {(i, status)}) == Ids(observed) + {i}
    ensures i in Ids(observed) ==> observed + {(i, status)} == observed
  {
  }

  lemma RecordSetGrows(pins: Pins, records: seq<Value>, status: CheckStatus, i: nat)
    requires i < |records|
    ensures RecordIdentity(pins, records[i]).None? ==>
            RecordSet(pins, records[..i + 1], status) == RecordSet(pins, records[..i], status)
    ensures RecordIdentity(pins, records[i]).Some? ==>
            RecordSet(pins, records[..i + 1], status) ==
            RecordSet(pins, records[..i], status) + {(RecordIdentity(pins, records[i]).value, status)}
  {
    assert records[..i + 1] == records[..i] + [records[i]];
  }

  lemma GroupGrows(pins: Pins, records: seq<Value>, status: CheckStatus, i: nat, earlier: set<Observation>)
    requires i < |records| && RecordIdentity(pins, records[i]).Some?
    ensures AddStatus(Group(earlier + RecordSet(pins, records[..i], status)), (RecordIdentity(pins, records[i]).value, status)) ==
            Group(earlier + RecordSet(pins, records[..i + 1], status))
  {
    var o := (RecordIdentity(pins, records[i]).value, status);
    RecordSetGrows(pins, records, status, i);
    GroupAdd(earlier + RecordSet(pins, records[..i], status), o);
    assert earlier + (RecordSet(pins, records[..i], status) + {o}) == earlier + RecordSet(pins, records[..i], status) + {o};
  }

  lemma RecordsOkGrows(pins: Pins, records: seq<Value>, status: CheckStatus, i: nat)
    requires i < |records|
    ensures RecordsOk(pins, records[..i + 1]) <==>
            && RecordsOk(pins, records[..i])
            && RecordIdentity(pins, records[i]).Some?
            && RecordIdentity(pins, records[i]).value !in Ids(RecordSet(pins, records[..i], status))
  {
    var shorter, longer, found := records[..i], records[..i + 1], RecordIdentity(pins, records[i]);
    assert longer[i] == records[i] && forall k | 0 <= k < i :: longer[k] == shorter[k];
    if found.Some? {
      if found.value in Ids(RecordSet(pins, shorter, status)) {
        var k :| 0 <= k < i && RecordIdentity(pins, shorter[k]) == found;
        assert RecordIdentity(pins, longer[k]) == RecordIdentity(pins, longer[i]);
      } else {
        forall k | 0 <= k < i
          ensures RecordIdentity(pins, longer[k]) != found
        {
          assert shorter[k] in shorter;
          assert RecordIdentity(pins, shorter[k]).Some? ==>
                 (RecordIdentity(pins, shorter[k]).value, status) in RecordSet(pins, shorter, status);
        }
      }
    }
  }

  method ReadCompact(pins: Pins, report: Value) returns (statuses: Statuses, errors: seq<Problem>)
    requires report.Object? && report.Get(BaselineKind) != Null
    ensures statuses == Group(Observations(pins, report))
    ensures errors == [] <==> CompactShape(pins, report) && Covered(pins, Observations(pins, report))
  {
    statuses, errors := map[], [];
    assert Group({}) == map[];
    if report.Get(BaselineKind) != Text(pins.baselineKind) {
      errors := [UnsupportedBaseline];
      return;
    }
    if report.Get(RequiredModes) != Texts(pins.modes) {
      errors := errors + [WrongModes];
    }
    if report.Get(Transports) != Texts([STDIO, HTTP]) && report.Get(Transports) != Texts([HTTP, STDIO]) {
      errors := errors + [WrongTransports];
    }
    var checks := report.Get(Checks);
    if !checks.Object? {
      errors := errors + [NoIdentities];
      return;
    }
    var more;
    assert {} + RecordSet(pins, ItemsOf(checks.Get(Passing)), Pass) == RecordSet(pins, ItemsOf(checks.Get(Passing)), Pass);
    statuses, more := ReadBucket(pins, ItemsOf(checks.Get(Passing)), Pass, statuses, {});
    errors := errors + (if checks.Get(Passing).List? then [] else [NoIdentities]) + more;
    statuses, more := ReadBucket(pins, ItemsOf(checks.Get(Failing)), Fail, statuses, RecordSet(pins, ItemsOf(checks.Get(Passing)), Pass));
    errors := errors + (if checks.Get(Failing).List? then [] else [NoIdentities]) + more;
    more := ReadCoverage(pins, report, statuses);
    errors := errors + more;
  }

  method ReadCoverage(pins: Pins, report: Value, statuses: Statuses) returns (errors: seq<Problem>)
    requires report.Object? && statuses == Group(Observations(pins, report))
    ensures errors == [] <==>
            (forall m | m in pins.modes :: CatalogSelected(pins, report, m)) && Covered(pins, Observations(pins, report))
  {
    errors := [];
    ghost var observed := Observations(pins, report);
    for i := 0 to |pins.modes|
      invariant errors == [] <==> forall m | m in pins.modes[..i] ::
        && CatalogSelected(pins, report, m)
        && Covers(observed, m, STDIO) && Covers(observed, m, HTTP) && ScenariosComplete(pins, observed, m)
    {
      var mode := pins.modes[i];
      assert pins.modes[..i + 1] == pins.modes[..i] + [mode];
      if !CatalogSelected(pins, report, mode) {
        errors := errors + [IncompleteCatalog];
      }
      IdsCover(observed, mode, STDIO);
      IdsCover(observed, mode, HTTP);
      if !exists x | x in statuses :: x.mode == mode && x.transport == STDIO {
        errors := errors + [MissingCase];
      }
      if !exists x | x in statuses :: x.mode == mode && x.transport == HTTP {
        errors := errors + [MissingCase];
      }
      var seen := set x | x in statuses && x.mode == mode && x.transport == HTTP && CatalogSource(x.source) :: x.scenario;
      IdsScenarios(observed, mode);
      if seen != set s | s in pins.catalog(mode) {
        errors := errors + [ScenarioMismatch];
      }
    }
    assert pins.modes[..|pins.modes|] == pins.modes;
  }

  lemma IdsCover(observed: set<Observation>, mode: string, transport: string)
    ensures Covers(observed, mode, transport) <==>
            exists x | x in Group(observed) :: x.mode == mode && x.transport == transport
  {
    if Covers(observed, mode, transport) {
      var o :| o in observed && o.0.mode == mode && o.0.transport == transport;
      assert o.0 in Group(observed);
    }
  }

  lemma IdsScenarios(observed: set<Observation>, mode: string)
    ensures ObservedScenarios(observed, mode) ==
            set x | x in Group(observed) && x.mode == mode && x.transport == HTTP && CatalogSource(x.source) :: x.scenario
  {
    forall o | o in observed
      ensures o.0 in Group(observed)
    {
    }
  }

  /** The whole reading of a report: the statuses it stands for, and whether anything is wrong with it. */
  method RequiredRegressionChecks(pins: Pins, report: Value) returns (statuses: Statuses, errors: seq<Problem>)
    requires report.Object?
    ensures statuses == Group(Observations(pins, report))
    ensures errors == [] <==> WellFormed(pins, report)
  {
    var header := ReadHeader(pins, report);
    if report.Get(BaselineKind) != Null {
      statuses, errors := ReadCompact(pins, report);
    } else {
      statuses, errors := ReadFull(pins, report);
    }
    errors := header + errors;
  }

  method ReadHeader(pins: Pins, report: Value) returns (errors: seq<Problem>)
    requires report.Object?
    ensures errors == [] <==> HeaderOk(pins, report)
  {
    errors := [];
    if report.Get(SchemaVersion) != Number(SCHEMA_VERSION) {
      errors := errors + [WrongSchema];
    }
    var version := report.Get(VersionCheck);
    if !version.Object? || version.Get(Success) != Bool(true) {
      errors := errors + [NoVersionCheck];
    }
    if report.Get(ModernFeatureEnablement) != Bool(true) {
      errors := errors + [ModernFeatureOff];
    }
    var official := report.Get(OfficialConformance);
    if !official.Object? {
      errors := errors + [NoOfficialMetadata];
      return;
    }
    if official.Get(Repository) != Text(pins.repository) {
      errors := errors + [WrongRepository];
    }
    if official.Get(GitRef) != Text(pins.gitRef) {
      errors := errors + [WrongRevision];
    }
    if official.Get(AuthenticationIncluded) != Bool(true) {
      errors := errors + [NoAuthScenarios];
    }
    if !official.Get(Scenarios).Object? {
      errors := errors + [NoCatalog];
    }
  }
}
