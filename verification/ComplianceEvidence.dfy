/**
 The compliance gate looks at evidence, not at how it is written down
 (scripts/mcp_conformance/run_codex_compliance.py): only the set of what the
 checks of a case say can change a verdict.
 */
module ComplianceEvidence {
  import opened Options
  import opened Json
  import Strings
  import opened ComplianceReport
  import opened ComplianceGate

  /** What the checks of a case say, malformed ones included. */
  function Outcomes(mode: string, transport: string, checks: seq<Value>): set<Option<Observation>> {
    set c | c in checks :: CheckObservation(mode, transport, c)
  }

  /** Two records of the same case whose checks say the same things. */
  ghost predicate SameEvidence(a: Value, b: Value) {
    && a.Object? && b.Object?
    && a.Get(Mode) == b.Get(Mode) && a.Get(Transport) == b.Get(Transport)
    && a.Get(Checks).List? && b.Get(Checks).List?
    && forall m, t :: Outcomes(m, t, a.Get(Checks).items) == Outcomes(m, t, b.Get(Checks).items)
  }

  ghost predicate SameCases(a: seq<Value>, b: seq<Value>) {
    |a| == |b| && forall i | 0 <= i < |a| :: SameEvidence(a[i], b[i])
  }

  /** Two full reports that differ at most in how their cases list their checks. */
  ghost predicate SameReport(a: Value, b: Value) {
    && a.Object? && b.Object?
    && (forall k | k != Cases :: a.Get(k) == b.Get(k))
    && a.Get(BaselineKind) == Null
    && a.Get(Cases).List? && b.Get(Cases).List?
    && SameCases(a.Get(Cases).items, b.Get(Cases).items)
  }

  lemma {:induction false} SameFirstCase(pins: Pins, a: seq<Value>, b: seq<Value>, key: (string, string))
    requires SameCases(a, b)
    ensures FirstCase(pins, a, key).Some? <==> FirstCase(pins, b, key).Some?
    ensures FirstCase(pins, a, key).Some? ==> SameEvidence(FirstCase(pins, a, key).value, FirstCase(pins, b, key).value)
  {
    if a == [] {
    } else {
      var n := |a| - 1;
      SameFirstCase(pins, a[..n], b[..n], key);
      assert SameEvidence(a[n], b[n]);
    }
  }

  lemma OutcomesDecide(mode: string, transport: string, a: seq<Value>, b: seq<Value>)
    requires Outcomes(mode, transport, a) == Outcomes(mode, transport, b)
    ensures CheckSet(mode, transport, a) == CheckSet(mode, transport, b)
    ensures a == [] <==> b == []
    ensures AllRead(mode, transport, a) <==> AllRead(mode, transport, b)
  {
    CheckSetFromOutcomes(mode, transport, a);
    CheckSetFromOutcomes(mode, transport, b);
  }

  lemma CheckSetFromOutcomes(mode: string, transport: string, checks: seq<Value>)
    ensures CheckSet(mode, transport, checks) == set x | x in Outcomes(mode, transport, checks) && x.Some? :: x.value
    ensures checks == [] <==> Outcomes(mode, transport, checks) == {}
    ensures AllRead(mode, transport, checks) <==> None !in Outcomes(mode, transport, checks)
  {
    forall c | c in checks
      ensures CheckObservation(mode, transport, c) in Outcomes(mode, transport, checks)
    {
    }
    if checks != [] {
      assert checks[0] in checks;
    }
  }

  lemma SameCase(pins: Pins, a: seq<Value>, b: seq<Value>, mode: string, transport: string)
    requires SameCases(a, b)
    ensures CaseSet(pins, a, mode, transport) == CaseSet(pins, b, mode, transport)
    ensures CaseComplete(pins, a, mode, transport) <==> CaseComplete(pins, b, mode, transport)
  {
    var key := (mode, transport);
    SameFirstCase(pins, a, b, key);
    if FirstCase(pins, a, key).Some? {
      OutcomesDecide(mode, transport, ChecksOf(FirstCase(pins, a, key)), ChecksOf(FirstCase(pins, b, key)));
    }
  }

  lemma {:induction false} SameModes(pins: Pins, a: seq<Value>, b: seq<Value>, modes: seq<string>)
    requires SameCases(a, b)
    ensures ModesSet(pins, a, modes) == ModesSet(pins, b, modes)
  {
    if modes == [] {
    } else {
      var n := |modes| - 1;
      SameModes(pins, a, b, modes[..n]);
      SameCase(pins, a, b, modes[n], STDIO);
      SameCase(pins, a, b, modes[n], HTTP);
    }
  }

  lemma SameShapes(pins: Pins, a: seq<Value>, b: seq<Value>)
    requires SameCases(a, b)
    ensures (forall i | 0 <= i < |a| :: CaseShape(pins, a[i])) <==> (forall i | 0 <= i < |b| :: CaseShape(pins, b[i]))
    ensures NoDuplicateCase(pins, a) <==> NoDuplicateCase(pins, b)
  {
    forall i | 0 <= i < |a|
      ensures CaseKey(pins, a[i]) == CaseKey(pins, b[i]) && (CaseShape(pins, a[i]) <==> CaseShape(pins, b[i]))
    {
      assert SameEvidence(a[i], b[i]);
    }
  }

  lemma SameModeComplete(pins: Pins, r: Value, s: Value, mode: string)
    requires r.Object? && s.Object? && r.Get(OfficialConformance) == s.Get(OfficialConformance)
    requires r.Get(Cases).List? && s.Get(Cases).List? && SameCases(r.Get(Cases).items, s.Get(Cases).items)
    ensures ModeComplete(pins, r, r.Get(Cases).items, mode) <==> ModeComplete(pins, s, s.Get(Cases).items, mode)
  {
    var a, b := r.Get(Cases).items, s.Get(Cases).items;
    SameCase(pins, a, b, mode, STDIO);
    SameCase(pins, a, b, mode, HTTP);
  }

  lemma SameHeader(pins: Pins, r: Value, s: Value)
    requires SameReport(r, s)
    ensures HeaderOk(pins, r) <==> HeaderOk(pins, s)
    ensures r.Get(OfficialConformance) == s.Get(OfficialConformance)
    ensures r.Get(BaselineKind) == s.Get(BaselineKind) && r.Get(AutomaticAuthRequired) == s.Get(AutomaticAuthRequired)
  {
    assert r.Get(SchemaVersion) == s.Get(SchemaVersion) && r.Get(VersionCheck) == s.Get(VersionCheck);
    assert r.Get(ModernFeatureEnablement) == s.Get(ModernFeatureEnablement);
    assert r.Get(OfficialConformance) == s.Get(OfficialConformance);
  }

  /** Same evidence, same observations, same completeness. */
  lemma SameReading(pins: Pins, r: Value, s: Value)
    requires SameReport(r, s)
    ensures Observations(pins, r) == Observations(pins, s)
    ensures WellFormed(pins, r) <==> WellFormed(pins, s)
  {
    var a, b := r.Get(Cases).items, s.Get(Cases).items;
    SameHeader(pins, r, s);
    SameModes(pins, a, b, pins.modes);
    SameShapes(pins, a, b);
    CompleteByMode(pins, r);
    CompleteByMode(pins, s);
    EachModeComplete(pins, r, a, pins.modes);
    EachModeComplete(pins, s, b, pins.modes);
    forall m | m in pins.modes
      ensures ModeComplete(pins, r, a, m) <==> ModeComplete(pins, s, b, m)
    {
      SameModeComplete(pins, r, s, m);
    }
  }

  /** Only evidence changes a verdict, on either side of the gate. */
  lemma EvidenceDecides(pins: Pins, r: Value, s: Value, other: Value)
    requires SameReport(r, s) && other.Object?
    ensures Passes(pins, r, other) <==> Passes(pins, s, other)
    ensures Passes(pins, other, r) <==> Passes(pins, other, s)
  {
    SameReading(pins, r, s);
    SameHeader(pins, r, s);
  }

  // ---------- Rewritings that keep the evidence ----------

  lemma StemOfNumbered(stem: string, number: string)
    requires stem != "" && Strings.Digits(number)
    ensures StableName(stem + "#" + number) == stem
  {
    var name := stem + "#" + number;
    assert name == stem + ("#" + number) && ("#" + number)[1..] == number;
    Strings.LastIndexBehind(stem, "#" + number, '#');
    assert name[|stem| + 1..] == number && name[..|stem|] == stem;
  }

  lemma SameButName(check: Value, renamed: Value)
    requires check.Object? && renamed.Object?
    requires forall k | k != Name :: check.Get(k) == renamed.Get(k)
    ensures SameExceptName(check, renamed)
  {
  }

  predicate SameExceptName(check: Value, renamed: Value)
    requires check.Object? && renamed.Object?
  {
    && check.Get(Source) == renamed.Get(Source) && check.Get(Scenario) == renamed.Get(Scenario)
    && check.Get(CheckId) == renamed.Get(CheckId)
    && check.Get(Status) == renamed.Get(Status) && check.Get(Success) == renamed.Get(Success)
  }

  lemma NameHardlyMatters(mode: string, transport: string, check: Value, renamed: Value, old_: string, new_: string)
    requires check.Object? && renamed.Object? && SameExceptName(check, renamed)
    requires check.Get(Name) == Text(old_) && renamed.Get(Name) == Text(new_) && old_ != "" && new_ != ""
    requires check.Get(CheckId).Text? || StableName(old_) == StableName(new_)
    ensures CheckObservation(mode, transport, check) == CheckObservation(mode, transport, renamed)
  {
  }

  /** Without an upstream id a check is known by its name without the arrival number. */
  lemma RenumberingIsNoEvidence(mode: string, transport: string, check: Value, renamed: Value, stem: string, from: string, to: string)
    requires check.Object? && renamed.Object?
    requires forall k | k != Name :: check.Get(k) == renamed.Get(k)
    requires stem != "" && Strings.Digits(from) && Strings.Digits(to)
    requires check.Get(Name) == Text(stem + "#" + from) && renamed.Get(Name) == Text(stem + "#" + to)
    ensures CheckObservation(mode, transport, check) == CheckObservation(mode, transport, renamed)
  {
    SameButName(check, renamed);
    StemOfNumbered(stem, from);
    StemOfNumbered(stem, to);
    NameHardlyMatters(mode, transport, check, renamed, stem + "#" + from, stem + "#" + to);
  }

  /** With an upstream id the name does not matter at all. */
  lemma UpstreamIdIsStable(mode: string, transport: string, check: Value, renamed: Value)
    requires check.Object? && renamed.Object?
    requires forall k | k != Name :: check.Get(k) == renamed.Get(k)
    requires check.Get(CheckId).Text?
    requires check.Get(Name).Text? && check.Get(Name).text != "" && renamed.Get(Name).Text? && renamed.Get(Name).text != ""
    ensures CheckObservation(mode, transport, check) == CheckObservation(mode, transport, renamed)
  {
    SameButName(check, renamed);
    NameHardlyMatters(mode, transport, check, renamed, check.Get(Name).text, renamed.Get(Name).text);
  }

  /** Two checks that differ at most in their arrival number. */
  ghost predicate Renumbered(check: Value, renamed: Value, stem: string, from: string, to: string) {
    && check.Object? && renamed.Object?
    && (forall k | k != Name :: check.Get(k) == renamed.Get(k))
    && stem != "" && Strings.Digits(from) && Strings.Digits(to)
    && check.Get(Name) == Text(stem + "#" + from) && renamed.Get(Name) == Text(stem + "#" + to)
  }

  /** Two checks with one upstream id that differ at most in their names. */
  ghost predicate Renamed(check: Value, renamed: Value) {
    && check.Object? && renamed.Object?
    && (forall k | k != Name :: check.Get(k) == renamed.Get(k))
    && check.Get(CheckId).Text?
    && check.Get(Name).Text? && check.Get(Name).text != "" && renamed.Get(Name).Text? && renamed.Get(Name).text != ""
  }

  /** The same check, seen again. */
  ghost predicate Echoes(a: Value, b: Value) {
    a == b || Renamed(a, b) || exists stem, from, to :: Renumbered(a, b, stem, from, to)
  }

  lemma EchoesSayTheSame(mode: string, transport: string, a: Value, b: Value)
    requires Echoes(a, b)
    ensures CheckObservation(mode, transport, a) == CheckObservation(mode, transport, b)
  {
    if a == b {
    } else if Renamed(a, b) {
      UpstreamIdIsStable(mode, transport, a, b);
    } else {
      var stem, from, to :| Renumbered(a, b, stem, from, to);
      RenumberingIsNoEvidence(mode, transport, a, b, stem, from, to);
    }
  }

  ghost predicate EachEchoed(a: seq<Value>, b: seq<Value>) {
    forall i | 0 <= i < |a| :: exists j :: 0 <= j < |b| && Echoes(a[i], b[j])
  }

  lemma EchoedOutcomes(mode: string, transport: string, a: seq<Value>, b: seq<Value>)
    requires EachEchoed(a, b)
    ensures Outcomes(mode, transport, a) <= Outcomes(mode, transport, b)
  {
    forall x | x in Outcomes(mode, transport, a)
      ensures x in Outcomes(mode, transport, b)
    {
      var i :| 0 <= i < |a| && CheckObservation(mode, transport, a[i]) == x;
      var j :| 0 <= j < |b| && Echoes(a[i], b[j]);
      EchoesSayTheSame(mode, transport, a[i], b[j]);
      assert b[j] in b;
    }
  }

  /** The same checks in any order, any number of times, under any arrival numbers. */
  ghost predicate RerunCase(a: Value, b: Value) {
    && a.Object? && b.Object?
    && a.Get(Mode) == b.Get(Mode) && a.Get(Transport) == b.Get(Transport)
    && a.Get(Checks).List? && b.Get(Checks).List?
    && EachEchoed(a.Get(Checks).items, b.Get(Checks).items) && EachEchoed(b.Get(Checks).items, a.Get(Checks).items)
  }

  ghost predicate RerunReport(r: Value, s: Value) {
    && r.Object? && s.Object?
    && (forall k | k != Cases :: r.Get(k) == s.Get(k))
    && r.Get(BaselineKind) == Null
    && r.Get(Cases).List? && s.Get(Cases).List?
    && |r.Get(Cases).items| == |s.Get(Cases).items|
    && forall i | 0 <= i < |r.Get(Cases).items| :: RerunCase(r.Get(Cases).items[i], s.Get(Cases).items[i])
  }

  lemma RerunIsSameEvidence(a: Value, b: Value)
    requires RerunCase(a, b)
    ensures SameEvidence(a, b)
  {
    forall m, t
      ensures Outcomes(m, t, a.Get(Checks).items) == Outcomes(m, t, b.Get(Checks).items)
    {
      EchoedOutcomes(m, t, a.Get(Checks).items, b.Get(Checks).items);
      EchoedOutcomes(m, t, b.Get(Checks).items, a.Get(Checks).items);
    }
  }

  /** Neither the order of the checks, nor how often they arrive, nor their arrival numbers change a verdict. */
  lemma RerunsGetTheSameVerdict(pins: Pins, r: Value, s: Value, other: Value)
    requires RerunReport(r, s) && other.Object?
    ensures Passes(pins, r, other) <==> Passes(pins, s, other)
    ensures Passes(pins, other, r) <==> Passes(pins, other, s)
  {
    var a, b := r.Get(Cases).items, s.Get(Cases).items;
    forall i | 0 <= i < |a|
      ensures SameEvidence(a[i], b[i])
    {
      RerunIsSameEvidence(a[i], b[i]);
    }
    EvidenceDecides(pins, r, s, other);
  }
}
