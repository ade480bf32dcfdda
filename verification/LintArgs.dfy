/**
 The argument wrapper of the argument-comment lint
 (tools/argument-comment-lint/wrapper_common.py): defaults are added around the
 user's arguments, and adding them again changes nothing.
 */
module LintArgs {

  datatype Expected = Nothing | ManifestPath | PackageSelection | LibrarySelection

  datatype Flag = HasManifest | HasPackage | HasNoDeps | HasLibrary | HasFix

  /** What is known after some lint arguments, and whether the next one is a value. */
  datatype Flags = Flags(known: set<Flag>, expected: Expected)
  {
    predicate Has(flag: Flag) {
      flag in known
    }
  }

  const NO_FLAGS := Flags({}, Nothing)

  datatype Parsed = Parsed(lintArgs: seq<string>, cargoArgs: seq<string>, flags: Flags, targetSelected: bool)

  predicate SelectsTarget(arg: string) {
    || arg in {"--all-targets", "--lib", "--bins", "--tests", "--examples", "--benches", "--doc"}
    || arg in {"--bin", "--test", "--example", "--bench"}
    || "--bin=" <= arg || "--test=" <= arg || "--example=" <= arg || "--bench=" <= arg
  }

  /** What a lint argument is when no value is expected. */
  datatype Kind =
    | ManifestOption | ManifestGiven | PackageOption | PackageGiven | FixOption | WorkspaceOption | NoDepsOption
    | LibraryOption | LibraryGiven | OtherArg

  function KindOf(arg: string): Kind {
    if arg == "--manifest-path" then ManifestOption
    else if "--manifest-path=" <= arg then ManifestGiven
    else if arg == "-p" || arg == "--package" then PackageOption
    else if "--package=" <= arg then PackageGiven
    else if arg == "--fix" then FixOption
    else if arg == "--workspace" then WorkspaceOption
    else if arg == "--no-deps" then NoDepsOption
    else if arg == "--lib" || arg == "--lib-path" then LibraryOption
    else if "--lib=" <= arg || "--lib-path=" <= arg then LibraryGiven
    else OtherArg
  }

  /** The flag an argument sets: as the value that was expected, or by itself. */
  function Gain(expected: Expected, kind: Kind): set<Flag> {
    match expected
    case ManifestPath => {HasManifest}
    case PackageSelection => {HasPackage}
    case LibrarySelection => {HasLibrary}
    case Nothing =>
      match kind
      case ManifestGiven => {HasManifest}
      case PackageGiven => {HasPackage}
      case WorkspaceOption => {HasPackage}
      case FixOption => {HasFix}
      case NoDepsOption => {HasNoDeps}
      case LibraryGiven => {HasLibrary}
      case _ => {}
  }

  function NextExpected(expected: Expected, kind: Kind): Expected {
    if expected != Nothing then Nothing
    else match kind
      case ManifestOption => ManifestPath
      case PackageOption => PackageSelection
      case LibraryOption => LibrarySelection
      case _ => Nothing
  }

  function ReadKind(f: Flags, kind: Kind): Flags {
    Flags(f.known + Gain(f.expected, kind), NextExpected(f.expected, kind))
  }

  function ReadKinds(f: Flags, kinds: seq<Kind>): Flags {
    if kinds == [] then f else ReadKind(ReadKinds(f, kinds[..|kinds| - 1]), kinds[|kinds| - 1])
  }

  function Kinds(args: seq<string>): seq<Kind> {
    seq(|args|, i requires 0 <= i < |args| => KindOf(args[i]))
  }

  function ReadLintArgs(f: Flags, args: seq<string>): Flags {
    ReadKinds(f, Kinds(args))
  }

  predicate AnyTarget(args: seq<string>) {
    exists i :: 0 <= i < |args| && SelectsTarget(args[i])
  }

  /** Position of the first separator, or the length. */
  function Separator(argv: seq<string>): (n: nat)
    ensures n <= |argv| && "--" !in argv[..n]
    ensures n < |argv| ==> argv[n] == "--"
  {
    if argv == [] || argv[0] == "--" then 0
    else
      var n := Separator(argv[1..]);
      assert argv[..n + 1] == [argv[0]] + argv[1..][..n];
      n + 1
  }

  function Parse(argv: seq<string>): Parsed {
    var n := Separator(argv);
    var cargo := if n < |argv| then argv[n + 1..] else [];
    Parsed(argv[..n], cargo, ReadLintArgs(NO_FLAGS, argv[..n]), AnyTarget(cargo))
  }

  method ParseWrapperArgs(argv: seq<string>) returns (parsed: Parsed)
    ensures parsed == Parse(argv)
  {
    var lint: seq<string>, cargo: seq<string> := [], [];
    var flags, targetSelected, afterSeparator := NO_FLAGS, false, false;
    ghost var split := Separator(argv);
    for i := 0 to |argv|
      invariant afterSeparator <==> i > split
      invariant lint == argv[..if i < split then i else split]
      invariant flags == ReadLintArgs(NO_FLAGS, lint)
      invariant cargo == if i > split then argv[split + 1..i] else []
      invariant targetSelected <==> AnyTarget(cargo)
    {
      var arg := argv[i];
      if afterSeparator {
        TargetGrows(cargo, arg);
        CargoStep(argv, split, i);
        cargo := cargo + [arg];
        if SelectsTarget(arg) {
          targetSelected := true;
        }
        continue;
      }
      LintStep(argv, "--", split, i);
      if arg == "--" {
        afterSeparator := true;
        continue;
      }
      ReadNext(NO_FLAGS, lint, arg);
      lint := lint + [arg];
      var kind := KindOf(arg);
      flags := Flags(flags.known + Gain(flags.expected, kind), NextExpected(flags.expected, kind));
    }
    assert cargo == if split < |argv| then argv[split + 1..] else [];
    parsed := Parsed(lint, cargo, flags, targetSelected);
  }

  lemma LintStep<T>(argv: seq<T>, separator: T, split: nat, i: nat)
    requires i < |argv| && i <= split <= |argv|
    requires separator !in argv[..split] && (split < |argv| ==> argv[split] == separator)
    ensures argv[i] == separator <==> i == split
    ensures argv[..i + 1] == argv[..i] + [argv[i]]
  {
    assert i < split ==> argv[i] == argv[..split][i];
  }

  lemma CargoStep(argv: seq<string>, split: nat, i: nat)
    requires split < i < |argv|
    ensures argv[split + 1..i + 1] == argv[split + 1..i] + [argv[i]]
  {
  }

  lemma ReadNext(f: Flags, args: seq<string>, arg: string)
    ensures ReadLintArgs(f, args + [arg]) == ReadKind(ReadLintArgs(f, args), KindOf(arg))
  {
    assert Kinds(args + [arg])[..|args|] == Kinds(args);
  }

  lemma TargetGrows(args: seq<string>, arg: string)
    ensures AnyTarget(args + [arg]) <==> AnyTarget(args) || SelectsTarget(arg)
  {
    if AnyTarget(args) {
      var i :| 0 <= i < |args| && SelectsTarget(args[i]);
      assert (args + [arg])[i] == args[i];
    }
    if SelectsTarget(arg) {
      assert (args + [arg])[|args|] == arg;
    }
  }

  // ---------- Rebuilding ----------

  function Front(p: Parsed, manifestPath: string): seq<string> {
    (if p.flags.Has(HasManifest) then [] else ["--manifest-path", manifestPath]) +
    (if p.flags.Has(HasPackage) || p.flags.Has(HasManifest) then [] else ["--workspace"]) +
    (if p.flags.Has(HasNoDeps) then [] else ["--no-deps"])
  }

  function CargoArgs(p: Parsed): seq<string> {
    p.cargoArgs + (if p.flags.Has(HasFix) || p.targetSelected then [] else ["--all-targets"])
  }

  function Tail(cargo: seq<string>): seq<string> {
    if cargo == [] then [] else ["--"] + cargo
  }

  /** The user's lint and cargo arguments stay together and in order between the defaults. */
  function BuildFinalArgs(p: Parsed, manifestPath: string): seq<string> {
    (Front(p, manifestPath) + p.lintArgs) + Tail(CargoArgs(p))
  }

  method BuildFinal(p: Parsed, manifestPath: string) returns (finalArgs: seq<string>)
    ensures finalArgs == BuildFinalArgs(p, manifestPath)
  {
    finalArgs := [];
    var cargoArgs := p.cargoArgs;
    if !p.flags.Has(HasManifest) {
      finalArgs := finalArgs + ["--manifest-path", manifestPath];
    }
    if !p.flags.Has(HasPackage) && !p.flags.Has(HasManifest) {
      finalArgs := finalArgs + ["--workspace"];
    }
    if !p.flags.Has(HasNoDeps) {
      finalArgs := finalArgs + ["--no-deps"];
    }
    assert finalArgs == Front(p, manifestPath);
    if !p.flags.Has(HasFix) && !p.targetSelected {
      cargoArgs := cargoArgs + ["--all-targets"];
    }
    assert cargoArgs == CargoArgs(p);
    finalArgs := finalArgs + p.lintArgs;
    if cargoArgs != [] {
      finalArgs := finalArgs + (["--"] + cargoArgs);
    }
  }

  lemma {:induction false} SeparatorAfter(lint: seq<string>, rest: seq<string>)
    requires "--" !in lint && (rest == [] || rest[0] == "--")
    ensures Separator(lint + rest) == |lint|
  {
    if lint == [] {
      assert lint + rest == rest;
    } else {
      assert (lint + rest)[1..] == lint[1..] + rest;
      assert lint[0] in lint;
      SeparatorAfter(lint[1..], rest);
    }
  }

  lemma ParseOfBuilt(lint: seq<string>, cargo: seq<string>)
    requires "--" !in lint
    ensures Parse(lint + Tail(cargo)) == Parsed(lint, cargo, ReadLintArgs(NO_FLAGS, lint), AnyTarget(cargo))
  {
    var argv := lint + Tail(cargo);
    SeparatorAfter(lint, Tail(cargo));
    assert argv[..|lint|] == lint;
    if cargo != [] {
      assert argv[|lint| + 1..] == cargo;
    }
  }

  lemma {:induction false} ReadKindsConcat(f: Flags, a: seq<Kind>, b: seq<Kind>)
    ensures ReadKinds(f, a + b) == ReadKinds(ReadKinds(f, a), b)
  {
    if b == [] {
      assert a + b == a;
    } else {
      var n := |b| - 1;
      ReadKindsConcat(f, a, b[..n]);
      assert (a + b)[..|a| + n] == a + b[..n];
    }
  }

  lemma ReadConcat(f: Flags, a: seq<string>, b: seq<string>)
    ensures ReadLintArgs(f, a + b) == ReadLintArgs(ReadLintArgs(f, a), b)
  {
    KindsConcat(a, b);
    ReadKindsConcat(f, Kinds(a), Kinds(b));
  }

  lemma KindsConcat(a: seq<string>, b: seq<string>)
    ensures Kinds(a + b) == Kinds(a) + Kinds(b)
  {
    var both := a + b;
    assert forall i | 0 <= i < |both| :: both[i] == if i < |a| then a[i] else b[i - |a|];
  }

  /** Flags already set stay set and change nothing else. */
  lemma {:induction false} ReadFrom(known: set<Flag>, kinds: seq<Kind>)
    ensures ReadKinds(Flags(known, Nothing), kinds) ==
            Flags(known + ReadKinds(NO_FLAGS, kinds).known, ReadKinds(NO_FLAGS, kinds).expected)
  {
    if kinds == [] {
      assert known + {} == known;
    } else {
      var n := |kinds| - 1;
      ReadFrom(known, kinds[..n]);
      var before := ReadKinds(NO_FLAGS, kinds[..n]);
      var gain := Gain(before.expected, kinds[n]);
      assert (known + before.known) + gain == known + (before.known + gain);
    }
  }

  lemma DefaultKinds()
    ensures KindOf("--manifest-path") == ManifestOption
    ensures KindOf("--workspace") == WorkspaceOption && KindOf("--no-deps") == NoDepsOption
    ensures SelectsTarget("--all-targets")
    ensures "--manifest-path" != "--" && "--workspace" != "--" && "--no-deps" != "--"
  {
    assert "--workspace"[2] == 'w' && "--no-deps"[2] == 'n';
    assert |"--workspace"| == 11 && |"--no-deps"| == 9 && |"--"| == 2;
  }

  lemma ReadPair(manifestPath: string)
    ensures ReadLintArgs(NO_FLAGS, ["--manifest-path", manifestPath]) == Flags({HasManifest}, Nothing)
  {
    DefaultKinds();
    var kinds := Kinds(["--manifest-path", manifestPath]);
    assert kinds[..1] == [ManifestOption] && kinds[..1][..0] == [];
    assert ReadKinds(NO_FLAGS, kinds[..1]) == Flags({}, ManifestPath);
  }

  lemma ReadOne(f: Flags, arg: string)
    ensures ReadLintArgs(f, [arg]) == ReadKind(f, KindOf(arg))
    ensures ReadLintArgs(f, []) == f
  {
    ReadNext(f, [], arg);
    assert [] + [arg] == [arg];
  }

  function FrontFlags(p: Parsed): set<Flag> {
    (if p.flags.Has(HasManifest) then {} else {HasManifest}) +
    (if p.flags.Has(HasPackage) || p.flags.Has(HasManifest) then {} else {HasPackage}) +
    (if p.flags.Has(HasNoDeps) then {} else {HasNoDeps})
  }

  lemma ReadFront(p: Parsed, manifestPath: string)
    ensures ReadLintArgs(NO_FLAGS, Front(p, manifestPath)) == Flags(FrontFlags(p), Nothing)
  {
    var a := if p.flags.Has(HasManifest) then [] else ["--manifest-path", manifestPath];
    var b := if p.flags.Has(HasPackage) || p.flags.Has(HasManifest) then [] else ["--workspace"];
    var c := if p.flags.Has(HasNoDeps) then [] else ["--no-deps"];
    DefaultKinds();
    ReadPair(manifestPath);
    ReadConcat(NO_FLAGS, a, b);
    ReadConcat(NO_FLAGS, a + b, c);
    var f := ReadLintArgs(NO_FLAGS, a);
    ReadOne(f, "--workspace");
    ReadOne(ReadLintArgs(f, b), "--no-deps");
  }

  /** Reading back what was built finds the user's arguments behind the defaults. */
  lemma ParseOfFinal(argv: seq<string>, manifestPath: string)
    requires Parse(argv).flags.Has(HasManifest) || manifestPath != "--"
    ensures var p := Parse(argv);
            var again := Parse(BuildFinalArgs(p, manifestPath));
            && again.lintArgs == Front(p, manifestPath) + p.lintArgs
            && again.cargoArgs == CargoArgs(p)
            && again.flags == Flags(FrontFlags(p) + p.flags.known, p.flags.expected)
            && again.targetSelected == AnyTarget(CargoArgs(p))
  {
    var p := Parse(argv);
    var front := Front(p, manifestPath);
    DefaultKinds();
    assert "--" !in front + p.lintArgs;
    ParseOfBuilt(front + p.lintArgs, CargoArgs(p));
    ReadConcat(NO_FLAGS, front, p.lintArgs);
    ReadFront(p, manifestPath);
    ReadFrom(FrontFlags(p), Kinds(p.lintArgs));
  }

  /**
   What is run always has a manifest, `--no-deps`, and targets unless it fixes; it
   has a scope exactly when the user gave one or left the manifest to the wrapper.
   */
  lemma FinalIsComplete(argv: seq<string>, manifestPath: string)
    requires Parse(argv).flags.Has(HasManifest) || manifestPath != "--"
    ensures var p := Parse(argv);
            var again := Parse(BuildFinalArgs(p, manifestPath));
            && {HasManifest, HasNoDeps} <= again.flags.known
            && (again.flags.Has(HasPackage) <==> p.flags.Has(HasPackage) || !p.flags.Has(HasManifest))
            && (again.flags.Has(HasFix) || again.targetSelected)
            && p.flags.known <= again.flags.known
            && p.cargoArgs <= again.cargoArgs
  {
    var p := Parse(argv);
    ParseOfFinal(argv, manifestPath);
    FinalFlags(p);
    FinalTargets(p, AnyTarget(p.cargoArgs));
  }

  lemma FinalFlags(p: Parsed)
    ensures var known := FrontFlags(p) + p.flags.known;
            && {HasManifest, HasNoDeps} <= known && p.flags.known <= known
            && (HasPackage in known <==> p.flags.Has(HasPackage) || !p.flags.Has(HasManifest))
            && (HasFix in known <==> p.flags.Has(HasFix))
  {
  }

  lemma FinalTargets(p: Parsed, selected: bool)
    requires p.targetSelected == selected == AnyTarget(p.cargoArgs)
    ensures p.cargoArgs <= CargoArgs(p) && (p.flags.Has(HasFix) || AnyTarget(CargoArgs(p)))
  {
    DefaultKinds();
    TargetGrows(p.cargoArgs, "--all-targets");
    assert p.cargoArgs + [] == p.cargoArgs;
  }

  lemma NothingToAdd(p: Parsed, again: Parsed, manifestPath: string)
    requires again.lintArgs == Front(p, manifestPath) + p.lintArgs && again.cargoArgs == CargoArgs(p)
    requires again.flags.known == FrontFlags(p) + p.flags.known
    requires again.targetSelected == AnyTarget(CargoArgs(p)) && p.targetSelected == AnyTarget(p.cargoArgs)
    ensures BuildFinalArgs(again, manifestPath) == BuildFinalArgs(p, manifestPath)
  {
    TargetGrows(p.cargoArgs, "--all-targets");
    DefaultKinds();
    assert p.cargoArgs + [] == p.cargoArgs;
    assert Front(again, manifestPath) == [];
    assert CargoArgs(again) == CargoArgs(p);
  }

  lemma RebuildIsStable(argv: seq<string>, manifestPath: string)
    requires Parse(argv).flags.Has(HasManifest) || manifestPath != "--"
    ensures var final_ := BuildFinalArgs(Parse(argv), manifestPath);
            BuildFinalArgs(Parse(final_), manifestPath) == final_
  {
    var p := Parse(argv);
    ParseOfFinal(argv, manifestPath);
    NothingToAdd(p, Parse(BuildFinalArgs(p, manifestPath)), manifestPath);
  }

  lemma LooseFinal(p: Parsed)
    requires !p.flags.Has(HasManifest) && (p.lintArgs == [] ==> p.flags == NO_FLAGS)
    ensures var final_ := BuildFinalArgs(p, "--");
            |final_| > 2 && final_ == ["--manifest-path"] + Tail(final_[2..])
  {
    var b := if p.flags.Has(HasPackage) then [] else ["--workspace"];
    var c := if p.flags.Has(HasNoDeps) then [] else ["--no-deps"];
    assert Front(p, "--") == ["--manifest-path", "--"] + b + c;
    SplitAfterTwo("--manifest-path", "--", b, c, p.lintArgs, Tail(CargoArgs(p)));
  }

  lemma SplitAfterTwo<T>(x: T, y: T, b: seq<T>, c: seq<T>, middle: seq<T>, rest: seq<T>)
    requires b != [] || middle != []
    ensures var all := ([x, y] + b + c + middle) + rest;
            |all| > 2 && all == [x] + ([y] + all[2..])
  {
  }

  lemma RebuildGrows(argv: seq<string>)
    requires !Parse(argv).flags.Has(HasManifest)
    ensures var final_ := BuildFinalArgs(Parse(argv), "--");
            |BuildFinalArgs(Parse(final_), "--")| > |final_|
  {
    var final_ := BuildFinalArgs(Parse(argv), "--");
    LooseFinal(Parse(argv));
    DefaultKinds();
    ParseOfBuilt(["--manifest-path"], final_[2..]);
    ReadOne(NO_FLAGS, "--manifest-path");
    LooseLength(Parse(final_));
  }

  lemma LooseLength(p: Parsed)
    requires !p.flags.Has(HasManifest) && p.cargoArgs != []
    ensures |BuildFinalArgs(p, "--")| >= 3 + |p.lintArgs| + |p.cargoArgs|
  {
  }

  /** Rebuilding is a fixed point for every argv, exactly when the manifest path cannot be taken for the separator. */
  lemma RebuildIsFixedPointExactly(argv: seq<string>, manifestPath: string)
    ensures var final_ := BuildFinalArgs(Parse(argv), manifestPath);
            BuildFinalArgs(Parse(final_), manifestPath) == final_ <==>
            Parse(argv).flags.Has(HasManifest) || manifestPath != "--"
  {
    if Parse(argv).flags.Has(HasManifest) || manifestPath != "--" {
      RebuildIsStable(argv, manifestPath);
    } else {
      RebuildGrows(argv);
    }
  }

  // ---------- The lint environment ----------

  type Vars = map<string, string>

  const FLAGS_KEY := "DYLINT_RUSTFLAGS"
  const INCREMENTAL_KEY := "CARGO_INCREMENTAL"
  const DENY_MISMATCH := "-D argument-comment-mismatch"
  const DENY_UNCOMMENTED := "-D uncommented-anonymous-literal-argument"
  const ALLOW_UNKNOWN := "-A unknown_lints"

  /** `sub in s` for strings. */
  predicate Contains(s: string, sub: string) {
    exists i :: 0 <= i <= |s| && sub <= s[i..]
  }

  function Value(vars: Vars, key: string): string {
    if key in vars then vars[key] else ""
  }

  function AppendFlag(vars: Vars, key: string, flag: string): Vars {
    var value := Value(vars, key);
    if value == "" then vars[key := flag]
    else if Contains(value, flag) then vars
    else vars[key := value + " " + flag]
  }

  function WithFlags(vars: Vars): Vars {
    AppendFlag(AppendFlag(AppendFlag(vars, FLAGS_KEY, DENY_MISMATCH), FLAGS_KEY, DENY_UNCOMMENTED), FLAGS_KEY, ALLOW_UNKNOWN)
  }

  function LintEnv(vars: Vars): Vars {
    var flagged := WithFlags(vars);
    if Value(flagged, INCREMENTAL_KEY) == "" then flagged[INCREMENTAL_KEY := "0"] else flagged
  }

  class Environment {
    var vars: Vars

    constructor (vars: Vars)
      ensures this.vars == vars
    {
      this.vars := vars;
    }

    method AppendEnvFlag(key: string, flag: string)
      modifies this
      ensures vars == AppendFlag(old(vars), key, flag)
    {
      if key !in vars || vars[key] == "" {
        vars := vars[key := flag];
        return;
      }
      if !Contains(vars[key], flag) {
        vars := vars[key := vars[key] + " " + flag];
      }
    }

    method SetDefaultLintEnv()
      modifies this
      ensures vars == LintEnv(old(vars))
    {
      AppendEnvFlag(FLAGS_KEY, DENY_MISMATCH);
      AppendEnvFlag(FLAGS_KEY, DENY_UNCOMMENTED);
      AppendEnvFlag(FLAGS_KEY, ALLOW_UNKNOWN);
      if INCREMENTAL_KEY !in vars || vars[INCREMENTAL_KEY] == "" {
        vars := vars[INCREMENTAL_KEY := "0"];
      }
    }
  }

  lemma ContainsPrefix(s: string, more: string, sub: string)
    ensures Contains(s, sub) ==> Contains(s + more, sub)
  {
    if Contains(s, sub) {
      var i :| 0 <= i <= |s| && sub <= s[i..];
      assert (s + more)[i..] == s[i..] + more;
    }
  }

  lemma ContainsSuffix(s: string, sub: string)
    ensures Contains(s + " " + sub, sub) && Contains(sub, sub)
  {
    assert (s + " " + sub)[|s| + 1..] == sub && sub[0..] == sub;
  }

  /** A flag once present stays present, and appending it again does nothing. */
  lemma AppendedFlag(vars: Vars, key: string, flag: string, other: string)
    requires flag != ""
    ensures var after := AppendFlag(vars, key, flag);
            && Value(after, key) != "" && Contains(Value(after, key), flag)
            && (Value(vars, key) != "" && Contains(Value(vars, key), other) ==> Contains(Value(after, key), other))
            && AppendFlag(after, key, flag) == after
            && forall k | k != key :: (k in after <==> k in vars) && Value(after, k) == Value(vars, k)
  {
    var value := Value(vars, key);
    ContainsSuffix(value, flag);
    ContainsPrefix(value, " " + flag, other);
    assert value + " " + flag == value + (" " + flag);
  }

  predicate Flagged(vars: Vars) {
    && Value(vars, FLAGS_KEY) != ""
    && Contains(Value(vars, FLAGS_KEY), DENY_MISMATCH)
    && Contains(Value(vars, FLAGS_KEY), DENY_UNCOMMENTED)
    && Contains(Value(vars, FLAGS_KEY), ALLOW_UNKNOWN)
  }

  lemma WithFlagsFlags(vars: Vars)
    ensures Flagged(WithFlags(vars))
  {
    var a := AppendFlag(vars, FLAGS_KEY, DENY_MISMATCH);
    var b := AppendFlag(a, FLAGS_KEY, DENY_UNCOMMENTED);
    AppendedFlag(vars, FLAGS_KEY, DENY_MISMATCH, DENY_MISMATCH);
    AppendedFlag(a, FLAGS_KEY, DENY_UNCOMMENTED, DENY_MISMATCH);
    AppendedFlag(b, FLAGS_KEY, ALLOW_UNKNOWN, DENY_MISMATCH);
    AppendedFlag(b, FLAGS_KEY, ALLOW_UNKNOWN, DENY_UNCOMMENTED);
  }

  /** The lint environment is complete after one pass, and a second pass changes nothing. */
  lemma LintEnvIdempotent(vars: Vars)
    ensures Flagged(LintEnv(vars)) && Value(LintEnv(vars), INCREMENTAL_KEY) != ""
    ensures LintEnv(LintEnv(vars)) == LintEnv(vars)
  {
    WithFlagsFlags(vars);
    assert |FLAGS_KEY| == 16 && |INCREMENTAL_KEY| == 17;
  }
}
