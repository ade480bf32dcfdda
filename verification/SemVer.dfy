/**
 Version precedence as the self-updater compares it
 (codex-cli/bin/codex-agents-update.js), against section 11 of Semantic
 Versioning 2.0.0.  Numeric parts are unbounded integers; the JavaScript numbers
 behind them are exact below 2^53.
 */
module SemVer {
  import opened Options
  import opened Orders
  import opened Strings

  datatype Version = Version(core: seq<nat>, prerelease: seq<string>)

  predicate PrereleaseChar(c: char) {
    Digit(c) || 'A' <= c <= 'Z' || 'a' <= c <= 'z' || c == '.' || c == '-'
  }

  predicate PrereleaseText(s: string) {
    s != "" && forall c | c in s :: PrereleaseChar(c)
  }

  /** The number a string of digits stands for. */
  function Value(s: string): nat {
    if s == "" then 0
    else
      var c := s[|s| - 1];
      10 * Value(s[..|s| - 1]) + (if Digit(c) then (c - '0') as nat else 0)
  }

  /** `split(".")`: never empty, and joining it gives the text back. */
  function SplitDots(s: string): (parts: seq<string>)
    ensures parts != []
    ensures forall p | p in parts :: '.' !in p
  {
    if s == "" then [""]
    else
      var rest := SplitDots(s[1..]);
      if s[0] == '.' then [""] + rest else [[s[0]] + rest[0]] + rest[1..]
  }

  function JoinDots(parts: seq<string>): string
    requires parts != []
  {
    if |parts| == 1 then parts[0] else parts[0] + "." + JoinDots(parts[1..])
  }

  lemma {:induction false} JoinSplit(s: string)
    ensures JoinDots(SplitDots(s)) == s
  {
    if s == "" {
    } else {
      JoinSplit(s[1..]);
      var rest, parts := SplitDots(s[1..]), SplitDots(s);
      if s[0] == '.' {
        assert parts[1..] == rest;
      } else {
        assert parts[0] == [s[0]] + rest[0] && parts[1..] == rest[1..];
      }
    }
  }

  // ---------- Parsing ----------

  /** Length of the run of digits at the front. */
  function Run(s: string): (n: nat)
    ensures n <= |s|
    ensures forall i | 0 <= i < n :: Digit(s[i])
    ensures n < |s| ==> !Digit(s[n])
  {
    if s == "" || !Digit(s[0]) then 0 else 1 + Run(s[1..])
  }

  function ParsePrerelease(s: string): Option<seq<string>> {
    if s == "" then Some([])
    else if s[0] == '-' && PrereleaseText(s[1..]) then Some(SplitDots(s[1..]))
    else None
  }

  /** A number followed by a dot, and what follows the dot. */
  function ParsePart(s: string): Option<(nat, string)> {
    var n := Run(s);
    if n == 0 || n == |s| || s[n] != '.' then None else Some((Value(s[..n]), s[n + 1..]))
  }

  function ParseLast(s: string): Option<(nat, seq<string>)> {
    var n := Run(s);
    var pre := ParsePrerelease(s[n..]);
    if n == 0 || pre.None? then None else Some((Value(s[..n]), pre.value))
  }

  function ParseVersion(s: string): Option<Version> {
    var major := ParsePart(s);
    if major.None? then None
    else
      var minor := ParsePart(major.value.1);
      if minor.None? then None
      else
        var patch := ParseLast(minor.value.1);
        if patch.None? then None
        else Some(Version([major.value.0, minor.value.0, patch.value.0], patch.value.1))
  }

  function PrereleaseSuffix(pre: Option<string>): string {
    if pre.Some? then "-" + pre.value else ""
  }

  function Compose(a: string, b: string, c: string, pre: Option<string>): string {
    a + ("." + (b + ("." + (c + PrereleaseSuffix(pre)))))
  }

  predicate Composable(a: string, b: string, c: string, pre: Option<string>) {
    Digits(a) && Digits(b) && Digits(c) && (pre.Some? ==> PrereleaseText(pre.value))
  }

  lemma {:induction false} RunStops(digits: string, rest: string)
    requires forall c | c in digits :: Digit(c)
    requires rest == "" || !Digit(rest[0])
    ensures Run(digits + rest) == |digits|
  {
    if digits == "" {
      assert digits + rest == rest;
    } else {
      assert (digits + rest)[1..] == digits[1..] + rest;
      RunStops(digits[1..], rest);
    }
  }

  lemma PartAccepts(digits: string, rest: string)
    requires Digits(digits)
    ensures ParsePart(digits + ("." + rest)) == Some((Value(digits), rest))
  {
    var s := digits + ("." + rest);
    RunStops(digits, "." + rest);
    assert s[..|digits|] == digits && s[|digits| + 1..] == rest;
  }

  lemma LastAccepts(digits: string, pre: Option<string>)
    requires Digits(digits) && (pre.Some? ==> PrereleaseText(pre.value))
    ensures ParseLast(digits + PrereleaseSuffix(pre)) ==
            Some((Value(digits), if pre.Some? then SplitDots(pre.value) else []))
  {
    var suffix := PrereleaseSuffix(pre);
    var s := digits + suffix;
    RunStops(digits, suffix);
    assert s[..|digits|] == digits && s[|digits|..] == suffix;
    if pre.Some? {
      assert suffix[1..] == pre.value;
    }
  }

  /** Every string of the grammar parses, to the numbers and identifiers written in it. */
  lemma ParseAccepts(a: string, b: string, c: string, pre: Option<string>)
    requires Composable(a, b, c, pre)
    ensures ParseVersion(Compose(a, b, c, pre)) ==
            Some(Version([Value(a), Value(b), Value(c)], if pre.Some? then SplitDots(pre.value) else []))
  {
    PartAccepts(a, b + ("." + (c + PrereleaseSuffix(pre))));
    PartAccepts(b, c + PrereleaseSuffix(pre));
    LastAccepts(c, pre);
  }

  lemma PartRejects(s: string) returns (digits: string)
    requires ParsePart(s).Some?
    ensures Digits(digits) && s == digits + ("." + ParsePart(s).value.1)
  {
    digits := s[..Run(s)];
  }

  lemma LastRejects(s: string) returns (digits: string, pre: Option<string>)
    requires ParseLast(s).Some?
    ensures Digits(digits) && (pre.Some? ==> PrereleaseText(pre.value)) && s == digits + PrereleaseSuffix(pre)
  {
    digits := s[..Run(s)];
    pre := SuffixRejects(s[Run(s)..]);
    assert s == s[..Run(s)] + s[Run(s)..];
  }

  lemma SuffixRejects(suffix: string) returns (pre: Option<string>)
    requires ParsePrerelease(suffix).Some?
    ensures suffix == PrereleaseSuffix(pre) && (pre.Some? ==> PrereleaseText(pre.value))
  {
    pre := if suffix == "" then None else Some(suffix[1..]);
    assert suffix != "" ==> suffix == [suffix[0]] + suffix[1..];
  }

  /** Nothing else parses. */
  lemma ParseRejects(s: string) returns (a: string, b: string, c: string, pre: Option<string>)
    requires ParseVersion(s).Some?
    ensures Composable(a, b, c, pre) && s == Compose(a, b, c, pre)
  {
    var t := ParsePart(s).value.1;
    a := PartRejects(s);
    b := PartRejects(t);
    c, pre := LastRejects(ParsePart(t).value.1);
  }

  // ---------- Section 11 ----------

  predicate SameUpTo<T(==)>(p: seq<T>, q: seq<T>, i: nat) {
    i <= |p| && i <= |q| && p[..i] == q[..i]
  }

  predicate NumbersGreater(p: seq<nat>, q: seq<nat>, i: nat) {
    SameUpTo(p, q, i) && i < |p| && i < |q| && p[i] > q[i]
  }

  /** One pre-release identifier against another. */
  predicate IdentifierGreater(x: string, y: string) {
    if Digits(x) && Digits(y) then Value(x) > Value(y)
    else if Digits(x) then false
    else if Digits(y) then true
    else StringLess(y, x)
  }

  predicate IdentifiersGreater(p: seq<string>, q: seq<string>, i: nat) {
    && SameUpTo(p, q, i) && i < |p|
    && (i == |q| || (i < |q| && IdentifierGreater(p[i], q[i])))
  }

  predicate CoreGreater(a: Version, b: Version) {
    exists i :: 0 <= i < |a.core| && NumbersGreater(a.core, b.core, i)
  }

  predicate PrereleaseGreater(p: seq<string>, q: seq<string>) {
    if p == [] then q != []
    else q != [] && exists i :: 0 <= i < |p| && IdentifiersGreater(p, q, i)
  }

  predicate HigherPrecedence(a: Version, b: Version) {
    CoreGreater(a, b) || (a.core == b.core && PrereleaseGreater(a.prerelease, b.prerelease))
  }

  predicate IsNewer(candidate: string, current: string) {
    var a, b := ParseVersion(candidate), ParseVersion(current);
    a.Some? && b.Some? && HigherPrecedence(a.value, b.value)
  }

  // ---------- The comparison as it is written ----------

  lemma SameExtends<T>(p: seq<T>, q: seq<T>, i: nat)
    requires SameUpTo(p, q, i) && i < |p| && i < |q| && p[i] == q[i]
    ensures SameUpTo(p, q, i + 1)
  {
    assert p[..i + 1] == p[..i] + [p[i]];
  }

  /** Nothing after the first difference matters. */
  lemma FirstDifference<T>(p: seq<T>, q: seq<T>, i: nat, j: nat)
    requires SameUpTo(p, q, i) && i < |p| && (i == |q| || p[i] != q[i])
    requires SameUpTo(p, q, j)
    ensures j <= i
  {
    assert forall k | 0 <= k < j :: p[k] == p[..j][k] == q[..j][k] == q[k];
  }

  method CompareCore(p: seq<nat>, q: seq<nat>) returns (decided: bool, greater: bool)
    requires |p| == |q|
    ensures decided <==> p != q
    ensures greater <==> exists i :: 0 <= i < |p| && NumbersGreater(p, q, i)
  {
    for i := 0 to |p|
      invariant SameUpTo(p, q, i)
    {
      if p[i] != q[i] {
        if p[i] > q[i] {
          assert NumbersGreater(p, q, i);
        }
        forall j | 0 <= j < |p| && NumbersGreater(p, q, j)
          ensures j == i
        {
          FirstDifference(p, q, i, j);
          FirstDifference(p, q, j, i);
        }
        return true, p[i] > q[i];
      }
      SameExtends(p, q, i);
    }
    assert p[..|p|] == p && q[..|q|] == q;
    return false, false;
  }

  lemma DecidedAt(p: seq<string>, q: seq<string>, i: nat)
    requires SameUpTo(p, q, i) && i < |p| && (i == |q| || p[i] != q[i])
    ensures (exists j :: 0 <= j < |p| && IdentifiersGreater(p, q, j)) <==> IdentifiersGreater(p, q, i)
  {
    forall j | 0 <= j < |p| && IdentifiersGreater(p, q, j)
      ensures j == i
    {
      FirstDifference(p, q, i, j);
      if j < i {
        assert p[..i][j] == q[..i][j];
        NotGreaterThanItself(p[j]);
      }
    }
  }

  lemma NotGreaterThanItself(x: string)
    ensures !IdentifierGreater(x, x)
  {
    StringTrichotomy(x, x);
  }

  lemma PrefixIsNotGreater(p: seq<string>, q: seq<string>)
    requires p <= q
    ensures !exists j :: 0 <= j < |p| && IdentifiersGreater(p, q, j)
  {
    forall j | 0 <= j < |p|
      ensures !IdentifiersGreater(p, q, j)
    {
      NotGreaterThanItself(p[j]);
    }
  }

  method ComparePrerelease(p: seq<string>, q: seq<string>) returns (greater: bool)
    requires p != [] && q != []
    ensures greater <==> PrereleaseGreater(p, q)
  {
    var length := if |p| > |q| then |p| else |q|;
    for i := 0 to length
      invariant SameUpTo(p, q, i)
    {
      if i < |p| && i < |q| && p[i] == q[i] {
        SameExtends(p, q, i);
        continue;
      }
      if i == |p| {
        PrefixIsNotGreater(p, q);
        return false;
      }
      DecidedAt(p, q, i);
      if i == |q| {
        return true;
      }
      if Digits(p[i]) && Digits(q[i]) {
        return Value(p[i]) > Value(q[i]);
      }
      if Digits(p[i]) {
        return false;
      }
      if Digits(q[i]) {
        return true;
      }
      return StringLess(q[i], p[i]);
    }
    assert p[..|p|] == p && q[..|q|] == q;
    PrefixIsNotGreater(p, q);
    return false;
  }

  method IsNewerVersion(candidate: string, current: string) returns (newer: bool)
    ensures newer <==> IsNewer(candidate, current)
  {
    var a, b := ParseVersion(candidate), ParseVersion(current);
    if a.None? || b.None? {
      return false;
    }
    var decided, greater := CompareCore(a.value.core, b.value.core);
    if decided {
      return greater;
    }
    if a.value.prerelease == [] {
      return b.value.prerelease != [];
    }
    if b.value.prerelease == [] {
      return false;
    }
    newer := ComparePrerelease(a.value.prerelease, b.value.prerelease);
  }

  // ---------- A strict order on all strings ----------

  lemma IdentifierTransitive(x: string, y: string, z: string)
    requires IdentifierGreater(x, y) && IdentifierGreater(y, z)
    ensures IdentifierGreater(x, z)
  {
    if !Digits(x) && !Digits(y) && !Digits(z) {
      StringTransitive(z, y, x);
    }
  }

  lemma NumbersTransitive(p: seq<nat>, q: seq<nat>, r: seq<nat>, i: nat, j: nat)
    requires NumbersGreater(p, q, i) && NumbersGreater(q, r, j)
    ensures NumbersGreater(p, r, if i < j then i else j)
  {
    var k := if i < j then i else j;
    assert p[..k] == p[..i][..k] && q[..k] == q[..i][..k] && q[..k] == q[..j][..k] && r[..k] == r[..j][..k];
    assert i < j ==> q[i] == q[..j][i] && r[i] == r[..j][i];
    assert j < i ==> q[j] == q[..i][j] && p[j] == p[..i][j];
  }

  lemma IdentifiersTransitive(p: seq<string>, q: seq<string>, r: seq<string>, i: nat, j: nat)
    requires IdentifiersGreater(p, q, i) && IdentifiersGreater(q, r, j)
    ensures IdentifiersGreater(p, r, if i < j then i else j)
  {
    var k := if i < j then i else j;
    assert p[..k] == p[..i][..k] && q[..k] == q[..i][..k] && q[..k] == q[..j][..k] && r[..k] == r[..j][..k];
    if i < j {
      assert q[i] == q[..j][i] && r[i] == r[..j][i];
    } else if j < i {
      assert q[j] == q[..i][j] && p[j] == p[..i][j];
    } else if i < |r| {
      IdentifierTransitive(p[i], q[i], r[i]);
    }
  }

  lemma PrecedenceTransitive(a: Version, b: Version, c: Version)
    requires HigherPrecedence(a, b) && HigherPrecedence(b, c)
    ensures HigherPrecedence(a, c)
  {
    if CoreGreater(a, b) && CoreGreater(b, c) {
      var i :| 0 <= i < |a.core| && NumbersGreater(a.core, b.core, i);
      var j :| 0 <= j < |b.core| && NumbersGreater(b.core, c.core, j);
      NumbersTransitive(a.core, b.core, c.core, i, j);
    } else if !CoreGreater(a, b) && !CoreGreater(b, c) && a.prerelease != [] {
      var i :| 0 <= i < |a.prerelease| && IdentifiersGreater(a.prerelease, b.prerelease, i);
      var j :| 0 <= j < |b.prerelease| && IdentifiersGreater(b.prerelease, c.prerelease, j);
      IdentifiersTransitive(a.prerelease, b.prerelease, c.prerelease, i, j);
    }
  }

  lemma PrecedenceIrreflexive(a: Version)
    ensures !HigherPrecedence(a, a)
  {
    PrefixIsNotGreater(a.prerelease, a.prerelease);
  }

  /** On any strings at all the comparison is a strict order. */
  lemma NewerIsStrictOrder(x: string, y: string, z: string)
    ensures !IsNewer(x, x)
    ensures IsNewer(x, y) ==> !IsNewer(y, x)
    ensures IsNewer(x, y) && IsNewer(y, z) ==> IsNewer(x, z)
  {
    if ParseVersion(x).Some? {
      PrecedenceIrreflexive(ParseVersion(x).value);
    }
    if IsNewer(x, y) && IsNewer(y, x) {
      PrecedenceTransitive(ParseVersion(x).value, ParseVersion(y).value, ParseVersion(x).value);
    }
    if IsNewer(x, y) && IsNewer(y, z) {
      PrecedenceTransitive(ParseVersion(x).value, ParseVersion(y).value, ParseVersion(z).value);
    }
  }

  // ---------- When two versions cannot be ordered ----------

  /** The same number written twice, as "1" and "01". */
  predicate SameNumber(x: string, y: string) {
    x != y && Digits(x) && Digits(y) && Value(x) == Value(y)
  }

  predicate StuckAt(p: seq<string>, q: seq<string>, i: nat) {
    SameUpTo(p, q, i) && i < |p| && i < |q| && SameNumber(p[i], q[i])
  }

  predicate Stuck(p: seq<string>, q: seq<string>) {
    exists i :: 0 <= i < |p| && StuckAt(p, q, i)
  }

  lemma {:induction false} Difference<T>(p: seq<T>, q: seq<T>) returns (i: nat)
    ensures SameUpTo(p, q, i)
    ensures p != q ==> (i < |p| || i < |q|) && (i == |p| || i == |q| || p[i] != q[i])
    ensures p == q ==> i == |p|
  {
    i := 0;
    while i < |p| && i < |q| && p[i] == q[i]
      invariant SameUpTo(p, q, i)
    {
      SameExtends(p, q, i);
      i := i + 1;
    }
    if i == |p| && i == |q| {
      assert p[..i] == p && q[..i] == q;
    }
  }

  lemma PrereleaseTrichotomy(p: seq<string>, q: seq<string>)
    ensures PrereleaseGreater(p, q) || PrereleaseGreater(q, p) || p == q || Stuck(p, q)
    ensures p == q || Stuck(p, q) ==> !PrereleaseGreater(p, q) && !PrereleaseGreater(q, p)
  {
    PrefixIsNotGreater(p, p);
    if p != q && p != [] && q != [] {
      var i := Difference(p, q);
      if i < |p| && i < |q| {
        StringTrichotomy(p[i], q[i]);
        DecidedAt(p, q, i);
        DecidedAt(q, p, i);
        if Stuck(p, q) {
          var k :| 0 <= k < |p| && StuckAt(p, q, k);
          FirstDifference(p, q, i, k);
          FirstDifference(p, q, k, i);
        }
        assert IdentifiersGreater(p, q, i) || IdentifiersGreater(q, p, i) || StuckAt(p, q, i);
      } else if i < |p| {
        assert IdentifiersGreater(p, q, i);
        NotStuckOnPrefix(q, p);
      } else {
        assert IdentifiersGreater(q, p, i);
        NotStuckOnPrefix(p, q);
      }
    }
  }

  lemma NotStuckOnPrefix(p: seq<string>, q: seq<string>)
    requires p <= q
    ensures !Stuck(p, q) && !Stuck(q, p)
  {
  }

  lemma CoreTrichotomy(p: Version, q: Version)
    requires |p.core| == |q.core|
    ensures CoreGreater(p, q) || CoreGreater(q, p) || p.core == q.core
    ensures p.core == q.core ==> !CoreGreater(p, q) && !CoreGreater(q, p)
    ensures !(CoreGreater(p, q) && CoreGreater(q, p))
  {
    var i := Difference(p.core, q.core);
    if i < |p.core| {
      assert NumbersGreater(p.core, q.core, i) || NumbersGreater(q.core, p.core, i);
    }
    if CoreGreater(p, q) && CoreGreater(q, p) {
      var j :| 0 <= j < |p.core| && NumbersGreater(p.core, q.core, j);
      var k :| 0 <= k < |q.core| && NumbersGreater(q.core, p.core, k);
      NumbersTransitive(p.core, q.core, p.core, j, k);
    }
  }

  /** Two different versions are left unordered exactly when they first differ in how a number is written. */
  lemma UnorderedExactly(a: Version, b: Version)
    requires |a.core| == |b.core|
    ensures !HigherPrecedence(a, b) && !HigherPrecedence(b, a) <==>
            a.core == b.core && (a.prerelease == b.prerelease || Stuck(a.prerelease, b.prerelease))
  {
    CoreTrichotomy(a, b);
    PrereleaseTrichotomy(a.prerelease, b.prerelease);
  }

  // ---------- Canonical versions are totally ordered ----------

  /** Numeric identifiers without leading zeros, as section 9 demands. */
  predicate Canonical(x: string) {
    Digits(x) ==> |x| == 1 || x[0] != '0'
  }

  predicate CanonicalVersion(v: Version) {
    |v.core| == 3 && forall x | x in v.prerelease :: Canonical(x)
  }

  lemma {:induction false} ValuePositive(x: string)
    requires Digits(x) && x[0] != '0'
    ensures Value(x) >= 1
  {
    if |x| > 1 {
      assert forall c | c in x[..|x| - 1] :: c in x;
      ValuePositive(x[..|x| - 1]);
    } else {
      assert x[0] in x;
    }
  }

  lemma {:induction false} ValueInjective(x: string, y: string)
    requires Digits(x) && Digits(y) && Canonical(x) && Canonical(y) && Value(x) == Value(y)
    ensures x == y
    decreases |x|
  {
    var m, n := |x| - 1, |y| - 1;
    assert x[m] in x && y[n] in y;
    assert forall c | c in x[..m] :: c in x;
    assert forall c | c in y[..n] :: c in y;
    if m > 0 {
      ValuePositive(x[..m]);
    }
    if n > 0 {
      ValuePositive(y[..n]);
    }
    assert Value(x[..m]) == Value(y[..n]) && x[m] == y[n];
    if m > 0 {
      assert n > 0;
      ValueInjective(x[..m], y[..n]);
    }
    assert x == x[..m] + [x[m]] && y == y[..n] + [y[n]];
  }

  /** On canonical versions precedence is the total order of section 11. */
  lemma CanonicalTotalOrder(a: Version, b: Version)
    requires CanonicalVersion(a) && CanonicalVersion(b)
    ensures HigherPrecedence(a, b) || HigherPrecedence(b, a) || a == b
    ensures !(HigherPrecedence(a, b) && HigherPrecedence(b, a))
    ensures a == b ==> !HigherPrecedence(a, b)
  {
    UnorderedExactly(a, b);
    PrecedenceIrreflexive(a);
    if HigherPrecedence(a, b) && HigherPrecedence(b, a) {
      PrecedenceTransitive(a, b, a);
    }
    if Stuck(a.prerelease, b.prerelease) {
      var i :| 0 <= i < |a.prerelease| && StuckAt(a.prerelease, b.prerelease, i);
      assert a.prerelease[i] in a.prerelease && b.prerelease[i] in b.prerelease;
      ValueInjective(a.prerelease[i], b.prerelease[i]);
    }
  }

  lemma LeadingZeroIsStuck()
    ensures var a, b := Version([1, 0, 0], ["01"]), Version([1, 0, 0], ["1"]);
            !HigherPrecedence(a, b) && !HigherPrecedence(b, a) && a != b
  {
    var a, b := Version([1, 0, 0], ["01"]), Version([1, 0, 0], ["1"]);
    assert "01"[..1] == "0" && "1"[..0] == "" && "0"[..0] == "";
    assert Value("0") == 0 && Value("01") == 1 && Value("1") == 1;
    assert StuckAt(a.prerelease, b.prerelease, 0);
    UnorderedExactly(a, b);
    assert |"01"| != |"1"|;
    assert a.prerelease[0] != b.prerelease[0];
  }

  lemma ParsePatch(pre: string)
    requires PrereleaseText(pre) && '.' !in pre
    ensures ParseVersion("1.0.0-" + pre) == Some(Version([1, 0, 0], [pre]))
  {
    assert "1"[..0] == "" && "0"[..0] == "";
    assert Value("1") == 1 && Value("0") == 0;
    assert Compose("1", "0", "0", Some(pre)) == "1.0.0-" + pre;
    ParseAccepts("1", "0", "0", Some(pre));
    SplitWithoutDots(pre);
  }

  lemma {:induction false} SplitWithoutDots(s: string)
    requires '.' !in s
    ensures SplitDots(s) == [s]
  {
    if s == "" {
    } else {
      SplitWithoutDots(s[1..]);
      assert s == [s[0]] + s[1..];
    }
  }

  /** Written with a leading zero, a pre-release is neither newer, nor older, nor the same version. */
  lemma LeadingZeroIsUnordered()
    ensures !IsNewer("1.0.0-01", "1.0.0-1") && !IsNewer("1.0.0-1", "1.0.0-01")
    ensures ParseVersion("1.0.0-01").Some? && ParseVersion("1.0.0-1").Some? && ParseVersion("1.0.0-01") != ParseVersion("1.0.0-1")
  {
    assert "1.0.0-" + "01" == "1.0.0-01" && "1.0.0-" + "1" == "1.0.0-1";
    ParsePatch("01");
    ParsePatch("1");
    LeadingZeroIsStuck();
  }
}
