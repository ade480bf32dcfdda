/**
 Python package versions and Codex release tags (sdk/python/release_version.py).
 A normalized version is a PEP 440 string; a tag is its SemVer-like spelling
 behind "rust-v".  The whitespace table of `str.strip` is a parameter.
 */
module ReleaseVersion {
  import opened Options
  import opened SemVer
  import opened Strings

  // ---------- Normalized versions ----------

  datatype Prerelease = Final | Alpha(number: string) | Beta(number: string) | Candidate(number: string)

  datatype Normal = Normal(base: string, pre: Prerelease, post: Option<string>)

  /** Length of the longest dotted run of numbers at the front. */
  function BaseLength(s: string): (n: nat)
    ensures n <= |s|
    decreases |s|
  {
    var n := Run(s);
    if n == 0 then 0
    else if n < |s| && s[n] == '.' && Run(s[n + 1..]) > 0 then n + 1 + BaseLength(s[n + 1..])
    else n
  }

  /** Numbers with dots between them. */
  predicate IsBase(s: string) {
    forall p | p in SplitDots(s) :: Digits(p)
  }

  predicate ValidNormal(n: Normal) {
    && IsBase(n.base)
    && (!n.pre.Final? ==> Digits(n.pre.number))
    && (n.post.Some? ==> Digits(n.post.value))
  }

  /** The pre-release marker and what follows it. */
  function SuffixText(pre: Prerelease, post: Option<string>): string {
    var rest := PostText(post);
    match pre
    case Final => rest
    case Alpha(d) => "a" + (d + rest)
    case Beta(d) => "b" + (d + rest)
    case Candidate(d) => "rc" + (d + rest)
  }

  function PostText(post: Option<string>): string {
    if post.Some? then ".post" + post.value else ""
  }

  function Text(n: Normal): string {
    n.base + SuffixText(n.pre, n.post)
  }

  /** The number right after `marker`, and the rest. */
  function NumberAfter(s: string, marker: string): Option<(string, string)> {
    if !(marker <= s) then None
    else
      var rest := s[|marker|..];
      if Run(rest) == 0 then None else Some((rest[..Run(rest)], rest[Run(rest)..]))
  }

  /** The pre-release marker at the front of `s`, and the rest. */
  function ParsePre(s: string): (Prerelease, string) {
    var a, b, rc := NumberAfter(s, "a"), NumberAfter(s, "b"), NumberAfter(s, "rc");
    if a.Some? then (Alpha(a.value.0), a.value.1)
    else if b.Some? then (Beta(b.value.0), b.value.1)
    else if rc.Some? then (Candidate(rc.value.0), rc.value.1)
    else (Final, s)
  }

  function ParsePost(s: string): Option<Option<string>> {
    if s == "" then Some(None)
    else if ".post" <= s && Digits(s[5..]) then Some(Some(s[5..]))
    else None
  }

  /** The full match of the normalized pattern, taken apart. */
  function ParseNormal(s: string): Option<Normal> {
    var k := BaseLength(s);
    if k == 0 then None
    else
      var (pre, rest) := ParsePre(s[k..]);
      var post := ParsePost(rest);
      if post.None? then None else Some(Normal(s[..k], pre, post.value))
  }

  // ---------- Rewriting ----------

  function DropPrefix(s: string): string {
    if "rust-v" <= s then s[6..] else if "v" <= s then s[1..] else s
  }

  /** What follows `marker` and an optional dot. */
  function AfterMarker(s: string, marker: string): Option<string> {
    if !(marker <= s) then None
    else
      var rest := s[|marker|..];
      Some(if "." <= rest then rest[1..] else rest)
  }

  /** `marker`, optional dot, a number, end of text. */
  function MatchNumber(s: string, marker: string): Option<string> {
    var rest := AfterMarker(s, marker);
    if rest.Some? && Digits(rest.value) then rest else None
  }

  /** `marker`, optional dot, two numbers with a dot between them, end of text. */
  function MatchNumbers(s: string, marker: string): Option<(string, string)> {
    var rest := AfterMarker(s, marker);
    if rest.None? then None
    else
      var n := Run(rest.value);
      if n > 0 && n < |rest.value| && rest.value[n] == '.' && Digits(rest.value[n + 1..])
      then Some((rest.value[..n], rest.value[n + 1..]))
      else None
  }

  /** A match ends the text and holds one dash, its first character, so the last dash is the only place for it. */
  function SubHotfix(s: string): string {
    var at := LastIndex(s, '-');
    if at.None? || MatchNumbers(s[at.value..], "-alpha").None? then s
    else
      var (alpha, hotfix) := MatchNumbers(s[at.value..], "-alpha").value;
      s[..at.value] + ("a" + (alpha + (".post" + hotfix)))
  }

  function SubNumber(s: string, marker: string, short: string): string {
    var at := LastIndex(s, '-');
    if at.None? || MatchNumber(s[at.value..], marker).None? then s
    else s[..at.value] + (short + MatchNumber(s[at.value..], marker).value)
  }

  function Rewrite(s: string): string {
    SubNumber(SubNumber(SubNumber(SubHotfix(s), "-alpha", "a"), "-beta", "b"), "-rc", "rc")
  }

  /** The normalized version, or None where the script raises. */
  function Normalize(ws: char -> bool, version: string): Option<string> {
    var normalized := Rewrite(DropPrefix(Trim(ws, version)));
    if ParseNormal(normalized).Some? then Some(normalized) else None
  }

  function ReleaseText(n: Normal): string {
    match n.pre
    case Alpha(d) =>
      if n.post.Some? then n.base + ("-alpha" + ("." + (d + ("." + n.post.value)))) else n.base + ("-alpha" + ("." + d))
    case Beta(d) => if n.post.Some? then Text(n) else n.base + ("-beta" + ("." + d))
    case Candidate(d) => if n.post.Some? then Text(n) else n.base + ("-rc" + ("." + d))
    case Final => Text(n)
  }

  function ReleaseTag(ws: char -> bool, version: string): Option<string> {
    var normalized := Normalize(ws, version);
    if normalized.None? then None else Some("rust-v" + ReleaseText(ParseNormal(normalized.value).value))
  }

  // ---------- The pattern means what it says ----------

  predicate NoBase(rest: string) {
    rest == "" || !(Digit(rest[0]) || (rest[0] == '.' && Run(rest[1..]) > 0))
  }

  lemma BaseUnfold(digits: string, rest: string)
    requires Digits(digits) && (rest == "" || !Digit(rest[0]))
    ensures BaseLength(digits + rest) ==
            if rest != "" && rest[0] == '.' && Run(rest[1..]) > 0 then |digits| + 1 + BaseLength(rest[1..]) else |digits|
  {
    var s := digits + rest;
    RunStops(digits, rest);
    assert rest != "" ==> s[|digits|] == rest[0] && s[|digits| + 1..] == rest[1..];
  }

  /** The text before the first dot is the first part. */
  lemma {:induction false} SplitFront(s: string) returns (front: string, more: string)
    ensures s == front + more && '.' !in front && (more == "" || more[0] == '.')
    ensures SplitDots(s) == [front] + (if more == "" then [] else SplitDots(more[1..]))
  {
    if s == "" || s[0] == '.' {
      return "", s;
    }
    var f, m := SplitFront(s[1..]);
    front, more := [s[0]] + f, m;
    assert s == [s[0]] + s[1..];
    assert SplitDots(s[1..])[0] == f;
  }

  lemma BaseSplit(base: string) returns (digits: string, more: string)
    requires IsBase(base)
    ensures base == digits + more && Digits(digits)
    ensures more == "" || (more[0] == '.' && IsBase(more[1..]))
  {
    digits, more := SplitFront(base);
    assert digits in SplitDots(base);
    if more != "" {
      forall p | p in SplitDots(more[1..])
        ensures Digits(p)
      {
        assert p in SplitDots(base);
      }
    }
  }

  lemma BaseStarts(base: string)
    requires IsBase(base)
    ensures base != "" && Digit(base[0]) && Run(base) > 0
  {
    var digits, more := BaseSplit(base);
    assert base[0] == digits[0] && digits[0] in digits;
  }

  lemma {:induction false} SplitDotted(digits: string, rest: string)
    requires '.' !in digits
    ensures SplitDots(digits + ("." + rest)) == [digits] + SplitDots(rest)
    ensures SplitDots(digits) == [digits]
  {
    if digits == "" {
      assert digits + ("." + rest) == "." + rest && ("." + rest)[1..] == rest;
    } else {
      SplitDotted(digits[1..], rest);
      assert (digits + ("." + rest))[1..] == digits[1..] + ("." + rest);
      assert digits == [digits[0]] + digits[1..];
    }
  }

  lemma {:induction false} BaseStops(base: string, rest: string)
    requires IsBase(base) && NoBase(rest)
    ensures BaseLength(base + rest) == |base|
    decreases |base|
  {
    var digits, more := BaseSplit(base);
    if more == "" {
      assert base == digits;
      BaseUnfold(digits, rest);
    } else {
      var tail := more[1..];
      BaseStarts(tail);
      assert base + rest == digits + (more + rest) && (more + rest)[1..] == tail + rest;
      RunOfFront(tail, rest);
      BaseUnfold(digits, more + rest);
      BaseStops(tail, rest);
    }
  }

  lemma RunOfFront(a: string, b: string)
    requires Run(a) > 0
    ensures Run(a + b) > 0
  {
    assert (a + b)[0] == a[0];
  }

  lemma NumberAfterMarker(marker: string, d: string, rest: string)
    requires Digits(d) && (rest == "" || !Digit(rest[0]))
    ensures NumberAfter(marker + (d + rest), marker) == Some((d, rest))
  {
    var s := marker + (d + rest);
    RunStops(d, rest);
    assert s[..|marker|] == marker && s[|marker|..] == d + rest;
    assert (d + rest)[..|d|] == d && (d + rest)[|d|..] == rest;
  }

  lemma NoNumberAfter(s: string, marker: string)
    requires marker != "" && (s == "" || s[0] != marker[0])
    ensures NumberAfter(s, marker).None?
  {
  }

  lemma PostStart(post: Option<string>)
    ensures PostText(post) == "" || PostText(post)[0] == '.'
  {
  }

  lemma ParsePreText(pre: Prerelease, post: Option<string>)
    requires (!pre.Final? ==> Digits(pre.number)) && (post.Some? ==> Digits(post.value))
    ensures ParsePre(SuffixText(pre, post)) == (pre, PostText(post))
  {
    var s, rest := SuffixText(pre, post), PostText(post);
    PostStart(post);
    match pre
    case Final =>
      NoNumberAfter(s, "a");
      NoNumberAfter(s, "b");
      NoNumberAfter(s, "rc");
    case Alpha(d) =>
      NumberAfterMarker("a", d, rest);
    case Beta(d) =>
      NoNumberAfter(s, "a");
      NumberAfterMarker("b", d, rest);
    case Candidate(d) =>
      NoNumberAfter(s, "a");
      NoNumberAfter(s, "b");
      NumberAfterMarker("rc", d, rest);
  }

  lemma ParsePostText(post: Option<string>)
    requires post.Some? ==> Digits(post.value)
    ensures ParsePost(PostText(post)) == Some(post)
  {
    if post.Some? {
      assert PostText(post)[..5] == ".post" && PostText(post)[5..] == post.value;
    }
  }

  lemma SuffixIsNoBase(pre: Prerelease, post: Option<string>)
    ensures NoBase(SuffixText(pre, post))
  {
    var rest := SuffixText(pre, post);
    if pre.Final? && post.Some? {
      assert rest[1] == 'p' && rest[1..][0] == 'p';
    }
  }

  /** Printing then parsing a normalized version gives it back. */
  lemma ParseText(n: Normal)
    requires ValidNormal(n)
    ensures ParseNormal(Text(n)) == Some(n)
  {
    var rest := SuffixText(n.pre, n.post);
    SuffixIsNoBase(n.pre, n.post);
    BaseStarts(n.base);
    BaseStops(n.base, rest);
    assert Text(n)[..|n.base|] == n.base && Text(n)[|n.base|..] == rest;
    ParsePreText(n.pre, n.post);
    ParsePostText(n.post);
  }

  lemma {:induction false} BasePrefixIsBase(s: string)
    requires BaseLength(s) > 0
    ensures IsBase(s[..BaseLength(s)])
    decreases |s|
  {
    var n := Run(s);
    RunDigits(s);
    if n < |s| && s[n] == '.' && Run(s[n + 1..]) > 0 {
      BasePrefixIsBase(s[n + 1..]);
      DottedPrefix(s, n, BaseLength(s[n + 1..]));
    } else {
      DigitsAreBase(s[..n]);
    }
  }

  lemma RunDigits(s: string)
    requires Run(s) > 0
    ensures Digits(s[..Run(s)])
  {
  }

  lemma DottedPrefix(s: string, n: nat, m: nat)
    requires n + 1 + m <= |s| && Digits(s[..n]) && s[n] == '.' && IsBase(s[n + 1..][..m])
    ensures IsBase(s[..n + 1 + m])
  {
    PrefixAround(s, n, m);
    DottedBase(s[..n], s[n + 1..][..m]);
  }

  lemma PrefixAround<T>(s: seq<T>, n: nat, m: nat)
    requires n + 1 + m <= |s|
    ensures s[..n + 1 + m] == s[..n] + ([s[n]] + s[n + 1..][..m])
  {
  }

  lemma DigitsAreBase(digits: string)
    requires Digits(digits)
    ensures IsBase(digits)
  {
    NoDotInDigits(digits);
    SplitDotted(digits, "");
  }

  lemma DottedBase(digits: string, base: string)
    requires Digits(digits) && IsBase(base)
    ensures IsBase(digits + ("." + base))
  {
    NoDotInDigits(digits);
    SplitDotted(digits, base);
  }

  lemma NoDotInDigits(digits: string)
    requires Digits(digits)
    ensures '.' !in digits
  {
    assert !Digit('.');
  }

  lemma NumberAfterBack(s: string, marker: string)
    requires NumberAfter(s, marker).Some?
    ensures var (d, rest) := NumberAfter(s, marker).value; Digits(d) && s == marker + (d + rest)
  {
    assert s == s[..|marker|] + s[|marker|..];
  }

  lemma ParsePreBack(s: string, post: Option<string>)
    requires ParsePre(s).1 == PostText(post)
    ensures s == SuffixText(ParsePre(s).0, post) && (!ParsePre(s).0.Final? ==> Digits(ParsePre(s).0.number))
  {
    var pre := ParsePre(s).0;
    if !pre.Final? {
      NumberAfterBack(s, if pre.Alpha? then "a" else if pre.Beta? then "b" else "rc");
    }
  }

  lemma ParsePostBack(s: string)
    requires ParsePost(s).Some?
    ensures s == PostText(ParsePost(s).value) && (ParsePost(s).value.Some? ==> Digits(ParsePost(s).value.value))
  {
    if s != "" {
      assert s == s[..5] + s[5..];
    }
  }

  lemma SuffixBack(s: string)
    requires ParsePost(ParsePre(s).1).Some?
    ensures var pre, post := ParsePre(s).0, ParsePost(ParsePre(s).1).value;
            && s == SuffixText(pre, post)
            && (!pre.Final? ==> Digits(pre.number)) && (post.Some? ==> Digits(post.value))
  {
    ParsePostBack(ParsePre(s).1);
    ParsePreBack(s, ParsePost(ParsePre(s).1).value);
  }

  /** Parsing then printing gives the text back. */
  lemma TextOfParse(s: string)
    requires ParseNormal(s).Some?
    ensures ValidNormal(ParseNormal(s).value) && Text(ParseNormal(s).value) == s
  {
    var k, n := BaseLength(s), ParseNormal(s).value;
    assert n.base == s[..k] && n.pre == ParsePre(s[k..]).0 && Some(n.post) == ParsePost(ParsePre(s[k..]).1);
    BasePrefixIsBase(s);
    SuffixBack(s[k..]);
    TextOfParts(s, k, n);
  }

  lemma TextOfParts(s: string, k: nat, n: Normal)
    requires k <= |s| && n.base == s[..k] && s[k..] == SuffixText(n.pre, n.post)
    ensures Text(n) == s
  {
    assert s == s[..k] + s[k..];
  }

  // ---------- Where a rewrite can happen ----------

  lemma DashAt(front: string, tail: string)
    requires tail != "" && tail[0] == '-' && '-' !in tail[1..]
    ensures LastIndex(front + tail, '-') == Some(|front|)
  {
    LastIndexBehind(front, tail, '-');
  }

  predicate DashFree(s: string) {
    '-' !in s
  }

  predicate Marker(marker: string) {
    marker != "" && marker[0] == '-' && DashFree(marker[1..])
  }

  lemma DigitsDashFree(d: string)
    requires Digits(d)
    ensures DashFree(d)
  {
  }

  lemma AfterMarkerDashes(s: string, marker: string)
    requires Marker(marker) && AfterMarker(s, marker).Some? && DashFree(AfterMarker(s, marker).value)
    ensures s != "" && s[0] == '-' && DashFree(s[1..])
  {
    var rest := s[|marker|..];
    assert s == marker + rest && s[1..] == marker[1..] + rest;
    assert "." <= rest ==> rest == rest[..1] + rest[1..];
  }

  lemma MatchIsDashFree(tail: string, marker: string)
    requires MatchNumber(tail, marker).Some? || MatchNumbers(tail, marker).Some?
    ensures AfterMarker(tail, marker).Some? && DashFree(AfterMarker(tail, marker).value)
  {
    var rest := AfterMarker(tail, marker).value;
    if MatchNumber(tail, marker).Some? {
      DigitsDashFree(rest);
    } else {
      var n := Run(rest);
      DigitsDashFree(rest[n + 1..]);
      assert rest == rest[..n] + ("." + rest[n + 1..]);
      assert DashFree(rest[..n]);
    }
  }

  /** A pattern anchored at the end can only match at the last dash, so replacing there is replacing everywhere. */
  lemma MatchesOnlyAtLastDash(s: string, marker: string, i: nat)
    requires Marker(marker) && i <= |s|
    requires MatchNumber(s[i..], marker).Some? || MatchNumbers(s[i..], marker).Some?
    ensures LastIndex(s, '-') == Some(i)
  {
    MatchIsDashFree(s[i..], marker);
    AfterMarkerDashes(s[i..], marker);
    DashAt(s[..i], s[i..]);
    assert s == s[..i] + s[i..];
  }

  // ---------- Normalized versions are fixed points ----------

  predicate Plain(c: char) {
    Digit(c) || 'a' <= c <= 'z' || c == '.'
  }

  ghost predicate Sane(ws: char -> bool) {
    forall c | Plain(c) :: !ws(c)
  }

  predicate AllPlain(s: string) {
    forall c | c in s :: Plain(c)
  }

  lemma {:induction false} BasePlain(s: string)
    requires IsBase(s)
    ensures AllPlain(s) && s != "" && Digit(s[0])
    decreases |s|
  {
    var digits, more := BaseSplit(s);
    BaseStarts(s);
    if more != "" {
      BasePlain(more[1..]);
      assert more == "." + more[1..];
    }
  }

  lemma TextPlain(n: Normal)
    requires ValidNormal(n)
    ensures AllPlain(Text(n)) && Text(n) != "" && Digit(Text(n)[0])
  {
    BasePlain(n.base);
    assert AllPlain(PostText(n.post));
    assert AllPlain(SuffixText(n.pre, n.post));
    assert Text(n)[0] == n.base[0];
  }

  lemma TrimPlain(ws: char -> bool, s: string)
    requires s == "" || (!ws(s[0]) && !ws(s[|s| - 1]))
    ensures Trim(ws, s) == s
  {
  }

  lemma RewriteDashFree(s: string)
    requires DashFree(s)
    ensures Rewrite(s) == s
  {
  }

  lemma NumbersHaveNoPrefix(s: string)
    requires s != "" && Digit(s[0])
    ensures DropPrefix(s) == s
  {
    assert s[..1] == [s[0]];
  }

  lemma TagHasPrefix(release: string)
    ensures DropPrefix("rust-v" + release) == release
  {
    assert ("rust-v" + release)[..6] == "rust-v" && ("rust-v" + release)[6..] == release;
  }

  lemma NormalizeText(ws: char -> bool, n: Normal)
    requires Sane(ws) && ValidNormal(n)
    ensures Normalize(ws, Text(n)) == Some(Text(n))
  {
    var s := Text(n);
    TextPlain(n);
    assert Plain(s[0]) && s[|s| - 1] in s;
    TrimPlain(ws, s);
    NumbersHaveNoPrefix(s);
    RewriteDashFree(s);
    ParseText(n);
  }

  lemma NormalizeIdempotent(ws: char -> bool, version: string)
    requires Sane(ws)
    ensures Normalize(ws, version).Some? ==> Normalize(ws, Normalize(ws, version).value) == Normalize(ws, version)
  {
    if Normalize(ws, version).Some? {
      var s := Normalize(ws, version).value;
      TextOfParse(s);
      NormalizeText(ws, ParseNormal(s).value);
    }
  }

  // ---------- Tags normalize back ----------

  lemma SubNumberAt(base: string, marker: string, short: string, tail: string, d: string)
    requires DashFree(base) && Marker(marker) && MatchNumber(tail, marker) == Some(d)
    ensures SubNumber(base + tail, marker, short) == base + (short + d)
  {
    var s := base + tail;
    assert s[|base|..] == tail && s[..|base|] == base;
    MatchesOnlyAtLastDash(s, marker, |base|);
  }

  lemma SubNumberElsewhere(base: string, marker: string, short: string, tail: string)
    requires DashFree(base) && tail != "" && tail[0] == '-' && DashFree(tail[1..]) && MatchNumber(tail, marker).None?
    ensures SubNumber(base + tail, marker, short) == base + tail
  {
    DashAt(base, tail);
    assert (base + tail)[|base|..] == tail;
  }

  lemma SubHotfixElsewhere(base: string, tail: string)
    requires DashFree(base) && tail != "" && tail[0] == '-' && DashFree(tail[1..]) && MatchNumbers(tail, "-alpha").None?
    ensures SubHotfix(base + tail) == base + tail
  {
    DashAt(base, tail);
    assert (base + tail)[|base|..] == tail;
  }

  lemma AfterMarkerDot(marker: string, rest: string)
    ensures AfterMarker(marker + ("." + rest), marker) == Some(rest)
  {
    var tail := marker + ("." + rest);
    assert tail[..|marker|] == marker && tail[|marker|..] == "." + rest;
    assert ("." + rest)[1..] == rest && ("." + rest)[..1] == ".";
  }

  lemma MarkerDigits(marker: string, d: string)
    requires Marker(marker) && Digits(d)
    ensures MatchNumber(marker + ("." + d), marker) == Some(d)
    ensures MatchNumbers(marker + ("." + d), marker).None?
    ensures (marker + ("." + d))[0] == '-' && DashFree((marker + ("." + d))[1..])
  {
    AfterMarkerDot(marker, d);
    RunStops(d, "");
    assert d + "" == d;
    DigitsDashFree(d);
    AfterMarkerDashes(marker + ("." + d), marker);
  }

  lemma MarkerTwoNumbers(marker: string, a: string, b: string)
    requires Marker(marker) && Digits(a) && Digits(b)
    ensures MatchNumbers(marker + ("." + (a + ("." + b))), marker) == Some((a, b))
  {
    var rest := a + ("." + b);
    AfterMarkerDot(marker, rest);
    RunStops(a, "." + b);
    assert rest[..|a|] == a && rest[|a| + 1..] == b;
  }

  lemma OtherMarker(tail: string, marker: string)
    requires |tail| > 1 && |marker| > 1 && tail[1] != marker[1]
    ensures MatchNumber(tail, marker).None? && MatchNumbers(tail, marker).None?
  {
  }

  lemma BaseDashFree(base: string)
    requires IsBase(base)
    ensures DashFree(base)
  {
    BasePlain(base);
  }

  lemma RewriteHotfix(base: string, a: string, b: string)
    requires IsBase(base) && Digits(a) && Digits(b)
    ensures Rewrite(base + ("-alpha" + ("." + (a + ("." + b))))) == Text(Normal(base, Alpha(a), Some(b)))
  {
    MarkerTwoNumbers("-alpha", a, b);
    var tail, n := "-alpha" + ("." + (a + ("." + b))), Normal(base, Alpha(a), Some(b));
    SubHotfixAt(base, tail, a, b);
    TextPlain(n);
    RewriteDone(base + tail, Text(n));
  }

  lemma RewriteDone(s: string, t: string)
    requires SubHotfix(s) == t && DashFree(t)
    ensures Rewrite(s) == t
  {
  }

  lemma SubHotfixAt(base: string, tail: string, a: string, b: string)
    requires MatchNumbers(tail, "-alpha") == Some((a, b))
    ensures SubHotfix(base + tail) == base + ("a" + (a + (".post" + b)))
  {
    var s := base + tail;
    assert s[|base|..] == tail && s[..|base|] == base;
    MatchesOnlyAtLastDash(s, "-alpha", |base|);
  }

  lemma RewriteAlpha(base: string, d: string)
    requires IsBase(base) && Digits(d)
    ensures Rewrite(base + ("-alpha" + ("." + d))) == Text(Normal(base, Alpha(d), None))
  {
    var tail, n := "-alpha" + ("." + d), Normal(base, Alpha(d), None);
    BaseDashFree(base);
    MarkerDigits("-alpha", d);
    SubHotfixElsewhere(base, tail);
    SubNumberAt(base, "-alpha", "a", tail, d);
    PlainText(n);
    AlphaDone(base + tail, Text(n));
  }

  lemma PlainText(n: Normal)
    requires ValidNormal(n) && n.post.None? && !n.pre.Final?
    ensures var short := if n.pre.Alpha? then "a" else if n.pre.Beta? then "b" else "rc";
            Text(n) == n.base + (short + n.pre.number) && DashFree(Text(n))
  {
    assert n.pre.number + "" == n.pre.number;
    TextPlain(n);
  }

  lemma AlphaDone(s: string, t: string)
    requires SubNumber(SubHotfix(s), "-alpha", "a") == t && DashFree(t)
    ensures Rewrite(s) == t
  {
  }

  lemma BetaDone(s: string, t: string)
    requires SubNumber(SubNumber(SubHotfix(s), "-alpha", "a"), "-beta", "b") == t && DashFree(t)
    ensures Rewrite(s) == t
  {
  }

  lemma RewriteBeta(base: string, d: string)
    requires IsBase(base) && Digits(d)
    ensures Rewrite(base + ("-beta" + ("." + d))) == Text(Normal(base, Beta(d), None))
  {
    var tail, n := "-beta" + ("." + d), Normal(base, Beta(d), None);
    BaseDashFree(base);
    MarkerDigits("-beta", d);
    OtherMarker(tail, "-alpha");
    SubHotfixElsewhere(base, tail);
    SubNumberElsewhere(base, "-alpha", "a", tail);
    SubNumberAt(base, "-beta", "b", tail, d);
    PlainText(n);
    BetaDone(base + tail, Text(n));
  }

  lemma RewriteCandidate(base: string, d: string)
    requires IsBase(base) && Digits(d)
    ensures Rewrite(base + ("-rc" + ("." + d))) == Text(Normal(base, Candidate(d), None))
  {
    var tail, n := "-rc" + ("." + d), Normal(base, Candidate(d), None);
    BaseDashFree(base);
    MarkerDigits("-rc", d);
    OtherMarker(tail, "-alpha");
    OtherMarker(tail, "-beta");
    SubHotfixElsewhere(base, tail);
    SubNumberElsewhere(base, "-alpha", "a", tail);
    SubNumberElsewhere(base, "-beta", "b", tail);
    SubNumberAt(base, "-rc", "rc", tail, d);
    PlainText(n);
  }

  /** Rewriting undoes the release spelling. */
  lemma RewriteRelease(n: Normal)
    requires ValidNormal(n)
    ensures Rewrite(ReleaseText(n)) == Text(n)
  {
    if n.pre.Alpha? && n.post.Some? {
      RewriteHotfix(n.base, n.pre.number, n.post.value);
    } else if n.pre.Alpha? {
      RewriteAlpha(n.base, n.pre.number);
    } else if n.pre.Beta? && n.post.None? {
      RewriteBeta(n.base, n.pre.number);
    } else if n.pre.Candidate? && n.post.None? {
      RewriteCandidate(n.base, n.pre.number);
    } else {
      TextPlain(n);
      RewriteDashFree(Text(n));
    }
  }

  lemma ReleaseEnds(n: Normal)
    requires ValidNormal(n)
    ensures ReleaseText(n) != "" && Plain(ReleaseText(n)[|ReleaseText(n)| - 1])
  {
    var s := ReleaseText(n);
    TextPlain(n);
    if s == Text(n) {
      assert s[|s| - 1] in s;
    } else {
      var d := if n.post.Some? then n.post.value else n.pre.number;
      assert s[|s| - 1] == d[|d| - 1] && d[|d| - 1] in d;
    }
  }

  lemma TagReads(ws: char -> bool, n: Normal)
    requires Sane(ws) && ValidNormal(n)
    ensures Normalize(ws, "rust-v" + ReleaseText(n)) == Some(Text(n))
  {
    var release := ReleaseText(n);
    var tag := "rust-v" + release;
    ReleaseEnds(n);
    assert tag[0] == 'r' && tag[|tag| - 1] == release[|release| - 1];
    assert Plain('r');
    TrimPlain(ws, tag);
    TagHasPrefix(release);
    RewriteRelease(n);
    ParseText(n);
  }

  /** The tag of a version normalizes to the version. */
  lemma TagNormalizesBack(ws: char -> bool, version: string)
    requires Sane(ws)
    ensures Normalize(ws, version).Some? <==> ReleaseTag(ws, version).Some?
    ensures Normalize(ws, version).Some? ==> Normalize(ws, ReleaseTag(ws, version).value) == Normalize(ws, version)
  {
    if Normalize(ws, version).Some? {
      TextOfParse(Normalize(ws, version).value);
      TagReads(ws, ParseNormal(Normalize(ws, version).value).value);
    }
  }

  /** Versions that normalize differently get different tags, and equal ones the same. */
  lemma TagsAreDistinct(ws: char -> bool, v: string, w: string)
    requires Sane(ws)
    ensures ReleaseTag(ws, v) == ReleaseTag(ws, w) <==> Normalize(ws, v) == Normalize(ws, w)
  {
    TagNormalizesBack(ws, v);
    TagNormalizesBack(ws, w);
  }

  // ---------- Python runtime versions ----------

  /** Three numbers, perhaps an alpha number, and behind that perhaps a post number. */
  predicate RuntimeVersion(s: string) {
    var n := ParseNormal(s);
    n.Some? && |SplitDots(n.value.base)| == 3 && (n.value.pre.Alpha? || (n.value.pre.Final? && n.value.post.None?))
  }

  /** The version and the release it was built from, or None where the script raises. */
  function ResolveRuntimeRelease(ws: char -> bool, version: string): Option<(string, string)> {
    if !RuntimeVersion(version) then None
    else
      var tag := ReleaseTag(ws, version);
      if tag.None? then None else Some((version, tag.value))
  }

  /** Every runtime version has a release, and the tag of the release leads back to the very version. */
  lemma RuntimeReleaseLeadsBack(ws: char -> bool, version: string)
    requires Sane(ws)
    ensures ResolveRuntimeRelease(ws, version).Some? <==> RuntimeVersion(version)
    ensures RuntimeVersion(version) ==> Normalize(ws, ResolveRuntimeRelease(ws, version).value.1) == Some(version)
  {
    if RuntimeVersion(version) {
      TextOfParse(version);
      NormalizeText(ws, ParseNormal(version).value);
      TagNormalizesBack(ws, version);
    }
  }

  /** Different runtime versions come from different releases. */
  lemma RuntimeReleasesAreDistinct(ws: char -> bool, v: string, w: string)
    requires Sane(ws) && RuntimeVersion(v) && RuntimeVersion(w)
    ensures ReleaseTag(ws, v) == ReleaseTag(ws, w) <==> v == w
  {
    RuntimeReleaseLeadsBack(ws, v);
    RuntimeReleaseLeadsBack(ws, w);
  }
}
