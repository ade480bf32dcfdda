/**
 Summarising a git unified diff into line counts and line fingerprints
 (codex-rs/analytics/src/accepted_lines.rs).  The Unicode tables and the hash
 are parameters.
 */
module DiffSummary {
  import opened Options
  import opened Strings

  datatype Tables = Tables(whitespace: char -> bool, alphanumeric: char -> bool, hash: (string, string) -> string)

  /** What is used of the whitespace table. */
  predicate Sane(t: Tables) {
    t.whitespace('\r') && !t.whitespace('b') && !t.whitespace('/') && !t.whitespace('l') && !t.whitespace('"')
  }

  datatype Fingerprint = Fingerprint(pathHash: string, lineHash: string)

  datatype Summary = Summary(added: nat, deleted: nat, prints: seq<Fingerprint>)

  const NOTHING := Summary(0, 0, [])

  function Plus(a: Summary, b: Summary): Summary {
    Summary(a.added + b.added, a.deleted + b.deleted, a.prints + b.prints)
  }

  // ---------- Text ----------

  /** Position of the first newline, or the length. */
  function FirstNewline(s: string): (n: nat)
    ensures n <= |s| && '\n' !in s[..n]
    ensures n < |s| ==> s[n] == '\n'
  {
    if s == "" || s[0] == '\n' then 0
    else
      var n := FirstNewline(s[1..]);
      assert s[..n + 1] == [s[0]] + s[1..][..n];
      n + 1
  }

  function StripCarriage(s: string): string {
    if s != "" && s[|s| - 1] == '\r' then s[..|s| - 1] else s
  }

  /** `str::lines`: a final newline opens no line, and a carriage return before a newline goes with it. */
  function Lines(s: string): seq<string>
    decreases |s|
  {
    if s == "" then []
    else
      var n := FirstNewline(s);
      if n == |s| then [s] else [StripCarriage(s[..n])] + Lines(s[n + 1..])
  }

  function JoinSpaces(words: seq<string>): string {
    if words == [] then "" else if |words| == 1 then words[0] else words[0] + " " + JoinSpaces(words[1..])
  }

  lemma {:induction false} WordsOfJoined(cut: char -> bool, words: seq<string>)
    requires cut(' ') && forall i | 0 <= i < |words| :: IsWord(cut, words[i])
    ensures Words(cut, JoinSpaces(words)) == words
  {
    if |words| == 1 {
      WordOfWord(cut, words[0]);
    } else if |words| > 1 {
      var rest := JoinSpaces(words[1..]);
      WordsOfJoined(cut, words[1..]);
      assert words[0] + " " + rest == words[0] + (" " + rest) && (" " + rest)[1..] == rest;
      WordsFront(cut, words[0], " " + rest);
      assert words == [words[0]] + words[1..];
    }
  }

  /** Normalising keeps the words and nothing else, so it is done after one pass. */
  lemma NormalizationIsStable(t: Tables, line: string)
    requires t.whitespace(' ') && NormalizeEffectiveLine(t, line).Some?
    ensures var normalized := NormalizeEffectiveLine(t, line).value;
            && Words(t.whitespace, normalized) == Words(t.whitespace, line)
            && NormalizeEffectiveLine(t, normalized) == Some(normalized)
  {
    WordsAreWords(t.whitespace, line);
    WordsOfJoined(t.whitespace, Words(t.whitespace, line));
  }

  /** Lines are told apart by their words only: the same words always give the same fingerprint text. */
  lemma SameWordsSameLine(t: Tables, a: string, b: string)
    requires t.whitespace(' ') && NormalizeEffectiveLine(t, a).Some? && NormalizeEffectiveLine(t, b).Some?
    ensures NormalizeEffectiveLine(t, a) == NormalizeEffectiveLine(t, b) <==> Words(t.whitespace, a) == Words(t.whitespace, b)
  {
    NormalizationIsStable(t, a);
    NormalizationIsStable(t, b);
  }

  /** Bytes of a character in UTF-8, which is what the length limit counts. */
  function ByteCount(s: string): nat {
    if s == "" then 0
    else
      var c := s[0] as int;
      (if c < 0x80 then 1 else if c < 0x800 then 2 else if c < 0x10000 then 3 else 4) + ByteCount(s[1..])
  }

  function NormalizeEffectiveLine(t: Tables, line: string): Option<string> {
    var normalized := JoinSpaces(Words(t.whitespace, line));
    if ByteCount(normalized) <= 3 then None
    else if forall c | c in normalized :: !t.alphanumeric(c) && c != '_' then None
    else Some(normalized)
  }

  function StripPrefix(s: string, prefix: string): Option<string> {
    if prefix <= s then Some(s[|prefix|..]) else None
  }

  function NormalizeDiffPath(t: Tables, raw: string): Option<string> {
    var path := Trim(t.whitespace, raw);
    if path == "/dev/null" then None
    else if StripPrefix(path, "b/").Some? then StripPrefix(path, "b/")
    else if StripPrefix(path, "a/").Some? then StripPrefix(path, "a/")
    else Some(path)
  }

  // ---------- One line ----------

  predicate FileHeader(line: string) {
    "diff --git " <= line
  }

  predicate HunkHeader(line: string) {
    "@@ " <= line
  }

  predicate NewName(line: string) {
    "+++ " <= line
  }

  predicate OldName(line: string) {
    "--- " <= line
  }

  predicate Addition(line: string) {
    "+" <= line
  }

  predicate Deletion(line: string) {
    "-" <= line
  }

  datatype Place = Place(path: Option<string>, inHunk: bool)

  const OUTSIDE := Place(None, false)

  function NextPlace(t: Tables, p: Place, line: string): Place {
    if FileHeader(line) then OUTSIDE
    else if HunkHeader(line) then p.(inHunk := true)
    else if !p.inHunk && NewName(line) then p.(path := NormalizeDiffPath(t, line[4..]))
    else p
  }

  function Print(t: Tables, path: Option<string>, text: string): seq<Fingerprint> {
    var normalized := NormalizeEffectiveLine(t, text);
    if path.Some? && normalized.Some?
    then [Fingerprint(t.hash("path", path.value), t.hash("line", normalized.value))]
    else []
  }

  /** What one line adds to the summary, given where it stands. */
  function Contribution(t: Tables, p: Place, line: string): Summary {
    if FileHeader(line) || HunkHeader(line) then NOTHING
    else if !p.inHunk && (NewName(line) || OldName(line)) then NOTHING
    else if Addition(line) then Summary(1, 0, Print(t, p.path, line[1..]))
    else if Deletion(line) then Summary(0, 1, [])
    else NOTHING
  }

  datatype Scan = Scan(place: Place, sum: Summary)

  function ScanLine(t: Tables, s: Scan, line: string): Scan {
    Scan(NextPlace(t, s.place, line), Plus(s.sum, Contribution(t, s.place, line)))
  }

  function ScanLines(t: Tables, from: Scan, lines: seq<string>): Scan {
    if lines == [] then from
    else
      var n := |lines| - 1;
      ScanLine(t, ScanLines(t, from, lines[..n]), lines[n])
  }

  function SummaryOf(t: Tables, diff: string): Summary {
    ScanLines(t, Scan(OUTSIDE, NOTHING), Lines(diff)).sum
  }

  lemma ScanNext(t: Tables, from: Scan, lines: seq<string>, i: nat)
    requires i < |lines|
    ensures ScanLines(t, from, lines[..i + 1]) == ScanLine(t, ScanLines(t, from, lines[..i]), lines[i])
  {
    assert lines[..i + 1][..i] == lines[..i];
  }

  method AcceptedLineFingerprints(t: Tables, diff: string) returns (summary: Summary)
    ensures summary == SummaryOf(t, diff)
  {
    var path: Option<string> := None;
    var inHunk := false;
    var added, deleted := 0, 0;
    var prints: seq<Fingerprint> := [];
    var lines := Lines(diff);
    for i := 0 to |lines|
      invariant Scan(Place(path, inHunk), Summary(added, deleted, prints)) == ScanLines(t, Scan(OUTSIDE, NOTHING), lines[..i])
    {
      var line := lines[i];
      ScanNext(t, Scan(OUTSIDE, NOTHING), lines, i);
      if FileHeader(line) {
        path, inHunk := None, false;
        continue;
      }
      if HunkHeader(line) {
        inHunk := true;
        continue;
      }
      if !inHunk && NewName(line) {
        path := NormalizeDiffPath(t, line[4..]);
        continue;
      }
      if !inHunk && OldName(line) {
        continue;
      }
      if Addition(line) {
        added := added + 1;
        prints := prints + Print(t, path, line[1..]);
        continue;
      }
      if Deletion(line) {
        deleted := deleted + 1;
      }
    }
    assert lines[..|lines|] == lines;
    summary := Summary(added, deleted, prints);
  }

  // ---------- Diffs add up ----------

  lemma {:induction false} ScanConcat(t: Tables, from: Scan, a: seq<string>, b: seq<string>)
    ensures ScanLines(t, from, a + b) == ScanLines(t, ScanLines(t, from, a), b)
  {
    if b == [] {
      assert a + b == a;
    } else {
      var n := |b| - 1;
      ScanConcat(t, from, a, b[..n]);
      assert (a + b)[..|a| + n] == a + b[..n] && (a + b)[|a| + n] == b[n];
      assert a + b != [];
    }
  }

  /** The sum so far is carried along and never looked at. */
  lemma {:induction false} ScanShifts(t: Tables, place: Place, sum: Summary, lines: seq<string>)
    ensures ScanLines(t, Scan(place, sum), lines) ==
            Scan(ScanLines(t, Scan(place, NOTHING), lines).place, Plus(sum, ScanLines(t, Scan(place, NOTHING), lines).sum))
  {
    if lines == [] {
      assert Plus(sum, NOTHING) == sum;
    } else {
      var n := |lines| - 1;
      ScanShifts(t, place, sum, lines[..n]);
      var s := ScanLines(t, Scan(place, NOTHING), lines[..n]);
      var d := Contribution(t, s.place, lines[n]);
      assert Plus(Plus(sum, s.sum), d) == Plus(sum, Plus(s.sum, d));
    }
  }

  /** The line up to a newline is read first, the rest after it. */
  lemma LinesSplit(line: string, rest: string)
    requires '\n' !in line
    ensures Lines(line + ("\n" + rest)) == [StripCarriage(line)] + Lines(rest)
  {
    var s := line + ("\n" + rest);
    FirstNewlineAfter(line, "\n" + rest);
    assert s[..|line|] == line && s[|line| + 1..] == rest;
  }

  lemma SplitAtNewline(s: string) returns (line: string, rest: string)
    requires s != "" && s[|s| - 1] == '\n'
    ensures '\n' !in line && s == line + ("\n" + rest)
    ensures |rest| < |s| && (rest == "" || rest[|rest| - 1] == '\n')
  {
    var n := FirstNewline(s);
    assert s[..|s|] == s;
    line, rest := s[..n], s[n + 1..];
    assert s == s[..n] + [s[n]] + s[n + 1..];
    assert rest != "" ==> rest[|rest| - 1] == s[|s| - 1];
  }

  lemma Regroup(line: string, rest: string, more: string)
    ensures (line + ("\n" + rest)) + more == line + ("\n" + (rest + more))
  {
  }

  lemma {:induction false} LinesConcat(a: string, b: string)
    requires a == "" || a[|a| - 1] == '\n'
    ensures Lines(a + b) == Lines(a) + Lines(b)
    decreases |a|
  {
    if a == "" {
      assert a + b == b;
    } else {
      var line, rest := SplitAtNewline(a);
      Regroup(line, rest, b);
      LinesSplit(line, rest);
      LinesSplit(line, rest + b);
      LinesConcat(rest, b);
      Prepend(StripCarriage(line), Lines(rest), Lines(b));
    }
  }

  lemma Prepend(line: string, a: seq<string>, b: seq<string>)
    ensures [line] + (a + b) == ([line] + a) + b
  {
  }

  lemma {:induction false} FirstNewlineAfter(a: string, b: string)
    requires '\n' !in a
    ensures FirstNewline(a + b) == |a| + FirstNewline(b)
  {
    if a == "" {
      assert a + b == b;
    } else {
      assert (a + b)[1..] == a[1..] + b;
      assert a[0] in a;
      FirstNewlineAfter(a[1..], b);
    }
  }

  lemma FirstLineOfGitDiff(diff: string)
    requires FileHeader(diff)
    ensures Lines(diff) != [] && FileHeader(Lines(diff)[0])
  {
    var head := "diff --git ";
    var n := FirstNewline(diff);
    assert diff == head + diff[|head|..];
    FirstNewlineAfter(head, diff[|head|..]);
    assert n >= |head| && head <= diff[..n];
    assert diff[..n][..|head|] == head;
    assert head[|head| - 1] == ' ';
  }

  lemma ScanFirst(t: Tables, from: Scan, line: string, rest: seq<string>)
    ensures ScanLines(t, from, [line] + rest) == ScanLines(t, ScanLine(t, from, line), rest)
  {
    ScanConcat(t, from, [line], rest);
    assert [line][..0] == [];
  }

  lemma HeaderStep(t: Tables, from: Scan, line: string)
    requires FileHeader(line)
    ensures ScanLine(t, from, line) == Scan(OUTSIDE, from.sum)
  {
    assert Plus(from.sum, NOTHING) == from.sum;
  }

  lemma HeaderForgets(t: Tables, from: Scan, lines: seq<string>)
    requires lines != [] && FileHeader(lines[0])
    ensures ScanLines(t, from, lines).sum == Plus(from.sum, ScanLines(t, Scan(OUTSIDE, NOTHING), lines).sum)
  {
    var line, rest := lines[0], lines[1..];
    assert lines == [line] + rest;
    ScanFirst(t, from, line, rest);
    ScanFirst(t, Scan(OUTSIDE, NOTHING), line, rest);
    HeaderStep(t, from, line);
    HeaderStep(t, Scan(OUTSIDE, NOTHING), line);
    ScanShifts(t, OUTSIDE, from.sum, rest);
  }

  lemma ScansAddUp(t: Tables, first: seq<string>, second: seq<string>)
    requires second == [] || FileHeader(second[0])
    ensures var start := Scan(OUTSIDE, NOTHING);
            ScanLines(t, start, first + second).sum == Plus(ScanLines(t, start, first).sum, ScanLines(t, start, second).sum)
  {
    var mid := ScanLines(t, Scan(OUTSIDE, NOTHING), first);
    ScanConcat(t, Scan(OUTSIDE, NOTHING), first, second);
    if second == [] {
      assert Plus(mid.sum, NOTHING) == mid.sum;
    } else {
      HeaderForgets(t, mid, second);
    }
  }

  /** A git diff starts every file afresh, so summaries of concatenated diffs add up. */
  lemma ConcatenationAddsUp(t: Tables, a: string, b: string)
    requires a == "" || a[|a| - 1] == '\n'
    requires b == "" || FileHeader(b)
    ensures SummaryOf(t, a + b) == Plus(SummaryOf(t, a), SummaryOf(t, b))
  {
    LinesConcat(a, b);
    if b != "" {
      FirstLineOfGitDiff(b);
    }
    ScansAddUp(t, Lines(a), Lines(b));
  }
}
