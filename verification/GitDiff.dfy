/**
 Structured git diffs and what their summary must be
 (codex-rs/analytics/src/accepted_lines.rs): for every diff git writes with its
 default prefixes, summarising its text recovers exactly its lines.  Lines go
 under the path as it is read back, which is the file's own path exactly when
 that does not end in white space and git did not have to quote it.
 */
module GitDiff {
  import opened Options
  import opened Strings
  import opened DiffSummary

  datatype HunkLine = Added(text: string) | Deleted(text: string) | Context(text: string) | Marker(text: string)

  datatype Hunk = Hunk(range: string, lines: seq<HunkLine>)

  /**
   The new name of a file: `b/path`, the quoted form of an unusual path, or
   nothing for a deleted file.  Git puts a tab behind a path with blanks in it.
   */
  datatype Target = Named(path: string, trail: string) | Quoted(escaped: string, trail: string) | DevNull

  datatype Body = Body(oldName: string, target: Target, hunks: seq<Hunk>)

  /** Mode changes, renames and binary files have headers but no body. */
  datatype FileDiff = FileDiff(title: string, headers: seq<string>, body: Option<Body>)

  // ---------- Rendering ----------

  function LineText(l: HunkLine): string {
    match l
    case Added(s) => "+" + s
    case Deleted(s) => "-" + s
    case Context(s) => " " + s
    case Marker(s) => "\\" + s
  }

  function LinesText(ls: seq<HunkLine>): seq<string> {
    seq(|ls|, i requires 0 <= i < |ls| => LineText(ls[i]))
  }

  function HunkText(h: Hunk): seq<string> {
    ["@@ " + h.range] + LinesText(h.lines)
  }

  function HunksText(hs: seq<Hunk>): seq<string> {
    if hs == [] then [] else HunksText(hs[..|hs| - 1]) + HunkText(hs[|hs| - 1])
  }

  function TargetText(target: Target): string {
    match target
    case Named(path, trail) => "b/" + path + trail
    case Quoted(escaped, trail) => "\"b/" + escaped + "\"" + trail
    case DevNull => "/dev/null"
  }

  function BodyText(body: Body): seq<string> {
    ["--- " + body.oldName] + (["+++ " + TargetText(body.target)] + HunksText(body.hunks))
  }

  function FileText(f: FileDiff): seq<string> {
    ["diff --git " + f.title] + (f.headers + (if f.body.Some? then BodyText(f.body.value) else []))
  }

  function FilesText(fs: seq<FileDiff>): seq<string> {
    if fs == [] then [] else FilesText(fs[..|fs| - 1]) + FileText(fs[|fs| - 1])
  }

  function Render(lines: seq<string>): string {
    if lines == [] then "" else lines[0] + ("\n" + Render(lines[1..]))
  }

  function RenderDiff(fs: seq<FileDiff>): string {
    Render(FilesText(fs))
  }

  // ---------- What git may write there ----------

  predicate OneLine(s: string) {
    '\n' !in s
  }

  predicate ValidHunk(h: Hunk) {
    OneLine(h.range) && forall i | 0 <= i < |h.lines| :: OneLine(h.lines[i].text)
  }

  predicate ValidTarget(t: Tables, target: Target) {
    match target
    case Named(path, trail) => OneLine(path) && OneLine(trail) && Blank(t.whitespace, trail)
    case Quoted(escaped, trail) => OneLine(escaped) && OneLine(trail) && Blank(t.whitespace, trail)
    case DevNull => true
  }

  /** An extended header: anything that is not itself a marker of the format. */
  predicate ValidHeader(s: string) {
    OneLine(s) && !FileHeader(s) && !HunkHeader(s) && !Addition(s) && !Deletion(s)
  }

  predicate ValidFile(t: Tables, f: FileDiff) {
    && OneLine(f.title)
    && (forall i | 0 <= i < |f.headers| :: ValidHeader(f.headers[i]))
    && (f.body.Some? ==>
          && OneLine(f.body.value.oldName)
          && ValidTarget(t, f.body.value.target)
          && forall i | 0 <= i < |f.body.value.hunks| :: ValidHunk(f.body.value.hunks[i]))
  }

  // ---------- What the summary must be ----------

  function LineMeaning(t: Tables, path: Option<string>, l: HunkLine): Summary {
    match l
    case Added(s) => Summary(1, 0, Print(t, path, s))
    case Deleted(_) => Summary(0, 1, [])
    case _ => NOTHING
  }

  function LinesMeaning(t: Tables, path: Option<string>, ls: seq<HunkLine>): Summary {
    if ls == [] then NOTHING
    else Plus(LinesMeaning(t, path, ls[..|ls| - 1]), LineMeaning(t, path, ls[|ls| - 1]))
  }

  function HunksMeaning(t: Tables, path: Option<string>, hs: seq<Hunk>): Summary {
    if hs == [] then NOTHING
    else Plus(HunksMeaning(t, path, hs[..|hs| - 1]), LinesMeaning(t, path, hs[|hs| - 1].lines))
  }

  /** The path the summary files a target under. */
  function PathOf(t: Tables, target: Target): Option<string> {
    match target
    case Named(path, _) => Some(TrimEnd(t.whitespace, path))
    case Quoted(escaped, _) => Some("\"b/" + escaped + "\"")
    case DevNull => None
  }

  function FileMeaning(t: Tables, f: FileDiff): Summary {
    if f.body.None? then NOTHING else HunksMeaning(t, PathOf(t, f.body.value.target), f.body.value.hunks)
  }

  function FilesMeaning(t: Tables, fs: seq<FileDiff>): Summary {
    if fs == [] then NOTHING else Plus(FilesMeaning(t, fs[..|fs| - 1]), FileMeaning(t, fs[|fs| - 1]))
  }

  // ---------- Lines of rendered text ----------

  function Stripped(lines: seq<string>): seq<string> {
    seq(|lines|, i requires 0 <= i < |lines| => StripCarriage(lines[i]))
  }

  predicate AllOneLine(lines: seq<string>) {
    forall i | 0 <= i < |lines| :: OneLine(lines[i])
  }

  lemma {:induction false} LinesOfRendered(lines: seq<string>)
    requires AllOneLine(lines)
    ensures Lines(Render(lines)) == Stripped(lines)
  {
    if lines == [] {
    } else {
      var first, rest := lines[0], lines[1..];
      LinesOfRendered(rest);
      LinesSplit(first, Render(rest));
      assert Stripped(lines) == [StripCarriage(first)] + Stripped(rest);
    }
  }

  lemma StrippedConcat(a: seq<string>, b: seq<string>)
    ensures Stripped(a + b) == Stripped(a) + Stripped(b)
  {
  }

  /** What the first character of a line already decides. */
  lemma FirstCharacter(line: string)
    ensures FileHeader(line) ==> line != "" && line[0] == 'd'
    ensures HunkHeader(line) ==> line != "" && line[0] == '@'
    ensures NewName(line) ==> line != "" && line[0] == '+'
    ensures OldName(line) ==> line != "" && line[0] == '-'
    ensures Addition(line) <==> line != "" && line[0] == '+'
    ensures Deletion(line) <==> line != "" && line[0] == '-'
  {
    if line != "" {
      assert line[..1] == [line[0]];
    }
  }

  // ---------- Carriage returns do not reach the fingerprints ----------

  lemma WordsCarriage(t: Tables, s: string)
    requires Sane(t)
    ensures Words(t.whitespace, s + "\r") == Words(t.whitespace, s)
  {
    WordsConcat(t.whitespace, s, "\r");
    assert "\r"[1..] == "";
  }

  lemma PrintCarriage(t: Tables, path: Option<string>, s: string)
    requires Sane(t)
    ensures Print(t, path, StripCarriage(s)) == Print(t, path, s)
  {
    if s != "" && s[|s| - 1] == '\r' {
      assert s == s[..|s| - 1] + "\r";
      WordsCarriage(t, s[..|s| - 1]);
    }
  }

  // ---------- Scanning a rendered diff ----------

  lemma StripKeepsMark(mark: char, s: string)
    requires mark != '\r'
    ensures StripCarriage([mark] + s) == [mark] + StripCarriage(s)
  {
    if s != "" {
      assert ([mark] + s)[..|s|] == [mark] + s[..|s| - 1];
    }
  }

  lemma StripBehind(front: string, s: string)
    requires s != ""
    ensures StripCarriage(front + s) == front + StripCarriage(s)
  {
    assert (front + s)[..|front + s| - 1] == front + s[..|s| - 1];
  }

  lemma LineScans(t: Tables, from: Scan, l: HunkLine)
    requires Sane(t) && from.place.inHunk
    ensures ScanLine(t, from, StripCarriage(LineText(l))) == Scan(from.place, Plus(from.sum, LineMeaning(t, from.place.path, l)))
  {
    var mark := match l case Added(_) => '+' case Deleted(_) => '-' case Context(_) => ' ' case Marker(_) => '\\';
    var line := StripCarriage(LineText(l));
    assert LineText(l) == [mark] + l.text;
    StripKeepsMark(mark, l.text);
    FirstCharacter(line);
    assert line[1..] == StripCarriage(l.text);
    PrintCarriage(t, from.place.path, l.text);
  }

  lemma StrippedLines(ls: seq<HunkLine>)
    requires ls != []
    ensures var lines, n := Stripped(LinesText(ls)), |ls| - 1;
            |lines| == |ls| && lines[..n] == Stripped(LinesText(ls[..n])) && lines[n] == StripCarriage(LineText(ls[n]))
  {
  }

  lemma {:induction false} LinesScan(t: Tables, from: Scan, ls: seq<HunkLine>)
    requires Sane(t) && from.place.inHunk
    ensures ScanLines(t, from, Stripped(LinesText(ls))) == Scan(from.place, Plus(from.sum, LinesMeaning(t, from.place.path, ls)))
  {
    if ls == [] {
      assert Plus(from.sum, NOTHING) == from.sum;
    } else {
      var n := |ls| - 1;
      LinesScan(t, from, ls[..n]);
      StrippedLines(ls);
      var before := LinesMeaning(t, from.place.path, ls[..n]);
      LineScans(t, Scan(from.place, Plus(from.sum, before)), ls[n]);
      PlusAssociates(from.sum, before, LineMeaning(t, from.place.path, ls[n]));
    }
  }

  lemma PlusAssociates(a: Summary, b: Summary, c: Summary)
    ensures Plus(Plus(a, b), c) == Plus(a, Plus(b, c))
  {
  }

  lemma HunkHeaderScans(t: Tables, from: Scan, range: string)
    ensures ScanLine(t, from, StripCarriage("@@ " + range)) == Scan(from.place.(inHunk := true), from.sum)
  {
    var line := StripCarriage("@@ " + range);
    assert "@@ " <= line by {
      assert ("@@ " + range)[..3] == "@@ ";
    }
    FirstCharacter(line);
    assert Plus(from.sum, NOTHING) == from.sum;
  }

  lemma HunkScans(t: Tables, from: Scan, h: Hunk)
    requires Sane(t)
    ensures ScanLines(t, from, Stripped(HunkText(h))) ==
            Scan(from.place.(inHunk := true), Plus(from.sum, LinesMeaning(t, from.place.path, h.lines)))
  {
    var head := "@@ " + h.range;
    StrippedConcat([head], LinesText(h.lines));
    assert Stripped([head]) == [StripCarriage(head)];
    ScanFirst(t, from, StripCarriage(head), Stripped(LinesText(h.lines)));
    HunkHeaderScans(t, from, h.range);
    LinesScan(t, Scan(from.place.(inHunk := true), from.sum), h.lines);
  }

  lemma {:induction false} HunksScan(t: Tables, from: Scan, hs: seq<Hunk>)
    requires Sane(t)
    ensures var s := ScanLines(t, from, Stripped(HunksText(hs)));
            s.place.path == from.place.path && s.sum == Plus(from.sum, HunksMeaning(t, from.place.path, hs))
  {
    if hs == [] {
      assert Plus(from.sum, NOTHING) == from.sum;
    } else {
      var n := |hs| - 1;
      HunksScan(t, from, hs[..n]);
      StrippedConcat(HunksText(hs[..n]), HunkText(hs[n]));
      ScanConcat(t, from, Stripped(HunksText(hs[..n])), Stripped(HunkText(hs[n])));
      HunkScans(t, ScanLines(t, from, Stripped(HunksText(hs[..n]))), hs[n]);
      PlusAssociates(from.sum, HunksMeaning(t, from.place.path, hs[..n]), LinesMeaning(t, from.place.path, hs[n].lines));
    }
  }

  // ---------- File names ----------

  lemma TrimEndStripped(t: Tables, s: string)
    requires Sane(t)
    ensures TrimEnd(t.whitespace, StripCarriage(s)) == TrimEnd(t.whitespace, s)
  {
  }

  /** Trimming the written name, which starts and ends with characters that are no blanks. */
  lemma TrimsTo(t: Tables, front: string, path: string, trail: string)
    requires Sane(t) && Blank(t.whitespace, trail)
    requires front != "" && !t.whitespace(front[0]) && !t.whitespace(front[|front| - 1])
    ensures Trim(t.whitespace, StripCarriage(front + path + trail)) == front + TrimEnd(t.whitespace, path)
  {
    var raw := front + path + trail;
    TrimEndStripped(t, raw);
    TrimEndBlank(t.whitespace, front + path, trail);
    TrimEndFront(t.whitespace, front, path);
    var stripped := StripCarriage(raw);
    if stripped != "" {
      assert stripped[0] == raw[0] == front[0];
    }
  }

  lemma QuotedTrimsTo(t: Tables, escaped: string, trail: string)
    requires Sane(t) && Blank(t.whitespace, trail)
    ensures Trim(t.whitespace, StripCarriage("\"b/" + escaped + "\"" + trail)) == "\"b/" + escaped + "\""
  {
    var front := "\"b/" + escaped + "\"";
    assert front[0] == '\"' && front[|front| - 1] == '\"';
    TrimsTo(t, front, "", trail);
    assert front + "" == front;
  }

  lemma NamedNormalizes(t: Tables, path: string, trail: string)
    requires Sane(t) && Blank(t.whitespace, trail)
    ensures NormalizeDiffPath(t, StripCarriage("b/" + path + trail)) == Some(TrimEnd(t.whitespace, path))
  {
    var name := "b/" + TrimEnd(t.whitespace, path);
    TrimsTo(t, "b/", path, trail);
    assert name[0] == 'b' && name[..2] == "b/" && name[2..] == TrimEnd(t.whitespace, path);
  }

  lemma QuotedNormalizes(t: Tables, escaped: string, trail: string)
    requires Sane(t) && Blank(t.whitespace, trail)
    ensures NormalizeDiffPath(t, StripCarriage("\"b/" + escaped + "\"" + trail)) == Some("\"b/" + escaped + "\"")
  {
    QuotedTrimsTo(t, escaped, trail);
    assert ("\"b/" + escaped + "\"")[0] == '\"';
  }

  lemma DevNullNormalizes(t: Tables)
    requires Sane(t)
    ensures NormalizeDiffPath(t, StripCarriage("/dev/null")).None?
  {
    TrimsTo(t, "/dev/null", "", "");
    assert "/dev/null" + "" + "" == "/dev/null" && "/dev/null"[8] == 'l';
  }

  lemma TargetNormalizes(t: Tables, target: Target)
    requires Sane(t) && ValidTarget(t, target)
    ensures NormalizeDiffPath(t, StripCarriage(TargetText(target))) == PathOf(t, target)
  {
    match target
    case Named(path, trail) => NamedNormalizes(t, path, trail);
    case Quoted(escaped, trail) => QuotedNormalizes(t, escaped, trail);
    case DevNull => DevNullNormalizes(t);
  }

  predicate Octal(c: char) {
    '0' <= c <= '7'
  }

  /** The character that git writes as a backslash and this letter. */
  function Escaped(c: char): char {
    match c
    case 'a' => 7 as char
    case 'b' => 8 as char
    case 't' => '\t'
    case 'n' => '\n'
    case 'v' => 11 as char
    case 'f' => 12 as char
    case 'r' => '\r'
    case _ => c
  }

  /** The path that a quoted text stands for, byte by byte. */
  function Unquote(s: string): string {
    if s == "" then ""
    else if s[0] != '\\' || |s| == 1 then [s[0]] + Unquote(s[1..])
    else if |s| >= 4 && Octal(s[1]) && Octal(s[2]) && Octal(s[3]) then
      [(64 * (s[1] - '0') as int + 8 * (s[2] - '0') as int + (s[3] - '0') as int) as char] + Unquote(s[4..])
    else [Escaped(s[1])] + Unquote(s[2..])
  }

  lemma {:induction false} UnquoteNeverLengthens(s: string)
    ensures |Unquote(s)| <= |s|
    decreases |s|
  {
    if s == "" {
    } else if s[0] != '\\' || |s| == 1 {
      UnquoteNeverLengthens(s[1..]);
    } else if |s| >= 4 && Octal(s[1]) && Octal(s[2]) && Octal(s[3]) {
      UnquoteNeverLengthens(s[4..]);
    } else {
      UnquoteNeverLengthens(s[2..]);
    }
  }

  /** The path the file has, if it has one. */
  function OwnPath(target: Target): Option<string> {
    match target
    case Named(path, _) => Some(path)
    case Quoted(escaped, _) => Some(Unquote(escaped))
    case DevNull => None
  }

  /** A file keeps its own path exactly when git need not quote it and it does not end in white space. */
  lemma KeepsItsPathExactly(t: Tables, target: Target)
    requires Sane(t) && ValidTarget(t, target)
    ensures NormalizeDiffPath(t, StripCarriage(TargetText(target))) == OwnPath(target) <==>
            && !target.Quoted?
            && (target.Named? && target.path != "" ==> !t.whitespace(target.path[|target.path| - 1]))
  {
    TargetNormalizes(t, target);
    match target
    case Named(path, _) => TrimEndKeeps(t.whitespace, path);
    case Quoted(escaped, _) => UnquoteNeverLengthens(escaped);
    case DevNull =>
  }

  /** Targets that are read as the same path. */
  predicate SamePath(t: Tables, a: Target, b: Target) {
    match (a, b)
    case (Named(p, _), Named(q, _)) => TrimEnd(t.whitespace, p) == TrimEnd(t.whitespace, q)
    case (Quoted(p, _), Quoted(q, _)) => p == q
    case (Named(p, _), Quoted(q, _)) => TrimEnd(t.whitespace, p) == "\"b/" + q + "\""
    case (Quoted(p, _), Named(q, _)) => TrimEnd(t.whitespace, q) == "\"b/" + p + "\""
    case (DevNull, DevNull) => true
    case _ => false
  }

  /** Two files are told apart exactly when their paths differ in more than white space at the end, or in how they are quoted. */
  lemma PathsToldApartExactly(t: Tables, a: Target, b: Target)
    requires Sane(t) && ValidTarget(t, a) && ValidTarget(t, b)
    ensures NormalizeDiffPath(t, StripCarriage(TargetText(a))) == NormalizeDiffPath(t, StripCarriage(TargetText(b))) <==>
            SamePath(t, a, b)
  {
    TargetNormalizes(t, a);
    TargetNormalizes(t, b);
    if a.Quoted? && b.Quoted? {
      QuotesCancel(a.escaped, b.escaped);
    }
  }

  lemma QuotesCancel(p: string, q: string)
    ensures "\"b/" + p + "\"" == "\"b/" + q + "\"" <==> p == q
  {
    var x, y := "\"b/" + p + "\"", "\"b/" + q + "\"";
    assert x[3..|x| - 1] == p && y[3..|y| - 1] == q;
  }

  /** A path with a tab in it is filed under its quoted spelling. */
  lemma QuotedPathIsKept(t: Tables)
    requires Sane(t)
    ensures OwnPath(Quoted("a\\tb", "")) == Some("a\tb")
    ensures NormalizeDiffPath(t, StripCarriage(TargetText(Quoted("a\\tb", "")))) == Some("\"b/a\\tb\"")
  {
    var s := "a\\tb";
    assert s[1..] == "\\tb" && s[1..][2..] == "b" && "b"[1..] == "";
    assert Unquote("b") == "b";
    assert Unquote("\\tb") == ['\t'] + Unquote("b") == "\tb";
    assert Unquote(s) == ['a'] + Unquote("\\tb") == "a\tb";
    TargetNormalizes(t, Quoted(s, ""));
    assert "\"b/" + s + "\"" == "\"b/a\\tb\"";
  }

  /** The file `foo ` is filed under the path of `foo`. */
  lemma TrailingBlankIsLost(t: Tables)
    requires Sane(t) && t.whitespace(' ') && t.whitespace('\t') && !t.whitespace('o')
    ensures NormalizeDiffPath(t, StripCarriage(TargetText(Named("foo ", "\t")))) == Some("foo")
    ensures NormalizeDiffPath(t, StripCarriage(TargetText(Named("foo", "")))) == Some("foo")
  {
    TargetNormalizes(t, Named("foo ", "\t"));
    TargetNormalizes(t, Named("foo", ""));
    TrimEndKeeps(t.whitespace, "foo");
    TrimEndBlank(t.whitespace, "foo", " ");
    assert "foo" + " " == "foo ";
  }

  // ---------- Whole files ----------

  lemma {:induction false} HeadersScan(t: Tables, from: Scan, headers: seq<string>)
    requires forall i | 0 <= i < |headers| :: ValidHeader(headers[i])
    ensures ScanLines(t, from, Stripped(headers)) == from
  {
    if headers == [] {
    } else {
      var n := |headers| - 1;
      HeadersScan(t, from, headers[..n]);
      assert Stripped(headers)[..n] == Stripped(headers[..n]);
      HeaderScans(t, from, headers[n]);
    }
  }

  lemma HeaderScans(t: Tables, from: Scan, header: string)
    requires ValidHeader(header)
    ensures ScanLine(t, from, StripCarriage(header)) == from
  {
    var line := StripCarriage(header);
    assert line <= header;
    FirstCharacter(line);
    FirstCharacter(header);
    StripAddsNoMark(header);
    assert Plus(from.sum, NOTHING) == from.sum;
  }

  lemma StripAddsNoMark(header: string)
    ensures FileHeader(StripCarriage(header)) ==> FileHeader(header)
    ensures HunkHeader(StripCarriage(header)) ==> HunkHeader(header)
  {
    var line := StripCarriage(header);
    assert line <= header;
    if FileHeader(line) {
      assert header[..11] == line[..11];
    }
    if HunkHeader(line) {
      assert header[..3] == line[..3];
    }
  }

  lemma TitleScans(t: Tables, from: Scan, title: string)
    ensures ScanLine(t, from, StripCarriage("diff --git " + title)) == Scan(OUTSIDE, from.sum)
  {
    var line := StripCarriage("diff --git " + title);
    assert "diff --git " <= line by {
      assert ("diff --git " + title)[..11] == "diff --git ";
      assert "diff --git "[10] == ' ';
    }
    HeaderStep(t, from, line);
  }

  lemma OldNameScans(t: Tables, from: Scan, name: string)
    requires !from.place.inHunk
    ensures ScanLine(t, from, StripCarriage("--- " + name)) == from
  {
    var line := StripCarriage("--- " + name);
    assert "--- " <= line by {
      assert ("--- " + name)[..4] == "--- ";
      assert "--- "[3] == ' ';
    }
    FirstCharacter(line);
    assert Plus(from.sum, NOTHING) == from.sum;
  }

  lemma NewNameScans(t: Tables, from: Scan, target: Target)
    requires Sane(t) && ValidTarget(t, target) && !from.place.inHunk
    ensures ScanLine(t, from, StripCarriage("+++ " + TargetText(target))) == Scan(Place(PathOf(t, target), false), from.sum)
  {
    var text := TargetText(target);
    StripKeepsMark(' ', text);
    assert "+++ " + text == "+++" + ([' '] + text) && "+++" + ([' '] + StripCarriage(text)) == "+++ " + StripCarriage(text);
    StripBehind("+++", [' '] + text);
    NewNameLine(t, from, StripCarriage(text));
    TargetNormalizes(t, target);
  }

  lemma NewNameLine(t: Tables, from: Scan, name: string)
    requires !from.place.inHunk
    ensures ScanLine(t, from, "+++ " + name) == Scan(Place(NormalizeDiffPath(t, name), false), from.sum)
  {
    var line := "+++ " + name;
    assert line[..4] == "+++ " && line[4..] == name;
    FirstCharacter(line);
    assert NewName(line);
    assert Plus(from.sum, NOTHING) == from.sum;
  }

  lemma BodyScans(t: Tables, from: Scan, body: Body)
    requires Sane(t) && ValidTarget(t, body.target) && from.place == OUTSIDE
    ensures ScanLines(t, from, Stripped(BodyText(body))).sum == Plus(from.sum, HunksMeaning(t, PathOf(t, body.target), body.hunks))
  {
    var oldLine, newLine, rest := "--- " + body.oldName, "+++ " + TargetText(body.target), HunksText(body.hunks);
    StrippedConcat([oldLine], [newLine] + rest);
    StrippedConcat([newLine], rest);
    assert Stripped([oldLine]) == [StripCarriage(oldLine)] && Stripped([newLine]) == [StripCarriage(newLine)];
    ScanFirst(t, from, StripCarriage(oldLine), Stripped([newLine] + rest));
    OldNameScans(t, from, body.oldName);
    ScanFirst(t, from, StripCarriage(newLine), Stripped(rest));
    NewNameScans(t, from, body.target);
    HunksScan(t, Scan(Place(PathOf(t, body.target), false), from.sum), body.hunks);
  }

  lemma FileScans(t: Tables, from: Scan, f: FileDiff)
    requires Sane(t) && ValidFile(t, f)
    ensures ScanLines(t, from, Stripped(FileText(f))).sum == Plus(from.sum, FileMeaning(t, f))
  {
    var title := "diff --git " + f.title;
    var body := if f.body.Some? then BodyText(f.body.value) else [];
    var start := Scan(OUTSIDE, from.sum);
    StrippedConcat([title], f.headers + body);
    StrippedConcat(f.headers, body);
    assert Stripped([title]) == [StripCarriage(title)];
    ScanFirst(t, from, StripCarriage(title), Stripped(f.headers + body));
    TitleScans(t, from, f.title);
    ScanConcat(t, start, Stripped(f.headers), Stripped(body));
    HeadersScan(t, start, f.headers);
    if f.body.Some? {
      BodyScans(t, start, f.body.value);
    } else {
      assert Plus(from.sum, NOTHING) == from.sum;
    }
  }

  lemma {:induction false} FilesScan(t: Tables, fs: seq<FileDiff>)
    requires Sane(t) && forall i | 0 <= i < |fs| :: ValidFile(t, fs[i])
    ensures ScanLines(t, Scan(OUTSIDE, NOTHING), Stripped(FilesText(fs))).sum == FilesMeaning(t, fs)
  {
    if fs == [] {
    } else {
      var n := |fs| - 1;
      var start := Scan(OUTSIDE, NOTHING);
      FilesScan(t, fs[..n]);
      StrippedConcat(FilesText(fs[..n]), FileText(fs[n]));
      ScanConcat(t, start, Stripped(FilesText(fs[..n])), Stripped(FileText(fs[n])));
      FileScans(t, ScanLines(t, start, Stripped(FilesText(fs[..n]))), fs[n]);
    }
  }

  lemma OneLineConcat(a: seq<string>, b: seq<string>)
    requires AllOneLine(a) && AllOneLine(b)
    ensures AllOneLine(a + b)
  {
  }

  lemma LineTextOneLine(l: HunkLine)
    requires OneLine(l.text)
    ensures OneLine(LineText(l))
  {
  }

  lemma HunkOneLine(h: Hunk)
    requires ValidHunk(h)
    ensures AllOneLine(HunkText(h))
  {
    forall i | 0 <= i < |h.lines|
      ensures OneLine(LinesText(h.lines)[i])
    {
      LineTextOneLine(h.lines[i]);
    }
    OneLineConcat(["@@ " + h.range], LinesText(h.lines));
  }

  lemma {:induction false} HunksOneLine(hs: seq<Hunk>)
    requires forall i | 0 <= i < |hs| :: ValidHunk(hs[i])
    ensures AllOneLine(HunksText(hs))
  {
    if hs == [] {
    } else {
      HunksOneLine(hs[..|hs| - 1]);
      HunkOneLine(hs[|hs| - 1]);
    }
  }

  lemma FileOneLine(t: Tables, f: FileDiff)
    requires ValidFile(t, f)
    ensures AllOneLine(FileText(f))
  {
    assert OneLine("diff --git " + f.title);
    if f.body.Some? {
      var body := f.body.value;
      HunksOneLine(body.hunks);
      assert OneLine("--- " + body.oldName) && OneLine("+++ " + TargetText(body.target));
      OneLineConcat(["+++ " + TargetText(body.target)], HunksText(body.hunks));
      OneLineConcat(["--- " + body.oldName], ["+++ " + TargetText(body.target)] + HunksText(body.hunks));
      OneLineConcat(f.headers, BodyText(body));
    }
  }

  lemma {:induction false} FilesOneLine(t: Tables, fs: seq<FileDiff>)
    requires forall i | 0 <= i < |fs| :: ValidFile(t, fs[i])
    ensures AllOneLine(FilesText(fs))
  {
    if fs == [] {
    } else {
      FilesOneLine(t, fs[..|fs| - 1]);
      FileOneLine(t, fs[|fs| - 1]);
    }
  }

  /**
   Summarising the text of a diff gives exactly its added and deleted lines and,
   in order, the fingerprints of its added lines under the path each file is read as,
   even when the lines look like headers.
   */
  lemma SummaryRecoversDiff(t: Tables, fs: seq<FileDiff>)
    requires Sane(t) && forall i | 0 <= i < |fs| :: ValidFile(t, fs[i])
    ensures SummaryOf(t, RenderDiff(fs)) == FilesMeaning(t, fs)
  {
    FilesOneLine(t, fs);
    LinesOfRendered(FilesText(fs));
    FilesScan(t, fs);
  }
}
