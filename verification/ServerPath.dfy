/**
 Paths of the app-server host, handled without knowing the host
 (codex-rs/app-server-client/src/path.rs).
 */
module ServerPath {
  import opened Strings

  predicate Letter(c: char) {
    'a' <= c <= 'z' || 'A' <= c <= 'Z'
  }

  predicate Windows(path: string) {
    || (|path| >= 3 && Letter(path[0]) && path[1] == ':' && (path[2] == '\\' || path[2] == '/'))
    || (|path| >= 2 && path[0] == '\\' && path[1] == '\\')
    || (|path| >= 2 && path[0] == '/' && path[1] == '/')
  }

  /** What `from_absolute_str` lets through. */
  predicate Absolute(path: string) {
    (path != "" && path[0] == '/') || Windows(path)
  }

  function Separator(windows: bool): char -> bool {
    if windows then c => c == '/' || c == '\\' else c => c == '/'
  }

  function Components(path: string): seq<string> {
    Words(Separator(Windows(path)), path)
  }

  function Join(path: string, segment: string): string {
    var windows := Windows(path);
    TrimEnd(Separator(windows), path) + ([if windows then '\\' else '/'] + segment)
  }

  lemma {:induction false} TrimEndEmpty(cut: char -> bool, s: string)
    ensures TrimEnd(cut, s) == "" <==> Words(cut, s) == []
    ensures TrimEnd(cut, s) <= s
    ensures TrimEnd(cut, s) != "" ==> !cut(TrimEnd(cut, s)[|TrimEnd(cut, s)| - 1])
  {
    WordsOfTrimEnd(cut, s);
    TrimIsPrefix(cut, s);
    var t := TrimEnd(cut, s);
    if t != "" {
      SomeWord(cut, t);
    }
  }

  lemma {:induction false} TrimIsPrefix(cut: char -> bool, s: string)
    ensures TrimEnd(cut, s) <= s
    ensures TrimEnd(cut, s) != "" ==> !cut(TrimEnd(cut, s)[|TrimEnd(cut, s)| - 1])
  {
    if s != "" && cut(s[|s| - 1]) {
      TrimIsPrefix(cut, s[..|s| - 1]);
    }
  }

  lemma {:induction false} SomeWord(cut: char -> bool, s: string)
    requires s != "" && !cut(s[|s| - 1])
    ensures Words(cut, s) != []
    decreases |s|
  {
    if cut(s[0]) {
      SomeWord(cut, s[1..]);
    }
  }

  /** A segment that leaves a bare root on its host. */
  predicate KeepsRoot(windows: bool, segment: string) {
    if windows then "\\" <= segment else !("/" <= segment)
  }

  /**
   Joining keeps the host an absolute path belongs to exactly when the path has a
   component, or the segment makes up for it.
   */
  lemma JoinKeepsHostExactly(path: string, segment: string)
    requires Absolute(path)
    ensures Windows(Join(path, segment)) == Windows(path) <==>
            Components(path) != [] || KeepsRoot(Windows(path), segment)
  {
    var cut := Separator(Windows(path));
    var front := TrimEnd(cut, path);
    TrimEndEmpty(cut, path);
    if front == "" {
      assert segment != "" ==> segment[..1] == [segment[0]];
      assert path != "" && cut(path[0]) by { NoWordsFirst(cut, path); }
    } else {
      KeepsHost(path, front, [if Windows(path) then '\\' else '/'] + segment);
    }
  }

  lemma NoWordsFirst(cut: char -> bool, s: string)
    requires Words(cut, s) == []
    ensures s == "" || cut(s[0])
  {
  }

  /** Cutting separators off a path with components leaves its root in place. */
  lemma KeepsHost(path: string, front: string, rest: string)
    requires Absolute(path) && front != "" && front <= path
    requires front == TrimEnd(Separator(Windows(path)), path)
    requires rest != "" && rest[0] == (if Windows(path) then '\\' else '/')
    ensures Windows(front + rest) == Windows(path)
  {
    var s, cut := front + rest, Separator(Windows(path));
    TrimIsPrefix(cut, path);
    assert !cut(front[|front| - 1]);
    assert forall i | 0 <= i < |front| :: s[i] == front[i] == path[i];
    assert s[|front|] == rest[0];
    if |path| > 1 && !cut(path[1]) {
      TrimKeeps(cut, path, 1);
    }
  }

  lemma {:induction false} TrimKeeps(cut: char -> bool, s: string, i: nat)
    requires i < |s| && !cut(s[i])
    ensures i < |TrimEnd(cut, s)|
  {
    if cut(s[|s| - 1]) {
      TrimKeeps(cut, s[..|s| - 1], i);
    }
  }

  /** Joining an absolute segment to the root of one host gives a path on the other. */
  lemma RootJoinFlipsHost()
    ensures !Windows("/") && Windows(Join("/", "/x"))
    ensures Windows("//") && !Windows(Join("//", "x"))
  {
    var front := TrimEnd(Separator(false), "/");
    assert "/"[..0] == "" && front == "";
    assert "//"[..1] == "/";
    assert Join("/", "/x") == "//x";
    assert TrimEnd(Separator(true), "//") == "";
    assert Join("//", "x") == "\\x";
  }

  lemma WordsOfTail(cut: char -> bool, sep: char, segment: string)
    requires cut(sep)
    ensures Words(cut, [sep] + segment) == Words(cut, segment)
  {
    assert ([sep] + segment)[1..] == segment;
  }

  /** As long as the host is kept, a segment adds its components, split by the rules of the path it is joined to. */
  lemma JoinAppendsComponents(path: string, segment: string)
    requires Absolute(path) && Windows(Join(path, segment)) == Windows(path)
    ensures Components(Join(path, segment)) == Components(path) + Words(Separator(Windows(path)), segment)
  {
    var cut := Separator(Windows(path));
    var front, sep := TrimEnd(cut, path), if Windows(path) then '\\' else '/';
    WordsConcat(cut, front, [sep] + segment);
    WordsOfTrimEnd(cut, path);
    WordsOfTail(cut, sep, segment);
  }

  /** Without backslashes both hosts split alike. */
  lemma {:induction false} SplitAlike(s: string)
    requires '\\' !in s
    ensures WordLength(Separator(true), s) == WordLength(Separator(false), s)
    ensures Words(Separator(true), s) == Words(Separator(false), s)
    decreases |s|
  {
    if s == "" {
    } else {
      assert s[0] in s;
      SplitAlike(s[1..]);
      if s[0] != '/' {
        SplitAlike(s[WordLength(Separator(false), s)..]);
      }
    }
  }

  /** A character that does not separate is in some word. */
  lemma {:induction false} InSomeWord(cut: char -> bool, s: string, c: char) returns (i: nat)
    requires c in s && !cut(c)
    ensures i < |Words(cut, s)| && c in Words(cut, s)[i]
    decreases |s|
  {
    if cut(s[0]) {
      i := InSomeWord(cut, s[1..], c);
    } else {
      var n := WordLength(cut, s);
      if c in s[..n] {
        i := 0;
      } else {
        assert s == s[..n] + s[n..];
        i := InSomeWord(cut, s[n..], c);
        i := i + 1;
      }
    }
  }

  /** A text with a backslash is split differently by the two hosts. */
  lemma SplitApart(s: string, t: string)
    requires '\\' in s
    ensures Words(Separator(false), s) != Words(Separator(true), t)
  {
    var i := InSomeWord(Separator(false), s, '\\');
    WordsAreWords(Separator(true), t);
    if i < |Words(Separator(true), t)| {
      assert IsWord(Separator(true), Words(Separator(true), t)[i]);
    }
  }

  /**
   A join appends exactly the components of the segment if and only if it keeps
   the host, or goes from a bare slash to a share without backslashes.
   */
  lemma JoinAppendsExactly(path: string, segment: string)
    requires Absolute(path)
    ensures Components(Join(path, segment)) == Components(path) + Words(Separator(Windows(path)), segment) <==>
            Windows(Join(path, segment)) == Windows(path) || (!Windows(path) && '\\' !in segment)
  {
    if Windows(Join(path, segment)) == Windows(path) {
      JoinAppendsComponents(path, segment);
    } else {
      JoinKeepsHostExactly(path, segment);
      TrimEndEmpty(Separator(Windows(path)), path);
      assert Components(path) == [] && TrimEnd(Separator(Windows(path)), path) == "";
      if Windows(path) {
        assert Join(path, segment) == ['\\'] + segment;
        assert (['\\'] + segment)[0] in ['\\'] + segment;
        SplitApart(['\\'] + segment, segment);
      } else {
        assert Join(path, segment) == ['/'] + segment;
        WordsOfTail(Separator(true), '/', segment);
        if '\\' in segment {
          SplitApart(segment, segment);
        } else {
          SplitAlike(segment);
        }
      }
    }
  }

  /** A join is absolute unless it strips a bare Windows root of its second separator. */
  lemma JoinStaysAbsoluteExactly(path: string, segment: string)
    requires Absolute(path)
    ensures Absolute(Join(path, segment)) <==> Components(path) != [] || !Windows(path) || KeepsRoot(true, segment)
  {
    JoinKeepsHostExactly(path, segment);
    var front := TrimEnd(Separator(Windows(path)), path);
    TrimEndEmpty(Separator(Windows(path)), path);
    if front != "" {
      assert Join(path, segment)[0] == front[0] == path[0];
    }
  }

  lemma SafeJoin(path: string, segment: string)
    requires Absolute(path) && (Components(path) != [] || KeepsRoot(Windows(path), segment))
    ensures Absolute(Join(path, segment)) && Windows(Join(path, segment)) == Windows(path)
    ensures Components(Join(path, segment)) == Components(path) + Words(Separator(Windows(path)), segment)
  {
    JoinKeepsHostExactly(path, segment);
    JoinAppendsComponents(path, segment);
    JoinStaysAbsoluteExactly(path, segment);
  }

  function JoinAll(path: string, segments: seq<string>): string {
    if segments == [] then path else Join(JoinAll(path, segments[..|segments| - 1]), segments[|segments| - 1])
  }

  function AllWords(cut: char -> bool, segments: seq<string>): seq<string> {
    if segments == [] then [] else AllWords(cut, segments[..|segments| - 1]) + Words(cut, segments[|segments| - 1])
  }

  /** Until there is a component, each segment has to leave the root on its host. */
  predicate SafeJoins(path: string, segments: seq<string>) {
    segments == [] ||
    var n := |segments| - 1;
    SafeJoins(path, segments[..n]) && (Components(JoinAll(path, segments[..n])) != [] || KeepsRoot(Windows(path), segments[n]))
  }

  /** An absolute path on this kind of host with these components. */
  predicate Located(path: string, windows: bool, components: seq<string>) {
    Absolute(path) && Windows(path) == windows && Components(path) == components
  }

  lemma JoinMore(before: string, windows: bool, front: seq<string>, words: seq<string>, segment: string)
    requires Located(before, windows, front + words)
    requires Components(before) != [] || KeepsRoot(windows, segment)
    ensures Located(Join(before, segment), windows, front + (words + Words(Separator(windows), segment)))
  {
    SafeJoin(before, segment);
    ConcatAssociates(front, words, Words(Separator(windows), segment));
  }

  lemma ConcatAssociates<T>(a: seq<T>, b: seq<T>, c: seq<T>)
    ensures (a + b) + c == a + (b + c)
  {
  }

  /** Repeated joins append component lists. */
  lemma {:induction false} JoinsAppendComponents(path: string, segments: seq<string>)
    requires Absolute(path) && SafeJoins(path, segments)
    ensures Located(JoinAll(path, segments), Windows(path), Components(path) + AllWords(Separator(Windows(path)), segments))
  {
    if segments == [] {
      assert Components(path) + [] == Components(path);
    } else {
      var n := |segments| - 1;
      var windows := Windows(path);
      JoinsAppendComponents(path, segments[..n]);
      JoinMore(JoinAll(path, segments[..n]), windows, Components(path), AllWords(Separator(windows), segments[..n]), segments[n]);
    }
  }

  /** Any segments are safe on a path with components, and plain ones on any path. */
  lemma {:induction false} PlainJoinsAreSafe(path: string, segments: seq<string>)
    requires Absolute(path)
    requires Components(path) != [] || forall i | 0 <= i < |segments| :: KeepsRoot(Windows(path), segments[i])
    ensures SafeJoins(path, segments)
  {
    if segments == [] {
    } else {
      var n := |segments| - 1;
      PlainJoinsAreSafe(path, segments[..n]);
      JoinsAppendComponents(path, segments[..n]);
    }
  }
}
