/** Trimming and splitting, as the standard libraries of Rust and Python do them. */
module Strings {
  import opened Options

  predicate Digit(c: char) {
    '0' <= c <= '9'
  }

  predicate Digits(s: string) {
    s != "" && forall c | c in s :: Digit(c)
  }

  /** The last position of a character. */
  function LastIndex(s: string, c: char): (at: Option<nat>)
    ensures at.Some? ==> at.value < |s| && s[at.value] == c && c !in s[at.value + 1..]
    ensures at.None? ==> c !in s
  {
    if s == "" then None
    else if s[|s| - 1] == c then Some(|s| - 1)
    else
      var at := LastIndex(s[..|s| - 1], c);
      assert s == s[..|s| - 1] + [s[|s| - 1]];
      assert at.Some? ==> s[at.value + 1..] == s[..|s| - 1][at.value + 1..] + [s[|s| - 1]];
      at
  }

  lemma {:induction false} LastIndexBehind(front: string, tail: string, c: char)
    requires tail != "" && tail[0] == c && c !in tail[1..]
    ensures LastIndex(front + tail, c) == Some(|front|)
  {
    var s, n := front + tail, |tail| - 1;
    assert s[|s| - 1] == tail[n];
    if n == 0 {
    } else {
      assert tail[n] == tail[1..][n - 1];
      assert s[..|s| - 1] == front + tail[..n];
      assert tail[..n][1..] == tail[1..][..n - 1];
      LastIndexBehind(front, tail[..n], c);
    }
  }

  function TrimStart(cut: char -> bool, s: string): string {
    if s != "" && cut(s[0]) then TrimStart(cut, s[1..]) else s
  }

  function TrimEnd(cut: char -> bool, s: string): string {
    if s != "" && cut(s[|s| - 1]) then TrimEnd(cut, s[..|s| - 1]) else s
  }

  function Trim(cut: char -> bool, s: string): string {
    TrimEnd(cut, TrimStart(cut, s))
  }

  /** Length of the word at the front. */
  function WordLength(cut: char -> bool, s: string): (n: nat)
    ensures n <= |s|
    ensures s != "" && !cut(s[0]) ==> n > 0
  {
    if s == "" || cut(s[0]) then 0 else 1 + WordLength(cut, s[1..])
  }

  /** The maximal runs without a cut character: splitting with the empty parts dropped. */
  function Words(cut: char -> bool, s: string): seq<string>
    decreases |s|
  {
    if s == "" then []
    else if cut(s[0]) then Words(cut, s[1..])
    else
      var n := WordLength(cut, s);
      [s[..n]] + Words(cut, s[n..])
  }

  lemma {:induction false} WordLengthBefore(cut: char -> bool, s: string, rest: string)
    requires rest == "" || cut(rest[0])
    ensures WordLength(cut, s + rest) == WordLength(cut, s)
  {
    if s == "" {
      assert s + rest == rest;
    } else {
      assert (s + rest)[1..] == s[1..] + rest;
      WordLengthBefore(cut, s[1..], rest);
    }
  }

  /** Words on both sides of a cut do not mix. */
  lemma {:induction false} WordsConcat(cut: char -> bool, s: string, rest: string)
    requires rest == "" || cut(rest[0])
    ensures Words(cut, s + rest) == Words(cut, s) + Words(cut, rest)
    decreases |s|
  {
    if s == "" {
      assert s + rest == rest;
    } else if cut(s[0]) {
      assert (s + rest)[1..] == s[1..] + rest;
      WordsConcat(cut, s[1..], rest);
    } else {
      var n := WordLength(cut, s);
      WordLengthBefore(cut, s, rest);
      assert (s + rest)[..n] == s[..n] && (s + rest)[n..] == s[n..] + rest;
      WordsConcat(cut, s[n..], rest);
      assert [s[..n]] + (Words(cut, s[n..]) + Words(cut, rest)) == ([s[..n]] + Words(cut, s[n..])) + Words(cut, rest);
    }
  }

  lemma {:induction false} WordsOfTrimEnd(cut: char -> bool, s: string)
    ensures Words(cut, TrimEnd(cut, s)) == Words(cut, s)
  {
    if s != "" && cut(s[|s| - 1]) {
      var n := |s| - 1;
      WordsOfTrimEnd(cut, s[..n]);
      var last := [s[n]];
      assert s == s[..n] + last && last[1..] == "";
      WordsConcat(cut, s[..n], last);
      assert Words(cut, last) == [];
    }
  }

  predicate IsWord(cut: char -> bool, w: string) {
    w != "" && forall i | 0 <= i < |w| :: !cut(w[i])
  }

  lemma {:induction false} FrontIsWord(cut: char -> bool, s: string)
    ensures forall i | 0 <= i < WordLength(cut, s) :: !cut(s[i])
    ensures WordLength(cut, s) < |s| ==> cut(s[WordLength(cut, s)])
  {
    if s != "" && !cut(s[0]) {
      FrontIsWord(cut, s[1..]);
      assert forall i | 1 <= i < |s| :: s[i] == s[1..][i - 1];
    }
  }

  lemma {:induction false} WordsAreWords(cut: char -> bool, s: string)
    ensures forall i | 0 <= i < |Words(cut, s)| :: IsWord(cut, Words(cut, s)[i])
    decreases |s|
  {
    if s == "" {
    } else {
      if cut(s[0]) {
        WordsAreWords(cut, s[1..]);
      } else {
        FrontIsWord(cut, s);
        WordsAreWords(cut, s[WordLength(cut, s)..]);
      }
    }
  }

  lemma WordOfWord(cut: char -> bool, w: string)
    requires IsWord(cut, w)
    ensures WordLength(cut, w) == |w| && Words(cut, w) == [w]
  {
    FrontIsWord(cut, w);
    var n := WordLength(cut, w);
    assert n == |w|;
    assert w[..n] == w && w[n..] == "";
    assert Words(cut, "") == [];
    assert Words(cut, w) == [w[..n]] + Words(cut, w[n..]);
  }

  /** A word followed by a cut is read as that word and the rest. */
  lemma WordsFront(cut: char -> bool, w: string, rest: string)
    requires IsWord(cut, w) && (rest == "" || cut(rest[0]))
    ensures WordLength(cut, w + rest) == |w|
    ensures Words(cut, w + rest) == [w] + Words(cut, rest)
  {
    WordOfWord(cut, w);
    WordLengthBefore(cut, w, rest);
    WordsConcat(cut, w, rest);
  }

  predicate Blank(cut: char -> bool, s: string) {
    forall i | 0 <= i < |s| :: cut(s[i])
  }

  lemma {:induction false} TrimStartBlank(cut: char -> bool, blank: string, s: string)
    requires Blank(cut, blank) && (s == "" || !cut(s[0]))
    ensures TrimStart(cut, blank + s) == s
  {
    if blank == "" {
      assert blank + s == s;
    } else {
      assert (blank + s)[1..] == blank[1..] + s;
      TrimStartBlank(cut, blank[1..], s);
    }
  }

  lemma {:induction false} TrimEndBlank(cut: char -> bool, s: string, trail: string)
    requires Blank(cut, trail)
    ensures TrimEnd(cut, s + trail) == TrimEnd(cut, s)
  {
    if trail == "" {
      assert s + trail == s;
    } else {
      var n := |trail| - 1;
      assert (s + trail)[..|s| + n] == s + trail[..n];
      TrimEndBlank(cut, s, trail[..n]);
    }
  }

  /** Trimming stops at the latest at the front's last character. */
  lemma {:induction false} TrimEndFront(cut: char -> bool, front: string, s: string)
    requires front != "" && !cut(front[|front| - 1])
    ensures TrimEnd(cut, front + s) == front + TrimEnd(cut, s)
  {
    if s == "" {
      assert front + s == front;
    } else {
      var n := |s| - 1;
      assert (front + s)[..|front| + n] == front + s[..n];
      TrimEndFront(cut, front, s[..n]);
    }
  }

  /** Nothing is trimmed off exactly when there is no blank at the end. */
  lemma {:induction false} TrimEndKeeps(cut: char -> bool, s: string)
    ensures TrimEnd(cut, s) == s <==> s == "" || !cut(s[|s| - 1])
  {
    if s != "" && cut(s[|s| - 1]) {
      TrimEndShorter(cut, s[..|s| - 1]);
    }
  }

  lemma {:induction false} TrimEndShorter(cut: char -> bool, s: string)
    ensures |TrimEnd(cut, s)| <= |s|
  {
    if s == "" {
    } else {
      TrimEndShorter(cut, s[..|s| - 1]);
    }
  }
}
