/**
 Checksum-verified downloads (scripts/codex_package/v8.py,
 scripts/codex_package/dotslash.py).  The disk is a map, SHA-256 a parameter, and
 what the network sends, or where it breaks off, an input.
 */
module ArtifactCache {
  import opened Options
  import opened Strings

  type Path = string
  type Content = string
  type Files = map<Path, Content>

  /** The chunks a download delivers, and whether it reached its end. */
  datatype Response = Unreachable | Response(chunks: seq<Content>, complete: bool)

  function Concat(chunks: seq<Content>): Content {
    if chunks == [] then "" else Concat(chunks[..|chunks| - 1]) + chunks[|chunks| - 1]
  }

  function TempOf(path: Path): Path {
    path + ".tmp"
  }

  lemma TempIsOther(path: Path)
    ensures TempOf(path) != path
  {
    assert |TempOf(path)| == |path| + 4;
  }

  function Look(files: Files, path: Path): Option<Content> {
    if path in files then Some(files[path]) else None
  }

  /** Whatever else changed, `path` holds one of `allowed` and all but `path` and its temporary file are as before. */
  ghost predicate Within(before: Files, now: Files, path: Path, allowed: set<Option<Content>>) {
    && Look(now, path) in allowed
    && forall p | p != path && p != TempOf(path) :: Look(now, p) == Look(before, p)
  }

  ghost predicate TraceWithin(before: Files, trace: seq<Files>, from: nat, path: Path, allowed: set<Option<Content>>) {
    forall i | from <= i < |trace| :: Within(before, trace[i], path, allowed)
  }

  predicate HasChecksum(sha256: Content -> string, files: Files, path: Path, digest: string) {
    path in files && sha256(files[path]) == digest
  }

  predicate Arrives(sha256: Content -> string, response: Response, digest: string) {
    response.Response? && response.complete && sha256(Concat(response.chunks)) == digest
  }

  /** An artifact can be had from the cache or from the network. */
  predicate Obtainable(sha256: Content -> string, files: Files, path: Path, digest: string, response: Response) {
    HasChecksum(sha256, files, path, digest) || Arrives(sha256, response, digest)
  }

  /** The trace goes on from `old_`. */
  ghost predicate Extends(old_: seq<Files>, trace: seq<Files>) {
    |old_| <= |trace| && trace[..|old_|] == old_
  }

  /** The disk; `trace` records every state it has been in. */
  class Disk {
    var files: Files
    ghost var trace: seq<Files>

    constructor (files: Files)
      ensures this.files == files && trace == [files]
    {
      this.files := files;
      trace := [files];
    }

    method Write(path: Path, content: Content)
      modifies this
      ensures files == old(files)[path := content] && trace == old(trace) + [files]
    {
      files := files[path := content];
      trace := trace + [files];
    }

    method Unlink(path: Path)
      modifies this
      ensures files == old(files) - {path} && trace == old(trace) + [files]
    {
      files := files - {path};
      trace := trace + [files];
    }

    /** An atomic rename over whatever is at `to`. */
    method Replace(from: Path, to: Path)
      requires from in files && from != to
      modifies this
      ensures files == (old(files) - {from})[to := old(files)[from]] && trace == old(trace) + [files]
    {
      files := (files - {from})[to := files[from]];
      trace := trace + [files];
    }

    /** Copies the chunks into a file, one write at a time. */
    method CopyChunks(temp: Path, chunks: seq<Content>)
      modifies this
      ensures files == old(files)[temp := Concat(chunks)]
      ensures Extends(old(trace), trace)
      ensures forall i | |old(trace)| <= i < |trace| :: OnlyDiffers(old(files), trace[i], temp) && Partial(Look(trace[i], temp), chunks)
    {
      assert chunks[..0] == [];
      Write(temp, Concat(chunks[..0]));
      for k := 0 to |chunks|
        invariant files == old(files)[temp := Concat(chunks[..k])]
        invariant Extends(old(trace), trace)
        invariant forall i | |old(trace)| <= i < |trace| ::
                    OnlyDiffers(old(files), trace[i], temp) && Partial(Look(trace[i], temp), chunks)
      {
        assert chunks[..k + 1][..k] == chunks[..k];
        Write(temp, Concat(chunks[..k]) + chunks[k]);
      }
      assert chunks[..|chunks|] == chunks;
    }

    /** Everything up to the rename: only the temporary file is touched. */
    method FillTemp(temp: Path, response: Response)
      modifies this
      ensures response.Response? ==> files == old(files)[temp := Concat(response.chunks)]
      ensures OnlyDiffers(old(files), files, temp)
      ensures Extends(old(trace), trace)
      ensures forall i | |old(trace)| <= i < |trace| :: OnlyDiffers(old(files), trace[i], temp)
    {
      Unlink(temp);
      if response.Response? {
        CopyChunks(temp, response.chunks);
      }
    }

    method DownloadFile(response: Response, dest: Path) returns (ok: bool)
      modifies this
      ensures ok <==> response.Response? && response.complete
      ensures files == if ok then (old(files) - {TempOf(dest)})[dest := Concat(response.chunks)] else old(files) - {TempOf(dest)}
      ensures Extends(old(trace), trace)
      ensures TraceWithin(old(files), trace, |old(trace)|, dest, {Look(old(files), dest)} + Delivered(response))
    {
      var temp := TempOf(dest);
      TempIsOther(dest);
      ghost var before, start, allowed := files, |trace|, {Look(files, dest)} + Delivered(response);
      FillTemp(temp, response);
      SameButTemp(before, files, temp);
      TempIsWithin(before, trace, start, dest, allowed);
      ok := response.Response? && response.complete;
      if ok {
        ghost var filled := trace;
        Replace(temp, dest);
        TraceGrows(before, filled, files, start, dest, allowed);
      }
      ghost var done := trace;
      Unlink(temp);
      TraceGrows(before, done, files, start, dest, allowed);
    }
  }

  lemma TempIsWithin(before: Files, trace: seq<Files>, from: nat, dest: Path, allowed: set<Option<Content>>)
    requires Look(before, dest) in allowed && forall i | from <= i < |trace| :: OnlyDiffers(before, trace[i], TempOf(dest))
    ensures TraceWithin(before, trace, from, dest, allowed)
  {
    TempIsOther(dest);
    forall i | from <= i < |trace|
      ensures Within(before, trace[i], dest, allowed)
    {
      assert OnlyDiffers(before, trace[i], TempOf(dest));
    }
  }

  lemma SameButTemp(a: Files, b: Files, temp: Path)
    requires OnlyDiffers(a, b, temp)
    ensures b - {temp} == a - {temp}
  {
    forall p | p != temp
      ensures p in a <==> p in b
      ensures p in a ==> a[p] == b[p]
    {
      assert Look(a, p) == Look(b, p);
    }
  }

  /** Some of the chunks have been written. */
  ghost predicate Partial(content: Option<Content>, chunks: seq<Content>) {
    exists k :: 0 <= k <= |chunks| && content == Some(Concat(chunks[..k]))
  }

  ghost predicate OnlyDiffers(a: Files, b: Files, path: Path) {
    forall p | p != path :: Look(a, p) == Look(b, p)
  }

  /** What a download can put at its destination. */
  function Delivered(response: Response): set<Option<Content>> {
    if response.Response? && response.complete then {Some(Concat(response.chunks))} else {}
  }

  /** A trace that is within bounds seen from a state that differs at `path` only. */
  lemma Rebase(before: Files, mid: Files, trace: seq<Files>, from: nat, path: Path,
               allowed: set<Option<Content>>, wider: set<Option<Content>>)
    requires OnlyDiffers(before, mid, path) && allowed <= wider
    requires TraceWithin(mid, trace, from, path, allowed)
    ensures TraceWithin(before, trace, from, path, wider)
  {
    forall i | from <= i < |trace|
      ensures Within(before, trace[i], path, wider)
    {
      assert Within(mid, trace[i], path, allowed);
      assert forall p | p != path :: Look(before, p) == Look(mid, p);
    }
  }

  /** The second half of `ensure_valid_artifact`, once the artifact was found wanting. */
  method Refetch(disk: Disk, sha256: Content -> string, artifact: Path, digest: string, response: Response)
    returns (ok: bool)
    modifies disk
    ensures ok <==> Arrives(sha256, response, digest)
    ensures ok ==> HasChecksum(sha256, disk.files, artifact, digest) && Look(disk.files, artifact) in Delivered(response)
    ensures !ok ==> artifact !in disk.files
    ensures forall p | p != artifact && p != TempOf(artifact) :: Look(disk.files, p) == Look(old(disk.files), p)
    ensures Extends(old(disk.trace), disk.trace)
    ensures TraceWithin(old(disk.files), disk.trace, |old(disk.trace)|, artifact, {None} + Delivered(response))
  {
    TempIsOther(artifact);
    ghost var before, start := disk.files, |disk.trace|;
    disk.Unlink(artifact);
    ghost var mid := disk.files;
    ok := disk.DownloadFile(response, artifact);
    Rebase(before, mid, disk.trace, start + 1, artifact, {None} + Delivered(response), {None} + Delivered(response));
    ghost var allowed := {None} + Delivered(response);
    assert disk.trace[start] == mid && Within(before, mid, artifact, allowed);
    assert TraceWithin(before, disk.trace, start, artifact, allowed);
    if ok && !HasChecksum(sha256, disk.files, artifact, digest) {
      ghost var trace := disk.trace;
      disk.Unlink(artifact);
      ok := false;
      TraceGrows(before, trace, disk.files, start, artifact, allowed);
    }
  }

  lemma TraceGrows(before: Files, trace: seq<Files>, now: Files, from: nat, path: Path, allowed: set<Option<Content>>)
    requires TraceWithin(before, trace, from, path, allowed) && Within(before, now, path, allowed)
    ensures TraceWithin(before, trace + [now], from, path, allowed)
  {
  }

  /** `ensure_valid_artifact`: afterwards the artifact matches, or is not there at all. */
  method EnsureValidArtifact(disk: Disk, sha256: Content -> string, artifact: Path, digest: string, response: Response)
    returns (ok: bool)
    modifies disk
    ensures ok ==> HasChecksum(sha256, disk.files, artifact, digest)
    ensures !ok ==> artifact !in disk.files
    ensures ok <==> Obtainable(sha256, old(disk.files), artifact, digest, response)
    ensures Look(disk.files, artifact) in {Look(old(disk.files), artifact)} + ({None} + Delivered(response))
    ensures forall p | p != artifact && p != TempOf(artifact) :: Look(disk.files, p) == Look(old(disk.files), p)
    ensures Extends(old(disk.trace), disk.trace)
    ensures TraceWithin(old(disk.files), disk.trace, |old(disk.trace)|, artifact, {None} + Delivered(response))
  {
    if HasChecksum(sha256, disk.files, artifact, digest) {
      return true;
    }
    ok := Refetch(disk, sha256, artifact, digest, response);
  }

  // ---------- Several files at once ----------

  /** What each of several files may hold besides what it held. */
  type Allowed = map<Path, set<Option<Content>>>

  function Temps(allowed: Allowed): set<Path> {
    set p | p in allowed :: TempOf(p)
  }

  /** Only these files and their temporaries differ, and each file holds one of its contents or what it held. */
  ghost predicate Steady(before: Files, now: Files, allowed: Allowed) {
    && (forall p | p in allowed :: Look(now, p) in allowed[p] || Look(now, p) == Look(before, p))
    && (forall p | p !in allowed && p !in Temps(allowed) :: Look(now, p) == Look(before, p))
  }

  ghost predicate SteadyFrom(before: Files, trace: seq<Files>, from: nat, allowed: Allowed) {
    forall i | from <= i < |trace| :: Steady(before, trace[i], allowed)
  }

  /** Steps that concern some of the files keep the whole steady. */
  predicate PartOf(part: Allowed, whole: Allowed) {
    && (forall p | p in part :: p in whole && part[p] <= whole[p])
    && Temps(part) !! whole.Keys
  }

  lemma SteadyThen(before: Files, mid: Files, now: Files, part: Allowed, whole: Allowed)
    requires Steady(before, mid, whole) && Steady(mid, now, part) && PartOf(part, whole)
    ensures Steady(before, now, whole)
  {
    assert Temps(part) <= Temps(whole);
    forall p | p in whole
      ensures Look(now, p) in whole[p] || Look(now, p) == Look(before, p)
    {
      if p !in part {
        assert p !in Temps(part);
      }
    }
  }

  lemma SteadyTrace(before: Files, mid: Files, trace: seq<Files>, from: nat, part: Allowed, whole: Allowed)
    requires Steady(before, mid, whole) && SteadyFrom(mid, trace, from, part) && PartOf(part, whole)
    ensures SteadyFrom(before, trace, from, whole)
  {
    forall i | from <= i < |trace|
      ensures Steady(before, trace[i], whole)
    {
      SteadyThen(before, mid, trace[i], part, whole);
    }
  }

  /** One file within its bounds is steady. */
  lemma WithinIsSteady(before: Files, trace: seq<Files>, from: nat, path: Path, allowed: set<Option<Content>>)
    requires TraceWithin(before, trace, from, path, allowed + {Look(before, path)})
    ensures SteadyFrom(before, trace, from, map[path := allowed])
  {
    forall i | from <= i < |trace|
      ensures Steady(before, trace[i], map[path := allowed])
    {
      assert Within(before, trace[i], path, allowed + {Look(before, path)});
      assert TempOf(path) in Temps(map[path := allowed]);
    }
  }

  lemma TraceWidens(before: Files, trace: seq<Files>, from: nat, path: Path, allowed: set<Option<Content>>, wider: set<Option<Content>>)
    requires TraceWithin(before, trace, from, path, allowed) && allowed <= wider
    ensures TraceWithin(before, trace, from, path, wider)
  {
  }

  lemma SteadyNow(before: Files, now: Files, path: Path, allowed: set<Option<Content>>)
    requires Look(now, path) in {Look(before, path)} + allowed
    requires forall p | p != path && p != TempOf(path) :: Look(now, p) == Look(before, p)
    ensures Steady(before, now, map[path := allowed])
  {
    assert TempOf(path) in Temps(map[path := allowed]);
  }

  /** A trace that was steady up to `mid` and is steady behind it. */
  lemma SteadyJoins(before: Files, old_: seq<Files>, trace: seq<Files>, from: nat, allowed: Allowed)
    requires Extends(old_, trace)
    requires SteadyFrom(before, old_, from, allowed) && SteadyFrom(before, trace, |old_|, allowed)
    ensures SteadyFrom(before, trace, from, allowed)
  {
    forall i | from <= i < |trace|
      ensures Steady(before, trace[i], allowed)
    {
      if i < |old_| {
        assert trace[i] == trace[..|old_|][i] == old_[i];
      }
    }
  }

  // ---------- Checksum manifests ----------

  /** A line's digest and artifact name, or None when it has fewer than two words. */
  function Fields(ws: char -> bool, line: string): Option<(string, string)> {
    var text := TrimStart(ws, line);
    var n := WordLength(ws, text);
    var rest := Trim(ws, text[n..]);
    if n == 0 || rest == "" then None else Some((text[..n], rest))
  }

  /** A line as `sha256sum` writes it reads back as its two fields. */
  lemma FieldsOfLine(ws: char -> bool, digest: string, gap: string, name: string)
    requires IsWord(ws, digest) && gap != "" && Blank(ws, gap)
    requires name != "" && !ws(name[0]) && !ws(name[|name| - 1])
    ensures Fields(ws, digest + (gap + name)) == Some((digest, name))
  {
    var line := digest + (gap + name);
    assert line[0] == digest[0] && (gap + name)[0] == gap[0];
    WordsFront(ws, digest, gap + name);
    assert line[..|digest|] == digest && line[|digest|..] == gap + name;
    TrimStartBlank(ws, gap, name);
  }

  predicate ValidDigest(digest: string) {
    |digest| == 64 && forall c | c in digest :: '0' <= c <= '9' || 'a' <= c <= 'f'
  }

  predicate LineOk(ws: char -> bool, names: set<string>, line: string) {
    && Fields(ws, line).Some?
    && ValidDigest(Fields(ws, line).value.0)
    && Fields(ws, line).value.1 in names
  }

  predicate LinesOk(ws: char -> bool, names: set<string>, lines: seq<string>) {
    forall i | 0 <= i < |lines| :: LineOk(ws, names, lines[i])
  }

  function NamesIn(ws: char -> bool, names: set<string>, lines: seq<string>): seq<string>
    requires LinesOk(ws, names, lines)
  {
    seq(|lines|, i requires 0 <= i < |lines| => Fields(ws, lines[i]).value.1)
  }

  function Elements<T(==)>(q: seq<T>): set<T> {
    set x | x in q
  }

  /** As many well-formed lines as artifacts, and every artifact named. */
  predicate Covers(ws: char -> bool, names: set<string>, lines: seq<string>) {
    |lines| == |names| && LinesOk(ws, names, lines) && Elements(NamesIn(ws, names, lines)) == names
  }

  lemma {:induction false} Pigeonhole<T>(q: seq<T>)
    ensures |Elements(q)| <= |q|
    ensures |Elements(q)| == |q| ==> forall i, j | 0 <= i < j < |q| :: q[i] != q[j]
  {
    if q == [] {
    } else {
      var n := |q| - 1;
      Pigeonhole(q[..n]);
      assert q == q[..n] + [q[n]];
      assert Elements(q) == Elements(q[..n]) + {q[n]};
    }
  }

  /** An accepted manifest names every artifact on exactly one line. */
  lemma OneLinePerArtifact(ws: char -> bool, names: set<string>, lines: seq<string>)
    requires Covers(ws, names, lines)
    ensures forall i, j | 0 <= i < j < |lines| :: NamesIn(ws, names, lines)[i] != NamesIn(ws, names, lines)[j]
    ensures forall name | name in names :: exists i :: 0 <= i < |lines| && NamesIn(ws, names, lines)[i] == name
  {
    Pigeonhole(NamesIn(ws, names, lines));
    forall name | name in names
      ensures exists i :: 0 <= i < |lines| && NamesIn(ws, names, lines)[i] == name
    {
      assert name in Elements(NamesIn(ws, names, lines));
    }
  }

  method LoadChecksums(ws: char -> bool, lines: seq<string>, names: set<string>) returns (r: Option<map<string, string>>)
    ensures r.Some? <==> Covers(ws, names, lines)
    ensures r.Some? ==>
              && r.value.Keys == names
              && forall i | 0 <= i < |lines| ::
                   Fields(ws, lines[i]).value.1 in names && r.value[Fields(ws, lines[i]).value.1] == Fields(ws, lines[i]).value.0
  {
    if |lines| != |names| {
      return None;
    }
    var checksums: map<string, string> := map[];
    for i := 0 to |lines|
      invariant LinesOk(ws, names, lines[..i])
      invariant checksums.Keys == Elements(NamesIn(ws, names, lines[..i]))
      invariant forall name | name in checksums :: LastDigest(ws, lines[..i], name) == Some(checksums[name])
    {
      var fields := Fields(ws, lines[i]);
      if fields.None? || !ValidDigest(fields.value.0) || fields.value.1 !in names {
        assert !LineOk(ws, names, lines[i]);
        return None;
      }
      ManifestGrows(ws, names, lines, i);
      checksums := checksums[fields.value.1 := fields.value.0];
    }
    assert lines[..|lines|] == lines;
    if checksums.Keys != names {
      return None;
    }
    OneLinePerArtifact(ws, names, lines);
    forall i | 0 <= i < |lines|
      ensures checksums[Fields(ws, lines[i]).value.1] == Fields(ws, lines[i]).value.0
    {
      OnlyDigest(ws, names, lines, i);
    }
    return Some(checksums);
  }

  /** The digest on the last line that names the artifact. */
  function LastDigest(ws: char -> bool, lines: seq<string>, name: string): Option<string> {
    if lines == [] then None
    else
      var fields := Fields(ws, lines[|lines| - 1]);
      if fields.Some? && fields.value.1 == name then Some(fields.value.0)
      else LastDigest(ws, lines[..|lines| - 1], name)
  }

  lemma ManifestGrows(ws: char -> bool, names: set<string>, lines: seq<string>, i: nat)
    requires i < |lines| && LinesOk(ws, names, lines[..i]) && LineOk(ws, names, lines[i])
    ensures LinesOk(ws, names, lines[..i + 1])
    ensures Elements(NamesIn(ws, names, lines[..i + 1])) == Elements(NamesIn(ws, names, lines[..i])) + {Fields(ws, lines[i]).value.1}
    ensures forall name :: LastDigest(ws, lines[..i + 1], name) ==
              if name == Fields(ws, lines[i]).value.1 then Some(Fields(ws, lines[i]).value.0) else LastDigest(ws, lines[..i], name)
  {
    var name := Fields(ws, lines[i]).value.1;
    assert lines[..i + 1][..i] == lines[..i];
    assert LinesOk(ws, names, lines[..i + 1]) by {
      assert forall k | 0 <= k < i :: lines[..i + 1][k] == lines[..i][k];
    }
    assert NamesIn(ws, names, lines[..i + 1]) == NamesIn(ws, names, lines[..i]) + [name];
    InsertElement(NamesIn(ws, names, lines[..i]), name);
    var longer := lines[..i + 1];
    assert |longer| - 1 == i && longer[i] == lines[i] && longer[..|longer| - 1] == lines[..i];
    forall x
      ensures LastDigest(ws, longer, x) ==
              if x == name then Some(Fields(ws, lines[i]).value.0) else LastDigest(ws, lines[..i], x)
    {
    }
  }

  lemma InsertElement<T>(q: seq<T>, x: T)
    ensures Elements(q + [x]) == Elements(q) + {x}
  {
  }

  lemma {:induction false} OnlyDigest(ws: char -> bool, names: set<string>, lines: seq<string>, i: nat)
    requires LinesOk(ws, names, lines) && i < |lines|
    requires forall j, k | 0 <= j < k < |lines| :: NamesIn(ws, names, lines)[j] != NamesIn(ws, names, lines)[k]
    ensures LastDigest(ws, lines, Fields(ws, lines[i]).value.1) == Some(Fields(ws, lines[i]).value.0)
  {
    var n := |lines| - 1;
    if i < n {
      assert NamesIn(ws, names, lines)[i] != NamesIn(ws, names, lines)[n];
      assert forall k | 0 <= k < n :: NamesIn(ws, names, lines[..n])[k] == NamesIn(ws, names, lines)[k];
      OnlyDigest(ws, names, lines[..n], i);
    }
  }

  // ---------- The V8 artifacts ----------

  const PROFILE := "ptrcomp_sandbox_release"

  datatype Pair = Pair(archive: Path, binding: Path)

  function ArchiveName(target: string, windows: bool): string {
    if windows then "rusty_v8_" + PROFILE + "_" + target + ".lib.gz" else "librusty_v8_" + PROFILE + "_" + target + ".a.gz"
  }

  function BindingName(target: string): string {
    "src_binding_" + PROFILE + "_" + target + ".rs"
  }

  function ChecksumsName(target: string): string {
    "rusty_v8_" + PROFILE + "_" + target + ".sha256"
  }

  predicate EndsWith(s: string, c: char) {
    s != "" && s[|s| - 1] == c
  }

  /** The three files and their temporaries never collide: each ends in its own letter. */
  lemma NamesDiffer(target: string, windows: bool)
    ensures EndsWith(ArchiveName(target, windows), 'z') && EndsWith(BindingName(target), 's')
    ensures EndsWith(ChecksumsName(target), '6')
  {
  }

  /** Where the artifacts and the manifest go. */
  datatype Paths = Paths(archive: Path, binding: Path, checksums: Path)

  function PathsOf(cacheDir: Path, target: string, windows: bool): Paths {
    Paths(cacheDir + "/" + ArchiveName(target, windows), cacheDir + "/" + BindingName(target), cacheDir + "/" + ChecksumsName(target))
  }

  /** Fetching `path` leaves `other` alone. */
  predicate Apart(path: Path, other: Path) {
    path != other && TempOf(path) != other
  }

  lemma PathsDiffer(cacheDir: Path, target: string, windows: bool)
    ensures var p := PathsOf(cacheDir, target, windows);
            && Apart(p.archive, p.binding) && Apart(p.binding, p.archive)
            && Apart(p.checksums, p.archive) && Apart(p.checksums, p.binding)
            && Apart(p.archive, p.checksums) && Apart(p.binding, p.checksums)
    ensures ArchiveName(target, windows) != BindingName(target)
  {
    NamesDiffer(target, windows);
    var p := PathsOf(cacheDir, target, windows);
    assert EndsWith(p.archive, 'z') && EndsWith(p.binding, 's') && EndsWith(p.checksums, '6');
    assert EndsWith(TempOf(p.archive), 'p') && EndsWith(TempOf(p.binding), 'p') && EndsWith(TempOf(p.checksums), 'p');
  }

  function PairAllowed(pair: Pair, archiveResponse: Response, bindingResponse: Response): Allowed {
    map[pair.archive := {None} + Delivered(archiveResponse), pair.binding := {None} + Delivered(bindingResponse)]
  }

  lemma PairParts(pair: Pair, archiveResponse: Response, bindingResponse: Response)
    requires Apart(pair.archive, pair.binding) && Apart(pair.binding, pair.archive)
    ensures var whole := PairAllowed(pair, archiveResponse, bindingResponse);
            && PartOf(map[pair.archive := {None} + Delivered(archiveResponse)], whole)
            && PartOf(map[pair.binding := {None} + Delivered(bindingResponse)], whole)
  {
    TempIsOther(pair.archive);
    TempIsOther(pair.binding);
  }

  /** One artifact made valid as part of a larger job. */
  method EnsurePart(disk: Disk, sha256: Content -> string, artifact: Path, digest: string, response: Response,
                    ghost before: Files, ghost from: nat, ghost whole: Allowed)
    returns (ok: bool)
    requires Steady(before, disk.files, whole) && SteadyFrom(before, disk.trace, from, whole)
    requires PartOf(map[artifact := {None} + Delivered(response)], whole)
    modifies disk
    ensures ok ==> HasChecksum(sha256, disk.files, artifact, digest)
    ensures !ok ==> artifact !in disk.files
    ensures ok <==> Obtainable(sha256, old(disk.files), artifact, digest, response)
    ensures forall p | p != artifact && p != TempOf(artifact) :: Look(disk.files, p) == Look(old(disk.files), p)
    ensures Extends(old(disk.trace), disk.trace)
    ensures Steady(before, disk.files, whole) && SteadyFrom(before, disk.trace, from, whole)
  {
    ghost var mid, old_, allowed := disk.files, disk.trace, {None} + Delivered(response);
    ok := EnsureValidArtifact(disk, sha256, artifact, digest, response);
    SteadyNow(mid, disk.files, artifact, allowed);
    SteadyThen(before, mid, disk.files, map[artifact := allowed], whole);
    TraceWidens(mid, disk.trace, |old_|, artifact, allowed, allowed + {Look(mid, artifact)});
    WithinIsSteady(mid, disk.trace, |old_|, artifact, allowed);
    SteadyTrace(before, mid, disk.trace, |old_|, map[artifact := allowed], whole);
    SteadyJoins(before, old_, disk.trace, from, whole);
  }

  /** Both artifacts end up valid, exactly when both can be had; each leaves the other and all other files alone. */
  method EnsureBoth(disk: Disk, sha256: Content -> string, pair: Pair, archiveDigest: string, bindingDigest: string,
                    archiveResponse: Response, bindingResponse: Response)
    returns (ok: bool)
    requires Apart(pair.archive, pair.binding) && Apart(pair.binding, pair.archive)
    modifies disk
    ensures ok <==>
              && Obtainable(sha256, old(disk.files), pair.archive, archiveDigest, archiveResponse)
              && Obtainable(sha256, old(disk.files), pair.binding, bindingDigest, bindingResponse)
    ensures ok ==>
              && HasChecksum(sha256, disk.files, pair.archive, archiveDigest)
              && HasChecksum(sha256, disk.files, pair.binding, bindingDigest)
    ensures !ok ==> pair.archive !in disk.files || pair.binding !in disk.files
    ensures Extends(old(disk.trace), disk.trace)
    ensures var whole := PairAllowed(pair, archiveResponse, bindingResponse);
            Steady(old(disk.files), disk.files, whole) && SteadyFrom(old(disk.files), disk.trace, |old(disk.trace)|, whole)
  {
    ghost var before, from, whole := disk.files, |disk.trace|, PairAllowed(pair, archiveResponse, bindingResponse);
    PairParts(pair, archiveResponse, bindingResponse);
    ok := EnsurePart(disk, sha256, pair.archive, archiveDigest, archiveResponse, before, from, whole);
    assert Look(disk.files, pair.binding) == Look(old(disk.files), pair.binding);
    if ok {
      ghost var found := disk.files[pair.archive];
      ok := EnsurePart(disk, sha256, pair.binding, bindingDigest, bindingResponse, before, from, whole);
      assert Look(disk.files, pair.archive) == Some(found);
    }
  }

  /** The artifact `name` can be had with the digest that the manifest gives for it. */
  ghost predicate Listed(sha256: Content -> string, ws: char -> bool, lines: seq<string>, name: string,
                         files: Files, path: Path, response: Response) {
    exists digest :: Matches(ws, lines, name, digest) && Obtainable(sha256, files, path, digest, response)
  }

  lemma ListedLocal(sha256: Content -> string, ws: char -> bool, lines: seq<string>, name: string,
                    before: Files, now: Files, path: Path, response: Response)
    requires Look(before, path) == Look(now, path)
    ensures Listed(sha256, ws, lines, name, before, path, response) <==> Listed(sha256, ws, lines, name, now, path, response)
  {
    forall digest
      ensures Obtainable(sha256, before, path, digest, response) <==> Obtainable(sha256, now, path, digest, response)
    {
    }
  }

  /** Everything after the manifest has arrived. */
  method FetchListed(
    disk: Disk, sha256: Content -> string, ws: char -> bool, lines: seq<string>, archiveName: string, bindingName: string,
    pair: Pair, archiveResponse: Response, bindingResponse: Response)
    returns (ok: bool)
    requires Apart(pair.archive, pair.binding) && Apart(pair.binding, pair.archive)
    modifies disk
    ensures ok <==>
              && Covers(ws, {archiveName, bindingName}, lines)
              && Listed(sha256, ws, lines, archiveName, old(disk.files), pair.archive, archiveResponse)
              && Listed(sha256, ws, lines, bindingName, old(disk.files), pair.binding, bindingResponse)
    ensures ok ==>
              && pair.archive in disk.files && pair.binding in disk.files
              && Matches(ws, lines, archiveName, sha256(disk.files[pair.archive]))
              && Matches(ws, lines, bindingName, sha256(disk.files[pair.binding]))
    ensures Extends(old(disk.trace), disk.trace)
    ensures var whole := PairAllowed(pair, archiveResponse, bindingResponse);
            Steady(old(disk.files), disk.files, whole) && SteadyFrom(old(disk.files), disk.trace, |old(disk.trace)|, whole)
  {
    var expected := LoadBoth(ws, lines, archiveName, bindingName);
    if expected.None? {
      return false;
    }
    ok := EnsureBoth(disk, sha256, pair, expected.value.0, expected.value.1, archiveResponse, bindingResponse);
  }

  function CacheAllowed(paths: Paths, manifest: Response, archiveResponse: Response, bindingResponse: Response): Allowed {
    PairAllowed(Pair(paths.archive, paths.binding), archiveResponse, bindingResponse)[paths.checksums := Delivered(manifest)]
  }

  lemma CacheParts(paths: Paths, manifest: Response, archiveResponse: Response, bindingResponse: Response)
    requires Apart(paths.archive, paths.binding) && Apart(paths.binding, paths.archive)
    requires Apart(paths.checksums, paths.archive) && Apart(paths.checksums, paths.binding)
    requires TempOf(paths.archive) != paths.checksums && TempOf(paths.binding) != paths.checksums
    ensures var whole := CacheAllowed(paths, manifest, archiveResponse, bindingResponse);
            && PartOf(map[paths.checksums := Delivered(manifest)], whole)
            && PartOf(PairAllowed(Pair(paths.archive, paths.binding), archiveResponse, bindingResponse), whole)
  {
    TempIsOther(paths.archive);
    TempIsOther(paths.binding);
    TempIsOther(paths.checksums);
  }

  /** The manifest is replaced as a whole or stays as it was. */
  lemma ManifestSteady(before: Files, now: Files, trace: seq<Files>, from: nat, path: Path, manifest: Response, whole: Allowed)
    requires TraceWithin(before, trace, from, path, {Look(before, path)} + Delivered(manifest))
    requires now == if manifest.Response? && manifest.complete then (before - {TempOf(path)})[path := Concat(manifest.chunks)]
                    else before - {TempOf(path)}
    requires PartOf(map[path := Delivered(manifest)], whole)
    ensures Steady(before, now, whole) && SteadyFrom(before, trace, from, whole)
  {
    TempIsOther(path);
    var part := map[path := Delivered(manifest)];
    SteadyNow(before, now, path, Delivered(manifest));
    SteadyThen(before, before, now, part, whole);
    TraceWidens(before, trace, from, path, {Look(before, path)} + Delivered(manifest), Delivered(manifest) + {Look(before, path)});
    WithinIsSteady(before, trace, from, path, Delivered(manifest));
    SteadyTrace(before, before, trace, from, part, whole);
  }

  lemma TracesExtend(a: seq<Files>, b: seq<Files>, c: seq<Files>)
    requires Extends(a, b) && Extends(b, c)
    ensures Extends(a, c)
  {
    assert c[..|a|] == c[..|b|][..|a|];
  }

  method FetchCodexV8Artifacts(
    disk: Disk, sha256: Content -> string, ws: char -> bool, splitlines: Content -> seq<string>,
    cacheDir: Path, target: string, windows: bool,
    manifest: Response, archiveResponse: Response, bindingResponse: Response)
    returns (r: Option<Pair>)
    modifies disk
    ensures var archiveName, bindingName := ArchiveName(target, windows), BindingName(target);
            var paths := PathsOf(cacheDir, target, windows);
            r.Some? <==>
              && manifest.Response? && manifest.complete
              && var lines := splitlines(Concat(manifest.chunks));
              && Covers(ws, {archiveName, bindingName}, lines)
              && Listed(sha256, ws, lines, archiveName, old(disk.files), paths.archive, archiveResponse)
              && Listed(sha256, ws, lines, bindingName, old(disk.files), paths.binding, bindingResponse)
    ensures r.Some? ==>
              && manifest.Response?
              && var paths := PathsOf(cacheDir, target, windows);
              && r.value == Pair(paths.archive, paths.binding)
              && r.value.archive in disk.files && r.value.binding in disk.files
              && Matches(ws, splitlines(Concat(manifest.chunks)), ArchiveName(target, windows), sha256(disk.files[r.value.archive]))
              && Matches(ws, splitlines(Concat(manifest.chunks)), BindingName(target), sha256(disk.files[r.value.binding]))
    ensures Extends(old(disk.trace), disk.trace)
    ensures var whole := CacheAllowed(PathsOf(cacheDir, target, windows), manifest, archiveResponse, bindingResponse);
            Steady(old(disk.files), disk.files, whole) && SteadyFrom(old(disk.files), disk.trace, |old(disk.trace)|, whole)
  {
    PathsDiffer(cacheDir, target, windows);
    var paths := PathsOf(cacheDir, target, windows);
    var ok := FetchInto(disk, sha256, ws, splitlines, paths, ArchiveName(target, windows), BindingName(target),
                        manifest, archiveResponse, bindingResponse);
    return if ok then Some(Pair(paths.archive, paths.binding)) else None;
  }

  /** The fetch, for any names and any places that stay out of each other's way. */
  method FetchInto(
    disk: Disk, sha256: Content -> string, ws: char -> bool, splitlines: Content -> seq<string>,
    paths: Paths, archiveName: string, bindingName: string,
    manifest: Response, archiveResponse: Response, bindingResponse: Response)
    returns (ok: bool)
    requires Apart(paths.archive, paths.binding) && Apart(paths.binding, paths.archive)
    requires Apart(paths.checksums, paths.archive) && Apart(paths.checksums, paths.binding)
    requires Apart(paths.archive, paths.checksums) && Apart(paths.binding, paths.checksums)
    modifies disk
    ensures ok <==>
              && manifest.Response? && manifest.complete
              && var lines := splitlines(Concat(manifest.chunks));
              && Covers(ws, {archiveName, bindingName}, lines)
              && Listed(sha256, ws, lines, archiveName, old(disk.files), paths.archive, archiveResponse)
              && Listed(sha256, ws, lines, bindingName, old(disk.files), paths.binding, bindingResponse)
    ensures ok ==>
              && manifest.Response?
              && paths.archive in disk.files && paths.binding in disk.files
              && Matches(ws, splitlines(Concat(manifest.chunks)), archiveName, sha256(disk.files[paths.archive]))
              && Matches(ws, splitlines(Concat(manifest.chunks)), bindingName, sha256(disk.files[paths.binding]))
    ensures Extends(old(disk.trace), disk.trace)
    ensures var whole := CacheAllowed(paths, manifest, archiveResponse, bindingResponse);
            Steady(old(disk.files), disk.files, whole) && SteadyFrom(old(disk.files), disk.trace, |old(disk.trace)|, whole)
  {
    ghost var before, start, whole := disk.files, disk.trace, CacheAllowed(paths, manifest, archiveResponse, bindingResponse);
    CacheParts(paths, manifest, archiveResponse, bindingResponse);
    var content := FetchManifest(disk, paths, manifest, whole);
    if content.None? {
      return false;
    }
    var lines := splitlines(content.value);
    var pair := Pair(paths.archive, paths.binding);
    ListedLocal(sha256, ws, lines, archiveName, before, disk.files, pair.archive, archiveResponse);
    ListedLocal(sha256, ws, lines, bindingName, before, disk.files, pair.binding, bindingResponse);
    ghost var mid, middle := disk.files, disk.trace;
    ok := FetchListed(disk, sha256, ws, lines, archiveName, bindingName, pair, archiveResponse, bindingResponse);
    SteadyStages(before, mid, disk.files, start, middle, disk.trace, PairAllowed(pair, archiveResponse, bindingResponse), whole);
  }

  /** A job in two stages, the second of which concerns some of the files. */
  lemma SteadyStages(before: Files, mid: Files, now: Files, start: seq<Files>, middle: seq<Files>, trace: seq<Files>,
                     part: Allowed, whole: Allowed)
    requires Extends(start, middle) && Extends(middle, trace) && PartOf(part, whole)
    requires Steady(before, mid, whole) && SteadyFrom(before, middle, |start|, whole)
    requires Steady(mid, now, part) && SteadyFrom(mid, trace, |middle|, part)
    ensures Extends(start, trace) && Steady(before, now, whole) && SteadyFrom(before, trace, |start|, whole)
  {
    SteadyThen(before, mid, now, part, whole);
    SteadyTrace(before, mid, trace, |middle|, part, whole);
    SteadyJoins(before, middle, trace, |start|, whole);
    TracesExtend(start, middle, trace);
  }

  /** The manifest comes first and leaves both artifacts alone. */
  method FetchManifest(disk: Disk, paths: Paths, manifest: Response, ghost whole: Allowed) returns (content: Option<Content>)
    requires Apart(paths.checksums, paths.archive) && Apart(paths.checksums, paths.binding)
    requires PartOf(map[paths.checksums := Delivered(manifest)], whole)
    modifies disk
    ensures content == if manifest.Response? && manifest.complete then Some(Concat(manifest.chunks)) else None
    ensures Look(disk.files, paths.archive) == Look(old(disk.files), paths.archive)
    ensures Look(disk.files, paths.binding) == Look(old(disk.files), paths.binding)
    ensures Extends(old(disk.trace), disk.trace)
    ensures Steady(old(disk.files), disk.files, whole) && SteadyFrom(old(disk.files), disk.trace, |old(disk.trace)|, whole)
  {
    ghost var before, start := disk.files, disk.trace;
    var ok := disk.DownloadFile(manifest, paths.checksums);
    ManifestSteady(before, disk.files, disk.trace, |start|, paths.checksums, manifest, whole);
    return if ok then Some(disk.files[paths.checksums]) else None;
  }

  method LoadBoth(ws: char -> bool, lines: seq<string>, archiveName: string, bindingName: string)
    returns (r: Option<(string, string)>)
    ensures r.Some? <==> Covers(ws, {archiveName, bindingName}, lines)
    ensures r.Some? ==> forall digest :: Matches(ws, lines, archiveName, digest) <==> digest == r.value.0
    ensures r.Some? ==> forall digest :: Matches(ws, lines, bindingName, digest) <==> digest == r.value.1
  {
    var names := {archiveName, bindingName};
    var expected := LoadChecksums(ws, lines, names);
    if expected.None? {
      return None;
    }
    ManifestDigest(ws, names, lines, expected.value, archiveName);
    ManifestDigest(ws, names, lines, expected.value, bindingName);
    return Some((expected.value[archiveName], expected.value[bindingName]));
  }

  /** Some line of the manifest gives this digest for this artifact. */
  predicate Matches(ws: char -> bool, lines: seq<string>, name: string, digest: string) {
    exists i :: 0 <= i < |lines| && Fields(ws, lines[i]) == Some((digest, name))
  }

  lemma ManifestDigest(ws: char -> bool, names: set<string>, lines: seq<string>, expected: map<string, string>, name: string)
    requires Covers(ws, names, lines) && expected.Keys == names && name in names
    requires forall i | 0 <= i < |lines| ::
               Fields(ws, lines[i]).value.1 in names && expected[Fields(ws, lines[i]).value.1] == Fields(ws, lines[i]).value.0
    ensures forall digest :: Matches(ws, lines, name, digest) <==> digest == expected[name]
  {
    OneLinePerArtifact(ws, names, lines);
    var i :| 0 <= i < |lines| && NamesIn(ws, names, lines)[i] == name;
    assert Fields(ws, lines[i]) == Some((expected[name], name));
  }

  // ---------- DotSlash executables ----------

  datatype Artifact = Artifact(size: nat, digest: string)

  predicate Verified(sha256: Content -> string, content: Content, a: Artifact) {
    |content| == a.size && sha256(content) == a.digest
  }

  lemma WithinJoins(before: Files, old_: seq<Files>, trace: seq<Files>, from: nat, path: Path, allowed: set<Option<Content>>)
    requires Extends(old_, trace)
    requires TraceWithin(before, old_, from, path, allowed) && TraceWithin(before, trace, |old_|, path, allowed)
    ensures TraceWithin(before, trace, from, path, allowed)
  {
    forall i | from <= i < |trace|
      ensures Within(before, trace[i], path, allowed)
    {
      if i < |old_| {
        assert trace[i] == trace[..|old_|][i] == old_[i];
      }
    }
  }

  method ArchiveIsValid(disk: Disk, sha256: Content -> string, archive: Path, a: Artifact) returns (valid: bool)
    modifies disk
    ensures valid <==> archive in old(disk.files) && Verified(sha256, old(disk.files)[archive], a)
    ensures disk.files == if valid then old(disk.files) else old(disk.files) - {archive}
    ensures Extends(old(disk.trace), disk.trace)
    ensures TraceWithin(old(disk.files), disk.trace, |old(disk.trace)|, archive, {None})
  {
    if archive !in disk.files {
      assert disk.files - {archive} == disk.files;
      return false;
    }
    if !Verified(sha256, disk.files[archive], a) {
      disk.Unlink(archive);
      return false;
    }
    return true;
  }

  /** The archive that is extracted: the cached one, or else the download, if it verifies. */
  function Source(sha256: Content -> string, files: Files, archive: Path, a: Artifact, response: Response): Option<Content> {
    if archive in files && Verified(sha256, files[archive], a) then Some(files[archive])
    else if response.Response? && response.complete && Verified(sha256, Concat(response.chunks), a) then Some(Concat(response.chunks))
    else None
  }

  /** Downloads an archive that is not there, and keeps it if it verifies. */
  method DownloadArchive(disk: Disk, sha256: Content -> string, archive: Path, a: Artifact, response: Response) returns (ok: bool)
    requires archive !in disk.files
    modifies disk
    ensures ok <==> Source(sha256, old(disk.files), archive, a, response).Some?
    ensures Look(disk.files, archive) == Source(sha256, old(disk.files), archive, a, response)
    ensures TempOf(archive) !in disk.files
    ensures forall p | p != archive && p != TempOf(archive) :: Look(disk.files, p) == Look(old(disk.files), p)
    ensures Extends(old(disk.trace), disk.trace)
    ensures TraceWithin(old(disk.files), disk.trace, |old(disk.trace)|, archive, {None} + Delivered(response))
  {
    TempIsOther(archive);
    ghost var before, start, allowed := disk.files, |disk.trace|, {None} + Delivered(response);
    ok := disk.DownloadFile(response, archive);
    assert TraceWithin(before, disk.trace, start, archive, allowed);
    if ok && !Verified(sha256, disk.files[archive], a) {
      ghost var trace := disk.trace;
      disk.Unlink(archive);
      ok := false;
      TraceGrows(before, trace, disk.files, start, archive, allowed);
    }
  }

  /** The cache and download half: afterwards the archive is verified, or is not there. */
  method ObtainArchive(disk: Disk, sha256: Content -> string, archive: Path, a: Artifact, response: Response) returns (ok: bool)
    modifies disk
    ensures ok <==> Source(sha256, old(disk.files), archive, a, response).Some?
    ensures Look(disk.files, archive) == Source(sha256, old(disk.files), archive, a, response)
    ensures !ok ==> TempOf(archive) !in disk.files
    ensures forall p | p != archive && p != TempOf(archive) :: Look(disk.files, p) == Look(old(disk.files), p)
    ensures Extends(old(disk.trace), disk.trace)
    ensures TraceWithin(old(disk.files), disk.trace, |old(disk.trace)|, archive, {None} + Delivered(response))
  {
    TempIsOther(archive);
    ghost var before, start, allowed := disk.files, disk.trace, {None} + Delivered(response);
    ok := ArchiveIsValid(disk, sha256, archive, a);
    ghost var mid, middle := disk.files, disk.trace;
    if !ok {
      ok := DownloadArchive(disk, sha256, archive, a, response);
      Rebase(before, mid, disk.trace, |middle|, archive, allowed, allowed);
      TracesExtend(start, middle, disk.trace);
    }
    TraceWidens(before, middle, |start|, archive, {None}, allowed);
    WithinJoins(before, middle, disk.trace, |start|, archive, allowed);
  }

  /** What reading the wanted member out of an archive gives: its chunks, of which `read` come before it breaks off. */
  datatype Extraction = Missing | Member(chunks: seq<Content>, read: nat)

  predicate ReadsToItsEnd(e: Extraction) {
    e.Member? && e.read >= |e.chunks|
  }

  function ChunksRead(e: Extraction): seq<Content>
    requires e.Member?
  {
    if e.read < |e.chunks| then e.chunks[..e.read] else e.chunks
  }

  function Written(e: Extraction): Option<Content> {
    if e.Missing? then None else Some(Concat(ChunksRead(e)))
  }

  /** What may be seen of a member on the way. */
  ghost predicate Glimpse(content: Option<Content>, e: Extraction) {
    content.None? || (e.Member? && Partial(content, e.chunks))
  }

  lemma GlimpseOfRead(e: Extraction, content: Option<Content>)
    requires e.Member? && Partial(content, ChunksRead(e))
    ensures Glimpse(content, e)
  {
    var k :| 0 <= k <= |ChunksRead(e)| && content == Some(Concat(ChunksRead(e)[..k]));
    assert ChunksRead(e)[..k] == e.chunks[..k];
  }

  /** `extract_archive_member`: the old executable goes first, and the new one is written in place. */
  method ExtractMember(disk: Disk, extract: Content -> Extraction, archive: Path, dest: Path) returns (ok: bool)
    requires archive in disk.files
    modifies disk
    ensures var e := extract(old(disk.files)[archive]);
            && (ok <==> archive != dest && ReadsToItsEnd(e))
            && Look(disk.files, dest) == (if archive == dest then None else Written(e))
            && OnlyDiffers(old(disk.files), disk.files, dest)
            && Extends(old(disk.trace), disk.trace)
            && forall i | |old(disk.trace)| <= i < |disk.trace| ::
                 OnlyDiffers(old(disk.files), disk.trace[i], dest) && Glimpse(Look(disk.trace[i], dest), e)
  {
    ghost var start := |disk.trace|;
    disk.Unlink(dest);
    if archive !in disk.files {
      return false;
    }
    var e := extract(disk.files[archive]);
    if e.Missing? {
      return false;
    }
    disk.CopyChunks(dest, ChunksRead(e));
    forall i | start < i < |disk.trace|
      ensures Glimpse(Look(disk.trace[i], dest), e)
    {
      GlimpseOfRead(e, Look(disk.trace[i], dest));
    }
    return e.read >= |e.chunks|;
  }

  /** What is at the destination after a fetch. */
  function DestAfter(sha256: Content -> string, extract: Content -> Extraction, files: Files,
                     archive: Path, dest: Path, a: Artifact, response: Response): Option<Content>
  {
    var source := Source(sha256, files, archive, a, response);
    if source.None? then (if dest == archive || dest == TempOf(archive) then None else Look(files, dest))
    else if dest == archive then None
    else Written(extract(source.value))
  }

  /** What may be seen of the disk during a fetch. */
  ghost predicate Moment(before: Files, now: Files, archive: Path, dest: Path, delivered: set<Option<Content>>, e: Option<Extraction>) {
    && (archive != dest ==> Look(now, archive) in {Look(before, archive)} + ({None} + delivered))
    && (dest != archive && dest != TempOf(archive) ==>
          Look(now, dest) == Look(before, dest) || (e.Some? && Glimpse(Look(now, dest), e.value)))
    && forall p | p != archive && p != dest && p != TempOf(archive) :: Look(now, p) == Look(before, p)
  }

  /** `fetch_dotslash_executable`. */
  method FetchDotslashExecutable(
    disk: Disk, sha256: Content -> string, extract: Content -> Extraction,
    archive: Path, dest: Path, a: Artifact, response: Response)
    returns (ok: bool)
    modifies disk
    ensures var source := Source(sha256, old(disk.files), archive, a, response);
            && (ok <==> archive != dest && source.Some? && ReadsToItsEnd(extract(source.value)))
            && (archive != dest ==> Look(disk.files, archive) == source)
    ensures Look(disk.files, dest) == DestAfter(sha256, extract, old(disk.files), archive, dest, a, response)
    ensures forall p | p != archive && p != dest && p != TempOf(archive) :: Look(disk.files, p) == Look(old(disk.files), p)
    ensures Extends(old(disk.trace), disk.trace)
    ensures var source := Source(sha256, old(disk.files), archive, a, response);
            var e := if source.Some? then Some(extract(source.value)) else None;
            forall i | |old(disk.trace)| <= i < |disk.trace| ::
              Moment(old(disk.files), disk.trace[i], archive, dest, Delivered(response), e)
  {
    ghost var before, start, source := disk.files, disk.trace, Source(sha256, disk.files, archive, a, response);
    ghost var e := if source.Some? then Some(extract(source.value)) else None;
    ok := ObtainArchive(disk, sha256, archive, a, response);
    ghost var mid, middle := disk.files, disk.trace;
    FetchMoments(before, disk.trace, |start|, archive, dest, Delivered(response), e);
    if ok {
      ok := ExtractMember(disk, extract, archive, dest);
      TracesExtend(start, middle, disk.trace);
      ExtractMoments(before, mid, middle, disk.trace, |start|, archive, dest, Delivered(response), e);
    }
  }

  lemma FetchMoments(before: Files, trace: seq<Files>, from: nat, archive: Path, dest: Path, delivered: set<Option<Content>>, e: Option<Extraction>)
    requires TraceWithin(before, trace, from, archive, {None} + delivered)
    ensures forall i | from <= i < |trace| :: Moment(before, trace[i], archive, dest, delivered, e)
  {
    forall i | from <= i < |trace|
      ensures Moment(before, trace[i], archive, dest, delivered, e)
    {
      assert Within(before, trace[i], archive, {None} + delivered);
    }
  }

  lemma ExtractMoments(before: Files, mid: Files, middle: seq<Files>, trace: seq<Files>, from: nat,
                       archive: Path, dest: Path, delivered: set<Option<Content>>, e: Option<Extraction>)
    requires e.Some? && Extends(middle, trace)
    requires Look(mid, archive) in {Look(before, archive)} + ({None} + delivered)
    requires forall p | p != archive && p != TempOf(archive) :: Look(mid, p) == Look(before, p)
    requires forall i | from <= i < |middle| :: Moment(before, middle[i], archive, dest, delivered, e)
    requires forall i | |middle| <= i < |trace| :: OnlyDiffers(mid, trace[i], dest) && Glimpse(Look(trace[i], dest), e.value)
    ensures forall i | from <= i < |trace| :: Moment(before, trace[i], archive, dest, delivered, e)
  {
    forall i | from <= i < |trace|
      ensures Moment(before, trace[i], archive, dest, delivered, e)
    {
      if i < |middle| {
        assert trace[i] == trace[..|middle|][i] == middle[i];
      } else {
        assert OnlyDiffers(mid, trace[i], dest);
      }
    }
  }

  predicate NoEmptyChunk(chunks: seq<Content>) {
    forall i | 0 <= i < |chunks| :: chunks[i] != ""
  }

  lemma {:induction false} PartIsShorter(chunks: seq<Content>, k: nat)
    requires k <= |chunks| && NoEmptyChunk(chunks)
    ensures |Concat(chunks[..k])| <= |Concat(chunks)|
    ensures k < |chunks| ==> |Concat(chunks[..k])| < |Concat(chunks)|
  {
    if k == |chunks| {
      assert chunks[..k] == chunks;
    } else {
      var n := |chunks| - 1;
      PartIsShorter(chunks[..n], k);
      assert chunks[..n][..k] == chunks[..k];
    }
  }

  /**
   After a fetch with a verified archive the executable is absent or whole if and
   only if its member is missing or reads to its end; without one it is as before
   or gone.  Chunks are never empty.
   */
  lemma ExecutableIntactExactly(sha256: Content -> string, extract: Content -> Extraction, files: Files,
                                archive: Path, dest: Path, a: Artifact, response: Response)
    requires archive != dest
    requires var source := Source(sha256, files, archive, a, response);
             source.Some? && extract(source.value).Member? ==> NoEmptyChunk(extract(source.value).chunks)
    ensures var source, after := Source(sha256, files, archive, a, response), DestAfter(sha256, extract, files, archive, dest, a, response);
            if source.None? then after == Look(files, dest) || after.None?
            else
              var e := extract(source.value);
              after.None? || (e.Member? && after == Some(Concat(e.chunks))) <==> e.Missing? || ReadsToItsEnd(e)
  {
    var source := Source(sha256, files, archive, a, response);
    if source.Some? {
      var e := extract(source.value);
      if e.Member? && e.read < |e.chunks| {
        PartIsShorter(e.chunks, e.read);
      }
    }
  }

  /** A verified cached archive whose member breaks off after "half" leaves "half" at the destination. */
  lemma HalfAnExecutable(sha256: Content -> string, archive: Path, dest: Path, content: Content, response: Response)
    requires archive != dest
    ensures var a := Artifact(|content|, sha256(content));
            DestAfter(sha256, _ => Member(["half", "rest"], 1), map[archive := content], archive, dest, a, response) == Some("half")
  {
    assert ["half", "rest"][..1] == ["half"] && ["half"][..0] == [];
    assert Concat(["half"]) == "half";
  }
}
