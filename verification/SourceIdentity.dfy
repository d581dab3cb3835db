/**
 * scripts/helix-v3-source-identity.py: one digest for the regular files of a worktree, and the
 * count of changes git reports, read from its NUL-separated records.
 */
module SourceIdentity {
  import opened Wrappers
  import opened Text
  import opened Sequences
  import opened OverlayManifest

  const BASELINE_PATH := "docs/helix-reliability-baseline-20260920.md"
  const ARTIFACTS_PREFIX := "artifacts/helix-v3/"

  predicate IsExcluded(path: string) {
    path == BASELINE_PATH || ARTIFACTS_PREFIX <= path
  }

  /** `_validate_relative_path`. */
  predicate ValidPath(path: string) {
    && path != "" && '\0' !in path && path[0] != '/'
    && var parts := Split(path, "/"); "" !in parts && "." !in parts && ".." !in parts
  }

  // ---------------------------------------------------------------- bytewise order

  predicate Less(a: string, b: string) {
    b != "" && (a == "" || a[0] < b[0] || (a[0] == b[0] && Less(a[1..], b[1..])))
  }

  lemma {:induction false} LessIsStrict(a: string, b: string)
    ensures !(Less(a, b) && Less(b, a)) && !Less(a, a)
  {
    if a != "" && b != "" { LessIsStrict(a[1..], b[1..]); }
    if a != "" { LessIsStrict(a[1..], a[1..]); }
  }

  /** Sorted without duplicates, as `_source_paths` returns them. */
  ghost predicate Ordered(paths: seq<string>) {
    forall i, j :: 0 <= i < j < |paths| ==> Less(paths[i], paths[j])
  }

  /** A set of paths has one ordered listing. */
  lemma {:induction false} OneOrder(a: seq<string>, b: seq<string>)
    requires Ordered(a) && Ordered(b) && forall p :: p in a <==> p in b
    ensures a == b
    decreases |a|
  {
    if a != [] { BothNonEmpty(a, b); }
    if b != [] { BothNonEmpty(b, a); }
    if a != [] {
      SameFirst(a, b);
      forall p ensures p in a[1..] <==> p in b[1..] { RestOf(a, p); RestOf(b, p); }
      OneOrder(a[1..], b[1..]);
      assert a == [a[0]] + a[1..] && b == [b[0]] + b[1..];
    }
  }

  lemma BothNonEmpty(a: seq<string>, b: seq<string>)
    requires a != [] && forall p :: p in a ==> p in b
    ensures b != []
  {
    assert a[0] in b;
  }

  lemma SameFirst(a: seq<string>, b: seq<string>)
    requires a != [] && b != [] && Ordered(a) && Ordered(b) && forall p :: p in a <==> p in b
    ensures a[0] == b[0]
  {
    assert a[0] in b && b[0] in a;
    var i :| 0 <= i < |b| && b[i] == a[0];
    var j :| 0 <= j < |a| && a[j] == b[0];
    LessIsStrict(a[0], b[0]);
    forall k | 0 < k < |b| ensures Less(b[0], b[k]) {}
    forall k | 0 < k < |a| ensures Less(a[0], a[k]) {}
  }

  lemma RestOf(a: seq<string>, p: string)
    requires a != [] && Ordered(a)
    ensures p in a[1..] <==> p in a && p != a[0]
  {
    if p in a[1..] {
      var i :| 0 <= i < |a[1..]| && a[1..][i] == p;
      LessIsStrict(a[0], a[i + 1]);
    }
    if p in a && p != a[0] {
      var i :| 0 <= i < |a| && a[i] == p;
      assert a[1..][i - 1] == p;
    }
  }

  // ---------------------------------------------------------------- the digest

  /** The paths that take part: not excluded, and no symbolic link. */
  function Included(t: Tree, paths: seq<string>): seq<string> {
    if paths == [] then []
    else
      var n := |paths| - 1;
      Included(t, paths[..n]) + (if IsExcluded(paths[n]) || (paths[n] in t && t[paths[n]].Link?) then [] else [paths[n]])
  }

  lemma {:induction false} IncludedIsOrdered(t: Tree, paths: seq<string>)
    requires Ordered(paths)
    ensures Ordered(Included(t, paths))
    ensures forall p :: p in Included(t, paths) <==> p in paths && !IsExcluded(p) && !(p in t && t[p].Link?)
  {
    if paths != [] {
      var n := |paths| - 1;
      IncludedIsOrdered(t, paths[..n]);
      assert paths == paths[..n] + [paths[n]];
      var before := Included(t, paths[..n]);
      forall i | 0 <= i < |before| ensures Less(before[i], paths[n]) {
        assert before[i] in paths[..n];
      }
    }
  }

  /** The symbolic links that were left out. */
  function Links(t: Tree, paths: seq<string>): seq<string> {
    if paths == [] then []
    else
      var n := |paths| - 1;
      Links(t, paths[..n]) + (if !IsExcluded(paths[n]) && paths[n] in t && t[paths[n]].Link? then [paths[n]] else [])
  }

  predicate Present(t: Tree, files: seq<string>) {
    forall p :: p in files ==> p in t
  }

  datatype Identity = Identity(digest: string, fileCount: nat, links: seq<string>)

  /** What the loop has accumulated after the files `files`. */
  ghost predicate Hashing(hex: Bytes -> string, t: Tree, files: seq<string>, stream: string, count: nat) {
    Present(t, files) && stream == Stream(Rows(hex, t, files)) && count == |files|
  }

  /** Lines 379-383: one more file goes into the digest. */
  method HashFile(hex: Bytes -> string, t: Tree, path: string, stream: string, ghost count: nat, ghost files: seq<string>)
    returns (more: string)
    requires Hashing(hex, t, files, stream, count) && path in t
    ensures Hashing(hex, t, files + [path], more, count + 1)
  {
    OneMoreRow(hex, t, files, path);
    more := stream + path + ['\0'] + hex(t[path].data) + ['\n'];
  }

  /** `compute_identity`: a path that is neither a regular file nor a link makes it fail. */
  method ComputeIdentity(hex: Bytes -> string, t: Tree, paths: seq<string>) returns (r: Option<Identity>)
    ensures r.Some? <==> Present(t, Included(t, paths))
    ensures r.Some? ==>
      r.value == Identity(TreeDigest(hex, t, Included(t, paths)), |Included(t, paths)|, Links(t, paths))
  {
    var stream, count, links := "", 0, [];
    for i := 0 to |paths|
      invariant Hashing(hex, t, Included(t, paths[..i]), stream, count)
      invariant links == Links(t, paths[..i])
    {
      var path := paths[i];
      IncludedNext(t, paths, i);
      LinksNext(t, paths, i);
      if IsExcluded(path) { continue; }
      if path !in t {
        MissingIsIncluded(t, paths, i);
        return None;
      }
      if t[path].Link? {
        links := links + [path];
        continue;
      }
      stream := HashFile(hex, t, path, stream, count, Included(t, paths[..i]));
      count := count + 1;
    }
    assert paths[..|paths|] == paths;
    r := Some(Identity(hex(stream), count, links));
  }

  lemma LinksNext(t: Tree, paths: seq<string>, i: nat)
    requires i < |paths|
    ensures Links(t, paths[..i + 1]) ==
      if !IsExcluded(paths[i]) && paths[i] in t && t[paths[i]].Link? then Links(t, paths[..i]) + [paths[i]]
      else Links(t, paths[..i])
  {
    assert paths[..i + 1][..i] == paths[..i];
  }

  lemma IncludedNext(t: Tree, paths: seq<string>, i: nat)
    requires i < |paths|
    ensures paths[..i + 1] == paths[..i] + [paths[i]]
    ensures Included(t, paths[..i + 1]) ==
      if IsExcluded(paths[i]) || (paths[i] in t && t[paths[i]].Link?) then Included(t, paths[..i])
      else Included(t, paths[..i]) + [paths[i]]
  {
    assert paths[..i + 1][..i] == paths[..i];
  }

  lemma {:induction false} IncludedGrows(t: Tree, paths: seq<string>, i: nat)
    requires i <= |paths|
    ensures Included(t, paths[..i]) <= Included(t, paths)
    decreases |paths|
  {
    if i == |paths| {
      assert paths[..i] == paths;
    } else {
      IncludedGrows(t, paths[..|paths| - 1], i);
      assert paths[..|paths| - 1][..i] == paths[..i];
    }
  }

  lemma OneMoreRow(hex: Bytes -> string, t: Tree, files: seq<string>, path: string)
    requires Present(t, files) && path in t
    ensures Present(t, files + [path])
    ensures Stream(Rows(hex, t, files + [path])) == Stream(Rows(hex, t, files)) + path + ['\0'] + hex(t[path].data) + ['\n']
  {
    var all := files + [path];
    assert all[..|files| + 1] == all && all[..|files|] == files;
    AppendRow(hex, t, all, |files|);
  }

  lemma MissingIsIncluded(t: Tree, paths: seq<string>, i: nat)
    requires i < |paths| && !IsExcluded(paths[i]) && paths[i] !in t
    ensures paths[i] in Included(t, paths)
  {
    IncludedNext(t, paths, i);
    IncludedGrows(t, paths, i + 1);
    var front := Included(t, paths[..i + 1]);
    assert front[|front| - 1] == paths[i] == Included(t, paths)[|front| - 1];
  }

  /** Two snapshots agree exactly when the same files take part, with the same bytes. */
  lemma SameIdentityIff(hex: Bytes -> string, a: Tree, b: Tree, pathsA: seq<string>, pathsB: seq<string>)
    requires WellFormed(a) && WellFormed(b) && Ordered(pathsA) && Ordered(pathsB)
    requires Present(a, Included(a, pathsA)) && Present(b, Included(b, pathsB))
    requires GoodHash(hex, Hashed(hex, a, Included(a, pathsA)) + Hashed(hex, b, Included(b, pathsB)))
    ensures TreeDigest(hex, a, Included(a, pathsA)) == TreeDigest(hex, b, Included(b, pathsB)) <==>
      && (forall p :: p in Included(a, pathsA) <==> p in Included(b, pathsB))
      && (forall p :: p in Included(a, pathsA) && p in Included(b, pathsB) ==> a[p].data == b[p].data)
  {
    var filesA, filesB := Included(a, pathsA), Included(b, pathsB);
    if TreeDigest(hex, a, filesA) == TreeDigest(hex, b, filesB) {
      SameDigestSameFiles(hex, a, b, filesA, filesB);
      DigestsAgreeIff(hex, a, b, filesA);
    }
    if (forall p :: p in filesA <==> p in filesB) && (forall p :: p in filesA && p in filesB ==> a[p].data == b[p].data) {
      IncludedIsOrdered(a, pathsA);
      IncludedIsOrdered(b, pathsB);
      OneOrder(filesA, filesB);
      DigestsAgreeIff(hex, a, b, filesA);
    }
  }

  lemma SameDigestSameFiles(hex: Bytes -> string, a: Tree, b: Tree, filesA: seq<string>, filesB: seq<string>)
    requires WellFormed(a) && WellFormed(b)
    requires Present(a, filesA) && Present(b, filesB)
    requires GoodHash(hex, Hashed(hex, a, filesA) + Hashed(hex, b, filesB))
    requires TreeDigest(hex, a, filesA) == TreeDigest(hex, b, filesB)
    ensures filesA == filesB
  {
    var x, y := Rows(hex, a, filesA), Rows(hex, b, filesB);
    RowsSound(hex, a, filesA);
    RowsSound(hex, b, filesB);
    assert forall r: (string, string) :: r in x + y ==> '\0' !in r.0 && |r.1| == 64;
    StreamInjective(x, y);
    forall i | 0 <= i < |filesA| ensures filesA[i] == filesB[i] { assert x[i] == y[i]; }
  }

  // ---------------------------------------------------------------- git's status records

  /** Number of fields before the path of an ordinary, a renamed and an unmerged record. */
  const ORDINARY := 8
  const RENAMED := 9
  const UNMERGED := 10

  /** What follows the n-th space, None when there are fewer. */
  function AfterSpaces(s: string, n: nat): Option<string>
    decreases |s|
  {
    if n == 0 then Some(s)
    else if s == "" then None
    else AfterSpaces(s[1..], if s[0] == ' ' then n - 1 else n)
  }

  /** A change as git knows it; `fields` is the text of the record up to its path. */
  datatype Change =
    | Ordinary(fields: string, path: string)
    | Renamed(fields: string, path: string, oldPath: string)
    | Unmerged(fields: string, path: string)
    | Untracked(path: string)
    | Header(text: string)

  /** Text with n spaces, the last of which ends it. */
  predicate HasSpaces(s: string, n: nat) {
    if s == "" then n == 0 else n > 0 && HasSpaces(s[1..], if s[0] == ' ' then n - 1 else n)
  }

  /** The record text git prints for a change. */
  predicate Written(c: Change) {
    match c
    case Ordinary(fields, path) => "1 " <= fields && HasSpaces(fields, ORDINARY)
    case Renamed(fields, path, _) => "2 " <= fields && HasSpaces(fields, RENAMED)
    case Unmerged(fields, path) => "u " <= fields && HasSpaces(fields, UNMERGED)
    case Untracked(path) => true
    case Header(text) => text != "" && (text[0] == '#' || text[0] == '!')
  }

  function RecordsOf(c: Change): (r: seq<string>)
    ensures |r| == if c.Renamed? then 2 else 1
  {
    match c
    case Ordinary(fields, path) => [fields + path]
    case Renamed(fields, path, oldPath) => [fields + path, oldPath]
    case Unmerged(fields, path) => [fields + path]
    case Untracked(path) => ["? " + path]
    case Header(text) => [text]
  }

  function Records(changes: seq<Change>): seq<string> {
    if changes == [] then [] else RecordsOf(changes[0]) + Records(changes[1..])
  }

  /** The path a change is about, None for headers. */
  function PathOf(c: Change): Option<string> {
    match c
    case Header(_) => None
    case _ => Some(c.path)
  }

  predicate Readable(c: Change) {
    Written(c) && (PathOf(c).Some? ==> ValidPath(PathOf(c).value))
  }

  predicate Relevant(c: Change, links: set<string>) {
    PathOf(c).Some? && !IsExcluded(PathOf(c).value) && PathOf(c).value !in links
  }

  function CountRelevant(changes: seq<Change>, links: set<string>): nat {
    if changes == [] then 0
    else (if Relevant(changes[0], links) then 1 else 0) + CountRelevant(changes[1..], links)
  }

  /** The path of a record that has one; None for a malformed record. */
  function RecordPath(record: string): Option<string>
    requires record != ""
  {
    match record[0]
    case '1' => AfterSpaces(record, ORDINARY)
    case 'u' => AfterSpaces(record, UNMERGED)
    case '2' => AfterSpaces(record, RENAMED)
    case _ => Some(if |record| < 2 then "" else record[2..])
  }

  predicate HasPath(record: string) {
    record != "" && (record[0] == '1' || record[0] == '2' || record[0] == 'u' || record[0] == '?')
  }

  /** What one record adds to the count; None when it is malformed or of an unknown kind. */
  function Adds(record: string, links: set<string>): Option<nat> {
    if record == "" then Some(0)
    else if !HasPath(record) then (if record[0] == '#' || record[0] == '!' then Some(0) else None)
    else match RecordPath(record)
      case None => None
      case Some(path) =>
        if !ValidPath(path) then None else Some(if IsExcluded(path) || path in links then 0 else 1)
  }

  function AddsFor(links: set<string>): string -> Option<nat> {
    record => Adds(record, links)
  }

  /** The index after a record: a renamed record takes the next one with it, whatever that looks like. */
  function Next(records: seq<string>, index: nat): (r: nat)
    requires index < |records|
    ensures index < r <= |records|
  {
    if records[index] != "" && records[index][0] == '2' && index + 1 < |records| then index + 2 else index + 1
  }

  /** The count from record `index` on. */
  function StatusFrom(records: seq<string>, index: nat, adds: string -> Option<nat>): Option<nat>
    requires index <= |records|
    decreases |records| - index
  {
    if index == |records| then Some(0)
    else match (adds(records[index]), StatusFrom(records, Next(records, index), adds))
      case (Some(a), Some(b)) => Some(a + b)
      case _ => None
  }

  /** The loop of `_status_count`. */
  method CountRecords(records: seq<string>, adds: string -> Option<nat>) returns (r: Option<nat>)
    ensures r == StatusFrom(records, 0, adds)
  {
    var count: nat, index: nat := 0, 0;
    while index < |records|
      invariant index <= |records|
      invariant StatusFrom(records, 0, adds) ==
        match StatusFrom(records, index, adds) case None => None case Some(n) => Some(count + n)
    {
      var added := adds(records[index]);
      if added.None? { return None; }
      count, index := count + added.value, Next(records, index);
    }
    r := Some(count);
  }

  /** `_status_count`, over the records of git's output. */
  method StatusCount(records: seq<string>, links: set<string>) returns (r: Option<nat>)
    ensures r == StatusFrom(records, 0, AddsFor(links))
  {
    r := CountRecords(records, AddsFor(links));
  }

  /** Earlier records do not matter. */
  lemma {:induction false} StatusShift(front: seq<string>, records: seq<string>, index: nat, adds: string -> Option<nat>)
    requires index <= |records|
    ensures StatusFrom(front + records, |front| + index, adds) == StatusFrom(records, index, adds)
    decreases |records| - index
  {
    if index < |records| {
      assert (front + records)[|front| + index] == records[index];
      StatusShift(front, records, Next(records, index), adds);
    }
  }

  lemma {:induction false} PathAfterFields(fields: string, path: string, n: nat)
    requires HasSpaces(fields, n)
    ensures AfterSpaces(fields + path, n) == Some(path)
  {
    if fields == "" {
      assert fields + path == path;
    } else {
      assert (fields + path)[1..] == fields[1..] + path;
      PathAfterFields(fields[1..], path, if fields[0] == ' ' then n - 1 else n);
    }
  }

  lemma ChangeAdds(c: Change, links: set<string>)
    requires Readable(c)
    ensures Adds(RecordsOf(c)[0], links) == Some(if Relevant(c, links) then 1 else 0)
    ensures RecordsOf(c)[0] != "" && (RecordsOf(c)[0][0] == '2' <==> c.Renamed?)
  {
    match c
    case Ordinary(fields, path) =>
      PathAfterFields(fields, path, ORDINARY);
      assert fields[0] == '1' && (fields + path)[0] == '1';
    case Renamed(fields, path, _) =>
      PathAfterFields(fields, path, RENAMED);
      assert fields[0] == '2' && (fields + path)[0] == '2';
    case Unmerged(fields, path) =>
      PathAfterFields(fields, path, UNMERGED);
      assert fields[0] == 'u' && (fields + path)[0] == 'u';
    case Untracked(path) =>
      assert ("? " + path)[0] == '?' && ("? " + path)[2..] == path;
    case Header(_) =>
  }

  /** The records of one change are consumed together. */
  lemma RecordsConsumed(first: seq<string>, rest: seq<string>, adds: string -> Option<nat>)
    requires 0 < |first| <= 2 && (|first| == 2 <==> first[0] != "" && first[0][0] == '2')
    requires adds(first[0]).Some? && StatusFrom(rest, 0, adds).Some?
    ensures StatusFrom(first + rest, 0, adds) == Some(adds(first[0]).value + StatusFrom(rest, 0, adds).value)
  {
    assert (first + rest)[0] == first[0];
    StatusShift(first, rest, 0, adds);
  }

  lemma LastIsEmpty(adds: string -> Option<nat>)
    requires adds("") == Some(0)
    ensures StatusFrom([""], 0, adds) == Some(0)
  {
    assert StatusFrom([""], 1, adds) == Some(0);
  }

  /**
   * From the records git writes, every change is counted once; the old path of a rename is never
   * taken for a record, whatever it looks like.
   */
  lemma {:induction false} EveryChangeCountsOnce(changes: seq<Change>, links: set<string>)
    requires forall i :: 0 <= i < |changes| ==> Readable(changes[i])
    ensures StatusFrom(Records(changes) + [""], 0, AddsFor(links)) == Some(CountRelevant(changes, links))
  {
    var adds := AddsFor(links);
    if changes == [] {
      LastIsEmpty(adds);
      assert [] + [""] == [""];
    } else {
      var first, rest := RecordsOf(changes[0]), Records(changes[1..]) + [""];
      EveryChangeCountsOnce(changes[1..], links);
      ChangeAdds(changes[0], links);
      RecordsConsumed(first, rest, adds);
      Assoc(first, Records(changes[1..]), [""]);
    }
  }

  // ---------------------------------------------------------------- what is refused

  lemma {:induction false} AfterSpacesIff(s: string, n: nat, path: string)
    ensures AfterSpaces(s, n) == Some(path) <==> exists fields :: s == fields + path && HasSpaces(fields, n)
    decreases |s|
  {
    if fields :| s == fields + path && HasSpaces(fields, n) { PathAfterFields(fields, path, n); }
    if AfterSpaces(s, n) == Some(path) {
      if n == 0 {
        assert s == "" + path && HasSpaces("", 0);
      } else {
        var m := if s[0] == ' ' then n - 1 else n;
        AfterSpacesIff(s[1..], m, path);
        var fields :| s[1..] == fields + path && HasSpaces(fields, m);
        assert ([s[0]] + fields)[1..] == fields && s == ([s[0]] + fields) + path;
        assert HasSpaces([s[0]] + fields, n);
      }
    }
  }

  /** Fields up to the path: so many spaces, the last right before it. */
  function FieldsBefore(kind: char): nat {
    if kind == '1' then 8 else if kind == '2' then 9 else 10
  }

  /** The record reads as a change at a valid path. */
  ghost predicate Changes(record: string, path: string) {
    && ValidPath(path) && record != ""
    && if record[0] == '?' then |record| > 2 && path == record[2..]
       else record[0] in {'1', '2', 'u'} && exists fields :: record == fields + path && HasSpaces(fields, FieldsBefore(record[0]))
  }

  /** A record makes the count fail exactly if it is neither empty nor a header nor a change at a valid path. */
  lemma RefusedIff(record: string, links: set<string>)
    ensures Adds(record, links).None? <==>
      record != "" && record[0] != '#' && record[0] != '!' && forall path :: !Changes(record, path)
    ensures forall path :: Changes(record, path) ==>
      Adds(record, links) == Some(if path == BASELINE_PATH || ARTIFACTS_PREFIX <= path || path in links then 0 else 1)
  {
    forall path ensures Changes(record, path) <==> HasPath(record) && RecordPath(record) == Some(path) && ValidPath(path) {
      if record != "" { AfterSpacesIff(record, FieldsBefore(record[0]), path); }
    }
    if HasPath(record) && RecordPath(record).Some? && ValidPath(RecordPath(record).value) {
      assert Changes(record, RecordPath(record).value);
    }
  }

  /** The links reported are those among the paths that are not excluded, in order. */
  lemma {:induction false} LinksAre(t: Tree, paths: seq<string>)
    requires Ordered(paths)
    ensures Ordered(Links(t, paths))
    ensures forall p :: p in Links(t, paths) <==> p in paths && !IsExcluded(p) && p in t && t[p].Link?
  {
    if paths != [] {
      var n := |paths| - 1;
      LinksAre(t, paths[..n]);
      assert paths == paths[..n] + [paths[n]];
      var before := Links(t, paths[..n]);
      forall i | 0 <= i < |before| ensures Less(before[i], paths[n]) { assert before[i] in paths[..n]; }
    }
  }
}
