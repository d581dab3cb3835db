/**
 * The manifest of scripts/apply_helix_backend_overlay.py: which overlays it accepts, and what
 * its digest says about an installed tree.
 */
module OverlayManifest {
  import opened Wrappers
  import opened Text

  type Bytes = string

  /** What stands at a path: a regular file, or a link with the bytes it leads to. */
  datatype Entry = File(data: Bytes) | Link(data: Bytes)

  type Tree = map<string, Entry>

  datatype Manifest = Manifest(files: seq<string>, fileCount: int, treeSha: string, payload: Bytes)

  const RUNTIME_MANIFEST := ".helix_backend_manifest.json"

  /** sha256 as hexadecimal text: 64 characters, and no collision among the texts at hand. */
  ghost predicate GoodHash(hex: Bytes -> string, texts: set<Bytes>) {
    && (forall b :: |hex(b)| == 64)
    && (forall a, b :: a in texts && b in texts && hex(a) == hex(b) ==> a == b)
  }

  /** No path of a file system holds a NUL, and none has an empty or dotted component. */
  ghost predicate WellFormed(t: Tree) {
    forall p :: p in t ==> '\0' !in p && p != "."
  }

  predicate Regular(t: Tree, p: string) { p in t && t[p].File? }

  // ---------------------------------------------------------------- canonical paths

  /** pathlib forgets empty and single-dot components. */
  function Kept(parts: seq<string>): seq<string> {
    if parts == [] then []
    else (if parts[0] == "" || parts[0] == "." then [] else [parts[0]]) + Kept(parts[1..])
  }

  function AsPosix(raw: string): string {
    var parts := Kept(Split(raw, "/"));
    if parts == [] then "." else Join(parts, "/")
  }

  /** Lines 28-37, for one entry: non-empty, relative, nothing above, spelled as pathlib would. */
  predicate Canonical(raw: string) {
    && raw != "" && raw[0] != '/'
    && ".." !in Kept(Split(raw, "/"))
    && AsPosix(raw) == raw
  }

  lemma {:induction false} KeptMembers(parts: seq<string>, p: string)
    ensures p in Kept(parts) <==> p in parts && p != "" && p != "."
  {
    if parts != [] {
      KeptMembers(parts[1..], p);
      assert parts == [parts[0]] + parts[1..];
    }
  }

  lemma {:induction false} NothingForgotten(parts: seq<string>)
    requires "" !in parts && "." !in parts
    ensures Kept(parts) == parts
  {
    if parts != [] { NothingForgotten(parts[1..]); }
  }

  lemma {:induction false} KeptShorter(parts: seq<string>)
    requires Kept(parts) != []
    ensures |Join(Kept(parts), "/")| <= |Join(parts, "/")|
    ensures "" in parts || "." in parts ==> |Join(Kept(parts), "/")| < |Join(parts, "/")|
  {
    var first, rest := parts[0], parts[1..];
    assert parts == [first] + rest;
    assert first == "" || first == "." ==> Kept(parts) == Kept(rest);
    if Kept(rest) != [] { KeptShorter(rest); }
    if first != "" && first != "." {
      assert Kept(parts) == [first] + Kept(rest) && Kept(parts)[1..] == Kept(rest);
      if rest != [] { assert |Join(parts, "/")| == |first| + 1 + |Join(rest, "/")|; }
    } else {
      assert |Join(parts, "/")| == |first| + 1 + |Join(rest, "/")|;
    }
  }

  lemma {:induction false} KeptEmpty(parts: seq<string>)
    requires Kept(parts) == [] && parts != []
    ensures Join(parts, "/") == "." ==> parts == ["."]
    ensures Join(parts, "/") != "" ==> |parts| > 1 || parts == ["."]
  {
    if |parts| > 1 { KeptEmpty(parts[1..]); }
  }

  /** The pathlib round trip admits exactly the paths without empty, "." or ".." components, and ".". */
  lemma CanonicalIff(raw: string)
    ensures Canonical(raw) <==> raw == "." || ("" !in Split(raw, "/") && "." !in Split(raw, "/") && ".." !in Split(raw, "/"))
  {
    var parts := Split(raw, "/");
    JoinSplit(raw, "/");
    KeptMembers(parts, "..");
    if "" !in parts && "." !in parts { NothingForgotten(parts); }
    if raw == "" {
      assert parts == [""];
    } else if raw[0] == '/' {
      assert parts[0] == "";
    } else if Kept(parts) == [] {
      KeptEmpty(parts);
    } else {
      KeptShorter(parts);
    }
  }

  // ---------------------------------------------------------------- the digest

  function Row(path: string, hash: string): string {
    path + ['\0'] + hash + ['\n']
  }

  /** The stream both digests hash: path, NUL, hash, newline for each listed file. */
  function Stream(rows: seq<(string, string)>): string {
    if rows == [] then "" else Row(rows[0].0, rows[0].1) + Stream(rows[1..])
  }

  function Rows(hex: Bytes -> string, t: Tree, files: seq<string>): (r: seq<(string, string)>)
    requires forall p :: p in files ==> p in t
  {
    seq(|files|, i requires 0 <= i < |files| => (files[i], hex(t[files[i]].data)))
  }

  lemma RowPeels(p: string, h: string, s: string, q: string, k: string, t: string)
    requires '\0' !in p && '\0' !in q && |h| == 64 && |k| == 64
    requires Row(p, h) + s == Row(q, k) + t
    ensures p == q && h == k && s == t
  {
    var u, v := h + ['\n'] + s, k + ['\n'] + t;
    assert Row(p, h) + s == p + ['\0'] + u && Row(q, k) + t == q + ['\0'] + v;
    CutAt('\0', p, q, u, v);
    assert u[..64] == h && v[..64] == k;
    assert u[65..] == s && v[65..] == t;
  }

  /** The stream decodes in one way, whatever else the paths hold: newlines included. */
  lemma {:induction false} StreamInjective(a: seq<(string, string)>, b: seq<(string, string)>)
    requires forall r :: r in a + b ==> '\0' !in r.0 && |r.1| == 64
    requires Stream(a) == Stream(b)
    ensures a == b
  {
    if a != [] && b != [] {
      assert a[0] in a + b && b[0] in a + b;
      RowPeels(a[0].0, a[0].1, Stream(a[1..]), b[0].0, b[0].1, Stream(b[1..]));
      StreamInjective(a[1..], b[1..]);
      assert a == [a[0]] + a[1..] && b == [b[0]] + b[1..];
    }
  }

  function TreeDigest(hex: Bytes -> string, t: Tree, files: seq<string>): string
    requires forall p :: p in files ==> p in t
  {
    hex(Stream(Rows(hex, t, files)))
  }

  /** Every text that goes into the digest of a tree: the listed files and the stream. */
  ghost function Hashed(hex: Bytes -> string, t: Tree, files: seq<string>): set<Bytes>
    requires forall p :: p in files ==> p in t
  {
    (set p | p in files :: t[p].data) + {Stream(Rows(hex, t, files))}
  }

  /** `_installed_tree_digest`: None as soon as an entry is missing or a link. */
  method InstalledDigest(hex: Bytes -> string, installed: Tree, files: seq<string>) returns (r: Option<string>)
    ensures r.Some? <==> forall p :: p in files ==> Regular(installed, p)
    ensures r.Some? ==> r.value == TreeDigest(hex, installed, files)
  {
    var stream := "";
    for i := 0 to |files|
      invariant forall p :: p in files[..i] ==> Regular(installed, p)
      invariant stream == Stream(Rows(hex, installed, files[..i]))
    {
      var rel := files[i];
      if !Regular(installed, rel) { return None; }
      assert files[..i + 1] == files[..i] + [rel];
      stream := stream + (rel + ['\0'] + hex(installed[rel].data) + ['\n']);
      AppendRow(hex, installed, files, i);
    }
    assert files[..|files|] == files;
    r := Some(hex(stream));
  }

  lemma {:induction false} StreamAppend(rows: seq<(string, string)>, row: (string, string))
    ensures Stream(rows + [row]) == Stream(rows) + Row(row.0, row.1)
  {
    if rows == [] {
      assert rows + [row] == [row] && [row][1..] == [];
    } else {
      StreamAppend(rows[1..], row);
      assert (rows + [row])[1..] == rows[1..] + [row];
    }
  }

  lemma AppendRow(hex: Bytes -> string, t: Tree, files: seq<string>, i: nat)
    requires i < |files| && forall p :: p in files[..i + 1] ==> p in t
    ensures forall p :: p in files[..i] ==> p in t
    ensures Stream(Rows(hex, t, files[..i + 1])) == Stream(Rows(hex, t, files[..i])) + Row(files[i], hex(t[files[i]].data))
  {
    assert files[..i + 1] == files[..i] + [files[i]];
    assert Rows(hex, t, files[..i + 1]) == Rows(hex, t, files[..i]) + [(files[i], hex(t[files[i]].data))];
    StreamAppend(Rows(hex, t, files[..i]), (files[i], hex(t[files[i]].data)));
  }

  lemma RowsSound(hex: Bytes -> string, t: Tree, files: seq<string>)
    requires GoodHash(hex, {}) && forall p :: p in files ==> p in t && '\0' !in p
    ensures forall r :: r in Rows(hex, t, files) ==> '\0' !in r.0 && |r.1| == 64
  {
    var rows := Rows(hex, t, files);
    forall r | r in rows ensures '\0' !in r.0 && |r.1| == 64 {
      var i :| 0 <= i < |rows| && rows[i] == r;
      assert files[i] in files && r.1 == hex(t[files[i]].data);
    }
  }

  /** Equal digests mean equal bytes in every listed file, and only that. */
  lemma DigestsAgreeIff(hex: Bytes -> string, a: Tree, b: Tree, files: seq<string>)
    requires WellFormed(a) && forall p :: p in files ==> p in a && p in b
    requires GoodHash(hex, Hashed(hex, a, files) + Hashed(hex, b, files))
    ensures TreeDigest(hex, a, files) == TreeDigest(hex, b, files) <==> forall p :: p in files ==> a[p].data == b[p].data
  {
    var x, y := Rows(hex, a, files), Rows(hex, b, files);
    if TreeDigest(hex, a, files) == TreeDigest(hex, b, files) {
      RowsSound(hex, a, files);
      RowsSound(hex, b, files);
      assert forall r: (string, string) :: r in x + y ==> '\0' !in r.0 && |r.1| == 64;
      StreamInjective(x, y);
      forall p | p in files ensures a[p].data == b[p].data {
        var i :| 0 <= i < |files| && files[i] == p;
        assert x[i] == y[i];
        assert a[p].data in Hashed(hex, a, files) && b[p].data in Hashed(hex, b, files);
      }
    }
    if forall p :: p in files ==> a[p].data == b[p].data {
      assert x == y;
    }
  }

  // ---------------------------------------------------------------- accepting an overlay

  predicate Distinct(files: seq<string>) {
    forall i, j :: 0 <= i < j < |files| ==> files[i] != files[j]
  }

  /** What an accepted manifest promises about the overlay. */
  predicate Accepts(hex: Bytes -> string, overlay: Tree, meta: Manifest) {
    && meta.files != [] && meta.fileCount == |meta.files|
    && Distinct(meta.files)
    && (forall p :: p in meta.files ==> Canonical(p) && Regular(overlay, p))
    && TreeDigest(hex, overlay, meta.files) == meta.treeSha
  }

  /** The first `i` listed files passed the checks, and are the ones seen. */
  ghost predicate Listed(overlay: Tree, files: seq<string>, i: nat, seen: set<string>) {
    && i <= |files| && seen == (set p | p in files[..i]) && Distinct(files[..i])
    && forall p :: p in files[..i] ==> Canonical(p) && Regular(overlay, p)
  }

  lemma ListedNext(overlay: Tree, files: seq<string>, i: nat, seen: set<string>)
    requires i < |files| && Listed(overlay, files, i, seen)
    ensures var rel := files[i];
      if Canonical(rel) && rel !in seen && Regular(overlay, rel) then Listed(overlay, files, i + 1, seen + {rel})
      else !(Distinct(files) && forall p :: p in files ==> Canonical(p) && Regular(overlay, p))
  {
    var rel := files[i];
    assert files[..i + 1] == files[..i] + [rel] && rel in files;
    if rel in seen {
      var j :| 0 <= j < i && files[j] == rel;
    }
  }

  /** `_manifest_files`. */
  method ManifestFiles(hex: Bytes -> string, overlay: Tree, meta: Manifest) returns (ok: bool)
    ensures ok <==> Accepts(hex, overlay, meta)
  {
    var files := meta.files;
    if files == [] || meta.fileCount != |files| { return false; }
    var stream, seen := "", {};
    for i := 0 to |files|
      invariant Listed(overlay, files, i, seen)
      invariant stream == Stream(Rows(hex, overlay, files[..i]))
    {
      var rel := files[i];
      ListedNext(overlay, files, i, seen);
      if !Canonical(rel) || rel in seen { return false; }
      seen := seen + {rel};
      if !Regular(overlay, rel) { return false; }
      stream := stream + (rel + ['\0'] + hex(overlay[rel].data) + ['\n']);
      AppendRow(hex, overlay, files, i);
    }
    assert files[..|files|] == files;
    ok := hex(stream) == meta.treeSha;
  }

  // ---------------------------------------------------------------- the staged tree

  /** `copytree` without links: every link becomes a file of its own. */
  function Copied(t: Tree): Tree {
    map p | p in t :: File(t[p].data)
  }

  /** `Copied(t)` with the first `n` listed files taken from the overlay (206-209). */
  function Overlaid(t: Tree, overlay: Tree, files: seq<string>): Tree
    requires forall p :: p in files ==> p in overlay
  {
    map p | p in t.Keys + (set q | q in files) ::
      if p in files then File(overlay[p].data) else File(t[p].data)
  }

  lemma OverlaidNone(t: Tree, overlay: Tree)
    ensures Overlaid(t, overlay, []) == Copied(t)
  {
  }

  lemma OverlaidNext(t: Tree, overlay: Tree, files: seq<string>, i: nat)
    requires i < |files| && forall p :: p in files ==> p in overlay
    ensures Overlaid(t, overlay, files[..i + 1]) == Overlaid(t, overlay, files[..i])[files[i] := File(overlay[files[i]].data)]
  {
    assert files[..i + 1] == files[..i] + [files[i]];
  }

  /** The stage that is activated: the copy, the overlay's files, and the runtime manifest. */
  function Staged(t: Tree, overlay: Tree, meta: Manifest): Tree
    requires forall p :: p in meta.files ==> p in overlay
  {
    Overlaid(t, overlay, meta.files)[RUNTIME_MANIFEST := File(meta.payload)]
  }

  lemma StagedAt(t: Tree, overlay: Tree, meta: Manifest, p: string)
    requires (forall q :: q in meta.files ==> q in overlay) && p in meta.files
    ensures Regular(Staged(t, overlay, meta), p)
    ensures Staged(t, overlay, meta)[p].data == if p == RUNTIME_MANIFEST then meta.payload else overlay[p].data
  {
  }

  /** Every path of the installation survives, and what the overlay does not own keeps its bytes. */
  lemma NothingElseChanges(t: Tree, overlay: Tree, meta: Manifest, p: string)
    requires forall q :: q in meta.files ==> q in overlay
    ensures p in Staged(t, overlay, meta) <==> p in t || p in meta.files || p == RUNTIME_MANIFEST
    ensures p in t && p !in meta.files && p != RUNTIME_MANIFEST ==> Staged(t, overlay, meta)[p].data == t[p].data
  {
  }

  /** A tree is taken for current exactly when each owned file is a regular file with the overlay's bytes. */
  ghost predicate LooksCurrent(hex: Bytes -> string, t: Tree, meta: Manifest) {
    && (forall p :: p in meta.files ==> Regular(t, p))
    && TreeDigest(hex, t, meta.files) == meta.treeSha
  }

  lemma CurrentIff(hex: Bytes -> string, t: Tree, overlay: Tree, meta: Manifest)
    requires WellFormed(overlay) && Accepts(hex, overlay, meta)
    requires (forall p :: p in meta.files ==> p in t) ==>
               GoodHash(hex, Hashed(hex, overlay, meta.files) + Hashed(hex, t, meta.files))
    ensures LooksCurrent(hex, t, meta) <==> forall p :: p in meta.files ==> Regular(t, p) && t[p].data == overlay[p].data
  {
    if forall p :: p in meta.files ==> Regular(t, p) {
      DigestsAgreeIff(hex, overlay, t, meta.files);
    }
  }

  /**
   * After a successful run the next one finds the backend current, unless the manifest lists the
   * file the run itself writes with other bytes than it writes.
   */
  lemma NextRunIsCurrentIff(hex: Bytes -> string, t: Tree, overlay: Tree, meta: Manifest)
    requires WellFormed(overlay) && Accepts(hex, overlay, meta)
    requires GoodHash(hex, Hashed(hex, overlay, meta.files) + Hashed(hex, Staged(t, overlay, meta), meta.files))
    ensures LooksCurrent(hex, Staged(t, overlay, meta), meta) <==>
      (RUNTIME_MANIFEST in meta.files ==> overlay[RUNTIME_MANIFEST].data == meta.payload)
  {
    CurrentIff(hex, Staged(t, overlay, meta), overlay, meta);
    forall p | p in meta.files { StagedAt(t, overlay, meta, p); }
  }
}
