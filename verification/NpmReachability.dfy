/**
 * Which lockfile entries scripts/check_frontend_dep_removal.py finds alive: Node's upward search
 * for a package, and the worklist over it.
 */
module NpmReachability {
  import opened Wrappers
  import opened Text
  import opened Sequences

  const SEPARATOR := "/node_modules/"

  /** The dependency tables of one lockfile entry; only the names matter. */
  datatype Meta = Meta(
    dependencies: set<string>,
    optionalDependencies: set<string>,
    peerDependencies: set<string>,
    optionalPeers: set<string>)

  type Lock = map<string, Meta>

  // ---------------------------------------------------------------- where a name resolves

  /** The directory prefix made of the first `i` parts of the parent's path. */
  function Ancestor(parent: string, i: nat): string
    requires 0 < i <= |Split(parent, SEPARATOR)|
  {
    Join(Split(parent, SEPARATOR)[..i], SEPARATOR)
  }

  function Installed(prefix: string, name: string): string {
    if prefix == "" then "node_modules/" + name else prefix + SEPARATOR + name
  }

  /** Where `name` may be installed as seen from `parent`: place 0 is the top level. */
  function Place(parent: string, name: string, i: nat): string
    requires i <= |Split(parent, SEPARATOR)|
  {
    if i == 0 then "node_modules/" + name else Installed(Ancestor(parent, i), name)
  }

  lemma {:induction false} JoinPrefix(parts: seq<string>, i: nat)
    requires 0 < i < |parts|
    ensures Join(parts[..i], SEPARATOR) + SEPARATOR <= Join(parts, SEPARATOR)
  {
    if i == 1 {
      assert parts[..1] == [parts[0]];
    } else {
      JoinPrefix(parts[1..], i - 1);
      assert parts[..i][1..] == parts[1..][..i - 1];
      var inner, all := Join(parts[1..][..i - 1], SEPARATOR), Join(parts[1..], SEPARATOR);
      assert all == inner + SEPARATOR + all[|inner + SEPARATOR|..];
      assert Join(parts, SEPARATOR) == (parts[0] + SEPARATOR + inner + SEPARATOR) + all[|inner + SEPARATOR|..];
    }
  }

  /** Every ancestor but the last is a directory above the parent: the path goes on with the separator. */
  lemma AncestorsAreAbove(parent: string, i: nat)
    requires 0 < i <= |Split(parent, SEPARATOR)|
    ensures i < |Split(parent, SEPARATOR)| ==> Ancestor(parent, i) + SEPARATOR <= parent
    ensures i == |Split(parent, SEPARATOR)| ==> Ancestor(parent, i) == parent
  {
    JoinSplit(parent, SEPARATOR);
    var parts := Split(parent, SEPARATOR);
    if i < |parts| {
      JoinPrefix(parts, i);
    } else {
      assert parts[..i] == parts;
    }
  }

  /** A later place lies deeper. */
  lemma {:induction false} DeeperIsLonger(parent: string, i: nat, j: nat)
    requires 0 < i < j <= |Split(parent, SEPARATOR)|
    ensures |Ancestor(parent, i)| + |SEPARATOR| <= |Ancestor(parent, j)|
  {
    var parts := Split(parent, SEPARATOR)[..j];
    JoinPrefix(parts, i);
    assert parts[..i] == Split(parent, SEPARATOR)[..i];
  }

  /** The deepest place, at most `i`, that the lockfile has. */
  function Deepest(pkgs: Lock, parent: string, name: string, i: nat): (r: Option<string>)
    requires i <= |Split(parent, SEPARATOR)|
    ensures r.None? ==> forall k :: 0 <= k <= i ==> Place(parent, name, k) !in pkgs
    ensures r.Some? ==> exists k ::
      && 0 <= k <= i && r.value == Place(parent, name, k) && r.value in pkgs
      && (forall d :: k < d <= i ==> Place(parent, name, d) !in pkgs)
  {
    if Place(parent, name, i) in pkgs then Some(Place(parent, name, i))
    else if i == 0 then None
    else Deepest(pkgs, parent, name, i - 1)
  }

  function Resolve(pkgs: Lock, parent: string, name: string): Option<string> {
    Deepest(pkgs, parent, name, |Split(parent, SEPARATOR)|)
  }

  lemma TrialIsPlace(parent: string, name: string, i: nat, prefix: string)
    requires 0 < i <= |Split(parent, SEPARATOR)| && prefix == Ancestor(parent, i)
    ensures (if prefix != "" then prefix + SEPARATOR else "node_modules/") + name == Place(parent, name, i)
  {
  }

  lemma DeepestFrom(pkgs: Lock, parent: string, name: string, i: nat)
    requires 0 < i <= |Split(parent, SEPARATOR)|
    ensures Deepest(pkgs, parent, name, i)
      == if Place(parent, name, i) in pkgs then Some(Place(parent, name, i)) else Deepest(pkgs, parent, name, i - 1)
  {
  }

  /** `_resolve_install_path`. */
  method ResolveInstallPath(pkgs: Lock, parent: string, name: string) returns (r: Option<string>)
    ensures r == Resolve(pkgs, parent, name)
  {
    var parts := Split(parent, SEPARATOR);
    var i := |parts|;
    while i > 0
      invariant 0 <= i <= |parts|
      invariant Resolve(pkgs, parent, name) == Deepest(pkgs, parent, name, i)
    {
      var prefix := Join(parts[..i], SEPARATOR);
      var trial := (if prefix != "" then prefix + SEPARATOR else "node_modules/") + name;
      TrialIsPlace(parent, name, i, prefix);
      DeepestFrom(pkgs, parent, name, i);
      if trial in pkgs { return Some(trial); }
      i := i - 1;
    }
    r := if "node_modules/" + name in pkgs then Some("node_modules/" + name) else None;
  }

  // ---------------------------------------------------------------- what is reachable

  function DepsOf(m: Meta): set<string> {
    m.dependencies + m.optionalDependencies + (m.peerDependencies - m.optionalPeers)
  }

  /** `to` is what some dependency of `from` resolves to. */
  ghost predicate Needs(pkgs: Lock, from: string, to: string) {
    from in pkgs && exists name :: name in DepsOf(pkgs[from]) && Resolve(pkgs, from, name) == Some(to)
  }

  ghost predicate IsRoot(pkgs: Lock, roots: set<string>, path: string) {
    exists name :: name in roots && Resolve(pkgs, "", name) == Some(path)
  }

  /** Holds the resolved roots and whatever its members need. */
  ghost predicate Closed(pkgs: Lock, roots: set<string>, s: set<string>) {
    && (forall path :: IsRoot(pkgs, roots, path) ==> path in s)
    && (forall from, to :: from in s && Needs(pkgs, from, to) ==> to in s)
  }

  ghost predicate IsLeast(pkgs: Lock, roots: set<string>, s: set<string>) {
    && Closed(pkgs, roots, s)
    && (forall t :: Closed(pkgs, roots, t) ==> s <= t)
  }

  /** A chain for any notion of root and need. */
  predicate ChainBy(root: string -> bool, need: (string, string) -> bool, chain: seq<string>) {
    && chain != []
    && var last := |chain| - 1;
       if last == 0 then root(chain[0])
       else ChainBy(root, need, chain[..last]) && need(chain[last - 1], chain[last])
  }

  ghost function RootOf(pkgs: Lock, roots: set<string>): string -> bool {
    path => IsRoot(pkgs, roots, path)
  }

  ghost function NeedOf(pkgs: Lock): (string, string) -> bool {
    (from, to) => Needs(pkgs, from, to)
  }

  /** A path from a root along dependencies. */
  ghost predicate Chain(pkgs: Lock, roots: set<string>, chain: seq<string>) {
    ChainBy(RootOf(pkgs, roots), NeedOf(pkgs), chain)
  }

  ghost predicate Reached(pkgs: Lock, roots: set<string>, path: string) {
    exists chain :: Chain(pkgs, roots, chain) && chain[|chain| - 1] == path
  }

  lemma RootReached(pkgs: Lock, roots: set<string>, path: string)
    requires IsRoot(pkgs, roots, path)
    ensures Reached(pkgs, roots, path)
  {
    assert Chain(pkgs, roots, [path]);
  }

  lemma NeedReached(pkgs: Lock, roots: set<string>, from: string, to: string)
    requires Reached(pkgs, roots, from) && Needs(pkgs, from, to)
    ensures Reached(pkgs, roots, to)
  {
    var chain :| Chain(pkgs, roots, chain) && chain[|chain| - 1] == from;
    var longer := ChainExtends(RootOf(pkgs, roots), NeedOf(pkgs), chain, to);
    assert Chain(pkgs, roots, longer) && longer[|longer| - 1] == to;
  }

  lemma ChainExtends(root: string -> bool, need: (string, string) -> bool, chain: seq<string>, to: string) returns (longer: seq<string>)
    requires ChainBy(root, need, chain) && need(chain[|chain| - 1], to)
    ensures ChainBy(root, need, longer) && longer[|longer| - 1] == to
  {
    longer := chain + [to];
    Snoc(chain, to);
  }

  lemma OnlyReachedIsClosed(pkgs: Lock, roots: set<string>, s: set<string>, t: set<string>)
    requires Closed(pkgs, roots, s) && forall p :: p in t <==> p in s && Reached(pkgs, roots, p)
    ensures Closed(pkgs, roots, t)
  {
    forall p | IsRoot(pkgs, roots, p) ensures p in t { RootReached(pkgs, roots, p); }
    forall from, to | from in t && Needs(pkgs, from, to) ensures to in t { NeedReached(pkgs, roots, from, to); }
  }

  /** The least closed set is what chains of dependencies reach, so it cannot depend on the visiting order. */
  lemma LeastIsReached(pkgs: Lock, roots: set<string>, s: set<string>, path: string)
    requires IsLeast(pkgs, roots, s)
    ensures path in s <==> Reached(pkgs, roots, path)
  {
    if Reached(pkgs, roots, path) {
      var chain :| Chain(pkgs, roots, chain) && chain[|chain| - 1] == path;
      ChainInside(pkgs, roots, s, chain);
    }
    var t := set p | p in s && Reached(pkgs, roots, p);
    OnlyReachedIsClosed(pkgs, roots, s, t);
    assert s <= t;
  }

  lemma {:induction false} ChainByInside(root: string -> bool, need: (string, string) -> bool, s: set<string>, chain: seq<string>)
    requires ChainBy(root, need, chain)
    requires (forall p :: root(p) ==> p in s) && forall from, to :: from in s && need(from, to) ==> to in s
    ensures chain[|chain| - 1] in s
  {
    if |chain| > 1 { ChainByInside(root, need, s, chain[..|chain| - 1]); }
  }

  lemma ChainInside(pkgs: Lock, roots: set<string>, s: set<string>, chain: seq<string>)
    requires Closed(pkgs, roots, s) && Chain(pkgs, roots, chain)
    ensures chain[|chain| - 1] in s
  {
    ChainByInside(RootOf(pkgs, roots), NeedOf(pkgs), s, chain);
  }

  lemma NotKeptForNothing(pkgs: Lock, roots: set<string>, s: set<string>, path: string)
    requires IsLeast(pkgs, roots, s)
    requires !IsRoot(pkgs, roots, path) && !(exists from :: from in s && Needs(pkgs, from, path))
    ensures path !in s
  {
    assert Closed(pkgs, roots, s - {path});
  }

  /** A package is kept only as a root or for a kept one that depends on it. */
  lemma KeptBecause(pkgs: Lock, roots: set<string>, s: set<string>, path: string)
    requires IsLeast(pkgs, roots, s)
    ensures path in s <==>
      || (exists name :: name in roots && Resolve(pkgs, "", name) == Some(path))
      || (exists from, name :: from in s && from in pkgs && DependsOn(pkgs[from], name) && Resolve(pkgs, from, name) == Some(path))
  {
    if path in s {
      if !IsRoot(pkgs, roots, path) && !(exists from :: from in s && Needs(pkgs, from, path)) {
        NotKeptForNothing(pkgs, roots, s, path);
      }
      if from :| from in s && Needs(pkgs, from, path) {
        var name :| name in DepsOf(pkgs[from]) && Resolve(pkgs, from, name) == Some(path);
        assert DependsOn(pkgs[from], name);
      }
    }
    if from, name :| from in s && from in pkgs && DependsOn(pkgs[from], name) && Resolve(pkgs, from, name) == Some(path) {
      assert name in DepsOf(pkgs[from]) && Needs(pkgs, from, path);
    }
  }

  /** A plain or optional dependency, or a peer that is not optional. */
  predicate DependsOn(m: Meta, name: string) {
    name in m.dependencies || name in m.optionalDependencies || (name in m.peerDependencies && name !in m.optionalPeers)
  }

  /** Declaring fewer packages at the top never keeps more of the lockfile alive. */
  lemma FewerRootsReachLess(pkgs: Lock, fewer: set<string>, more: set<string>, s: set<string>, t: set<string>)
    requires fewer <= more && IsLeast(pkgs, fewer, s) && IsLeast(pkgs, more, t)
    ensures s <= t
  {
    assert Closed(pkgs, fewer, t);
  }

  // ---------------------------------------------------------------- the worklist

  /** What the worklist keeps: everything found is needed, and needs are found or still to visit. */
  ghost predicate Tracked(pkgs: Lock, roots: set<string>, seen: set<string>, frontier: seq<string>) {
    && (forall p :: p in seen || p in frontier ==> p in pkgs)
    && (forall t :: Closed(pkgs, roots, t) ==> seen <= t && forall p :: p in frontier ==> p in t)
  }

  ghost predicate Covered(pkgs: Lock, p: string, seen: set<string>, frontier: seq<string>) {
    forall to :: Needs(pkgs, p, to) ==> to in seen || to in frontier
  }

  /** Every root, and every need of a marked path, is marked or still to visit. */
  ghost predicate Pending(pkgs: Lock, roots: set<string>, seen: set<string>, frontier: seq<string>) {
    && (forall p :: IsRoot(pkgs, roots, p) ==> p in seen || p in frontier)
    && (forall p :: p in seen ==> Covered(pkgs, p, seen, frontier))
  }

  lemma VisitedTracked(pkgs: Lock, roots: set<string>, seen: set<string>, path: string, below: seq<string>, grown: seq<string>)
    requires Tracked(pkgs, roots, seen, below + [path])
    requires forall p :: p in grown ==> p in below || Needs(pkgs, path, p)
    requires forall p :: p in grown ==> p in pkgs
    ensures Tracked(pkgs, roots, seen + {path}, grown)
  {
    assert path in below + [path];
    forall t | Closed(pkgs, roots, t) ensures seen + {path} <= t && forall p :: p in grown ==> p in t {
      assert forall p :: p in below + [path] ==> p in t;
      forall p | p in grown ensures p in t {
        if p in below { assert p in below + [path]; }
      }
    }
  }

  lemma VisitedPending(pkgs: Lock, roots: set<string>, seen: set<string>, path: string, below: seq<string>, grown: seq<string>)
    requires Pending(pkgs, roots, seen, below + [path]) && below <= grown && Covered(pkgs, path, seen + {path}, grown)
    ensures Pending(pkgs, roots, seen + {path}, grown)
  {
    forall p | p in below + [path] ensures p in seen + {path} || p in grown {
      if p in below { var i :| 0 <= i < |below| && below[i] == p; assert grown[i] == p; }
    }
    forall p | p in seen ensures Covered(pkgs, p, seen + {path}, grown) {
      assert Covered(pkgs, p, seen, below + [path]);
    }
  }

  /** The first loop: the roots that resolve. */
  method Roots(pkgs: Lock, roots: set<string>) returns (frontier: seq<string>)
    ensures forall p :: p in frontier <==> IsRoot(pkgs, roots, p)
  {
    frontier := [];
    var rest := roots;
    while rest != {}
      invariant rest <= roots
      invariant forall p :: p in frontier <==> IsRoot(pkgs, roots - rest, p)
    {
      var name :| name in rest;
      var p := ResolveInstallPath(pkgs, "", name);
      ghost var before := roots - rest;
      rest := rest - {name};
      assert roots - rest == before + {name};
      if p.Some? { frontier := frontier + [p.value]; }
    }
    assert roots - rest == roots;
  }

  /** The body of the second loop: one path is marked, and its unmarked needs are appended. */
  method Visit(pkgs: Lock, path: string, seen: set<string>, frontier: seq<string>) returns (grown: seq<string>)
    requires path in pkgs
    ensures frontier <= grown
    ensures Covered(pkgs, path, seen, grown)
    ensures forall p :: p in grown ==> p in frontier || (p in pkgs && Needs(pkgs, path, p))
  {
    grown := frontier;
    var deps := DepsOf(pkgs[path]);
    var rest := deps;
    while rest != {}
      invariant rest <= deps && frontier <= grown
      invariant forall p :: p in grown ==> p in frontier || (p in pkgs && Needs(pkgs, path, p))
      invariant forall name :: name in deps - rest && Resolve(pkgs, path, name).Some? ==>
        Resolve(pkgs, path, name).value in seen || Resolve(pkgs, path, name).value in grown
    {
      var name :| name in rest;
      var p := ResolveInstallPath(pkgs, path, name);
      if p.Some? && p.value !in seen { grown := grown + [p.value]; }
      rest := rest - {name};
    }
  }

  /** `reachable_from_head`: the least set with the resolved roots and closed under dependencies. */
  method ReachableFromHead(pkgs: Lock, roots: set<string>) returns (seen: set<string>)
    ensures IsLeast(pkgs, roots, seen)
  {
    seen := {};
    var frontier := Roots(pkgs, roots);
    while frontier != []
      invariant Tracked(pkgs, roots, seen, frontier)
      invariant Pending(pkgs, roots, seen, frontier)
      decreases pkgs.Keys - seen, |frontier|
    {
      var path := frontier[|frontier| - 1];
      var below := frontier[..|frontier| - 1];
      assert frontier == below + [path];
      if path in seen {
        frontier := below;
        continue;
      }
      ghost var before := seen;
      seen := seen + {path};
      frontier := Visit(pkgs, path, seen, below);
      VisitedTracked(pkgs, roots, before, path, below, frontier);
      VisitedPending(pkgs, roots, before, path, below, frontier);
    }
  }
}
