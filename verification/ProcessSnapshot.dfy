/**
 * Descendant closure over a process snapshot that may lose rows while it is being read
 * (scripts/benchmark-helix-v3-source-runtime.py).
 */
module ProcessSnapshot {
  import opened Wrappers

  type Pid = nat

  /** One validated wire row of `ps`. */
  datatype Row = Row(ppid: Pid, pgid: Pid, start: string, command: string)

  datatype Identity = Identity(row: Row, sid: Pid)

  type Rows = map<Pid, Row>

  ghost predicate Closed(rows: Rows, s: set<Pid>) {
    forall p :: p in rows && rows[p].ppid in s ==> p in s
  }

  /** `owned` is the least closed set containing `root`. */
  ghost predicate IsDescendants(rows: Rows, root: Pid, owned: set<Pid>) {
    && root in owned && Closed(rows, owned)
    && forall s: set<Pid> :: root in s && Closed(rows, s) ==> owned <= s
  }

  // ---------------------------------------------------------------- the traversal

  /** The rows among `done` whose parent is `q`. */
  function Kids(rows: Rows, done: set<Pid>, q: Pid): (r: set<Pid>)
    ensures forall p :: p in r <==> p in done && p in rows && rows[p].ppid == q
  {
    set p | p in done && p in rows && rows[p].ppid == q
  }

  function Listed(children: map<Pid, set<Pid>>, q: Pid): set<Pid> {
    if q in children then children[q] else {}
  }

  ghost predicate ListsKids(rows: Rows, children: map<Pid, set<Pid>>, done: set<Pid>) {
    forall q :: Listed(children, q) == Kids(rows, done, q)
  }

  lemma ListOneMore(rows: Rows, children: map<Pid, set<Pid>>, done: set<Pid>, p: Pid)
    requires p in rows && ListsKids(rows, children, done)
    ensures var q := rows[p].ppid;
      ListsKids(rows, children[q := Listed(children, q) + {p}], done + {p})
  {
    var parent := rows[p].ppid;
    var more := children[parent := Listed(children, parent) + {p}];
    forall q ensures Listed(more, q) == Kids(rows, done + {p}, q) {
      assert Listed(children, q) == Kids(rows, done, q);
    }
  }

  method ChildrenOf(rows: Rows) returns (children: map<Pid, set<Pid>>)
    ensures ListsKids(rows, children, rows.Keys)
  {
    children := map[];
    var todo, done := rows.Keys, {};
    while todo != {}
      invariant todo + done == rows.Keys
      invariant ListsKids(rows, children, done)
      decreases |todo|
    {
      var p :| p in todo;
      ListOneMore(rows, children, done, p);
      var parent := rows[p].ppid;
      todo, done := todo - {p}, done + {p};
      children := children[parent := Listed(children, parent) + {p}];
    }
    assert done == rows.Keys;
  }

  /** Own every child not yet owned, and remember to expand it. */
  method Adopt(children: set<Pid>, owned: set<Pid>, frontier: seq<Pid>) returns (owned': set<Pid>, frontier': seq<Pid>)
    ensures owned' == owned + children && Waits(owned, frontier, children, frontier')
  {
    owned', frontier' := owned, frontier;
    var todo, done := children, {};
    while todo != {}
      invariant todo + done == children
      invariant owned' == owned + done && Waits(owned, frontier, done, frontier')
      decreases |todo|
    {
      var child :| child in todo;
      owned', frontier' := AdoptOne(child, owned', frontier', owned, frontier, done);
      OneMoved(todo, done, children, child);
      todo, done := todo - {child}, done + {child};
    }
    assert done == children;
  }

  lemma OneMoved(todo: set<Pid>, done: set<Pid>, all: set<Pid>, p: Pid)
    requires todo + done == all && p in todo
    ensures (todo - {p}) + (done + {p}) == all && |todo - {p}| < |todo|
  {
  }

  method AdoptOne(child: Pid, owned: set<Pid>, frontier: seq<Pid>, ghost owned0: set<Pid>, ghost frontier0: seq<Pid>, ghost done: set<Pid>)
    returns (owned': set<Pid>, frontier': seq<Pid>)
    requires owned == owned0 + done && Waits(owned0, frontier0, done, frontier)
    ensures owned' == owned0 + (done + {child}) && Waits(owned0, frontier0, done + {child}, frontier')
  {
    WaitsNext(owned0, frontier0, done, frontier, child);
    owned', frontier' := owned + {child}, if child in owned then frontier else frontier + [child];
  }

  lemma WaitsNext(owned: set<Pid>, frontier: seq<Pid>, done: set<Pid>, frontier': seq<Pid>, child: Pid)
    requires Waits(owned, frontier, done, frontier')
    ensures Waits(owned, frontier, done + {child}, if child in owned + done then frontier' else frontier' + [child])
  {
    assert forall p :: p in frontier' + [child] <==> p in frontier' || p == child;
  }

  /** The new children among `done` wait on the stack, and nothing else was added to it. */
  ghost predicate Waits(owned: set<Pid>, frontier: seq<Pid>, done: set<Pid>, frontier': seq<Pid>) {
    && (forall p :: p in frontier' <==> p in frontier || (p in done && p !in owned))
    && (done <= owned ==> frontier' == frontier)
  }

  /** Some owned pids are expanded, their children owned; the others wait on the stack; nothing is owned in vain. */
  ghost predicate Traversing(rows: Rows, root: Pid, owned: set<Pid>, frontier: seq<Pid>, expanded: set<Pid>) {
    && root in owned && owned <= rows.Keys + {root}
    && (forall p :: p in owned ==> p in expanded || p in frontier)
    && (forall p :: p in frontier ==> p in owned)
    && (forall p :: p in rows && rows[p].ppid in expanded ==> p in owned)
    && (forall s: set<Pid> :: root in s && Closed(rows, s) ==> owned <= s)
  }

  lemma ExpandKeepsTraversing(rows: Rows, root: Pid, owned: set<Pid>, frontier: seq<Pid>, expanded: set<Pid>,
                              parent: Pid, children: set<Pid>, frontier': seq<Pid>)
    requires Traversing(rows, root, owned, frontier + [parent], expanded)
    requires children == Kids(rows, rows.Keys, parent)
    requires forall p :: p in frontier' <==> p in frontier || (p in children && p !in owned)
    ensures Traversing(rows, root, owned + children, frontier', expanded + {parent})
  {
    assert parent in frontier + [parent];
    forall s: set<Pid> | root in s && Closed(rows, s) ensures owned + children <= s {
      assert parent in s;
    }
  }

  ghost function Unowned(rows: Rows, root: Pid, owned: set<Pid>): nat {
    |rows.Keys + {root} - owned|
  }

  /** Pop one pid and own its children. */
  method Expand(rows: Rows, children: map<Pid, set<Pid>>, root: Pid, owned: set<Pid>, frontier: seq<Pid>, ghost expanded: set<Pid>)
    returns (owned': set<Pid>, frontier': seq<Pid>, ghost expanded': set<Pid>)
    requires ListsKids(rows, children, rows.Keys) && frontier != []
    requires Traversing(rows, root, owned, frontier, expanded)
    ensures Traversing(rows, root, owned', frontier', expanded')
    ensures Unowned(rows, root, owned') < Unowned(rows, root, owned)
      || (owned' == owned && |frontier'| < |frontier|)
  {
    var parent := frontier[|frontier| - 1];
    var rest := frontier[..|frontier| - 1];
    assert frontier == rest + [parent];
    var kids := Listed(children, parent);
    assert kids == Kids(rows, rows.Keys, parent);
    owned', frontier' := Adopt(kids, owned, rest);
    expanded' := expanded + {parent};
    ExpandKeepsTraversing(rows, root, owned, rest, expanded, parent, kids, frontier');
    ExpandShrinks(rows, root, owned, kids);
  }

  lemma ExpandShrinks(rows: Rows, root: Pid, owned: set<Pid>, kids: set<Pid>)
    requires owned + kids <= rows.Keys + {root}
    ensures Unowned(rows, root, owned + kids) < Unowned(rows, root, owned) || kids <= owned
    ensures kids <= owned ==> owned + kids == owned
  {
    Shrinks(rows.Keys + {root}, owned, owned + kids);
  }

  /** The descendants of `root`, by a stack of pids still to be expanded. */
  method DescendantClosure(rows: Rows, root: Pid) returns (owned: set<Pid>)
    ensures IsDescendants(rows, root, owned)
  {
    var children := ChildrenOf(rows);
    owned := {root};
    var frontier := [root];
    ghost var expanded: set<Pid> := {};
    while frontier != []
      invariant Traversing(rows, root, owned, frontier, expanded)
      decreases Unowned(rows, root, owned), |frontier|
    {
      owned, frontier, expanded := Expand(rows, children, root, owned, frontier, expanded);
    }
    TraversedIsDescendants(rows, root, owned, expanded);
  }

  lemma TraversedIsDescendants(rows: Rows, root: Pid, owned: set<Pid>, expanded: set<Pid>)
    requires Traversing(rows, root, owned, [], expanded)
    ensures IsDescendants(rows, root, owned)
  {
  }

  lemma Shrinks(all: set<Pid>, owned: set<Pid>, owned': set<Pid>)
    requires owned <= owned' <= all
    ensures owned' == owned || |all - owned'| < |all - owned|
  {
    SubsetSize(all - owned', all - owned);
  }

  lemma SubsetSize(a: set<Pid>, b: set<Pid>)
    ensures a <= b ==> |a| <= |b|
    ensures a < b ==> |a| < |b|
  {
    if a <= b {
      assert b == a + (b - a) && |b| == |a| + |b - a|;
      assert a < b ==> b - a != {};
    }
  }

  // ---------------------------------------------------------------- what the closure means

  lemma DescendantsUnique(rows: Rows, root: Pid, a: set<Pid>, b: set<Pid>)
    requires IsDescendants(rows, root, a) && IsDescendants(rows, root, b)
    ensures a == b
  {
  }

  /** `chain` leads from `root` to its last element, each the parent of the next. */
  predicate IsChain(rows: Rows, root: Pid, chain: seq<Pid>) {
    && chain != [] && chain[0] == root
    && forall k :: 0 < k < |chain| ==> chain[k] in rows && rows[chain[k]].ppid == chain[k - 1]
  }

  lemma {:induction false} ChainStaysInside(rows: Rows, root: Pid, chain: seq<Pid>, s: set<Pid>)
    requires IsChain(rows, root, chain) && root in s && Closed(rows, s)
    ensures chain[|chain| - 1] in s
    decreases |chain|
  {
    if |chain| > 1 {
      var n := |chain| - 1;
      ChainStaysInside(rows, root, chain[..n], s);
      assert rows[chain[n]].ppid == chain[n - 1];
    }
  }

  /** The least closed set is exactly the set of pids that a chain of parents ties to the root. */
  lemma DescendantsAreChained(rows: Rows, root: Pid, owned: set<Pid>, p: Pid)
    requires IsDescendants(rows, root, owned)
    ensures p in owned <==> exists chain :: IsChain(rows, root, chain) && chain[|chain| - 1] == p
  {
    if chain :| IsChain(rows, root, chain) && chain[|chain| - 1] == p {
      ChainStaysInside(rows, root, chain, owned);
    }
    var tied := set q | q in rows.Keys + {root} && exists chain :: IsChain(rows, root, chain) && chain[|chain| - 1] == q;
    assert IsChain(rows, root, [root]) && [root][|[root]| - 1] == root;
    forall q | q in rows && rows[q].ppid in tied ensures q in tied {
      var chain :| IsChain(rows, root, chain) && chain[|chain| - 1] == rows[q].ppid;
      assert IsChain(rows, root, chain + [q]) && (chain + [q])[|chain + [q]| - 1] == q;
    }
    assert Closed(rows, tied);
  }

  /** Losing rows outside the closure does not change it. */
  lemma ClosureSurvivesLoss(rows: Rows, kept: Rows, root: Pid, owned: set<Pid>)
    requires IsDescendants(rows, root, owned)
    requires forall p :: p in kept ==> p in rows && kept[p].ppid == rows[p].ppid
    requires forall p :: p in owned && p in rows ==> p in kept
    ensures IsDescendants(kept, root, owned)
  {
    forall s: set<Pid> | root in s && Closed(kept, s) ensures owned <= s {
      assert Closed(rows, owned * s);
    }
  }

  // ---------------------------------------------------------------- enrichment and capture

  /** The answer of `getsid`: an error, or a session id that may still be invalid. */
  type SessionOf = Pid -> Option<int>

  predicate HasSession(sessions: SessionOf, p: Pid) {
    sessions(p).Some? && sessions(p).value > 0
  }

  predicate Protected(row: Row, p: Pid, required: set<Pid>, pgid: Option<Pid>) {
    p in required || (pgid.Some? && row.pgid == pgid.value)
  }

  /** Add session ids; rows without one disappear, unless one of them is protected. */
  method EnrichSessions(rows: Rows, sessions: SessionOf, required: set<Pid>, pgid: Option<Pid>)
    returns (r: Option<map<Pid, Identity>>)
    ensures r.None? <==> exists p :: p in rows && Protected(rows[p], p, required, pgid) && !HasSession(sessions, p)
    ensures r.Some? ==>
      && (forall p :: p in r.value <==> p in rows && HasSession(sessions, p))
      && (forall p :: p in r.value ==> r.value[p] == Identity(rows[p], sessions(p).value))
  {
    var enriched: map<Pid, Identity> := map[];
    var todo, done := rows.Keys, {};
    while todo != {}
      invariant todo + done == rows.Keys
      invariant forall p :: p in done && Protected(rows[p], p, required, pgid) ==> HasSession(sessions, p)
      invariant forall p :: p in enriched <==> p in done && HasSession(sessions, p)
      invariant forall p :: p in enriched ==> enriched[p] == Identity(rows[p], sessions(p).value)
      decreases |todo|
    {
      var p :| p in todo;
      todo, done := todo - {p}, done + {p};
      if !HasSession(sessions, p) {
        if Protected(rows[p], p, required, pgid) { return None; }
      } else {
        enriched := enriched[p := Identity(rows[p], sessions(p).value)];
      }
    }
    r := Some(enriched);
  }

  function RowsOf(identities: map<Pid, Identity>): Rows {
    map p | p in identities :: identities[p].row
  }

  /**
   * The identities of `root` and its descendants; `wire` is what `ps` printed, if every row parsed.
   * The result is empty or complete: losing unrelated rows never thins it out.
   */
  method CaptureIdentities(wire: Option<Rows>, root: Pid, sessions: SessionOf) returns (r: map<Pid, Identity>)
    ensures r != map[] ==>
      && wire.Some? && root in wire.value && IsDescendants(wire.value, root, r.Keys)
      && forall p :: p in r ==> p in wire.value && HasSession(sessions, p) && r[p] == Identity(wire.value[p], sessions(p).value)
    ensures r == map[] <==>
      || wire.None? || root !in wire.value
      || exists p :: p in wire.value && !HasSession(sessions, p)
           && (wire.value[p].pgid == wire.value[root].pgid
               || exists chain :: IsChain(wire.value, root, chain) && chain[|chain| - 1] == p)
  {
    if wire.None? || wire.value == map[] { return map[]; }
    var rows := wire.value;
    var protected := DescendantClosure(rows, root);
    forall p ensures p in protected <==> exists chain :: IsChain(rows, root, chain) && chain[|chain| - 1] == p {
      DescendantsAreChained(rows, root, protected, p);
    }
    var pgid := if root in rows then Some(rows[root].pgid) else None;
    var snapshot := EnrichSessions(rows, sessions, protected, pgid);
    if snapshot.None? || snapshot.value == map[] || root !in snapshot.value {
      return map[];
    }
    var kept := RowsOf(snapshot.value);
    var owned := DescendantClosure(kept, root);
    assert root in rows;
    assert forall p :: p in protected && p in rows ==> p in kept;
    ClosureSurvivesLoss(rows, kept, root, protected);
    DescendantsUnique(kept, root, owned, protected);
    ClosureWithinRows(rows, root, protected);
    r := map p | p in owned && p in snapshot.value :: snapshot.value[p];
    assert r.Keys == owned;
  }

  lemma ClosureWithinRows(rows: Rows, root: Pid, owned: set<Pid>)
    requires IsDescendants(rows, root, owned) && root in rows
    ensures owned <= rows.Keys
  {
    assert Closed(rows, rows.Keys);
  }
}
