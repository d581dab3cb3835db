/**
 * The import half of scripts/lint_duplicate_definitions.py: names bound twice by imports of one
 * body, and the comparison of two revisions by counting findings.
 */
module ImportLint {
  import opened Wrappers
  import Text
  import opened Sequences

  datatype Alias = Alias(name: string, asname: Option<string>)

  /** Statements as far as the scan looks at them; branches are the bodies of one control-flow node. */
  datatype Stmt =
    | ImportFrom(line: nat, source: string, names: seq<Alias>)
    | Import(line: nat, names: seq<Alias>)
    | Class(name: string, body: seq<Stmt>)
    | Branching(branches: seq<Block>)
    | Other

  datatype Block = Block(body: seq<Stmt>)

  /** One name bound by one alias. */
  datatype Binding = Binding(line: nat, bound: string, source: string, chosen: bool)

  datatype Finding = Finding(line: nat, key: string)

  function FirstComponent(dotted: string): string {
    if dotted == "" || dotted[0] == '.' then "" else [dotted[0]] + FirstComponent(dotted[1..])
  }

  /** A plain `import a.b` binds what stands before the first dot. */
  lemma {:induction false} FirstComponentIs(dotted: string)
    ensures var first := FirstComponent(dotted);
      first <= dotted && '.' !in first && (first == dotted || dotted[|first|] == '.')
  {
    if dotted != "" && dotted[0] != '.' { FirstComponentIs(dotted[1..]); }
  }

  /** Lines 261-263: what an alias binds, from where, and whether the author chose the name. */
  function BindingOf(line: nat, source: Option<string>, a: Alias): Binding {
    var bound := match a.asname
      case Some(name) => name
      case None => if source.Some? then a.name else FirstComponent(a.name);
    Binding(line, bound, if source.Some? then source.value else a.name, a.asname.Some?)
  }

  /** The three ways of binding: a name after `as`, one taken from a module, and the first part of a module's path. */
  lemma BindingIs(line: nat, source: string, name: string, chosen: string)
    ensures BindingOf(line, Some(source), Alias(name, None)) == Binding(line, name, source, false)
    ensures BindingOf(line, None, Alias(name, None)) == Binding(line, FirstComponent(name), name, false)
    ensures BindingOf(line, Some(source), Alias(name, Some(chosen))) == Binding(line, chosen, source, true)
    ensures BindingOf(line, None, Alias(name, Some(chosen))) == Binding(line, chosen, name, true)
  {
  }

  /** A star import is skipped. */
  function Bound(line: nat, source: Option<string>, a: Alias): seq<Binding> {
    if a.name == "*" then [] else [BindingOf(line, source, a)]
  }

  function BindingsOf(line: nat, source: Option<string>, names: seq<Alias>): seq<Binding> {
    if names == [] then [] else Bound(line, source, names[0]) + BindingsOf(line, source, names[1..])
  }

  function Direct(s: Stmt): seq<Binding> {
    match s
    case ImportFrom(line, source, names) => BindingsOf(line, Some(source), names)
    case Import(line, names) => BindingsOf(line, None, names)
    case _ => []
  }

  /** All the bindings made directly in a body. */
  function Bindings(body: seq<Stmt>): seq<Binding> {
    if body == [] then [] else Direct(body[0]) + Bindings(body[1..])
  }

  /** Two bindings of one name clash when a chosen name is involved, or both come from one source. */
  predicate Clash(a: Binding, b: Binding) {
    a.bound == b.bound && (a.chosen || b.chosen || a.source == b.source)
  }

  predicate ClashesWith(bs: seq<Binding>, b: Binding) {
    exists i :: 0 <= i < |bs| && Clash(bs[i], b)
  }

  // ---------------------------------------------------------------- one body

  /** The bindings the scan remembers: those it does not report. */
  function Remembered(bs: seq<Binding>): seq<Binding> {
    if bs == [] then []
    else
      var last := |bs| - 1;
      var before := Remembered(bs[..last]);
      if ClashesWith(before, bs[last]) then before else before + [bs[last]]
  }

  /** The bindings it reports: those that clash with an earlier one that was not itself reported. */
  function Reported(bs: seq<Binding>): seq<Binding> {
    if bs == [] then []
    else
      var last := |bs| - 1;
      Reported(bs[..last]) + (if ClashesWith(Remembered(bs[..last]), bs[last]) then [bs[last]] else [])
  }

  predicate NoClash(bs: seq<Binding>) {
    forall i, j :: 0 <= i < j < |bs| ==> !Clash(bs[i], bs[j])
  }

  lemma {:induction false} RememberedOfClean(bs: seq<Binding>)
    requires NoClash(bs)
    ensures Remembered(bs) == bs && Reported(bs) == []
  {
    if bs != [] {
      RememberedOfClean(bs[..|bs| - 1]);
      assert bs == bs[..|bs| - 1] + [bs[|bs| - 1]];
    }
  }

  /** The scan is silent exactly on bodies without a clashing pair, although it remembers only part of them. */
  lemma {:induction false} SilentIffNoClash(bs: seq<Binding>)
    ensures Reported(bs) == [] <==> NoClash(bs)
  {
    if NoClash(bs) {
      RememberedOfClean(bs);
    } else {
      SilentIffNoClash(bs[..|bs| - 1]);
      if NoClash(bs[..|bs| - 1]) { LastClashes(bs); }
    }
  }

  lemma LastClashes(bs: seq<Binding>)
    requires !NoClash(bs) && NoClash(bs[..|bs| - 1])
    ensures Reported(bs) != []
  {
    var before, b := bs[..|bs| - 1], bs[|bs| - 1];
    assert bs == before + [b];
    NoClashExtend(before, b);
    RememberedOfClean(before);
    Extend(before, b);
  }

  lemma NoClashExtend(bs: seq<Binding>, b: Binding)
    ensures NoClash(bs) && !ClashesWith(bs, b) ==> NoClash(bs + [b])
  {
    if NoClash(bs) && !ClashesWith(bs, b) {
      var all := bs + [b];
      forall i, j | 0 <= i < j < |all| ensures !Clash(all[i], all[j]) {
        assert all[i] == bs[i];
        if j < |bs| { assert !Clash(bs[i], bs[j]) && all[j] == bs[j]; }
      }
    }
  }

  /** The first report is the first binding that clashes with anything before it. */
  lemma FirstReportIsFirstClash(bs: seq<Binding>, k: nat)
    requires k < |bs| && NoClash(bs[..k])
    ensures Reported(bs[..k + 1]) == if ClashesWith(bs[..k], bs[k]) then [bs[k]] else []
  {
    RememberedOfClean(bs[..k]);
    assert bs[..k + 1][..k] == bs[..k];
  }

  lemma Extend(bs: seq<Binding>, b: Binding)
    ensures Reported(bs + [b]) == Reported(bs) + (if ClashesWith(Remembered(bs), b) then [b] else [])
    ensures Remembered(bs + [b]) == Remembered(bs) + (if ClashesWith(Remembered(bs), b) then [] else [b])
  {
    assert (bs + [b])[..|bs|] == bs;
  }

  /** What is reported and what is remembered together are all the bindings, each once. */
  lemma {:induction false} ReportedPlusRemembered(bs: seq<Binding>)
    ensures multiset(Reported(bs)) + multiset(Remembered(bs)) == multiset(bs)
  {
    if bs != [] {
      var before, b := bs[..|bs| - 1], bs[|bs| - 1];
      assert bs == before + [b];
      ReportedPlusRemembered(before);
      Extend(before, b);
    }
  }

  lemma {:induction false} RememberedNeverClash(bs: seq<Binding>)
    ensures NoClash(Remembered(bs))
  {
    if bs != [] {
      RememberedNeverClash(bs[..|bs| - 1]);
    }
  }

  // ---------------------------------------------------------------- which clashes are reported

  predicate Binds(bs: seq<Binding>, name: string) {
    exists i :: 0 <= i < |bs| && bs[i].bound == name
  }

  /** An earlier binding gave the name by choice. */
  predicate Chose(bs: seq<Binding>, name: string) {
    exists i :: 0 <= i < |bs| && bs[i].bound == name && bs[i].chosen
  }

  /** An earlier binding gave the name from the same source, by nobody's choice. */
  predicate Repeats(bs: seq<Binding>, name: string, source: string) {
    exists i :: 0 <= i < |bs| && bs[i].bound == name && bs[i].source == source && !bs[i].chosen
  }

  /** The first binding of the name is one by choice. */
  predicate FirstChosen(bs: seq<Binding>, name: string) {
    bs != [] && if bs[0].bound == name then bs[0].chosen else FirstChosen(bs[1..], name)
  }

  lemma {:induction false} FirstChosenExtend(bs: seq<Binding>, b: Binding, name: string)
    ensures FirstChosen(bs + [b], name) <==>
      if Binds(bs, name) then FirstChosen(bs, name) else b.bound == name && b.chosen
  {
    if bs == [] {
      assert bs + [b] == [b];
    } else {
      FirstChosenExtend(bs[1..], b, name);
      assert (bs + [b])[1..] == bs[1..] + [b];
      BindsFirst(bs, name);
    }
  }

  lemma BindsFirst(bs: seq<Binding>, name: string)
    requires bs != []
    ensures Binds(bs, name) <==> bs[0].bound == name || Binds(bs[1..], name)
  {
    if Binds(bs, name) && bs[0].bound != name {
      var i :| 0 <= i < |bs| && bs[i].bound == name;
      assert bs[1..][i - 1] == bs[i];
    }
  }

  lemma LookExtend(bs: seq<Binding>, b: Binding, name: string, source: string)
    ensures Binds(bs + [b], name) <==> Binds(bs, name) || b.bound == name
    ensures Chose(bs + [b], name) <==> Chose(bs, name) || (b.bound == name && b.chosen)
    ensures Repeats(bs + [b], name, source) <==> Repeats(bs, name, source) || (b.bound == name && b.source == source && !b.chosen)
  {
    assert (bs + [b])[|bs|] == b;
    assert forall i :: 0 <= i < |bs| ==> (bs + [b])[i] == bs[i];
  }

  lemma ClashLooks(bs: seq<Binding>, b: Binding)
    ensures ClashesWith(bs, b) <==>
      if b.chosen then Binds(bs, b.bound) else Chose(bs, b.bound) || Repeats(bs, b.bound, b.source)
  {
  }

  /** What the scan remembers of a name: the first choice alone, or every source it came from unchosen. */
  lemma {:induction false} RememberedLooks(bs: seq<Binding>, name: string, source: string)
    ensures Binds(Remembered(bs), name) <==> Binds(bs, name)
    ensures Chose(Remembered(bs), name) <==> FirstChosen(bs, name)
    ensures Repeats(Remembered(bs), name, source) <==> !FirstChosen(bs, name) && Repeats(bs, name, source)
    ensures FirstChosen(bs, name) ==> Binds(bs, name)
  {
    if bs != [] {
      var before, b := bs[..|bs| - 1], bs[|bs| - 1];
      assert bs == before + [b];
      RememberedLooks(before, name, source);
      Extend(before, b);
      LookExtend(before, b, name, source);
      LookExtend(Remembered(before), b, name, source);
      FirstChosenExtend(before, b, name);
      ClashLooks(Remembered(before), b);
    }
  }

  /**
   * An import is reported if and only if it chooses a name already bound, or its name was first
   * bound by choice, or came from the same source before.
   */
  lemma ReportedIff(bs: seq<Binding>, b: Binding)
    ensures ClashesWith(Remembered(bs), b) <==>
      if b.chosen then Binds(bs, b.bound) else FirstChosen(bs, b.bound) || Repeats(bs, b.bound, b.source)
  {
    ClashLooks(Remembered(bs), b);
    RememberedLooks(bs, b.bound, b.source);
  }

  /**
   * The clashes that go unreported, exactly: an unchosen name from a source not seen before, after
   * the name was first bound without a choice and then by one.
   */
  lemma UnreportedIff(bs: seq<Binding>, b: Binding)
    ensures ClashesWith(bs, b) && !ClashesWith(Remembered(bs), b) <==>
      !b.chosen && Chose(bs, b.bound) && !FirstChosen(bs, b.bound) && !Repeats(bs, b.bound, b.source)
  {
    ClashLooks(bs, b);
    ReportedIff(bs, b);
    RememberedLooks(bs, b.bound, b.source);
  }

  /** Such a clash: `from m import x`, `from n import y as x`, `from o import x`. */
  lemma ClashUnreported(a: Binding, b: Binding, c: Binding)
    requires Clash(a, b) && Clash(b, c) && !Clash(a, c)
    ensures Reported([a, b, c]) == [b]
  {
    Extend([], a);
    Extend([a], b);
    Extend([a, b], c);
    assert [] + [a] == [a] && [a] + [b] == [a, b] && [a, b] + [c] == [a, b, c];
    assert Remembered([]) == [] && Remembered([a]) == [a];
    assert Clash([a][0], b);
  }

  // ---------------------------------------------------------------- the whole tree

  /** Line 281: the delimited identity of a finding. */
  function Key(scope: string, source: string, bound: string): string {
    "import:" + scope + "|" + source + ":" + bound
  }

  function FindingOf(scope: string, b: Binding): Finding {
    Finding(b.line, Key(scope, b.source, b.bound))
  }

  /** A finding bears the line of the import and its delimited identity. */
  lemma FindingIs(scope: string, b: Binding)
    ensures FindingOf(scope, b) == Finding(b.line, "import:" + scope + "|" + b.source + ":" + b.bound)
  {
  }

  function FindingsOf(scope: string, bs: seq<Binding>): (r: seq<Finding>)
    ensures |r| == |bs|
  {
    seq(|bs|, i requires 0 <= i < |bs| => FindingOf(scope, bs[i]))
  }

  /** What the bindings `bs`, coming after `prior` in one body, add to the reports. */
  function ReportedAfter(prior: seq<Binding>, bs: seq<Binding>): seq<Binding>
    decreases |bs|
  {
    if bs == [] then []
    else
      (if ClashesWith(Remembered(prior), bs[0]) then [bs[0]] else []) + ReportedAfter(prior + [bs[0]], bs[1..])
  }

  lemma {:induction false} ReportedSplit(prior: seq<Binding>, bs: seq<Binding>)
    ensures Reported(prior + bs) == Reported(prior) + ReportedAfter(prior, bs)
    decreases |bs|
  {
    if bs == [] {
      assert prior + bs == prior;
    } else {
      var p := prior + [bs[0]];
      var head := if ClashesWith(Remembered(prior), bs[0]) then [bs[0]] else [];
      ReportedSplit(p, bs[1..]);
      Extend(prior, bs[0]);
      assert prior + bs == p + bs[1..];
      assert ReportedAfter(prior, bs) == head + ReportedAfter(p, bs[1..]);
      Assoc(Reported(prior), head, ReportedAfter(p, bs[1..]));
    }
  }

  /** The findings of a body whose earlier statements made the bindings `prior`, in the order they are made. */
  function Findings(body: seq<Stmt>, scope: string, prior: seq<Binding>): seq<Finding>
    decreases body, 0
  {
    if body == [] then []
    else
      FindingsOf(scope, ReportedAfter(prior, Direct(body[0])))
      + NestedFindings(body[0], scope)
      + Findings(body[1..], scope, prior + Direct(body[0]))
  }

  /** A class body or a branch starts over; a class also extends the scope. */
  function NestedFindings(s: Stmt, scope: string): seq<Finding>
    decreases s, 1
  {
    match s
    case Class(name, inner) => Findings(inner, scope + name + ".", [])
    case Branching(branches) => BranchFindings(branches, scope)
    case _ => []
  }

  function BranchFindings(branches: seq<Block>, scope: string): seq<Finding>
    decreases branches, 0
  {
    if branches == [] then [] else Findings(branches[0].body, scope, []) + BranchFindings(branches[1..], scope)
  }

  /** No body of the tree binds a name in two clashing ways. */
  predicate CleanBody(body: seq<Stmt>)
    decreases body, 1
  {
    NoClash(Bindings(body)) && CleanNested(body)
  }

  predicate CleanNested(body: seq<Stmt>)
    decreases body, 0
  {
    body == [] || (CleanInside(body[0]) && CleanNested(body[1..]))
  }

  predicate CleanInside(s: Stmt)
    decreases s, 1
  {
    match s
    case Class(_, inner) => CleanBody(inner)
    case Branching(branches) => CleanBranches(branches)
    case _ => true
  }

  predicate CleanBranches(branches: seq<Block>)
    decreases branches, 0
  {
    branches == [] || (CleanBody(branches[0].body) && CleanBranches(branches[1..]))
  }

  lemma {:induction false} FindingsSplit(body: seq<Stmt>, scope: string, prior: seq<Binding>)
    ensures Findings(body, scope, prior) == []
      <==> ReportedAfter(prior, Bindings(body)) == [] && CleanNested(body)
    decreases body, 0
  {
    if body != [] {
      InsideSilent(body[0], scope);
      FindingsSplit(body[1..], scope, prior + Direct(body[0]));
      ReportedAfterSplit(prior, Direct(body[0]), Bindings(body[1..]));
    }
  }

  lemma {:induction false} ReportedAfterSplit(prior: seq<Binding>, a: seq<Binding>, b: seq<Binding>)
    ensures ReportedAfter(prior, a + b) == ReportedAfter(prior, a) + ReportedAfter(prior + a, b)
    decreases |a|
  {
    if a == [] {
      assert a + b == b && prior + a == prior;
    } else {
      var p := prior + [a[0]];
      var head := if ClashesWith(Remembered(prior), a[0]) then [a[0]] else [];
      ReportedAfterSplit(p, a[1..], b);
      assert (a + b)[0] == a[0] && (a + b)[1..] == a[1..] + b;
      assert p + a[1..] == prior + a;
      assert ReportedAfter(prior, a + b) == head + ReportedAfter(p, a[1..] + b);
      assert ReportedAfter(prior, a) == head + ReportedAfter(p, a[1..]);
      Assoc(head, ReportedAfter(p, a[1..]), ReportedAfter(prior + a, b));
    }
  }

  lemma {:induction false} InsideSilent(s: Stmt, scope: string)
    ensures NestedFindings(s, scope) == [] <==> CleanInside(s)
    decreases s, 1
  {
    match s
    case Class(name, inner) => SilentIffClean(inner, scope + name + ".");
    case Branching(branches) => BranchesSilent(branches, scope);
    case _ =>
  }

  lemma {:induction false} BranchesSilent(branches: seq<Block>, scope: string)
    ensures BranchFindings(branches, scope) == [] <==> CleanBranches(branches)
    decreases branches, 0
  {
    if branches != [] {
      SilentIffClean(branches[0].body, scope);
      BranchesSilent(branches[1..], scope);
    }
  }

  /** A module has no import finding exactly when no body in it, at any depth, has a clashing pair. */
  lemma {:induction false} SilentIffClean(body: seq<Stmt>, scope: string)
    ensures Findings(body, scope, []) == [] <==> CleanBody(body)
    decreases body, 1
  {
    FindingsSplit(body, scope, []);
    ReportedSplit([], Bindings(body));
    assert [] + Bindings(body) == Bindings(body);
    SilentIffNoClash(Bindings(body));
  }

  // ---------------------------------------------------------------- the scan

  /** The two dictionaries: names nobody chose, by name and source, and names somebody chose. */
  datatype Memory = Memory(implicit: map<(string, string), nat>, explicit: map<string, nat>)

  function ImplicitKeys(bs: seq<Binding>): set<(string, string)> {
    set b | b in bs && !b.chosen :: (b.bound, b.source)
  }

  function ExplicitNames(bs: seq<Binding>): set<string> {
    set b | b in bs && b.chosen :: b.bound
  }

  /** The dictionaries hold exactly what the scan remembers. */
  ghost predicate Holds(m: Memory, bs: seq<Binding>) {
    && m.implicit.Keys == ImplicitKeys(Remembered(bs))
    && m.explicit.Keys == ExplicitNames(Remembered(bs))
  }

  /** Lines 265-273: whether an earlier binding stands in the way. */
  predicate Found(m: Memory, b: Binding) {
    || b.bound in m.explicit
    || (if b.chosen then exists key :: key in m.implicit && key.0 == b.bound else (b.bound, b.source) in m.implicit)
  }

  lemma FoundIfClash(m: Memory, kept: seq<Binding>, b: Binding)
    requires m.implicit.Keys == ImplicitKeys(kept) && m.explicit.Keys == ExplicitNames(kept)
    requires ClashesWith(kept, b)
    ensures Found(m, b)
  {
    var i :| 0 <= i < |kept| && Clash(kept[i], b);
    var c := kept[i];
    if c.chosen {
      assert c.bound in ExplicitNames(kept);
    } else {
      assert (c.bound, c.source) in ImplicitKeys(kept);
      assert (c.bound, c.source) in m.implicit;
    }
  }

  lemma ClashIfFound(m: Memory, kept: seq<Binding>, b: Binding)
    requires m.implicit.Keys == ImplicitKeys(kept) && m.explicit.Keys == ExplicitNames(kept)
    requires Found(m, b)
    ensures ClashesWith(kept, b)
  {
    if b.bound in m.explicit {
      assert b.bound in ExplicitNames(kept);
      var c :| c in kept && c.chosen && c.bound == b.bound;
      assert Clash(c, b);
    } else {
      var key :| key in m.implicit && key.0 == b.bound && (b.chosen || key.1 == b.source);
      assert key in ImplicitKeys(kept);
      var c :| c in kept && !c.chosen && (c.bound, c.source) == key;
      assert Clash(c, b);
    }
  }

  lemma LookupFinds(m: Memory, bs: seq<Binding>, b: Binding)
    requires Holds(m, bs)
    ensures ClashesWith(Remembered(bs), b) <==> Found(m, b)
  {
    if ClashesWith(Remembered(bs), b) { FoundIfClash(m, Remembered(bs), b); }
    if Found(m, b) { ClashIfFound(m, Remembered(bs), b); }
  }

  function Remember(m: Memory, b: Binding): Memory {
    if b.chosen then m.(explicit := m.explicit[b.bound := b.line])
    else m.(implicit := m.implicit[(b.bound, b.source) := b.line])
  }

  lemma KeysAfter(kept: seq<Binding>, b: Binding)
    ensures ImplicitKeys(kept + [b]) == ImplicitKeys(kept) + (if b.chosen then {} else {(b.bound, b.source)})
  {
    var both := kept + [b];
    forall k | k in ImplicitKeys(kept) ensures k in ImplicitKeys(both) {
      var c :| c in kept && !c.chosen && (c.bound, c.source) == k;
      assert c in both;
    }
    assert b in both;
  }

  lemma NamesAfter(kept: seq<Binding>, b: Binding)
    ensures ExplicitNames(kept + [b]) == ExplicitNames(kept) + (if b.chosen then {b.bound} else {})
  {
    var both := kept + [b];
    forall k | k in ExplicitNames(kept) ensures k in ExplicitNames(both) {
      var c :| c in kept && c.chosen && c.bound == k;
      assert c in both;
    }
    assert b in both;
  }

  lemma HoldsAfter(m: Memory, bs: seq<Binding>, b: Binding)
    requires Holds(m, bs)
    ensures Holds(if ClashesWith(Remembered(bs), b) then m else Remember(m, b), bs + [b])
  {
    Extend(bs, b);
    KeysAfter(Remembered(bs), b);
    NamesAfter(Remembered(bs), b);
    assert Remembered(bs) + [] == Remembered(bs);
  }

  class Scan {
    var out: seq<Finding>

    constructor ()
      ensures out == []
    {
      out := [];
    }

    /** Lines 257-288 for one alias: look its name up, then report it or remember it. */
    method Note(b: Binding, scope: string, m: Memory, ghost bs: seq<Binding>)
      returns (m': Memory)
      requires Holds(m, bs)
      modifies this
      ensures Holds(m', bs + [b])
      ensures out == old(out) + FindingsOf(scope, ReportedAfter(bs, [b]))
    {
      LookupFinds(m, bs, b);
      HoldsAfter(m, bs, b);
      if Found(m, b) {
        out := out + [FindingOf(scope, b)];
        m' := m;
      } else {
        m' := Remember(m, b);
      }
    }

    method NoteAlias(line: nat, source: Option<string>, a: Alias, scope: string, m: Memory, ghost bs: seq<Binding>)
      returns (m': Memory)
      requires Holds(m, bs)
      modifies this
      ensures Holds(m', bs + Bound(line, source, a))
      ensures out == old(out) + FindingsOf(scope, ReportedAfter(bs, Bound(line, source, a)))
    {
      m' := m;
      if a.name == "*" {
        assert bs + [] == bs;
        return;
      }
      m' := Note(BindingOf(line, source, a), scope, m, bs);
    }

    /** The aliases of one import statement. */
    method NoteAll(line: nat, source: Option<string>, names: seq<Alias>, scope: string, m: Memory, ghost bs: seq<Binding>)
      returns (m': Memory)
      requires Holds(m, bs)
      modifies this
      ensures Holds(m', bs + BindingsOf(line, source, names))
      ensures out == old(out) + FindingsOf(scope, ReportedAfter(bs, BindingsOf(line, source, names)))
    {
      m' := m;
      ghost var prior, total := bs, out + FindingsOf(scope, ReportedAfter(bs, BindingsOf(line, source, names)));
      for i := 0 to |names|
        invariant Holds(m', prior)
        invariant prior + BindingsOf(line, source, names[i..]) == bs + BindingsOf(line, source, names)
        invariant total == out + FindingsOf(scope, ReportedAfter(prior, BindingsOf(line, source, names[i..])))
      {
        NextAlias(line, source, names, i);
        NextBindings(out, scope, prior, Bound(line, source, names[i]), BindingsOf(line, source, names[i + 1..]));
        m' := NoteAlias(line, source, names[i], scope, m', prior);
        prior := prior + Bound(line, source, names[i]);
      }
      assert prior + [] == prior;
    }

    /** The body of the outer loop: one statement. */
    method ScanStmt(s: Stmt, scope: string, m: Memory, ghost bs: seq<Binding>)
      returns (m': Memory)
      requires Holds(m, bs)
      modifies this
      ensures Holds(m', bs + Direct(s))
      ensures out == old(out) + (FindingsOf(scope, ReportedAfter(bs, Direct(s))) + NestedFindings(s, scope))
      decreases s, 2
    {
      m' := m;
      ghost var direct, nested := FindingsOf(scope, ReportedAfter(bs, Direct(s))), NestedFindings(s, scope);
      assert bs + [] == bs && direct + [] == direct && [] + nested == nested;
      match s {
        case ImportFrom(line, source, names) =>
          m' := NoteAll(line, Some(source), names, scope, m, bs);
        case Import(line, names) =>
          m' := NoteAll(line, None, names, scope, m, bs);
        case Class(name, inner) =>
          ImportDuplicates(inner, scope + name + ".");
        case Branching(branches) =>
          ScanBranches(branches, scope);
        case Other =>
      }
    }

    /** `_import_duplicates`. */
    method ImportDuplicates(body: seq<Stmt>, scope: string)
      modifies this
      ensures out == old(out) + Findings(body, scope, [])
      decreases body, 1
    {
      var m := Memory(map[], map[]);
      ghost var prior, total := [], out + Findings(body, scope, []);
      for i := 0 to |body|
        invariant Holds(m, prior)
        invariant total == out + Findings(body[i..], scope, prior)
      {
        FindingsNext(out, body, i, scope, prior);
        m := ScanStmt(body[i], scope, m, prior);
        prior := prior + Direct(body[i]);
      }
    }

    method ScanBranches(branches: seq<Block>, scope: string)
      modifies this
      ensures out == old(out) + BranchFindings(branches, scope)
      decreases branches, 0
    {
      for i := 0 to |branches|
        invariant old(out) + BranchFindings(branches, scope) == out + BranchFindings(branches[i..], scope)
      {
        Uncons(branches, i);
        Assoc(out, Findings(branches[i].body, scope, []), BranchFindings(branches[i + 1..], scope));
        ImportDuplicates(branches[i].body, scope);
      }
    }
  }

  lemma FindingsAppend(scope: string, a: seq<Binding>, b: seq<Binding>)
    ensures FindingsOf(scope, a + b) == FindingsOf(scope, a) + FindingsOf(scope, b)
  {
  }

  lemma NextBindings(out: seq<Finding>, scope: string, prior: seq<Binding>, head: seq<Binding>, rest: seq<Binding>)
    ensures prior + (head + rest) == (prior + head) + rest
    ensures out + FindingsOf(scope, ReportedAfter(prior, head + rest))
      == (out + FindingsOf(scope, ReportedAfter(prior, head))) + FindingsOf(scope, ReportedAfter(prior + head, rest))
  {
    var first, second := ReportedAfter(prior, head), ReportedAfter(prior + head, rest);
    ReportedAfterSplit(prior, head, rest);
    FindingsAppend(scope, first, second);
    Assoc(out, FindingsOf(scope, first), FindingsOf(scope, second));
    Assoc(prior, head, rest);
  }

  lemma NextAlias(line: nat, source: Option<string>, names: seq<Alias>, i: nat)
    requires i < |names|
    ensures BindingsOf(line, source, names[i..]) == Bound(line, source, names[i]) + BindingsOf(line, source, names[i + 1..])
  {
    assert names[i..][0] == names[i] && names[i..][1..] == names[i + 1..];
  }

  lemma FindingsNext(out: seq<Finding>, body: seq<Stmt>, i: nat, scope: string, prior: seq<Binding>)
    requires i < |body|
    ensures out + Findings(body[i..], scope, prior)
      == (out + (FindingsOf(scope, ReportedAfter(prior, Direct(body[i]))) + NestedFindings(body[i], scope)))
         + Findings(body[i + 1..], scope, prior + Direct(body[i]))
  {
    assert body[i..][0] == body[i] && body[i..][1..] == body[i + 1..];
  }

  // ---------------------------------------------------------------- comparing two revisions

  function Keys(fs: seq<Finding>): (r: seq<string>)
    ensures |r| == |fs|
  {
    seq(|fs|, i requires 0 <= i < |fs| => fs[i].key)
  }

  lemma ChargeOne(had: multiset<string>, seen: multiset<string>, k: string)
    ensures (had - seen)[k] > 0 ==>
      && had - (seen + multiset{k}) == had - seen - multiset{k}
      && (seen + multiset{k}) - had == seen - had
      && (seen + multiset{k}) * had == seen * had + multiset{k}
    ensures (had - seen)[k] == 0 ==>
      && had - (seen + multiset{k}) == had - seen
      && (seen + multiset{k}) - had == seen - had + multiset{k}
      && (seen + multiset{k}) * had == seen * had
  {
  }

  lemma KeysAppend(fs: seq<Finding>, f: Finding)
    ensures Keys(fs + [f]) == Keys(fs) + [f.key]
    ensures multiset(Keys(fs + [f])) == multiset(Keys(fs)) + multiset{f.key}
  {
    assert Keys(fs + [f]) == Keys(fs) + [f.key];
  }

  /** What the comparison keeps: `had` are the base's identities, `seen` the head's so far. */
  ghost predicate Charged(had: multiset<string>, seen: multiset<string>, was: multiset<string>,
                          blocking: seq<Finding>, existing: seq<Finding>) {
    && was == had - seen
    && multiset(Keys(blocking)) == seen - had
    && multiset(Keys(existing)) == seen * had
  }

  /** Lines 591-595: a finding of the head uses up one equal finding of the base, or blocks. */
  method Charge(finding: Finding, was: multiset<string>, blocking: seq<Finding>, existing: seq<Finding>,
                ghost had: multiset<string>, ghost seen: multiset<string>)
    returns (was': multiset<string>, blocking': seq<Finding>, existing': seq<Finding>)
    requires Charged(had, seen, was, blocking, existing)
    ensures Charged(had, seen + multiset{finding.key}, was', blocking', existing')
    ensures multiset(blocking') + multiset(existing') == multiset(blocking) + multiset(existing) + multiset{finding}
  {
    ChargeOne(had, seen, finding.key);
    was', blocking', existing' := was, blocking, existing;
    if was[finding.key] > 0 {
      was' := was - multiset{finding.key};
      KeysAppend(existing, finding);
      existing' := existing + [finding];
    } else {
      KeysAppend(blocking, finding);
      blocking' := blocking + [finding];
    }
  }

  /** Lines 589-597: the blocking findings are what the head has beyond the base, identity by identity. */
  method Compare(before: seq<Finding>, after: seq<Finding>) returns (blocking: seq<Finding>, existing: seq<Finding>)
    ensures multiset(blocking) + multiset(existing) == multiset(after)
    ensures multiset(Keys(blocking)) == multiset(Keys(after)) - multiset(Keys(before))
    ensures multiset(Keys(existing)) == multiset(Keys(after)) * multiset(Keys(before))
  {
    blocking, existing := [], [];
    ghost var had := multiset(Keys(before));
    var was := multiset(Keys(before));
    for i := 0 to |after|
      invariant multiset(blocking) + multiset(existing) == multiset(after[..i])
      invariant Charged(had, multiset(Keys(after[..i])), was, blocking, existing)
    {
      NextFinding(after, i);
      was, blocking, existing := Charge(after[i], was, blocking, existing, had, multiset(Keys(after[..i])));
    }
    assert after[..|after|] == after;
  }

  lemma NextFinding(fs: seq<Finding>, i: nat)
    requires i < |fs|
    ensures multiset(fs[..i + 1]) == multiset(fs[..i]) + multiset{fs[i]}
    ensures multiset(Keys(fs[..i + 1])) == multiset(Keys(fs[..i])) + multiset{fs[i].key}
  {
    assert fs[..i + 1] == fs[..i] + [fs[i]];
    KeysAppend(fs[..i], fs[i]);
  }

  /** The comparison passes exactly when no identity is found more often in the head than in the base. */
  lemma PassesIff(before: seq<Finding>, after: seq<Finding>, blocking: seq<Finding>)
    requires multiset(Keys(blocking)) == multiset(Keys(after)) - multiset(Keys(before))
    ensures blocking == [] <==> multiset(Keys(after)) <= multiset(Keys(before))
  {
    var b, a := multiset(Keys(before)), multiset(Keys(after));
    if a <= b {
      assert a - b == multiset{};
      assert |multiset(Keys(blocking))| == |blocking|;
    }
    if blocking == [] {
      assert Keys(blocking) == [];
      forall k ensures a[k] <= b[k] { assert (a - b)[k] == 0; }
    }
  }

  /** The delimiters keep identities apart: the two findings come from one scope, source and name. */
  lemma KeyTellsApart(scope1: string, source1: string, bound1: string, scope2: string, source2: string, bound2: string)
    requires '|' !in scope1 && '|' !in scope2 && ':' !in source1 && ':' !in source2
    requires Key(scope1, source1, bound1) == Key(scope2, source2, bound2)
    ensures scope1 == scope2 && source1 == source2 && bound1 == bound2
  {
    assert Key(scope1, source1, bound1)[7..] == scope1 + "|" + (source1 + ":" + bound1);
    assert Key(scope2, source2, bound2)[7..] == scope2 + "|" + (source2 + ":" + bound2);
    Text.CutAt('|', scope1, scope2, source1 + ":" + bound1, source2 + ":" + bound2);
    Text.CutAt(':', source1, source2, bound1, bound2);
  }
}
