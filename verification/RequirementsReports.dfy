/**
 * What docker/unsloth_pip_shim.py reports of a requirements file: exactly the requests it strikes on
 * the way through the includes it follows, in order; and how far that is.
 */
module RequirementsReports {
  import opened Wrappers
  import opened Sequences
  import opened RequirementsFilter
  import opened RequirementsShelter

  // ---------------------------------------------------------------- eight includes

  lemma {:induction false} NearRequestIsStruck(policy: Policy, fs: Files, chain: seq<Path>, spec: string, room: nat, n: nat)
    requires IncludeChain(fs, chain, spec) && |chain| <= room + 1 && policy.ofSpec(spec).Drop?
    ensures Request(spec) !in Left(policy, fs, chain[0], room, n)
    decreases |chain|
  {
    if n > 0 {
      var path, line := chain[0], fs[chain[0]][0];
      var dir := if Changes(policy, fs, path, room) then TMP else DirOf(path);
      LeftOneLine(policy, fs, DirOf(path), dir, line, room, n - 1);
      if |chain| > 1 { NearRequestIsStruck(policy, fs, chain[1..], spec, room - 1, n - 1); }
    }
  }

  /** A protected request is struck behind up to eight includes, and survives behind nine. */
  lemma EightIncludesIff(policy: Policy, fs: Files, chain: seq<Path>, spec: string)
    requires IncludeChain(fs, chain, spec) && policy.ofSpec(spec).Drop?
    ensures Request(spec) in Left(policy, fs, chain[0], MAX_DEPTH, |chain|) <==> |chain| - 1 > 8
  {
    if |chain| - 1 > 8 {
      DeepRequestSurvives(policy, fs, chain, spec, MAX_DEPTH);
    } else {
      NearRequestIsStruck(policy, fs, chain, spec, MAX_DEPTH, |chain|);
    }
  }

  // ---------------------------------------------------------------- acts, from what is read

  /** An item the policy does not leave alone, and whether it is read by way of a constraints file. */
  datatype Act = Act(item: Item, constraint: bool)

  predicate ActedOn(policy: Policy, item: Item) {
    match item
    case Request(spec) => !policy.ofSpec(spec).Keep?
    case EditableRequest(spec) => policy.dropsEditable(spec)
    case FromUrl(_, _) => true
    case _ => false
  }

  /** The acts in a reading; `marks` tells of the includes that are open which are constraints. */
  function Acts(policy: Policy, items: seq<Item>, marks: seq<bool>): seq<Act> {
    if items == [] then []
    else if items[0].Enter? then Acts(policy, items[1..], marks + [items[0].constraint])
    else if items[0].Leave? then Acts(policy, items[1..], if marks == [] then [] else marks[..|marks| - 1])
    else (if ActedOn(policy, items[0]) then [Act(items[0], true in marks)] else []) + Acts(policy, items[1..], marks)
  }

  lemma {:induction false} ActsConcat(policy: Policy, a: seq<Item>, b: seq<Item>, marks: seq<bool>, d: nat)
    requires Nested(a, d) && d <= |marks|
    ensures Acts(policy, a + b, marks) == Acts(policy, a, marks) + Acts(policy, b, marks[..|marks| - d])
    decreases |a|
  {
    if a == [] {
      assert a + b == b && marks[..|marks|] == marks;
    } else {
      assert (a + b)[0] == a[0] && (a + b)[1..] == a[1..] + b;
      if a[0].Enter? {
        var more := marks + [a[0].constraint];
        ActsConcat(policy, a[1..], b, more, d + 1);
        assert more[..|more| - (d + 1)] == marks[..|marks| - d];
      } else if a[0].Leave? {
        var fewer := marks[..|marks| - 1];
        ActsConcat(policy, a[1..], b, fewer, d - 1);
        assert fewer[..|fewer| - (d - 1)] == marks[..|marks| - d];
      } else {
        ActsConcat(policy, a[1..], b, marks, d);
      }
    }
  }

  lemma ActsBlock(policy: Policy, constraint: bool, items: seq<Item>, marks: seq<bool>)
    requires Nested(items, 0)
    ensures Acts(policy, Block(constraint, items), marks) == Acts(policy, items, marks + [constraint])
  {
    var more := marks + [constraint];
    assert Block(constraint, items)[1..] == items + [Leave];
    ActsConcat(policy, items, [Leave], more, 0);
    assert more[..|more|] == more && [Leave][1..] == [];
    assert Acts(policy, [Leave], more) == [];
  }

  /** The files as the filter sees them: an include over several lines is passed over. */
  function SeenLine(line: Line): Line {
    if line.Include? && line.joined then Inert("") else line
  }

  function SeenLines(lines: seq<Line>): (r: seq<Line>)
    ensures |r| == |lines|
  {
    if lines == [] then [] else [SeenLine(lines[0])] + SeenLines(lines[1..])
  }

  function Seen(fs: Files): Files {
    map p | p in fs :: SeenLines(fs[p])
  }

  function ItemOf(line: Line): Item {
    match line
    case Requirement(spec) => Request(spec)
    case Editable(spec) => EditableRequest(spec)
    case Include(constraint, Remote(url), _) => FromUrl(constraint, url)
    case _ => More
  }

  /** Strikes as acts, below an include that is a constraint or not. */
  function AsActs(strikes: seq<Strike>, below: bool): seq<Act> {
    if strikes == [] then [] else [Act(ItemOf(strikes[0].line), strikes[0].constraint || below)] + AsActs(strikes[1..], below)
  }

  lemma {:induction false} AsActsConcat(a: seq<Strike>, b: seq<Strike>, below: bool)
    ensures AsActs(a + b, below) == AsActs(a, below) + AsActs(b, below)
  {
    if a == [] {
      assert a + b == b;
    } else {
      var head := [Act(ItemOf(a[0].line), a[0].constraint || below)];
      AsActsConcat(a[1..], b, below);
      assert (a + b)[0] == a[0] && (a + b)[1..] == a[1..] + b;
      assert AsActs(a + b, below) == head + AsActs(a[1..] + b, below);
      Assoc(head, AsActs(a[1..], below), AsActs(b, below));
    }
  }

  lemma {:induction false} AsActsByConstraint(strikes: seq<Strike>, below: bool)
    ensures AsActs(ByConstraint(strikes), below) == AsActs(strikes, true)
  {
    if strikes != [] { AsActsByConstraint(strikes[1..], below); }
  }

  lemma MarkAdded(marks: seq<bool>, mark: bool)
    ensures true in marks + [mark] <==> true in marks || mark
  {
    if true in marks {
      assert true in marks + [mark];
    }
    assert (marks + [mark])[|marks|] == mark;
  }

  /** What the filter strikes is what the policy acts on in the reading of what it follows, in order. */
  lemma {:induction false} StrikesAreActs(policy: Policy, fs: Files, path: Path, room: nat, marks: seq<bool>)
    ensures AsActs(Strikes(policy, fs, path, room), true in marks) == Acts(policy, Reads(Seen(fs), path, room + 1), marks)
    decreases room, 2
  {
    if path in fs {
      LinesAreActs(policy, fs, DirOf(path), fs[path], room, marks);
    } else {
      assert [Missing(path)][1..] == [];
    }
  }

  lemma {:induction false} LinesAreActs(policy: Policy, fs: Files, from: seq<string>, lines: seq<Line>, room: nat, marks: seq<bool>)
    ensures AsActs(StrikesOfLines(policy, fs, from, lines, room), true in marks)
      == Acts(policy, ReadsLines(Seen(fs), from, SeenLines(lines), room), marks)
    decreases room, 1, |lines|
  {
    if lines != [] {
      var line, rest := lines[0], SeenLines(lines[1..]);
      assert SeenLines(lines)[0] == SeenLine(line) && SeenLines(lines)[1..] == rest;
      LineIsActs(policy, fs, from, line, room, marks);
      LinesAreActs(policy, fs, from, lines[1..], room, marks);
      var here := ReadsLine(Seen(fs), from, SeenLine(line), room);
      ReadsLineNested(Seen(fs), from, SeenLine(line), room);
      ActsJoin(policy, here, ReadsLines(Seen(fs), from, rest, room), marks,
               StrikesOfLine(policy, fs, from, line, room), StrikesOfLines(policy, fs, from, lines[1..], room));
    }
  }

  lemma ActsJoin(policy: Policy, a: seq<Item>, b: seq<Item>, marks: seq<bool>, s: seq<Strike>, t: seq<Strike>)
    requires Nested(a, 0)
    requires AsActs(s, true in marks) == Acts(policy, a, marks) && AsActs(t, true in marks) == Acts(policy, b, marks)
    ensures AsActs(s + t, true in marks) == Acts(policy, a + b, marks)
  {
    ActsConcat(policy, a, b, marks, 0);
    assert marks[..|marks|] == marks;
    AsActsConcat(s, t, true in marks);
  }

  lemma {:induction false} LineIsActs(policy: Policy, fs: Files, from: seq<string>, line: Line, room: nat, marks: seq<bool>)
    ensures AsActs(StrikesOfLine(policy, fs, from, line, room), true in marks)
      == Acts(policy, ReadsLine(Seen(fs), from, SeenLine(line), room), marks)
    decreases room, 1, 0
  {
    var read := ReadsLine(Seen(fs), from, SeenLine(line), room);
    if line.Include? && !line.joined && !line.target.Remote? {
      var path := Resolved(from, line.target);
      ReadsNested(Seen(fs), path, room);
      ActsBlock(policy, line.constraint, Reads(Seen(fs), path, room), marks);
      MarkAdded(marks, line.constraint);
      if room > 0 {
        StrikesAreActs(policy, fs, path, room - 1, marks + [line.constraint]);
        if line.constraint { AsActsByConstraint(Strikes(policy, fs, path, room - 1), true in marks); }
      } else {
        assert [More][1..] == [] && Acts(policy, [More], marks + [line.constraint]) == [];
      }
    } else {
      var strikes := StrikesOfLine(policy, fs, from, line, room);
      assert strikes != [] ==> strikes[1..] == [];
      assert read != [] ==> read[1..] == [];
    }
  }

  // ---------------------------------------------------------------- what becomes of the strikes

  /** A pin comes from a struck request, with or without its extras, and from a struck editable. */
  lemma PinIs(policy: Policy, spec: string, pin: Option<string>, extras: string)
    ensures policy.ofSpec(spec) == Drop(pin) || policy.ofSpec(spec) == OnlyExtras(extras, pin) ==> PinOf(policy, Requirement(spec)) == pin
    ensures PinOf(policy, Editable(spec)) == policy.editablePin(spec)
  {
  }

  /** The version recorded is the first pin that is no constraint. */
  lemma {:induction false} FirstPinIs(policy: Policy, strikes: seq<Strike>)
    ensures match FirstPin(policy, strikes)
      case None => forall i :: 0 <= i < |strikes| && !strikes[i].constraint ==> PinOf(policy, strikes[i].line).None?
      case Some(v) => exists k :: 0 <= k < |strikes| && IsFirstPin(policy, strikes, k) && PinOf(policy, strikes[k].line) == Some(v)
  {
    if strikes != [] {
      if !strikes[0].constraint && PinOf(policy, strikes[0].line).Some? {
        assert IsFirstPin(policy, strikes, 0);
      } else {
        FirstPinIs(policy, strikes[1..]);
        assert forall i :: 0 < i < |strikes| ==> strikes[i] == strikes[1..][i - 1];
        if FirstPin(policy, strikes[1..]).Some? {
          var k :| 0 <= k < |strikes[1..]| && IsFirstPin(policy, strikes[1..], k)
                   && PinOf(policy, strikes[1..][k].line) == FirstPin(policy, strikes[1..]);
          assert IsFirstPin(policy, strikes, k + 1);
        }
      }
    }
  }

  predicate IsFirstPin(policy: Policy, strikes: seq<Strike>, k: nat) {
    && k < |strikes| && !strikes[k].constraint && PinOf(policy, strikes[k].line).Some?
    && forall i :: 0 <= i < k && !strikes[i].constraint ==> PinOf(policy, strikes[i].line).None?
  }

  /** How many of the first `k` strikes are reported. */
  function ReportedBefore(policy: Policy, strikes: seq<Strike>, k: nat): nat
    requires k <= |strikes|
  {
    if k == 0 then 0 else ReportedBefore(policy, strikes, k - 1) + (if LeavesExtras(policy, strikes[k - 1].line) then 0 else 1)
  }

  /** Of a struck request its extras are left, so it is not reported as dropped. */
  predicate LeavesExtras(policy: Policy, line: Line) {
    line.Requirement? && policy.ofSpec(line.spec).OnlyExtras?
  }

  lemma {:induction false} ReportedBeforeTail(policy: Policy, strikes: seq<Strike>, k: nat)
    requires k < |strikes|
    ensures ReportedBefore(policy, strikes, k + 1)
      == ReportedBefore(policy, strikes[1..], k) + (if LeavesExtras(policy, strikes[0].line) then 0 else 1)
  {
    if k > 0 { ReportedBeforeTail(policy, strikes, k - 1); }
  }

  /** Every strike but those that leave extras is reported, each in its place. */
  lemma {:induction false} DroppedIs(policy: Policy, strikes: seq<Strike>, k: nat)
    requires k < |strikes| && forall i :: 0 <= i < |strikes| && strikes[i].line.Requirement? ==> !policy.ofSpec(strikes[i].line.spec).Keep?
    ensures |Dropped(policy, strikes)| == ReportedBefore(policy, strikes, |strikes|)
    ensures !LeavesExtras(policy, strikes[k].line) ==>
      var at := ReportedBefore(policy, strikes, k);
      at < |Dropped(policy, strikes)| && Dropped(policy, strikes)[at] == strikes[k].line
  {
    var rest := strikes[1..];
    assert forall i :: 0 <= i < |rest| ==> rest[i] == strikes[i + 1];
    ReportedBeforeTail(policy, strikes, |rest|);
    if rest != [] { DroppedIs(policy, rest, if k > 0 then k - 1 else 0); }
    if k > 0 { ReportedBeforeTail(policy, strikes, k - 1); }
  }
}
