/**
 * The recursion of `_filter_requirements_file`: it writes its copies into a store that already
 * holds the caller's files, and its three results are those RequirementsFilter describes.
 */
module RequirementsStore {
  import opened Wrappers
  import opened Sequences
  import opened RequirementsFilter

  // ---------------------------------------------------------------- growing the store

  /** Every copy a line leads to is there. */
  ghost predicate GroundedLine(fs: Files, line: Line) {
    line.Include? && line.target.Absolute? && line.target.path.Copy? ==> line.target.path in fs
  }

  ghost predicate GroundedLines(fs: Files, lines: seq<Line>) {
    forall i :: 0 <= i < |lines| ==> GroundedLine(fs, lines[i])
  }

  ghost predicate Grounded(fs: Files) {
    forall p :: p in fs ==> GroundedLines(fs, fs[p])
  }

  /** The caller's files know nothing of copies. */
  ghost predicate Original(fs: Files) {
    forall p :: p in fs ==> p.Given? && forall i :: 0 <= i < |fs[p]| ==> NoCopy(fs[p][i])
  }

  predicate NoCopy(line: Line) {
    line.Include? && line.target.Absolute? ==> line.target.path.Given?
  }

  /** More copies, nothing else. */
  ghost predicate Grows(a: Files, b: Files) {
    && (forall p :: p in a ==> p in b && b[p] == a[p])
    && (forall p :: p in b && p !in a ==> p.Copy?)
  }

  lemma {:induction false} ReadsStable(a: Files, b: Files, path: Path, n: nat)
    requires Grounded(a) && Grows(a, b) && (path.Copy? ==> path in a)
    ensures Reads(a, path, n) == Reads(b, path, n)
    decreases n, 0
  {
    if n > 0 && path in a {
      ReadsLinesStable(a, b, DirOf(path), a[path], n - 1);
    }
  }

  lemma {:induction false} ReadsLinesStable(a: Files, b: Files, dir: seq<string>, lines: seq<Line>, n: nat)
    requires Grounded(a) && Grows(a, b) && GroundedLines(a, lines)
    ensures ReadsLines(a, dir, lines, n) == ReadsLines(b, dir, lines, n)
    decreases n, 1, |lines|
  {
    if lines != [] {
      assert GroundedLine(a, lines[0]);
      if lines[0].Include? && !lines[0].target.Remote? {
        ReadsStable(a, b, Resolved(dir, lines[0].target), n);
      }
      ReadsLinesStable(a, b, dir, lines[1..], n);
    }
  }

  // ---------------------------------------------------------------- lines one by one

  lemma {:induction false} ReadsAppend(fs: Files, dir: seq<string>, a: seq<Line>, b: seq<Line>, n: nat)
    ensures ReadsLines(fs, dir, a + b, n) == ReadsLines(fs, dir, a, n) + ReadsLines(fs, dir, b, n)
    decreases |a|
  {
    if a == [] {
      assert a + b == b;
    } else {
      ReadsAppend(fs, dir, a[1..], b, n);
      assert (a + b)[1..] == a[1..] + b;
    }
  }

  lemma {:induction false} LeftAppend(policy: Policy, fs: Files, from: seq<string>, dir: seq<string>, a: seq<Line>, b: Line, room: nat, n: nat)
    ensures LeftLines(policy, fs, from, dir, a + [b], room, n)
      == LeftLines(policy, fs, from, dir, a, room, n) + LeftLine(policy, fs, from, dir, b, room, n)
    decreases |a|
  {
    if a == [] {
      assert a + [b] == [b];
      LeftOneLine(policy, fs, from, dir, b, room, n);
    } else {
      LeftAppend(policy, fs, from, dir, a[1..], b, room, n);
      assert (a + [b])[1..] == a[1..] + [b];
    }
  }

  lemma {:induction false} ChangesAppend(policy: Policy, fs: Files, a: seq<Line>, b: Line, room: nat)
    ensures ChangesLines(policy, fs, a + [b], room) <==> ChangesLines(policy, fs, a, room) || ChangesLine(policy, fs, b, room)
    decreases |a|
  {
    if a == [] {
      assert a + [b] == [b] && [b][1..] == [];
    } else {
      ChangesAppend(policy, fs, a[1..], b, room);
      assert (a + [b])[1..] == a[1..] + [b];
    }
  }

  lemma {:induction false} StrikesAppend(policy: Policy, fs: Files, from: seq<string>, a: seq<Line>, b: Line, room: nat)
    ensures StrikesOfLines(policy, fs, from, a + [b], room)
      == StrikesOfLines(policy, fs, from, a, room) + StrikesOfLine(policy, fs, from, b, room)
    decreases |a|
  {
    if a == [] {
      assert a + [b] == [b] && [b][1..] == [];
    } else {
      StrikesAppend(policy, fs, from, a[1..], b, room);
      assert (a + [b])[1..] == a[1..] + [b];
    }
  }

  lemma {:induction false} ReportsAppend(policy: Policy, a: seq<Strike>, b: seq<Strike>)
    ensures Dropped(policy, a + b) == Dropped(policy, a) + Dropped(policy, b)
    ensures FirstPin(policy, a + b) == if FirstPin(policy, a).Some? then FirstPin(policy, a) else FirstPin(policy, b)
  {
    if a == [] {
      assert a + b == b;
    } else {
      ReportsAppend(policy, a[1..], b);
      assert (a + b)[1..] == a[1..] + b;
    }
  }

  lemma {:induction false} ConstraintReports(policy: Policy, strikes: seq<Strike>)
    ensures Dropped(policy, ByConstraint(strikes)) == Dropped(policy, strikes)
    ensures FirstPin(policy, ByConstraint(strikes)) == None
  {
    if strikes != [] { ConstraintReports(policy, strikes[1..]); }
  }

  // ---------------------------------------------------------------- the recursion

  /** Wherever the kept lines end up, they ask for what should be left of the lines read. */
  ghost predicate Kept(policy: Policy, fs: Files, base: Files, from: seq<string>, out: seq<Line>, lines: seq<Line>, room: nat) {
    forall dir, n :: ReadsLines(fs, dir, out, n) == LeftLines(policy, base, from, dir, lines, room, n)
  }

  ghost predicate KeptLine(policy: Policy, fs: Files, base: Files, from: seq<string>, out: seq<Line>, line: Line, room: nat) {
    forall dir, n :: ReadsLines(fs, dir, out, n) == LeftLine(policy, base, from, dir, line, room, n)
  }

  lemma KeptNext(policy: Policy, a: Files, b: Files, base: Files, from: seq<string>, out: seq<Line>, lines: seq<Line>,
                 more: seq<Line>, line: Line, room: nat)
    requires Grounded(a) && Grows(a, b) && GroundedLines(a, out)
    requires Kept(policy, a, base, from, out, lines, room) && KeptLine(policy, b, base, from, more, line, room)
    ensures Kept(policy, b, base, from, out + more, lines + [line], room)
  {
    forall dir, n ensures ReadsLines(b, dir, out + more, n) == LeftLines(policy, base, from, dir, lines + [line], room, n) {
      ReadsLinesStable(a, b, dir, out, n);
      ReadsAppend(b, dir, out, more, n);
      LeftAppend(policy, base, from, dir, lines, line, room, n);
    }
  }

  lemma KeptSame(policy: Policy, fs: Files, base: Files, from: seq<string>, line: Line, room: nat)
    requires Grounded(base) && Grows(base, fs) && NoCopy(line) && !ChangesLine(policy, base, line, room)
    ensures KeptLine(policy, fs, base, from, [line], line, room)
  {
    forall dir, n ensures ReadsLines(fs, dir, [line], n) == LeftLine(policy, base, from, dir, line, room, n) {
      ReadsOneLine(fs, dir, line, n);
      ReadsLinesStable(base, fs, dir, [line], n);
      ReadsOneLine(base, dir, line, n);
      if line.Include? && !line.joined {
        UnchangedIsLeft(policy, base, line.target.path, room - 1, n);
      }
    }
  }

  /** What needs no copy is left as it is, with everything it includes. */
  lemma {:induction false} UnchangedIsLeft(policy: Policy, fs: Files, path: Path, room: int, n: nat)
    requires room < 0 || !Changes(policy, fs, path, room)
    ensures Left(policy, fs, path, room, n) == Reads(fs, path, n)
    decreases n, 0
  {
    if room >= 0 && n > 0 && path in fs {
      UnchangedLinesAreLeft(policy, fs, DirOf(path), fs[path], room, n - 1);
    }
  }

  lemma {:induction false} UnchangedLinesAreLeft(policy: Policy, fs: Files, dir: seq<string>, lines: seq<Line>, room: nat, n: nat)
    requires !ChangesLines(policy, fs, lines, room)
    ensures LeftLines(policy, fs, dir, dir, lines, room, n) == ReadsLines(fs, dir, lines, n)
    decreases n, 1, |lines|
  {
    if lines != [] {
      if lines[0].Include? && !lines[0].joined {
        UnchangedIsLeft(policy, fs, lines[0].target.path, room - 1, n);
      }
      UnchangedLinesAreLeft(policy, fs, dir, lines[1..], room, n);
    }
  }

  /** ... and nothing of it is reported. */
  lemma {:induction false} UnchangedHasNoStrikes(policy: Policy, fs: Files, path: Path, room: nat)
    requires !Changes(policy, fs, path, room)
    ensures Strikes(policy, fs, path, room) == []
    decreases room, 2
  {
    if path in fs { UnchangedLinesHaveNone(policy, fs, DirOf(path), fs[path], room); }
  }

  lemma {:induction false} UnchangedLinesHaveNone(policy: Policy, fs: Files, from: seq<string>, lines: seq<Line>, room: nat)
    requires !ChangesLines(policy, fs, lines, room)
    ensures StrikesOfLines(policy, fs, from, lines, room) == []
    decreases room, 1, |lines|
  {
    if lines != [] {
      if lines[0].Include? && !lines[0].joined && room > 0 {
        UnchangedHasNoStrikes(policy, fs, lines[0].target.path, room - 1);
      }
      UnchangedLinesHaveNone(policy, fs, from, lines[1..], room);
    }
  }

  /** An include of the filtered file stands for what is left of the file it named. */
  lemma KeptInclude(policy: Policy, fs: Files, base: Files, from: seq<string>, line: Line, to: Path, room: nat)
    requires line.Include? && !line.joined && !line.target.Remote?
    requires forall n :: Reads(fs, to, n) == Left(policy, base, Resolved(from, line.target), room - 1, n)
    ensures KeptLine(policy, fs, base, from, [Include(line.constraint, Absolute(to), false)], line, room)
  {
    var copy := Include(line.constraint, Absolute(to), false);
    forall dir, n ensures ReadsLines(fs, dir, [copy], n) == LeftLine(policy, base, from, dir, line, room, n) {
      ReadsOneLine(fs, dir, copy, n);
    }
  }

  lemma KeptStruck(policy: Policy, fs: Files, base: Files, from: seq<string>, out: seq<Line>, line: Line, room: nat)
    requires match line
      case Requirement(spec) =>
        (match policy.ofSpec(spec)
         case Keep => out == [line]
         case Drop(_) => out == []
         case OnlyExtras(extras, _) => out == [Requirement(extras)])
      case Editable(spec) => out == if policy.dropsEditable(spec) then [] else [line]
      case _ => false
    ensures KeptLine(policy, fs, base, from, out, line, room)
  {
    forall dir, n ensures ReadsLines(fs, dir, out, n) == LeftLine(policy, base, from, dir, line, room, n) {
      if out != [] { ReadsOneLine(fs, dir, out[0], n); }
    }
  }

  /** The file the lines end up in asks for what should be left of the one they come from. */
  lemma WrittenReads(policy: Policy, a: Files, b: Files, base: Files, path: Path, to: Path, out: seq<Line>, room: nat, n: nat)
    requires path in base && path.Given? && Grounded(a) && Grows(a, b) && GroundedLines(a, out) && to in b && b[to] == out
    requires DirOf(to) == if Changes(policy, base, path, room) then TMP else DirOf(path)
    requires Kept(policy, a, base, DirOf(path), out, base[path], room)
    ensures Reads(b, to, n) == Left(policy, base, path, room, n)
  {
    if n > 0 {
      ReadsLinesStable(a, b, DirOf(to), out, n - 1);
    }
  }

  /** What has been recorded and dropped for the lines so far. */
  ghost predicate Reported(policy: Policy, base: Files, from: seq<string>, lines: seq<Line>, room: nat,
                           recorded: Option<string>, dropped: seq<Line>) {
    var strikes := StrikesOfLines(policy, base, from, lines, room);
    recorded == FirstPin(policy, strikes) && dropped == Dropped(policy, strikes)
  }

  lemma ReportedNext(policy: Policy, base: Files, from: seq<string>, lines: seq<Line>, line: Line, room: nat,
                     recorded: Option<string>, dropped: seq<Line>)
    requires Reported(policy, base, from, lines, room, recorded, dropped)
    ensures var more := StrikesOfLine(policy, base, from, line, room);
      Reported(policy, base, from, lines + [line], room,
               if recorded.Some? then recorded else FirstPin(policy, more), dropped + Dropped(policy, more))
  {
    StrikesAppend(policy, base, from, lines, line, room);
    ReportsAppend(policy, StrikesOfLines(policy, base, from, lines, room), StrikesOfLine(policy, base, from, line, room));
  }

  class Store {
    const policy: Policy
    var files: Files
    var next: nat

    /** The caller's files `base` untouched, and copies made so far. */
    ghost predicate Valid(base: Files) reads this {
      && Original(base) && Grows(base, files) && Grounded(files)
      && (forall k: nat :: Copy(k) in files ==> k < next)
    }

    constructor (policy: Policy, files: Files)
      requires Original(files)
      ensures Valid(files) && this.policy == policy && this.files == files
    {
      this.policy, this.files, next := policy, files, 0;
    }

    /** `mkstemp` and `writelines`. */
    method Write(lines: seq<Line>, ghost base: Files) returns (to: Path)
      requires Valid(base) && GroundedLines(files, lines)
      modifies this
      ensures Valid(base) && to.Copy? && to !in old(files) && files == old(files)[to := lines]
    {
      to := Copy(next);
      files, next := files[to := lines], next + 1;
    }

    /** `_rewrite_include`, for an include on one physical line. */
    method RewriteInclude(line: Line, from: seq<string>, depth: nat, ghost base: Files)
      returns (out: seq<Line>, rewrote: bool, recorded: Option<string>, dropped: seq<Line>)
      requires Valid(base) && depth <= MAX_DEPTH && line.Include? && !line.joined && NoCopy(line)
      modifies this
      ensures Valid(base) && Grows(old(files), files) && GroundedLines(files, out)
      ensures rewrote <==> ChangesLine(policy, base, line, MAX_DEPTH - depth)
      ensures |out| <= 1 && (!rewrote ==> out == [line])
      ensures KeptLine(policy, files, base, from, out, line, MAX_DEPTH - depth)
      ensures recorded == FirstPin(policy, StrikesOfLine(policy, base, from, line, MAX_DEPTH - depth))
      ensures dropped == Dropped(policy, StrikesOfLine(policy, base, from, line, MAX_DEPTH - depth))
      decreases MAX_DEPTH - depth, 1
    {
      if line.target.Remote? { return [], true, None, [line]; }
      var target := Resolved(from, line.target);
      ghost var room := MAX_DEPTH - depth;
      var to := target;
      if depth < MAX_DEPTH {
        to, recorded, dropped := Filter(target, depth + 1, base);
        if line.constraint {
          recorded := None;
          ConstraintReports(policy, Strikes(policy, base, target, room - 1));
        }
      } else {
        recorded, dropped := None, [];
        forall n ensures Reads(files, target, n) == Left(policy, base, target, room - 1, n) {
          ReadsStable(base, files, target, n);
        }
      }
      KeptInclude(policy, files, base, from, line, to, room);
      if to != target {
        return [Include(line.constraint, Absolute(to), false)], true, recorded, dropped;
      }
      if depth < MAX_DEPTH { UnchangedHasNoStrikes(policy, base, target, room - 1); }
      if line.target.Relative? {
        return [Include(line.constraint, Absolute(target), false)], true, None, [];
      }
      KeptSame(policy, files, base, from, line, room);
      return [line], false, None, [];
    }

    /** Lines 579-634: what becomes of one logical line. */
    method FilterLine(line: Line, from: seq<string>, depth: nat, ghost base: Files)
      returns (out: seq<Line>, rewrote: bool, recorded: Option<string>, dropped: seq<Line>)
      requires Valid(base) && depth <= MAX_DEPTH && NoCopy(line)
      modifies this
      ensures Valid(base) && Grows(old(files), files) && GroundedLines(files, out)
      ensures rewrote <==> ChangesLine(policy, base, line, MAX_DEPTH - depth)
      ensures |out| <= 1 && (!rewrote ==> out == [line])
      ensures KeptLine(policy, files, base, from, out, line, MAX_DEPTH - depth)
      ensures recorded == FirstPin(policy, StrikesOfLine(policy, base, from, line, MAX_DEPTH - depth))
      ensures dropped == Dropped(policy, StrikesOfLine(policy, base, from, line, MAX_DEPTH - depth))
      decreases MAX_DEPTH - depth, 2
    {
      out, rewrote, recorded, dropped := [line], false, None, [];
      ghost var room := MAX_DEPTH - depth;
      match line {
        case Inert(_) =>
          KeptSame(policy, files, base, from, line, room);
        case Editable(spec) =>
          if policy.dropsEditable(spec) {
            out, rewrote, recorded, dropped := [], true, policy.editablePin(spec), [line];
          }
          KeptStruck(policy, files, base, from, out, line, room);
        case Include(_, _, joined) =>
          if joined {
            KeptSame(policy, files, base, from, line, room);
          } else {
            out, rewrote, recorded, dropped := RewriteInclude(line, from, depth, base);
          }
        case Requirement(spec) =>
          match policy.ofSpec(spec) {
            case Keep =>
            case Drop(pin) =>
              out, rewrote, recorded, dropped := [], true, pin, [line];
            case OnlyExtras(extras, pin) =>
              out, rewrote, recorded := [Requirement(extras)], true, pin;
          }
          KeptStruck(policy, files, base, from, out, line, room);
      }
    }

    /** `_filter_requirements_file`. */
    method Filter(path: Path, depth: nat, ghost base: Files)
      returns (to: Path, recorded: Option<string>, dropped: seq<Line>)
      requires Valid(base) && depth <= MAX_DEPTH && path.Given?
      modifies this
      ensures Valid(base) && Grows(old(files), files)
      ensures if Changes(policy, base, path, MAX_DEPTH - depth) then to.Copy? && to in files else to == path
      ensures forall n :: Reads(files, to, n) == Left(policy, base, path, MAX_DEPTH - depth, n)
      ensures recorded == FirstPin(policy, Strikes(policy, base, path, MAX_DEPTH - depth))
      ensures dropped == Dropped(policy, Strikes(policy, base, path, MAX_DEPTH - depth))
      decreases MAX_DEPTH - depth, 3
    {
      ghost var room := MAX_DEPTH - depth;
      to, recorded, dropped := path, None, [];
      if path !in files {
        return;
      }
      assert path in base;
      var lines, from := files[path], DirOf(path);
      var out, changed := [], false;
      for i := 0 to |lines|
        invariant Valid(base) && Grows(old(files), files) && GroundedLines(files, out)
        invariant changed <==> ChangesLines(policy, base, lines[..i], room)
        invariant !changed ==> out == lines[..i]
        invariant Kept(policy, files, base, from, out, lines[..i], room)
        invariant Reported(policy, base, from, lines[..i], room, recorded, dropped)
      {
        ghost var before := files;
        var rest, rewrote, pin, struck := FilterLine(lines[i], from, depth, base);
        KeptNext(policy, before, files, base, from, out, lines[..i], rest, lines[i], room);
        ChangesAppend(policy, base, lines[..i], lines[i], room);
        ReportedNext(policy, base, from, lines[..i], lines[i], room, recorded, dropped);
        Unsnoc(lines, i);
        out, changed, dropped := out + rest, changed || rewrote, dropped + struck;
        if recorded.None? { recorded := pin; }
      }
      assert lines[..|lines|] == lines;
      ghost var written := files;
      if changed { to := Write(out, base); }
      forall n ensures Reads(files, to, n) == Left(policy, base, path, room, n) {
        WrittenReads(policy, written, files, base, path, to, out, room, n);
      }
    }
  }
}
