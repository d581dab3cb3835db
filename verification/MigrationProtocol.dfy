/**
 * The record-then-publish protocol of docker/unsloth_nb_strip_colab.py as a step machine over the
 * state file and the notebooks.  Every choice of the outside world is a label; a run is a list of labels.
 */
module MigrationProtocol {
  import opened Wrappers
  import opened NotebookCleaning

  type Path = string
  type Digest = string
  type Hash = File -> Digest

  // ---------------------------------------------------------------- state-file lines

  datatype Record = Record(digest: Digest, path: Path)

  /** Split at the first double space. */
  function SplitRecord(line: string): Option<Record> {
    if |line| < 2 then None
    else if line[0] == ' ' && line[1] == ' ' then Some(Record("", line[2..]))
    else match SplitRecord(line[1..])
      case None => None
      case Some(r) => Some(Record([line[0]] + r.digest, r.path))
  }

  function FormatRecord(digest: Digest, path: Path): string {
    digest + "  " + path
  }

  lemma {:induction false} SplitFormat(digest: Digest, path: Path)
    requires ' ' !in digest
    ensures SplitRecord(FormatRecord(digest, path)) == Some(Record(digest, path))
  {
    var line := FormatRecord(digest, path);
    if digest == "" {
      assert line[2..] == path;
    } else {
      SplitFormat(digest[1..], path);
      assert line[1..] == FormatRecord(digest[1..], path);
      assert [digest[0]] + digest[1..] == digest;
    }
  }

  lemma {:induction false} FormatSplit(line: string)
    ensures SplitRecord(line).Some? ==>
      FormatRecord(SplitRecord(line).value.digest, SplitRecord(line).value.path) == line
  {
    if |line| >= 2 && !(line[0] == ' ' && line[1] == ' ') {
      FormatSplit(line[1..]);
    }
  }

  /** A digest function that never collides and prints without spaces. */
  ghost predicate Faithful(h: Hash) {
    && (forall f: File, g: File :: h(f) == h(g) ==> f == g)
    && (forall f: File :: ' ' !in h(f))
  }

  // ---------------------------------------------------------------- the machine

  /** Where the loop body stands on line `i`. */
  datatype Point =
    | Checking
    | Staged(before: Digest, clean: File)
    | Recorded(before: Digest, clean: File)
    | Undoing
    | Resuming(before: Digest, clean: File)

  datatype Process =
    | Idle
    | Running(lines: seq<string>, out: seq<string>, i: nat, point: Point)

  datatype World = World(disk: map<Path, File>, state: seq<string>, process: Process)

  datatype Label =
    | Start
    | Advance                                        // the next statement succeeds
    | Finish
    | Crash
    | ReadFails                                      // the notebook could not be hashed or staged
    | RecordFails | PublishFails | UndoFails
    | UserSave(path: Path, file: Option<File>)       // None deletes the notebook

  predicate Eligible(path: Path, disk: map<Path, File>) {
    EndsWith(path, ".ipynb") && path in disk
  }

  function LinePath(line: string): Path {
    match SplitRecord(line) case None => "" case Some(r) => r.path
  }

  function LineDigest(line: string): Digest {
    match SplitRecord(line) case None => "" case Some(r) => r.digest
  }

  predicate WellFormed(w: World) {
    w.process.Running? ==>
      && |w.process.lines| == |w.process.out| == |w.state|
      && w.process.i <= |w.process.lines|
      && (!w.process.point.Checking? ==> w.process.i < |w.process.lines|)
  }

  /** On to the next line. */
  function Skip(w: World): World
    requires w.process.Running?
  {
    w.(process := w.process.(i := w.process.i + 1, point := Checking))
  }

  function AtPoint(w: World, point: Point): World
    requires w.process.Running?
  {
    w.(process := w.process.(point := point))
  }

  function Check(h: Hash, w: World): World
    requires w.process.Running? && w.process.i < |w.process.lines|
  {
    match SplitRecord(w.process.lines[w.process.i])
    case None => Skip(w)
    case Some(r) =>
      if !Eligible(r.path, w.disk) then Skip(w)
      else
        var file := w.disk[r.path];
        match Clean(file)
        case Raises => w.(process := Idle)
        case Unchanged => Skip(w)
        case Cleaned(clean) =>
          if h(file) == r.digest then AtPoint(w, Staged(h(file), clean))
          else if h(clean) == r.digest then AtPoint(w, Resuming(h(file), clean))
          else Skip(w)
  }

  /** Whether the publish check lets the staged copy through. */
  predicate Fresh(h: Hash, w: World, path: Path, before: Digest) {
    path in w.disk && h(w.disk[path]) == before
  }

  /** Take the record back off in memory; the state file is rewritten next. */
  function Withdraw(w: World): World
    requires WellFormed(w) && w.process.Running? && w.process.i < |w.process.lines|
  {
    var p := w.process;
    w.(process := p.(out := p.out[p.i := p.lines[p.i]], point := Undoing))
  }

  function Next(h: Hash, w: World): (r: World)
    requires WellFormed(w) && w.process.Running? && w.process.i < |w.process.lines|
    ensures WellFormed(r)
  {
    var p := w.process;
    var path := LinePath(p.lines[p.i]);
    match p.point
    case Checking => Check(h, w)
    case Staged(before, clean) =>
      var out := p.out[p.i := FormatRecord(h(clean), path)];
      w.(state := out, process := p.(out := out, point := Recorded(before, clean)))
    case Recorded(before, clean) =>
      if Fresh(h, w, path, before) then Skip(w.(disk := w.disk[path := clean])) else Withdraw(w)
    case Undoing =>
      Skip(w.(state := p.out))
    case Resuming(before, clean) =>
      if Fresh(h, w, path, before) then Skip(w.(disk := w.disk[path := clean])) else Skip(w)
  }

  predicate Enabled(w: World, l: Label) {
    match l
    case UserSave(_, _) => true
    case Start => w.process.Idle?
    case Finish => w.process.Running? && w.process.i == |w.process.lines|
    case Crash => w.process.Running?
    case _ =>
      && w.process.Running?
      && w.process.i < |w.process.lines|
      && (l.ReadFails? ==> w.process.point.Checking?)
      && (l.RecordFails? ==> w.process.point.Staged?)
      && (l.PublishFails? ==> w.process.point.Recorded? || w.process.point.Resuming?)
      && (l.UndoFails? ==> w.process.point.Undoing?)
  }

  function Do(h: Hash, w: World, l: Label): World
    requires WellFormed(w) && Enabled(w, l)
  {
    match l
    case Start => w.(process := Running(w.state, w.state, 0, Checking))
    case Advance => Next(h, w)
    case Finish => w.(process := Idle)
    case Crash => w.(process := Idle)
    case ReadFails => Skip(w)
    case RecordFails => w.(process := Idle)
    case PublishFails => if w.process.point.Recorded? then Withdraw(w) else Skip(w)
    case UndoFails => Skip(w)
    case UserSave(path, file) =>
      w.(disk := if file.Some? then w.disk[path := file.value] else w.disk - {path})
  }

  lemma DoWellFormed(h: Hash, w: World, l: Label)
    requires WellFormed(w) && Enabled(w, l)
    ensures WellFormed(Do(h, w, l))
  {
  }

  predicate CanRun(h: Hash, w: World, run: seq<Label>)
    requires WellFormed(w)
    decreases |run|
  {
    run == [] || (&& Enabled(w, run[0])
                  && WellFormed(Do(h, w, run[0]))
                  && CanRun(h, Do(h, w, run[0]), run[1..]))
  }

  function Run(h: Hash, w: World, run: seq<Label>): (r: World)
    requires WellFormed(w) && CanRun(h, w, run)
    ensures WellFormed(r)
    decreases |run|
  {
    if run == [] then w else Run(h, Do(h, w, run[0]), run[1..])
  }

  /** No label of the run is a user save of `path`. */
  predicate LeavesAlone(run: seq<Label>, path: Path) {
    forall l :: l in run && l.UserSave? ==> l.path != path
  }

  // ---------------------------------------------------------------- the state file keeps its shape

  /** Two state files with the same lines up to the digests of well-formed records. */
  predicate SameShape(a: seq<string>, b: seq<string>) {
    && |a| == |b|
    && forall k :: 0 <= k < |a| ==>
         (SplitRecord(a[k]).None? ==> a[k] == b[k]) && LinePath(a[k]) == LinePath(b[k])
         && SplitRecord(a[k]).Some? == SplitRecord(b[k]).Some?
  }

  ghost predicate ShapeKept(w: World, state: seq<string>)
    requires WellFormed(w)
  {
    && SameShape(state, w.state)
    && (w.process.Running? ==>
          && SameShape(state, w.process.out) && SameShape(state, w.process.lines)
          && (!w.process.point.Checking? ==> SplitRecord(w.process.lines[w.process.i]).Some?))
  }

  lemma NewLineKeepsShape(state: seq<string>, lines: seq<string>, i: nat, line: string)
    requires SameShape(state, lines) && i < |lines| && SplitRecord(lines[i]).Some?
    requires SplitRecord(line).Some? && LinePath(line) == LinePath(lines[i])
    ensures SameShape(state, lines[i := line])
  {
  }

  lemma StagedKeepsShape(h: Hash, w: World, state: seq<string>)
    requires Faithful(h) && WellFormed(w) && Enabled(w, Advance) && w.process.point.Staged? && ShapeKept(w, state)
    ensures ShapeKept(Next(h, w), state)
  {
    var p := w.process;
    SplitFormat(h(p.point.clean), LinePath(p.lines[p.i]));
    NewLineKeepsShape(state, p.out, p.i, FormatRecord(h(p.point.clean), LinePath(p.lines[p.i])));
  }

  lemma WithdrawKeepsShape(w: World, state: seq<string>)
    requires WellFormed(w) && w.process.Running? && w.process.point.Recorded? && ShapeKept(w, state)
    ensures ShapeKept(Withdraw(w), state)
  {
    var p := w.process;
    NewLineKeepsShape(state, p.out, p.i, p.lines[p.i]);
  }

  /** Checking a line only decides where to go on. */
  lemma CheckMoves(h: Hash, w: World)
    requires w.process.Running? && w.process.i < |w.process.lines|
    ensures var r := Check(h, w);
      || r == Skip(w) || r == w.(process := Idle)
      || (SplitRecord(w.process.lines[w.process.i]).Some? && exists point :: r == AtPoint(w, point))
  {
  }

  lemma CheckKeepsShape(h: Hash, w: World, state: seq<string>)
    requires WellFormed(w) && Enabled(w, Advance) && w.process.point.Checking? && ShapeKept(w, state)
    ensures ShapeKept(Next(h, w), state)
  {
    CheckMoves(h, w);
  }

  lemma EndKeepsShape(h: Hash, w: World, state: seq<string>)
    requires WellFormed(w) && Enabled(w, Advance) && (w.process.point.Undoing? || w.process.point.Resuming?) && ShapeKept(w, state)
    ensures ShapeKept(Next(h, w), state)
  {
  }

  lemma NextKeepsShape(h: Hash, w: World, state: seq<string>)
    requires Faithful(h) && WellFormed(w) && Enabled(w, Advance) && ShapeKept(w, state)
    ensures ShapeKept(Next(h, w), state)
  {
    match w.process.point
    case Staged(_, _) => StagedKeepsShape(h, w, state);
    case Recorded(_, _) => WithdrawKeepsShape(w, state);
    case Checking => CheckKeepsShape(h, w, state);
    case _ => EndKeepsShape(h, w, state);
  }

  lemma DoKeepsShape(h: Hash, w: World, l: Label, state: seq<string>)
    requires Faithful(h) && WellFormed(w) && Enabled(w, l) && ShapeKept(w, state)
    ensures ShapeKept(Do(h, w, l), state)
  {
    if l.Advance? {
      NextKeepsShape(h, w, state);
    } else if l.PublishFails? && w.process.point.Recorded? {
      WithdrawKeepsShape(w, state);
    }
  }

  lemma {:induction false} RunKeepsShape(h: Hash, w: World, run: seq<Label>, state: seq<string>)
    requires Faithful(h) && WellFormed(w) && CanRun(h, w, run) && ShapeKept(w, state)
    ensures ShapeKept(Run(h, w, run), state)
    decreases |run|
  {
    if run != [] {
      DoKeepsShape(h, w, run[0], state);
      RunKeepsShape(h, Do(h, w, run[0]), run[1..], state);
    }
  }

  lemma {:induction false} RunAppend(h: Hash, w: World, a: seq<Label>, b: seq<Label>)
    requires WellFormed(w) && CanRun(h, w, a) && CanRun(h, Run(h, w, a), b)
    ensures CanRun(h, w, a + b) && Run(h, w, a + b) == Run(h, Run(h, w, a), b)
    decreases |a|
  {
    if a == [] {
      assert a + b == b;
    } else {
      RunAppend(h, Do(h, w, a[0]), a[1..], b);
      assert (a + b)[1..] == a[1..] + b;
    }
  }

  // ---------------------------------------------------------------- write-ahead

  ghost predicate CleaningOf(h: Hash, before: Digest, clean: File) {
    exists f: File :: h(f) == before && Clean(f) == Cleaned(clean)
  }

  /** What the process may rely on whatever the user does: lines not reached are as read, and a publish in flight is already recorded. */
  ghost predicate WriteAhead(h: Hash, w: World) {
    && WellFormed(w)
    && (w.process.Running? ==>
          var p := w.process;
          && (forall k :: p.i < k < |w.state| ==> w.state[k] == p.out[k] == p.lines[k])
          && (p.i < |p.lines| && !p.point.Recorded? && !p.point.Undoing? ==> w.state[p.i] == p.out[p.i] == p.lines[p.i])
          && (!p.point.Checking? ==> SplitRecord(p.lines[p.i]).Some?)
          && match p.point
             case Checking => true
             case Undoing => p.out[p.i] == p.lines[p.i]
             case Staged(before, clean) => CleaningOf(h, before, clean)
             case Recorded(before, clean) =>
               && CleaningOf(h, before, clean) && w.state == p.out
               && w.state[p.i] == FormatRecord(h(clean), LinePath(p.lines[p.i]))
             case Resuming(before, clean) =>
               && CleaningOf(h, before, clean) && LineDigest(p.lines[p.i]) == h(clean))
  }

  lemma CheckKeepsWriteAhead(h: Hash, w: World)
    requires WriteAhead(h, w) && Enabled(w, Advance) && w.process.point.Checking?
    ensures WriteAhead(h, Next(h, w))
  {
    var line := w.process.lines[w.process.i];
    if SplitRecord(line).Some? && Eligible(LinePath(line), w.disk) {
      var file := w.disk[LinePath(line)];
      assert Clean(file).Cleaned? ==> CleaningOf(h, h(file), Clean(file).file);
    }
  }

  lemma NextKeepsWriteAhead(h: Hash, w: World)
    requires WriteAhead(h, w) && Enabled(w, Advance) && !w.process.point.Checking?
    ensures WriteAhead(h, Next(h, w))
  {
  }

  lemma DoKeepsWriteAhead(h: Hash, w: World, l: Label)
    requires WriteAhead(h, w) && Enabled(w, l)
    ensures WriteAhead(h, Do(h, w, l))
  {
    if l.Advance? {
      if w.process.point.Checking? { CheckKeepsWriteAhead(h, w); } else { NextKeepsWriteAhead(h, w); }
    }
  }

  lemma {:induction false} RunKeepsWriteAhead(h: Hash, w: World, run: seq<Label>)
    requires WriteAhead(h, w) && CanRun(h, w, run)
    ensures WriteAhead(h, Run(h, w, run))
    decreases |run|
  {
    if run != [] {
      DoKeepsWriteAhead(h, w, run[0]);
      RunKeepsWriteAhead(h, Do(h, w, run[0]), run[1..]);
    }
  }

  /**
   * Whatever the user saves and whenever the process dies: when the machine itself changes a
   * notebook, the durable state file already records the incoming bytes for it, and those
   * bytes are one cleaning pass over exactly the bytes they replace.
   */
  lemma RecordedBeforePublished(h: Hash, w: World, run: seq<Label>, l: Label, path: Path)
    requires Faithful(h) && WellFormed(w) && w.process.Idle? && CanRun(h, w, run)
    requires Enabled(Run(h, w, run), l) && !l.UserSave?
    ensures var a := Run(h, w, run);
      var b := Do(h, a, l);
      || (path !in a.disk && path !in b.disk)
      || (path in a.disk && path in b.disk && b.disk[path] == a.disk[path])
      || (&& path in a.disk && path in b.disk
          && Clean(a.disk[path]) == Cleaned(b.disk[path])
          && FormatRecord(h(b.disk[path]), path) in a.state)
  {
    var a := Run(h, w, run);
    RunKeepsWriteAhead(h, w, run);
    if l.Advance? && (a.process.point.Recorded? || a.process.point.Resuming?) {
      var line := a.process.lines[a.process.i];
      FormatSplit(line);
      if path == LinePath(line) && Fresh(h, a, path, a.process.point.before) {
        assert a.state[a.process.i] == FormatRecord(h(a.process.point.clean), path);
        var f: File :| h(f) == a.process.point.before && Clean(f) == Cleaned(a.process.point.clean);
        assert f == a.disk[path];
      }
    }
  }
}
