/**
 * What every run of the migration keeps, and what one undisturbed pass achieves.
 *
 * A record is recoverable when its notebook hashes to it or cleans to it.  Runs may contain
 * crashes and failures at every point, and user saves of every notebook but the one spoken of.
 */
module MigrationSafety {
  import opened Wrappers
  import opened NotebookCleaning
  import opened MigrationProtocol

  function OnDisk(disk: map<Path, File>, path: Path): Option<File> {
    if path in disk then Some(disk[path]) else None
  }

  // ---------------------------------------------------------------- recoverable records

  predicate Matches(h: Hash, file: File, digest: Digest) {
    h(file) == digest
  }

  predicate CleansTo(h: Hash, file: File, digest: Digest) {
    Clean(file).Cleaned? && h(Clean(file).file) == digest
  }

  predicate Recoverable(h: Hash, disk: map<Path, File>, line: string) {
    && SplitRecord(line).Some?
    && LinePath(line) in disk
    && (Matches(h, disk[LinePath(line)], LineDigest(line)) || CleansTo(h, disk[LinePath(line)], LineDigest(line)))
  }

  /** Line `j` is the only record of `path`. */
  predicate Sole(state: seq<string>, j: nat, path: Path) {
    && j < |state|
    && SplitRecord(state[j]).Some? && LinePath(state[j]) == path
    && forall k :: 0 <= k < |state| && k != j && SplitRecord(state[k]).Some? ==> LinePath(state[k]) != path
  }

  predicate AtLine(w: World, j: nat) {
    w.process.Running? && w.process.i == j
  }

  /** The record of line `j` has not been replaced in this run of the process. */
  predicate NotYetRecorded(w: World, j: nat) {
    && w.process.Running?
    && (w.process.i < j || (w.process.i == j && !w.process.point.Recorded? && !w.process.point.Undoing?))
  }

  /** The inductive form of "record `j` is recoverable", for a state file of shape `shape`. */
  ghost predicate Safe(h: Hash, w: World, shape: seq<string>, j: nat, path: Path) {
    && WellFormed(w)
    && ShapeKept(w, shape) && Sole(shape, j, path)
    && Recoverable(h, w.disk, w.state[j])
    && (w.process.Running? ==>
          var p := w.process;
          && Recoverable(h, w.disk, p.out[j])
          && (NotYetRecorded(w, j) ==> w.state[j] == p.out[j] == p.lines[j])
          && (AtLine(w, j) ==> SafeAtPoint(h, w, j, path)))
  }

  ghost predicate SafeAtPoint(h: Hash, w: World, j: nat, path: Path)
    requires WellFormed(w) && AtLine(w, j)
  {
    var p := w.process;
    p.point.Checking? ||
      (&& path in w.disk && j < |p.lines| &&
       var file := w.disk[path];
       match p.point
       case Staged(before, clean) =>
         Clean(file) == Cleaned(clean) && Matches(h, file, LineDigest(p.lines[j]))
       case Recorded(before, clean) =>
         && Clean(file) == Cleaned(clean) && Matches(h, file, LineDigest(p.lines[j]))
         && p.out[j] == w.state[j] == FormatRecord(h(clean), path)
       case Undoing =>
         p.out[j] == p.lines[j] && Matches(h, file, LineDigest(p.lines[j]))
       case Resuming(before, clean) =>
         Clean(file) == Cleaned(clean) && CleansTo(h, file, LineDigest(p.lines[j])))
  }

  /** `v` looks like `w` as far as record `j` and the notebook at `path` are concerned. */
  ghost predicate Framed(w: World, v: World, j: nat, path: Path)
    requires WellFormed(w) && WellFormed(v) && w.process.Running? && j < |w.state|
  {
    && (path in w.disk <==> path in v.disk)
    && (path in w.disk ==> v.disk[path] == w.disk[path])
    && |v.state| == |w.state|
    && (v.state[j] == w.state[j] || v.state[j] == w.process.out[j])
    && (v.process.Running? ==>
          && v.process.lines == w.process.lines
          && v.process.out[j] == w.process.out[j]
          && (v.process.i == w.process.i || (v.process.i == w.process.i + 1 && v.process.point.Checking?)))
  }

  lemma StepFrames(h: Hash, w: World, l: Label, j: nat, path: Path)
    requires WellFormed(w) && Enabled(w, l) && w.process.Running? && !l.UserSave?
    requires j < |w.state| && w.process.i != j
    requires w.process.i < |w.state| && LinePath(w.process.lines[w.process.i]) == path ==> w.process.point.Checking?
    requires w.process.i < |w.state| && w.process.point.Staged? ==> LinePath(w.process.lines[w.process.i]) != path
    ensures Framed(w, Do(h, w, l), j, path)
  {
  }

  /** A step of the process on another line leaves record `j` alone. */
  lemma StepElsewhere(h: Hash, w: World, l: Label, shape: seq<string>, j: nat, path: Path)
    requires Faithful(h) && Safe(h, w, shape, j, path) && Enabled(w, l)
    requires w.process.Running? && !l.UserSave? && w.process.i != j
    ensures Safe(h, Do(h, w, l), shape, j, path)
  {
    DoKeepsShape(h, w, l, shape);
    var p := w.process;
    if p.i < |p.lines| && !p.point.Checking? {
      assert LinePath(p.lines[p.i]) != path;
    }
    StepFrames(h, w, l, j, path);
    var v := Do(h, w, l);
    FramedSafe(h, w, v, shape, j, path);
  }

  lemma FramedSafe(h: Hash, w: World, v: World, shape: seq<string>, j: nat, path: Path)
    requires Safe(h, w, shape, j, path) && w.process.Running? && w.process.i != j
    requires WellFormed(v) && Framed(w, v, j, path) && ShapeKept(v, shape)
    ensures Safe(h, v, shape, j, path)
  {
  }

  lemma CheckAtLine(h: Hash, w: World, shape: seq<string>, j: nat, path: Path)
    requires Faithful(h) && Safe(h, w, shape, j, path) && AtLine(w, j) && w.process.point.Checking?
    ensures Safe(h, Next(h, w), shape, j, path)
  {
    DoKeepsShape(h, w, Advance, shape);
  }

  lemma RecordAtLine(h: Hash, w: World, shape: seq<string>, j: nat, path: Path)
    requires Faithful(h) && Safe(h, w, shape, j, path) && AtLine(w, j) && w.process.point.Staged?
    ensures Safe(h, Next(h, w), shape, j, path)
  {
    DoKeepsShape(h, w, Advance, shape);
    SplitFormat(h(w.process.point.clean), path);
  }

  lemma PublishAtLine(h: Hash, w: World, shape: seq<string>, j: nat, path: Path)
    requires Faithful(h) && Safe(h, w, shape, j, path) && AtLine(w, j)
    requires w.process.point.Recorded? || w.process.point.Resuming?
    ensures Safe(h, Next(h, w), shape, j, path)
    ensures Safe(h, Do(h, w, PublishFails), shape, j, path)
  {
    DoKeepsShape(h, w, Advance, shape);
    DoKeepsShape(h, w, PublishFails, shape);
    SplitFormat(h(w.process.point.clean), path);
  }

  lemma DoKeepsSafe(h: Hash, w: World, l: Label, shape: seq<string>, j: nat, path: Path)
    requires Faithful(h) && Safe(h, w, shape, j, path) && Enabled(w, l)
    requires l.UserSave? ==> l.path != path
    ensures Safe(h, Do(h, w, l), shape, j, path)
  {
    DoKeepsShape(h, w, l, shape);
    if l.UserSave? {
    } else if w.process.Running? && w.process.i != j {
      StepElsewhere(h, w, l, shape, j, path);
    } else if AtLine(w, j) && w.process.point.Checking? {
      CheckAtLine(h, w, shape, j, path);
    } else if AtLine(w, j) && w.process.point.Staged? {
      RecordAtLine(h, w, shape, j, path);
    } else if AtLine(w, j) && !w.process.point.Undoing? {
      PublishAtLine(h, w, shape, j, path);
    }
  }

  /** No stranding: over every run without a user save of its notebook, a recoverable record stays recoverable. */
  lemma {:induction false} NoStranding(h: Hash, w: World, run: seq<Label>, shape: seq<string>, j: nat, path: Path)
    requires Faithful(h) && WellFormed(w) && CanRun(h, w, run) && LeavesAlone(run, path)
    requires Safe(h, w, shape, j, path)
    ensures Safe(h, Run(h, w, run), shape, j, path)
    decreases |run|
  {
    if run != [] {
      DoKeepsSafe(h, w, run[0], shape, j, path);
      NoStranding(h, Do(h, w, run[0]), run[1..], shape, j, path);
    }
  }

  /** From matching records, as the script assumes, to the inductive form. */
  lemma MatchingIsSafe(h: Hash, w: World, j: nat, path: Path)
    requires WellFormed(w) && w.process.Idle? && Sole(w.state, j, path)
    requires path in w.disk && Matches(h, w.disk[path], LineDigest(w.state[j]))
    ensures Safe(h, w, w.state, j, path)
  {
  }

  // ---------------------------------------------------------------- what is no notebook of ours

  /** No record speaks of a notebook at `path`. */
  predicate NotOurs(state: seq<string>, path: Path) {
    !EndsWith(path, ".ipynb") || forall k :: 0 <= k < |state| && SplitRecord(state[k]).Some? ==> LinePath(state[k]) != path
  }

  /** ... and the process is not at work on it. */
  ghost predicate KeptOff(w: World, shape: seq<string>, path: Path) {
    && WellFormed(w) && ShapeKept(w, shape) && NotOurs(shape, path)
    && (w.process.Running? && !w.process.point.Checking? ==> LinePath(w.process.lines[w.process.i]) != path)
  }

  lemma CheckKeepsOff(h: Hash, w: World, shape: seq<string>, path: Path)
    requires Faithful(h) && KeptOff(w, shape, path) && Enabled(w, Advance) && w.process.point.Checking?
    ensures KeptOff(Next(h, w), shape, path) && OnDisk(Next(h, w).disk, path) == OnDisk(w.disk, path)
  {
    NextKeepsShape(h, w, shape);
  }

  lemma DoKeepsOff(h: Hash, w: World, l: Label, shape: seq<string>, path: Path)
    requires Faithful(h) && KeptOff(w, shape, path) && Enabled(w, l) && (l.UserSave? ==> l.path != path)
    ensures KeptOff(Do(h, w, l), shape, path) && OnDisk(Do(h, w, l).disk, path) == OnDisk(w.disk, path)
  {
    if l.Advance? && w.process.point.Checking? {
      CheckKeepsOff(h, w, shape, path);
    } else {
      DoKeepsShape(h, w, l, shape);
    }
  }

  /** In no run is anything written that is no `.ipynb` file with a record. */
  lemma {:induction false} OthersUntouched(h: Hash, w: World, run: seq<Label>, shape: seq<string>, path: Path)
    requires Faithful(h) && KeptOff(w, shape, path) && CanRun(h, w, run) && LeavesAlone(run, path)
    ensures OnDisk(Run(h, w, run).disk, path) == OnDisk(w.disk, path)
    decreases |run|
  {
    if run != [] {
      DoKeepsOff(h, w, run[0], shape, path);
      OthersUntouched(h, Do(h, w, run[0]), run[1..], shape, path);
    }
  }

  // ---------------------------------------------------------------- records that are not ours

  /** Record `j` reads `line` and its notebook, `file`, neither matches nor cleans to it. */
  ghost predicate Inert(h: Hash, w: World, shape: seq<string>, j: nat, path: Path, line: string, file: Option<File>) {
    && WellFormed(w)
    && ShapeKept(w, shape) && Sole(shape, j, path)
    && OnDisk(w.disk, path) == file && w.state[j] == line
    && !Recoverable(h, w.disk, line)
    && (w.process.Running? ==>
          && w.process.out[j] == w.process.lines[j] == line
          && (AtLine(w, j) ==> w.process.point.Checking?))
  }

  lemma DoKeepsInert(h: Hash, w: World, l: Label, shape: seq<string>, j: nat, path: Path, line: string, file: Option<File>)
    requires Faithful(h) && Inert(h, w, shape, j, path, line, file) && Enabled(w, l)
    requires l.UserSave? ==> l.path != path
    ensures Inert(h, Do(h, w, l), shape, j, path, line, file)
  {
    DoKeepsShape(h, w, l, shape);
    if !l.UserSave? && w.process.Running? {
      var p := w.process;
      if p.i != j {
        if p.i < |p.lines| && !p.point.Checking? {
          assert LinePath(p.lines[p.i]) != path;
        }
        StepFrames(h, w, l, j, path);
      }
    }
  }

  /** A notebook that neither matches nor cleans to its record is never written and its record never changes, until its user saves it. */
  lemma {:induction false} UserEditsKept(h: Hash, w: World, run: seq<Label>, shape: seq<string>, j: nat, path: Path,
                                         line: string, file: Option<File>)
    requires Faithful(h) && WellFormed(w) && CanRun(h, w, run) && LeavesAlone(run, path)
    requires Inert(h, w, shape, j, path, line, file)
    ensures Inert(h, Run(h, w, run), shape, j, path, line, file)
    decreases |run|
  {
    if run != [] {
      DoKeepsInert(h, w, run[0], shape, j, path, line, file);
      UserEditsKept(h, Do(h, w, run[0]), run[1..], shape, j, path, line, file);
    }
  }

  /** Such an edit: the notebook the script published, saved again with widget state. */
  lemma EditTakenForInterruptedPublish(h: Hash) returns (published: File, edit: File)
    requires Faithful(h)
    ensures published != edit && Clean(published).Unchanged?
    ensures CleansTo(h, edit, h(published)) && !Matches(h, edit, h(published))
  {
    published := Json(Notebook(None, Some(map[]), ""), 0);
    edit := Json(Notebook(None, Some(map["widgets" := "state"]), ""), 1);
    assert map["widgets" := "state"] - {"widgets"} == map[];
    var none: map<string, string> := map[];
    assert none - {"widgets"} == none;
  }

  // ---------------------------------------------------------------- one undisturbed pass

  function Rank(point: Point): nat {
    match point
    case Checking => 3
    case Staged(_, _) => 2
    case Recorded(_, _) => 1
    case Resuming(_, _) => 1
    case Undoing => 0
  }

  function Fuel(w: World): nat
    requires WellFormed(w)
  {
    if w.process.Idle? then 0 else 4 * (|w.process.lines| - w.process.i) + Rank(w.process.point)
  }

  /** Run the process to its end with nothing failing. */
  function Settle(h: Hash, w: World): (r: World)
    requires WellFormed(w) && w.process.Running?
    ensures r.process.Idle?
    decreases Fuel(w)
  {
    if w.process.i == |w.process.lines| then Do(h, w, Finish)
    else
      var v := Next(h, w);
      if v.process.Idle? then v else Settle(h, v)
  }

  function Pass(h: Hash, w: World): (r: World)
    requires WellFormed(w) && w.process.Idle?
    ensures r.process.Idle?
  {
    Settle(h, Do(h, w, Start))
  }

  predicate Quiet(l: Label) {
    l.Advance? || l.Finish?
  }

  lemma QuietRunIsEmpty(run: seq<Label>)
    requires run == [] || !Quiet(run[0])
    requires forall l :: l in run ==> Quiet(l)
    ensures run == []
  {
  }

  /** Every run of the process without faults or saves is the pass. */
  lemma {:induction false} QuietRunIsSettle(h: Hash, w: World, run: seq<Label>)
    requires WellFormed(w) && w.process.Running? && CanRun(h, w, run)
    requires (forall l :: l in run ==> Quiet(l)) && Run(h, w, run).process.Idle?
    ensures Run(h, w, run) == Settle(h, w)
    decreases |run|
  {
    assert run[0] in run && Quiet(run[0]);
    var v := Do(h, w, run[0]);
    if v.process.Running? {
      QuietRunIsSettle(h, v, run[1..]);
    } else {
      assert run[1..] == [] || !Quiet(run[1..][0]);
      QuietRunIsEmpty(run[1..]);
    }
  }

  /** The pass is a run. */
  lemma {:induction false} SettleIsQuietRun(h: Hash, w: World) returns (run: seq<Label>)
    requires WellFormed(w) && w.process.Running?
    ensures CanRun(h, w, run) && Run(h, w, run) == Settle(h, w)
    ensures forall l :: l in run ==> Quiet(l)
    decreases Fuel(w)
  {
    var l := if w.process.i == |w.process.lines| then Finish else Advance;
    var v := Do(h, w, l);
    var rest := [];
    if v.process.Running? {
      rest := SettleIsQuietRun(h, v);
    }
    run := [l] + rest;
    assert run[1..] == rest;
  }

  // ---------------------------------------------------------------- what the pass achieves

  predicate Distinct(state: seq<string>) {
    forall k :: 0 <= k < |state| && SplitRecord(state[k]).Some? ==> Sole(state, k, LinePath(state[k]))
  }

  predicate Claimed(h: Hash, disk: map<Path, File>, line: string) {
    Eligible(LinePath(line), disk) && Recoverable(h, disk, line)
  }

  /** The notebook after the pass has treated its record. */
  function TreatedFile(h: Hash, disk: map<Path, File>, line: string): Option<File> {
    if Claimed(h, disk, line) then Some(CleanOnce(disk[LinePath(line)])) else OnDisk(disk, LinePath(line))
  }

  /** The record after the pass has treated it. */
  function TreatedLine(h: Hash, disk: map<Path, File>, line: string): string {
    if Claimed(h, disk, line) then FormatRecord(h(CleanOnce(disk[LinePath(line)])), LinePath(line)) else line
  }

  ghost predicate UntouchedAt(w0: World, w: World, j: nat)
    requires j < |w0.state|
  {
    && j < |w.state| && w.state[j] == w0.state[j]
    && OnDisk(w.disk, LinePath(w0.state[j])) == OnDisk(w0.disk, LinePath(w0.state[j]))
  }

  ghost predicate TreatedAt(h: Hash, w0: World, w: World, j: nat)
    requires j < |w0.state|
  {
    && j < |w.state| && w.state[j] == TreatedLine(h, w0.disk, w0.state[j])
    && OnDisk(w.disk, LinePath(w0.state[j])) == TreatedFile(h, w0.disk, w0.state[j])
  }

  /** How far record `j` of `w0` has got at a world `w` of the pass. */
  ghost predicate PassAt(h: Hash, w0: World, w: World, j: nat)
    requires j < |w0.state|
  {
    && WellFormed(w) && w.process.Running? && |w.state| == |w0.state|
    && w.process.lines == w0.state
    && w.process.out[j] == w.state[j]
    && (w.process.i < j ==> UntouchedAt(w0, w, j))
    && (w.process.i > j ==> TreatedAt(h, w0, w, j))
    && (w.process.i == j ==> PassAtPoint(h, w0, w, j))
  }

  ghost predicate PassAtPoint(h: Hash, w0: World, w: World, j: nat)
    requires j < |w0.state| == |w.state| && w.process.Running?
  {
    var line := w0.state[j];
    var path := LinePath(line);
    if w.process.point.Checking? then UntouchedAt(w0, w, j)
    else
      && Claimed(h, w0.disk, line)
      && OnDisk(w.disk, path) == OnDisk(w0.disk, path)
      && match w.process.point
         case Staged(before, clean) =>
           && UntouchedAt(w0, w, j)
           && before == h(w0.disk[path]) && Clean(w0.disk[path]) == Cleaned(clean)
         case Recorded(before, clean) =>
           && w.state[j] == TreatedLine(h, w0.disk, line)
           && before == h(w0.disk[path]) && Clean(w0.disk[path]) == Cleaned(clean)
         case Resuming(before, clean) =>
           && UntouchedAt(w0, w, j) && h(clean) == LineDigest(line)
           && before == h(w0.disk[path]) && Clean(w0.disk[path]) == Cleaned(clean)
         case _ => false
  }

  /** Line `j` is treated when the process passes it. */
  lemma PassStepAtLine(h: Hash, w0: World, w: World, j: nat)
    requires Faithful(h) && j < |w0.state| && SplitRecord(w0.state[j]).Some?
    requires PassAt(h, w0, w, j) && w.process.i == j
    requires !Next(h, w).process.Idle?
    ensures PassAt(h, w0, Next(h, w), j)
  {
    var line := w0.state[j];
    FormatSplit(line);
  }

  lemma PassStepElsewhere(h: Hash, w0: World, w: World, j: nat)
    requires Faithful(h) && j < |w0.state| && SplitRecord(w0.state[j]).Some? && Sole(w0.state, j, LinePath(w0.state[j]))
    requires PassAt(h, w0, w, j) && w.process.i != j && w.process.i < |w.state|
    requires !w.process.point.Checking? ==> SplitRecord(w.process.lines[w.process.i]).Some?
    requires w.process.point.Undoing? ==> w.state[j] == w.process.out[j]
    ensures var v := Next(h, w);
      if v.process.Idle? then |v.state| == |w0.state| && v.state[j] == w.state[j] && v.disk == w.disk
      else PassAt(h, w0, v, j)
  {
    StepFrames(h, w, Advance, j, LinePath(w0.state[j]));
  }

  predicate Poisoned(w: World, k: nat)
    requires k < |w.state|
  {
    && SplitRecord(w.state[k]).Some?
    && Eligible(LinePath(w.state[k]), w.disk)
    && Clean(w.disk[LinePath(w.state[k])]).Raises?
  }

  /** Every record of `w0` is somewhere on its way through the pass. */
  ghost predicate Passing(h: Hash, w0: World, w: World) {
    && WellFormed(w) && w.process.Running? && |w.state| == |w0.state| && w.process.lines == w0.state
    && ShapeKept(w, w0.state)
    && !w.process.point.Undoing?
    && forall k :: 0 <= k < |w0.state| && SplitRecord(w0.state[k]).Some? ==> PassAt(h, w0, w, k)
  }

  lemma PassStep(h: Hash, w0: World, w: World)
    requires Faithful(h) && Distinct(w0.state) && Passing(h, w0, w) && w.process.i < |w.state|
    ensures var v := Next(h, w);
      if v.process.Running? then Passing(h, w0, v)
      else v.disk == w.disk && v.state == w.state && Poisoned(w0, w.process.i)
    ensures Poisoned(w0, w.process.i) ==> Next(h, w).process.Idle?
  {
    var v := Next(h, w);
    DoKeepsShape(h, w, Advance, w0.state);
    PassDies(h, w0, w);
    if v.process.Running? {
      forall k | 0 <= k < |w0.state| && SplitRecord(w0.state[k]).Some? ensures PassAt(h, w0, v, k) {
        if k == w.process.i {
          PassStepAtLine(h, w0, w, k);
        } else {
          PassStepElsewhere(h, w0, w, k);
        }
      }
    }
  }

  lemma PassDies(h: Hash, w0: World, w: World)
    requires Passing(h, w0, w) && w.process.i < |w.state|
    ensures Next(h, w).process.Idle? <==> Poisoned(w0, w.process.i)
    ensures Next(h, w).process.Idle? ==> Next(h, w).disk == w.disk && Next(h, w).state == w.state && w.process.point.Checking?
  {
    var i := w.process.i;
    if SplitRecord(w0.state[i]).Some? {
      assert PassAt(h, w0, w, i);
    }
  }

  lemma NextMoves(h: Hash, w: World)
    requires WellFormed(w) && w.process.Running? && w.process.i < |w.process.lines|
    ensures WellFormed(Next(h, w)) && Fuel(Next(h, w)) < Fuel(w)
    ensures Next(h, w).process.Running? ==> w.process.i <= Next(h, w).process.i <= w.process.i + 1
  {
    if w.process.point.Checking? { CheckMoves(h, w); }
  }

  lemma CheckMoves(h: Hash, w: World)
    requires WellFormed(w) && w.process.Running? && w.process.i < |w.process.lines| && w.process.point.Checking?
    ensures WellFormed(Check(h, w)) && Fuel(Check(h, w)) < Fuel(w)
    ensures Check(h, w).process.Running? ==> w.process.i <= Check(h, w).process.i <= w.process.i + 1
  {
  }

  lemma {:induction false} SettleOutcome(h: Hash, w0: World, w: World, j: nat)
    requires Faithful(h) && Distinct(w0.state) && Passing(h, w0, w)
    requires j < |w0.state| && SplitRecord(w0.state[j]).Some?
    requires forall k :: 0 <= k < w.process.i ==> !Poisoned(w0, k)
    ensures (forall k :: 0 <= k <= j ==> !Poisoned(w0, k)) ==> TreatedAt(h, w0, Settle(h, w), j)
    ensures (exists k :: 0 <= k <= j && Poisoned(w0, k)) ==> UntouchedAt(w0, Settle(h, w), j)
    decreases Fuel(w)
  {
    assert PassAt(h, w0, w, j);
    if w.process.i < |w.state| {
      var i, v := w.process.i, Next(h, w);
      PassStep(h, w0, w);
      if v.process.Running? {
        assert Settle(h, w) == Settle(h, v);
        NextMoves(h, w);
        SettleOutcome(h, w0, v, j);
      } else {
        assert Settle(h, w) == v;
      }
    }
  }

  /**
   * One undisturbed pass, exactly: every claimed record up to the first notebook the
   * cleaning dies on gets its notebook cleaned once and re-recorded, and nothing from that
   * notebook on is touched.
   */
  lemma PassOutcome(h: Hash, w: World, j: nat)
    requires Faithful(h) && WellFormed(w) && w.process.Idle? && Distinct(w.state)
    requires j < |w.state| && SplitRecord(w.state[j]).Some?
    ensures (forall k :: 0 <= k <= j ==> !Poisoned(w, k)) ==> TreatedAt(h, w, Pass(h, w), j)
    ensures (exists k :: 0 <= k <= j && Poisoned(w, k)) ==> UntouchedAt(w, Pass(h, w), j)
  {
    SettleOutcome(h, w, Do(h, w, Start), j);
  }

  lemma {:induction false} SettleKeepsShape(h: Hash, w: World, shape: seq<string>)
    requires Faithful(h) && WellFormed(w) && w.process.Running? && ShapeKept(w, shape)
    ensures ShapeKept(Settle(h, w), shape)
    decreases Fuel(w)
  {
    if w.process.i < |w.process.lines| {
      var v := Next(h, w);
      DoKeepsShape(h, w, Advance, shape);
      NextMoves(h, w);
      if v.process.Running? {
        SettleKeepsShape(h, v, shape);
        assert Settle(h, w) == Settle(h, v);
      } else {
        assert Settle(h, w) == v;
      }
    }
  }

  lemma PassKeepsShape(h: Hash, w: World)
    requires Faithful(h) && WellFormed(w) && w.process.Idle?
    ensures SameShape(w.state, Pass(h, w).state)
    ensures Distinct(w.state) ==> Distinct(Pass(h, w).state)
  {
    SettleKeepsShape(h, Do(h, w, Start), w.state);
  }

  // ---------------------------------------------------------------- recovery and convergence

  lemma TreatedMatches(h: Hash, disk: map<Path, File>, line: string)
    requires Faithful(h) && Claimed(h, disk, line)
    ensures TreatedFile(h, disk, line) == Some(CleanOnce(disk[LinePath(line)]))
    ensures SplitRecord(TreatedLine(h, disk, line)) == Some(Record(h(CleanOnce(disk[LinePath(line)])), LinePath(line)))
  {
    SplitFormat(h(CleanOnce(disk[LinePath(line)])), LinePath(line));
  }

  ghost predicate Settled(h: Hash, w: World, j: nat, path: Path, file: File) {
    && j < |w.state| && SplitRecord(w.state[j]) == Some(Record(h(file), path))
    && OnDisk(w.disk, path) == Some(file)
  }

  /**
   * Crash recovery: start from a matching record, let the process run, fail and crash in any
   * way while others save other notebooks; one undisturbed pass then leaves the record
   * matching its notebook again, unless the cleaning dies on a notebook recorded no later.
   */
  lemma RecoveredByOnePass(h: Hash, w: World, run: seq<Label>, j: nat, path: Path)
    requires Faithful(h) && WellFormed(w) && w.process.Idle? && Distinct(w.state)
    requires Sole(w.state, j, path) && Eligible(path, w.disk) && Matches(h, w.disk[path], LineDigest(w.state[j]))
    requires CanRun(h, w, run) && LeavesAlone(run, path) && Run(h, w, run).process.Idle?
    requires forall k :: 0 <= k <= j && k < |Run(h, w, run).state| ==> !Poisoned(Run(h, w, run), k)
    ensures var v := Run(h, w, run);
      path in v.disk && Settled(h, Pass(h, v), j, path, CleanOnce(v.disk[path]))
  {
    var v := Run(h, w, run);
    MatchingIsSafe(h, w, j, path);
    NoStranding(h, w, run, w.state, j, path);
    assert Sole(v.state, j, path);
    RunKeepsShape(h, w, run, w.state);
    assert Distinct(v.state);
    PassOutcome(h, v, j);
    TreatedMatches(h, v.disk, v.state[j]);
  }

  function Passes(n: nat, h: Hash, w: World): (r: World)
    requires WellFormed(w) && w.process.Idle?
    ensures r.process.Idle?
  {
    if n == 0 then w else Passes(n - 1, h, Pass(h, w))
  }

  ghost predicate Clear(w: World) {
    forall k :: 0 <= k < |w.state| ==> !Poisoned(w, k)
  }

  lemma PassStaysClear(h: Hash, w: World)
    requires Faithful(h) && WellFormed(w) && w.process.Idle? && Distinct(w.state) && Clear(w)
    ensures Clear(Pass(h, w))
  {
    PassKeepsShape(h, w);
    var v := Pass(h, w);
    forall k | 0 <= k < |v.state| ensures !Poisoned(v, k) {
      assert !Poisoned(w, k);
      if SplitRecord(w.state[k]).Some? {
        PassOutcome(h, w, k);
        assert TreatedAt(h, w, v, k);
        if Eligible(LinePath(w.state[k]), w.disk) {
          CleanMakesProgress(w.disk[LinePath(w.state[k])]);
        }
      }
    }
  }

  /**
   * After `n` undisturbed passes a matching record has been cleaned `n` times and still matches;
   * nothing is left to clean exactly from `PassesNeeded` passes on.
   */
  lemma PassesConverge(n: nat, h: Hash, w: World, j: nat, path: Path, file: File)
    requires Faithful(h) && WellFormed(w) && w.process.Idle? && Distinct(w.state) && Clear(w)
    requires Settled(h, w, j, path, file) && EndsWith(path, ".ipynb")
    ensures Settled(h, Passes(n, h, w), j, path, CleanTimes(n, file))
    ensures Clean(CleanTimes(n, file)).Unchanged? <==> n >= PassesNeeded(file)
  {
    PassesSettle(n, h, w, j, path, file);
    SettlesExactly(n, file);
  }

  lemma {:induction false} PassesSettle(n: nat, h: Hash, w: World, j: nat, path: Path, file: File)
    requires Faithful(h) && WellFormed(w) && w.process.Idle? && Distinct(w.state) && Clear(w)
    requires Settled(h, w, j, path, file) && EndsWith(path, ".ipynb")
    ensures !Clean(file).Raises? && Settled(h, Passes(n, h, w), j, path, CleanTimes(n, file))
  {
    assert !Poisoned(w, j);
    if n > 0 {
      PassCleansOnce(h, w, j, path, file);
      PassKeepsShape(h, w);
      PassStaysClear(h, w);
      PassesSettle(n - 1, h, Pass(h, w), j, path, CleanOnce(file));
    }
  }

  lemma PassCleansOnce(h: Hash, w: World, j: nat, path: Path, file: File)
    requires Faithful(h) && WellFormed(w) && w.process.Idle? && Distinct(w.state) && Clear(w)
    requires Settled(h, w, j, path, file) && EndsWith(path, ".ipynb")
    ensures Settled(h, Pass(h, w), j, path, CleanOnce(file))
  {
    assert !Poisoned(w, j);
    PassOutcome(h, w, j);
    TreatedMatches(h, w.disk, w.state[j]);
  }

  /** One notebook the cleaning dies on blocks every record from its line on, however often the process is started. */
  lemma {:induction false} PoisonBlocks(n: nat, h: Hash, w: World, q: nat, j: nat)
    requires Faithful(h) && WellFormed(w) && w.process.Idle? && Distinct(w.state)
    requires q <= j < |w.state| && Poisoned(w, q) && SplitRecord(w.state[j]).Some?
    ensures UntouchedAt(w, Passes(n, h, w), j)
  {
    if n > 0 {
      PoisonStays(h, w, q, j);
      PassKeepsShape(h, w);
      PoisonBlocks(n - 1, h, Pass(h, w), q, j);
    }
  }

  lemma PoisonStays(h: Hash, w: World, q: nat, j: nat)
    requires Faithful(h) && WellFormed(w) && w.process.Idle? && Distinct(w.state)
    requires q <= j < |w.state| && Poisoned(w, q) && SplitRecord(w.state[j]).Some?
    ensures UntouchedAt(w, Pass(h, w), j) && q < |Pass(h, w).state| && Poisoned(Pass(h, w), q)
  {
    PassOutcome(h, w, j);
    PassOutcome(h, w, q);
  }

  /**
   * The script says a real edit can never be mistaken for an interrupted publish.  It can:
   * an undisturbed pass overwrites a notebook that does not match its record exactly when
   * cleaning the notebook gives the recorded bytes.
   */
  lemma EditOverwrittenIff(h: Hash, w: World, j: nat, edit: File)
    requires Faithful(h) && WellFormed(w) && w.process.Idle? && Distinct(w.state) && Clear(w)
    requires j < |w.state| && SplitRecord(w.state[j]).Some? && EndsWith(LinePath(w.state[j]), ".ipynb")
    requires OnDisk(w.disk, LinePath(w.state[j])) == Some(edit) && !Matches(h, edit, LineDigest(w.state[j]))
    ensures OnDisk(Pass(h, w).disk, LinePath(w.state[j])) != Some(edit) <==> CleansTo(h, edit, LineDigest(w.state[j]))
  {
    PassOutcome(h, w, j);
    CleanMakesProgress(edit);
  }
}
