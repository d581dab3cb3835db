/**
 * The migration as the script runs it, against two durable stores that it updates in place.
 *
 * A hostile run may be killed, may have any write fail, and shares the notebooks with users
 * who save between its statements.  Every execution is shown to be a run of the step machine,
 * and an execution that is not hostile is the undisturbed pass.
 */
module Migrator {
  import opened Wrappers
  import opened NotebookCleaning
  import opened MigrationProtocol
  import opened MigrationSafety

  /** `run` leads from `w0` to `w`. */
  ghost predicate Leads(h: Hash, w0: World, run: seq<Label>, w: World) {
    WellFormed(w0) && CanRun(h, w0, run) && Run(h, w0, run) == w
  }

  lemma LeadsOn(h: Hash, w0: World, run: seq<Label>, w: World, l: Label)
    requires Leads(h, w0, run, w) && WellFormed(w) && Enabled(w, l)
    ensures Leads(h, w0, run + [l], Do(h, w, l))
  {
    DoWellFormed(h, w, l);
    RunAppend(h, w0, run, [l]);
  }

  class Stores {
    var disk: map<Path, File>
    var state: seq<string>
    const h: Hash

    constructor (h: Hash, disk: map<Path, File>, state: seq<string>)
      ensures this.h == h && this.disk == disk && this.state == state
    {
      this.h, this.disk, this.state := h, disk, state;
    }

    ghost function AsWorld(process: Process): World
      reads this
    {
      World(disk, state, process)
    }

    /** Left undisturbed, the process ends the same way from `w` and from `v`. */
    ghost predicate SettlesAs(w: World, v: World)
      requires WellFormed(w) && WellFormed(v) && w.process.Running?
    {
      Settle(h, w) == if v.process.Idle? then v else Settle(h, v)
    }

    /** What the outside does between two statements: any number of saves, and possibly the kill. */
    method Outside(hostile: bool, ghost w0: World, ghost run: seq<Label>, ghost process: Process)
      returns (killed: bool, ghost longer: seq<Label>)
      requires process.Running? && WellFormed(AsWorld(process)) && Leads(h, w0, run, AsWorld(process))
      modifies this`disk
      ensures Leads(h, w0, longer, AsWorld(if killed then Idle else process))
      ensures !hostile ==> !killed && longer == run && disk == old(disk)
    {
      longer := run;
      killed := false;
      if hostile {
        var saves: seq<(Path, Option<File>)> := *;
        for k := 0 to |saves|
          invariant Leads(h, w0, longer, AsWorld(process)) && WellFormed(AsWorld(process))
        {
          var (path, file) := saves[k];
          LeadsOn(h, w0, longer, AsWorld(process), UserSave(path, file));
          longer := longer + [UserSave(path, file)];
          disk := if file.Some? then disk[path := file.value] else disk - {path};
        }
        killed := *;
        if killed {
          LeadsOn(h, w0, longer, AsWorld(process), Crash);
          longer := longer + [Crash];
        }
      }
    }

    /** Replace the state file; false when it could not be written. */
    method WriteState(lines: seq<string>, hostile: bool) returns (ok: bool)
      modifies this`state
      ensures state == (if ok then lines else old(state))
      ensures !hostile ==> ok
    {
      ok := true;
      if hostile { ok := *; }
      if ok { state := lines; }
    }

    /** Move the staged copy onto the notebook if that still hashes to `before`. */
    method Publish(path: Path, clean: File, before: Digest, hostile: bool) returns (ok: bool)
      modifies this`disk
      ensures ok ==> path in old(disk) && h(old(disk)[path]) == before
      ensures !hostile ==> (ok <==> path in old(disk) && h(old(disk)[path]) == before)
      ensures disk == (if ok then old(disk)[path := clean] else old(disk))
    {
      if path !in disk || h(disk[path]) != before { return false; }
      ok := true;
      if hostile { ok := *; }
      if ok { disk := disk[path := clean]; }
    }

    /**
     * Clean every notebook the state file says we own, recording each one before it is
     * published.  `run` tells what happened.
     */
    method Migrate(hostile: bool) returns (ghost run: seq<Label>)
      modifies this
      ensures Leads(h, old(AsWorld(Idle)), run, AsWorld(Idle))
      ensures !hostile ==> AsWorld(Idle) == Pass(h, old(AsWorld(Idle)))
    {
      ghost var w0 := AsWorld(Idle);
      var lines, out, i := state, state, 0;
      run := [Start];
      LeadsOn(h, w0, [], w0, Start);
      assert [] + [Start] == run;
      while i < |lines|
        invariant i <= |lines| == |out| == |state|
        invariant Leads(h, w0, run, AsWorld(Running(lines, out, i, Checking)))
        invariant !hostile ==> Settle(h, AsWorld(Running(lines, out, i, Checking))) == Pass(h, w0)
      {
        var killed, dead;
        ghost var w := AsWorld(Running(lines, out, i, Checking));
        killed, run := Outside(hostile, w0, run, w.process);
        if killed { return; }
        out, dead, run := MigrateLine(lines, out, i, hostile, w0, run);
        if dead { return; }
        i := i + 1;
      }
      LeadsOn(h, w0, run, AsWorld(Running(lines, out, i, Checking)), Finish);
      run := run + [Finish];
    }

    /** The loop body for line `i`; `dead` when the process ends here. */
    method MigrateLine(lines: seq<string>, out: seq<string>, i: nat, hostile: bool, ghost w0: World, ghost run: seq<Label>)
      returns (out': seq<string>, dead: bool, ghost longer: seq<Label>)
      requires i < |lines| == |out| == |state|
      requires Leads(h, w0, run, AsWorld(Running(lines, out, i, Checking)))
      modifies this
      ensures |out'| == |lines| == |state|
      ensures Leads(h, w0, longer, AsWorld(if dead then Idle else Running(lines, out', i + 1, Checking)))
      ensures !hostile ==>
        SettlesAs(old(AsWorld(Running(lines, out, i, Checking))),
                  AsWorld(if dead then Idle else Running(lines, out', i + 1, Checking)))
    {
      ghost var w := AsWorld(Running(lines, out, i, Checking));
      out', dead, longer := out, false, run + [Advance];
      LeadsOn(h, w0, run, w, Advance);
      ghost var w1 := Next(h, w);

      var record := SplitRecord(lines[i]);
      if record.None? { return; }
      var Record(digest, path) := record.value;
      if !(EndsWith(path, ".ipynb") && path in disk) { return; }
      if hostile {
        var unreadable := *;
        if unreadable {
          LeadsOn(h, w0, run, w, ReadFails);
          longer := run + [ReadFails];
          return;
        }
      }
      var before := h(disk[path]);
      var cleaning := StageClean(disk[path]);
      if cleaning.Raises? { dead := true; return; }
      if cleaning.Unchanged? { return; }
      var clean := cleaning.file;
      if before != digest {
        if h(clean) == digest {
          dead, longer := ResumePublish(lines, out, i, path, clean, before, hostile, w0, longer);
        }
        return;
      }
      out', dead, longer := RecordThenPublish(lines, out, i, path, clean, before, hostile, w0, longer);
    }

    /** Finish a publish that was cut off after its record landed. */
    method ResumePublish(lines: seq<string>, out: seq<string>, i: nat, path: Path, clean: File, before: Digest,
                         hostile: bool, ghost w0: World, ghost run: seq<Label>)
      returns (dead: bool, ghost longer: seq<Label>)
      requires i < |lines| == |out| == |state| && path == LinePath(lines[i])
      requires Leads(h, w0, run, AsWorld(Running(lines, out, i, Resuming(before, clean))))
      modifies this`disk
      ensures Leads(h, w0, longer, AsWorld(if dead then Idle else Running(lines, out, i + 1, Checking)))
      ensures !hostile ==>
        && !dead
        && SettlesAs(old(AsWorld(Running(lines, out, i, Resuming(before, clean)))),
                     AsWorld(Running(lines, out, i + 1, Checking)))
    {
      dead, longer := Outside(hostile, w0, run, Running(lines, out, i, Resuming(before, clean)));
      if dead { return; }
      ghost var w := AsWorld(Running(lines, out, i, Resuming(before, clean)));
      var ok := Publish(path, clean, before, hostile);
      ghost var l := if ok then Advance else PublishFails;
      LeadsOn(h, w0, longer, w, l);
      longer := longer + [l];
    }

    /** Record the cleaned bytes, then publish them. */
    method RecordThenPublish(lines: seq<string>, out: seq<string>, i: nat, path: Path, clean: File, before: Digest,
                             hostile: bool, ghost w0: World, ghost run: seq<Label>)
      returns (out': seq<string>, dead: bool, ghost longer: seq<Label>)
      requires i < |lines| == |out| == |state| && path == LinePath(lines[i])
      requires Leads(h, w0, run, AsWorld(Running(lines, out, i, Staged(before, clean))))
      modifies this
      ensures |out'| == |lines| == |state|
      ensures Leads(h, w0, longer, AsWorld(if dead then Idle else Running(lines, out', i + 1, Checking)))
      ensures !hostile ==>
        && !dead
        && SettlesAs(old(AsWorld(Running(lines, out, i, Staged(before, clean)))),
                     AsWorld(Running(lines, out', i + 1, Checking)))
    {
      ghost var staged := Running(lines, out, i, Staged(before, clean));
      out' := out;
      dead, longer := Outside(hostile, w0, run, staged);
      if dead { return; }
      ghost var w := AsWorld(staged);
      out' := out[i := FormatRecord(h(clean), path)];
      var ok := WriteState(out', hostile);
      ghost var l := if ok then Advance else RecordFails;
      LeadsOn(h, w0, longer, w, l);
      longer := longer + [l];
      if !ok {
        dead := true;
        return;
      }
      out', dead, longer := PublishRecorded(lines, out', i, path, clean, before, hostile, w0, longer);
    }

    /** Publish what has been recorded; if nothing landed, take the record back off. */
    method PublishRecorded(lines: seq<string>, out: seq<string>, i: nat, path: Path, clean: File, before: Digest,
                           hostile: bool, ghost w0: World, ghost run: seq<Label>)
      returns (out': seq<string>, dead: bool, ghost longer: seq<Label>)
      requires i < |lines| == |out| == |state| && path == LinePath(lines[i])
      requires Leads(h, w0, run, AsWorld(Running(lines, out, i, Recorded(before, clean))))
      modifies this
      ensures |out'| == |lines| == |state|
      ensures Leads(h, w0, longer, AsWorld(if dead then Idle else Running(lines, out', i + 1, Checking)))
      ensures !hostile ==>
        && !dead
        && SettlesAs(old(AsWorld(Running(lines, out, i, Recorded(before, clean)))),
                     AsWorld(Running(lines, out', i + 1, Checking)))
    {
      ghost var recorded := Running(lines, out, i, Recorded(before, clean));
      out' := out;
      dead, longer := Outside(hostile, w0, run, recorded);
      if dead { return; }
      ghost var w := AsWorld(recorded);
      var ok := Publish(path, clean, before, hostile);
      ghost var l := if ok || !Fresh(h, w, path, before) then Advance else PublishFails;
      LeadsOn(h, w0, longer, w, l);
      longer := longer + [l];
      if ok { return; }
      out' := out[i := lines[i]];
      dead, longer := Withdrawn(lines, out', i, hostile, w0, longer);
    }

    method Withdrawn(lines: seq<string>, out: seq<string>, i: nat, hostile: bool, ghost w0: World, ghost run: seq<Label>)
      returns (dead: bool, ghost longer: seq<Label>)
      requires i < |lines| == |out| == |state|
      requires Leads(h, w0, run, AsWorld(Running(lines, out, i, Undoing)))
      modifies this
      ensures |state| == |lines|
      ensures Leads(h, w0, longer, AsWorld(if dead then Idle else Running(lines, out, i + 1, Checking)))
      ensures !hostile ==> !dead && SettlesAs(old(AsWorld(Running(lines, out, i, Undoing))), AsWorld(Running(lines, out, i + 1, Checking)))
    {
      dead, longer := Outside(hostile, w0, run, Running(lines, out, i, Undoing));
      if dead { return; }
      ghost var w := AsWorld(Running(lines, out, i, Undoing));
      var ok := WriteState(out, hostile);
      ghost var l := if ok then Advance else UndoFails;
      LeadsOn(h, w0, longer, w, l);
      longer := longer + [l];
    }
  }
}
