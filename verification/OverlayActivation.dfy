/**
 * The activation of scripts/apply_helix_backend_overlay.py: directory renames that may fail at
 * any step, with a rollback.  A directory keeps its identity across renames, so "the original"
 * means the directory that was there before, not an equal one.
 */
module OverlayActivation {
  import opened Wrappers
  import opened OverlayManifest

  /** The names used under the studio root; all but Current carry fresh random suffixes. */
  datatype Name = Current | Stage | Backup | Failed

  datatype Directory = Directory(original: bool, tree: Tree)

  type Disk = map<Name, Directory>

  /** The untouched original stands under exactly one of the two names. */
  predicate KeptAt(d: Disk, tree: Tree, name: Name) {
    && (name in d && d[name] == Directory(true, tree))
    && (forall n :: n in d && n != name ==> !d[n].original)
  }

  predicate Kept(d: Disk, tree: Tree) {
    KeptAt(d, tree, Current) || KeptAt(d, tree, Backup)
  }

  datatype Outcome = AlreadyCurrent | Applied | Raised

  /**
   * The studio root with everything the outside decides: `works(n)` says whether the n-th
   * operation succeeds, `left(n)` what a deletion or copy that fails half-way leaves behind.
   */
  class StudioRoot {
    var disk: Disk
    var step: nat
    const works: nat -> bool
    const left: nat -> Option<Tree>
    ghost var history: seq<Disk>

    ghost predicate Valid() reads this {
      && |history| > 0 && history[|history| - 1] == disk
    }

    constructor (tree: Tree, works: nat -> bool, left: nat -> Option<Tree>)
      ensures Valid() && disk == map[Current := Directory(true, tree)] && step == 0 && history == [disk]
      ensures this.works == works && this.left == left
    {
      disk, step := map[Current := Directory(true, tree)], 0;
      this.works, this.left := works, left;
      history := [map[Current := Directory(true, tree)]];
    }

    /** `os.replace` on directories; onto an existing one it fails. */
    method Replace(from: Name, to: Name) returns (ok: bool)
      requires Valid() && from in disk && to !in disk && from != to
      modifies this
      ensures Valid() && step == old(step) + 1 && history == old(history) + [disk]
      ensures ok == works(old(step))
      ensures disk == if ok then Moved(old(disk), from, to) else old(disk)
    {
      ok := works(step);
      if ok { disk := disk[to := disk[from]] - {from}; }
      step := step + 1;
      history := history + [disk];
    }

    /** `shutil.rmtree(..., ignore_errors=True)`: whatever cannot be deleted stays. */
    method Remove(name: Name)
      requires Valid()
      modifies this
      ensures Valid() && step == old(step) + 1 && history == old(history) + [disk]
      ensures Current in old(disk) && name != Current ==> Current in disk && disk[Current] == old(disk)[Current]
      ensures disk.Keys <= old(disk).Keys
      ensures Clears(left) ==> disk.Keys == old(disk).Keys - {name}
      ensures forall tree, at :: at != name && KeptAt(old(disk), tree, at) ==> KeptAt(disk, tree, at)
    {
      if name in disk {
        match left(step) {
          case None => disk := disk - {name};
          case Some(rest) => disk := disk[name := disk[name].(tree := rest)];
        }
      }
      step := step + 1;
      history := history + [disk];
    }

    /** `copytree`; a failure leaves a partial copy. */
    method CopyToStage(ghost tree: Tree) returns (ok: bool)
      requires Valid() && disk == map[Current := Directory(true, tree)]
      modifies this
      ensures Valid() && |old(history)| < |history| && Grown(old(history), history, tree)
      ensures ok == works(old(step))
      ensures KeptAt(disk, tree, Current)
      ensures ok ==> Staging(disk, tree) && disk[Stage].tree == Copied(tree)
    {
      ok := works(step);
      if ok {
        disk := disk[Stage := Directory(false, Copied(disk[Current].tree))];
      } else if left(step).Some? {
        disk := disk[Stage := Directory(false, left(step).value)];
      }
      step := step + 1;
      history := history + [disk];
    }

    /** `copy2`, or the runtime manifest's write-and-rename: one file of one tree. */
    method Put(name: Name, path: string, data: Bytes) returns (ok: bool)
      requires Valid() && name in disk
      modifies this
      ensures Valid() && step == old(step) + 1 && history == old(history) + [disk]
      ensures ok == works(old(step))
      ensures disk == old(disk)[name := old(disk)[name].(tree :=
        if ok then old(disk)[name].tree[path := File(data)] else old(disk)[name].tree)]
    {
      ok := works(step);
      if ok { disk := disk[name := disk[name].(tree := disk[name].tree[path := File(data)])]; }
      step := step + 1;
      history := history + [disk];
    }

    /** `_restore_backup`: the failed tree steps aside, and comes back if the backup cannot. */
    method RestoreBackup(ghost tree: Tree) returns (ok: bool)
      requires Valid() && disk.Keys == {Current, Backup} && KeptAt(disk, tree, Backup)
      modifies this
      ensures Valid() && Grown(old(history), history, tree)
      ensures ok <==> works(old(step)) && works(old(step) + 1)
      ensures KeptAt(disk, tree, if ok then Current else Backup)
      ensures Stage !in disk && (ok && Clears(left) ==> disk.Keys == {Current})
    {
      MoveKeeps(disk, tree, Backup, Current, Failed);
      var moved := Replace(Current, Failed);
      if !moved { return false; }
      MoveKeeps(disk, tree, Backup, Backup, Current);
      MoveKeeps(disk, tree, Backup, Failed, Current);
      ok := Replace(Backup, Current);
      if !ok {
        var back := Replace(Failed, Current);
        return;
      }
      Remove(Failed);
    }

    /** Lines 126-133: the two renames, with the first undone when the second fails. */
    method SwapIn(ghost tree: Tree) returns (ok: bool)
      requires Valid() && Staging(disk, tree)
      modifies this
      ensures Valid() && Grown(old(history), history, tree)
      ensures ok <==> works(old(step)) && works(old(step) + 1)
      ensures ok ==> step == old(step) + 2 && disk == map[Current := old(disk)[Stage], Backup := old(disk)[Current]]
      ensures !ok ==> KeptAt(disk, tree, if works(old(step)) && !works(old(step) + 2) then Backup else Current)
    {
      MoveKeeps(disk, tree, Current, Current, Backup);
      ok := Replace(Current, Backup);
      if !ok { return; }
      MoveKeeps(disk, tree, Backup, Stage, Current);
      MoveKeeps(disk, tree, Backup, Backup, Current);
      ok := Replace(Stage, Current);
      if !ok { var restored := Replace(Backup, Current); }
    }

    /** `_activate_stage`; `validates` is what importing the installed contract finds. */
    method ActivateStage(validates: Tree -> bool, ghost tree: Tree) returns (ok: bool)
      requires Valid() && Staging(disk, tree)
      modifies this
      ensures Valid() && Grown(old(history), history, tree)
      ensures ok <==> works(old(step)) && works(old(step) + 1) && works(old(step) + 2) && validates(old(disk)[Stage].tree)
      ensures ok ==> disk == map[Current := old(disk)[Stage], Backup := old(disk)[Current]]
      ensures !ok ==>
        KeptAt(disk, tree, if RollsBack(works, old(step), validates(old(disk)[Stage].tree)) then Current else Backup)
      ensures AllWork(works) && Clears(left) && !ok ==> disk.Keys == {Current}
    {
      ok := SwapIn(tree);
      if !ok { return; }
      ok := works(step) && validates(disk[Current].tree);
      step := step + 1;
      if !ok { var restored := RestoreBackup(tree); }
    }

    /** Lines 205-210: the overlay's files and the runtime manifest go into the stage. */
    method FillStage(overlay: Tree, meta: Manifest, ghost tree: Tree) returns (ok: bool)
      requires Valid() && Staging(disk, tree) && disk[Stage].tree == Copied(tree)
      requires forall p :: p in meta.files ==> p in overlay
      modifies this
      ensures Valid() && Grown(old(history), history, tree) && Staging(disk, tree)
      ensures ok ==> disk[Stage].tree == Staged(tree, overlay, meta)
      ensures AllWork(works) ==> ok
    {
      OverlaidNone(tree, overlay);
      assert meta.files[..0] == [];
      for i := 0 to |meta.files|
        invariant Valid() && Grown(old(history), history, tree) && Staging(disk, tree)
        invariant disk[Stage].tree == Overlaid(tree, overlay, meta.files[..i])
      {
        OverlaidNext(tree, overlay, meta.files, i);
        StagingPut(disk, tree, Overlaid(tree, overlay, meta.files[..i + 1]));
        StagingPut(disk, tree, disk[Stage].tree);
        ok := Put(Stage, meta.files[i], overlay[meta.files[i]].data);
        if !ok { return; }
      }
      assert meta.files[..|meta.files|] == meta.files;
      StagingPut(disk, tree, Staged(tree, overlay, meta));
      StagingPut(disk, tree, disk[Stage].tree);
      ok := Put(Stage, RUNTIME_MANIFEST, meta.payload);
    }

    /** The stage is filled and activated, or the original stays or comes back. */
    method FillAndActivate(overlay: Tree, meta: Manifest, validates: Tree -> bool, ghost tree: Tree) returns (ok: bool)
      requires Valid() && Staging(disk, tree) && disk[Stage].tree == Copied(tree)
      requires forall p :: p in meta.files ==> p in overlay
      modifies this
      ensures Valid() && Grown(old(history), history, tree) && (!ok ==> KeptAt(disk, tree, Current) || KeptAt(disk, tree, Backup))
      ensures ok ==>
        && disk == map[Current := Directory(false, Staged(tree, overlay, meta)), Backup := Directory(true, tree)]
        && validates(Staged(tree, overlay, meta))
      ensures AllWork(works) ==> if validates(Staged(tree, overlay, meta)) then ok else !ok && KeptAt(disk, tree, Current)
      ensures AllWork(works) && Clears(left) && !ok ==> disk.Keys == {Current}
    {
      ok := FillStage(overlay, meta, tree);
      if ok { ok := ActivateStage(validates, tree); }
    }

    /** Lines 202-216: copy, overlay, activate; the stage or the backup is cleared away at the end. */
    method Overlay(overlay: Tree, meta: Manifest, validates: Tree -> bool, ghost tree: Tree) returns (ok: bool)
      requires Valid() && disk == map[Current := Directory(true, tree)]
      requires forall p :: p in meta.files ==> p in overlay
      modifies this
      ensures Valid() && |old(history)| < |history|
      ensures Grown(old(history), if ok then history[..|history| - 1] else history, tree)
      ensures ok ==>
        && Current in disk && disk[Current] == Directory(false, Staged(tree, overlay, meta))
        && validates(disk[Current].tree)
      ensures AllWork(works) ==> if validates(Staged(tree, overlay, meta)) then ok else !ok && KeptAt(disk, tree, Current)
      ensures AllWork(works) && Clears(left) ==> disk.Keys == {Current}
    {
      ok := CopyToStage(tree);
      if !ok { return; }
      ok := FillAndActivate(overlay, meta, validates, tree);
      if ok { Remove(Backup); } else { Remove(Stage); }
    }

    /** Lines 193-201: a tree taken for current only gets its runtime manifest rewritten. */
    method Refresh(meta: Manifest, validates: Tree -> bool, ghost tree: Tree) returns (ok: bool)
      requires Valid() && disk == map[Current := Directory(true, tree)]
      modifies this
      ensures Valid() && |old(history)| < |history| && old(history) == history[..|old(history)|]
      ensures disk.Keys == {Current} && disk[Current].original
      ensures disk[Current].tree == tree || disk[Current].tree == tree[RUNTIME_MANIFEST := File(meta.payload)]
      ensures ok ==> validates(disk[Current].tree) && disk[Current].tree == tree[RUNTIME_MANIFEST := File(meta.payload)]
      ensures AllWork(works) ==>
        && disk[Current].tree == tree[RUNTIME_MANIFEST := File(meta.payload)]
        && (ok <==> validates(tree[RUNTIME_MANIFEST := File(meta.payload)]))
    {
      ok := Put(Current, RUNTIME_MANIFEST, meta.payload);
      ok := ok && works(step) && validates(disk[Current].tree);
    }

    /** `main`, from the manifest check on. */
    method Apply(hex: Bytes -> string, overlay: Tree, meta: Manifest, validates: Tree -> bool, ghost tree: Tree)
      returns (outcome: Outcome)
      requires Valid() && disk == map[Current := Directory(true, tree)]
      modifies this
      ensures Valid()
      // nothing happens without an acceptable manifest
      ensures !Accepts(hex, overlay, meta) ==> outcome == Raised && history == old(history)
      // a tree taken for current only gets its runtime manifest rewritten
      ensures Accepts(hex, overlay, meta) && TakesCurrent(hex, tree, meta) ==>
        && outcome != Applied
        && disk.Keys == {Current} && disk[Current].original
        && (disk[Current].tree == tree || disk[Current].tree == tree[RUNTIME_MANIFEST := File(meta.payload)])
        && (outcome == AlreadyCurrent ==>
              validates(disk[Current].tree) && disk[Current].tree == tree[RUNTIME_MANIFEST := File(meta.payload)])
        && (AllWork(works) ==>
              && disk[Current].tree == tree[RUNTIME_MANIFEST := File(meta.payload)]
              && (outcome == AlreadyCurrent <==> validates(tree[RUNTIME_MANIFEST := File(meta.payload)])))
      // otherwise the original survives every step, under one name, until success
      ensures Accepts(hex, overlay, meta) && !TakesCurrent(hex, tree, meta) ==>
        && outcome != AlreadyCurrent && |old(history)| < |history|
        && Grown(old(history), if outcome == Applied then history[..|history| - 1] else history, tree)
      ensures outcome == Applied ==>
        && Current in disk && disk[Current] == Directory(false, Staged(tree, overlay, meta))
        && validates(disk[Current].tree)
      // with every rename working, the validator alone decides, and a refusal restores the original
      ensures AllWork(works) && Accepts(hex, overlay, meta) && !TakesCurrent(hex, tree, meta) ==>
        if validates(Staged(tree, overlay, meta)) then outcome == Applied
        else outcome == Raised && KeptAt(disk, tree, Current)
      // and nothing but the backend is left behind
      ensures AllWork(works) && Clears(left) ==> disk.Keys == {Current}
    {
      var ok := ManifestFiles(hex, overlay, meta);
      if !ok { return Raised; }
      var digest := InstalledDigest(hex, disk[Current].tree, meta.files);
      if meta.treeSha != "" && digest == Some(meta.treeSha) {
        ok := Refresh(meta, validates, tree);
        return if ok then AlreadyCurrent else Raised;
      }
      outcome := Install(overlay, meta, validates, tree);
    }

    method Install(overlay: Tree, meta: Manifest, validates: Tree -> bool, ghost tree: Tree) returns (outcome: Outcome)
      requires Valid() && disk == map[Current := Directory(true, tree)]
      requires forall p :: p in meta.files ==> p in overlay
      modifies this
      ensures Valid() && outcome != AlreadyCurrent && |old(history)| < |history|
      ensures Grown(old(history), if outcome == Applied then history[..|history| - 1] else history, tree)
      ensures outcome == Applied ==>
        && Current in disk && disk[Current] == Directory(false, Staged(tree, overlay, meta))
        && validates(disk[Current].tree)
      ensures AllWork(works) ==>
        if validates(Staged(tree, overlay, meta)) then outcome == Applied
        else outcome == Raised && KeptAt(disk, tree, Current)
      ensures AllWork(works) && Clears(left) ==> disk.Keys == {Current}
    {
      var ok := Overlay(overlay, meta, validates, tree);
      outcome := if ok then Applied else Raised;
    }
  }

  lemma StagedAgain(tree: Tree, overlay: Tree, meta: Manifest)
    requires forall p :: p in meta.files ==> p in overlay
    ensures Staged(tree, overlay, meta)[RUNTIME_MANIFEST := File(meta.payload)] == Staged(tree, overlay, meta)
  {
  }

  /**
   * Two starts in a row.  After one that applied the overlay, and with every operation of the next working,
   * that finds the backend current and says so, exactly unless the manifest lists the runtime manifest with
   * other bytes.
   */
  method RunTwice(hex: Bytes -> string, overlay: Tree, meta: Manifest, validates: Tree -> bool, tree: Tree,
                  works: nat -> bool, left: nat -> Option<Tree>, laterWorks: nat -> bool)
    returns (first: Outcome, second: Option<Outcome>)
    requires WellFormed(overlay)
    requires (forall p :: p in meta.files ==> p in overlay) ==>
               GoodHash(hex, Hashed(hex, overlay, meta.files) + Hashed(hex, Staged(tree, overlay, meta), meta.files))
    ensures second.Some? <==> first == Applied
    ensures first == Applied ==> forall p :: p in meta.files ==> p in overlay
    ensures first == Applied && AllWork(laterWorks) ==>
      (second == Some(AlreadyCurrent) <==> (RUNTIME_MANIFEST in meta.files ==> overlay[RUNTIME_MANIFEST].data == meta.payload))
  {
    var root := new StudioRoot(tree, works, left);
    first := root.Apply(hex, overlay, meta, validates, tree);
    if first != Applied { return first, None; }
    var staged := root.disk[Current].tree;
    NextRunIsCurrentIff(hex, tree, overlay, meta);
    StagedAgain(tree, overlay, meta);
    var again := new StudioRoot(staged, laterWorks, left);
    var outcome := again.Apply(hex, overlay, meta, validates, staged);
    second := Some(outcome);
  }

  /** The stage is being filled beside the untouched original. */
  predicate Staging(d: Disk, tree: Tree) {
    d.Keys == {Current, Stage} && KeptAt(d, tree, Current)
  }

  lemma StagingPut(d: Disk, tree: Tree, stage: Tree)
    requires Staging(d, tree)
    ensures Staging(d[Stage := d[Stage].(tree := stage)], tree)
  {
  }

  ghost predicate AllWork(works: nat -> bool) {
    forall n :: works(n)
  }

  /** No deletion leaves anything behind. */
  ghost predicate Clears(left: nat -> Option<Tree>) {
    forall n :: left(n).None?
  }

  /** Line 193: whether the installed tree is taken for current. */
  ghost predicate TakesCurrent(hex: Bytes -> string, tree: Tree, meta: Manifest) {
    meta.treeSha != "" && LooksCurrent(hex, tree, meta)
  }

  function Moved(d: Disk, from: Name, to: Name): Disk
    requires from in d
  {
    d[to := d[from]] - {from}
  }

  /** A rename takes the original along, or leaves it where it is. */
  lemma MoveKeeps(d: Disk, tree: Tree, name: Name, from: Name, to: Name)
    requires from in d && to !in d && from != to && KeptAt(d, tree, name)
    ensures KeptAt(Moved(d, from, to), tree, if name == from then to else name)
  {
  }

  /** The history only grows, and the original is intact in every state added to it. */
  ghost predicate Grown(before: seq<Disk>, after: seq<Disk>, tree: Tree) {
    && before <= after
    && (forall i :: |before| <= i < |after| ==> Kept(after[i], tree))
  }

  /** When a failed activation, begun at operation `n`, ends with the original back in place. */
  predicate RollsBack(works: nat -> bool, n: nat, valid: bool) {
    || !works(n)
    || (!works(n + 1) && works(n + 2))
    || (works(n + 1) && !(works(n + 2) && valid) && works(n + 3) && works(n + 4))
  }
}
