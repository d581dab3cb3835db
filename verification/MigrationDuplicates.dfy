/**
 * Two records of one notebook: when a pass of the migration leaves one of them stranded.
 *
 * The pass is taken line by line here, so that paths need not be distinct.
 */
module MigrationDuplicates {
  import opened Wrappers
  import opened NotebookCleaning
  import opened MigrationProtocol
  import opened MigrationSafety

  // ---------------------------------------------------------------- one line at a time

  /** The process is about to look at line `i`, with nothing pending. */
  ghost predicate Turn(w: World, i: nat) {
    && WellFormed(w) && AtLine(w, i) && w.process.point.Checking?
    && w.process.out == w.state
    && forall m :: i <= m < |w.state| ==> w.process.lines[m] == w.state[m]
  }

  /** What the undisturbed process makes of line `i`. */
  function Turned(h: Hash, w: World, i: nat): World
    requires Turn(w, i) && i < |w.state| && !Poisoned(w, i)
  {
    var line := w.state[i];
    if SplitRecord(line).Some? && Claimed(h, w.disk, line) && Clean(w.disk[LinePath(line)]).Cleaned? then
      var file := w.disk[LinePath(line)];
      var clean := CleanOnce(file);
      var state := if Matches(h, file, LineDigest(line)) then w.state[i := FormatRecord(h(clean), LinePath(line))] else w.state;
      World(w.disk[LinePath(line) := clean], state, Running(w.process.lines, state, i + 1, Checking))
    else Skip(w)
  }

  lemma TurnedIsTurn(h: Hash, w: World, i: nat)
    requires Turn(w, i) && i < |w.state| && !Poisoned(w, i)
    ensures Turn(Turned(h, w, i), i + 1) && |Turned(h, w, i).state| == |w.state|
  {
  }

  lemma SettleSkips(h: Hash, w: World, v: World)
    requires WellFormed(w) && w.process.Running? && w.process.i < |w.process.lines|
    requires v == Next(h, w) && WellFormed(v) && v.process.Running?
    ensures Settle(h, w) == Settle(h, v)
  {
  }

  lemma TurnPublishes(h: Hash, w: World, i: nat)
    requires Turn(w, i) && i < |w.state| && !Poisoned(w, i) && SplitRecord(w.state[i]).Some?
    requires Claimed(h, w.disk, w.state[i]) && Matches(h, w.disk[LinePath(w.state[i])], LineDigest(w.state[i]))
    requires Clean(w.disk[LinePath(w.state[i])]).Cleaned?
    ensures Settle(h, w) == Settle(h, Turned(h, w, i))
  {
    var a := Next(h, w);
    var b := Next(h, a);
    SettleSkips(h, w, a);
    SettleSkips(h, a, b);
    SettleSkips(h, b, Turned(h, w, i));
  }

  lemma TurnResumes(h: Hash, w: World, i: nat)
    requires Turn(w, i) && i < |w.state| && !Poisoned(w, i) && SplitRecord(w.state[i]).Some?
    requires Claimed(h, w.disk, w.state[i]) && !Matches(h, w.disk[LinePath(w.state[i])], LineDigest(w.state[i]))
    ensures Settle(h, w) == Settle(h, Turned(h, w, i))
  {
    var a := Next(h, w);
    SettleSkips(h, w, a);
    SettleSkips(h, a, Turned(h, w, i));
  }

  lemma TurnSettles(h: Hash, w: World, i: nat)
    requires Turn(w, i) && i < |w.state| && !Poisoned(w, i)
    ensures Settle(h, w) == Settle(h, Turned(h, w, i))
  {
    var line := w.state[i];
    TurnedIsTurn(h, w, i);
    if SplitRecord(line).Some? && Claimed(h, w.disk, line) && Clean(w.disk[LinePath(line)]).Cleaned? {
      if Matches(h, w.disk[LinePath(line)], LineDigest(line)) {
        TurnPublishes(h, w, i);
      } else {
        TurnResumes(h, w, i);
      }
    } else {
      SettleSkips(h, w, Skip(w));
    }
  }

  /** Cleaning never makes a notebook the next cleaning dies on. */
  lemma TurnedStaysClear(h: Hash, w: World, i: nat)
    requires Faithful(h) && Turn(w, i) && i < |w.state| && Clear(w)
    ensures Clear(Turned(h, w, i))
  {
    var v, path := Turned(h, w, i), LinePath(w.state[i]);
    if path in w.disk { CleanMakesProgress(w.disk[path]); }
    if SplitRecord(w.state[i]).Some? && path in w.disk { SplitFormat(h(CleanOnce(w.disk[path])), path); }
    forall m | 0 <= m < |v.state| ensures !Poisoned(v, m) {
      assert !Poisoned(w, m);
      assert SplitRecord(v.state[m]).Some? ==> SplitRecord(w.state[m]).Some? && LinePath(v.state[m]) == LinePath(w.state[m]);
    }
  }

  // ---------------------------------------------------------------- the two records

  /** Lines `j` and `k` are the records of `path`, and no other line is one. */
  predicate Twins(state: seq<string>, j: nat, k: nat, path: Path) {
    && j < k < |state| && EndsWith(path, ".ipynb")
    && SplitRecord(state[j]).Some? && LinePath(state[j]) == path
    && SplitRecord(state[k]).Some? && LinePath(state[k]) == path
    && forall m :: 0 <= m < |state| && m != j && m != k && SplitRecord(state[m]).Some? ==> LinePath(state[m]) != path
  }

  /** At the turn of line `i`: the notebook is `file`, the records hold the digests `dj` and `dk`. */
  ghost predicate View(w: World, i: nat, j: nat, k: nat, path: Path, file: File, dj: Digest, dk: Digest) {
    && Turn(w, i) && Clear(w) && Twins(w.state, j, k, path) && i <= |w.state|
    && OnDisk(w.disk, path) == Some(file) && LineDigest(w.state[j]) == dj && LineDigest(w.state[k]) == dk
  }

  predicate Owns(h: Hash, file: File, digest: Digest) {
    Matches(h, file, digest) || CleansTo(h, file, digest)
  }

  /** The notebook after a record with this digest had its turn, and the digest then recorded. */
  function FileAfter(h: Hash, file: File, digest: Digest): File {
    if Owns(h, file, digest) then CleanOnce(file) else file
  }

  function DigestAfter(h: Hash, file: File, digest: Digest): Digest {
    if Matches(h, file, digest) then h(CleanOnce(file)) else digest
  }

  lemma TurnElsewhere(h: Hash, w: World, i: nat, j: nat, k: nat, path: Path, file: File, dj: Digest, dk: Digest)
    requires Faithful(h) && View(w, i, j, k, path, file, dj, dk) && i < |w.state| && i != j && i != k
    ensures View(Turned(h, w, i), i + 1, j, k, path, file, dj, dk)
  {
    TurnedIsTurn(h, w, i);
    TurnedStaysClear(h, w, i);
    var p := LinePath(w.state[i]);
    if p in w.disk { SplitFormat(h(CleanOnce(w.disk[p])), p); }
  }

  lemma TurnOfFirst(h: Hash, w: World, j: nat, k: nat, path: Path, file: File, dj: Digest, dk: Digest)
    requires Faithful(h) && View(w, j, j, k, path, file, dj, dk)
    ensures View(Turned(h, w, j), j + 1, j, k, path, FileAfter(h, file, dj), DigestAfter(h, file, dj), dk)
  {
    TurnedIsTurn(h, w, j);
    TurnedStaysClear(h, w, j);
    SplitFormat(h(CleanOnce(file)), path);
  }

  lemma TurnOfSecond(h: Hash, w: World, j: nat, k: nat, path: Path, file: File, dj: Digest, dk: Digest)
    requires Faithful(h) && View(w, k, j, k, path, file, dj, dk)
    ensures View(Turned(h, w, k), k + 1, j, k, path, FileAfter(h, file, dk), dj, DigestAfter(h, file, dk))
  {
    TurnedIsTurn(h, w, k);
    TurnedStaysClear(h, w, k);
    SplitFormat(h(CleanOnce(file)), path);
  }

  /** Turns of other lines, up to line `to`. */
  lemma {:induction false} TurnsElsewhere(h: Hash, w: World, i: nat, to: nat, j: nat, k: nat, path: Path,
                                          file: File, dj: Digest, dk: Digest) returns (v: World)
    requires Faithful(h) && View(w, i, j, k, path, file, dj, dk) && i <= to <= |w.state|
    requires !(i <= j < to) && !(i <= k < to)
    ensures View(v, to, j, k, path, file, dj, dk) && |v.state| == |w.state| && Settle(h, w) == Settle(h, v)
    decreases if i < to then to - i else 0
  {
    v := w;
    if i < to {
      TurnSettles(h, w, i);
      TurnElsewhere(h, w, i, j, k, path, file, dj, dk);
      TurnedIsTurn(h, w, i);
      v := TurnsElsewhere(h, Turned(h, w, i), i + 1, to, j, k, path, file, dj, dk);
    }
  }

  /** One pass: the first record has its turn on the notebook, then the second on what that left. */
  lemma PassOverTwins(h: Hash, w: World, j: nat, k: nat, path: Path, file: File)
    requires Faithful(h) && w.process.Idle? && Clear(w) && Twins(w.state, j, k, path) && OnDisk(w.disk, path) == Some(file)
    ensures var dj, dk := LineDigest(w.state[j]), LineDigest(w.state[k]);
      var mid := FileAfter(h, file, dj);
      var v := Pass(h, w);
      && Twins(v.state, j, k, path) && OnDisk(v.disk, path) == Some(FileAfter(h, mid, dk))
      && LineDigest(v.state[j]) == DigestAfter(h, file, dj) && LineDigest(v.state[k]) == DigestAfter(h, mid, dk)
  {
    var dj, dk, n := LineDigest(w.state[j]), LineDigest(w.state[k]), |w.state|;
    var w0 := Do(h, w, Start);
    assert forall m :: 0 <= m < n ==> Poisoned(w0, m) == Poisoned(w, m);
    var w1 := TurnsElsewhere(h, w0, 0, j, j, k, path, file, dj, dk);
    TurnSettles(h, w1, j);
    TurnOfFirst(h, w1, j, k, path, file, dj, dk);
    var mid, ej := FileAfter(h, file, dj), DigestAfter(h, file, dj);
    var w2 := TurnsElsewhere(h, Turned(h, w1, j), j + 1, k, j, k, path, mid, ej, dk);
    TurnSettles(h, w2, k);
    TurnOfSecond(h, w2, j, k, path, mid, ej, dk);
    var w3 := TurnsElsewhere(h, Turned(h, w2, k), k + 1, n, j, k, path, FileAfter(h, mid, dk), ej, DigestAfter(h, mid, dk));
    assert Settle(h, w3) == Do(h, w3, Finish);
  }

  // ---------------------------------------------------------------- who is stranded

  /** A record whose notebook was cleaned under it is lost: no cleaning leads back. */
  lemma CleanedAway(h: Hash, file: File)
    requires Faithful(h) && Clean(file).Cleaned?
    ensures !Owns(h, CleanOnce(file), h(file))
  {
    CleanMakesProgress(file);
    CleanMakesProgress(CleanOnce(file));
  }

  lemma TurnKeepsOwned(h: Hash, file: File, digest: Digest)
    requires Faithful(h) && Owns(h, file, digest) && !Clean(file).Raises?
    ensures DigestAfter(h, file, digest) == h(FileAfter(h, file, digest))
  {
  }

  /**
   * The later record of a notebook is stranded by a pass exactly when it matched a notebook that
   * needs cleaning and the earlier record had it cleaned first.
   */
  lemma LaterTwinStrandedIff(h: Hash, w: World, j: nat, k: nat, path: Path, file: File)
    requires Faithful(h) && w.process.Idle? && Clear(w) && Twins(w.state, j, k, path) && OnDisk(w.disk, path) == Some(file)
    requires Recoverable(h, w.disk, w.state[k])
    ensures k < |Pass(h, w).state|
    ensures !Recoverable(h, Pass(h, w).disk, Pass(h, w).state[k]) <==>
      && Clean(file).Cleaned? && Matches(h, file, LineDigest(w.state[k]))
      && (Matches(h, file, LineDigest(w.state[j])) || CleansTo(h, file, LineDigest(w.state[j])))
  {
    PassOverTwins(h, w, j, k, path, file);
    var dj, dk := LineDigest(w.state[j]), LineDigest(w.state[k]);
    var mid := FileAfter(h, file, dj);
    assert !Poisoned(w, j);
    CleanMakesProgress(file);
    if Clean(file).Cleaned? { CleanedAway(h, file); }
    if Owns(h, mid, dk) { TurnKeepsOwned(h, mid, dk); }
  }

  /** The earlier record is stranded exactly when the notebook still needs cleaning after it and the later record has that done. */
  lemma EarlierTwinStrandedIff(h: Hash, w: World, j: nat, k: nat, path: Path, file: File)
    requires Faithful(h) && w.process.Idle? && Clear(w) && Twins(w.state, j, k, path) && OnDisk(w.disk, path) == Some(file)
    requires Recoverable(h, w.disk, w.state[j])
    ensures j < |Pass(h, w).state|
    ensures var once := CleanOnce(file);
      !Recoverable(h, Pass(h, w).disk, Pass(h, w).state[j]) <==>
      && Clean(once).Cleaned?
      && (Matches(h, once, LineDigest(w.state[k])) || CleansTo(h, once, LineDigest(w.state[k])))
  {
    PassOverTwins(h, w, j, k, path, file);
    var once := CleanOnce(file);
    assert !Poisoned(w, j);
    CleanMakesProgress(file);
    TurnKeepsOwned(h, file, LineDigest(w.state[j]));
    if Clean(once).Cleaned? { CleanedAway(h, once); }
  }

  /** Two equal records of a notebook that needs cleaning: after a pass the second neither matches nor cleans to its notebook. */
  lemma DuplicateRecordStrands(h: Hash) returns (w: World)
    requires Faithful(h)
    ensures WellFormed(w) && w.process.Idle? && |w.state| == 2
    ensures Recoverable(h, w.disk, w.state[0]) && Recoverable(h, w.disk, w.state[1])
    ensures |Pass(h, w).state| == 2 && !Recoverable(h, Pass(h, w).disk, Pass(h, w).state[1])
  {
    var dirty, path := Json(Notebook(None, Some(map["widgets" := "state"]), ""), 0), "a.ipynb";
    var line := FormatRecord(h(dirty), path);
    SplitFormat(h(dirty), path);
    w := World(map[path := dirty], [line, line], Idle);
    assert Clean(dirty).Cleaned?;
    PassKeepsShape(h, w);
    LaterTwinStrandedIff(h, w, 0, 1, path, dirty);
  }
}
