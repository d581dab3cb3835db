/**
 * `terminate_owned_processes` of scripts/benchmark-helix-v3-source-runtime.py, run against the
 * process table while every other process keeps acting.
 *
 * What `ps` reports is arbitrary input here: the safety of the signals does not rest on it.
 */
module Termination {
  import opened Wrappers
  import opened Kernel
  import opened ProcessFence

  /** One captured row; the identity token is everything but the pid and the parent. */
  datatype Identity = Identity(pid: Pid, ppid: Pid, pgid: Pid, sid: Pid, start: string, command: string)

  predicate SameToken(a: Identity, b: Identity) {
    a.start == b.start && a.command == b.command && a.pgid == b.pgid && a.sid == b.sid
  }

  predicate HasToken(i: Identity) {
    i.start != "" && i.command != "" && i.pgid > 0 && i.sid > 0
  }

  datatype Lifetime = RunningChild | ExitedUnreaped | Lost | Unknown

  datatype Observation = NotObserved | Unavailable | Mismatch | Absent | Unproven | Observed

  /** The root leads its own session and group, which is not the harness's. */
  predicate ValidGroup(root: Pid, pgid: Option<Pid>, identity: Option<Identity>, ownGroup: Pid) {
    && pgid == Some(root) && root > 0
    && identity.Some? && HasToken(identity.value)
    && identity.value.pgid == root && identity.value.sid == root
    && ownGroup != root
  }

  /** An exited but unreaped root shows as defunct and is otherwise unchanged. */
  predicate DefunctRoot(expected: Identity, observed: Identity, lifetime: Lifetime) {
    && lifetime == ExitedUnreaped
    && observed.(command := "") == expected.(command := "")
    && (observed.command == "<defunct>" || observed.command == expected.command + " <defunct>")
  }

  predicate Agrees(root: Pid, expected: Identity, observed: Identity, lifetime: Lifetime, pid: Pid) {
    SameToken(expected, observed) || (pid == root && DefunctRoot(expected, observed, lifetime))
  }

  predicate Vouches(root: Pid, expected: Identity, observed: Identity, lifetime: Lifetime, pid: Pid) {
    if SameToken(expected, observed) then observed.pgid == root
    else pid == root && DefunctRoot(expected, observed, lifetime)
  }

  ghost predicate AllAgree(root: Pid, expected: map<Pid, Identity>, rows: map<Pid, Identity>, lifetime: Lifetime, pids: set<Pid>) {
    forall p :: p in pids && p in expected && p in rows ==> Agrees(root, expected[p], rows[p], lifetime, p)
  }

  ghost predicate SomeVouches(root: Pid, expected: map<Pid, Identity>, rows: map<Pid, Identity>, lifetime: Lifetime, pids: set<Pid>) {
    exists p :: p in pids && p in expected && p in rows && Vouches(root, expected[p], rows[p], lifetime, p)
  }

  predicate HasMembers(root: Pid, rows: map<Pid, Identity>) {
    exists p :: p in rows && rows[p].pgid == root
  }

  /** One captured identity against the fresh snapshot. */
  method CheckIdentity(root: Pid, expected: map<Pid, Identity>, rows: map<Pid, Identity>, lifetime: Lifetime, p: Pid,
                       ghost done: set<Pid>, mismatch: bool, matched: bool)
    returns (mismatch': bool, matched': bool)
    requires p in expected
    requires mismatch <==> !AllAgree(root, expected, rows, lifetime, done)
    requires matched <==> SomeVouches(root, expected, rows, lifetime, done)
    ensures mismatch' <==> !AllAgree(root, expected, rows, lifetime, done + {p})
    ensures matched' <==> SomeVouches(root, expected, rows, lifetime, done + {p})
  {
    mismatch', matched' := mismatch, matched;
    if p in rows {
      if !Agrees(root, expected[p], rows[p], lifetime, p) {
        mismatch' := true;
      } else if Vouches(root, expected[p], rows[p], lifetime, p) {
        matched' := true;
      }
    }
    AllAgreeNext(root, expected, rows, lifetime, done, p);
    SomeVouchesNext(root, expected, rows, lifetime, done, p);
  }

  lemma AllAgreeNext(root: Pid, expected: map<Pid, Identity>, rows: map<Pid, Identity>, lifetime: Lifetime, done: set<Pid>, p: Pid)
    requires p in expected
    ensures AllAgree(root, expected, rows, lifetime, done + {p}) <==>
      AllAgree(root, expected, rows, lifetime, done) && (p in rows ==> Agrees(root, expected[p], rows[p], lifetime, p))
  {
  }

  lemma SomeVouchesNext(root: Pid, expected: map<Pid, Identity>, rows: map<Pid, Identity>, lifetime: Lifetime, done: set<Pid>, p: Pid)
    requires p in expected
    ensures SomeVouches(root, expected, rows, lifetime, done + {p}) <==>
      SomeVouches(root, expected, rows, lifetime, done) || (p in rows && Vouches(root, expected[p], rows[p], lifetime, p))
  {
  }

  /** Compare a fresh snapshot with the captured identities. */
  method Revalidate(root: Pid, expected: map<Pid, Identity>, snapshot: Option<map<Pid, Identity>>, lifetime: Lifetime)
    returns (ready: bool, observation: Observation)
    ensures ready <==> observation == Absent || observation == Observed
    ensures observation == Unavailable <==> snapshot.None?
    ensures snapshot.Some? ==> (observation == Mismatch <==> !AllAgree(root, expected, snapshot.value, lifetime, expected.Keys))
    ensures observation == Absent ==> !HasMembers(root, snapshot.value)
    ensures observation == Observed ==>
      HasMembers(root, snapshot.value) && SomeVouches(root, expected, snapshot.value, lifetime, expected.Keys)
    ensures observation == Unproven ==>
      HasMembers(root, snapshot.value) && !SomeVouches(root, expected, snapshot.value, lifetime, expected.Keys)
    ensures observation != NotObserved
  {
    if snapshot.None? { return false, Unavailable; }
    var rows := snapshot.value;
    var mismatch, matched := CheckIdentities(root, expected, rows, lifetime);
    if mismatch { return false, Mismatch; }
    if !HasMembers(root, rows) { return true, Absent; }
    if !matched { return false, Unproven; }
    return true, Observed;
  }

  /** The loop over the captured identities. */
  method CheckIdentities(root: Pid, expected: map<Pid, Identity>, rows: map<Pid, Identity>, lifetime: Lifetime)
    returns (mismatch: bool, matched: bool)
    ensures mismatch <==> !AllAgree(root, expected, rows, lifetime, expected.Keys)
    ensures matched <==> SomeVouches(root, expected, rows, lifetime, expected.Keys)
  {
    mismatch, matched := false, false;
    var todo, done := expected.Keys, {};
    while todo != {}
      invariant todo + done == expected.Keys && todo !! done
      invariant mismatch <==> !AllAgree(root, expected, rows, lifetime, done)
      invariant matched <==> SomeVouches(root, expected, rows, lifetime, done)
      decreases |todo|
    {
      var p :| p in todo;
      mismatch, matched := CheckIdentity(root, expected, rows, lifetime, p, done, mismatch, matched);
      todo, done := todo - {p}, done + {p};
    }
    assert done == expected.Keys;
  }

  /**
   * The harness with its `Popen` child.  While SIGCHLD has its default disposition only `Popen`
   * reaps the root; under any other, a handler or the kernel may reap it behind `Popen`'s back.
   */
  class Harness {
    var table: Table
    var returncode: Option<int>
    var sigchldDefault: bool
    const self: Pid
    const root: Pid
    ghost const r: Birth

    /** The root is fenced in or lost, and lost for certain once `Popen` has a return code. */
    ghost predicate Valid()
      reads this
    {
      && Pinned(table, self, root, r)
      && (returncode.Some? ==> Gone(table, self, root, r))
    }

    /** `Popen(..., start_new_session=True)` has returned. */
    constructor (table: Table, self: Pid, root: Pid, sigchldDefault: bool)
      requires Lawful(table) && self != INIT && Possible(table, Fork(self, root))
      ensures Valid() && returncode.None? && this.self == self && this.root == root && r == table.next
      ensures Fenced(this.table, self, root, r) && this.sigchldDefault == sigchldDefault
    {
      this.self, this.root, this.r := self, root, table.next;
      LaunchFences(table, self, root);
      this.table := Happen(Happen(table, Fork(self, root)), SetSid(root));
      returncode := None;
      this.sigchldDefault := sigchldDefault;
    }

    /** One event, if it may happen now; the root is reaped by others only if `reaping`. */
    method Step(e: Event, reaping: bool)
      requires Valid()
      modifies this`table
      ensures Valid()
      ensures Gone(old(table), self, root, r) ==> Gone(table, self, root, r)
      ensures Fenced(old(table), self, root, r) && !reaping ==> Fenced(table, self, root, r)
    {
      if Possible(table, e) && Harmless(e, self, root) && (e == Reap(self, root) ==> reaping) {
        HappenKeepsPinned(table, e, self, root, r);
        if Gone(table, self, root, r) {
          HappenKeepsGone(table, e, self, root, r);
        } else if e != Reap(self, root) {
          HappenKeepsFence(table, e, self, root, r);
        }
        table := Happen(table, e);
      }
    }

    /** The time between the launch and the end: anything may happen, SIGCHLD handlers come and go. */
    method Meanwhile()
      requires Valid()
      modifies this`table, this`sigchldDefault
      ensures Valid()
      ensures Gone(old(table), self, root, r) ==> Gone(table, self, root, r)
    {
      var budget: nat := *;
      while budget > 0
        invariant Valid()
        invariant Gone(old(table), self, root, r) ==> Gone(table, self, root, r)
      {
        var e: Event := *;
        sigchldDefault := *;
        Step(e, !sigchldDefault);
        budget := budget - 1;
      }
    }

    /**
     * What others do between two statements of the termination.  Unless `quiet`, other code of the
     * harness may take SIGCHLD from its default; the default does not come back meanwhile.
     */
    method Others(quiet: bool)
      requires Valid()
      modifies this`table, this`sigchldDefault
      ensures Valid()
      ensures Gone(old(table), self, root, r) ==> Gone(table, self, root, r)
      ensures sigchldDefault ==> old(sigchldDefault)
      ensures quiet ==> sigchldDefault == old(sigchldDefault)
      ensures Fenced(old(table), self, root, r) && sigchldDefault ==> Fenced(table, self, root, r)
    {
      var budget: nat := *;
      while budget > 0
        invariant Valid()
        invariant Gone(old(table), self, root, r) ==> Gone(table, self, root, r)
        invariant sigchldDefault ==> old(sigchldDefault)
        invariant quiet ==> sigchldDefault == old(sigchldDefault)
        invariant Fenced(old(table), self, root, r) && sigchldDefault ==> Fenced(table, self, root, r)
      {
        var e: Event := *;
        if !quiet {
          var taken := *;
          sigchldDefault := sigchldDefault && !taken;
        }
        Step(e, !sigchldDefault);
        budget := budget - 1;
      }
    }

    /** `waitid(P_PID, root, WEXITED | WNOHANG | WNOWAIT)`, which may itself fail. */
    method ProbeLifetime(fails: bool) returns (lifetime: Lifetime)
      requires Valid()
      ensures lifetime == Unknown <==> !sigchldDefault || fails
      ensures lifetime == Lost <==> sigchldDefault && !fails && Gone(table, self, root, r)
      ensures lifetime == RunningChild || lifetime == ExitedUnreaped <==> sigchldDefault && !fails && Fenced(table, self, root, r)
      ensures lifetime == ExitedUnreaped ==> table.procs[root].defunct
      ensures lifetime == RunningChild ==> Alive(table, root)
    {
      ProbeTells(table, self, root, r);
      if !sigchldDefault || fails { return Unknown; }
      if !IsChild(table, self, root) { return Lost; }
      return if table.procs[root].defunct then ExitedUnreaped else RunningChild;
    }

    /** `Popen.poll`: reap the root if it has exited, and take note if it is no child any more. */
    method Poll()
      requires Valid()
      modifies this`table, this`returncode
      ensures Valid()
      ensures old(returncode).Some? ==> returncode == old(returncode) && table == old(table)
      ensures returncode.None? ==> table == old(table) && Fenced(table, self, root, r) && !table.procs[root].defunct
      ensures old(returncode).None? && returncode.Some? && Fenced(old(table), self, root, r) ==>
        Possible(old(table), Reap(self, root)) && table == Happen(old(table), Reap(self, root))
      ensures Gone(old(table), self, root, r) ==> table == old(table)
    {
      ProbeTells(table, self, root, r);
      if returncode.Some? { return; }
      if !IsChild(table, self, root) {
        returncode := Some(0);
      } else if table.procs[root].defunct {
        ReapLeavesNothing(table, self, root, r);
        HappenKeepsLawful(table, Reap(self, root), self, r);
        table := Happen(table, Reap(self, root));
        returncode := Some(0);
      }
    }

    /** Neither has `Popen` a return code nor is there one to get: the root is still running. */
    ghost predicate StillRunning()
      reads this
    {
      returncode.None? && Fenced(table, self, root, r) && !table.procs[root].defunct
    }

    /** `Popen.send_signal`: signal the root by pid, exactly if it is still running. */
    method SignalRoot() returns (ghost reached: set<Birth>)
      requires Valid()
      modifies this`table, this`returncode
      ensures Valid()
      ensures reached == if old(StillRunning()) then {r} else {}
      ensures StillRunning() == old(StillRunning()) && (returncode.Some? || StillRunning())
      ensures Gone(old(table), self, root, r) ==> Gone(table, self, root, r)
    {
      reached := {};
      ProbeTells(table, self, root, r);
      Poll();
      if returncode.None? {
        reached := {table.procs[root].birth};
      }
    }

    /** `os.killpg`: whom the signal reaches. */
    method SignalGroup() returns (ghost reached: set<Birth>)
      requires Valid() && Fenced(table, self, root, r)
      ensures reached == Receivers(table, root)
      ensures r in reached && forall b :: b in reached ==> Descends(table.forker, r, b)
      ensures table.procs[self].birth !in reached
    {
      reached := Receivers(table, root);
      GroupSignalSafety(table, [], self, root, r);
    }

    /** What the guards ask of the arguments, given how the probe came out. */
    ghost predicate Guarded(pgid: Option<Pid>, identity: Option<Identity>, identities: map<Pid, Identity>, conflicts: set<Pid>,
                            ownGroup: Pid, snapshot: Option<map<Pid, Identity>>, lifetime: Lifetime)
    {
      && ValidGroup(root, pgid, identity, ownGroup) && conflicts == {} && snapshot.Some?
      && AllAgree(root, identities, snapshot.value, lifetime, identities.Keys)
      && SomeVouches(root, identities, snapshot.value, lifetime, identities.Keys)
      && HasMembers(root, snapshot.value)
    }

    /** In the table `at` the root is fenced in, and the group is `reached`: descendants of the root, not the harness. */
    ghost predicate OnlyDescendants(at: Table, reached: set<Birth>) {
      && Fenced(at, self, root, r)
      && reached == Receivers(at, root)
      && (forall b :: b in reached ==> Descends(at.forker, r, b))
      && self in at.procs && at.procs[self].birth !in reached
    }

    /** Probe the root, look at the group, and look at SIGCHLD once more before the signal. */
    method SignalIfProven(identities: map<Pid, Identity>, probeFails: bool, snapshot: Option<map<Pid, Identity>>)
      returns (error: bool, sent: bool, lifetime: Lifetime, ghost at: Table, ghost byGroup: set<Birth>)
      requires Valid()
      modifies this`table, this`sigchldDefault
      ensures Valid() && (sigchldDefault ==> old(sigchldDefault))
      ensures Gone(old(table), self, root, r) ==> !sent && Gone(table, self, root, r)
      ensures if sent then OnlyDescendants(at, byGroup) && !error else byGroup == {}
      ensures sent ==> old(sigchldDefault)
      ensures sent || !error ==>
        && returncode.None? && !probeFails && (lifetime == RunningChild || lifetime == ExitedUnreaped)
        && snapshot.Some? && AllAgree(root, identities, snapshot.value, lifetime, identities.Keys)
      ensures sent ==>
        SomeVouches(root, identities, snapshot.value, lifetime, identities.Keys) && HasMembers(root, snapshot.value)
      ensures !error && !sent ==> !HasMembers(root, snapshot.value)
      ensures (
          && Fenced(old(table), self, root, r) && sigchldDefault && returncode.None? && !probeFails && snapshot.Some?
          && AllAgree(root, identities, snapshot.value, lifetime, identities.Keys)
          && !HasMembers(root, snapshot.value)) ==> !error
      ensures (
          && Fenced(old(table), self, root, r) && sigchldDefault && returncode.None? && !probeFails && snapshot.Some?
          && AllAgree(root, identities, snapshot.value, lifetime, identities.Keys)
          && SomeVouches(root, identities, snapshot.value, lifetime, identities.Keys)
          && HasMembers(root, snapshot.value)) ==> sent
    {
      error, sent, byGroup, at := true, false, {}, table;
      lifetime := ProbeLifetime(probeFails);
      ProbeTells(table, self, root, r);
      Others(false);
      if returncode.Some? || lifetime == Lost || lifetime == Unknown { return; }
      var ready, observation := Revalidate(root, identities, snapshot, lifetime);
      Others(false);
      if !ready { return; }
      if observation == Absent {
        error := false;
      } else if sigchldDefault {
        Others(true);
        at := table;
        byGroup := SignalGroup();
        error, sent := false, true;
      }
    }

    /**
     * The root is the only fallback: it is asked to stop if it is running, reaped if it exits in time, and
     * killed if it is `late`.
     */
    method StopRoot() returns (ghost asked: set<Birth>, ghost late: bool, ghost killed: set<Birth>)
      requires Valid()
      modifies this
      ensures Valid()
      ensures asked == if old(StillRunning()) then {r} else {}
      ensures killed == if late then {r} else {}
      ensures late ==> asked == {r}
      ensures late || returncode.Some?
      ensures Gone(old(table), self, root, r) ==> !late
      ensures sigchldDefault ==> old(sigchldDefault)
    {
      asked := SignalRoot();
      Others(false);
      Poll();
      late, killed := false, {};
      if returncode.None? {
        late := true;
        killed := SignalRoot();
        Others(false);
        Poll();
      }
    }

    /**
     * Stop the owned processes.  `byGroup` are the births the group signal reached, in the
     * table `at` of that moment; `asked` and `killed` those reached by the signals to the root's pid,
     * the second of which is for a root that is `late`.
     */
    method TerminateOwned(pgid: Option<Pid>, identity: Option<Identity>, identities: map<Pid, Identity>, conflicts: set<Pid>,
                          ownGroup: Pid, probeFails: bool, snapshot: Option<map<Pid, Identity>>)
      returns (pass: bool, sent: bool, lifetime: Lifetime, ghost at: Table, ghost byGroup: set<Birth>,
               ghost asked: set<Birth>, ghost late: bool, ghost killed: set<Birth>)
      requires Valid()
      requires identity == (if root in identities then Some(identities[root]) else None)
      modifies this
      ensures Valid()
      // once the root is lost, nobody is signalled, by group or by pid
      ensures Gone(old(table), self, root, r) ==> !sent && asked == killed == {}
      // whenever the group is signalled, the root is still fenced in, and only its descendants are reached
      ensures if sent then OnlyDescendants(at, byGroup) else byGroup == {}
      // by pid nobody but the root is signalled, and it always is unless it has exited: the call ends with a
      // return code, or with both signals delivered
      ensures asked <= {r} && killed == (if late then {r} else {}) && (late ==> asked == {r})
      ensures returncode.None? ==> asked == killed == {r}
      ensures late || returncode.Some?
      // the group is signalled only if all guards pass, and always if they do and SIGCHLD is left alone
      ensures sent ==>
        && pass && Guarded(pgid, identity, identities, conflicts, ownGroup, snapshot, lifetime)
        && old(sigchldDefault) && old(returncode).None? && !probeFails
        && (lifetime == RunningChild || lifetime == ExitedUnreaped)
      ensures (
          && Guarded(pgid, identity, identities, conflicts, ownGroup, snapshot, lifetime)
          && Fenced(old(table), self, root, r) && sigchldDefault && old(returncode).None? && !probeFails) ==> sent
      // success means that the group was signalled or has no members, and nothing else is needed for it
      ensures (
          && ValidGroup(root, pgid, identity, ownGroup) && conflicts == {} && snapshot.Some?
          && AllAgree(root, identities, snapshot.value, lifetime, identities.Keys)
          && (SomeVouches(root, identities, snapshot.value, lifetime, identities.Keys) || !HasMembers(root, snapshot.value))
          && Fenced(old(table), self, root, r) && sigchldDefault && old(returncode).None? && !probeFails) ==> pass
      ensures pass ==>
        && ValidGroup(root, pgid, identity, ownGroup) && conflicts == {} && old(returncode).None?
        && (lifetime == RunningChild || lifetime == ExitedUnreaped)
        && snapshot.Some? && (sent || !HasMembers(root, snapshot.value))
    {
      sent, byGroup, at, lifetime := false, {}, table, Unknown;
      var valid := ValidGroup(root, pgid, identity, ownGroup);
      var error := conflicts != {};
      Others(false);
      if valid && !error {
        error := true;
        if sigchldDefault {
          Others(false);
          error, sent, lifetime, at, byGroup := SignalIfProven(identities, probeFails, snapshot);
        }
      }
      Others(false);
      asked, late, killed := StopRoot();
      pass := conflicts == {} && valid && !error;
    }
  }
}
