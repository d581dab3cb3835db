/**
 * Why one SIGTERM to the process group reaches nobody but descendants of the launched root.
 *
 * The guards of scripts/benchmark-helix-v3-source-runtime.py rest on the root leading its own
 * session and group and on its not having been reaped: an unreaped process keeps its pid.
 */
module ProcessFence {
  import opened Kernel

  /** `root`, an unreaped child of `self` born as `r`, leads the only session and group of its number. */
  ghost predicate Fenced(t: Table, self: Pid, root: Pid, r: Birth) {
    && Lawful(t)
    && Alive(t, self) && t.procs[self].birth < r
    && root in t.procs && root != self
    && t.procs[root].birth == r && t.procs[root].ppid == self
    && t.procs[root].pgid == root && t.procs[root].session == Session(root, r)
    && (forall p :: p in t.procs && t.procs[p].birth == r ==> p == root)
    && (forall p :: p in t.procs && t.procs[p].pgid == root ==> t.procs[p].session.leader == r)
    && (forall p :: p in t.procs && t.procs[p].session.leader == r ==> Descends(t.forker, r, t.procs[p].birth))
  }

  /** The harness neither reaps the root nor exits. */
  predicate Unreaped(events: seq<Event>, self: Pid, root: Pid) {
    forall e :: e in events ==> e != Reap(self, root) && e != Exit(self)
  }

  /** Launching in a new session fences the new process in. */
  lemma LaunchFences(t: Table, self: Pid, root: Pid)
    requires Lawful(t) && Possible(t, Fork(self, root))
    ensures var t1 := Happen(t, Fork(self, root));
      Possible(t1, SetSid(root)) && Fenced(Happen(t1, SetSid(root)), self, root, t.next)
  {
    var t1 := Happen(t, Fork(self, root));
  }

  lemma ForkKeepsFence(t: Table, parent: Pid, child: Pid, self: Pid, root: Pid, r: Birth)
    requires Fenced(t, self, root, r) && Possible(t, Fork(parent, child))
    ensures Fenced(Happen(t, Fork(parent, child)), self, root, r)
  {
    var v := Happen(t, Fork(parent, child));
    var mother := t.procs[parent].birth;
    forall p | p in v.procs && v.procs[p].session.leader == r
      ensures Descends(v.forker, r, v.procs[p].birth)
    {
      var q := if p == child then parent else p;
      DescentIsStable(t.forker, r, t.procs[q].birth, t.next, mother);
    }
  }

  lemma ExitKeepsFence(t: Table, pid: Pid, self: Pid, root: Pid, r: Birth)
    requires Fenced(t, self, root, r) && Possible(t, Exit(pid)) && pid != self
    ensures Fenced(Happen(t, Exit(pid)), self, root, r)
  {
    var v := Happen(t, Exit(pid));
    assert v.procs.Keys == t.procs.Keys;
    assert forall p :: p in v.procs ==>
      v.procs[p].birth == t.procs[p].birth && v.procs[p].pgid == t.procs[p].pgid && v.procs[p].session == t.procs[p].session;
  }

  lemma SetPgidKeepsFence(t: Table, caller: Pid, pid: Pid, pgid: Pid, self: Pid, root: Pid, r: Birth)
    requires Fenced(t, self, root, r) && Possible(t, SetPgid(caller, pid, pgid))
    ensures Fenced(Happen(t, SetPgid(caller, pid, pgid)), self, root, r)
  {
    assert pid != root;
    assert pgid == root ==> t.procs[pid].session.leader == r;
  }

  lemma SetSidKeepsFence(t: Table, pid: Pid, self: Pid, root: Pid, r: Birth)
    requires Fenced(t, self, root, r) && Possible(t, SetSid(pid))
    ensures Fenced(Happen(t, SetSid(pid)), self, root, r)
  {
    assert GroupExists(t, root);
    assert pid != root && t.procs[pid].birth != r;
  }

  lemma HappenKeepsFence(t: Table, e: Event, self: Pid, root: Pid, r: Birth)
    requires Fenced(t, self, root, r) && Possible(t, e) && e != Reap(self, root) && e != Exit(self)
    ensures Fenced(Happen(t, e), self, root, r)
  {
    match e
    case Fork(parent, child) => ForkKeepsFence(t, parent, child, self, root, r);
    case Exit(pid) => ExitKeepsFence(t, pid, self, root, r);
    case Reap(_, _) =>
    case SetPgid(caller, pid, pgid) => SetPgidKeepsFence(t, caller, pid, pgid, self, root, r);
    case SetSid(pid) => SetSidKeepsFence(t, pid, self, root, r);
  }

  lemma {:induction false} FenceHolds(t: Table, events: seq<Event>, self: Pid, root: Pid, r: Birth)
    requires Fenced(t, self, root, r) && CanHappen(t, events) && Unreaped(events, self, root)
    ensures Fenced(After(t, events), self, root, r)
    decreases |events|
  {
    if events != [] {
      assert events[0] in events && forall e :: e in events[1..] ==> e in events;
      HappenKeepsFence(t, events[0], self, root, r);
      FenceHolds(Happen(t, events[0]), events[1..], self, root, r);
    }
  }

  // ---------------------------------------------------------------- a root that may have been lost

  /** The root has been reaped: nobody born as `r` is left, and no child of `self` bears its number. */
  ghost predicate Gone(t: Table, self: Pid, root: Pid, r: Birth) {
    && (forall p :: p in t.procs ==> t.procs[p].birth != r)
    && (root in t.procs ==> t.procs[root].ppid != self)
  }

  /** What holds from the launch on, even if somebody else has reaped the root. */
  ghost predicate Pinned(t: Table, self: Pid, root: Pid, r: Birth) {
    && Lawful(t) && self != INIT && r < t.next
    && Alive(t, self) && t.procs[self].birth < r
    && (Fenced(t, self, root, r) || Gone(t, self, root, r))
  }

  /** The harness lives on and forks no other child with the root's number. */
  predicate Harmless(e: Event, self: Pid, root: Pid) {
    e != Exit(self) && e != Fork(self, root)
  }

  lemma ReapLeavesNothing(t: Table, self: Pid, root: Pid, r: Birth)
    requires Fenced(t, self, root, r) && Possible(t, Reap(self, root))
    ensures Gone(Happen(t, Reap(self, root)), self, root, r)
  {
  }

  /** A lost root is never found again. */
  lemma HappenKeepsGone(t: Table, e: Event, self: Pid, root: Pid, r: Birth)
    requires Gone(t, self, root, r) && Possible(t, e) && Harmless(e, self, root) && self != INIT && r < t.next
    ensures Gone(Happen(t, e), self, root, r)
  {
  }

  lemma HappenKeepsLawful(t: Table, e: Event, self: Pid, r: Birth)
    requires Lawful(t) && Possible(t, e) && e != Exit(self) && Alive(t, self) && t.procs[self].birth < r < t.next
    ensures var v := Happen(t, e);
      Lawful(v) && Alive(v, self) && v.procs[self].birth < r < v.next
  {
    match e
    case Exit(pid) => assert Happen(t, e).procs.Keys == t.procs.Keys;
    case _ =>
  }

  /** Every event of every process keeps the root pinned or lost, a reap behind the harness's back included. */
  lemma HappenKeepsPinned(t: Table, e: Event, self: Pid, root: Pid, r: Birth)
    requires Pinned(t, self, root, r) && Possible(t, e) && Harmless(e, self, root)
    ensures Pinned(Happen(t, e), self, root, r)
  {
    HappenKeepsLawful(t, e, self, r);
    if Gone(t, self, root, r) {
      HappenKeepsGone(t, e, self, root, r);
    } else if e == Reap(self, root) {
      ReapLeavesNothing(t, self, root, r);
    } else {
      HappenKeepsFence(t, e, self, root, r);
    }
  }

  /** What `waitid` without reaping asks: is there a child with the root's number? */
  predicate IsChild(t: Table, self: Pid, root: Pid) {
    root in t.procs && t.procs[root].ppid == self
  }

  /** The probe tells a fenced root from a lost one, exactly. */
  lemma ProbeTells(t: Table, self: Pid, root: Pid, r: Birth)
    requires Pinned(t, self, root, r)
    ensures IsChild(t, self, root) <==> Fenced(t, self, root, r)
    ensures Gone(t, self, root, r) <==> !Fenced(t, self, root, r)
  {
  }

  // ---------------------------------------------------------------- the group signal

  /** The processes a signal to group `pgid` reaches. */
  function Receivers(t: Table, pgid: Pid): set<Birth> {
    set p | p in t.procs && t.procs[p].pgid == pgid :: t.procs[p].birth
  }

  /** Group-signal safety: whatever has happened since the launch, short of the harness reaping the root. */
  lemma GroupSignalSafety(t: Table, events: seq<Event>, self: Pid, root: Pid, r: Birth)
    requires Fenced(t, self, root, r) && CanHappen(t, events) && Unreaped(events, self, root)
    ensures var v := After(t, events);
      && (forall b :: b in Receivers(v, root) ==> Descends(v.forker, r, b))
      && self in v.procs && v.procs[self].birth !in Receivers(v, root)
      && root in v.procs && v.procs[root].birth == r
  {
    FenceHolds(t, events, self, root, r);
    var v := After(t, events);
    if v.procs[self].birth in Receivers(v, root) {
      DescendantsAreYounger(v.forker, r, v.procs[self].birth);
    }
  }

  /** The harness (10), a stranger (30), and the root (20), launched by the harness. */
  const SCENE := Table(map[10 := Process(0, INIT, 10, Session(10, 0), false),
                           30 := Process(1, INIT, 30, Session(30, 1), false),
                           20 := Process(2, 10, 20, Session(20, 2), false)],
                       map[2 := 0], 3)

  lemma Exited()
    ensures Possible(SCENE, Exit(20))
    ensures Happen(SCENE, Exit(20)) == SCENE.(procs := SCENE.procs[20 := SCENE.procs[20].(defunct := true)])
  {
  }

  lemma ReapedAndReused(t: Table)
    requires t == SCENE.(procs := SCENE.procs[20 := SCENE.procs[20].(defunct := true)])
    ensures Possible(t, Reap(10, 20))
    ensures var t2 := Happen(t, Reap(10, 20));
      && Possible(t2, Fork(30, 20))
      && Happen(t2, Fork(30, 20)) == Table(t2.procs[20 := Process(3, 30, 30, Session(30, 1), false)], map[2 := 0, 3 := 1], 4)
  {
  }

  /** The condition on forks is needed too: a new child of the harness under the old number looks like the root. */
  lemma TwinFoolsProbe() returns (t: Table)
    ensures Pinned(t, 10, 20, 2) && Gone(t, 10, 20, 2) && Possible(t, Fork(10, 20))
    ensures var v := Happen(t, Fork(10, 20)); IsChild(v, 10, 20) && !Fenced(v, 10, 20, 2)
  {
    t := SCENE.(procs := SCENE.procs - {20});
  }

  /** The pin is needed: once the root has been reaped, a stranger's child may come to own the group number. */
  lemma ReapedRootIsNoFence() returns (events: seq<Event>)
    ensures Fenced(SCENE, 10, 20, 2) && CanHappen(SCENE, events) && Exit(10) !in events
    ensures var v := After(SCENE, events);
      exists b :: b in Receivers(v, 20) && !Descends(v.forker, 2, b)
  {
    Exited();
    var t1 := Happen(SCENE, Exit(20));
    ReapedAndReused(t1);
    var t3 := Happen(Happen(t1, Reap(10, 20)), Fork(30, 20));
    StrangerLeads(t3);
    var tail3 := [SetPgid(20, 20, 20)] + [];
    FirstThen(t3, SetPgid(20, 20, 20), []);
    var tail2 := [Fork(30, 20)] + tail3;
    FirstThen(Happen(t1, Reap(10, 20)), Fork(30, 20), tail3);
    var tail1 := [Reap(10, 20)] + tail2;
    FirstThen(t1, Reap(10, 20), tail2);
    FirstThen(SCENE, Exit(20), tail1);
    events := [Exit(20)] + tail1;
    assert 3 in Receivers(After(SCENE, events), 20);
  }

  /** The stranger's child makes itself the leader of the group with the old number. */
  lemma StrangerLeads(t: Table)
    requires t.procs.Keys == {10, 20, 30} && t.procs[20] == Process(3, 30, 30, Session(30, 1), false)
    requires t.procs[10].pgid != 20 && t.procs[30].pgid != 20 && t.forker == map[2 := 0, 3 := 1]
    ensures Possible(t, SetPgid(20, 20, 20))
    ensures var v := Happen(t, SetPgid(20, 20, 20)); 3 in Receivers(v, 20) && !Descends(v.forker, 2, 3)
  {
    var v := Happen(t, SetPgid(20, 20, 20));
    assert v.procs[20].birth == 3 && v.procs[20].pgid == 20;
  }
}
