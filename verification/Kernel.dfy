/**
 * A process table with pid reuse, as far as signalling a process group needs it.  Every process
 * carries a birth number, so that "the same pid" and "the same process" differ.
 */
module Kernel {
  type Pid = nat
  type Birth = nat

  datatype Session = Session(id: Pid, leader: Birth)

  datatype Process = Process(birth: Birth, ppid: Pid, pgid: Pid, session: Session, defunct: bool)

  /** `forker` maps every birth to the birth that forked it, reaped processes included. */
  datatype Table = Table(procs: map<Pid, Process>, forker: map<Birth, Birth>, next: Birth)

  datatype Event =
    | Fork(parent: Pid, child: Pid)
    | Exit(pid: Pid)
    | Reap(parent: Pid, pid: Pid)
    | SetPgid(caller: Pid, pid: Pid, pgid: Pid)
    | SetSid(pid: Pid)

  predicate Alive(t: Table, pid: Pid) {
    pid in t.procs && !t.procs[pid].defunct
  }

  predicate GroupExists(t: Table, pgid: Pid) {
    exists p :: p in t.procs && t.procs[p].pgid == pgid
  }

  /**
   * Section 4.14 (Process ID Reuse) of POSIX.1-2017 Base Definitions is the freshness condition
   * of `Fork`: a pid is free again once the process has been reaped and no process group bears
   * its number.  Session identifiers are not protected by that section, so sessions are told
   * apart by the birth of their leader.
   */
  predicate Possible(t: Table, e: Event) {
    match e
    case Fork(parent, child) =>
      Alive(t, parent) && child != 0 && child !in t.procs && !GroupExists(t, child)
    case Exit(pid) => Alive(t, pid)
    case Reap(parent, pid) =>
      Alive(t, parent) && pid in t.procs && t.procs[pid].defunct && t.procs[pid].ppid == parent
    case SetPgid(caller, pid, pgid) =>
      && Alive(t, caller) && Alive(t, pid)
      && (pid == caller || t.procs[pid].ppid == caller)
      && t.procs[pid].session == t.procs[caller].session
      && t.procs[pid].session.leader != t.procs[pid].birth
      && (pgid == pid
          || exists q :: q in t.procs && t.procs[q].pgid == pgid && t.procs[q].session == t.procs[caller].session)
    case SetSid(pid) => Alive(t, pid) && !GroupExists(t, pid)
  }

  const INIT: Pid := 1

  function Happen(t: Table, e: Event): Table
    requires Possible(t, e)
  {
    match e
    case Fork(parent, child) =>
      var p := t.procs[parent];
      Table(t.procs[child := Process(t.next, parent, p.pgid, p.session, false)], t.forker[t.next := p.birth], t.next + 1)
    case Exit(pid) =>
      t.(procs := map p | p in t.procs :: if p == pid then t.procs[p].(defunct := true)
                                          else if t.procs[p].ppid == pid then t.procs[p].(ppid := INIT)
                                          else t.procs[p])
    case Reap(_, pid) => t.(procs := t.procs - {pid})
    case SetPgid(_, pid, pgid) => t.(procs := t.procs[pid := t.procs[pid].(pgid := pgid)])
    case SetSid(pid) =>
      var p := t.procs[pid];
      t.(procs := t.procs[pid := p.(pgid := pid, session := Session(pid, p.birth))])
  }

  predicate CanHappen(t: Table, events: seq<Event>)
    decreases |events|
  {
    events == [] || (Possible(t, events[0]) && CanHappen(Happen(t, events[0]), events[1..]))
  }

  function After(t: Table, events: seq<Event>): Table
    requires CanHappen(t, events)
    decreases |events|
  {
    if events == [] then t else After(Happen(t, events[0]), events[1..])
  }

  // ---------------------------------------------------------------- descent

  /** `b` was forked, in one or more generations, by `root`, or is `root`. */
  predicate Descends(forker: map<Birth, Birth>, root: Birth, b: Birth)
    decreases b
  {
    b == root || (b in forker && forker[b] < b && Descends(forker, root, forker[b]))
  }

  lemma {:induction false} DescendantsAreYounger(forker: map<Birth, Birth>, root: Birth, b: Birth)
    requires Descends(forker, root, b)
    ensures root <= b
    decreases b
  {
    if b != root {
      DescendantsAreYounger(forker, root, forker[b]);
    }
  }

  lemma {:induction false} DescentIsStable(forker: map<Birth, Birth>, root: Birth, b: Birth, next: Birth, mother: Birth)
    requires Descends(forker, root, b) && b < next
    ensures Descends(forker[next := mother], root, b)
    decreases b
  {
    if b != root {
      DescentIsStable(forker, root, forker[b], next, mother);
    }
  }

  /** Birth numbers below `next` have been given out. */
  ghost predicate Lawful(t: Table) {
    forall p :: p in t.procs ==> t.procs[p].birth < t.next && t.procs[p].session.leader < t.next
  }

  lemma FirstThen(t: Table, e: Event, rest: seq<Event>)
    requires Possible(t, e) && CanHappen(Happen(t, e), rest)
    ensures CanHappen(t, [e] + rest) && After(t, [e] + rest) == After(Happen(t, e), rest)
  {
    assert ([e] + rest)[1..] == rest;
  }
}
