/**
 * The ledger acceptor of scripts/benchmark-helix-v3-tool-scenarios.py: `Acceptable` is what its
 * checks say one by one, `IsLedger` what they are for: a chain of events for every position, no orphan.
 */
module ToolLedger {
  type Card = string
  type ExecId = string

  /** An event of the run; the booleans are the checks of a payload against constants and schemas. */
  datatype Body =
    | ToolStart(card: Card, ungated: bool, command: string)
    | ToolEnd(card: Card, shapeOk: bool, result: string, provenance: string)
    | Claimed(exec: ExecId, shapeOk: bool, fingerprint: string, checkpoint: string)
    | Started(exec: ExecId, shapeOk: bool, card: Card)
    | Finished(exec: ExecId, shapeOk: bool, card: Card, receipt: string, digest: string, result: string)
    | Ambiguous
    | Approval
    | Trace(valid: bool)
    | Completed(settled: bool)
    | OtherEvent

  datatype Event = Event(at: int, body: Body)

  /** An execution row; `sound` covers owner, state, timestamps, checkpoint, result and receipts. */
  datatype Row = Row(exec: ExecId, card: Card, sound: bool, command: string, fingerprint: string, checkpoint: string,
                     receipt: string, digest: string, result: string, annotations: string, terminalSeq: int)

  /** The fixture: the command expected at every position. */
  type Fixture = seq<string>

  // ---------------------------------------------------------------- selections

  function Select(events: seq<Event>, p: Body -> bool): seq<Event> {
    if events == [] then []
    else if p(events[0].body) then [events[0]] + Select(events[1..], p)
    else Select(events[1..], p)
  }

  lemma {:induction false} SelectHas(events: seq<Event>, p: Body -> bool, e: Event)
    ensures e in Select(events, p) <==> e in events && p(e.body)
  {
    if events != [] {
      SelectHas(events[1..], p, e);
      assert events == [events[0]] + events[1..];
    }
  }

  predicate Increasing(events: seq<Event>) {
    forall i, j :: 0 <= i < j < |events| ==> events[i].at < events[j].at
  }

  lemma {:induction false} SelectIncreasing(events: seq<Event>, p: Body -> bool)
    requires Increasing(events)
    ensures Increasing(Select(events, p))
  {
    if events != [] {
      SelectIncreasing(events[1..], p);
      forall e | e in Select(events[1..], p) ensures events[0].at < e.at {
        SelectHas(events[1..], p, e);
      }
    }
  }

  /** Events of an increasing list are told apart by their sequence numbers. */
  lemma SeqDetermines(events: seq<Event>, a: Event, b: Event)
    requires Increasing(events) && a in events && b in events && a.at == b.at
    ensures a == b
  {
    var i :| 0 <= i < |events| && events[i] == a;
    var j :| 0 <= j < |events| && events[j] == b;
    assert i < j ==> events[i].at < events[j].at;
    assert j < i ==> events[j].at < events[i].at;
  }

  function Seqs(events: seq<Event>): set<int> {
    set e | e in events :: e.at
  }

  lemma {:induction false} SeqsCount(events: seq<Event>)
    requires Increasing(events)
    ensures |Seqs(events)| == |events|
  {
    if events != [] {
      var n := |events| - 1;
      SeqsCount(events[..n]);
      assert Seqs(events) == Seqs(events[..n]) + {events[n].at} by {
        assert forall e :: e in events <==> e in events[..n] || e == events[n];
      }
    }
  }

  // ---------------------------------------------------------------- counting

  lemma {:induction false} ImageCount<T>(n: nat, f: nat -> T)
    requires forall i, j :: 0 <= i < j < n ==> f(i) != f(j)
    ensures |set i | 0 <= i < n :: f(i)| == n
  {
    if n > 0 {
      ImageCount(n - 1, f);
      assert (set i | 0 <= i < n :: f(i)) == (set i | 0 <= i < n - 1 :: f(i)) + {f(n - 1)};
    }
  }

  lemma SubsetOfSameSize<T>(a: set<T>, b: set<T>)
    requires a <= b && |a| == |b|
    ensures a == b
  {
    assert b == a + (b - a) && |b| == |a| + |b - a|;
  }

  /** Pigeonhole: an injection from n positions into n sequence numbers leaves none out. */
  lemma OntoSeqs(n: nat, f: nat -> int, events: seq<Event>)
    requires Increasing(events) && |events| == n
    requires forall i :: 0 <= i < n ==> f(i) in Seqs(events)
    requires forall i, j :: 0 <= i < j < n ==> f(i) != f(j)
    ensures forall e :: e in events ==> exists i :: 0 <= i < n && f(i) == e.at
  {
    ImageCount(n, f);
    SeqsCount(events);
    var image := set i | 0 <= i < n :: f(i);
    SubsetOfSameSize(image, Seqs(events));
    forall e | e in events ensures exists i :: 0 <= i < n && f(i) == e.at {
      assert e.at in image;
    }
  }

  /** n increasing numbers below n are 0, 1, ..., n - 1. */
  lemma {:induction false} IncreasingIsIdentity(n: nat, f: nat -> int, i: nat)
    requires forall k :: 0 <= k < n ==> 0 <= f(k) < n
    requires forall k, l :: 0 <= k < l < n ==> f(k) < f(l)
    requires i < n
    ensures f(i) == i
  {
    AtLeast(n, f, i);
    AtMost(n, f, i);
  }

  lemma {:induction false} AtLeast(n: nat, f: nat -> int, i: nat)
    requires forall k :: 0 <= k < n ==> 0 <= f(k) < n
    requires forall k, l :: 0 <= k < l < n ==> f(k) < f(l)
    requires i < n
    ensures f(i) >= i
  {
    if i > 0 { AtLeast(n, f, i - 1); }
  }

  lemma {:induction false} AtMost(n: nat, f: nat -> int, i: nat)
    requires forall k :: 0 <= k < n ==> 0 <= f(k) < n
    requires forall k, l :: 0 <= k < l < n ==> f(k) < f(l)
    requires i < n
    ensures f(i) <= i
    decreases n - i
  {
    if i < n - 1 { AtMost(n, f, i + 1); }
  }

  // ---------------------------------------------------------------- the checks, one by one

  predicate IsStart(b: Body) { b.ToolStart? }
  predicate IsEnd(b: Body) { b.ToolEnd? }
  predicate IsClaimed(b: Body) { b.Claimed? }
  predicate IsStarted(b: Body) { b.Started? }
  predicate IsFinished(b: Body) { b.Finished? }
  predicate IsTrace(b: Body) { b.Trace? }
  predicate IsCompleted(b: Body) { b.Completed? }

  function Starts(events: seq<Event>): seq<Event> { Select(events, IsStart) }

  function ClaimsOf(events: seq<Event>, exec: ExecId): seq<Event> { Select(events, (b: Body) => b.Claimed? && b.exec == exec) }
  function StartsOf(events: seq<Event>, exec: ExecId): seq<Event> { Select(events, (b: Body) => b.Started? && b.exec == exec) }
  function FinishesOf(events: seq<Event>, exec: ExecId): seq<Event> { Select(events, (b: Body) => b.Finished? && b.exec == exec) }

  predicate StreamOk(events: seq<Event>, lastSeq: int) {
    && events != [] && events[0].at > 0 && Increasing(events) && events[|events| - 1].at == lastSeq
    && forall e :: e in events ==> !e.body.Approval? && !e.body.Ambiguous?
  }

  predicate DistinctCards(cards: seq<Card>) {
    forall i, j :: 0 <= i < j < |cards| ==> cards[i] != cards[j]
  }

  function CardOf(b: Body): Card {
    match b
    case ToolStart(card, _, _) => card
    case ToolEnd(card, _, _, _) => card
    case _ => ""
  }

  function CardsOf(events: seq<Event>): (r: seq<Card>)
    ensures |r| == |events|
  {
    seq(|events|, i requires 0 <= i < |events| => CardOf(events[i].body))
  }

  predicate ProposalOk(b: Body, command: string) {
    b.ToolStart? && b.card != "" && b.ungated && b.command == command
  }

  predicate ProposalsOk(events: seq<Event>, fixture: Fixture) {
    var starts := Starts(events);
    && |starts| == |fixture| && DistinctCards(CardsOf(starts))
    && forall i :: 0 <= i < |starts| ==> ProposalOk(starts[i].body, fixture[i])
  }

  /** The position of a card among the proposals, or one past the last. */
  function OrderOf(cards: seq<Card>, card: Card): (k: nat)
    ensures k <= |cards| && (k < |cards| ==> cards[k] == card) && (k == |cards| ==> card !in cards)
  {
    if cards == [] || cards[0] == card then 0 else 1 + OrderOf(cards[1..], card)
  }

  predicate Sorted(rows: seq<Row>, cards: seq<Card>) {
    forall i, j :: 0 <= i < j < |rows| ==> OrderOf(cards, rows[i].card) <= OrderOf(cards, rows[j].card)
  }

  /** The rows, sorted, agree with the fixture and name distinct executions of distinct proposed cards. */
  predicate RowsOk(rows: seq<Row>, cards: seq<Card>, fixture: Fixture) {
    && |rows| == |fixture|
    && (forall i :: 0 <= i < |rows| ==>
          rows[i].exec != "" && rows[i].sound && rows[i].card != "" && rows[i].card in cards && rows[i].command == fixture[i])
    && (forall i, j :: 0 <= i < j < |rows| ==> rows[i].exec != rows[j].exec && rows[i].card != rows[j].card)
  }

  predicate CountsOk(events: seq<Event>, n: nat) {
    && |Select(events, IsClaimed)| == |Select(events, IsStarted)| == |Select(events, IsFinished)| == n
    && |Select(events, IsEnd)| == n && DistinctCards(CardsOf(Select(events, IsEnd)))
  }

  /** One row's receipts: exactly one event of each kind bears its execution id, and all agree with the row. */
  ghost predicate ReceiptsOk(events: seq<Event>, row: Row, c: Chain) {
    && |ClaimsOf(events, row.exec)| == |StartsOf(events, row.exec)| == |FinishesOf(events, row.exec)| == 1
    && ChainOk(events, row, c)
  }

  ghost predicate HasReceipts(events: seq<Event>, row: Row) {
    exists c :: ReceiptsOk(events, row, c)
  }

  ghost predicate TailOk(events: seq<Event>) {
    var n := |events|;
    && |Select(events, IsTrace)| == 1 && |Select(events, IsCompleted)| == 1 && n >= 2
    && events[n - 1].body == Completed(true) && events[n - 2].body == Trace(true)
    && events[n - 2].at == events[n - 1].at - 1
  }

  ghost predicate Acceptable(events: seq<Event>, rows: seq<Row>, fixture: Fixture, lastSeq: int) {
    && StreamOk(events, lastSeq) && ProposalsOk(events, fixture)
    && Sorted(rows, CardsOf(Starts(events))) && RowsOk(rows, CardsOf(Starts(events)), fixture)
    && CountsOk(events, |fixture|)
    && (forall i :: 0 <= i < |rows| ==> HasReceipts(events, rows[i]))
    && TailOk(events)
  }

  // ---------------------------------------------------------------- what they are for

  datatype Chain = Chain(proposal: int, claim: int, start: int, finish: int, end: int)

  /** The five events of one execution, in order, each saying what the row says. */
  ghost predicate ChainOk(events: seq<Event>, row: Row, c: Chain) {
    && Event(c.proposal, ToolStart(row.card, true, row.command)) in events
    && Event(c.claim, Claimed(row.exec, true, row.fingerprint, row.checkpoint)) in events
    && Event(c.start, Started(row.exec, true, row.card)) in events
    && Event(c.finish, Finished(row.exec, true, row.card, row.receipt, row.digest, row.result)) in events
    && Event(c.end, ToolEnd(row.card, true, row.result, row.annotations)) in events
    && c.proposal < c.claim < c.start < c.finish < c.end
    && row.terminalSeq == c.finish
  }

  /** The five stages of an execution: the kind of their events, their place in a chain, and what they say. */
  datatype Stage = Proposal | Claim | Start | Finish | End

  function KindOf(s: Stage): Body -> bool {
    match s
    case Proposal => IsStart
    case Claim => IsClaimed
    case Start => IsStarted
    case Finish => IsFinished
    case End => IsEnd
  }

  function PartOf(s: Stage, c: Chain): int {
    match s
    case Proposal => c.proposal
    case Claim => c.claim
    case Start => c.start
    case Finish => c.finish
    case End => c.end
  }

  function EventOf(s: Stage, row: Row, c: Chain): Event {
    match s
    case Proposal => Event(c.proposal, ToolStart(row.card, true, row.command))
    case Claim => Event(c.claim, Claimed(row.exec, true, row.fingerprint, row.checkpoint))
    case Start => Event(c.start, Started(row.exec, true, row.card))
    case Finish => Event(c.finish, Finished(row.exec, true, row.card, row.receipt, row.digest, row.result))
    case End => Event(c.end, ToolEnd(row.card, true, row.result, row.annotations))
  }

  lemma ChainHas(events: seq<Event>, row: Row, c: Chain, s: Stage)
    requires ChainOk(events, row, c)
    ensures EventOf(s, row, c) in events && EventOf(s, row, c).at == PartOf(s, c) && KindOf(s)(EventOf(s, row, c).body)
  {
  }

  ghost predicate InSomeChain(chains: seq<Chain>, s: Stage, at: int) {
    exists i :: 0 <= i < |chains| && PartOf(s, chains[i]) == at
  }

  /** Event `e` has no place outside the chains and the two closing events. */
  ghost predicate Placed(e: Event, chains: seq<Chain>, lastSeq: int) {
    match e.body
    case ToolStart(_, _, _) => InSomeChain(chains, Proposal, e.at)
    case Claimed(_, _, _, _) => InSomeChain(chains, Claim, e.at)
    case Started(_, _, _) => InSomeChain(chains, Start, e.at)
    case Finished(_, _, _, _, _, _) => InSomeChain(chains, Finish, e.at)
    case ToolEnd(_, _, _, _) => InSomeChain(chains, End, e.at)
    case Trace(valid) => valid && e.at == lastSeq - 1
    case Completed(settled) => settled && e.at == lastSeq
    case Ambiguous => false
    case Approval => false
    case OtherEvent => true
  }

  /** Row `i` is the execution of fixture position `i`, and chain `i` its events. */
  ghost predicate RowChains(events: seq<Event>, rows: seq<Row>, fixture: Fixture, chains: seq<Chain>) {
    && |chains| == |rows| == |fixture|
    && (forall i :: 0 <= i < |rows| ==>
          && ChainOk(events, rows[i], chains[i])
          && rows[i].exec != "" && rows[i].sound && rows[i].card != "" && rows[i].command == fixture[i])
    && (forall i, j :: 0 <= i < j < |rows| ==>
          && chains[i].proposal < chains[j].proposal
          && rows[i].exec != rows[j].exec && rows[i].card != rows[j].card)
  }

  ghost predicate AllPlaced(events: seq<Event>, chains: seq<Chain>, lastSeq: int) {
    forall e {:trigger Placed(e, chains, lastSeq)} :: e in events ==> Placed(e, chains, lastSeq)
  }

  /** One chain per fixture position, in fixture order, and nothing else but the closing trace and completion. */
  ghost predicate IsLedger(events: seq<Event>, rows: seq<Row>, fixture: Fixture, lastSeq: int, chains: seq<Chain>) {
    && events != [] && events[0].at > 0 && Increasing(events) && events[|events| - 1].at == lastSeq
    && RowChains(events, rows, fixture, chains)
    && AllPlaced(events, chains, lastSeq)
    && Event(lastSeq, Completed(true)) in events && Event(lastSeq - 1, Trace(true)) in events
  }

  // ---------------------------------------------------------------- acceptance implies the bijection

  ghost function PickChain(events: seq<Event>, row: Row): (c: Chain)
    requires HasReceipts(events, row)
    ensures ReceiptsOk(events, row, c)
  {
    var c :| ReceiptsOk(events, row, c); c
  }

  /** After the sort, row `i` names the card of proposal `i`. */
  lemma RowsFollowProposals(rows: seq<Row>, cards: seq<Card>, fixture: Fixture)
    requires |cards| == |fixture| && Sorted(rows, cards) && RowsOk(rows, cards, fixture)
    ensures forall i :: 0 <= i < |rows| ==> rows[i].card == cards[i]
  {
    var f := (i: nat) => if i < |rows| then OrderOf(cards, rows[i].card) else 0;
    forall k, l | 0 <= k < l < |rows| ensures f(k) < f(l) {
      assert rows[k].card != rows[l].card;
    }
    forall i | 0 <= i < |rows| ensures rows[i].card == cards[i] {
      IncreasingIsIdentity(|rows|, f, i);
    }
  }

  /** The proposal of row `i` is the `i`-th tool_start. */
  lemma ProposalIsStart(events: seq<Event>, rows: seq<Row>, fixture: Fixture, i: nat, c: Chain)
    requires ProposalsOk(events, fixture) && i < |rows| == |fixture|
    requires rows[i].card == CardsOf(Starts(events))[i] && ChainOk(events, rows[i], c)
    ensures c.proposal == Starts(events)[i].at
  {
    var starts := Starts(events);
    var e := Event(c.proposal, ToolStart(rows[i].card, true, rows[i].command));
    SelectHas(events, IsStart, e);
    var j :| 0 <= j < |starts| && starts[j] == e;
    assert CardsOf(starts)[j] == CardsOf(starts)[i];
  }

  /** Chains of different executions of different cards have no event in common. */
  lemma ChainsApart(events: seq<Event>, a: Row, b: Row, c: Chain, d: Chain, s: Stage)
    requires Increasing(events) && ChainOk(events, a, c) && ChainOk(events, b, d) && a.exec != b.exec && a.card != b.card
    ensures PartOf(s, c) != PartOf(s, d)
  {
    ChainHas(events, a, c, s);
    ChainHas(events, b, d, s);
    if PartOf(s, c) == PartOf(s, d) {
      SeqDetermines(events, EventOf(s, a, c), EventOf(s, b, d));
    }
  }

  /** As many events of a kind as chains, and one of that kind in every chain: none is an orphan. */
  lemma NoOrphans(events: seq<Event>, p: Body -> bool, n: nat, f: nat -> int)
    requires Increasing(events) && |Select(events, p)| == n
    requires forall i :: 0 <= i < n ==> exists e :: e in events && e.at == f(i) && p(e.body)
    requires forall i, j :: 0 <= i < j < n ==> f(i) != f(j)
    ensures forall e :: e in events && p(e.body) ==> exists i :: 0 <= i < n && f(i) == e.at
  {
    SelectIncreasing(events, p);
    forall i | 0 <= i < n ensures f(i) in Seqs(Select(events, p)) {
      var e :| e in events && e.at == f(i) && p(e.body);
      SelectHas(events, p, e);
    }
    OntoSeqs(n, f, Select(events, p));
    forall e | e in events && p(e.body) ensures exists i :: 0 <= i < n && f(i) == e.at {
      SelectHas(events, p, e);
    }
  }

  lemma OnlyOne(events: seq<Event>, p: Body -> bool, a: Event, b: Event)
    requires |Select(events, p)| == 1 && a in events && b in events && p(a.body) && p(b.body)
    ensures a == b
  {
    SelectHas(events, p, a);
    SelectHas(events, p, b);
  }

  ghost predicate Chained(events: seq<Event>, rows: seq<Row>, chains: seq<Chain>) {
    && |chains| == |rows| && Increasing(events)
    && (forall i :: 0 <= i < |rows| ==> ChainOk(events, rows[i], chains[i]))
    && (forall i, j :: 0 <= i < j < |rows| ==> rows[i].exec != rows[j].exec && rows[i].card != rows[j].card)
  }

  /** With as many events of a stage as rows, every one of them is in a chain. */
  lemma NoOrphan(events: seq<Event>, rows: seq<Row>, chains: seq<Chain>, s: Stage, e: Event)
    requires Chained(events, rows, chains) && |Select(events, KindOf(s))| == |rows|
    requires e in events && KindOf(s)(e.body)
    ensures InSomeChain(chains, s, e.at)
  {
    var f := (i: nat) => if i < |chains| then PartOf(s, chains[i]) else 0;
    forall i, j | 0 <= i < j < |rows| ensures f(i) != f(j) {
      ChainsApart(events, rows[i], rows[j], chains[i], chains[j], s);
    }
    forall i | 0 <= i < |rows| ensures exists x :: x in events && x.at == f(i) && KindOf(s)(x.body) {
      ChainHas(events, rows[i], chains[i], s);
    }
    NoOrphans(events, KindOf(s), |rows|, f);
    var i :| 0 <= i < |rows| && f(i) == e.at;
    assert PartOf(s, chains[i]) == e.at;
  }

  lemma TailPlaced(events: seq<Event>, lastSeq: int, e: Event)
    requires StreamOk(events, lastSeq) && TailOk(events) && e in events
    ensures e.body.Trace? ==> e.body.valid && e.at == lastSeq - 1
    ensures e.body.Completed? ==> e.body.settled && e.at == lastSeq
  {
    var n := |events|;
    if e.body.Trace? { OnlyOne(events, IsTrace, e, events[n - 2]); }
    if e.body.Completed? { OnlyOne(events, IsCompleted, e, events[n - 1]); }
  }

  lemma ProposalPlaced(events: seq<Event>, chains: seq<Chain>, e: Event)
    requires |Starts(events)| == |chains| && e in events && e.body.ToolStart?
    requires forall i :: 0 <= i < |chains| ==> chains[i].proposal == Starts(events)[i].at
    ensures InSomeChain(chains, Proposal, e.at)
  {
    SelectHas(events, IsStart, e);
    var i :| 0 <= i < |Starts(events)| && Starts(events)[i] == e;
    assert PartOf(Proposal, chains[i]) == e.at;
  }

  lemma EventPlaced(events: seq<Event>, rows: seq<Row>, fixture: Fixture, lastSeq: int, chains: seq<Chain>, e: Event)
    requires StreamOk(events, lastSeq) && TailOk(events) && CountsOk(events, |rows|)
    requires Chained(events, rows, chains) && |Starts(events)| == |rows|
    requires forall i :: 0 <= i < |rows| ==> chains[i].proposal == Starts(events)[i].at
    requires e in events
    ensures Placed(e, chains, lastSeq)
  {
    match e.body {
      case ToolStart(_, _, _) => ProposalPlaced(events, chains, e);
      case Claimed(_, _, _, _) => NoOrphan(events, rows, chains, Claim, e);
      case Started(_, _, _) => NoOrphan(events, rows, chains, Start, e);
      case Finished(_, _, _, _, _, _) => NoOrphan(events, rows, chains, Finish, e);
      case ToolEnd(_, _, _, _) => NoOrphan(events, rows, chains, End, e);
      case Trace(_) => TailPlaced(events, lastSeq, e);
      case Completed(_) => TailPlaced(events, lastSeq, e);
      case _ =>
    }
  }

  /** Row `i`, its card, its proposal and fixture position `i` belong together. */
  lemma ChainsFollowProposals(events: seq<Event>, rows: seq<Row>, fixture: Fixture, chains: seq<Chain>)
    requires ProposalsOk(events, fixture) && Chained(events, rows, chains)
    requires Sorted(rows, CardsOf(Starts(events))) && RowsOk(rows, CardsOf(Starts(events)), fixture)
    ensures forall i :: 0 <= i < |rows| ==> chains[i].proposal == Starts(events)[i].at
    ensures forall i, j :: 0 <= i < j < |rows| ==> chains[i].proposal < chains[j].proposal
  {
    RowsFollowProposals(rows, CardsOf(Starts(events)), fixture);
    forall i | 0 <= i < |rows| ensures chains[i].proposal == Starts(events)[i].at {
      ProposalIsStart(events, rows, fixture, i, chains[i]);
    }
    SelectIncreasing(events, IsStart);
  }

  ghost function PickChains(events: seq<Event>, rows: seq<Row>): (chains: seq<Chain>)
    requires forall i :: 0 <= i < |rows| ==> HasReceipts(events, rows[i])
    ensures |chains| == |rows| && forall i :: 0 <= i < |rows| ==> ReceiptsOk(events, rows[i], chains[i])
  {
    seq(|rows|, i requires 0 <= i < |rows| => PickChain(events, rows[i]))
  }

  lemma ChainsPlaceAll(events: seq<Event>, rows: seq<Row>, fixture: Fixture, lastSeq: int, chains: seq<Chain>)
    requires StreamOk(events, lastSeq) && TailOk(events) && CountsOk(events, |rows|)
    requires Chained(events, rows, chains) && |Starts(events)| == |rows|
    requires forall i :: 0 <= i < |rows| ==> chains[i].proposal == Starts(events)[i].at
    ensures AllPlaced(events, chains, lastSeq)
  {
    forall e | e in events ensures Placed(e, chains, lastSeq) {
      EventPlaced(events, rows, fixture, lastSeq, chains, e);
    }
  }

  lemma ClosingEvents(events: seq<Event>, lastSeq: int)
    requires StreamOk(events, lastSeq) && TailOk(events)
    ensures Event(lastSeq, Completed(true)) in events && Event(lastSeq - 1, Trace(true)) in events
  {
    var n := |events|;
    assert events[n - 1] == Event(lastSeq, Completed(true)) && events[n - 2] == Event(lastSeq - 1, Trace(true));
  }

  lemma PickedAreChained(events: seq<Event>, rows: seq<Row>, fixture: Fixture, lastSeq: int)
    requires Acceptable(events, rows, fixture, lastSeq)
    ensures Chained(events, rows, PickChains(events, rows))
    ensures RowChains(events, rows, fixture, PickChains(events, rows))
  {
    ChainsFollowProposals(events, rows, fixture, PickChains(events, rows));
  }

  /** Acceptance is a bijection between fixture positions, proposals, rows, receipts and ends. */
  lemma AcceptableIsLedger(events: seq<Event>, rows: seq<Row>, fixture: Fixture, lastSeq: int) returns (chains: seq<Chain>)
    requires Acceptable(events, rows, fixture, lastSeq)
    ensures IsLedger(events, rows, fixture, lastSeq, chains)
  {
    chains := PickChains(events, rows);
    PickedAreChained(events, rows, fixture, lastSeq);
    ChainsFollowProposals(events, rows, fixture, chains);
    ChainsPlaceAll(events, rows, fixture, lastSeq, chains);
    ClosingEvents(events, lastSeq);
  }

  // ---------------------------------------------------------------- and the converse

  lemma AtIsIndexed(events: seq<Event>, e: Event, i: nat)
    requires Increasing(events) && e in events && i < |events| && events[i].at == e.at
    ensures events[i] == e
  {
    SeqDetermines(events, events[i], e);
  }

  /** The first place with sequence number `at`. */
  function PlaceOf(events: seq<Event>, at: int): nat {
    if events == [] || events[0].at == at then 0 else 1 + PlaceOf(events[1..], at)
  }

  lemma {:induction false} PlaceIsFound(events: seq<Event>, at: int, k: nat)
    requires k < |events| && events[k].at == at
    ensures PlaceOf(events, at) < |events| && events[PlaceOf(events, at)].at == at
  {
    if events[0].at != at { PlaceIsFound(events[1..], at, k - 1); }
  }

  /** Two increasing lists of the same numbers agree place by place. */
  lemma SameNumbersSamePlaces(events: seq<Event>, n: nat, f: nat -> int)
    requires Increasing(events) && |events| == n
    requires forall i :: 0 <= i < n ==> f(i) in Seqs(events)
    requires forall i, j :: 0 <= i < j < n ==> f(i) < f(j)
    ensures forall i :: 0 <= i < n ==> events[i].at == f(i)
  {
    forall i | 0 <= i < n ensures exists k :: 0 <= k < n && events[k].at == f(i) {
      assert f(i) in Seqs(events);
      var e :| e in events && e.at == f(i);
      var k :| 0 <= k < n && events[k] == e;
      assert events[k].at == f(i);
    }
    var pos := (i: nat) => if i < n then PlaceOf(events, f(i)) else 0;
    forall i | 0 <= i < n ensures pos(i) < n && events[pos(i)].at == f(i) {
      var k :| 0 <= k < n && events[k].at == f(i);
      PlaceIsFound(events, f(i), k);
    }
    forall k, l | 0 <= k < l < n ensures pos(k) < pos(l) {
      assert events[pos(k)].at == f(k) && events[pos(l)].at == f(l);
    }
    forall i | 0 <= i < n ensures events[i].at == f(i) {
      IncreasingIsIdentity(n, pos, i);
    }
  }

  ghost predicate Has(events: seq<Event>, at: int, p: Body -> bool) {
    exists e :: e in events && e.at == at && p(e.body)
  }

  /** The events of a stage are exactly those of the chains, one each. */
  ghost predicate Covers(events: seq<Event>, chains: seq<Chain>, s: Stage) {
    && (forall i :: 0 <= i < |chains| ==> Has(events, PartOf(s, chains[i]), KindOf(s)))
    && (forall i, j :: 0 <= i < j < |chains| ==> PartOf(s, chains[i]) != PartOf(s, chains[j]))
    && (forall e :: e in events && KindOf(s)(e.body) ==> InSomeChain(chains, s, e.at))
  }

  /** The numbers of the events of a stage are its places in the chains. */
  lemma CoveredSeqs(events: seq<Event>, chains: seq<Chain>, s: Stage, f: nat -> int)
    requires Covers(events, chains, s) && forall i :: 0 <= i < |chains| ==> f(i) == PartOf(s, chains[i])
    ensures Seqs(Select(events, KindOf(s))) == set i | 0 <= i < |chains| :: f(i)
  {
    var image, p := set i | 0 <= i < |chains| :: f(i), KindOf(s);
    var chosen := Select(events, p);
    forall i | 0 <= i < |chains| ensures f(i) in Seqs(chosen) {
      assert Has(events, PartOf(s, chains[i]), p);
      var e :| e in events && e.at == f(i) && p(e.body);
      SelectHas(events, p, e);
    }
    forall x | x in Seqs(chosen) ensures x in image {
      var e :| e in chosen && e.at == x;
      SelectHas(events, p, e);
      assert InSomeChain(chains, s, e.at);
      var i :| 0 <= i < |chains| && PartOf(s, chains[i]) == e.at;
      assert f(i) == x;
    }
  }

  /** Such a stage occurs once per chain. */
  lemma CountFromChains(events: seq<Event>, chains: seq<Chain>, s: Stage)
    requires Increasing(events) && Covers(events, chains, s)
    ensures |Select(events, KindOf(s))| == |chains|
    ensures forall i :: 0 <= i < |chains| ==> PartOf(s, chains[i]) in Seqs(Select(events, KindOf(s)))
  {
    var n := |chains|;
    var f := (i: nat) => if i < n then PartOf(s, chains[i]) else 0;
    CoveredSeqs(events, chains, s, f);
    SelectIncreasing(events, KindOf(s));
    SeqsCount(Select(events, KindOf(s)));
    ImageCount(n, f);
    forall i | 0 <= i < n ensures PartOf(s, chains[i]) in Seqs(Select(events, KindOf(s))) {
      assert f(i) == PartOf(s, chains[i]);
    }
  }

  lemma LedgerCovers(events: seq<Event>, rows: seq<Row>, fixture: Fixture, lastSeq: int, chains: seq<Chain>, s: Stage)
    requires Increasing(events) && RowChains(events, rows, fixture, chains) && AllPlaced(events, chains, lastSeq)
    ensures Covers(events, chains, s)
  {
    forall i, j | 0 <= i < j < |chains| ensures PartOf(s, chains[i]) != PartOf(s, chains[j]) {
      ChainsApart(events, rows[i], rows[j], chains[i], chains[j], s);
    }
    forall i | 0 <= i < |chains| ensures Has(events, PartOf(s, chains[i]), KindOf(s)) {
      ChainHas(events, rows[i], chains[i], s);
    }
    forall e | e in events && KindOf(s)(e.body) ensures InSomeChain(chains, s, e.at) {
      assert Placed(e, chains, lastSeq);
    }
  }

  lemma StageCount(events: seq<Event>, rows: seq<Row>, fixture: Fixture, lastSeq: int, chains: seq<Chain>, s: Stage)
    requires Increasing(events) && RowChains(events, rows, fixture, chains) && AllPlaced(events, chains, lastSeq)
    ensures |Select(events, KindOf(s))| == |fixture|
    ensures forall i :: 0 <= i < |rows| ==> PartOf(s, chains[i]) in Seqs(Select(events, KindOf(s)))
  {
    LedgerCovers(events, rows, fixture, lastSeq, chains, s);
    CountFromChains(events, chains, s);
  }

  lemma LedgerCounts(events: seq<Event>, rows: seq<Row>, fixture: Fixture, lastSeq: int, chains: seq<Chain>)
    requires Increasing(events) && RowChains(events, rows, fixture, chains) && AllPlaced(events, chains, lastSeq)
    ensures |Select(events, IsClaimed)| == |Select(events, IsStarted)| == |Select(events, IsFinished)| == |fixture|
    ensures |Select(events, IsEnd)| == |Starts(events)| == |fixture|
    ensures forall i :: 0 <= i < |rows| ==> PartOf(Proposal, chains[i]) in Seqs(Starts(events))
  {
    StageCount(events, rows, fixture, lastSeq, chains, Proposal);
    StageCount(events, rows, fixture, lastSeq, chains, Claim);
    StageCount(events, rows, fixture, lastSeq, chains, Start);
    StageCount(events, rows, fixture, lastSeq, chains, Finish);
    StageCount(events, rows, fixture, lastSeq, chains, End);
  }

  lemma LedgerProposal(events: seq<Event>, row: Row, c: Chain, i: nat)
    requires Increasing(events) && ChainOk(events, row, c) && i < |Starts(events)| && Starts(events)[i].at == c.proposal
    ensures Starts(events)[i] == Event(c.proposal, ToolStart(row.card, true, row.command))
  {
    SelectHas(events, IsStart, Starts(events)[i]);
    SeqDetermines(events, Starts(events)[i], Event(c.proposal, ToolStart(row.card, true, row.command)));
  }

  /** The i-th proposal is that of the i-th chain. */
  lemma StartsArePlaced(events: seq<Event>, rows: seq<Row>, fixture: Fixture, lastSeq: int, chains: seq<Chain>)
    requires Increasing(events) && RowChains(events, rows, fixture, chains) && AllPlaced(events, chains, lastSeq)
    ensures |Starts(events)| == |rows|
    ensures forall i :: 0 <= i < |rows| ==> Starts(events)[i].at == chains[i].proposal
  {
    LedgerCounts(events, rows, fixture, lastSeq, chains);
    var n := |rows|;
    var f := (i: nat) => if i < n then PartOf(Proposal, chains[i]) else 0;
    SelectIncreasing(events, IsStart);
    SameNumbersSamePlaces(Starts(events), n, f);
    forall i | 0 <= i < n ensures Starts(events)[i].at == chains[i].proposal {
      assert f(i) == chains[i].proposal;
    }
  }

  lemma StartsAre(events: seq<Event>, rows: seq<Row>, fixture: Fixture, lastSeq: int, chains: seq<Chain>, i: nat)
    requires Increasing(events) && RowChains(events, rows, fixture, chains) && AllPlaced(events, chains, lastSeq)
    requires i < |rows| == |Starts(events)| && Starts(events)[i].at == chains[i].proposal
    ensures Starts(events)[i].body == ToolStart(rows[i].card, true, rows[i].command)
  {
    LedgerProposal(events, rows[i], chains[i], i);
  }

  lemma LedgerProposals(events: seq<Event>, rows: seq<Row>, fixture: Fixture, lastSeq: int, chains: seq<Chain>)
    requires Increasing(events) && RowChains(events, rows, fixture, chains) && AllPlaced(events, chains, lastSeq)
    ensures ProposalsOk(events, fixture)
    ensures forall i :: 0 <= i < |rows| ==> rows[i].card == CardsOf(Starts(events))[i]
  {
    StartsArePlaced(events, rows, fixture, lastSeq, chains);
    forall i | 0 <= i < |rows| ensures Starts(events)[i].body == ToolStart(rows[i].card, true, rows[i].command) {
      StartsAre(events, rows, fixture, lastSeq, chains, i);
    }
  }

  lemma {:induction false} OrderOfDistinct(cards: seq<Card>, i: nat)
    requires DistinctCards(cards) && i < |cards|
    ensures OrderOf(cards, cards[i]) == i
  {
    var k := OrderOf(cards, cards[i]);
    assert k < |cards| && cards[k] == cards[i];
    assert !(k < i) && !(i < k);
  }

  lemma EndsApart(events: seq<Event>, rows: seq<Row>, fixture: Fixture, lastSeq: int, chains: seq<Chain>, x: Event, y: Event)
    requires Increasing(events) && RowChains(events, rows, fixture, chains) && AllPlaced(events, chains, lastSeq)
    requires x in events && IsEnd(x.body) && y in events && IsEnd(y.body) && x.at != y.at
    ensures CardOf(x.body) != CardOf(y.body)
  {
    var a := OfChain(events, rows, fixture, lastSeq, chains, End, x);
    var b := OfChain(events, rows, fixture, lastSeq, chains, End, y);
    assert a != b;
  }

  lemma LedgerEndsDistinct(events: seq<Event>, rows: seq<Row>, fixture: Fixture, lastSeq: int, chains: seq<Chain>)
    requires Increasing(events) && RowChains(events, rows, fixture, chains) && AllPlaced(events, chains, lastSeq)
    ensures DistinctCards(CardsOf(Select(events, IsEnd)))
  {
    var ends := Select(events, IsEnd);
    SelectIncreasing(events, IsEnd);
    forall x, y | 0 <= x < y < |ends| ensures CardsOf(ends)[x] != CardsOf(ends)[y] {
      SelectHas(events, IsEnd, ends[x]);
      SelectHas(events, IsEnd, ends[y]);
      EndsApart(events, rows, fixture, lastSeq, chains, ends[x], ends[y]);
    }
  }

  /** Every event of a stage is that of some chain, and says what its row says. */
  lemma OfChain(events: seq<Event>, rows: seq<Row>, fixture: Fixture, lastSeq: int, chains: seq<Chain>, s: Stage, e: Event) returns (i: nat)
    requires Increasing(events) && RowChains(events, rows, fixture, chains) && AllPlaced(events, chains, lastSeq)
    requires e in events && KindOf(s)(e.body)
    ensures i < |rows| && e == EventOf(s, rows[i], chains[i])
  {
    assert Placed(e, chains, lastSeq);
    assert InSomeChain(chains, s, e.at);
    i :| 0 <= i < |chains| && PartOf(s, chains[i]) == e.at;
    ChainHas(events, rows[i], chains[i], s);
    SeqDetermines(events, e, EventOf(s, rows[i], chains[i]));
  }

  /** A selection all of whose members are one event of the run has length one. */
  lemma SingleSelected(events: seq<Event>, p: Body -> bool, e: Event)
    requires Increasing(events) && e in events && p(e.body)
    requires forall x :: x in events && p(x.body) ==> x.at == e.at
    ensures |Select(events, p)| == 1
  {
    var chosen := Select(events, p);
    SelectHas(events, p, e);
    SelectIncreasing(events, p);
    forall x | x in chosen ensures x.at == e.at {
      SelectHas(events, p, x);
    }
    SeqsCount(chosen);
    assert Seqs(chosen) == {e.at};
  }

  function ExecOf(b: Body): ExecId {
    match b
    case Claimed(exec, _, _, _) => exec
    case Started(exec, _, _) => exec
    case Finished(exec, _, _, _, _, _) => exec
    case _ => ""
  }

  /** A receipt that bears the execution id of row `i` is the one of chain `i`. */
  lemma ReceiptIsOfChain(events: seq<Event>, rows: seq<Row>, fixture: Fixture, lastSeq: int, chains: seq<Chain>, s: Stage, i: nat, x: Event)
    requires Increasing(events) && RowChains(events, rows, fixture, chains) && AllPlaced(events, chains, lastSeq)
    requires i < |rows| && (s.Claim? || s.Start? || s.Finish?)
    requires x in events && KindOf(s)(x.body) && ExecOf(x.body) == rows[i].exec
    ensures x.at == PartOf(s, chains[i])
  {
    var k := OfChain(events, rows, fixture, lastSeq, chains, s, x);
    assert ExecOf(x.body) == rows[k].exec;
    assert !(i < k) && !(k < i);
  }

  lemma OneReceipt(events: seq<Event>, rows: seq<Row>, fixture: Fixture, lastSeq: int, chains: seq<Chain>, s: Stage, i: nat, p: Body -> bool)
    requires Increasing(events) && RowChains(events, rows, fixture, chains) && AllPlaced(events, chains, lastSeq)
    requires i < |rows| && (s.Claim? || s.Start? || s.Finish?)
    requires forall b :: p(b) <==> KindOf(s)(b) && ExecOf(b) == rows[i].exec
    ensures |Select(events, p)| == 1
  {
    var e := EventOf(s, rows[i], chains[i]);
    ChainHas(events, rows[i], chains[i], s);
    forall x | x in events && p(x.body) ensures x.at == e.at {
      ReceiptIsOfChain(events, rows, fixture, lastSeq, chains, s, i, x);
    }
    SingleSelected(events, p, e);
  }

  lemma LedgerReceipts(events: seq<Event>, rows: seq<Row>, fixture: Fixture, lastSeq: int, chains: seq<Chain>, i: nat)
    requires Increasing(events) && RowChains(events, rows, fixture, chains) && AllPlaced(events, chains, lastSeq)
    requires i < |rows|
    ensures HasReceipts(events, rows[i])
  {
    var exec := rows[i].exec;
    OneReceipt(events, rows, fixture, lastSeq, chains, Claim, i, (b: Body) => b.Claimed? && b.exec == exec);
    OneReceipt(events, rows, fixture, lastSeq, chains, Start, i, (b: Body) => b.Started? && b.exec == exec);
    OneReceipt(events, rows, fixture, lastSeq, chains, Finish, i, (b: Body) => b.Finished? && b.exec == exec);
    assert ReceiptsOk(events, rows[i], chains[i]);
  }

  lemma LedgerTail(events: seq<Event>, lastSeq: int, chains: seq<Chain>)
    requires events != [] && Increasing(events) && events[|events| - 1].at == lastSeq && AllPlaced(events, chains, lastSeq)
    requires Event(lastSeq, Completed(true)) in events && Event(lastSeq - 1, Trace(true)) in events
    ensures TailOk(events)
  {
    var n := |events|;
    var last, trace := Event(lastSeq, Completed(true)), Event(lastSeq - 1, Trace(true));
    AtIsIndexed(events, last, n - 1);
    var k :| 0 <= k < n && events[k] == trace;
    assert k < n - 1 && events[n - 2].at < events[n - 1].at;
    assert events[k].at <= events[n - 2].at;
    forall x | x in events ensures (IsTrace(x.body) ==> x.at == lastSeq - 1) && (IsCompleted(x.body) ==> x.at == lastSeq) {
      assert Placed(x, chains, lastSeq);
    }
    SingleSelected(events, IsTrace, trace);
    SingleSelected(events, IsCompleted, last);
  }

  /** Every ledger is accepted. */
  lemma LedgerIsAcceptable(events: seq<Event>, rows: seq<Row>, fixture: Fixture, lastSeq: int, chains: seq<Chain>)
    requires IsLedger(events, rows, fixture, lastSeq, chains)
    ensures Acceptable(events, rows, fixture, lastSeq)
  {
    forall e | e in events ensures !e.body.Approval? && !e.body.Ambiguous? {
      assert Placed(e, chains, lastSeq);
    }
    LedgerProposals(events, rows, fixture, lastSeq, chains);
    LedgerCounts(events, rows, fixture, lastSeq, chains);
    LedgerEndsDistinct(events, rows, fixture, lastSeq, chains);
    LedgerTail(events, lastSeq, chains);
    LedgerRows(events, rows, fixture, chains);
    forall i | 0 <= i < |rows| ensures HasReceipts(events, rows[i]) {
      LedgerReceipts(events, rows, fixture, lastSeq, chains, i);
    }
  }

  lemma LedgerRows(events: seq<Event>, rows: seq<Row>, fixture: Fixture, chains: seq<Chain>)
    requires RowChains(events, rows, fixture, chains) && ProposalsOk(events, fixture)
    requires forall i :: 0 <= i < |rows| ==> rows[i].card == CardsOf(Starts(events))[i]
    ensures Sorted(rows, CardsOf(Starts(events))) && RowsOk(rows, CardsOf(Starts(events)), fixture)
  {
    var cards := CardsOf(Starts(events));
    forall i | 0 <= i < |rows| ensures OrderOf(cards, rows[i].card) == i && rows[i].card in cards {
      OrderOfDistinct(cards, i);
    }
  }

  // ---------------------------------------------------------------- what a ledger is, position by position

  lemma EndBeforeTail(events: seq<Event>, rows: seq<Row>, fixture: Fixture, lastSeq: int, chains: seq<Chain>, i: nat)
    requires IsLedger(events, rows, fixture, lastSeq, chains) && i < |fixture|
    ensures chains[i].end < lastSeq - 1
  {
    var n, e := |events|, EventOf(End, rows[i], chains[i]);
    ChainHas(events, rows[i], chains[i], End);
    var k :| 0 <= k < n && events[k] == e;
    assert k < n - 1 ==> e.at < lastSeq;
    if e.at == lastSeq {
      SeqDetermines(events, e, Event(lastSeq, Completed(true)));
    } else if e.at == lastSeq - 1 {
      SeqDetermines(events, e, Event(lastSeq - 1, Trace(true)));
    }
  }

  /**
   * Position `i` of an accepted run: its command was proposed, claimed, started and finished and its end reported, in
   * this order and by one row, all before the trace and the completion; the positions come in fixture order.
   */
  lemma LedgerAt(events: seq<Event>, rows: seq<Row>, fixture: Fixture, lastSeq: int, chains: seq<Chain>, i: nat)
    requires IsLedger(events, rows, fixture, lastSeq, chains) && i < |fixture|
    ensures |rows| == |chains| == |fixture|
    ensures var r, c := rows[i], chains[i];
      && Event(c.proposal, ToolStart(r.card, true, fixture[i])) in events
      && Event(c.claim, Claimed(r.exec, true, r.fingerprint, r.checkpoint)) in events
      && Event(c.start, Started(r.exec, true, r.card)) in events
      && Event(c.finish, Finished(r.exec, true, r.card, r.receipt, r.digest, r.result)) in events
      && Event(c.end, ToolEnd(r.card, true, r.result, r.annotations)) in events
      && 0 < c.proposal < c.claim < c.start < c.finish < c.end < lastSeq - 1
      && r.terminalSeq == c.finish && r.sound && r.exec != "" && r.card != ""
    ensures forall j :: 0 <= j < i ==>
      chains[j].proposal < chains[i].proposal && rows[j].exec != rows[i].exec && rows[j].card != rows[i].card
  {
    EndBeforeTail(events, rows, fixture, lastSeq, chains, i);
    var e := EventOf(Proposal, rows[i], chains[i]);
    ChainHas(events, rows[i], chains[i], Proposal);
    var k :| 0 <= k < |events| && events[k] == e;
    assert events[0].at <= e.at;
  }

  /** No event of an accepted run is beside its chains: each is a stage of one position, or closes the run. */
  lemma LedgerHoldsNoOther(events: seq<Event>, rows: seq<Row>, fixture: Fixture, lastSeq: int, chains: seq<Chain>, e: Event)
    requires IsLedger(events, rows, fixture, lastSeq, chains) && e in events
    ensures match e.body
      case Approval => false
      case Ambiguous => false
      case Trace(_) => e == Event(lastSeq - 1, Trace(true))
      case Completed(_) => e == Event(lastSeq, Completed(true))
      case OtherEvent => true
      case _ => exists i :: 0 <= i < |rows| && InChain(e, rows[i], chains[i])
  {
    assert Placed(e, chains, lastSeq);
    if e.body.ToolStart? || e.body.Claimed? || e.body.Started? || e.body.Finished? || e.body.ToolEnd? {
      var s := if e.body.ToolStart? then Proposal else if e.body.Claimed? then Claim else if e.body.Started? then Start
               else if e.body.Finished? then Finish else End;
      var i := OfChain(events, rows, fixture, lastSeq, chains, s, e);
      assert InChain(e, rows[i], chains[i]);
    }
  }

  /** `e` is one of the five events of the chain. */
  predicate InChain(e: Event, row: Row, c: Chain) {
    || e == EventOf(Proposal, row, c) || e == EventOf(Claim, row, c) || e == EventOf(Start, row, c)
    || e == EventOf(Finish, row, c) || e == EventOf(End, row, c)
  }
}
