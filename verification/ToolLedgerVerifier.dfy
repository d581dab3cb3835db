/**
 * The verifier of scripts/benchmark-helix-v3-tool-scenarios.py as it runs: selections, a
 * dictionary of proposals, a sort of the execution rows in place, and one loop per check.
 */
module ToolLedgerVerifier {
  import opened Wrappers
  import opened ToolLedger

  method SelectEvents(events: seq<Event>, p: Body -> bool) returns (r: seq<Event>)
    ensures r == Select(events, p)
  {
    r := [];
    for i := 0 to |events|
      invariant r + Select(events[i..], p) == Select(events, p)
    {
      assert events[i..][0] == events[i] && events[i..][1..] == events[i + 1..];
      if p(events[i].body) {
        r := r + [events[i]];
      }
    }
  }

  method CheckStream(events: seq<Event>, lastSeq: int) returns (ok: bool)
    ensures ok <==> StreamOk(events, lastSeq)
  {
    var prior := 0;
    for i := 0 to |events|
      invariant prior >= 0 && (i == 0 ==> prior == 0) && (i > 0 ==> prior == events[i - 1].at && events[0].at > 0)
      invariant forall j, k :: 0 <= j < k < i ==> events[j].at < events[k].at
      invariant forall j :: 0 <= j < i ==> !events[j].body.Approval? && !events[j].body.Ambiguous?
    {
      if events[i].at <= prior || events[i].body.Approval? || events[i].body.Ambiguous? {
        assert events[i] in events;
        assert i > 0 ==> !(events[i - 1].at < events[i].at) || events[i].body.Approval? || events[i].body.Ambiguous?;
        return false;
      }
      prior := events[i].at;
    }
    ok := events != [] && events[|events| - 1].at == lastSeq;
  }

  method CheckProposals(starts: seq<Event>, fixture: Fixture) returns (ok: bool)
    requires forall e :: e in starts ==> e.body.ToolStart?
    ensures ok <==>
      && |starts| == |fixture| && DistinctCards(CardsOf(starts))
      && forall i :: 0 <= i < |starts| ==> ProposalOk(starts[i].body, fixture[i])
  {
    if |starts| != |fixture| { return false; }
    var seen: set<Card> := {};
    ghost var cards := CardsOf(starts);
    for i := 0 to |starts|
      invariant seen == set k | 0 <= k < i :: cards[k]
      invariant forall j, k :: 0 <= j < k < i ==> cards[j] != cards[k]
      invariant forall k :: 0 <= k < i ==> ProposalOk(starts[k].body, fixture[k])
    {
      assert starts[i] in starts;
      var b := starts[i].body;
      assert cards[i] == b.card;
      if !b.ungated || b.card == "" || b.card in seen || b.command != fixture[i] {
        return false;
      }
      seen := seen + {b.card};
    }
    ok := true;
  }

  method InsertRow(rows: seq<Row>, row: Row, cards: seq<Card>) returns (r: seq<Row>)
    requires Sorted(rows, cards)
    ensures Sorted(r, cards) && multiset(r) == multiset(rows) + multiset{row}
  {
    var k := 0;
    while k < |rows| && OrderOf(cards, rows[k].card) <= OrderOf(cards, row.card)
      invariant k <= |rows|
      invariant forall i :: 0 <= i < k ==> OrderOf(cards, rows[i].card) <= OrderOf(cards, row.card)
    {
      k := k + 1;
    }
    r := rows[..k] + [row] + rows[k..];
    assert rows == rows[..k] + rows[k..];
    InsertedIsSorted(rows[..k], row, rows[k..], cards, rows);
    InsertedRows(rows[..k], row, rows[k..]);
  }

  lemma InsertedRows(before: seq<Row>, row: Row, after: seq<Row>)
    ensures multiset(before + [row] + after) == multiset(before + after) + multiset{row}
  {
  }

  lemma InsertedIsSorted(before: seq<Row>, row: Row, after: seq<Row>, cards: seq<Card>, rows: seq<Row>)
    requires rows == before + after && Sorted(rows, cards)
    requires forall i :: 0 <= i < |before| ==> OrderOf(cards, before[i].card) <= OrderOf(cards, row.card)
    requires after != [] ==> OrderOf(cards, row.card) <= OrderOf(cards, after[0].card)
    ensures Sorted(before + [row] + after, cards)
  {
    var r := before + [row] + after;
    forall i, j | 0 <= i < j < |r| ensures OrderOf(cards, r[i].card) <= OrderOf(cards, r[j].card) {
      var n := |before|;
      if i < n && j < n { assert rows[i] == r[i] && rows[j] == r[j]; }
      else if i < n && j > n { assert rows[i] == r[i] && rows[j - 1] == r[j]; }
      else if i > n { assert rows[i - 1] == r[i] && rows[j - 1] == r[j]; }
      else if i == n { assert rows[n] == after[0] && rows[j - 1] == r[j]; }
    }
  }

  /** `execution_rows.sort(key=...)`: by the position of the row's card among the proposals. */
  method SortRows(rows: seq<Row>, cards: seq<Card>) returns (r: seq<Row>)
    ensures Sorted(r, cards) && multiset(r) == multiset(rows)
  {
    r := [];
    for i := 0 to |rows|
      invariant Sorted(r, cards) && multiset(r) == multiset(rows[..i])
    {
      r := InsertRow(r, rows[i], cards);
      assert rows[..i + 1] == rows[..i] + [rows[i]];
    }
    assert rows[..|rows|] == rows;
  }

  method CheckRows(rows: seq<Row>, cards: seq<Card>, fixture: Fixture) returns (ok: bool)
    ensures ok <==> RowsOk(rows, cards, fixture)
  {
    if |rows| != |fixture| { return false; }
    var execs: set<ExecId>, seen: set<Card> := {}, {};
    for i := 0 to |rows|
      invariant forall k :: 0 <= k < i ==>
        rows[k].exec != "" && rows[k].sound && rows[k].card != "" && rows[k].card in cards && rows[k].command == fixture[k]
      invariant forall j, k :: 0 <= j < k < i ==> rows[j].exec != rows[k].exec && rows[j].card != rows[k].card
      invariant forall x :: x in execs <==> exists k :: 0 <= k < i && rows[k].exec == x
      invariant forall x :: x in seen <==> exists k :: 0 <= k < i && rows[k].card == x
    {
      var row := rows[i];
      if row.exec == "" || row.exec in execs || !row.sound || row.card == "" || row.card in seen
         || row.card !in cards || row.command != fixture[i] {
        return false;
      }
      execs, seen := execs + {row.exec}, seen + {row.card};
    }
    ok := true;
  }

  method CheckEnds(ends: seq<Event>) returns (ok: bool)
    ensures ok <==> DistinctCards(CardsOf(ends))
  {
    var seen: set<Card> := {};
    ghost var cards := CardsOf(ends);
    for i := 0 to |ends|
      invariant forall x :: x in seen <==> exists k :: 0 <= k < i && cards[k] == x
      invariant forall j, k :: 0 <= j < k < i ==> cards[j] != cards[k]
    {
      assert cards[i] == CardOf(ends[i].body);
      if CardOf(ends[i].body) in seen { return false; }
      seen := seen + {CardOf(ends[i].body)};
    }
    ok := true;
  }

  /** The end that bears a card, if any. */
  method FindEnd(ends: seq<Event>, card: Card) returns (r: Option<Event>)
    ensures r.Some? ==> r.value in ends && CardOf(r.value.body) == card
    ensures r.None? ==> forall e :: e in ends ==> CardOf(e.body) != card
  {
    for i := 0 to |ends|
      invariant forall k :: 0 <= k < i ==> CardOf(ends[k].body) != card
    {
      if CardOf(ends[i].body) == card { return Some(ends[i]); }
    }
    r := None;
  }

  lemma SameCardSameEvent(events: seq<Event>, a: Event, b: Event)
    requires DistinctCards(CardsOf(events)) && a in events && b in events && CardOf(a.body) == CardOf(b.body)
    ensures a == b
  {
    var i :| 0 <= i < |events| && events[i] == a;
    var j :| 0 <= j < |events| && events[j] == b;
    assert CardsOf(events)[i] == CardsOf(events)[j];
  }

  /** What the receipts of a row must say, given the events found for it. */
  predicate ReceiptsSay(row: Row, proposal: Event, claim: Event, start: Event, finish: Event, end: Event) {
    && claim.body == Claimed(row.exec, true, row.fingerprint, row.checkpoint)
    && start.body == Started(row.exec, true, row.card)
    && finish.body == Finished(row.exec, true, row.card, row.receipt, row.digest, row.result)
    && end.body == ToolEnd(row.card, true, row.result, row.annotations)
    && proposal.at < claim.at < start.at < finish.at < end.at
    && row.terminalSeq == finish.at
  }

  ghost predicate Found(events: seq<Event>, row: Row, proposal: Event, claim: Event, start: Event, finish: Event, end: Event) {
    && ClaimsOf(events, row.exec) == [claim] && StartsOf(events, row.exec) == [start] && FinishesOf(events, row.exec) == [finish]
    && proposal in Starts(events) && proposal.body == ToolStart(row.card, true, row.command)
    && end in Select(events, IsEnd) && CardOf(end.body) == row.card
    && DistinctCards(CardsOf(Starts(events))) && DistinctCards(CardsOf(Select(events, IsEnd)))
  }

  lemma FoundInRun(events: seq<Event>, row: Row, proposal: Event, claim: Event, start: Event, finish: Event, end: Event)
    requires Found(events, row, proposal, claim, start, finish, end)
    ensures proposal in events && claim in events && start in events && finish in events && end in events
  {
    SelectHas(events, IsStart, proposal);
    SelectHas(events, (b: Body) => b.Claimed? && b.exec == row.exec, claim);
    SelectHas(events, (b: Body) => b.Started? && b.exec == row.exec, start);
    SelectHas(events, (b: Body) => b.Finished? && b.exec == row.exec, finish);
    SelectHas(events, IsEnd, end);
  }

  lemma FoundIsChain(events: seq<Event>, row: Row, proposal: Event, claim: Event, start: Event, finish: Event, end: Event, c: Chain)
    requires Found(events, row, proposal, claim, start, finish, end) && ReceiptsOk(events, row, c)
    ensures ReceiptsSay(row, proposal, claim, start, finish, end)
  {
    var p, e := Event(c.proposal, ToolStart(row.card, true, row.command)), Event(c.end, ToolEnd(row.card, true, row.result, row.annotations));
    SelectHas(events, IsStart, p);
    SameCardSameEvent(Starts(events), p, proposal);
    SelectHas(events, IsEnd, e);
    SameCardSameEvent(Select(events, IsEnd), e, end);
    var x := Event(c.claim, Claimed(row.exec, true, row.fingerprint, row.checkpoint));
    SelectHas(events, (b: Body) => b.Claimed? && b.exec == row.exec, x);
    assert x in [claim];
    var y := Event(c.start, Started(row.exec, true, row.card));
    SelectHas(events, (b: Body) => b.Started? && b.exec == row.exec, y);
    assert y in [start];
    var z := Event(c.finish, Finished(row.exec, true, row.card, row.receipt, row.digest, row.result));
    SelectHas(events, (b: Body) => b.Finished? && b.exec == row.exec, z);
    assert z in [finish];
  }

  lemma SayingIsChain(events: seq<Event>, row: Row, proposal: Event, claim: Event, start: Event, finish: Event, end: Event)
    requires Found(events, row, proposal, claim, start, finish, end) && ReceiptsSay(row, proposal, claim, start, finish, end)
    ensures HasReceipts(events, row)
  {
    FoundInRun(events, row, proposal, claim, start, finish, end);
    assert ReceiptsOk(events, row, Chain(proposal.at, claim.at, start.at, finish.at, end.at));
  }

  lemma NoEndNoReceipts(events: seq<Event>, row: Row)
    requires forall e :: e in Select(events, IsEnd) ==> CardOf(e.body) != row.card
    ensures !HasReceipts(events, row)
  {
    forall c | ReceiptsOk(events, row, c) ensures false {
      SelectHas(events, IsEnd, Event(c.end, ToolEnd(row.card, true, row.result, row.annotations)));
    }
  }

  /** The receipts of one row. */
  method CheckReceipts(events: seq<Event>, row: Row, starts: seq<Event>, ends: seq<Event>) returns (ok: bool)
    requires starts == Starts(events) && ends == Select(events, IsEnd)
    requires DistinctCards(CardsOf(starts)) && DistinctCards(CardsOf(ends))
    requires exists p :: p in starts && p.body == ToolStart(row.card, true, row.command)
    ensures ok <==> HasReceipts(events, row)
  {
    var claims := SelectEvents(events, (b: Body) => b.Claimed? && b.exec == row.exec);
    var begun := SelectEvents(events, (b: Body) => b.Started? && b.exec == row.exec);
    var finishes := SelectEvents(events, (b: Body) => b.Finished? && b.exec == row.exec);
    assert claims == ClaimsOf(events, row.exec) && begun == StartsOf(events, row.exec) && finishes == FinishesOf(events, row.exec);
    if |claims| != 1 || |begun| != 1 || |finishes| != 1 { return false; }
    var end := FindEnd(ends, row.card);
    if end.None? {
      NoEndNoReceipts(events, row);
      return false;
    }
    var proposal :| proposal in starts && proposal.body == ToolStart(row.card, true, row.command);
    ok := ReceiptsSay(row, proposal, claims[0], begun[0], finishes[0], end.value);
    assert Found(events, row, proposal, claims[0], begun[0], finishes[0], end.value);
    if ok {
      SayingIsChain(events, row, proposal, claims[0], begun[0], finishes[0], end.value);
    } else {
      forall c | ReceiptsOk(events, row, c) ensures false {
        FoundIsChain(events, row, proposal, claims[0], begun[0], finishes[0], end.value, c);
      }
    }
  }

  method CheckTail(events: seq<Event>) returns (ok: bool)
    ensures ok <==> TailOk(events)
  {
    var traces := SelectEvents(events, IsTrace);
    var completions := SelectEvents(events, IsCompleted);
    var n := |events|;
    ok := |traces| == 1 && |completions| == 1 && n >= 2
      && events[n - 1].body == Completed(true) && events[n - 2].body == Trace(true)
      && events[n - 2].at == events[n - 1].at - 1;
  }

  method CheckCounts(events: seq<Event>, n: nat, ends: seq<Event>) returns (ok: bool)
    requires ends == Select(events, IsEnd)
    ensures ok <==> CountsOk(events, n)
  {
    var claimed := SelectEvents(events, IsClaimed);
    var started := SelectEvents(events, IsStarted);
    var finished := SelectEvents(events, IsFinished);
    if |claimed| != n || |started| != n || |finished| != n || |ends| != n { return false; }
    ok := CheckEnds(ends);
  }

  lemma ProposalOfRow(rows: seq<Row>, starts: seq<Event>, fixture: Fixture, i: nat)
    requires i < |rows| == |starts| == |fixture| && ProposalOk(starts[i].body, fixture[i])
    requires rows[i].card == CardsOf(starts)[i] && rows[i].command == fixture[i]
    ensures starts[i] in starts && starts[i].body == ToolStart(rows[i].card, true, rows[i].command)
  {
  }

  method CheckAllReceipts(events: seq<Event>, rows: seq<Row>, starts: seq<Event>, ends: seq<Event>, fixture: Fixture) returns (ok: bool)
    requires starts == Starts(events) && ends == Select(events, IsEnd)
    requires ProposalsOk(events, fixture) && DistinctCards(CardsOf(ends))
    requires Sorted(rows, CardsOf(starts)) && RowsOk(rows, CardsOf(starts), fixture)
    ensures ok <==> forall i :: 0 <= i < |rows| ==> HasReceipts(events, rows[i])
  {
    RowsFollowProposals(rows, CardsOf(starts), fixture);
    for i := 0 to |rows|
      invariant forall k :: 0 <= k < i ==> HasReceipts(events, rows[k])
    {
      ProposalOfRow(rows, starts, fixture, i);
      var good := CheckReceipts(events, rows[i], starts, ends);
      if !good { return false; }
    }
    ok := true;
  }

  /** The whole verifier; `sorted` is the order in which the rows are matched with the fixture. */
  method CheckLedger(events: seq<Event>, rows: seq<Row>, fixture: Fixture, lastSeq: int) returns (accepted: bool, sorted: seq<Row>)
    ensures multiset(sorted) == multiset(rows)
    ensures Sorted(sorted, CardsOf(Starts(events)))
    ensures accepted <==> Acceptable(events, sorted, fixture, lastSeq)
  {
    var starts := SelectEvents(events, IsStart);
    var ends := SelectEvents(events, IsEnd);
    forall e | e in starts ensures e.body.ToolStart? {
      SelectHas(events, IsStart, e);
    }
    sorted := SortRows(rows, CardsOf(starts));
    accepted := false;
    var ok := CheckStream(events, lastSeq);
    if !ok { return; }
    ok := CheckProposals(starts, fixture);
    if !ok { return; }
    ok := CheckRows(sorted, CardsOf(starts), fixture);
    if !ok { return; }
    ok := CheckCounts(events, |fixture|, ends);
    if !ok { return; }
    ok := CheckAllReceipts(events, sorted, starts, ends, fixture);
    if !ok { return; }
    accepted := CheckTail(events);
  }

  /** Where a row of `a` stands in the arrangement `b` that fits the proposals. */
  lemma PlaceInFitting(a: seq<Row>, b: seq<Row>, cards: seq<Card>, fixture: Fixture, i: nat)
    requires multiset(a) == multiset(b) && Sorted(b, cards) && |cards| == |fixture| && RowsOk(b, cards, fixture)
    requires i < |a|
    ensures OrderOf(cards, a[i].card) < |b| && b[OrderOf(cards, a[i].card)] == a[i]
  {
    assert a[i] in multiset(b);
    var k :| 0 <= k < |b| && b[k] == a[i];
    ProposedOrder(b, cards, fixture, k);
  }

  lemma StrictOrder(a: seq<Row>, b: seq<Row>, cards: seq<Card>, fixture: Fixture, i: nat, j: nat)
    requires multiset(a) == multiset(b) && Sorted(a, cards) && Sorted(b, cards) && |cards| == |fixture| && RowsOk(b, cards, fixture)
    requires i < j < |a|
    ensures OrderOf(cards, a[i].card) < OrderOf(cards, a[j].card)
  {
    PlacesDiffer(a, b, cards, fixture, i, j);
    assert OrderOf(cards, a[i].card) <= OrderOf(cards, a[j].card);
  }

  lemma PlacesDiffer(a: seq<Row>, b: seq<Row>, cards: seq<Card>, fixture: Fixture, i: nat, j: nat)
    requires multiset(a) == multiset(b) && Sorted(b, cards) && |cards| == |fixture| && RowsOk(b, cards, fixture)
    requires i < j < |a|
    ensures OrderOf(cards, a[i].card) != OrderOf(cards, a[j].card)
  {
    RowsDiffer(a, b, cards, fixture, i, j);
    PlaceInFitting(a, b, cards, fixture, i);
    PlaceInFitting(a, b, cards, fixture, j);
  }

  lemma RowsDiffer(a: seq<Row>, b: seq<Row>, cards: seq<Card>, fixture: Fixture, i: nat, j: nat)
    requires multiset(a) == multiset(b) && RowsOk(b, cards, fixture) && i < j < |a|
    ensures a[i] != a[j]
  {
    OnceInSeq(b, cards, fixture, a[i]);
    if a[i] == a[j] { TwiceInSeq(a, i, j); }
  }

  /** Two sorted arrangements of the same rows agree when one of them fits the proposals. */
  lemma SortedIsUnique(a: seq<Row>, b: seq<Row>, cards: seq<Card>, fixture: Fixture)
    requires multiset(a) == multiset(b) && Sorted(a, cards) && Sorted(b, cards)
    requires |cards| == |fixture| && RowsOk(b, cards, fixture)
    ensures a == b
  {
    assert |a| == |multiset(a)| == |multiset(b)| == |b|;
    var f := (i: nat) => if i < |a| then OrderOf(cards, a[i].card) else 0;
    forall i | 0 <= i < |a| ensures 0 <= f(i) < |a| {
      PlaceInFitting(a, b, cards, fixture, i);
    }
    forall k, l | 0 <= k < l < |a| ensures f(k) < f(l) {
      StrictOrder(a, b, cards, fixture, k, l);
    }
    forall i | 0 <= i < |a| ensures a[i] == b[i] {
      IncreasingIsIdentity(|a|, f, i);
      PlaceInFitting(a, b, cards, fixture, i);
    }
  }

  lemma ProposedOrder(b: seq<Row>, cards: seq<Card>, fixture: Fixture, k: nat)
    requires Sorted(b, cards) && |cards| == |fixture| && RowsOk(b, cards, fixture) && k < |b|
    ensures OrderOf(cards, b[k].card) == k
  {
    RowsFollowProposals(b, cards, fixture);
    var o := OrderOf(cards, b[k].card);
    assert b[o].card == b[k].card;
  }

  lemma TwiceInSeq(a: seq<Row>, i: nat, j: nat)
    requires i < j < |a| && a[i] == a[j]
    ensures multiset(a)[a[i]] >= 2
  {
    assert a == a[..i] + [a[i]] + a[i + 1..j] + [a[j]] + a[j + 1..];
  }

  lemma OnceInSeq(b: seq<Row>, cards: seq<Card>, fixture: Fixture, x: Row)
    requires RowsOk(b, cards, fixture)
    ensures multiset(b)[x] <= 1
  {
    if x in b {
      var k :| 0 <= k < |b| && b[k] == x;
      assert b == b[..k] + [x] + b[k + 1..];
      assert x !in b[..k] && x !in b[k + 1..];
    }
  }

  /** A run is accepted exactly when some arrangement of its execution rows is a ledger. */
  method AcceptLedger(events: seq<Event>, rows: seq<Row>, fixture: Fixture, lastSeq: int) returns (accepted: bool)
    ensures accepted <==> exists order: seq<Row>, chains: seq<Chain> ::
      multiset(order) == multiset(rows) && IsLedger(events, order, fixture, lastSeq, chains)
  {
    var sorted;
    accepted, sorted := CheckLedger(events, rows, fixture, lastSeq);
    if accepted {
      var chains := AcceptableIsLedger(events, sorted, fixture, lastSeq);
      assert multiset(sorted) == multiset(rows) && IsLedger(events, sorted, fixture, lastSeq, chains);
    } else {
      forall order: seq<Row>, chains: seq<Chain> | multiset(order) == multiset(rows) && IsLedger(events, order, fixture, lastSeq, chains)
        ensures false
      {
        LedgerIsAcceptable(events, order, fixture, lastSeq, chains);
        SortedIsUnique(sorted, order, CardsOf(Starts(events)), fixture);
      }
    }
  }
}
