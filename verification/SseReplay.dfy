/**
 * What an accepted event stream proves: printed again it is consumed again, and the run it is
 * taken to show ended with its last event.
 */
module SseReplay {
  import opened Wrappers
  import opened Text
  import opened Sequences
  import opened SseFrames
  import opened SseConsumer

  // ---------------------------------------------------------------- printing the events again

  lemma {:induction false} EventsAreWellFormed(r: Reader, blocks: seq<seq<string>>, k: nat)
    requires k < |Emitted(r, blocks)|
    ensures WellFormed(Emitted(r, blocks)[k])
  {
    var n := |blocks| - 1;
    if k < |Emitted(r, blocks[..n])| {
      EventsAreWellFormed(r, blocks[..n], k);
    } else {
      EmittedIsWellFormed(r, blocks[n]);
    }
  }

  function Frames(dumps: Json -> string, events: seq<Event>, createdAt: seq<int>): seq<seq<string>>
    requires |events| == |createdAt|
  {
    seq(|events|, i requires 0 <= i < |events| => Frame(dumps, events[i], createdAt[i]))
  }

  /** The lines of a stream of frames, each ended by a blank line. */
  function StreamOf(frames: seq<seq<string>>): seq<string> {
    if frames == [] then [] else StreamOf(frames[..|frames| - 1]) + frames[|frames| - 1] + [""]
  }

  function Texts(wires: seq<Wire>): seq<string> {
    seq(|wires|, i requires 0 <= i < |wires| => wires[i].text)
  }

  predicate NoBlank(frame: seq<string>) {
    forall i :: 0 <= i < |frame| ==> frame[i] != ""
  }

  /** Lines without a blank among them are collected. */
  lemma {:induction false} Collects(a: seq<Wire>, b: seq<Wire>)
    requires NoBlank(Texts(b))
    ensures Ended(a + b) == Ended(a) && Unended(a + b) == Unended(a) + Texts(b)
    decreases |b|
  {
    if b == [] {
      assert a + b == a;
    } else {
      var n := |b| - 1;
      var front := b[..n];
      assert Texts(front) == Texts(b)[..n] && Texts(b)[n] == b[n].text;
      Collects(a, front);
      NextWire(a + front, b[n]);
      assert b == front + [b[n]] && Texts(b) == Texts(front) + [b[n].text];
      Assoc(a, front, [b[n]]);
      Assoc(Unended(a), Texts(front), [b[n].text]);
    }
  }

  /** A frame and the blank line after it end one more block. */
  lemma FrameEnds(a: seq<Wire>, b: seq<Wire>, blank: Wire)
    requires NoBlank(Texts(b)) && blank.text == "" && Unended(a) == []
    ensures Ended(a + b + [blank]) == Ended(a) + [Texts(b)] && Unended(a + b + [blank]) == []
  {
    Collects(a, b);
    NextWire(a + b, blank);
    assert [] + Texts(b) == Texts(b);
  }

  lemma TextsSlice(wires: seq<Wire>, i: nat, j: nat)
    requires i <= j <= |wires|
    ensures Texts(wires[i..j]) == Texts(wires)[i..j]
  {
  }

  /** The blocks of a stream of frames are the frames, and nothing is left over. */
  lemma {:induction false} StreamSplitsIntoFrames(wires: seq<Wire>, frames: seq<seq<string>>)
    requires Texts(wires) == StreamOf(frames) && forall i :: 0 <= i < |frames| ==> NoBlank(frames[i])
    ensures Ended(wires) == frames && Unended(wires) == []
    decreases |frames|
  {
    var n := |Texts(wires)|;
    if frames == [] {
      assert wires == [];
    } else {
      var before, last := frames[..|frames| - 1], frames[|frames| - 1];
      var k := |StreamOf(before)|;
      TextsSlice(wires, 0, k);
      TextsSlice(wires, k, n - 1);
      var a, b, blank := wires[0..k], wires[k..n - 1], wires[n - 1];
      assert Texts(a) == StreamOf(before) && Texts(b) == last && Texts(wires)[n - 1] == blank.text == "";
      StreamSplitsIntoFrames(a, before);
      FrameEnds(a, b, blank);
      assert wires == a + b + [blank] && frames == before + [last];
    }
  }

  /** `Emitted` for any judge of blocks. */
  function EmittedBy(judge: seq<string> -> Verdict, blocks: seq<seq<string>>): seq<Event> {
    if blocks == [] then []
    else
      var verdict := judge(blocks[|blocks| - 1]);
      EmittedBy(judge, blocks[..|blocks| - 1]) + (if verdict.Emits? then [verdict.event] else [])
  }

  lemma {:induction false} EmittedIsBy(r: Reader, judge: seq<string> -> Verdict, blocks: seq<seq<string>>)
    requires forall b :: judge(b) == Judge(r, b)
    ensures Emitted(r, blocks) == EmittedBy(judge, blocks)
  {
    if blocks != [] { EmittedIsBy(r, judge, blocks[..|blocks| - 1]); }
  }

  lemma {:induction false} AllEmit(judge: seq<string> -> Verdict, blocks: seq<seq<string>>, events: seq<Event>)
    requires |blocks| == |events| && forall i :: 0 <= i < |blocks| ==> judge(blocks[i]) == Emits(events[i])
    ensures EmittedBy(judge, blocks) == events
  {
    if events != [] {
      var m := |events| - 1;
      AllEmit(judge, blocks[..m], events[..m]);
      assert events == events[..m] + [events[m]];
    }
  }

  lemma FramesEmit(r: Reader, dumps: Json -> string, events: seq<Event>, createdAt: seq<int>)
    requires |events| == |createdAt|
    requires forall i :: 0 <= i < |events| ==> WellFormed(events[i]) && Sendable(r, dumps, Envelope(events[i], createdAt[i]))
    ensures Emitted(r, Frames(dumps, events, createdAt)) == events
  {
    var judge := (b: seq<string>) => Judge(r, b);
    var frames := Frames(dumps, events, createdAt);
    forall i | 0 <= i < |events| ensures judge(frames[i]) == Emits(events[i]) {
      FrameRoundTrip(r, dumps, events[i], createdAt[i]);
    }
    AllEmit(judge, frames, events);
    EmittedIsBy(r, judge, frames);
  }

  lemma FramesNotRefused(r: Reader, dumps: Json -> string, events: seq<Event>, createdAt: seq<int>)
    requires |events| == |createdAt|
    requires forall i :: 0 <= i < |events| ==> WellFormed(events[i]) && Sendable(r, dumps, Envelope(events[i], createdAt[i]))
    ensures NoneRefused(r, Frames(dumps, events, createdAt))
  {
    forall i | 0 <= i < |events| ensures !Judge(r, Frames(dumps, events, createdAt)[i]).Refused? {
      FrameRoundTrip(r, dumps, events[i], createdAt[i]);
    }
  }

  lemma EmptyTailEmitsNothing(r: Reader, blocks: seq<seq<string>>)
    ensures Emitted(r, blocks + [[]]) == Emitted(r, blocks)
    ensures NoneRefused(r, blocks) ==> NoneRefused(r, blocks + [[]])
  {
    EmptyBlock(r);
    assert (blocks + [[]])[..|blocks|] == blocks;
  }

  /**
   * The events of an accepted stream, written as canonical frames that fit the bounds, make a
   * stream that is accepted with the same events.
   */
  lemma ReplayRoundTrip(r: Reader, dumps: Json -> string, original: seq<Wire>, createdAt: seq<int>, wires: seq<Wire>)
    requires Accepts(r, original)
    requires var events := Emitted(r, Blocks(original));
      && |createdAt| == |events|
      && (forall i :: 0 <= i < |events| ==> Sendable(r, dumps, Envelope(events[i], createdAt[i])))
      && Texts(wires) == StreamOf(Frames(dumps, events, createdAt)) && Fits(wires)
    ensures Accepts(r, wires) && Emitted(r, Blocks(wires)) == Emitted(r, Blocks(original))
  {
    var events := Emitted(r, Blocks(original));
    forall i | 0 <= i < |events| ensures WellFormed(events[i]) { EventsAreWellFormed(r, Blocks(original), i); }
    StreamSplitsIntoFrames(wires, Frames(dumps, events, createdAt));
    FramesEmit(r, dumps, events, createdAt);
    FramesNotRefused(r, dumps, events, createdAt);
    EmptyTailEmitsNothing(r, Ended(wires));
  }

  // ---------------------------------------------------------------- how the run ended

  const TERMINAL_STATUSES: set<string> := {"cancelled", "completed", "failed"}

  /** Whether an object claims the run has ended; a list or an object as status raises. */
  datatype Claim = Silent | Ends | Raises

  function StatusClaim(status: Option<Json>): Claim {
    match status
    case None => Silent
    case Some(Str(s)) => if s in TERMINAL_STATUSES then Ends else Silent
    case Some(v) => if v.Arr? || v.Obj? then Raises else Silent
  }

  /** A run object counts when it is this run (1362-1366, 1370-1373). */
  function RunClaim(v: Option<Json>, runId: string): Claim {
    if v.None? || !v.value.Obj? || Get(v.value.members, "id") != Some(Str(runId)) then Silent
    else StatusClaim(Get(v.value.members, "status"))
  }

  /** A payload that is itself the run; its status is looked at first (1374). */
  function PayloadClaim(payload: Json, runId: string): Claim
    requires payload.Obj?
  {
    var claim := StatusClaim(Get(payload.members, "status"));
    if claim == Ends && Get(payload.members, "id") != Some(Str(runId)) then Silent else claim
  }

  predicate Raising(e: Event, runId: string)
    requires e.payload.Obj?
  {
    || RunClaim(e.run, runId) == Raises
    || RunClaim(Get(e.payload.members, "run"), runId) == Raises
    || PayloadClaim(e.payload, runId) == Raises
  }

  /** The run as the event shows it ended: the payload, else the run in it, else the run beside it. */
  function EndShown(e: Event, runId: string): Option<Json>
    requires e.payload.Obj?
  {
    if PayloadClaim(e.payload, runId) == Ends then Some(e.payload)
    else if RunClaim(Get(e.payload.members, "run"), runId) == Ends then Get(e.payload.members, "run")
    else if RunClaim(e.run, runId) == Ends then e.run
    else None
  }

  function LastEventSeq(run: Json): Option<Json>
    requires run.Obj?
  {
    var camel := Get(run.members, "lastEventSeq");
    if camel.Some? then camel else Get(run.members, "last_event_seq")
  }

  /** The last event shows the run completed, and the run names that event's cursor as its last. */
  function ProvenRun(events: seq<Event>, runId: string): Option<Json>
    requires forall i :: 0 <= i < |events| ==> events[i].payload.Obj?
  {
    if events == [] then None
    else
      var last := events[|events| - 1];
      var end := EndShown(last, runId);
      EndIsObject(last, runId);
      if end.Some?
         && Get(end.value.members, "status") == Some(Str("completed"))
         && LastEventSeq(end.value) == Some(Num(last.cursor))
      then end else None
  }

  predicate NoneRaises(events: seq<Event>, runId: string)
    requires forall i :: 0 <= i < |events| ==> events[i].payload.Obj?
  {
    forall i :: 0 <= i < |events| ==> !Raising(events[i], runId)
  }

  /** The newest event among the first `k` that shows the run ended. */
  ghost predicate Newest(events: seq<Event>, runId: string, k: nat, found: Option<(nat, Json)>)
    requires k <= |events| && forall i :: 0 <= i < |events| ==> events[i].payload.Obj?
  {
    match found
    case None => forall i :: 0 <= i < k ==> EndShown(events[i], runId) == None
    case Some((at, run)) =>
      && at < k && EndShown(events[at], runId) == Some(run)
      && forall i :: at < i < k ==> EndShown(events[i], runId) == None
  }

  lemma EndIsObject(e: Event, runId: string)
    requires e.payload.Obj?
    ensures EndShown(e, runId).Some? ==> EndShown(e, runId).value.Obj?
  {
  }

  /** An object that is this run, ended. */
  predicate ShowsEnd(v: Json, runId: string) {
    && v.Obj? && Get(v.members, "id") == Some(Str(runId))
    && (|| Get(v.members, "status") == Some(Str("cancelled"))
        || Get(v.members, "status") == Some(Str("completed"))
        || Get(v.members, "status") == Some(Str("failed")))
  }

  /** `v` is the object by which `e` shows the run ended: the payload, or else the run in it, or else the one beside it. */
  predicate EndsBy(e: Event, runId: string, v: Json)
    requires e.payload.Obj?
  {
    var nested := Get(e.payload.members, "run");
    && ShowsEnd(v, runId)
    && (|| v == e.payload
        || (nested == Some(v) && !ShowsEnd(e.payload, runId))
        || (e.run == Some(v) && !ShowsEnd(e.payload, runId) && (nested.None? || !ShowsEnd(nested.value, runId))))
  }

  /** What a proven run is, in terms of the last event alone. */
  lemma ProvenIff(events: seq<Event>, runId: string, run: Json)
    requires forall i :: 0 <= i < |events| ==> events[i].payload.Obj?
    ensures ProvenRun(events, runId) == Some(run) <==>
      && events != [] && EndsBy(events[|events| - 1], runId, run)
      && Get(run.members, "status") == Some(Str("completed"))
      && (var cursor := Some(Num(events[|events| - 1].cursor));
          Get(run.members, "lastEventSeq") == cursor
          || (Get(run.members, "lastEventSeq") == None && Get(run.members, "last_event_seq") == cursor))
  {
  }

  /** Lines 1357-1384: the last claim found must be made by the last event, and prove its cursor. */
  method FindTerminal(events: seq<Event>, runId: string) returns (terminal: Option<Json>)
    requires Increasing(events) && forall i :: 0 <= i < |events| ==> events[i].payload.Obj?
    ensures terminal == if NoneRaises(events, runId) then ProvenRun(events, runId) else None
  {
    var found: Option<Json>, cursor: nat := None, 0;
    ghost var newest: Option<(nat, Json)> := None;
    for i := 0 to |events|
      invariant forall j :: 0 <= j < i ==> !Raising(events[j], runId)
      invariant Newest(events, runId, i, newest)
      invariant found == if newest.None? then None else Some(newest.value.1)
      invariant newest.Some? ==> cursor == events[newest.value.0].cursor && newest.value.1.Obj?
    {
      var item := events[i];
      EndIsObject(item, runId);
      if Raising(item, runId) { return None; }
      if RunClaim(item.run, runId) == Ends { found, cursor := item.run, item.cursor; }
      var nested := Get(item.payload.members, "run");
      if RunClaim(nested, runId) == Ends { found, cursor := nested, item.cursor; }
      if PayloadClaim(item.payload, runId) == Ends { found, cursor := Some(item.payload), item.cursor; }
      if EndShown(item, runId).Some? { newest := Some((i, EndShown(item, runId).value)); }
    }
    if found.None? { return None; }
    assert newest.value.0 < |events| - 1 ==> cursor < events[|events| - 1].cursor;
    var run := found.value;
    if Get(run.members, "status") != Some(Str("completed")) { return None; }
    if cursor != events[|events| - 1].cursor { return None; }
    if LastEventSeq(run) != Some(Num(cursor)) { return None; }
    terminal := Some(run);
  }

  // ---------------------------------------------------------------- the whole of it

  datatype Report = Report(events: seq<Event>, run: Json)

  lemma PayloadsAreObjects(r: Reader, blocks: seq<seq<string>>)
    ensures forall i :: 0 <= i < |Emitted(r, blocks)| ==> Emitted(r, blocks)[i].payload.Obj?
  {
    forall i | 0 <= i < |Emitted(r, blocks)| ensures Emitted(r, blocks)[i].payload.Obj? {
      EventsAreWellFormed(r, blocks, i);
    }
  }

  /** The stream is accepted, no status raises, and its last event proves that the run completed with it. */
  predicate Proves(r: Reader, wires: seq<Wire>, runId: string, report: Report) {
    var events := Emitted(r, Blocks(wires));
    PayloadsAreObjects(r, Blocks(wires));
    && Accepts(r, wires) && NoneRaises(events, runId)
    && report.events == events && ProvenRun(events, runId) == Some(report.run)
  }

  /** `consume_frontend_sse`: a report is returned exactly when the stream proves one, and it is the one it proves. */
  method ConsumeFrontendSse(r: Reader, wires: seq<Wire>, runId: string) returns (report: Option<Report>)
    ensures forall x :: report == Some(x) <==> Proves(r, wires, runId, x)
    ensures report.Some? ==> forall i :: 0 <= i < |Blocks(wires)| ==> Public(r, Blocks(wires)[i])
  {
    var consumer := new Consumer(r);
    var ok := consumer.Consume(wires);
    if !ok { return None; }
    AcceptedIsPublic(r, wires);
    PayloadsAreObjects(r, Blocks(wires));
    var terminal := FindTerminal(consumer.events, runId);
    report := if terminal.Some? then Some(Report(consumer.events, terminal.value)) else None;
  }
}
