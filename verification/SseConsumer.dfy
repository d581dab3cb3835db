/**
 * `consume_frontend_sse` of scripts/benchmark-helix-v3-source-runtime.py: lines arrive one by one
 * under size bounds, blank lines end blocks, and the accepted events must prove how the run ended.
 */
module SseConsumer {
  import opened Wrappers
  import opened SseFrames

  const MAX_EVENTS := 10_000
  const MAX_WIRE_BYTES := 4 * 1024 * 1024
  const MAX_BLOCK_BYTES := 1024 * 1024
  const MAX_LINE_BYTES := 256 * 1024

  /** A line as it came: its text without the line end, and its size in bytes with it. */
  datatype Wire = Wire(text: string, size: nat)

  // ---------------------------------------------------------------- the stream as a whole

  /** The blocks that a blank line ended. */
  function Ended(wires: seq<Wire>): seq<seq<string>> {
    if wires == [] then []
    else
      var n := |wires| - 1;
      Ended(wires[..n]) + (if wires[n].text == "" then [Unended(wires[..n])] else [])
  }

  /** The lines since the last blank one. */
  function Unended(wires: seq<Wire>): seq<string> {
    if wires == [] then []
    else
      var n := |wires| - 1;
      if wires[n].text == "" then [] else Unended(wires[..n]) + [wires[n].text]
  }

  function Blocks(wires: seq<Wire>): seq<seq<string>> {
    Ended(wires) + [Unended(wires)]
  }

  function Total(wires: seq<Wire>): nat {
    if wires == [] then 0 else Total(wires[..|wires| - 1]) + wires[|wires| - 1].size
  }

  function UnendedBytes(wires: seq<Wire>): nat {
    if wires == [] then 0
    else
      var n := |wires| - 1;
      if wires[n].text == "" then 0 else UnendedBytes(wires[..n]) + wires[n].size
  }

  /** No line, no block and not the whole stream is larger than allowed. */
  predicate Fits(wires: seq<Wire>) {
    && Total(wires) <= MAX_WIRE_BYTES
    && (forall k :: 0 <= k < |wires| ==> wires[k].size <= MAX_LINE_BYTES)
    && (forall k :: 0 <= k <= |wires| ==> UnendedBytes(wires[..k]) <= MAX_BLOCK_BYTES)
  }

  predicate NoneRefused(r: Reader, blocks: seq<seq<string>>) {
    forall i :: 0 <= i < |blocks| ==> !Judge(r, blocks[i]).Refused?
  }

  function Emitted(r: Reader, blocks: seq<seq<string>>): seq<Event> {
    if blocks == [] then []
    else
      var verdict := Judge(r, blocks[|blocks| - 1]);
      Emitted(r, blocks[..|blocks| - 1]) + (if verdict.Emits? then [verdict.event] else [])
  }

  /** Cursors strictly increase. */
  predicate Increasing(events: seq<Event>) {
    forall i, j :: 0 <= i < j < |events| ==> events[i].cursor < events[j].cursor
  }

  predicate Orderly(events: seq<Event>) {
    Increasing(events) && |events| <= MAX_EVENTS
  }

  /** What a stream must be to be accepted: every bound holds, every block is sound, the cursors increase. */
  predicate Accepts(r: Reader, wires: seq<Wire>) {
    && Fits(wires)
    && NoneRefused(r, Blocks(wires))
    && Orderly(Emitted(r, Blocks(wires)))
  }

  // ---------------------------------------------------------------- rejecting early is rejecting

  lemma {:induction false} TotalGrows(wires: seq<Wire>, k: nat)
    requires k <= |wires|
    ensures Total(wires[..k]) <= Total(wires)
  {
    if k < |wires| {
      TotalGrows(wires[..|wires| - 1], k);
      assert wires[..|wires| - 1][..k] == wires[..k];
    } else {
      assert wires[..k] == wires;
    }
  }

  lemma PrefixFits(wires: seq<Wire>, k: nat)
    requires k <= |wires| && Fits(wires)
    ensures Fits(wires[..k])
  {
    TotalGrows(wires, k);
    forall j | 0 <= j <= k ensures UnendedBytes(wires[..k][..j]) <= MAX_BLOCK_BYTES {
      assert wires[..k][..j] == wires[..j];
    }
  }

  lemma {:induction false} EndedGrows(wires: seq<Wire>, k: nat)
    requires k <= |wires|
    ensures Ended(wires[..k]) <= Ended(wires)
  {
    if k < |wires| {
      EndedGrows(wires[..|wires| - 1], k);
      assert wires[..|wires| - 1][..k] == wires[..k];
    } else {
      assert wires[..k] == wires;
    }
  }

  lemma {:induction false} EmittedGrows(r: Reader, a: seq<seq<string>>, b: seq<seq<string>>)
    requires a <= b
    ensures Emitted(r, a) <= Emitted(r, b)
    decreases |b|
  {
    if |a| < |b| {
      EmittedGrows(r, a, b[..|b| - 1]);
    } else {
      assert a == b;
    }
  }

  /** Sound so far: nothing among the ended blocks speaks against acceptance. */
  predicate SoFar(r: Reader, blocks: seq<seq<string>>) {
    NoneRefused(r, blocks) && Orderly(Emitted(r, blocks))
  }

  lemma PrefixSoFar(r: Reader, a: seq<seq<string>>, b: seq<seq<string>>)
    requires a <= b && SoFar(r, b)
    ensures SoFar(r, a)
  {
    EmittedGrows(r, a, b);
    var x, y := Emitted(r, a), Emitted(r, b);
    forall i, j | 0 <= i < j < |x| ensures x[i].cursor < x[j].cursor {
      assert y[i] == x[i] && y[j] == x[j];
    }
  }

  /** An accepted stream shows no fault at any point on the way. */
  lemma AcceptedAtEveryPoint(r: Reader, wires: seq<Wire>, k: nat)
    requires k <= |wires| && Accepts(r, wires)
    ensures Fits(wires[..k]) && SoFar(r, Ended(wires[..k]))
  {
    PrefixFits(wires, k);
    EndedGrows(wires, k);
    PrefixSoFar(r, Ended(wires[..k]), Blocks(wires));
  }

  // ---------------------------------------------------------------- what acceptance means

  lemma {:induction false} TotalAppend(a: seq<Wire>, b: seq<Wire>)
    ensures Total(a + b) == Total(a) + Total(b)
    decreases |b|
  {
    if b == [] {
      assert a + b == a;
    } else {
      TotalAppend(a, b[..|b| - 1]);
      assert (a + b)[..|a + b| - 1] == a + b[..|b| - 1];
    }
  }

  lemma OneTotal(w: Wire)
    ensures Total([w]) == w.size
  {
    assert [w][..0] == [];
  }

  predicate BlankFree(wires: seq<Wire>) {
    forall k :: 0 <= k < |wires| ==> wires[k].text != ""
  }

  /** The lines since a blank one, or since the beginning, are what the block bound is about. */
  lemma {:induction false} UnendedIsTail(wires: seq<Wire>, i: nat)
    requires i <= |wires| && BlankFree(wires[i..])
    ensures Total(wires[i..]) <= UnendedBytes(wires)
    ensures i == 0 || wires[i - 1].text == "" ==> Total(wires[i..]) == UnendedBytes(wires)
    decreases |wires|
  {
    if i < |wires| {
      var n := |wires| - 1;
      assert wires[i..][..n - i] == wires[..n][i..] && wires[i..][n - i] == wires[n];
      assert forall k :: 0 <= k < n - i ==> wires[..n][i..][k] == wires[i..][k];
      UnendedIsTail(wires[..n], i);
    }
  }

  /** Where the block that ends the wires begins. */
  function BlockStart(wires: seq<Wire>): (i: nat)
    ensures i <= |wires| && BlankFree(wires[i..]) && (i == 0 || wires[i - 1].text == "")
  {
    if wires == [] || wires[|wires| - 1].text == "" then |wires|
    else
      var n := |wires| - 1;
      var i := BlockStart(wires[..n]);
      assert forall k :: 0 <= k < n - i ==> wires[..n][i..][k] == wires[i..][k];
      i
  }

  /** The size bounds, in bytes: 4 MiB in all, 256 KiB a line, 1 MiB for lines without a blank one among them. */
  lemma FitsIff(wires: seq<Wire>)
    ensures Fits(wires) <==>
      && Total(wires) <= 4_194_304
      && (forall k :: 0 <= k < |wires| ==> wires[k].size <= 262_144)
      && (forall i, j :: 0 <= i <= j <= |wires| && BlankFree(wires[i..j]) ==> Total(wires[i..j]) <= 1_048_576)
  {
    if Fits(wires) {
      forall i, j | 0 <= i <= j <= |wires| && BlankFree(wires[i..j]) ensures Total(wires[i..j]) <= 1_048_576 {
        assert wires[..j][i..] == wires[i..j];
        UnendedIsTail(wires[..j], i);
      }
    }
    if forall i, j :: 0 <= i <= j <= |wires| && BlankFree(wires[i..j]) ==> Total(wires[i..j]) <= 1_048_576 {
      forall j | 0 <= j <= |wires| ensures UnendedBytes(wires[..j]) <= 1_048_576 {
        var i := BlockStart(wires[..j]);
        assert wires[..j][i..] == wires[i..j];
        UnendedIsTail(wires[..j], i);
      }
    }
  }

  /** A block with data holds an envelope, and nothing in it, at any depth, tells of the private trace. */
  ghost predicate Public(r: Reader, lines: seq<string>) {
    Read(lines).data != [] ==> exists e :: Announces(r, lines, e)
  }

  /** Every block of an accepted stream is public, and there are at most ten thousand events. */
  lemma AcceptedIsPublic(r: Reader, wires: seq<Wire>)
    requires Accepts(r, wires)
    ensures forall i :: 0 <= i < |Blocks(wires)| ==> Public(r, Blocks(wires)[i])
    ensures |Emitted(r, Blocks(wires))| <= 10_000
  {
    forall i | 0 <= i < |Blocks(wires)| ensures Public(r, Blocks(wires)[i]) {
      var lines := Blocks(wires)[i];
      JudgeNothingIff(r, lines);
      NoDataIff(lines);
    }
  }

  // ---------------------------------------------------------------- the consumer

  class Consumer {
    const reader: Reader
    var events: seq<Event>
    var block: seq<string>
    var rawBytes: nat
    var blockBytes: nat
    var lastCursor: Option<nat>

    constructor (reader: Reader)
      ensures this.reader == reader && Holds([])
    {
      this.reader := reader;
      events, block, rawBytes, blockBytes, lastCursor := [], [], 0, 0, None;
    }

    /** The last cursor is that of the last event. */
    predicate Marked() reads this {
      lastCursor == if events == [] then None else Some(events[|events| - 1].cursor)
    }

    /** The fields after the lines `wires`, none of which was refused. */
    ghost predicate Holds(wires: seq<Wire>) reads this {
      && Fits(wires) && SoFar(reader, Ended(wires))
      && events == Emitted(reader, Ended(wires)) && Marked()
      && block == Unended(wires)
      && rawBytes == Total(wires) && blockBytes == UnendedBytes(wires)
    }

    /** Compare the cursor of a verdict's event with the last one, and the event count with its bound. */
    method TakeVerdict(verdict: Verdict) returns (ok: bool)
      requires Marked()
      modifies this`events, this`lastCursor
      ensures ok <==> Follows(old(events), verdict)
      ensures ok ==> events == old(events) + NewEvents(verdict) && Marked()
    {
      if verdict.Refused? { return false; }
      if verdict.Nothing? {
        assert events + [] == events;
        return true;
      }
      var event := verdict.event;
      if lastCursor.Some? && event.cursor <= lastCursor.value { return false; }
      if |events| >= MAX_EVENTS { return false; }
      lastCursor, events := Some(event.cursor), events + [event];
      ok := true;
    }

    /** `consume_block`: judge the block, then compare its cursor and the event count. */
    method ConsumeBlock(lines: seq<string>, ghost blocks: seq<seq<string>>) returns (ok: bool)
      requires SoFar(reader, blocks) && events == Emitted(reader, blocks) && Marked()
      modifies this`events, this`lastCursor
      ensures ok <==> SoFar(reader, blocks + [lines])
      ensures ok ==> events == Emitted(reader, blocks + [lines]) && Marked()
    {
      var verdict := Nothing;
      if lines == [] {
        EmptyBlock(reader);
      } else {
        verdict := ReadBlock(reader, lines);
      }
      OneMoreBlock(reader, blocks, lines, verdict);
      ok := TakeVerdict(verdict);
    }

    /** The body of the stream loop (1327-1348). */
    method Feed(raw: Wire, ghost wires: seq<Wire>) returns (ok: bool)
      requires Holds(wires)
      modifies this
      ensures ok <==> Fits(wires + [raw]) && SoFar(reader, Ended(wires + [raw]))
      ensures ok ==> Holds(wires + [raw])
    {
      NextWire(wires, raw);
      FitsNext(wires, raw);
      if raw.size > MAX_LINE_BYTES { return false; }
      if rawBytes + raw.size > MAX_WIRE_BYTES { return false; }
      rawBytes := rawBytes + raw.size;
      if raw.text == "" {
        ok := ConsumeBlock(block, Ended(wires));
        block, blockBytes := [], 0;
      } else {
        blockBytes := blockBytes + raw.size;
        if blockBytes > MAX_BLOCK_BYTES { return false; }
        block := block + [raw.text];
        ok := true;
      }
    }

    /** The whole stream: accepted exactly when it should be, with exactly the events it holds. */
    method Consume(wires: seq<Wire>) returns (ok: bool)
      requires Holds([])
      modifies this
      ensures ok <==> Accepts(reader, wires)
      ensures ok ==> events == Emitted(reader, Blocks(wires)) && Marked() && rawBytes == Total(wires)
    {
      for i := 0 to |wires|
        invariant Holds(wires[..i])
      {
        ghost var before := wires[..i];
        ok := Feed(wires[i], before);
        assert wires[..i + 1] == before + [wires[i]];
        if !ok {
          if Accepts(reader, wires) { AcceptedAtEveryPoint(reader, wires, i + 1); }
          return;
        }
      }
      assert wires[..|wires|] == wires;
      ok := ConsumeBlock(block, Ended(wires));
    }
  }

  /** What a verdict adds to the events. */
  function NewEvents(verdict: Verdict): seq<Event> {
    if verdict.Emits? then [verdict.event] else []
  }

  /** Whether a verdict may come after the events. */
  predicate Follows(events: seq<Event>, verdict: Verdict) {
    && !verdict.Refused?
    && (verdict.Emits? ==>
          |events| < MAX_EVENTS && (events != [] ==> events[|events| - 1].cursor < verdict.event.cursor))
  }

  lemma OneMoreBlock(r: Reader, blocks: seq<seq<string>>, lines: seq<string>, verdict: Verdict)
    requires SoFar(r, blocks) && verdict == Judge(r, lines)
    ensures Emitted(r, blocks + [lines]) == Emitted(r, blocks) + NewEvents(verdict)
    ensures SoFar(r, blocks + [lines]) <==> Follows(Emitted(r, blocks), verdict)
  {
    var more := blocks + [lines];
    assert more[..|blocks|] == blocks && more[|blocks|] == lines;
    assert NoneRefused(r, more) <==> !verdict.Refused?;
    if verdict.Emits? { AppendOrderly(Emitted(r, blocks), verdict.event); }
    assert Emitted(r, blocks) + [] == Emitted(r, blocks);
  }

  lemma EmptyBlock(r: Reader)
    ensures Judge(r, []) == Nothing
  {
  }

  lemma NextWire(wires: seq<Wire>, raw: Wire)
    ensures Total(wires + [raw]) == Total(wires) + raw.size
    ensures raw.text == "" ==>
      && Ended(wires + [raw]) == Ended(wires) + [Unended(wires)]
      && Unended(wires + [raw]) == [] && UnendedBytes(wires + [raw]) == 0
    ensures raw.text != "" ==>
      && Ended(wires + [raw]) == Ended(wires)
      && Unended(wires + [raw]) == Unended(wires) + [raw.text]
      && UnendedBytes(wires + [raw]) == UnendedBytes(wires) + raw.size
  {
    var all := wires + [raw];
    assert all[..|wires|] == wires && all[|wires|] == raw;
    assert Ended(wires) + [] == Ended(wires);
  }

  lemma FitsNext(wires: seq<Wire>, raw: Wire)
    requires Fits(wires)
    ensures Fits(wires + [raw]) <==>
      && raw.size <= MAX_LINE_BYTES && Total(wires) + raw.size <= MAX_WIRE_BYTES
      && UnendedBytes(wires + [raw]) <= MAX_BLOCK_BYTES
  {
    var all := wires + [raw];
    assert all[..|wires|] == wires && all[|wires|] == raw && all[..|all|] == all;
    forall k | 0 <= k <= |wires| ensures all[..k] == wires[..k] {}
  }

  lemma AppendOrderly(events: seq<Event>, event: Event)
    requires Orderly(events)
    ensures Orderly(events + [event]) <==>
      |events| < MAX_EVENTS && (events != [] ==> events[|events| - 1].cursor < event.cursor)
  {
    var more := events + [event];
    if events != [] { assert more[|events| - 1] == events[|events| - 1] && more[|events|] == event; }
  }
}
