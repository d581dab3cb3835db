/**
 * What the argument scanner of docker/unsloth_pip_shim.py leaves of a command, item by item: what
 * goes, what stays and in which form, what is reported, and whether anything is left to install.
 */
module PipFates {
  import opened Wrappers
  import Text
  import opened Sequences
  import opened PipScanner
  import opened PipReread

  predicate IsFileFlag(f: Flags, flag: string) {
    flag in f.requirement || flag in f.constraint
  }

  lemma {:induction false} IsUrlIff(s: string)
    ensures IsUrl(s) <==> exists i :: Text.PartAt(s, "://", i)
  {
    if |s| >= 3 {
      IsUrlIff(s[1..]);
      assert Text.PartAt(s, "://", 0) <==> s[..3] == "://";
      forall i ensures Text.PartAt(s[1..], "://", i) <==> i >= 0 && Text.PartAt(s, "://", i + 1) {
        if 0 <= i < |s| - 3 { assert s[1..][i..i + 3] == s[i + 1..i + 1 + 3]; }
      }
      if i :| Text.PartAt(s, "://", i) { assert i > 0 ==> Text.PartAt(s[1..], "://", i - 1); }
    }
  }

  /** A name with nothing but extras to add to what is there. */
  predicate OnlyExtras(s: Shim, tok: string) {
    s.extras(tok).Some? && (Canon(s, tok) == Some("transformers") ==> s.transformersInstalled)
  }

  /** A flag with a value goes if it names a remote file, is always dropped, or holds something protected. */
  predicate FlagGoes(s: Shim, flag: string, value: string) {
    || (IsFileFlag(s.flags, flag) && IsUrl(value))
    || flag in s.flags.dropped
    || (flag in s.flags.editable + s.flags.upgrade && NamesProtected(s, value))
  }

  /** What does not survive: all else does. */
  predicate Goes(s: Shim, item: Item) {
    match item
    case Pair(flag, value) => FlagGoes(s, flag, value)
    case Joined(flag, value) => FlagGoes(s, flag, value)
    case Attached(flag, value) => FlagGoes(s, flag, value)
    case Reinstall(_) => true
    case Dangling(flag) => flag in s.flags.editable + s.flags.upgrade
    case Plain(tok) => NamesProtected(s, tok) && !OnlyExtras(s, tok)
  }

  /** The value a surviving flag carries: a file gives way to its filtered copy. */
  function ValueLeft(s: Shim, flag: string, value: string): string {
    if IsFileFlag(s.flags, flag) then s.filter(value).path else value
  }

  /** The form in which an item survives: as written but for files and protected names. */
  function Stays(s: Shim, item: Item): Item {
    match item
    case Pair(flag, value) => Pair(flag, ValueLeft(s, flag, value))
    case Joined(flag, value) => Joined(flag, ValueLeft(s, flag, value))
    case Attached(flag, value) => Pair(flag, ValueLeft(s, flag, value))
    case Plain(tok) => if NamesProtected(s, tok) && OnlyExtras(s, tok) then Plain(s.extras(tok).value) else item
    case _ => item
  }

  /** Whether an item leaves something to install. */
  predicate Installs(s: Shim, item: Item) {
    !Goes(s, item) &&
    match item
    case Plain(tok) => !StartsWithDash(tok)
    case Dangling(_) => false
    case Reinstall(_) => false
    case _ =>
      || item.flag in s.flags.requirement || item.flag in s.flags.editable
      || (item.flag in s.flags.target && item.flag !in s.flags.constraint && item.flag !in s.flags.upgrade)
  }

  /** What is reported as dropped on account of an item. */
  function Reports(s: Shim, item: Item): seq<string> {
    match item
    case Reinstall(tok) => [tok]
    case Dangling(_) => []
    case Plain(tok) => if Goes(s, item) then [tok] else []
    case _ =>
      if Goes(s, item) then [item.flag + (if item.Joined? then "=" else " ") + item.value]
      else if IsFileFlag(s.flags, item.flag) then s.filter(item.value).dropped
      else []
  }

  /** The extras an item adds to a protected package. */
  function Adds(s: Shim, item: Item): seq<string> {
    if item.Plain? && NamesProtected(s, item.tok) && OnlyExtras(s, item.tok) then [s.extras(item.tok).value] else []
  }

  /** The version an item records: a pin of transformers itself, or one found in a requirements file. */
  function Pins(s: Shim, item: Item): Option<string> {
    match item
    case Reinstall(_) => None
    case Dangling(_) => None
    case Plain(tok) => if Canon(s, tok) == Some("transformers") then s.pin(tok) else None
    case _ =>
      if item.flag in s.flags.requirement && !IsUrl(item.value) then s.filter(item.value).recorded
      else if item.flag in s.flags.editable + s.flags.upgrade && Canon(s, item.value) == Some("transformers") then s.pin(item.value)
      else None
  }

  lemma FlagFateIs(s: Shim, flag: string, value: string, report: string, joined: bool)
    requires Classified(s.flags, flag)
    requires flag in s.flags.requirement ==> flag !in s.flags.constraint
    ensures var fate := FlagFate(s, flag, value, report, joined);
      && fate.survivor == (if FlagGoes(s, flag, value) then None else Some(Rebuilt(flag, ValueLeft(s, flag, value), joined)))
      && fate.dropped == (if FlagGoes(s, flag, value) then [report]
                          else if IsFileFlag(s.flags, flag) then s.filter(value).dropped else [])
      && !fate.positional
  {
  }

  /** The fate of every item. */
  lemma FateIs(s: Shim, item: Item)
    requires Proper(s) && Parsed(s.flags, item)
    ensures FateOf(s, item).survivor == if Goes(s, item) then None else Some(Stays(s, item))
    ensures FateOf(s, item).dropped == Reports(s, item)
    ensures FateOf(s, item).target <==> Installs(s, item)
    ensures FateOf(s, item).extras == if Adds(s, item) == [] then None else Some(Adds(s, item)[0])
    ensures FateOf(s, item).pin == Pins(s, item) && (FateOf(s, item).positional <==> item.Plain?)
  {
    match item
    case Pair(flag, value) => FlagFateIs(s, flag, value, flag + " " + value, false);
    case Joined(flag, value) => FlagFateIs(s, flag, value, flag + "=" + value, true);
    case Attached(flag, value) => FlagFateIs(s, flag, value, flag + " " + value, false);
    case Plain(tok) =>
    case _ =>
  }

  // ---------------------------------------------------------------- how a command is read

  /** An item as it may be typed, in each of the six forms. */
  predicate Typed(f: Flags, item: Item) {
    match item
    case Pair(flag, _) => TakesNext(f, flag)
    case Joined(flag, _) => flag in f.value && '=' !in flag && "--" <= flag
    case Attached(flag, value) => flag in f.attached && |flag| == 2 && flag[0] == '-' && flag[1] != '-' && value != ""
    case Reinstall(tok) => tok in f.reinstall && !IsJoined(f, tok) && !IsAttached(f, tok)
    case Dangling(flag) => TakesNext(f, flag)
    case Plain(tok) =>
      && tok !in f.value && tok !in f.reinstall
      && !("--" <= tok && '=' in tok) && !(|tok| > 2 && tok[..2] in f.attached)
  }

  /** Whatever is typed is read as what it is; a flag without its value only at the end. */
  lemma TypedIsRead(f: Flags, item: Item, rest: seq<string>)
    requires Typed(f, item) && (item.Dangling? ==> rest == [])
    ensures ParseItems(f, Render(item) + rest) == [item] + ParseItems(f, rest)
  {
    var tail := Render(item) + rest;
    match item {
      case Attached(flag, value) =>
        var tok := flag + value;
        assert tok[..2] == flag && tok[2..] == value && tok[1] == flag[1];
        assert tail[1..] == rest;
      case Reinstall(tok) => assert tail[1..] == rest;
      case _ => RenderedReads(f, item, rest);
    }
  }

  // ---------------------------------------------------------------- the whole command

  /** What is left of the items, in order. */
  function Remaining(s: Shim, items: seq<Item>): seq<Item> {
    if items == [] then []
    else (if Goes(s, items[0]) then [] else [Stays(s, items[0])]) + Remaining(s, items[1..])
  }

  function ReportsAll(s: Shim, items: seq<Item>): seq<string> {
    if items == [] then [] else Reports(s, items[0]) + ReportsAll(s, items[1..])
  }

  function AddsAll(s: Shim, items: seq<Item>): seq<string> {
    if items == [] then [] else Adds(s, items[0]) + AddsAll(s, items[1..])
  }

  predicate AllParsed(f: Flags, items: seq<Item>) {
    forall i :: 0 <= i < |items| ==> Parsed(f, items[i])
  }

  lemma {:induction false} SurvivorsAreRemaining(s: Shim, items: seq<Item>)
    requires Proper(s) && AllParsed(s.flags, items)
    ensures Survivors(Fates(s, items)) == Remaining(s, items)
  {
    if items != [] {
      FateIs(s, items[0]);
      FirstSurvivor(s, items);
      SurvivorsAreRemaining(s, items[1..]);
    }
  }

  lemma {:induction false} ReportsAndTarget(s: Shim, scan: Scan, items: seq<Item>)
    requires Proper(s) && AllParsed(s.flags, items)
    ensures var r := AddAll(scan, Fates(s, items));
      && r.dropped == scan.dropped + ReportsAll(s, items)
      && r.extras == scan.extras + AddsAll(s, items)
      && (r.target <==> scan.target || exists i :: 0 <= i < |items| && Installs(s, items[i]))
    decreases |items|
  {
    if items == [] {
      assert scan.dropped + [] == scan.dropped && scan.extras + [] == scan.extras;
    } else {
      var first, rest := items[0], items[1..];
      FateIs(s, first);
      assert items == [first] + rest;
      FirstFate(s, scan, first, rest);
      ReportsAndTarget(s, Add(scan, FateOf(s, first)), rest);
      Assoc(scan.dropped, Reports(s, first), ReportsAll(s, rest));
      Assoc(scan.extras, Adds(s, first), AddsAll(s, rest));
      assert forall i :: 0 < i < |items| ==> items[i] == rest[i - 1];
      if i :| 0 <= i < |rest| && Installs(s, rest[i]) { assert Installs(s, items[i + 1]); }
    }
  }

  /** The scan of a command: exactly what remains is kept, the rest is reported, and a target is anything left to install. */
  lemma ScanIs(s: Shim, tail: seq<string>)
    requires Proper(s)
    ensures var items, scan := ParseItems(s.flags, tail), ItemScan(s, NOTHING, tail);
      && scan.keep == RenderAll(Remaining(s, items))
      && scan.dropped == ReportsAll(s, items) && scan.extras == AddsAll(s, items)
      && (scan.target <==> exists i :: 0 <= i < |items| && Installs(s, items[i]))
  {
    var items := ParseItems(s.flags, tail);
    ParseGives(s, tail);
    SurvivorsAreRemaining(s, items);
    KeptIsRendered(NOTHING, Fates(s, items));
    ReportsAndTarget(s, NOTHING, items);
    assert [] + RenderAll(Remaining(s, items)) == RenderAll(Remaining(s, items));
    assert [] + ReportsAll(s, items) == ReportsAll(s, items) && [] + AddsAll(s, items) == AddsAll(s, items);
  }

  lemma {:induction false} RemainsInPlace(s: Shim, items: seq<Item>, k: nat) returns (before: seq<Item>, after: seq<Item>)
    requires k < |items| && !Goes(s, items[k])
    ensures Remaining(s, items) == before + ([Stays(s, items[k])] + after)
  {
    if k == 0 {
      before, after := [], Remaining(s, items[1..]);
    } else {
      var inner;
      inner, after := RemainsInPlace(s, items[1..], k - 1);
      var head := if Goes(s, items[0]) then [] else [Stays(s, items[0])];
      before := head + inner;
      Assoc(head, inner, [Stays(s, items[k])] + after);
    }
  }

  lemma {:induction false} RenderConcat(a: seq<Item>, b: seq<Item>)
    ensures RenderAll(a + b) == RenderAll(a) + RenderAll(b)
  {
    if a == [] {
      assert a + b == b;
    } else {
      RenderConcat(a[1..], b);
      UnconsConcat(a, b);
      Assoc(Render(a[0]), RenderAll(a[1..]), RenderAll(b));
    }
  }

  /** Whatever does not go stands in the kept tokens in one piece. */
  lemma SurvivorIsKept(s: Shim, tail: seq<string>, k: nat) returns (before: seq<string>, after: seq<string>)
    requires Proper(s) && k < |ParseItems(s.flags, tail)| && !Goes(s, ParseItems(s.flags, tail)[k])
    ensures ItemScan(s, NOTHING, tail).keep == before + (Render(Stays(s, ParseItems(s.flags, tail)[k])) + after)
  {
    var items := ParseItems(s.flags, tail);
    ScanIs(s, tail);
    var x, y := RemainsInPlace(s, items, k);
    var item := Stays(s, items[k]);
    RenderConcat(x, [item] + y);
    assert ([item] + y)[1..] == y;
    before, after := RenderAll(x), RenderAll(y);
  }

  /** A package that is not protected is installed as asked for. */
  lemma UnprotectedIsKept(s: Shim, tail: seq<string>, tok: string)
    requires Proper(s) && Plain(tok) in ParseItems(s.flags, tail) && !NamesProtected(s, tok)
    ensures tok in ItemScan(s, NOTHING, tail).keep
    ensures !StartsWithDash(tok) ==> ItemScan(s, NOTHING, tail).target
  {
    var items := ParseItems(s.flags, tail);
    var k :| 0 <= k < |items| && items[k] == Plain(tok);
    UnprotectedStays(s, tok);
    var before, after := SurvivorIsKept(s, tail, k);
    InTheMiddle(before, tok, after);
    if !StartsWithDash(tok) {
      ScanIs(s, tail);
      assert Installs(s, items[k]);
    }
  }

  lemma UnprotectedStays(s: Shim, tok: string)
    requires !NamesProtected(s, tok)
    ensures !Goes(s, Plain(tok)) && Render(Stays(s, Plain(tok))) == [tok]
    ensures Installs(s, Plain(tok)) <==> !StartsWithDash(tok)
  {
  }

  lemma InTheMiddle(before: seq<string>, tok: string, after: seq<string>)
    ensures tok in before + ([tok] + after)
  {
    assert (before + ([tok] + after))[|before|] == tok;
  }
}
