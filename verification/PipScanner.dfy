/**
 * The argument scanner of docker/unsloth_pip_shim.py.  The tail of an install command means a list
 * of items; the loop with its pending flag is shown to treat them one by one.
 */
module PipScanner {
  import opened Wrappers

  /** The flag tables. */
  datatype Flags = Flags(
    value: set<string>,        // take a value
    requirement: set<string>, constraint: set<string>, editable: set<string>, upgrade: set<string>,
    dropped: set<string>,      // dropped with their value
    target: set<string>,       // their value is an install target
    attached: set<string>,     // short flags whose attached value is inspected
    reinstall: set<string>)    // dropped

  /** A filtered requirements file: the path to use, a recorded version, the dropped specs. */
  datatype Filtered = Filtered(path: string, recorded: Option<string>, dropped: seq<string>)

  /** What the scanner knows of package names and of files. */
  datatype Shim = Shim(
    flags: Flags,
    name: string -> Option<string>,        // the package a non-flag token names
    isProtected: string -> bool,
    pin: string -> Option<string>,         // the version a token pins
    extras: string -> Option<string>,      // `name[extras]` when only extras are asked for
    transformersInstalled: bool,
    filter: string -> Filtered)

  predicate StartsWithDash(tok: string) {
    tok != "" && tok[0] == '-'
  }

  function Canon(s: Shim, tok: string): Option<string> {
    if StartsWithDash(tok) then None else s.name(tok)
  }

  function IndexOf(c: char, s: string): (k: nat)
    ensures k <= |s| && c !in s[..k] && (k < |s| ==> s[k] == c)
    ensures c in s ==> k < |s|
  {
    if s == "" || s[0] == c then 0 else 1 + IndexOf(c, s[1..])
  }

  predicate IsUrl(s: string) {
    |s| >= 3 && (s[..3] == "://" || IsUrl(s[1..]))
  }

  /** What the tables promise: every flag starts with a dash, has no '=', and is a short flag or a `--` one. */
  predicate ProperFlag(f: string) {
    |f| >= 2 && f[0] == '-' && '=' !in f && (|f| == 2 || f[1] == '-')
  }

  ghost predicate Proper(s: Shim) {
    var f := s.flags;
    && (forall x :: x in f.value ==> ProperFlag(x))
    && f.requirement + f.constraint + f.editable + f.upgrade + f.dropped + f.target <= f.value
    && f.requirement !! f.constraint && f.requirement !! f.dropped && f.constraint !! f.dropped
    && (f.editable + f.upgrade) !! (f.requirement + f.constraint + f.dropped)
    && f.attached <= f.requirement + f.constraint + f.editable + f.upgrade
    && f.reinstall !! f.value && (forall x :: x in f.reinstall ==> StartsWithDash(x))
    && forall tok :: s.extras(tok).Some? ==> !StartsWithDash(s.extras(tok).value)
  }

  // ---------------------------------------------------------------- the reading of a tail

  datatype Item =
    | Pair(flag: string, value: string)        // flag and value as two tokens
    | Joined(flag: string, value: string)      // --flag=value
    | Attached(flag: string, value: string)    // -rvalue
    | Reinstall(tok: string)
    | Dangling(flag: string)                   // a value flag at the very end
    | Plain(tok: string)

  predicate IsJoined(f: Flags, tok: string) {
    "--" <= tok && '=' in tok && tok[..IndexOf('=', tok)] in f.value
  }

  predicate IsAttached(f: Flags, tok: string) {
    |tok| > 2 && tok[0] == '-' && tok[1] != '-' && tok[..2] in f.attached
  }

  /** A flag whose value is the next token. */
  predicate TakesNext(f: Flags, tok: string) {
    !IsJoined(f, tok) && !IsAttached(f, tok) && tok !in f.reinstall && tok in f.value
  }

  predicate IsPlain(f: Flags, tok: string) {
    !IsJoined(f, tok) && !IsAttached(f, tok) && tok !in f.reinstall && tok !in f.value
  }

  function ReadOne(f: Flags, tok: string): Item
    requires !TakesNext(f, tok)
  {
    if IsJoined(f, tok) then
      Joined(tok[..IndexOf('=', tok)], tok[IndexOf('=', tok) + 1..])
    else if IsAttached(f, tok) then Attached(tok[..2], tok[2..])
    else if tok in f.reinstall then Reinstall(tok)
    else Plain(tok)
  }

  function ParseItems(f: Flags, tail: seq<string>): seq<Item> {
    if tail == [] then []
    else if TakesNext(f, tail[0]) then
      if |tail| == 1 then [Dangling(tail[0])]
      else [Pair(tail[0], tail[1])] + ParseItems(f, tail[2..])
    else [ReadOne(f, tail[0])] + ParseItems(f, tail[1..])
  }

  // ---------------------------------------------------------------- the per-item filter

  /** The fate of one item: what survives of it, what is reported, and what it contributes. */
  datatype Fate = Fate(
    survivor: Option<Item>, dropped: seq<string>, pin: Option<string>, extras: Option<string>, target: bool, positional: bool)

  predicate Held(f: Flags, flag: string) {
    flag in f.editable || flag in f.upgrade
  }

  /** Whether a spec must be dropped, and the version it then records. */
  function ClassifyTarget(s: Shim, spec: string): (bool, Option<string>) {
    if Canon(s, spec) == Some("transformers") then (true, s.pin(spec))
    else if Canon(s, spec).Some? && s.isProtected(Canon(s, spec).value) then (true, None)
    else (false, None)
  }

  function Rebuilt(flag: string, value: string, joined: bool): Item {
    if joined then Joined(flag, value) else Pair(flag, value)
  }

  /** A flag with a value, reported as `report` when dropped. */
  function FlagFate(s: Shim, flag: string, value: string, report: string, joined: bool): Fate {
    var f := s.flags;
    if (flag in f.requirement || flag in f.constraint) && IsUrl(value) then Fate(None, [report], None, None, false, false)
    else if flag in f.requirement then
      var r := s.filter(value);
      Fate(Some(Rebuilt(flag, r.path, joined)), r.dropped, r.recorded, None, true, false)
    else if flag in f.constraint then
      var r := s.filter(value);
      Fate(Some(Rebuilt(flag, r.path, joined)), r.dropped, None, None, false, false)
    else if flag in f.dropped then Fate(None, [report], None, None, false, false)
    else if Held(f, flag) then
      var (drop, version) := ClassifyTarget(s, value);
      if drop then Fate(None, [report], version, None, false, false)
      else Fate(Some(Rebuilt(flag, value, joined)), [], None, None, flag in f.editable, false)
    else Fate(Some(Rebuilt(flag, value, joined)), [], None, None, flag in f.target, false)
  }

  function PlainFate(s: Shim, tok: string): Fate {
    match Canon(s, tok)
    case None => Fate(Some(Plain(tok)), [], None, None, !StartsWithDash(tok), true)
    case Some(name) =>
      if name == "transformers" || s.isProtected(name) then
        var pin := if name == "transformers" then s.pin(tok) else None;
        var extras := if name == "transformers" && !s.transformersInstalled then None else s.extras(tok);
        match extras
        case Some(e) => Fate(Some(Plain(e)), [], pin, extras, true, true)
        case None => Fate(None, [tok], pin, None, false, true)
      else Fate(Some(Plain(tok)), [], None, None, true, true)
  }

  function FateOf(s: Shim, item: Item): Fate {
    match item
    case Pair(flag, value) => FlagFate(s, flag, value, flag + " " + value, false)
    case Joined(flag, value) => FlagFate(s, flag, value, flag + "=" + value, true)
    case Attached(flag, value) => FlagFate(s, flag, value, flag + " " + value, false)
    case Reinstall(tok) => Fate(None, [tok], None, None, false, false)
    case Dangling(flag) => Fate(if Held(s.flags, flag) then None else Some(item), [], None, None, false, false)
    case Plain(tok) => PlainFate(s, tok)
  }

  function Render(item: Item): seq<string> {
    match item
    case Pair(flag, value) => [flag, value]
    case Joined(flag, value) => [flag + "=" + value]
    case Attached(flag, value) => [flag + value]
    case Reinstall(tok) => [tok]
    case Dangling(flag) => [flag]
    case Plain(tok) => [tok]
  }

  function RenderAll(items: seq<Item>): seq<string> {
    if items == [] then [] else Render(items[0]) + RenderAll(items[1..])
  }

  function Fates(s: Shim, items: seq<Item>): (r: seq<Fate>)
    ensures |r| == |items|
  {
    if items == [] then [] else [FateOf(s, items[0])] + Fates(s, items[1..])
  }

  function Survivors(fates: seq<Fate>): seq<Item> {
    if fates == [] then []
    else (match fates[0].survivor case None => [] case Some(x) => [x]) + Survivors(fates[1..])
  }

  // ---------------------------------------------------------------- the scan, item by item

  /** The scanner's variables. */
  datatype Scan = Scan(keep: seq<string>, dropped: seq<string>, recorded: Option<string>, extras: seq<string>, target: bool)

  /** A positional pin replaces what was recorded; any other only fills a gap. */
  function Recorded(recorded: Option<string>, pin: Option<string>, positional: bool): Option<string> {
    if pin.Some? && (positional || recorded.None?) then pin else recorded
  }

  function Kept(fate: Fate): seq<string> {
    match fate.survivor case None => [] case Some(x) => Render(x)
  }

  function Add(scan: Scan, fate: Fate): Scan {
    Scan(scan.keep + Kept(fate),
         scan.dropped + fate.dropped,
         Recorded(scan.recorded, fate.pin, fate.positional),
         scan.extras + (match fate.extras case None => [] case Some(e) => [e]),
         scan.target || fate.target)
  }

  function AddAll(scan: Scan, fates: seq<Fate>): Scan
    decreases |fates|
  {
    if fates == [] then scan else AddAll(Add(scan, fates[0]), fates[1..])
  }

  /** The item-by-item reading of a whole tail. */
  function ItemScan(s: Shim, scan: Scan, tail: seq<string>): Scan {
    AddAll(scan, Fates(s, ParseItems(s.flags, tail)))
  }

  const NOTHING := Scan([], [], None, [], false)

  /** A held flag is emitted with its value; any other value flag is already out, to be popped if its value is dropped. */
  ghost predicate Pending(s: Shim, keep: seq<string>, flag: string, before: seq<string>) {
    TakesNext(s.flags, flag) && keep == before + (if Held(s.flags, flag) then [] else [flag])
  }

  /** `flag` belongs to one table only. */
  predicate Classified(f: Flags, flag: string) {
    && (flag in f.requirement ==> flag !in f.constraint && flag !in f.dropped && !Held(f, flag))
    && (flag in f.constraint ==> flag !in f.dropped && !Held(f, flag))
    && (flag in f.dropped ==> !Held(f, flag))
  }

  /** The value of a file flag: a requirements or constraints file, not a URL. */
  method TakeFile(s: Shim, scan: Scan, flag: string, tok: string, ghost before: seq<string>) returns (r: Scan)
    requires Classified(s.flags, flag) && scan.keep == before + [flag] && !IsUrl(tok)
    requires flag in s.flags.requirement || flag in s.flags.constraint
    ensures r == Add(scan.(keep := before), FateOf(s, Pair(flag, tok)))
  {
    var filtered := s.filter(tok);
    r := scan.(keep := scan.keep + [filtered.path], dropped := scan.dropped + filtered.dropped);
    assert before + [flag] + [filtered.path] == before + [flag, filtered.path];
    if flag in s.flags.requirement {
      r := r.(target := true);
      if filtered.recorded.Some? && r.recorded.None? { r := r.(recorded := filtered.recorded); }
    }
  }

  /** The token after a value flag. */
  method TakeValue(s: Shim, scan: Scan, flag: string, tok: string, ghost before: seq<string>) returns (r: Scan)
    requires Classified(s.flags, flag) && Pending(s, scan.keep, flag, before)
    ensures r == Add(scan.(keep := before), FateOf(s, Pair(flag, tok)))
  {
    var f := s.flags;
    r := scan;
    if flag in f.requirement || flag in f.constraint {
      if IsUrl(tok) {
        r := r.(keep := r.keep[..|r.keep| - 1], dropped := r.dropped + [flag + " " + tok]);
      } else {
        r := TakeFile(s, scan, flag, tok, before);
      }
    } else if flag in f.dropped {
      r := r.(keep := r.keep[..|r.keep| - 1], dropped := r.dropped + [flag + " " + tok]);
    } else if flag in f.editable || flag in f.upgrade {
      var (drop, version) := ClassifyTarget(s, tok);
      if drop {
        if version.Some? && r.recorded.None? { r := r.(recorded := version); }
        r := r.(dropped := r.dropped + [flag + " " + tok]);
      } else {
        r := r.(keep := r.keep + [flag] + [tok], target := r.target || flag in f.editable);
      }
    } else {
      r := r.(keep := r.keep + [tok], target := r.target || flag in f.target);
    }
  }

  /** `flag` with its value in the same token; what is kept is emitted by `make`. */
  method TakeInline(s: Shim, scan: Scan, flag: string, value: string, joined: bool) returns (r: Scan)
    requires Classified(s.flags, flag)
    ensures r == Add(scan, FateOf(s, if joined then Joined(flag, value) else Attached(flag, value)))
  {
    var f := s.flags;
    r := scan;
    var report := if joined then flag + "=" + value else flag + " " + value;
    if (flag in f.requirement || flag in f.constraint) && IsUrl(value) {
      r := r.(dropped := r.dropped + [report]);
    } else if flag in f.requirement || flag in f.constraint {
      var filtered := s.filter(value);
      r := r.(keep := r.keep + (if joined then [flag + "=" + filtered.path] else [flag, filtered.path]),
              dropped := r.dropped + filtered.dropped);
      if flag in f.requirement {
        r := r.(target := true);
        if filtered.recorded.Some? && r.recorded.None? { r := r.(recorded := filtered.recorded); }
      }
    } else if flag in f.dropped {
      r := r.(dropped := r.dropped + [report]);
    } else if flag in f.editable || flag in f.upgrade {
      var (drop, version) := ClassifyTarget(s, value);
      if drop {
        if version.Some? && r.recorded.None? { r := r.(recorded := version); }
        r := r.(dropped := r.dropped + [report]);
      } else {
        r := r.(keep := r.keep + (if joined then [flag + "=" + value] else [flag, value]), target := r.target || flag in f.editable);
      }
    } else {
      r := r.(keep := r.keep + (if joined then [flag + "=" + value] else [flag, value]), target := r.target || flag in f.target);
    }
  }

  /** A token that is neither a value nor a flag with a value. */
  method TakePlain(s: Shim, scan: Scan, tok: string) returns (r: Scan)
    ensures r == Add(scan, FateOf(s, Plain(tok)))
  {
    r := scan;
    var name := Canon(s, tok);
    if name.None? {
      return r.(keep := r.keep + [tok], target := r.target || !StartsWithDash(tok));
    }
    if name.value == "transformers" || s.isProtected(name.value) {
      var transformers := name.value == "transformers";
      if transformers && s.pin(tok).Some? { r := r.(recorded := s.pin(tok)); }
      var extras := if transformers && !s.transformersInstalled then None else s.extras(tok);
      if extras.Some? {
        return r.(keep := r.keep + [extras.value], extras := r.extras + [extras.value], target := true);
      }
      return r.(dropped := r.dropped + [tok]);
    }
    r := r.(keep := r.keep + [tok], target := true);
  }

  /** A token that stands for itself. */
  method TakeToken(s: Shim, scan: Scan, tok: string) returns (r: Scan)
    requires Proper(s) && !TakesNext(s.flags, tok)
    ensures r == Add(scan, FateOf(s, ReadOne(s.flags, tok)))
  {
    if IsJoined(s.flags, tok) {
      var k := IndexOf('=', tok);
      r := TakeInline(s, scan, tok[..k], tok[k + 1..], true);
    } else if IsAttached(s.flags, tok) {
      r := TakeInline(s, scan, tok[..2], tok[2..], false);
    } else if tok in s.flags.reinstall {
      r := scan.(dropped := scan.dropped + [tok]);
    } else {
      r := TakePlain(s, scan, tok);
    }
  }

  /** What remains to be scanned at position `i`, given the pending flag. */
  ghost predicate OnTrack(s: Shim, tail: seq<string>, i: nat, skipNext: bool, prevFlag: string, scan: Scan, before: seq<string>) {
    && i <= |tail|
    && (if skipNext then i > 0 && prevFlag == tail[i - 1] && Pending(s, scan.keep, prevFlag, before) else before == scan.keep)
    && ItemScan(s, scan.(keep := before), tail[(if skipNext then i - 1 else i)..]) == ItemScan(s, NOTHING, tail)
  }

  /** One turn of the loop. */
  method Step(s: Shim, tail: seq<string>, i: nat, skipNext: bool, prevFlag: string, scan: Scan, ghost before: seq<string>)
    returns (skipNext': bool, prevFlag': string, scan': Scan, ghost before': seq<string>)
    requires Proper(s) && i < |tail| && OnTrack(s, tail, i, skipNext, prevFlag, scan, before)
    ensures OnTrack(s, tail, i + 1, skipNext', prevFlag', scan', before')
  {
    skipNext', prevFlag', scan', before' := false, "", scan, before;
    var tok := tail[i];
    if skipNext {
      PairStep(s, scan.(keep := before), tail, i - 1);
      scan' := TakeValue(s, scan, prevFlag, tok, before);
      before' := scan'.keep;
    } else if TakesNext(s.flags, tok) {
      if tok !in s.flags.editable && tok !in s.flags.upgrade {
        scan' := scan.(keep := scan.keep + [tok]);
      }
      skipNext', prevFlag' := true, tok;
    } else {
      SingleStep(s, scan, tail, i);
      scan' := TakeToken(s, scan, tok);
      before' := scan'.keep;
    }
  }

  /** The whole tail, with at most one pending flag between two tokens. */
  method ScanTail(s: Shim, tail: seq<string>) returns (scan: Scan)
    requires Proper(s)
    ensures scan == ItemScan(s, NOTHING, tail)
  {
    scan := NOTHING;
    var skipNext, prevFlag := false, "";
    ghost var before: seq<string> := [];
    assert tail[0..] == tail;
    for i := 0 to |tail|
      invariant OnTrack(s, tail, i, skipNext, prevFlag, scan, before)
    {
      skipNext, prevFlag, scan, before := Step(s, tail, i, skipNext, prevFlag, scan, before);
    }
    EndStep(s, scan.(keep := before), tail);
  }

  lemma PairStep(s: Shim, scan: Scan, tail: seq<string>, i: nat)
    requires i + 1 < |tail| && TakesNext(s.flags, tail[i])
    ensures ItemScan(s, scan, tail[i..]) == ItemScan(s, Add(scan, FateOf(s, Pair(tail[i], tail[i + 1]))), tail[i + 2..])
  {
    assert tail[i..][2..] == tail[i + 2..];
    FirstFate(s, scan, Pair(tail[i], tail[i + 1]), ParseItems(s.flags, tail[i + 2..]));
  }

  lemma SingleStep(s: Shim, scan: Scan, tail: seq<string>, i: nat)
    requires i < |tail| && !TakesNext(s.flags, tail[i])
    ensures ItemScan(s, scan, tail[i..]) == ItemScan(s, Add(scan, FateOf(s, ReadOne(s.flags, tail[i]))), tail[i + 1..])
  {
    assert tail[i..][1..] == tail[i + 1..];
    FirstFate(s, scan, ReadOne(s.flags, tail[i]), ParseItems(s.flags, tail[i + 1..]));
  }

  lemma EndStep(s: Shim, scan: Scan, tail: seq<string>)
    ensures ItemScan(s, scan, tail[|tail|..]) == scan
    ensures tail != [] && TakesNext(s.flags, tail[|tail| - 1]) ==>
      ItemScan(s, scan, tail[|tail| - 1..]) == Add(scan, FateOf(s, Dangling(tail[|tail| - 1])))
  {
    if tail != [] && TakesNext(s.flags, tail[|tail| - 1]) {
      var last := Dangling(tail[|tail| - 1]);
      assert ParseItems(s.flags, tail[|tail| - 1..]) == [last] + [];
      FirstFate(s, scan, last, []);
    }
  }

  lemma FirstFate(s: Shim, scan: Scan, item: Item, rest: seq<Item>)
    ensures AddAll(scan, Fates(s, [item] + rest)) == AddAll(Add(scan, FateOf(s, item)), Fates(s, rest))
  {
    assert ([item] + rest)[1..] == rest;
    assert ([FateOf(s, item)] + Fates(s, rest))[1..] == Fates(s, rest);
  }

  // ---------------------------------------------------------------- what the scan amounts to

  lemma {:induction false} KeptIsRendered(scan: Scan, fates: seq<Fate>)
    ensures AddAll(scan, fates).keep == scan.keep + RenderAll(Survivors(fates))
    decreases |fates|
  {
    if fates == [] {
      assert scan.keep + [] == scan.keep;
    } else {
      KeptIsRendered(Add(scan, fates[0]), fates[1..]);
      var rest := Survivors(fates[1..]);
      match fates[0].survivor
      case None =>
        assert [] + rest == rest && scan.keep + [] == scan.keep;
      case Some(x) =>
        assert ([x] + rest)[1..] == rest;
        assert scan.keep + Render(x) + RenderAll(rest) == scan.keep + (Render(x) + RenderAll(rest));
    }
  }

  /** The last positional pin. */
  function LastPositional(fates: seq<Fate>): Option<string> {
    if fates == [] then None
    else if fates[|fates| - 1].positional && fates[|fates| - 1].pin.Some? then fates[|fates| - 1].pin
    else LastPositional(fates[..|fates| - 1])
  }

  /** The first pin from a flag or a file. */
  function FirstOther(fates: seq<Fate>): Option<string> {
    if fates == [] then None
    else if !fates[0].positional && fates[0].pin.Some? then fates[0].pin
    else FirstOther(fates[1..])
  }

  lemma {:induction false} LastPositionalFromFront(fates: seq<Fate>)
    requires fates != []
    ensures LastPositional(fates) ==
      if LastPositional(fates[1..]).Some? then LastPositional(fates[1..])
      else if fates[0].positional then fates[0].pin else None
    decreases |fates|
  {
    var n := |fates| - 1;
    if n > 0 {
      LastPositionalFromFront(fates[..n]);
      assert fates[..n][1..] == fates[1..][..n - 1] && fates[1..][n - 1] == fates[n];
    } else {
      assert fates[..0] == [];
    }
  }

  lemma {:induction false} RecordedIsLastOrFirst(scan: Scan, fates: seq<Fate>)
    ensures AddAll(scan, fates).recorded ==
      if LastPositional(fates).Some? then LastPositional(fates)
      else if scan.recorded.Some? then scan.recorded
      else FirstOther(fates)
    decreases |fates|
  {
    if fates != [] {
      RecordedIsLastOrFirst(Add(scan, fates[0]), fates[1..]);
      LastPositionalFromFront(fates);
    }
  }
}
