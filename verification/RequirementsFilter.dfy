/**
 * `_filter_requirements_file` of docker/unsloth_pip_shim.py: protected requests are struck from a
 * requirements file and from the files it includes, in fresh copies.
 *
 * Lines are logical lines, already parsed; what a file asks for is what the real tool reads when
 * it follows the includes.
 */
module RequirementsFilter {
  import opened Wrappers
  import opened Sequences

  /** Files the caller wrote, and copies made here. */
  datatype Path = Given(dir: seq<string>, name: string) | Copy(n: nat)

  datatype Target = Remote(url: string) | Absolute(path: Path) | Relative(dirs: seq<string>, name: string)

  /** `joined` includes are written over several physical lines; Inert is everything that requests nothing. */
  datatype Line =
    | Inert(text: string)
    | Requirement(spec: string)
    | Editable(spec: string)
    | Include(constraint: bool, target: Target, joined: bool)

  type Files = map<Path, seq<Line>>

  datatype Action = Keep | Drop(pin: Option<string>) | OnlyExtras(spec: string, pin: Option<string>)

  /** What is decided about a request on its own; of an editable no extras are left (576-577, 611-633). */
  datatype Policy = Policy(ofSpec: string -> Action, dropsEditable: string -> bool, editablePin: string -> Option<string>)
  {
    function OfEditable(spec: string): Action {
      if dropsEditable(spec) then Drop(editablePin(spec)) else Keep
    }
  }

  /** Where the copies live. */
  const TMP: seq<string> := ["tmp"]

  const MAX_DEPTH := 8

  function DirOf(p: Path): seq<string> {
    match p
    case Given(dir, _) => dir
    case Copy(_) => TMP
  }

  function Resolved(dir: seq<string>, t: Target): Path
    requires !t.Remote?
  {
    match t
    case Absolute(p) => p
    case Relative(dirs, name) => Given(dir + dirs, name)
  }

  // ---------------------------------------------------------------- what a file asks for

  datatype Item =
    | Request(spec: string)
    | EditableRequest(spec: string)
    | FromUrl(constraint: bool, url: string)
    | Missing(path: Path)
    | Enter(constraint: bool)
    | Leave
    | More

  /** The requests read from `path` with its includes, down to `n` levels of files. */
  function Reads(fs: Files, path: Path, n: nat): seq<Item>
    decreases n, 0
  {
    if n == 0 then [More]
    else if path !in fs then [Missing(path)]
    else ReadsLines(fs, DirOf(path), fs[path], n - 1)
  }

  function ReadsLines(fs: Files, dir: seq<string>, lines: seq<Line>, n: nat): seq<Item>
    decreases n, 1, |lines|
  {
    if lines == [] then [] else ReadsLine(fs, dir, lines[0], n) + ReadsLines(fs, dir, lines[1..], n)
  }

  function ReadsLine(fs: Files, dir: seq<string>, line: Line, n: nat): seq<Item>
    decreases n, 1, 0
  {
    match line
    case Inert(_) => []
    case Requirement(spec) => [Request(spec)]
    case Editable(spec) => [EditableRequest(spec)]
    case Include(constraint, target, _) =>
      if target.Remote? then [FromUrl(constraint, target.url)]
      else [Enter(constraint)] + Reads(fs, Resolved(dir, target), n) + [Leave]
  }

  // ---------------------------------------------------------------- what the filter should leave

  /** Whether a line makes a copy necessary, with `room` more levels to filter. */
  predicate ChangesLine(policy: Policy, fs: Files, line: Line, room: nat)
    decreases room, 1, 0
  {
    match line
    case Inert(_) => false
    case Requirement(spec) => !policy.ofSpec(spec).Keep?
    case Editable(spec) => !policy.OfEditable(spec).Keep?
    case Include(_, target, joined) =>
      !joined && (!target.Absolute? || (room > 0 && Changes(policy, fs, target.path, room - 1)))
  }

  predicate ChangesLines(policy: Policy, fs: Files, lines: seq<Line>, room: nat)
    decreases room, 1, |lines|
  {
    lines != [] && (ChangesLine(policy, fs, lines[0], room) || ChangesLines(policy, fs, lines[1..], room))
  }

  predicate Changes(policy: Policy, fs: Files, path: Path, room: nat)
    decreases room, 2
  {
    path in fs && ChangesLines(policy, fs, fs[path], room)
  }

  function Struck(action: Action, item: Item): seq<Item> {
    match action
    case Keep => [item]
    case Drop(_) => []
    case OnlyExtras(spec, _) => [Request(spec)]
  }

  /** What the result for `path` asks for; a negative `room` means the file is left as it is. */
  function Left(policy: Policy, fs: Files, path: Path, room: int, n: nat): seq<Item>
    decreases n, 0
  {
    if room < 0 then Reads(fs, path, n)
    else if n == 0 then [More]
    else if path !in fs then [Missing(path)]
    else
      var dir := if Changes(policy, fs, path, room) then TMP else DirOf(path);
      LeftLines(policy, fs, DirOf(path), dir, fs[path], room, n - 1)
  }

  /** `from` is the directory of the file read, `dir` that of the file the lines end up in. */
  function LeftLines(policy: Policy, fs: Files, from: seq<string>, dir: seq<string>, lines: seq<Line>, room: nat, n: nat): seq<Item>
    decreases n, 1, |lines|
  {
    if lines == [] then []
    else LeftLine(policy, fs, from, dir, lines[0], room, n) + LeftLines(policy, fs, from, dir, lines[1..], room, n)
  }

  function LeftLine(policy: Policy, fs: Files, from: seq<string>, dir: seq<string>, line: Line, room: nat, n: nat): seq<Item>
    decreases n, 1, 0
  {
    match line
    case Inert(_) => []
    case Requirement(spec) => Struck(policy.ofSpec(spec), Request(spec))
    case Editable(spec) => Struck(policy.OfEditable(spec), EditableRequest(spec))
    case Include(constraint, target, joined) =>
      if joined then ReadsLine(fs, dir, line, n)
      else if target.Remote? then []
      else [Enter(constraint)] + Left(policy, fs, Resolved(from, target), room - 1, n) + [Leave]
  }

  // ---------------------------------------------------------------- what it means

  /** Strike every request on its own, and every include of a URL. */
  function StrikeAll(policy: Policy, items: seq<Item>): seq<Item> {
    if items == [] then []
    else StrikeFirst(policy, items[0]) + StrikeAll(policy, items[1..])
  }

  function StrikeFirst(policy: Policy, item: Item): seq<Item> {
    match item
    case Request(spec) => Struck(policy.ofSpec(spec), item)
    case EditableRequest(spec) => Struck(policy.OfEditable(spec), item)
    case FromUrl(_, _) => []
    case _ => [item]
  }

  /** What is left of one item; with `StrikeAppend` that is all there is to striking. */
  lemma StrikeOne(policy: Policy, item: Item)
    ensures StrikeAll(policy, [item]) == match item
      case Request(spec) =>
        (match policy.ofSpec(spec)
         case Keep => [Request(spec)]
         case Drop(_) => []
         case OnlyExtras(extras, _) => [Request(extras)])
      case EditableRequest(spec) => if policy.dropsEditable(spec) then [] else [EditableRequest(spec)]
      case FromUrl(_, _) => []
      case other => [other]
  {
    assert [item][1..] == [];
  }

  predicate PlainLine(line: Line) {
    line.Include? ==> !line.joined
  }

  /** No include is written over several physical lines. */
  ghost predicate Plain(fs: Files) {
    forall p, i :: p in fs && 0 <= i < |fs[p]| ==> PlainLine(fs[p][i])
  }

  lemma {:induction false} StrikeAppend(policy: Policy, a: seq<Item>, b: seq<Item>)
    ensures StrikeAll(policy, a + b) == StrikeAll(policy, a) + StrikeAll(policy, b)
  {
    if a == [] {
      assert a + b == b;
    } else {
      var all, head := a + b, StrikeFirst(policy, a[0]);
      StrikeAppend(policy, a[1..], b);
      UnconsConcat(a, b);
      assert StrikeAll(policy, all) == head + StrikeAll(policy, all[1..]);
      Assoc(head, StrikeAll(policy, a[1..]), StrikeAll(policy, b));
    }
  }

  /**
   * Striking requests and following includes commute: down to the filtered depth the result asks
   * for exactly the surviving requests, in order and with the include structure kept.
   */
  lemma {:induction false} LeftIsStruck(policy: Policy, fs: Files, path: Path, room: nat, n: nat)
    requires Plain(fs) && n <= room + 1
    ensures Left(policy, fs, path, room, n) == StrikeAll(policy, Reads(fs, path, n))
    decreases n, 0
  {
    if n == 0 {
      StrikeNothing(policy, More);
    } else if path !in fs {
      StrikeNothing(policy, Missing(path));
    } else {
      var dir := if Changes(policy, fs, path, room) then TMP else DirOf(path);
      LinesAreStruck(policy, fs, DirOf(path), dir, fs[path], room, n - 1);
    }
  }

  lemma StrikeNothing(policy: Policy, item: Item)
    requires !item.Request? && !item.EditableRequest? && !item.FromUrl?
    ensures StrikeAll(policy, [item]) == [item]
  {
  }

  lemma {:induction false} LinesAreStruck(policy: Policy, fs: Files, from: seq<string>, dir: seq<string>, lines: seq<Line>, room: nat, n: nat)
    requires Plain(fs) && n <= room && forall i :: 0 <= i < |lines| ==> PlainLine(lines[i])
    ensures LeftLines(policy, fs, from, dir, lines, room, n) == StrikeAll(policy, ReadsLines(fs, from, lines, n))
    decreases n, 1, |lines|
  {
    if lines != [] {
      LineIsStruck(policy, fs, from, dir, lines[0], room, n);
      LinesAreStruck(policy, fs, from, dir, lines[1..], room, n);
      StrikeAppend(policy, ReadsLine(fs, from, lines[0], n), ReadsLines(fs, from, lines[1..], n));
    }
  }

  lemma {:induction false} LineIsStruck(policy: Policy, fs: Files, from: seq<string>, dir: seq<string>, line: Line, room: nat, n: nat)
    requires Plain(fs) && n <= room && PlainLine(line)
    ensures LeftLine(policy, fs, from, dir, line, room, n) == StrikeAll(policy, ReadsLine(fs, from, line, n))
    decreases n, 1, 0
  {
    if line.Include? && !line.target.Remote? {
      var inner := Reads(fs, Resolved(from, line.target), n);
      if room > 0 {
        LeftIsStruck(policy, fs, Resolved(from, line.target), room - 1, n);
      } else {
        assert n == 0;
      }
      StrikeAppend(policy, [Enter(line.constraint)] + inner, [Leave]);
      StrikeAppend(policy, [Enter(line.constraint)], inner);
    }
  }

  // ---------------------------------------------------------------- where it stops

  /** A chain of files, each including the next, with one request in the last. */
  ghost predicate IncludeChain(fs: Files, chain: seq<Path>, spec: string) {
    && chain != [] && chain[0] in fs
    && if |chain| == 1 then fs[chain[0]] == [Requirement(spec)]
       else fs[chain[0]] == [Include(false, Absolute(chain[1]), false)] && IncludeChain(fs, chain[1..], spec)
  }

  lemma ReadsOneLine(fs: Files, dir: seq<string>, line: Line, n: nat)
    ensures ReadsLines(fs, dir, [line], n) == ReadsLine(fs, dir, line, n)
  {
    assert [line][1..] == [] && ReadsLines(fs, dir, [], n) == [];
  }

  lemma LeftOneLine(policy: Policy, fs: Files, from: seq<string>, dir: seq<string>, line: Line, room: nat, n: nat)
    ensures LeftLines(policy, fs, from, dir, [line], room, n) == LeftLine(policy, fs, from, dir, line, room, n)
  {
    assert [line][1..] == [] && LeftLines(policy, fs, from, dir, [], room, n) == [];
  }

  lemma {:induction false} ChainReads(fs: Files, chain: seq<Path>, spec: string)
    requires IncludeChain(fs, chain, spec)
    ensures Request(spec) in Reads(fs, chain[0], |chain|)
  {
    var line := fs[chain[0]][0];
    ReadsOneLine(fs, DirOf(chain[0]), line, |chain| - 1);
    if |chain| > 1 {
      ChainReads(fs, chain[1..], spec);
    }
  }

  /** Behind more includes than the filter follows, a protected request survives as it is written. */
  lemma {:induction false} DeepRequestSurvives(policy: Policy, fs: Files, chain: seq<Path>, spec: string, room: int)
    requires IncludeChain(fs, chain, spec) && -1 <= room && |chain| > room + 1
    ensures Request(spec) in Left(policy, fs, chain[0], room, |chain|)
    decreases |chain|
  {
    if room < 0 {
      ChainReads(fs, chain, spec);
    } else {
      DeepRequestSurvives(policy, fs, chain[1..], spec, room - 1);
      var path, line := chain[0], fs[chain[0]][0];
      var dir := if Changes(policy, fs, path, room) then TMP else DirOf(path);
      LeftOneLine(policy, fs, DirOf(path), dir, line, room, |chain| - 1);
    }
  }

  /** An include written over two physical lines is not followed either. */
  lemma JoinedIncludeSurvives(policy: Policy, fs: Files, path: Path, inner: Path, spec: string)
    requires path in fs && fs[path] == [Include(false, Absolute(inner), true)]
    requires inner in fs && fs[inner] == [Requirement(spec)]
    ensures Request(spec) in Left(policy, fs, path, MAX_DEPTH, 2)
  {
    var dir := if Changes(policy, fs, path, MAX_DEPTH) then TMP else DirOf(path);
    LeftOneLine(policy, fs, DirOf(path), dir, fs[path][0], MAX_DEPTH, 1);
    ReadsOneLine(fs, DirOf(inner), Requirement(spec), 0);
  }

  lemma ReadsTwoLines(fs: Files, dir: seq<string>, x: Line, y: Line, n: nat)
    ensures ReadsLines(fs, dir, [x, y], n) == ReadsLine(fs, dir, x, n) + ReadsLine(fs, dir, y, n)
  {
    assert [x, y][1..] == [y];
    ReadsOneLine(fs, dir, y, n);
  }

  lemma LeftTwoLines(policy: Policy, fs: Files, from: seq<string>, dir: seq<string>, x: Line, y: Line, room: nat, n: nat)
    ensures LeftLines(policy, fs, from, dir, [x, y], room, n)
      == LeftLine(policy, fs, from, dir, x, room, n) + LeftLine(policy, fs, from, dir, y, room, n)
  {
    assert [x, y][1..] == [y];
    LeftOneLine(policy, fs, from, dir, y, room, n);
  }

  /** In a copy, such an include with a relative target is looked for where the copy lies, not beside the original. */
  lemma JoinedRelativeIncludeMoves(policy: Policy, fs: Files, path: Path, spec: string, dirs: seq<string>, name: string)
    requires path in fs && fs[path] == [Requirement(spec), Include(false, Relative(dirs, name), true)]
    requires policy.ofSpec(spec).Drop?
    ensures Left(policy, fs, path, MAX_DEPTH, 2) == [Enter(false)] + Reads(fs, Given(TMP + dirs, name), 1) + [Leave]
    ensures Reads(fs, path, 2)
      == [Request(spec)] + ([Enter(false)] + Reads(fs, Given(DirOf(path) + dirs, name), 1) + [Leave])
  {
    var x, y := Requirement(spec), Include(false, Relative(dirs, name), true);
    assert ChangesLine(policy, fs, x, MAX_DEPTH) && fs[path][0] == x;
    assert Changes(policy, fs, path, MAX_DEPTH);
    LeftTwoLines(policy, fs, DirOf(path), TMP, x, y, MAX_DEPTH, 1);
    ReadsTwoLines(fs, DirOf(path), x, y, 1);
  }

  predicate Leaves(policy: Policy, was: string, spec: string) {
    match policy.ofSpec(was)
    case Keep => was == spec
    case Drop(_) => false
    case OnlyExtras(extras, _) => extras == spec
  }

  /** Whatever is still requested is either kept by the policy or the extras of something struck. */
  lemma {:induction false} OnlyKeptRequestsLeft(policy: Policy, items: seq<Item>, spec: string)
    requires Request(spec) in StrikeAll(policy, items)
    ensures exists was :: Request(was) in items && Leaves(policy, was, spec)
  {
    if Request(spec) in StrikeAll(policy, items[1..]) {
      OnlyKeptRequestsLeft(policy, items[1..], spec);
      var was :| Request(was) in items[1..] && Leaves(policy, was, spec);
      assert Request(was) in items;
    } else {
      assert items[0].Request?;
      assert items[0] == Request(items[0].spec);
    }
  }

  // ---------------------------------------------------------------- what is reported

  /** A request or include that was struck, and whether it came by way of a constraints file. */
  datatype Strike = Strike(line: Line, constraint: bool)

  function ByConstraint(strikes: seq<Strike>): seq<Strike> {
    if strikes == [] then [] else [Strike(strikes[0].line, true)] + ByConstraint(strikes[1..])
  }

  function StrikesOfLine(policy: Policy, fs: Files, from: seq<string>, line: Line, room: nat): seq<Strike>
    decreases room, 1, 0
  {
    match line
    case Inert(_) => []
    case Requirement(spec) => if policy.ofSpec(spec).Keep? then [] else [Strike(line, false)]
    case Editable(spec) => if policy.dropsEditable(spec) then [Strike(line, false)] else []
    case Include(constraint, target, joined) =>
      if joined then []
      else if target.Remote? then [Strike(line, false)]
      else if room == 0 then []
      else
        var inner := Strikes(policy, fs, Resolved(from, target), room - 1);
        if constraint then ByConstraint(inner) else inner
  }

  function StrikesOfLines(policy: Policy, fs: Files, from: seq<string>, lines: seq<Line>, room: nat): seq<Strike>
    decreases room, 1, |lines|
  {
    if lines == [] then []
    else StrikesOfLine(policy, fs, from, lines[0], room) + StrikesOfLines(policy, fs, from, lines[1..], room)
  }

  /** Everything struck on the way through `path`, in order. */
  function Strikes(policy: Policy, fs: Files, path: Path, room: nat): seq<Strike>
    decreases room, 2
  {
    if path !in fs then [] else StrikesOfLines(policy, fs, DirOf(path), fs[path], room)
  }

  function PinOf(policy: Policy, line: Line): Option<string> {
    match line
    case Requirement(spec) =>
      (match policy.ofSpec(spec)
       case Keep => None
       case Drop(pin) => pin
       case OnlyExtras(_, pin) => pin)
    case Editable(spec) => policy.editablePin(spec)
    case _ => None
  }

  /** The version to record: the first pin that is an install request, not a constraint. */
  function FirstPin(policy: Policy, strikes: seq<Strike>): Option<string> {
    if strikes == [] then None
    else if !strikes[0].constraint && PinOf(policy, strikes[0].line).Some? then PinOf(policy, strikes[0].line)
    else FirstPin(policy, strikes[1..])
  }

  /** What is reported as dropped: requests of which nothing is left, and includes of URLs. */
  function Dropped(policy: Policy, strikes: seq<Strike>): seq<Line> {
    if strikes == [] then []
    else
      (if strikes[0].line.Requirement? && !policy.ofSpec(strikes[0].line.spec).Drop? then [] else [strikes[0].line])
      + Dropped(policy, strikes[1..])
  }
}
