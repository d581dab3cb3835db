/**
 * Which requirements files the filter of docker/unsloth_pip_shim.py cleans completely: following
 * includes and striking requests commute on a file exactly when it is sheltered.
 */
module RequirementsShelter {
  import opened RequirementsFilter

  // ---------------------------------------------------------------- the condition

  /** Whether striking would take or alter the item. */
  predicate Strikeable(policy: Policy, item: Item) {
    match item
    case Request(spec) => Struck(policy.ofSpec(spec), item) != [item]
    case EditableRequest(spec) => Struck(policy.OfEditable(spec), item) != [item]
    case FromUrl(_, _) => true
    case _ => false
  }

  predicate NothingStrikeable(policy: Policy, items: seq<Item>) {
    forall i :: 0 <= i < |items| ==> !Strikeable(policy, items[i])
  }

  /**
   * Nothing is missed in `path` and what it includes: includes deeper than `room` ask for nothing
   * strikeable, and neither do joined ones, which still lead to the file they led to.
   */
  predicate Sheltered(policy: Policy, fs: Files, path: Path, room: int, n: nat)
    decreases n, 0
  {
    if room < 0 then NothingStrikeable(policy, Reads(fs, path, n))
    else
      n == 0 || path !in fs ||
      var dir := if Changes(policy, fs, path, room) then TMP else DirOf(path);
      ShelteredLines(policy, fs, DirOf(path), dir, fs[path], room, n - 1)
  }

  predicate ShelteredLines(policy: Policy, fs: Files, from: seq<string>, dir: seq<string>, lines: seq<Line>, room: nat, n: nat)
    decreases n, 1, |lines|
  {
    lines == [] ||
    (ShelteredLine(policy, fs, from, dir, lines[0], room, n) && ShelteredLines(policy, fs, from, dir, lines[1..], room, n))
  }

  /** A joined include with a relative target is looked for in `dir`, where its line ends up. */
  predicate ShelteredLine(policy: Policy, fs: Files, from: seq<string>, dir: seq<string>, line: Line, room: nat, n: nat)
    decreases n, 1, 0
  {
    line.Include? ==>
      if line.target.Remote? then !line.joined
      else
        var meant := Resolved(from, line.target);
        if !line.joined then Sheltered(policy, fs, meant, room - 1, n)
        else if Resolved(dir, line.target) == meant then NothingStrikeable(policy, Reads(fs, meant, n))
        else Reads(fs, Resolved(dir, line.target), n) == StrikeAll(policy, Reads(fs, meant, n))
  }

  // ---------------------------------------------------------------- striking changes what is strikeable

  lemma {:induction false} StrikeShortens(policy: Policy, items: seq<Item>)
    ensures |StrikeAll(policy, items)| <= |items|
  {
    if items != [] { StrikeShortens(policy, items[1..]); }
  }

  lemma {:induction false} StrikesNothingIff(policy: Policy, items: seq<Item>)
    ensures StrikeAll(policy, items) == items <==> NothingStrikeable(policy, items)
  {
    if items != [] {
      StrikesNothingIff(policy, items[1..]);
      StrikeShortens(policy, items[1..]);
      assert items == [items[0]] + items[1..];
      assert NothingStrikeable(policy, items) <==> !Strikeable(policy, items[0]) && NothingStrikeable(policy, items[1..]);
    }
  }

  lemma {:induction false} NoUrlLeft(policy: Policy, items: seq<Item>)
    ensures forall item :: item in StrikeAll(policy, items) ==> !item.FromUrl?
  {
    if items != [] { NoUrlLeft(policy, items[1..]); }
  }

  // ---------------------------------------------------------------- what is read is properly nested

  /** `d` includes are open before the items, none after them. */
  predicate Nested(items: seq<Item>, d: nat) {
    if items == [] then d == 0
    else if items[0].Enter? then Nested(items[1..], d + 1)
    else if items[0].Leave? then d > 0 && Nested(items[1..], d - 1)
    else Nested(items[1..], d)
  }

  lemma {:induction false} NestedAppend(a: seq<Item>, d: nat, b: seq<Item>, e: nat)
    requires Nested(a, d) && Nested(b, e)
    ensures Nested(a + b, d + e)
  {
    if a == [] {
      assert a + b == b;
    } else {
      assert (a + b)[1..] == a[1..] + b;
      NestedAppend(a[1..], if a[0].Enter? then d + 1 else if a[0].Leave? then d - 1 else d, b, e);
    }
  }

  function Block(constraint: bool, items: seq<Item>): seq<Item> {
    [Enter(constraint)] + items + [Leave]
  }

  lemma NestedBlock(constraint: bool, items: seq<Item>)
    requires Nested(items, 0)
    ensures Nested(Block(constraint, items), 0)
  {
    assert [Leave][1..] == [];
    NestedAppend(items, 0, [Leave], 1);
    assert Block(constraint, items)[1..] == items + [Leave];
  }

  /** A nested part ends where its own `Leave` is: it can be told from what follows. */
  lemma {:induction false} NestedUnique(x: seq<Item>, a: seq<Item>, y: seq<Item>, b: seq<Item>, d: nat)
    requires Nested(x, d) && Nested(y, d) && x + ([Leave] + a) == y + ([Leave] + b)
    ensures x == y && a == b
  {
    var s, t := x + ([Leave] + a), y + ([Leave] + b);
    assert s[0] == if x == [] then Leave else x[0];
    assert t[0] == if y == [] then Leave else y[0];
    if x == [] || y == [] {
      assert x == y;
      assert s[1..] == a && t[1..] == b;
    } else {
      assert s[1..] == x[1..] + ([Leave] + a) && t[1..] == y[1..] + ([Leave] + b);
      NestedUnique(x[1..], a, y[1..], b, if x[0].Enter? then d + 1 else if x[0].Leave? then d - 1 else d);
      assert x == [x[0]] + x[1..] && y == [y[0]] + y[1..];
    }
  }

  lemma BlocksUnique(constraint: bool, x: seq<Item>, a: seq<Item>, y: seq<Item>, b: seq<Item>)
    requires Nested(x, 0) && Nested(y, 0)
    ensures Block(constraint, x) + a == Block(constraint, y) + b <==> x == y && a == b
  {
    if Block(constraint, x) + a == Block(constraint, y) + b {
      assert (Block(constraint, x) + a)[1..] == x + ([Leave] + a);
      assert (Block(constraint, y) + b)[1..] == y + ([Leave] + b);
      NestedUnique(x, a, y, b, 0);
    }
  }

  lemma {:induction false} ReadsNested(fs: Files, path: Path, n: nat)
    ensures Nested(Reads(fs, path, n), 0)
    decreases n, 0
  {
    if n > 0 && path in fs {
      ReadsLinesNested(fs, DirOf(path), fs[path], n - 1);
    } else {
      assert Reads(fs, path, n)[1..] == [];
    }
  }

  lemma {:induction false} ReadsLinesNested(fs: Files, dir: seq<string>, lines: seq<Line>, n: nat)
    ensures Nested(ReadsLines(fs, dir, lines, n), 0)
    decreases n, 1, |lines|
  {
    if lines != [] {
      ReadsLineNested(fs, dir, lines[0], n);
      ReadsLinesNested(fs, dir, lines[1..], n);
      NestedAppend(ReadsLine(fs, dir, lines[0], n), 0, ReadsLines(fs, dir, lines[1..], n), 0);
    }
  }

  lemma {:induction false} ReadsLineNested(fs: Files, dir: seq<string>, line: Line, n: nat)
    ensures Nested(ReadsLine(fs, dir, line, n), 0)
    decreases n, 1, 0
  {
    if line.Include? && !line.target.Remote? {
      ReadsNested(fs, Resolved(dir, line.target), n);
      NestedBlock(line.constraint, Reads(fs, Resolved(dir, line.target), n));
    } else if !line.Inert? {
      assert ReadsLine(fs, dir, line, n)[1..] == [];
    }
  }

  lemma {:induction false} LeftNested(policy: Policy, fs: Files, path: Path, room: int, n: nat)
    ensures Nested(Left(policy, fs, path, room, n), 0)
    decreases n, 0
  {
    if room >= 0 && n > 0 && path in fs {
      var dir := if Changes(policy, fs, path, room) then TMP else DirOf(path);
      LeftLinesNested(policy, fs, DirOf(path), dir, fs[path], room, n - 1);
    } else {
      ReadsNested(fs, path, n);
    }
  }

  lemma {:induction false} LeftLinesNested(policy: Policy, fs: Files, from: seq<string>, dir: seq<string>, lines: seq<Line>, room: nat, n: nat)
    ensures Nested(LeftLines(policy, fs, from, dir, lines, room, n), 0)
    decreases n, 1, |lines|
  {
    if lines != [] {
      LeftLineNested(policy, fs, from, dir, lines[0], room, n);
      LeftLinesNested(policy, fs, from, dir, lines[1..], room, n);
      NestedAppend(LeftLine(policy, fs, from, dir, lines[0], room, n), 0, LeftLines(policy, fs, from, dir, lines[1..], room, n), 0);
    }
  }

  lemma {:induction false} LeftLineNested(policy: Policy, fs: Files, from: seq<string>, dir: seq<string>, line: Line, room: nat, n: nat)
    ensures Nested(LeftLine(policy, fs, from, dir, line, room, n), 0)
    decreases n, 1, 0
  {
    if line.Include? {
      if line.joined {
        ReadsLineNested(fs, dir, line, n);
      } else if !line.target.Remote? {
        LeftNested(policy, fs, Resolved(from, line.target), room - 1, n);
        NestedBlock(line.constraint, Left(policy, fs, Resolved(from, line.target), room - 1, n));
      }
    } else {
      var left := LeftLine(policy, fs, from, dir, line, room, n);
      assert left != [] ==> left[1..] == [];
    }
  }

  lemma {:induction false} StrikeNested(policy: Policy, items: seq<Item>, d: nat)
    requires Nested(items, d)
    ensures Nested(StrikeAll(policy, items), d)
  {
    if items != [] {
      var item, rest := items[0], StrikeAll(policy, items[1..]);
      StrikeNested(policy, items[1..], if item.Enter? then d + 1 else if item.Leave? then d - 1 else d);
      var all := StrikeAll(policy, items);
      assert all == rest || all[1..] == rest;
    }
  }

  lemma StrikeBlock(policy: Policy, constraint: bool, items: seq<Item>)
    ensures StrikeAll(policy, Block(constraint, items)) == Block(constraint, StrikeAll(policy, items))
  {
    StrikeAppend(policy, [Enter(constraint)] + items, [Leave]);
    StrikeAppend(policy, [Enter(constraint)], items);
    StrikeNothing(policy, Enter(constraint));
    StrikeNothing(policy, Leave);
  }

  // ---------------------------------------------------------------- the theorem

  /**
   * What the filter leaves is what striking every request would leave, at this depth of reading,
   * if and only if the file is sheltered.
   */
  lemma {:induction false} CleanIffSheltered(policy: Policy, fs: Files, path: Path, room: int, n: nat)
    ensures Left(policy, fs, path, room, n) == StrikeAll(policy, Reads(fs, path, n)) <==> Sheltered(policy, fs, path, room, n)
    decreases n, 0
  {
    if room < 0 {
      StrikesNothingIff(policy, Reads(fs, path, n));
    } else if n == 0 {
      StrikeNothing(policy, More);
    } else if path !in fs {
      StrikeNothing(policy, Missing(path));
    } else {
      var dir := if Changes(policy, fs, path, room) then TMP else DirOf(path);
      LinesCleanIff(policy, fs, DirOf(path), dir, fs[path], room, n - 1);
    }
  }

  lemma {:induction false} LinesCleanIff(policy: Policy, fs: Files, from: seq<string>, dir: seq<string>, lines: seq<Line>, room: nat, n: nat)
    ensures LeftLines(policy, fs, from, dir, lines, room, n) == StrikeAll(policy, ReadsLines(fs, from, lines, n))
      <==> ShelteredLines(policy, fs, from, dir, lines, room, n)
    decreases n, 1, |lines|
  {
    if lines != [] {
      var line := lines[0];
      var left, right := LeftLines(policy, fs, from, dir, lines[1..], room, n), StrikeAll(policy, ReadsLines(fs, from, lines[1..], n));
      LinesCleanIff(policy, fs, from, dir, lines[1..], room, n);
      StrikeAppend(policy, ReadsLine(fs, from, line, n), ReadsLines(fs, from, lines[1..], n));
      if line.Include? && !line.target.Remote? {
        IncludeCleanIff(policy, fs, from, dir, line, room, n, left, right);
      } else {
        NoUrlLeft(policy, ReadsLines(fs, from, lines[1..], n));
        OtherCleanIff(policy, fs, from, dir, line, room, n, left, right);
      }
    }
  }

  lemma OtherCleanIff(policy: Policy, fs: Files, from: seq<string>, dir: seq<string>, line: Line, room: nat, n: nat,
                      left: seq<Item>, right: seq<Item>)
    requires line.Include? ==> line.target.Remote?
    requires forall item :: item in right ==> !item.FromUrl?
    ensures LeftLine(policy, fs, from, dir, line, room, n) + left == StrikeAll(policy, ReadsLine(fs, from, line, n)) + right
      <==> ShelteredLine(policy, fs, from, dir, line, room, n) && left == right
  {
    var here, struck := LeftLine(policy, fs, from, dir, line, room, n), StrikeAll(policy, ReadsLine(fs, from, line, n));
    var items := ReadsLine(fs, from, line, n);
    assert items != [] ==> items[1..] == [] && StrikeAll(policy, items[1..]) == [];
    if line.Include? && line.joined {
      assert struck == [];
      assert (here + left)[0].FromUrl? && struck + right == right;
      assert right != [] ==> right[0] in right;
    } else {
      assert here == struck;
      assert (here + left)[|here|..] == left && (here + right)[|here|..] == right;
    }
  }

  lemma {:induction false} IncludeCleanIff(policy: Policy, fs: Files, from: seq<string>, dir: seq<string>, line: Line, room: nat, n: nat,
                                           left: seq<Item>, right: seq<Item>)
    requires line.Include? && !line.target.Remote?
    ensures LeftLine(policy, fs, from, dir, line, room, n) + left == StrikeAll(policy, ReadsLine(fs, from, line, n)) + right
      <==> ShelteredLine(policy, fs, from, dir, line, room, n) && left == right
    decreases n, 1, 0
  {
    var meant := Resolved(from, line.target);
    var struck := StrikeAll(policy, Reads(fs, meant, n));
    StrikeBlock(policy, line.constraint, Reads(fs, meant, n));
    ReadsNested(fs, meant, n);
    StrikeNested(policy, Reads(fs, meant, n), 0);
    if line.joined {
      var found := Reads(fs, Resolved(dir, line.target), n);
      ReadsNested(fs, Resolved(dir, line.target), n);
      StrikesNothingIff(policy, Reads(fs, meant, n));
      BlocksUnique(line.constraint, found, left, struck, right);
    } else {
      LeftNested(policy, fs, meant, room - 1, n);
      CleanIffSheltered(policy, fs, meant, room - 1, n);
      BlocksUnique(line.constraint, Left(policy, fs, meant, room - 1, n), left, struck, right);
    }
  }

  // ---------------------------------------------------------------- the cases a caller meets

  /** Without joined includes, a file is sheltered down to the filtered depth whatever it holds. */
  lemma ShallowIsSheltered(policy: Policy, fs: Files, path: Path, room: nat, n: nat)
    requires Plain(fs) && n <= room + 1
    ensures Sheltered(policy, fs, path, room, n)
  {
    LeftIsStruck(policy, fs, path, room, n);
    CleanIffSheltered(policy, fs, path, room, n);
  }

  lemma {:induction false} StruckLinesStart(policy: Policy, fs: Files, dir: seq<string>, lines: seq<Line>, n: nat)
    ensures var s := StrikeAll(policy, ReadsLines(fs, dir, lines, n)); s == [] || !s[0].Missing?
  {
    if lines != [] {
      var here := ReadsLine(fs, dir, lines[0], n);
      StrikeAppend(policy, here, ReadsLines(fs, dir, lines[1..], n));
      StruckLinesStart(policy, fs, dir, lines[1..], n);
      if lines[0].Include? && !lines[0].target.Remote? {
        StrikeBlock(policy, lines[0].constraint, Reads(fs, Resolved(dir, lines[0].target), n));
      }
    }
  }

  /** With none of the caller's files among the copies, a joined relative include of a copied file is lost. */
  lemma MovedIsLost(policy: Policy, fs: Files, from: seq<string>, line: Line, room: nat, n: nat)
    requires line.Include? && line.joined && line.target.Relative? && from != TMP && n > 0
    requires Resolved(TMP, line.target) !in fs
    ensures !ShelteredLine(policy, fs, from, TMP, line, room, n)
  {
    var meant, moved := Resolved(from, line.target), Resolved(TMP, line.target);
    assert meant != moved by {
      var dirs := line.target.dirs;
      assert (from + dirs)[..|from|] == from && (TMP + dirs)[..|TMP|] == TMP;
      assert from + dirs == TMP + dirs ==> |from| == |TMP|;
    }
    if meant in fs {
      StruckLinesStart(policy, fs, DirOf(meant), fs[meant], n - 1);
    } else {
      StrikeNothing(policy, Missing(meant));
    }
  }
}
