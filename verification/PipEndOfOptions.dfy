/**
 * The scanner of docker/unsloth_pip_shim.py goes on reading flags after `--`; the real tool takes
 * everything there as an operand (section 12.2 of POSIX.1-2017 Base Definitions, guideline 10).
 */
module PipEndOfOptions {
  import opened Wrappers
  import opened PipScanner
  import opened PipReread

  function Operands(toks: seq<string>): seq<Item> {
    if toks == [] then [] else [Plain(toks[0])] + Operands(toks[1..])
  }

  /** The real reading. */
  function RealItems(f: Flags, tail: seq<string>): seq<Item> {
    if tail == [] then []
    else if tail[0] == "--" then [Plain("--")] + Operands(tail[1..])
    else if TakesNext(f, tail[0]) then
      if |tail| == 1 then [Dangling(tail[0])]
      else [Pair(tail[0], tail[1])] + RealItems(f, tail[2..])
    else [ReadOne(f, tail[0])] + RealItems(f, tail[1..])
  }

  /** What it makes of items written out. */
  function RealOf(items: seq<Item>): seq<Item> {
    if items == [] then []
    else if items[0] == Plain("--") then [Plain("--")] + Operands(RenderAll(items[1..]))
    else [items[0]] + RealOf(items[1..])
  }

  lemma {:induction false} RealRender(f: Flags, items: seq<Item>)
    requires IsPlain(f, "--") && DanglesOnlyLast(items) && forall x :: x in items ==> ReadsBack(f, x)
    ensures RealItems(f, RenderAll(items)) == RealOf(items)
    decreases |items|
  {
    if items != [] {
      var x, rest := items[0], items[1..];
      assert ReadsBack(f, x);
      RealRender(f, rest);
      var tail := RenderAll(items);
      match x {
        case Pair(flag, value) =>
          assert tail[2..] == RenderAll(rest);
        case Joined(flag, value) =>
          IndexOfJoined(flag, value);
          JoinedIsNoStop(flag, value);
          var tok := flag + "=" + value;
          assert tok[..|flag|] == flag && tok[|flag| + 1..] == value;
          assert tail[1..] == RenderAll(rest);
        case Dangling(flag) =>
          assert rest == [];
        case Plain(tok) =>
          assert tail[1..] == RenderAll(rest);
      }
    }
  }

  /** Without a `--` of its own among the survivors, the real tool reads exactly them. */
  lemma {:induction false} RealIsScanned(items: seq<Item>)
    requires Plain("--") !in items
    ensures RealOf(items) == items
  {
    if items != [] { RealIsScanned(items[1..]); }
  }

  // ---------------------------------------------------------------- what gets through

  /** Some flag's value would be an unwanted operand. */
  ghost predicate Exposed(s: Shim, items: seq<Item>) {
    exists i :: 0 <= i < |items| && items[i].Pair? && !Harmless(s, Plain(items[i].value))
  }

  ghost predicate ExposedAfterStop(s: Shim, items: seq<Item>) {
    items != [] && if items[0] == Plain("--") then Exposed(s, items[1..]) else ExposedAfterStop(s, items[1..])
  }

  ghost predicate AllHarmless(s: Shim, items: seq<Item>) {
    forall i :: 0 <= i < |items| ==> Harmless(s, items[i])
  }

  lemma OneHarmless(s: Shim, item: Item)
    ensures AllHarmless(s, [item]) <==> Harmless(s, item)
  {
    assert [item][0] == item;
  }

  lemma HarmlessConcat(s: Shim, a: seq<Item>, b: seq<Item>)
    ensures AllHarmless(s, a + b) <==> AllHarmless(s, a) && AllHarmless(s, b)
  {
    var c := a + b;
    assert forall i :: 0 <= i < |a| ==> c[i] == a[i];
    assert forall i :: 0 <= i < |b| ==> c[|a| + i] == b[i];
  }

  lemma {:induction false} OperandsConcat(a: seq<string>, b: seq<string>)
    ensures Operands(a + b) == Operands(a) + Operands(b)
  {
    if a == [] {
      assert a + b == b;
    } else {
      OperandsConcat(a[1..], b);
      assert (a + b)[1..] == a[1..] + b;
    }
  }

  lemma OneOperand(tok: string)
    ensures Operands([tok]) == [Plain(tok)]
  {
    assert [tok][1..] == [] && Operands([]) == [];
  }

  /** A token that begins with a dash names nothing. */
  lemma DashIsHarmless(s: Shim, tok: string)
    requires StartsWithDash(tok)
    ensures Harmless(s, Plain(tok))
  {
  }

  lemma ItemAsOperands(s: Shim, x: Item)
    requires Proper(s) && ReadsBack(s.flags, x) && Harmless(s, x)
    ensures AllHarmless(s, Operands(Render(x))) <==> (x.Pair? ==> Harmless(s, Plain(x.value)))
  {
    match x
    case Pair(flag, value) =>
      assert ProperFlag(flag);
      DashIsHarmless(s, flag);
      assert Render(x) == [flag] + [value];
      OperandsConcat([flag], [value]);
      OneOperand(flag);
      OneOperand(value);
      HarmlessConcat(s, [Plain(flag)], [Plain(value)]);
      OneHarmless(s, Plain(flag));
      OneHarmless(s, Plain(value));
    case Joined(flag, value) =>
      assert ProperFlag(flag);
      DashIsHarmless(s, flag + "=" + value);
    case Dangling(flag) =>
      assert ProperFlag(flag);
      DashIsHarmless(s, flag);
    case Plain(tok) =>
  }

  lemma ExposedFirst(s: Shim, x: Item, rest: seq<Item>)
    ensures Exposed(s, [x] + rest) <==> (x.Pair? && !Harmless(s, Plain(x.value))) || Exposed(s, rest)
  {
    var all := [x] + rest;
    assert all[0] == x && forall i :: 0 <= i < |rest| ==> all[i + 1] == rest[i];
  }

  lemma {:induction false} OperandsHarmlessIff(s: Shim, items: seq<Item>)
    requires Proper(s) && forall x :: x in items ==> ReadsBack(s.flags, x) && Harmless(s, x)
    ensures AllHarmless(s, Operands(RenderAll(items))) <==> !Exposed(s, items)
  {
    if items != [] {
      var x, rest := items[0], items[1..];
      assert items == [x] + rest && x in items;
      OperandsHarmlessIff(s, rest);
      ItemAsOperands(s, x);
      ExposedFirst(s, x, rest);
      OperandsConcat(Render(x), RenderAll(rest));
      HarmlessConcat(s, Operands(Render(x)), Operands(RenderAll(rest)));
    }
  }

  lemma {:induction false} RealHarmlessIff(s: Shim, items: seq<Item>)
    requires Proper(s) && forall x :: x in items ==> ReadsBack(s.flags, x) && Harmless(s, x)
    ensures AllHarmless(s, RealOf(items)) <==> !ExposedAfterStop(s, items)
  {
    if items != [] {
      var x, rest := items[0], items[1..];
      assert x in items;
      DashIsHarmless(s, "--");
      if x == Plain("--") {
        OperandsHarmlessIff(s, rest);
        HarmlessConcat(s, [x], Operands(RenderAll(rest)));
      } else {
        RealHarmlessIff(s, rest);
        HarmlessConcat(s, [x], RealOf(rest));
      }
    }
  }

  /**
   * What the real tool reads on the kept tokens installs and upgrades nothing protected, except by
   * extras, if and only if no flag after a `--` of the command is left with a value that names
   * something protected.
   */
  lemma RealKeepsOutIff(s: Shim, tail: seq<string>)
    requires Proper(s) && IsPlain(s.flags, "--")
    ensures AllHarmless(s, RealItems(s.flags, ItemScan(s, NOTHING, tail).keep))
      <==> !ExposedAfterStop(s, Survivors(Fates(s, ParseItems(s.flags, tail))))
  {
    var items := ParseItems(s.flags, tail);
    var kept := Survivors(Fates(s, items));
    ParseGives(s, tail);
    SurvivorsReadBack(s, items);
    SurvivorsHarmless(s, items);
    KeptIsRendered(NOTHING, Fates(s, items));
    assert [] + RenderAll(kept) == RenderAll(kept);
    RealRender(s.flags, kept);
    RealHarmlessIff(s, kept);
  }

  lemma TwoItems(f: Flags, flag: string, name: string)
    requires IsPlain(f, "--") && TakesNext(f, flag)
    ensures ParseItems(f, ["--", flag, name]) == [Plain("--"), Pair(flag, name)]
  {
    assert ["--", flag, name][1..] == [flag, name] && [flag, name][2..] == [];
    assert ParseItems(f, [flag, name]) == [Pair(flag, name)] + [];
  }

  lemma TwoSurvive(s: Shim, x: Item, y: Item)
    requires FateOf(s, x).survivor == Some(x) && FateOf(s, y).survivor == Some(y)
    ensures Survivors(Fates(s, [x, y])) == [x, y]
  {
    FirstSurvivor(s, [x, y]);
    FirstSurvivor(s, [y]);
    assert [x, y][1..] == [y] && [y][1..] == [];
  }

  /** Such a command: `-- --proxy torch` is kept whole, and the real tool installs `torch`. */
  lemma OperandGetsThrough(s: Shim, flag: string, name: string)
    requires Proper(s) && IsPlain(s.flags, "--") && TakesNext(s.flags, flag) && flag != "--"
    requires var f := s.flags; flag !in f.requirement + f.constraint + f.editable + f.upgrade + f.dropped
    requires NamesProtected(s, name) && forall asked :: s.extras(asked) != Some(name)
    ensures ItemScan(s, NOTHING, ["--", flag, name]).keep == ["--", flag, name]
    ensures !AllHarmless(s, RealItems(s.flags, ["--", flag, name]))
  {
    var tail := ["--", flag, name];
    var x, y := Plain("--"), Pair(flag, name);
    TwoItems(s.flags, flag, name);
    TwoSurvive(s, x, y);
    KeptIsRendered(NOTHING, Fates(s, [x, y]));
    assert RenderAll([x, y]) == tail by {
      assert [x, y][1..] == [y] && [y][1..] == [] && RenderAll([y]) == [flag, name];
    }
    assert [] + tail == tail;
    RealKeepsOutIff(s, tail);
    assert [x, y][1..][0] == y && !Harmless(s, Plain(name));
  }
}
