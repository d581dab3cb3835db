/**
 * What is read on the command line that docker/unsloth_pip_shim.py leaves: exactly the surviving
 * items, no flag taking a neighbour's token, and nothing protected.
 *
 * The reading is the scanner's own, which does not stop at `--`; PipEndOfOptions is about that.
 */
module PipReread {
  import opened Wrappers
  import opened Sequences
  import opened PipScanner

  predicate EndsDangling(items: seq<Item>) {
    items != [] && items[|items| - 1].Dangling?
  }

  /** An item whose tokens read back as the item. */
  predicate ReadsBack(f: Flags, item: Item) {
    match item
    case Pair(flag, _) => TakesNext(f, flag)
    case Joined(flag, _) => flag in f.value && '=' !in flag && "--" <= flag
    case Dangling(flag) => TakesNext(f, flag)
    case Plain(tok) => IsPlain(f, tok)
    case Attached(_, _) => false
    case Reinstall(_) => false
  }

  predicate DanglesOnlyLast(items: seq<Item>) {
    forall k :: 0 <= k < |items| - 1 ==> !items[k].Dangling?
  }

  lemma {:induction false} IndexOfJoined(flag: string, value: string)
    requires '=' !in flag
    ensures IndexOf('=', flag + "=" + value) == |flag|
  {
    var tok := flag + "=" + value;
    assert tok[|flag|] == '=';
    assert forall k :: 0 <= k < |flag| ==> tok[k] == flag[k];
  }

  lemma RenderedReads(f: Flags, item: Item, rest: seq<string>)
    requires ReadsBack(f, item) && (item.Dangling? ==> rest == [])
    ensures ParseItems(f, Render(item) + rest) == [item] + ParseItems(f, rest)
  {
    var tail := Render(item) + rest;
    match item {
      case Pair(flag, value) => assert tail[2..] == rest;
      case Joined(flag, value) =>
        var tok := flag + "=" + value;
        IndexOfJoined(flag, value);
        assert tok[..|flag|] == flag && tok[|flag| + 1..] == value;
        assert tail[1..] == rest;
      case Dangling(flag) => assert tail == [flag];
      case Plain(tok) => assert tail[1..] == rest;
    }
  }

  lemma {:induction false} ParseRender(f: Flags, items: seq<Item>)
    requires DanglesOnlyLast(items) && forall x :: x in items ==> ReadsBack(f, x)
    ensures ParseItems(f, RenderAll(items)) == items
    decreases |items|
  {
    if items != [] {
      var x, rest := items[0], items[1..];
      assert ReadsBack(f, x);
      ParseRender(f, rest);
      RenderedReads(f, x, RenderAll(rest));
      assert items == [x] + rest;
    }
  }

  /** An item that parsing produces. */
  predicate Parsed(f: Flags, item: Item) {
    match item
    case Attached(flag, _) => flag in f.attached && |flag| == 2
    case Reinstall(tok) => tok in f.reinstall
    case _ => ReadsBack(f, item)
  }

  lemma {:induction false} ParseGives(s: Shim, tail: seq<string>)
    requires Proper(s)
    ensures var items := ParseItems(s.flags, tail);
      DanglesOnlyLast(items) && forall x :: x in items ==> Parsed(s.flags, x)
    decreases |tail|
  {
    var f := s.flags;
    if tail != [] {
      if TakesNext(f, tail[0]) {
        if |tail| > 1 { ParseGives(s, tail[2..]); }
      } else {
        ParseGives(s, tail[1..]);
        if IsJoined(f, tail[0]) {
          var k := IndexOf('=', tail[0]);
          assert k >= 2;
        }
      }
    }
  }

  lemma SurvivorReadsBack(s: Shim, item: Item)
    requires Proper(s) && Parsed(s.flags, item)
    ensures FateOf(s, item).survivor.Some? ==> ReadsBack(s.flags, FateOf(s, item).survivor.value)
    ensures FateOf(s, item).survivor.Some? ==> (FateOf(s, item).survivor.value.Dangling? <==> item.Dangling?)
  {
    match item
    case Attached(flag, _) =>
      assert ProperFlag(flag);
    case Plain(tok) =>
      match FateOf(s, item).survivor {
        case None =>
        case Some(x) =>
          if x.tok != tok {
            assert !StartsWithDash(x.tok);
          }
      }
    case _ =>
  }

  lemma FirstSurvivor(s: Shim, items: seq<Item>)
    requires items != []
    ensures var kept, rest := Survivors(Fates(s, items)), Survivors(Fates(s, items[1..]));
      match FateOf(s, items[0]).survivor
      case None => kept == rest
      case Some(x) => kept == [x] + rest
    ensures |items| == 1 ==> Survivors(Fates(s, items[1..])) == []
  {
    assert Fates(s, items)[1..] == Fates(s, items[1..]);
  }

  lemma {:induction false} SurvivorsReadBack(s: Shim, items: seq<Item>)
    requires Proper(s) && DanglesOnlyLast(items) && forall x :: x in items ==> Parsed(s.flags, x)
    ensures var kept := Survivors(Fates(s, items));
      && DanglesOnlyLast(kept) && (forall x :: x in kept ==> ReadsBack(s.flags, x))
      && (EndsDangling(kept) <==> EndsDangling(items) && !Held(s.flags, items[|items| - 1].flag))
    decreases |items|
  {
    if items != [] {
      var rest := items[1..];
      assert forall x :: x in rest ==> x in items;
      SurvivorsReadBack(s, rest);
      SurvivorReadsBack(s, items[0]);
      FirstSurvivor(s, items);
      if FateOf(s, items[0]).survivor.Some? {
        ConsReadsBack(s.flags, FateOf(s, items[0]).survivor.value, Survivors(Fates(s, rest)));
      }
    }
  }

  lemma ConsReadsBack(f: Flags, x: Item, rest: seq<Item>)
    requires DanglesOnlyLast(rest) && (forall y :: y in rest ==> ReadsBack(f, y))
    requires ReadsBack(f, x) && (x.Dangling? ==> rest == [])
    ensures var all := [x] + rest;
      && DanglesOnlyLast(all) && (forall y :: y in all ==> ReadsBack(f, y))
      && (EndsDangling(all) <==> if rest == [] then x.Dangling? else EndsDangling(rest))
  {
  }

  /** The kept tokens read back as exactly the surviving items, flag by flag and value by value. */
  lemma KeptRereads(s: Shim, tail: seq<string>)
    requires Proper(s)
    ensures ParseItems(s.flags, ItemScan(s, NOTHING, tail).keep) == Survivors(Fates(s, ParseItems(s.flags, tail)))
  {
    var items := ParseItems(s.flags, tail);
    ParseGives(s, tail);
    SurvivorsReadBack(s, items);
    KeptIsRendered(NOTHING, Fates(s, items));
    assert [] + RenderAll(Survivors(Fates(s, items))) == RenderAll(Survivors(Fates(s, items)));
    ParseRender(s.flags, Survivors(Fates(s, items)));
  }

  // ---------------------------------------------------------------- nothing protected survives

  predicate NamesProtected(s: Shim, tok: string) {
    Canon(s, tok).Some? && (Canon(s, tok).value == "transformers" || s.isProtected(Canon(s, tok).value))
  }

  /** An item that installs or upgrades nothing protected, or only adds extras. */
  ghost predicate Harmless(s: Shim, item: Item) {
    match item
    case Plain(tok) => !NamesProtected(s, tok) || exists asked :: s.extras(asked) == Some(tok)
    case Pair(flag, value) => flag in s.flags.editable + s.flags.upgrade ==> !NamesProtected(s, value)
    case Joined(flag, value) => flag in s.flags.editable + s.flags.upgrade ==> !NamesProtected(s, value)
    case _ => true
  }

  lemma {:induction false} SurvivorsHarmless(s: Shim, items: seq<Item>)
    requires Proper(s)
    ensures forall x :: x in Survivors(Fates(s, items)) ==> Harmless(s, x)
    decreases |items|
  {
    if items != [] {
      SurvivorsHarmless(s, items[1..]);
      assert Fates(s, items)[1..] == Fates(s, items[1..]);
      SurvivorHarmless(s, items[0]);
    }
  }

  lemma SurvivorHarmless(s: Shim, item: Item)
    requires Proper(s)
    ensures FateOf(s, item).survivor.Some? ==> Harmless(s, FateOf(s, item).survivor.value)
  {
  }

  /** Read like that, the kept tokens install and upgrade nothing protected except by extras. */
  lemma NothingProtectedKept(s: Shim, tail: seq<string>)
    requires Proper(s)
    ensures forall x :: x in ParseItems(s.flags, ItemScan(s, NOTHING, tail).keep) ==> Harmless(s, x)
  {
    KeptRereads(s, tail);
    SurvivorsHarmless(s, ParseItems(s.flags, tail));
  }

  // ---------------------------------------------------------------- the injected constraint

  /** A token, classified on its own: a flag that takes the next token, or an item by itself. */
  datatype Token = Flag(text: string) | Whole(text: string, item: Item)

  function Lex(f: Flags, tok: string): Token {
    if TakesNext(f, tok) then Flag(tok) else Whole(tok, ReadOne(f, tok))
  }

  function LexAll(f: Flags, tail: seq<string>): (r: seq<Token>)
    ensures |r| == |tail|
    ensures forall k :: 0 <= k < |tail| ==> r[k] == Lex(f, tail[k])
  {
    seq(|tail|, k requires 0 <= k < |tail| => Lex(f, tail[k]))
  }

  function ItemsOf(toks: seq<Token>): seq<Item> {
    if toks == [] then []
    else match toks[0]
      case Flag(flag) =>
        if |toks| == 1 then [Dangling(flag)] else [Pair(flag, toks[1].text)] + ItemsOf(toks[2..])
      case Whole(_, item) => [item] + ItemsOf(toks[1..])
  }

  lemma {:induction false} ParseIsLexed(f: Flags, tail: seq<string>)
    ensures ParseItems(f, tail) == ItemsOf(LexAll(f, tail))
    decreases |tail|
  {
    if tail != [] {
      assert LexAll(f, tail)[1..] == LexAll(f, tail[1..]);
      if TakesNext(f, tail[0]) {
        if |tail| > 1 {
          assert LexAll(f, tail)[2..] == LexAll(f, tail[2..]);
          ParseIsLexed(f, tail[2..]);
        }
      } else {
        ParseIsLexed(f, tail[1..]);
      }
    }
  }

  /** No token of the list by itself is a dangling item. */
  predicate Sound(toks: seq<Token>) {
    forall t :: t in toks && t.Whole? ==> !t.item.Dangling?
  }

  lemma OneToken(a: seq<Token>)
    requires Sound(a) && |a| == 1
    ensures ItemsOf(a) == (if a[0].Flag? then [Dangling(a[0].text)] else [a[0].item])
    ensures EndsDangling(ItemsOf(a)) ==> a[0].Flag?
  {
    assert a[0] in a && a[1..] == [];
  }

  lemma FirstItem(a: seq<Token>)
    requires |a| > 1 || (|a| == 1 && a[0].Whole?)
    ensures ItemsOf(a) == (if a[0].Flag? then [Pair(a[0].text, a[1].text)] + ItemsOf(a[2..]) else [a[0].item] + ItemsOf(a[1..]))
  {
  }

  lemma {:induction false} ItemsConcat(a: seq<Token>, b: seq<Token>)
    requires !EndsDangling(ItemsOf(a))
    ensures ItemsOf(a + b) == ItemsOf(a) + ItemsOf(b)
    decreases |a|
  {
    if a == [] {
      assert a + b == b;
    } else {
      var n := if a[0].Flag? then 2 else 1;
      FirstItem(a);
      var head := [ItemsOf(a)[0]];
      assert ItemsOf(a) == head + ItemsOf(a[n..]);
      ItemsConcat(a[n..], b);
      HeadStays(a, b, n);
      Assoc(head, ItemsOf(a[n..]), ItemsOf(b));
    }
  }

  lemma HeadStays(a: seq<Token>, b: seq<Token>, n: nat)
    requires a != [] && n == (if a[0].Flag? then 2 else 1) <= |a|
    ensures ItemsOf(a + b) == [ItemsOf(a)[0]] + ItemsOf(a[n..] + b)
  {
    assert (a + b)[n..] == a[n..] + b;
  }

  /** The items of `a` before its dangling flag are those of `a` without that flag. */
  lemma {:induction false} DanglingFlagIsLast(a: seq<Token>)
    requires Sound(a) && EndsDangling(ItemsOf(a))
    ensures a != [] && a[|a| - 1].Flag?
    ensures ItemsOf(a) == ItemsOf(a[..|a| - 1]) + [Dangling(a[|a| - 1].text)]
    ensures !EndsDangling(ItemsOf(a[..|a| - 1]))
    decreases |a|
  {
    if |a| == 1 {
      OneToken(a);
      assert ItemsOf(a[..0]) == [];
    } else {
      var n := if a[0].Flag? then 2 else 1;
      DanglingIsInside(a, n);
      SoundTail(a, n);
      DanglingFlagIsLast(a[n..]);
      AllButLast(a, n);
      HeadAndDangling(ItemsOf(a)[0], ItemsOf(a[n..][..|a| - n - 1]), Dangling(a[|a| - 1].text));
    }
  }

  lemma HeadAndDangling(head: Item, items: seq<Item>, last: Item)
    requires !head.Dangling?
    ensures [head] + (items + [last]) == ([head] + items) + [last]
    ensures EndsDangling([head] + items) <==> EndsDangling(items)
  {
    Assoc([head], items, [last]);
  }

  /** The dangling item is not the first. */
  lemma DanglingIsInside(a: seq<Token>, n: nat)
    requires Sound(a) && EndsDangling(ItemsOf(a)) && |a| > 1 && n == (if a[0].Flag? then 2 else 1)
    ensures n < |a| && EndsDangling(ItemsOf(a[n..])) && !ItemsOf(a)[0].Dangling?
    ensures ItemsOf(a) == [ItemsOf(a)[0]] + ItemsOf(a[n..])
  {
    assert a[0] in a;
    FirstItem(a);
    assert a[|a|..] == [];
  }

  lemma SoundTail(a: seq<Token>, n: nat)
    requires Sound(a) && n <= |a|
    ensures Sound(a[n..])
  {
  }

  /** The items before the last token, one step further in. */
  lemma AllButLast(a: seq<Token>, n: nat)
    requires |a| > 1 && n == (if a[0].Flag? then 2 else 1) < |a|
    ensures ItemsOf(a[..|a| - 1]) == [ItemsOf(a)[0]] + ItemsOf(a[n..][..|a| - n - 1])
  {
    var c := a[..|a| - 1];
    assert c[n..] == a[n..][..|a| - n - 1];
    FirstItem(c);
  }

  lemma LexSound(f: Flags, tail: seq<string>)
    ensures Sound(LexAll(f, tail))
  {
  }

  lemma ParseConcat(f: Flags, a: seq<string>, b: seq<string>)
    requires !EndsDangling(ParseItems(f, a))
    ensures ParseItems(f, a + b) == ParseItems(f, a) + ParseItems(f, b)
  {
    ParseIsLexed(f, a);
    ParseIsLexed(f, b);
    ParseIsLexed(f, a + b);
    ItemsConcat(LexAll(f, a), LexAll(f, b));
    LexConcat(f, a, b);
  }

  lemma LexConcat(f: Flags, a: seq<string>, b: seq<string>)
    ensures LexAll(f, a + b) == LexAll(f, a) + LexAll(f, b)
  {
  }

  /** A flag and a value in front of a tail. */
  lemma HeadPair(f: Flags, flag: string, tok: string, b: seq<string>)
    requires TakesNext(f, flag)
    ensures ParseItems(f, [flag, tok] + b) == [Pair(flag, tok)] + ParseItems(f, b)
  {
    assert ([flag, tok] + b)[2..] == b;
  }

  lemma ItemsEaten(a: seq<Token>, t: Token, b: seq<Token>)
    requires Sound(a) && EndsDangling(ItemsOf(a))
    ensures var n := |ItemsOf(a)| - 1;
      ItemsOf(a + ([t] + b)) == ItemsOf(a)[..n] + ([Pair(ItemsOf(a)[n].flag, t.text)] + ItemsOf(b))
  {
    DanglingFlagIsLast(a);
    var front, flag := a[..|a| - 1], a[|a| - 1];
    assert a == front + [flag];
    FlagEats(front, flag, t, b);
  }

  lemma FlagEats(front: seq<Token>, flag: Token, t: Token, b: seq<Token>)
    requires flag.Flag? && !EndsDangling(ItemsOf(front))
    ensures ItemsOf((front + [flag]) + ([t] + b)) == ItemsOf(front) + ([Pair(flag.text, t.text)] + ItemsOf(b))
  {
    TailItems(flag, t, b);
    ItemsConcat(front, [flag, t] + b);
    assert (front + [flag]) + ([t] + b) == front + ([flag, t] + b);
  }

  lemma TailItems(flag: Token, t: Token, b: seq<Token>)
    requires flag.Flag?
    ensures ItemsOf([flag, t] + b) == [Pair(flag.text, t.text)] + ItemsOf(b)
  {
    assert ([flag, t] + b)[2..] == b;
  }

  /** A dangling flag takes the next token. */
  lemma ParseEaten(f: Flags, a: seq<string>, tok: string, b: seq<string>)
    requires EndsDangling(ParseItems(f, a))
    ensures var n := |ParseItems(f, a)| - 1;
      ParseItems(f, a + ([tok] + b)) == ParseItems(f, a)[..n] + ([Pair(ParseItems(f, a)[n].flag, tok)] + ParseItems(f, b))
  {
    ParseIsLexed(f, a);
    ParseIsLexed(f, b);
    ParseIsLexed(f, a + ([tok] + b));
    LexSound(f, a);
    ItemsEaten(LexAll(f, a), Lex(f, tok), LexAll(f, b));
    LexConcat(f, a, [tok] + b);
    LexConcat(f, [tok], b);
    assert LexAll(f, [tok]) == [Lex(f, tok)];
  }

  /** A flag and its value, put between `a` and `b`, read as such exactly when `a` does not end in a value flag. */
  lemma InsertedIff(f: Flags, a: seq<string>, flag: string, value: string, b: seq<string>)
    requires TakesNext(f, flag)
    ensures var before := ParseItems(f, a);
      var all := ParseItems(f, a + ([flag, value] + b));
      && (all == before + ([Pair(flag, value)] + ParseItems(f, b)) <==> !EndsDangling(before))
      && (EndsDangling(before) ==>
            all == before[..|before| - 1] + ([Pair(before[|before| - 1].flag, flag)] + ParseItems(f, [value] + b)))
  {
    var before := ParseItems(f, a);
    var tail := [flag, value] + b;
    if EndsDangling(before) {
      ParseEaten(f, a, flag, [value] + b);
      assert [flag] + ([value] + b) == tail;
      var n := |before| - 1;
      assert ParseItems(f, a + tail)[n] == Pair(before[n].flag, flag);
      assert (before + ([Pair(flag, value)] + ParseItems(f, b)))[n] == before[n];
    } else {
      ParseConcat(f, a, tail);
      HeadPair(f, flag, value, b);
    }
  }

  function FirstAt(tok: string, s: seq<string>): (k: nat)
    ensures k <= |s| && tok !in s[..k] && (k < |s| ==> s[k] == tok)
  {
    if s == [] || s[0] == tok then 0 else 1 + FirstAt(tok, s[1..])
  }

  /** The constraints file goes in front of the first `--`, or at the end. */
  function Inject(keep: seq<string>, file: string): seq<string> {
    var k := FirstAt("--", keep);
    keep[..k] + (["--constraint", file] + keep[k..])
  }

  /**
   * The pair that holds the baked stack in place is read as a constraint exactly when the kept
   * tokens before it do not end in a value flag; otherwise that flag takes "--constraint" as
   * its value and the file name is left to stand alone.
   */
  lemma InjectedIff(f: Flags, keep: seq<string>, file: string)
    requires TakesNext(f, "--constraint")
    ensures var k := FirstAt("--", keep);
      var before := ParseItems(f, keep[..k]);
      var all := ParseItems(f, Inject(keep, file));
      && (all == before + ([Pair("--constraint", file)] + ParseItems(f, keep[k..])) <==> !EndsDangling(before))
      && (EndsDangling(before) ==>
            all == before[..|before| - 1] + ([Pair(before[|before| - 1].flag, "--constraint")] + ParseItems(f, [file] + keep[k..])))
  {
    var k := FirstAt("--", keep);
    InsertedIff(f, keep[..k], "--constraint", file, keep[k..]);
  }

  /** Without a `--`, that is decided by the command as typed: it must not end in a value flag other than an editable or upgrade one. */
  lemma InjectedForTail(s: Shim, tail: seq<string>, file: string)
    requires Proper(s) && TakesNext(s.flags, "--constraint") && "--" !in ItemScan(s, NOTHING, tail).keep
    ensures var keep := ItemScan(s, NOTHING, tail).keep;
      var items := ParseItems(s.flags, tail);
      var eaten := EndsDangling(items) && !Held(s.flags, items[|items| - 1].flag);
      (ParseItems(s.flags, Inject(keep, file)) == ParseItems(s.flags, keep) + [Pair("--constraint", file)]) <==> !eaten
  {
    var keep := ItemScan(s, NOTHING, tail).keep;
    var k := FirstAt("--", keep);
    assert k == |keep| && keep[..k] == keep && keep[k..] == [];
    InjectedIff(s.flags, keep, file);
    KeptRereads(s, tail);
    ParseGives(s, tail);
    SurvivorsReadBack(s, ParseItems(s.flags, tail));
    assert [Pair("--constraint", file)] + [] == [Pair("--constraint", file)];
  }

  /** Whether the flag pair put before the first `--`, or at the end, lands behind a flag without its value. */
  function Eats(items: seq<Item>): bool {
    if items == [] then false
    else match items[0]
      case Pair(flag, value) => flag != "--" && (value == "--" || Eats(items[1..]))
      case Dangling(flag) => flag != "--"
      case Plain(tok) => tok != "--" && Eats(items[1..])
      case _ => Eats(items[1..])
  }

  lemma FirstAtCons(tok: string, b: seq<string>)
    requires tok != "--"
    ensures FirstAt("--", [tok] + b) == 1 + FirstAt("--", b)
  {
    assert ([tok] + b)[1..] == b;
  }

  lemma ParseFirst(f: Flags, x: Item, b: seq<string>)
    requires ReadsBack(f, x) && !x.Dangling?
    ensures ParseItems(f, Render(x) + b) == [x] + ParseItems(f, b)
  {
    match x {
      case Pair(flag, value) => HeadPair(f, flag, value, b);
      case Joined(flag, value) =>
        var tok := flag + "=" + value;
        IndexOfJoined(flag, value);
        assert tok[..|flag|] == flag && tok[|flag| + 1..] == value;
        assert (Render(x) + b)[1..] == b;
      case Plain(tok) => assert (Render(x) + b)[1..] == b;
    }
  }

  lemma FirstAtPast(f: Flags, x: Item, tail: seq<string>)
    requires ReadsBack(f, x) && !x.Dangling? && "--" !in Render(x)
    ensures FirstAt("--", Render(x) + tail) == |Render(x)| + FirstAt("--", tail)
  {
    match x {
      case Pair(flag, value) =>
        assert flag in Render(x) && value in Render(x);
        FirstAtCons(value, tail);
        FirstAtCons(flag, [value] + tail);
        assert [flag] + ([value] + tail) == Render(x) + tail;
      case Joined(flag, value) => FirstAtCons(flag + "=" + value, tail);
      case Plain(tok) => FirstAtCons(tok, tail);
    }
  }

  /** The items read before the first `--`. */
  function BeforeStop(f: Flags, keep: seq<string>): seq<Item> {
    ParseItems(f, keep[..FirstAt("--", keep)])
  }

  lemma EndsPast(f: Flags, x: Item, tail: seq<string>)
    requires ReadsBack(f, x) && !x.Dangling? && "--" !in Render(x)
    ensures EndsDangling(BeforeStop(f, Render(x) + tail)) <==> EndsDangling(BeforeStop(f, tail))
  {
    FirstAtPast(f, x, tail);
    var k := FirstAt("--", tail);
    assert (Render(x) + tail)[..|Render(x)| + k] == Render(x) + tail[..k];
    ParseFirst(f, x, tail[..k]);
  }

  lemma JoinedIsNoStop(flag: string, value: string)
    ensures flag + "=" + value != "--"
  {
    var tok := flag + "=" + value;
    assert tok[|flag|] == '=';
  }

  lemma EndsHere(f: Flags, x: Item, tail: seq<string>)
    requires ReadsBack(f, x) && !x.Dangling? && "--" in Render(x)
    ensures EndsDangling(BeforeStop(f, Render(x) + tail)) <==> x.Pair? && x.flag != "--"
  {
    var keep := Render(x) + tail;
    if x.Joined? { JoinedIsNoStop(x.flag, x.value); }
    if x.Pair? && x.flag != "--" {
      FirstAtCons(x.flag, [x.value] + tail);
      assert keep == [x.flag] + ([x.value] + tail) && keep[..1] == [x.flag];
    } else {
      assert keep[0] == "--" && keep[..0] == [];
    }
  }

  lemma EndsLast(f: Flags, flag: string)
    requires TakesNext(f, flag)
    ensures EndsDangling(BeforeStop(f, [flag])) <==> flag != "--"
  {
    assert [flag][1..] == [] && [flag][..1] == [flag] && [flag][..0] == [];
  }

  /** The tokens before the first `--` end in a value flag exactly when the items say so. */
  lemma {:induction false} EatsIff(f: Flags, items: seq<Item>)
    requires DanglesOnlyLast(items) && forall x :: x in items ==> ReadsBack(f, x)
    ensures EndsDangling(BeforeStop(f, RenderAll(items))) <==> Eats(items)
    decreases |items|
  {
    if items != [] {
      var x, rest := items[0], items[1..];
      assert x in items && ReadsBack(f, x);
      if x.Dangling? {
        assert rest == [] && RenderAll(items) == [x.flag];
        EndsLast(f, x.flag);
      } else if "--" in Render(x) {
        if x.Joined? { JoinedIsNoStop(x.flag, x.value); }
        EndsHere(f, x, RenderAll(rest));
      } else {
        EatsIff(f, rest);
        EndsPast(f, x, RenderAll(rest));
        assert x.Pair? ==> x.flag in Render(x) && x.value in Render(x);
      }
    }
  }

  /** For any tail, that is decided by the items of the command as typed that survive. */
  lemma InjectedForAnyTail(s: Shim, tail: seq<string>, file: string)
    requires Proper(s) && TakesNext(s.flags, "--constraint")
    ensures var keep := ItemScan(s, NOTHING, tail).keep;
      var k := FirstAt("--", keep);
      ParseItems(s.flags, Inject(keep, file))
        == ParseItems(s.flags, keep[..k]) + ([Pair("--constraint", file)] + ParseItems(s.flags, keep[k..]))
      <==> !Eats(Survivors(Fates(s, ParseItems(s.flags, tail))))
  {
    var items := ParseItems(s.flags, tail);
    var kept := Survivors(Fates(s, items));
    ParseGives(s, tail);
    SurvivorsReadBack(s, items);
    KeptIsRendered(NOTHING, Fates(s, items));
    assert [] + RenderAll(kept) == RenderAll(kept);
    EatsIff(s.flags, kept);
    InjectedIff(s.flags, RenderAll(kept), file);
  }

  /** A command that loses its constraint: a `--` that is the value of a flag draws the pair between the flag and it. */
  lemma ConstraintLost(f: Flags, proxy: string, file: string)
    requires TakesNext(f, "--constraint") && TakesNext(f, proxy) && proxy != "--"
    ensures ParseItems(f, [proxy, "--"]) == [Pair(proxy, "--")]
    ensures Inject([proxy, "--"], file) == [proxy, "--constraint", file, "--"]
    ensures Pair(proxy, "--constraint") in ParseItems(f, Inject([proxy, "--"], file))
  {
    var keep := [proxy, "--"];
    HeadPair(f, proxy, "--", []);
    assert [proxy, "--"] + [] == keep;
    assert keep[1..] == ["--"] && FirstAt("--", keep) == 1;
    var all := [proxy, "--constraint", file, "--"];
    assert keep[..1] + (["--constraint", file] + keep[1..]) == all;
    HeadPair(f, proxy, "--constraint", [file, "--"]);
    assert [proxy, "--constraint"] + [file, "--"] == all;
  }
}
