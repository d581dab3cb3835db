/**
 * `_expand_short_clusters` of docker/unsloth_pip_shim.py against a getopt reading of the
 * command line (section 12.2 of POSIX.1-2017 Base Definitions, guidelines 5 to 7 and 10).
 */
module PipClusters {
  import opened Sequences

  // ---------------------------------------------------------------- the reference reading

  /** The flags that take a value, short and long. */
  type ValueFlags = set<string>

  datatype Element =
    | Opt(flag: string)
    | OptVal(flag: string, value: string)
    | Missing(flag: string)          // a value flag with nothing after it
    | EndOfOptions
    | Operand(tok: string)

  predicate IsLong(tok: string) {
    |tok| > 2 && tok[0] == '-' && tok[1] == '-'
  }

  predicate IsShort(tok: string) {
    |tok| >= 2 && tok[0] == '-' && tok[1] != '-'
  }

  function ShortFlag(c: char): string { ['-', c] }

  function Operands(toks: seq<string>): seq<Element> {
    if toks == [] then [] else [Operand(toks[0])] + Operands(toks[1..])
  }

  function TakeNext(v: ValueFlags, flag: string, rest: seq<string>): seq<Element>
    decreases |rest|, 1, 0
  {
    if rest == [] then [Missing(flag)] else [OptVal(flag, rest[0])] + Read(v, rest[1..])
  }

  function Read(v: ValueFlags, argv: seq<string>): seq<Element>
    decreases |argv|, 0, 0
  {
    if argv == [] then []
    else
      var tok, rest := argv[0], argv[1..];
      if tok == "--" then [EndOfOptions] + Operands(rest)
      else if IsLong(tok) then if tok in v then TakeNext(v, tok, rest) else [Opt(tok)] + Read(v, rest)
      else if IsShort(tok) then ReadCluster(v, tok, 1, rest)
      else [Operand(tok)] + Read(v, rest)
  }

  /** The characters of a cluster from `i` on, then the rest of the command line. */
  function ReadCluster(v: ValueFlags, tok: string, i: nat, rest: seq<string>): seq<Element>
    requires i <= |tok|
    decreases |rest|, 2, |tok| - i
  {
    if i == |tok| then Read(v, rest)
    else
      var flag := ShortFlag(tok[i]);
      if flag in v then
        if i + 1 < |tok| then [OptVal(flag, tok[i + 1..])] + Read(v, rest) else TakeNext(v, flag, rest)
      else [Opt(flag)] + ReadCluster(v, tok, i + 1, rest)
  }

  // ---------------------------------------------------------------- the expansion

  predicate IsCluster(v: ValueFlags, tok: string) {
    |tok| > 2 && tok[0] == '-' && tok[1] != '-' && tok !in v
  }

  function Pieces(v: ValueFlags, tok: string, i: nat): seq<string>
    requires i <= |tok|
    decreases |tok| - i
  {
    if i == |tok| then []
    else if ShortFlag(tok[i]) in v then [ShortFlag(tok[i]) + tok[i + 1..]]
    else [ShortFlag(tok[i])] + Pieces(v, tok, i + 1)
  }

  function Expanded(v: ValueFlags, tok: string): seq<string> {
    if IsCluster(v, tok) then Pieces(v, tok, 1) else [tok]
  }

  function Expand(v: ValueFlags, argv: seq<string>): seq<string> {
    if argv == [] then [] else Expanded(v, argv[0]) + Expand(v, argv[1..])
  }

  /** The inner loop: one token, flag by flag. */
  method ExpandToken(v: ValueFlags, tok: string) returns (out: seq<string>)
    ensures out == Expanded(v, tok)
  {
    if |tok| <= 2 || tok[0] != '-' || tok[1] == '-' || tok in v { return [tok]; }
    out := [];
    var i := 1;
    while i < |tok|
      invariant i <= |tok|
      invariant out + Pieces(v, tok, i) == Pieces(v, tok, 1)
    {
      if ShortFlag(tok[i]) in v {
        out := out + [ShortFlag(tok[i]) + tok[i + 1..]];
        return;
      }
      Assoc(out, [ShortFlag(tok[i])], Pieces(v, tok, i + 1));
      out := out + [ShortFlag(tok[i])];
      i := i + 1;
    }
    assert out + [] == out;
  }

  /** The outer loop. */
  method ExpandShortClusters(v: ValueFlags, argv: seq<string>) returns (out: seq<string>)
    ensures out == Expand(v, argv)
  {
    out := [];
    for n := 0 to |argv|
      invariant out + Expand(v, argv[n..]) == Expand(v, argv)
    {
      var pieces := ExpandToken(v, argv[n]);
      Uncons(argv, n);
      Assoc(out, pieces, Expand(v, argv[n + 1..]));
      out := out + pieces;
    }
    assert argv[|argv|..] == [] && out + [] == out;
  }

  // ---------------------------------------------------------------- idempotence

  /** Left as it is by the expansion. */
  predicate Fixed(v: ValueFlags, tok: string) {
    Expanded(v, tok) == [tok]
  }

  /** Value flags are short (`-x`) or long (`--xyz`). */
  predicate ProperFlags(v: ValueFlags) {
    forall f :: f in v ==> IsLong(f) || (|f| == 2 && IsShort(f))
  }

  lemma {:induction false} PiecesFixed(v: ValueFlags, tok: string, i: nat)
    requires i <= |tok|
    ensures forall t :: t in Pieces(v, tok, i) ==> Fixed(v, t)
    decreases |tok| - i
  {
    if i < |tok| {
      var flag := ShortFlag(tok[i]);
      if flag in v {
        var piece := flag + tok[i + 1..];
        if IsCluster(v, piece) {
          assert piece[1] == tok[i] && ShortFlag(piece[1]) + piece[2..] == piece;
        }
      } else {
        PiecesFixed(v, tok, i + 1);
      }
    }
  }

  lemma {:induction false} ExpandFixed(v: ValueFlags, argv: seq<string>)
    ensures forall t :: t in Expand(v, argv) ==> Fixed(v, t)
  {
    if argv != [] {
      ExpandFixed(v, argv[1..]);
      if IsCluster(v, argv[0]) { PiecesFixed(v, argv[0], 1); }
    }
  }

  lemma {:induction false} AllFixed(v: ValueFlags, argv: seq<string>)
    requires forall t :: t in argv ==> Fixed(v, t)
    ensures Expand(v, argv) == argv
  {
    if argv != [] {
      assert argv[0] in argv;
      AllFixed(v, argv[1..]);
    }
  }

  /** No cluster is left, so expanding again changes nothing. */
  lemma ExpandIdempotent(v: ValueFlags, argv: seq<string>)
    ensures Expand(v, Expand(v, argv)) == Expand(v, argv)
  {
    ExpandFixed(v, argv);
    AllFixed(v, Expand(v, argv));
  }

  // ---------------------------------------------------------------- when the meaning is kept

  predicate TameNext(v: ValueFlags, rest: seq<string>)
    decreases |rest|, 1, 0
  {
    rest == [] || (Fixed(v, rest[0]) && Tame(v, rest[1..]))
  }

  /**
   * A command line whose meaning the expansion cannot touch: no value in a token of its own and
   * no operand after `--` would be expanded, and no cluster holds a second dash among its flags.
   */
  predicate Tame(v: ValueFlags, argv: seq<string>)
    decreases |argv|, 0, 0
  {
    argv == [] ||
      var tok, rest := argv[0], argv[1..];
      if tok == "--" then forall t :: t in rest ==> Fixed(v, t)
      else if IsLong(tok) then if tok in v then TameNext(v, rest) else Tame(v, rest)
      else if IsShort(tok) then TameCluster(v, tok, 1, rest)
      else Tame(v, rest)
  }

  predicate TameCluster(v: ValueFlags, tok: string, i: nat, rest: seq<string>)
    requires i <= |tok|
    decreases |rest|, 2, |tok| - i
  {
    if i == |tok| then Tame(v, rest)
    else if ShortFlag(tok[i]) in v then if i + 1 < |tok| then Tame(v, rest) else TameNext(v, rest)
    else tok[i] != '-' && TameCluster(v, tok, i + 1, rest)
  }

  lemma {:induction false} OperandsDistinct(a: seq<string>, b: seq<string>)
    requires Operands(a) == Operands(b)
    ensures a == b
  {
    if a != [] && b != [] {
      assert Operands(a)[0] == Operand(a[0]) && Operands(b)[0] == Operand(b[0]);
      assert Operands(a)[1..] == Operands(a[1..]) && Operands(b)[1..] == Operands(b[1..]);
      OperandsDistinct(a[1..], b[1..]);
      assert a == [a[0]] + a[1..] && b == [b[0]] + b[1..];
    }
  }

  /** A token the expansion changes becomes several, the first of them a bare short flag. */
  lemma ChangedToken(v: ValueFlags, tok: string)
    requires !Fixed(v, tok)
    ensures IsCluster(v, tok) && Expanded(v, tok) != [] && Expanded(v, tok)[0] != tok
  {
    assert ShortFlag(tok[1]) + tok[2..] == tok;
  }

  lemma {:induction false} OperandsKept(v: ValueFlags, toks: seq<string>)
    ensures Expand(v, toks) == toks <==> forall t :: t in toks ==> Fixed(v, t)
  {
    if forall t :: t in toks ==> Fixed(v, t) {
      AllFixed(v, toks);
    } else {
      ExpandFixed(v, toks);
    }
  }

  lemma OperandsReadSame(v: ValueFlags, toks: seq<string>)
    ensures Operands(Expand(v, toks)) == Operands(toks) <==> forall t :: t in toks ==> Fixed(v, t)
  {
    OperandsKept(v, toks);
    if Operands(Expand(v, toks)) == Operands(toks) {
      OperandsDistinct(Expand(v, toks), toks);
    }
  }

  lemma ShortExpandsToPieces(v: ValueFlags, tok: string)
    requires ProperFlags(v) && IsShort(tok)
    ensures Expanded(v, tok) == Pieces(v, tok, 1)
  {
    if |tok| == 2 {
      assert tok == ShortFlag(tok[1]) && tok[2..] == "";
      assert tok + "" == tok;
      assert Pieces(v, tok, 2) == [];
    }
  }

  lemma FirstDiffers<T>(x: T, a: seq<T>, y: T, b: seq<T>)
    ensures [x] + a == [y] + b <==> x == y && a == b
  {
    if [x] + a == [y] + b {
      assert ([x] + a)[0] == ([y] + b)[0] && ([x] + a)[1..] == ([y] + b)[1..];
    }
  }

  lemma {:induction false} NextKeptIff(v: ValueFlags, flag: string, rest: seq<string>)
    requires ProperFlags(v)
    ensures TakeNext(v, flag, Expand(v, rest)) == TakeNext(v, flag, rest) <==> TameNext(v, rest)
    decreases |rest|, 1, 0
  {
    if rest != [] {
      var out := Expand(v, rest);
      if Fixed(v, rest[0]) {
        MeaningKeptIff(v, rest[1..]);
        assert out[0] == rest[0] && out[1..] == Expand(v, rest[1..]);
        FirstDiffers(OptVal(flag, rest[0]), Read(v, out[1..]), OptVal(flag, rest[0]), Read(v, rest[1..]));
      } else {
        ChangedToken(v, rest[0]);
        assert out != [] && out[0] == Expanded(v, rest[0])[0];
        FirstDiffers(OptVal(flag, out[0]), Read(v, out[1..]), OptVal(flag, rest[0]), Read(v, rest[1..]));
      }
    }
  }

  lemma ReadShortHead(v: ValueFlags, tok: string, out: seq<string>)
    requires IsShort(tok)
    ensures Read(v, [tok] + out) == ReadCluster(v, tok, 1, out)
  {
    assert ([tok] + out)[1..] == out;
  }

  lemma {:induction false} ClusterKeptIff(v: ValueFlags, tok: string, i: nat, rest: seq<string>)
    requires ProperFlags(v) && i <= |tok|
    ensures Read(v, Pieces(v, tok, i) + Expand(v, rest)) == ReadCluster(v, tok, i, rest) <==> TameCluster(v, tok, i, rest)
    decreases |rest|, 2, |tok| - i
  {
    var out := Expand(v, rest);
    if i == |tok| {
      assert [] + out == out;
      MeaningKeptIff(v, rest);
    } else {
      var flag := ShortFlag(tok[i]);
      if flag in v {
        ValueFlagKept(v, flag, tok[i + 1..], rest);
      } else {
        BareFlagKept(v, tok, i, rest);
      }
    }
  }

  lemma {:induction false} ValueFlagKept(v: ValueFlags, flag: string, value: string, rest: seq<string>)
    requires ProperFlags(v) && flag in v && |flag| == 2 && flag[0] == '-'
    ensures Read(v, [flag + value] + Expand(v, rest))
         == (if value != "" then [OptVal(flag, value)] + Read(v, rest) else TakeNext(v, flag, rest))
      <==> (if value != "" then Tame(v, rest) else TameNext(v, rest))
    decreases |rest|, 1, 1
  {
    var out, piece := Expand(v, rest), flag + value;
    assert piece[1] == flag[1] && ShortFlag(piece[1]) == flag && piece[2..] == value;
    ReadShortHead(v, piece, out);
    if value != "" {
      MeaningKeptIff(v, rest);
      FirstDiffers(OptVal(flag, value), Read(v, out), OptVal(flag, value), Read(v, rest));
    } else {
      NextKeptIff(v, flag, rest);
    }
  }

  lemma {:induction false} BareFlagKept(v: ValueFlags, tok: string, i: nat, rest: seq<string>)
    requires ProperFlags(v) && i < |tok| && ShortFlag(tok[i]) !in v
    ensures Read(v, Pieces(v, tok, i) + Expand(v, rest)) == ReadCluster(v, tok, i, rest) <==> TameCluster(v, tok, i, rest)
    decreases |rest|, 2, |tok| - i, 0
  {
    var flag, more := ShortFlag(tok[i]), Pieces(v, tok, i + 1) + Expand(v, rest);
    PiecesFirst(v, tok, i, Expand(v, rest));
    if tok[i] == '-' {
      DashRead(v, more);
      FirstDiffers(EndOfOptions, Operands(more), Opt(flag), ReadCluster(v, tok, i + 1, rest));
    } else {
      BareFlagRead(v, flag, more);
      ClusterKeptIff(v, tok, i + 1, rest);
      FirstDiffers(Opt(flag), Read(v, more), Opt(flag), ReadCluster(v, tok, i + 1, rest));
    }
  }

  lemma PiecesFirst(v: ValueFlags, tok: string, i: nat, out: seq<string>)
    requires i < |tok| && ShortFlag(tok[i]) !in v
    ensures Pieces(v, tok, i) + out == [ShortFlag(tok[i])] + (Pieces(v, tok, i + 1) + out)
  {
    Assoc([ShortFlag(tok[i])], Pieces(v, tok, i + 1), out);
  }

  lemma DashRead(v: ValueFlags, more: seq<string>)
    ensures Read(v, [ShortFlag('-')] + more) == [EndOfOptions] + Operands(more)
  {
    assert ShortFlag('-') == "--" && ([ShortFlag('-')] + more)[1..] == more;
  }

  lemma BareFlagRead(v: ValueFlags, flag: string, more: seq<string>)
    requires IsShort(flag) && |flag| == 2 && flag !in v
    ensures Read(v, [flag] + more) == [Opt(flag)] + Read(v, more)
  {
    ReadShortHead(v, flag, more);
    assert ShortFlag(flag[1]) == flag;
    assert ReadCluster(v, flag, 1, more) == [Opt(flag)] + ReadCluster(v, flag, 2, more);
  }

  /** The expanded command line reads as the original exactly when the original is tame. */
  lemma {:induction false} MeaningKeptIff(v: ValueFlags, argv: seq<string>)
    requires ProperFlags(v)
    ensures Read(v, Expand(v, argv)) == Read(v, argv) <==> Tame(v, argv)
    decreases |argv|, 0, 0
  {
    if argv != [] {
      var tok, rest := argv[0], argv[1..];
      var out := Expand(v, rest);
      if IsShort(tok) {
        ShortExpandsToPieces(v, tok);
        ClusterKeptIff(v, tok, 1, rest);
      } else {
        assert Expand(v, argv)[0] == tok && Expand(v, argv)[1..] == out;
        if tok == "--" {
          OperandsReadSame(v, rest);
          FirstDiffers(EndOfOptions, Operands(out), EndOfOptions, Operands(rest));
        } else if IsLong(tok) && tok in v {
          NextKeptIff(v, tok, rest);
        } else {
          MeaningKeptIff(v, rest);
          var head := if IsLong(tok) then Opt(tok) else Operand(tok);
          FirstDiffers(head, Read(v, out), head, Read(v, rest));
        }
      }
    }
  }

  /** A value that looks like a cluster is torn apart: `-r -qx` comes to read `-r -q -x`. */
  lemma ValueTornApart(v: ValueFlags)
    requires ProperFlags(v) && "-r" in v && "-q" !in v && "-x" !in v && "-qx" !in v
    ensures Expand(v, ["-r", "-qx"]) == ["-r", "-q", "-x"]
    ensures Read(v, Expand(v, ["-r", "-qx"])) != Read(v, ["-r", "-qx"])
  {
    var tok := "-qx";
    assert Pieces(v, tok, 2) == ["-x"] by { assert Pieces(v, tok, 3) == []; }
    assert Expanded(v, tok) == ["-q", "-x"];
    assert ["-r", "-qx"][1..] == ["-qx"] && ["-qx"][1..] == [];
    assert Expand(v, ["-qx"]) == ["-q", "-x"];
    assert !Fixed(v, tok);
    var argv := ["-r", "-qx"];
    assert argv[0][1..] == "r" && ShortFlag('r') == "-r";
    assert !TameNext(v, argv[1..]);
    assert !TameCluster(v, argv[0], 1, argv[1..]);
    MeaningKeptIff(v, argv);
  }
}
