/**
 * `enforce_spacing` of scripts/enforce_kwargs_spacing.py: padding '=' tokens in place, with one
 * running offset per line, against one simultaneous insertion of the missing spaces.
 */
module KwargsSpacing {
  /** The place of an '=' token, as the tokenizer reports it on the text before any edit. */
  datatype Token = Token(row: int, col: nat)

  predicate IsBlank(c: char) { c == ' ' || c == '\t' }

  predicate EndsGap(c: char) { IsBlank(c) || c == '\n' || c == '\r' }

  // ---------------------------------------------------------------- the simultaneous insertion

  predicate OnEquals(line: string, c: nat) {
    c < |line| && line[c] == '='
  }

  /** Before character `g` of the line a space is missing next to one of the tokens at `cols`. */
  predicate Missing(line: string, cols: set<nat>, g: nat) {
    || (g in cols && OnEquals(line, g) && g > 0 && !IsBlank(line[g - 1]))
    || (g > 0 && g - 1 in cols && OnEquals(line, g - 1) && g < |line| && !EndsGap(line[g]))
  }

  function Gaps(line: string, cols: set<nat>): (r: set<nat>)
    ensures forall g: nat :: g in r <==> g < |line| && Missing(line, cols, g)
  {
    set g | 0 <= g < |line| && Missing(line, cols, g)
  }

  /** Characters `lo..hi` with a space before every position in `gaps`. */
  function Spread(line: string, gaps: set<nat>, lo: nat, hi: nat): string
    requires lo <= hi <= |line|
    decreases hi - lo
  {
    if lo == hi then ""
    else (if lo in gaps then [' ', line[lo]] else [line[lo]]) + Spread(line, gaps, lo + 1, hi)
  }

  function Padded(line: string, gaps: set<nat>): string {
    Spread(line, gaps, 0, |line|)
  }

  /** How many gaps lie before position `k`. */
  function CountBelow(gaps: set<nat>, k: nat): nat {
    if k == 0 then 0 else CountBelow(gaps, k - 1) + (if k - 1 in gaps then 1 else 0)
  }

  /** Where character `k` of the line stands in the padded line. */
  function Moved(gaps: set<nat>, k: nat): nat {
    k + CountBelow(gaps, k + 1)
  }

  lemma {:induction false} SpreadSplit(line: string, gaps: set<nat>, lo: nat, mid: nat, hi: nat)
    requires lo <= mid <= hi <= |line|
    ensures Spread(line, gaps, lo, hi) == Spread(line, gaps, lo, mid) + Spread(line, gaps, mid, hi)
    decreases mid - lo
  {
    if lo < mid { SpreadSplit(line, gaps, lo + 1, mid, hi); }
  }

  lemma {:induction false} SpreadLength(line: string, gaps: set<nat>, k: nat)
    requires k <= |line|
    ensures |Spread(line, gaps, 0, k)| == k + CountBelow(gaps, k)
  {
    if k > 0 {
      SpreadLength(line, gaps, k - 1);
      SpreadSplit(line, gaps, 0, k - 1, k);
      assert Spread(line, gaps, k, k) == "";
    }
  }

  lemma {:induction false} SpreadPlain(line: string, gaps: set<nat>, lo: nat, hi: nat)
    requires lo <= hi <= |line| && forall g :: lo <= g < hi ==> g !in gaps
    ensures Spread(line, gaps, lo, hi) == line[lo..hi]
    decreases hi - lo
  {
    if lo < hi { SpreadPlain(line, gaps, lo + 1, hi); }
  }

  lemma {:induction false} SpreadExt(line: string, a: set<nat>, b: set<nat>, lo: nat, hi: nat)
    requires lo <= hi <= |line| && forall g :: lo <= g < hi ==> (g in a <==> g in b)
    ensures Spread(line, a, lo, hi) == Spread(line, b, lo, hi)
    decreases hi - lo
  {
    if lo < hi { SpreadExt(line, a, b, lo + 1, hi); }
  }

  /** In the padded line character `k` is where `Moved` says, with the inserted space, if any, right before it. */
  lemma PaddedAt(line: string, gaps: set<nat>, k: nat)
    requires k < |line|
    ensures |Padded(line, gaps)| == |line| + CountBelow(gaps, |line|)
    ensures Moved(gaps, k) < |Padded(line, gaps)| && Padded(line, gaps)[Moved(gaps, k)] == line[k]
    ensures k in gaps ==> Moved(gaps, k) > 0 && Padded(line, gaps)[Moved(gaps, k) - 1] == ' '
  {
    SpreadSplit(line, gaps, 0, k, |line|);
    SpreadLength(line, gaps, k);
    SpreadLength(line, gaps, |line|);
  }

  // ---------------------------------------------------------------- what the insertion means

  /** Delete the space before every character in `gaps`. */
  function Unspread(out: string, gaps: set<nat>, lo: nat, hi: nat): string
    requires lo <= hi
    decreases hi - lo
  {
    if lo == hi || out == "" || (lo in gaps && |out| < 2) then ""
    else if lo in gaps then [out[1]] + Unspread(out[2..], gaps, lo + 1, hi)
    else [out[0]] + Unspread(out[1..], gaps, lo + 1, hi)
  }

  lemma {:induction false} UnspreadSpread(line: string, gaps: set<nat>, lo: nat, hi: nat)
    requires lo <= hi <= |line|
    ensures Unspread(Spread(line, gaps, lo, hi), gaps, lo, hi) == line[lo..hi]
    decreases hi - lo
  {
    if lo < hi {
      UnspreadSpread(line, gaps, lo + 1, hi);
      var out := Spread(line, gaps, lo, hi);
      assert out[(if lo in gaps then 2 else 1)..] == Spread(line, gaps, lo + 1, hi);
    }
  }

  /** Deleting the inserted spaces gives back the line. */
  lemma PaddingIsReversible(line: string, gaps: set<nat>)
    ensures Unspread(Padded(line, gaps), gaps, 0, |line|) == line
  {
    UnspreadSpread(line, gaps, 0, |line|);
  }

  function MovedAll(gaps: set<nat>, cols: set<nat>): set<nat> {
    set c | c in cols :: Moved(gaps, c)
  }

  lemma NoLongerMissing(line: string, cols: set<nat>, c: nat)
    requires c in cols && OnEquals(line, c)
    ensures var gaps := Gaps(line, cols);
      var out := Padded(line, gaps);
      var m := Moved(gaps, c);
      && m < |out| && out[m] == '='
      && (m > 0 ==> IsBlank(out[m - 1]))
      && (m + 1 < |out| ==> EndsGap(out[m + 1]))
  {
    var gaps := Gaps(line, cols);
    PaddedAt(line, gaps, c);
    assert CountBelow(gaps, c + 1) == CountBelow(gaps, c) + (if c in gaps then 1 else 0);
    if c > 0 && c !in gaps {
      PaddedAt(line, gaps, c - 1);
    }
    if c + 1 < |line| {
      PaddedAt(line, gaps, c + 1);
    } else {
      assert CountBelow(gaps, c + 1) == CountBelow(gaps, |line|);
    }
  }

  /** A second pass over the moved tokens inserts nothing. */
  lemma SecondPassChangesNothing(line: string, cols: set<nat>)
    requires forall c :: c in cols ==> OnEquals(line, c)
    ensures Gaps(Padded(line, Gaps(line, cols)), MovedAll(Gaps(line, cols), cols)) == {}
  {
    var gaps := Gaps(line, cols);
    var out, moved := Padded(line, gaps), MovedAll(gaps, cols);
    forall g | 0 <= g < |out| ensures !Missing(out, moved, g) {
      if g in moved {
        var c :| c in cols && Moved(gaps, c) == g;
        NoLongerMissing(line, cols, c);
      }
      if g > 0 && g - 1 in moved {
        var c :| c in cols && Moved(gaps, c) == g - 1;
        NoLongerMissing(line, cols, c);
      }
    }
  }

  lemma NoGapNoSpace(line: string, gaps: set<nat>, g: nat)
    requires 0 < g < |line| && g !in gaps
    ensures var out, m := Padded(line, gaps), Moved(gaps, g);
      && m < |out| && out[m] == line[g]
      && m > 0 && Moved(gaps, g - 1) == m - 1 && out[m - 1] == line[g - 1]
  {
    PaddedAt(line, gaps, g);
    PaddedAt(line, gaps, g - 1);
    assert CountBelow(gaps, g + 1) == CountBelow(gaps, g);
  }

  /** No insertion that leaves nothing missing does with less: every inserted space is needed. */
  lemma LeastInsertion(line: string, cols: set<nat>, others: set<nat>)
    requires Gaps(Padded(line, others), MovedAll(others, cols)) == {}
    ensures Gaps(line, cols) <= others
  {
    forall g | g in Gaps(line, cols) ensures g in others {
      if g !in others { StillMissing(line, cols, others, g); }
    }
  }

  lemma StillMissing(line: string, cols: set<nat>, others: set<nat>, g: nat)
    requires g in Gaps(line, cols) && g !in others
    ensures Moved(others, g) in Gaps(Padded(line, others), MovedAll(others, cols))
  {
    var out, moved, m := Padded(line, others), MovedAll(others, cols), Moved(others, g);
    NoGapNoSpace(line, others, g);
    if g in cols && OnEquals(line, g) && !IsBlank(line[g - 1]) {
      assert m in moved && Missing(out, moved, m);
    } else {
      assert m - 1 in moved && Missing(out, moved, m);
    }
  }

  // ---------------------------------------------------------------- the loop

  /** Columns of the tokens on line `row`. */
  function ColsOf(tokens: seq<Token>, row: int): (r: set<nat>)
    ensures forall c :: c in r <==> Token(row, c) in tokens
  {
    set t | t in tokens && t.row == row :: t.col
  }

  /** Tokens of one line come in the order they stand in it. */
  predicate InOrder(tokens: seq<Token>) {
    forall i, j :: 0 <= i < j < |tokens| && tokens[i].row == tokens[j].row ==> tokens[i].col < tokens[j].col
  }

  lemma CountGrows(gaps: set<nat>, a: nat, b: nat)
    requires a <= b && forall g :: a <= g < b ==> g !in gaps
    ensures CountBelow(gaps, a) == CountBelow(gaps, b)
    decreases b
  {
    if a < b { CountGrows(gaps, a, b - 1); }
  }

  lemma {:induction false} CountAdd(gaps: set<nat>, g: nat, k: nat)
    requires g !in gaps
    ensures CountBelow(gaps + {g}, k) == CountBelow(gaps, k) + (if g < k then 1 else 0)
  {
    if k > 0 { CountAdd(gaps, g, k - 1); }
  }

  /** One more gap is one more space in the padded line, where its character now stands. */
  lemma AddGap(line: string, gaps: set<nat>, g: nat)
    requires g < |line| && g !in gaps
    ensures var out, m := Padded(line, gaps), Moved(gaps, g);
      m < |out| && Padded(line, gaps + {g}) == out[..m] + [' '] + out[m..]
  {
    PaddedAt(line, gaps, g);
    SpreadSplit(line, gaps, 0, g, |line|);
    SpreadSplit(line, gaps + {g}, 0, g, |line|);
    SpreadExt(line, gaps, gaps + {g}, 0, g);
    SpreadExt(line, gaps, gaps + {g}, g + 1, |line|);
    SpreadLength(line, gaps, g);
  }

  /** What the loop keeps for one line: `cols` are its tokens seen so far. */
  ghost predicate Done(line: string, cols: set<nat>, now: string, offset: nat) {
    && now == Padded(line, Gaps(line, cols))
    && offset == CountBelow(Gaps(line, cols), |line|)
  }

  /** A token that does not sit on an '=' of the original line changes no gap. */
  lemma SkippedGaps(line: string, cols: set<nat>, c: nat)
    requires !OnEquals(line, c)
    ensures Gaps(line, cols + {c}) == Gaps(line, cols)
  {
  }

  /** Tokens further left only made gaps up to `c`, so the offset says where character `c` is now. */
  lemma OffsetIsRight(line: string, cols: set<nat>, c: nat)
    requires forall d :: d in cols ==> d < c
    ensures var gaps := Gaps(line, cols);
      && |Padded(line, gaps)| == |line| + CountBelow(gaps, |line|)
      && (c < |line| ==> c + CountBelow(gaps, |line|) == Moved(gaps, c))
  {
    var gaps := Gaps(line, cols);
    if c < |line| {
      PaddedAt(line, gaps, c);
      CountGrows(gaps, c + 1, |line|);
    } else {
      SpreadLength(line, gaps, |line|);
    }
  }

  /** A token right of all the others adds at most the gap before it and the gap behind it. */
  lemma MoreGaps(line: string, cols: set<nat>, c: nat)
    requires (forall d :: d in cols ==> d < c) && OnEquals(line, c)
    ensures var gaps, more := Gaps(line, cols), Gaps(line, cols + {c});
      && (c in more <==> c in gaps || (c > 0 && !IsBlank(line[c - 1])))
      && (c + 1 in more <==> c + 1 < |line| && !EndsGap(line[c + 1]))
      && c + 1 !in gaps
      && more == gaps + (if c in more then {c} else {}) + (if c + 1 in more then {c + 1} else {})
  {
  }

  /** Whether the loop inserts a space before the '=' can be read off the current line. */
  lemma LeftAgrees(line: string, gaps: set<nat>, c: nat)
    requires c < |line| && 0 !in gaps
    ensures var now, m := Padded(line, gaps), Moved(gaps, c);
      && m < |now|
      && ((m > 0 && !IsBlank(now[m - 1])) <==> (c !in gaps && c > 0 && !IsBlank(line[c - 1])))
  {
    PaddedAt(line, gaps, c);
    assert CountBelow(gaps, c + 1) == CountBelow(gaps, c) + (if c in gaps then 1 else 0);
    if c > 0 {
      PaddedAt(line, gaps, c - 1);
    } else {
      assert CountBelow(gaps, 0) == 0;
    }
  }

  /** ... and so can whether it inserts one behind it. */
  lemma RightAgrees(line: string, gaps: set<nat>, c: nat)
    requires c < |line| && c + 1 !in gaps
    ensures var now, m := Padded(line, gaps), Moved(gaps, c);
      ((m + 1 < |now| && !EndsGap(now[m + 1])) <==> (c + 1 < |line| && !EndsGap(line[c + 1])))
  {
    PaddedAt(line, gaps, c);
    if c + 1 < |line| { PaddedAt(line, gaps, c + 1); }
  }

  /** Adding the gap behind character `c`. */
  lemma GapBehind(line: string, gaps: set<nat>, c: nat)
    requires c + 1 < |line| && c + 1 !in gaps
    ensures var now, m := Padded(line, gaps), Moved(gaps, c);
      && m + 1 < |now|
      && Padded(line, gaps + {c + 1}) == now[..m + 1] + " " + now[m + 1..]
      && Moved(gaps + {c + 1}, c) == m
      && CountBelow(gaps + {c + 1}, |line|) == CountBelow(gaps, |line|) + 1
  {
    AddGap(line, gaps, c + 1);
    CountAdd(gaps, c + 1, |line|);
    CountAdd(gaps, c + 1, c + 1);
    PaddedAt(line, gaps, c + 1);
  }

  lemma GapBefore(line: string, gaps: set<nat>, c: nat)
    requires c < |line| && c !in gaps
    ensures var now, m := Padded(line, gaps), Moved(gaps, c);
      && m < |now|
      && Padded(line, gaps + {c}) == now[..m] + " " + now[m..]
      && CountBelow(gaps + {c}, |line|) == CountBelow(gaps, |line|) + 1
  {
    AddGap(line, gaps, c);
    CountAdd(gaps, c, |line|);
  }

  /** What PadAround makes of a line, given on which sides it inserts. */
  function Around(now: string, m: nat, left: bool, right: bool): string
    requires m < |now|
  {
    now[..m] + (if left then " " else "") + [now[m]] + (if right then " " else "") + now[m + 1..]
  }

  /** Lines 76-90 for one token: pad the '=' at `col` of the current line on both sides. */
  method PadAround(line: string, col: nat) returns (now: string, inserted: nat)
    requires OnEquals(line, col)
    ensures var left := col > 0 && !IsBlank(line[col - 1]);
      var right := col + 1 < |line| && !EndsGap(line[col + 1]);
      && inserted == (if left then 1 else 0) + (if right then 1 else 0)
      && now == Around(line, col, left, right)
      && (inserted == 0 ==> now == line)
  {
    var at := col;
    now, inserted := line, 0;
    if at > 0 && !IsBlank(now[at - 1]) {
      now := now[..at] + " " + now[at..];
      at, inserted := at + 1, inserted + 1;
    }
    var next := at + 1;
    if next < |now| && !EndsGap(now[next]) {
      now := now[..next] + " " + now[next..];
      inserted := inserted + 1;
    }
  }

  lemma AroundLeft(now: string, m: nat, right: bool)
    requires m < |now|
    ensures var half := Around(now, m, false, right);
      m < |half| && Around(now, m, true, right) == half[..m] + " " + half[m..]
  {
  }

  lemma AroundRight(now: string, m: nat)
    requires m < |now|
    ensures Around(now, m, false, true) == now[..m + 1] + " " + now[m + 1..]
    ensures Around(now, m, false, false) == now
  {
  }

  /** The line after a round, for the gaps that round adds. */
  lemma RoundPads(line: string, gaps: set<nat>, c: nat, left: bool, right: bool, more: set<nat>)
    requires c < |line| && (left ==> c !in gaps) && (right ==> c + 1 !in gaps && c + 1 < |line|)
    requires more == gaps + (if left then {c} else {}) + (if right then {c + 1} else {})
    ensures Moved(gaps, c) < |Padded(line, gaps)|
    ensures Padded(line, more) == Around(Padded(line, gaps), Moved(gaps, c), left, right)
    ensures CountBelow(more, |line|) == CountBelow(gaps, |line|) + (if left then 1 else 0) + (if right then 1 else 0)
  {
    PaddedAt(line, gaps, c);
    var half := if right then gaps + {c + 1} else gaps;
    AroundRight(Padded(line, gaps), Moved(gaps, c));
    if right { GapBehind(line, gaps, c); }
    assert Padded(line, half) == Around(Padded(line, gaps), Moved(gaps, c), false, right);
    if left {
      GapBefore(line, half, c);
      AroundLeft(Padded(line, gaps), Moved(gaps, c), right);
      assert more == half + {c};
    } else {
      assert more == half;
    }
  }

  /** One round of the loop moves from the padding of `cols` to that of `cols + {c}`. */
  lemma TokenPads(line: string, cols: set<nat>, c: nat)
    requires (forall d :: d in cols ==> d < c) && OnEquals(line, c)
    ensures var gaps, more := Gaps(line, cols), Gaps(line, cols + {c});
      var now, m := Padded(line, gaps), Moved(gaps, c);
      && m < |now|
      && var left := m > 0 && !IsBlank(now[m - 1]);
         var right := m + 1 < |now| && !EndsGap(now[m + 1]);
         && Padded(line, more) == Around(now, m, left, right)
         && CountBelow(more, |line|) == CountBelow(gaps, |line|) + (if left then 1 else 0) + (if right then 1 else 0)
  {
    var gaps, more := Gaps(line, cols), Gaps(line, cols + {c});
    MoreGaps(line, cols, c);
    LeftAgrees(line, gaps, c);
    RightAgrees(line, gaps, c);
    RoundPads(line, gaps, c, c in more && c !in gaps, c + 1 in more, more);
  }

  /** Lines 66-90 for one token on an existing line. */
  method PadToken(ghost original: string, ghost cols: set<nat>, line: string, column: nat, offset: nat)
    returns (now: string, moved: nat)
    requires Done(original, cols, line, offset)
    requires forall d :: d in cols ==> d < column
    ensures Done(original, cols + {column}, now, moved)
    ensures moved >= offset && (now == line <==> moved == offset)
  {
    OffsetIsRight(original, cols, column);
    var col := column + offset;
    if col >= |line| || line[col] != '=' {
      if column < |original| { PaddedAt(original, Gaps(original, cols), column); }
      SkippedGaps(original, cols, column);
      return line, offset;
    }
    PaddedAt(original, Gaps(original, cols), column);
    var inserted;
    now, inserted := PadAround(line, col);
    moved := offset + inserted;
    TokenPads(original, cols, column);
  }

  lemma NextCols(tokens: seq<Token>, i: nat, row: int)
    requires i < |tokens| && InOrder(tokens)
    ensures tokens[i].row == row ==>
      && ColsOf(tokens[..i + 1], row) == ColsOf(tokens[..i], row) + {tokens[i].col}
      && forall d :: d in ColsOf(tokens[..i], row) ==> d < tokens[i].col
    ensures tokens[i].row != row ==> ColsOf(tokens[..i + 1], row) == ColsOf(tokens[..i], row)
  {
    assert tokens[..i + 1] == tokens[..i] + [tokens[i]];
  }

  lemma NothingDone(line: string)
    ensures Done(line, {}, line, 0)
  {
    SpreadPlain(line, {}, 0, |line|);
    CountGrows({}, 0, |line|);
    assert Gaps(line, {}) == {};
  }

  function OffsetOf(offsets: map<int, nat>, row: int): nat {
    if row in offsets then offsets[row] else 0
  }

  /** `enforce_spacing`: one running offset per line, `tokens` being the '=' operators in reading order. */
  method EnforceSpacing(original: seq<string>, tokens: seq<Token>) returns (lines: seq<string>, changed: bool)
    requires InOrder(tokens)
    ensures |lines| == |original|
    ensures forall r :: 0 <= r < |original| ==> lines[r] == Padded(original[r], Gaps(original[r], ColsOf(tokens, r)))
    ensures changed <==> lines != original
  {
    lines, changed := original, false;
    var offsets: map<int, nat> := map[];
    forall r | 0 <= r < |original| ensures Done(original[r], ColsOf(tokens[..0], r), original[r], 0) {
      assert ColsOf(tokens[..0], r) == {};
      NothingDone(original[r]);
    }
    for i := 0 to |tokens|
      invariant |lines| == |original|
      invariant forall r :: 0 <= r < |original| ==>
        Done(original[r], ColsOf(tokens[..i], r), lines[r], OffsetOf(offsets, r))
      invariant changed ==> exists r :: 0 <= r < |original| && OffsetOf(offsets, r) > 0
      invariant !changed ==> lines == original
    {
      forall r { NextCols(tokens, i, r); }
      var row := tokens[i].row;
      if row < 0 || row >= |lines| { continue; }
      var offset := OffsetOf(offsets, row);
      var now, moved := PadToken(original[row], ColsOf(tokens[..i], row), lines[row], tokens[i].col, offset);
      if moved != offset {
        lines, offsets, changed := lines[row := now], offsets[row := moved], true;
        assert OffsetOf(offsets, row) > 0;
      }
    }
    assert tokens[..|tokens|] == tokens;
    if changed {
      var r :| 0 <= r < |original| && OffsetOf(offsets, r) > 0;
      SpreadLength(original[r], Gaps(original[r], ColsOf(tokens, r)), |original[r]|);
      assert |lines[r]| > |original[r]|;
    }
  }
}
