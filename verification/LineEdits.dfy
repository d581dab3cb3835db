/**
 * The edit loops of scripts/enforce_kwargs_spacing.py (481-484, and 293-299 with one-column
 * edits): applied from the last to the first, edits need no offsets.
 */
module LineEdits {
  import opened Sequences

  /** Columns `from..to` of a row give way to `text`. */
  datatype Edit = Edit(row: nat, from: nat, to: nat, text: string)

  /** Sorted as by position, inside their lines, and none reaches into the next. */
  predicate Sorted(edits: seq<Edit>) {
    forall i, j :: 0 <= i < j < |edits| ==>
      edits[i].row < edits[j].row || (edits[i].row == edits[j].row && edits[i].to <= edits[j].from)
  }

  predicate Inside(edits: seq<Edit>, lines: seq<string>) {
    forall i :: 0 <= i < |edits| ==> edits[i].row < |lines| && edits[i].from <= edits[i].to <= |lines[edits[i].row]|
  }

  function OfRow(edits: seq<Edit>, row: nat): seq<Edit> {
    if edits == [] then [] else (if edits[0].row == row then [edits[0]] else []) + OfRow(edits[1..], row)
  }

  /** All the edits of one line made at once, from column `at` on. */
  function AtOnce(line: string, edits: seq<Edit>, at: nat): string {
    if at > |line| then ""
    else if edits == [] || !(at <= edits[0].from <= edits[0].to <= |line|) then line[at..]
    else line[at..edits[0].from] + edits[0].text + AtOnce(line, edits[1..], edits[0].to)
  }

  /** Ordered edits of one line that begin at column `at` or later. */
  predicate Chain(line: string, edits: seq<Edit>, at: nat) {
    && at <= |line|
    && (edits == [] || (at <= edits[0].from <= edits[0].to && Chain(line, edits[1..], edits[0].to)))
  }

  /** Up to the first edit the line is as it was. */
  lemma UntouchedPrefix(line: string, edits: seq<Edit>, at: nat, to: nat)
    requires Chain(line, edits, to) && at <= to
    ensures AtOnce(line, edits, at) == line[at..to] + AtOnce(line, edits, to)
  {
    if edits != [] {
      var e, rest := edits[0], edits[1..];
      ChainInside(line, rest, e.to);
      assert line[at..e.from] == line[at..to] + line[to..e.from];
      Assoc(line[at..to], line[to..e.from], e.text);
      Assoc(line[at..to], line[to..e.from] + e.text, AtOnce(line, rest, e.to));
    }
  }

  lemma ChainInside(line: string, edits: seq<Edit>, at: nat)
    requires Chain(line, edits, at)
    ensures at <= |line|
  {
  }

  /** Making the later edits first, and then this one in the edited line, is making them all at once. */
  lemma EarlierEditOnTop(line: string, e: Edit, later: seq<Edit>)
    requires e.from <= e.to && Chain(line, later, e.to)
    ensures var now := AtOnce(line, later, 0);
      && e.to <= |now|
      && now[..e.from] + e.text + now[e.to..] == AtOnce(line, [e] + later, 0)
  {
    UntouchedPrefix(line, later, 0, e.to);
    var now := AtOnce(line, later, 0);
    assert now[..e.from] == line[0..e.from] && now[e.to..] == AtOnce(line, later, e.to);
    assert ([e] + later)[1..] == later;
  }

  /** The edits of a row form a chain, beginning where every edit before them has ended. */
  lemma {:induction false} RowIsChain(edits: seq<Edit>, lines: seq<string>, row: nat, at: nat)
    requires Sorted(edits) && Inside(edits, lines) && row < |lines| && at <= |lines[row]|
    requires forall i :: 0 <= i < |edits| && edits[i].row == row ==> at <= edits[i].from
    ensures Chain(lines[row], OfRow(edits, row), at)
    decreases |edits|
  {
    if edits != [] {
      var rest := edits[1..];
      assert forall i :: 0 <= i < |rest| ==> rest[i] == edits[i + 1];
      if edits[0].row == row {
        RowIsChain(rest, lines, row, edits[0].to);
        assert OfRow(edits, row)[1..] == OfRow(rest, row);
      } else {
        RowIsChain(rest, lines, row, at);
        assert [] + OfRow(rest, row) == OfRow(rest, row);
      }
    }
  }

  lemma OfRowNext(edits: seq<Edit>, i: nat, row: nat)
    requires i < |edits|
    ensures OfRow(edits[i..], row) == if edits[i].row == row then [edits[i]] + OfRow(edits[i + 1..], row) else OfRow(edits[i + 1..], row)
  {
    assert edits[i..][0] == edits[i] && edits[i..][1..] == edits[i + 1..];
    assert [] + OfRow(edits[i + 1..], row) == OfRow(edits[i + 1..], row);
  }

  /** One edit, made in a line that already has the later ones. */
  lemma EditNext(edits: seq<Edit>, original: seq<string>, i: nat)
    requires Sorted(edits) && Inside(edits, original) && i < |edits|
    ensures var e := edits[i];
      var now := AtOnce(original[e.row], OfRow(edits[i + 1..], e.row), 0);
      && e.from <= e.to <= |now|
      && now[..e.from] + e.text + now[e.to..] == AtOnce(original[e.row], OfRow(edits[i..], e.row), 0)
  {
    var e, later := edits[i], edits[i + 1..];
    RowIsChain(later, original, e.row, e.to);
    EarlierEditOnTop(original[e.row], e, OfRow(later, e.row));
    OfRowNext(edits, i, e.row);
  }

  /** The loop over the sorted edits, last first. */
  method ApplyEdits(original: seq<string>, edits: seq<Edit>) returns (lines: seq<string>)
    requires Sorted(edits) && Inside(edits, original)
    ensures |lines| == |original|
    ensures forall r :: 0 <= r < |original| ==> lines[r] == AtOnce(original[r], OfRow(edits, r), 0)
  {
    lines := original;
    for i := |edits| downto 0
      invariant |lines| == |original|
      invariant forall r :: 0 <= r < |original| ==> lines[r] == AtOnce(original[r], OfRow(edits[i..], r), 0)
    {
      var e := edits[i];
      EditNext(edits, original, i);
      forall r | 0 <= r < |original| { OfRowNext(edits, i, r); }
      var line := lines[e.row];
      lines := lines[e.row := line[..e.from] + e.text + line[e.to..]];
    }
  }
}
