/**
 * The cleaning transform of docker/unsloth_nb_strip_colab.py.
 *
 * The functions say what one cleaning pass computes; the class `Document` is the
 * parsed notebook that the script edits in place.  A pass is characterised by an exact
 * count of what is left to clean, and the number of passes a notebook needs is exact.
 */
module NotebookCleaning {
  import opened Wrappers
  import opened Sequences
  import opened Text

  // ---------------------------------------------------------------- text helpers

  const INTRO_PREFIX := "to run this, press"
  const WIDGET_VIEW_MIME := "application/vnd.jupyter.widget-view+json"

  function LowerChar(c: char): char {
    if 'A' <= c <= 'Z' then c - 'A' + 'a' else c
  }

  function Lower(s: string): (r: string)
    ensures |r| == |s|
  {
    if s == "" then "" else [LowerChar(s[0])] + Lower(s[1..])
  }

  predicate EndsWith(s: string, suffix: string) {
    |suffix| <= |s| && s[|s| - |suffix|..] == suffix
  }

  /** The Colab announcement, bare or inside a comment that opens and closes on its line. */
  predicate IsIntroLine(line: string) {
    var stripped := Strip(line);
    var low := Lower(stripped);
    || INTRO_PREFIX <= low
    || (&& "<!--" <= low
        && EndsWith(stripped, "-->")
        && INTRO_PREFIX <= Lower(Strip(if |stripped| < 7 then "" else stripped[4..|stripped| - 3])))
  }

  predicate IsBlankLine(line: string) {
    Strip(line) == ""
  }

  // ---------------------------------------------------------------- notebooks

  datatype Source = Text(lines: seq<string>) | Lines(lines: seq<string>) | NoSource

  /**
   * The "data" of an output: the names of an object or list, a text, in which a part is looked up, or
   * a scalar, in which nothing can be; an empty or falsy one is replaced by an object without names.
   */
  datatype Data = Names(names: seq<string>) | Word(text: string) | Scalar(truthy: bool)

  datatype Output = Output(data: Data) | OtherOutput

  datatype Cell =
    | Cell(markdown: bool, source: Source, outputs: Option<seq<Output>>, rest: string)
    | OtherCell

  /** Parsed JSON: an object with optional cell list and metadata object, or something else. */
  datatype Notebook =
    | Notebook(cells: Option<seq<Cell>>, metadata: Option<map<string, string>>, rest: string)
    | OtherJson

  // ---------------------------------------------------------------- one pass

  /** Drop the first announcement line and a blank line directly after it. */
  function StripLines(lines: seq<string>): Option<seq<string>> {
    if lines == [] then None
    else if IsIntroLine(lines[0]) then
      if |lines| > 1 && IsBlankLine(lines[1]) then Some(lines[2..]) else Some(lines[1..])
    else match StripLines(lines[1..])
      case None => None
      case Some(rest) => Some([lines[0]] + rest)
  }

  function StripSource(source: Source): Option<Source> {
    match source
    case NoSource => None
    case Text(lines) =>
      (match StripLines(lines) case None => None case Some(kept) => Some(Text(kept)))
    case Lines(lines) =>
      (match StripLines(lines) case None => None case Some(kept) => Some(Lines(kept)))
  }

  predicate IsHeaderCell(cell: Cell) {
    cell.Cell? && cell.markdown
  }

  function StripCell(cell: Cell): Cell
    requires IsHeaderCell(cell)
  {
    match StripSource(cell.source)
    case None => cell
    case Some(source) => cell.(source := source)
  }

  /** The leading markdown block, each cell losing at most one announcement. */
  function StripHeader(cells: seq<Cell>): (r: seq<Cell>)
    ensures |r| == |cells|
  {
    if cells == [] || !IsHeaderCell(cells[0]) then cells
    else [StripCell(cells[0])] + StripHeader(cells[1..])
  }

  predicate IsWidgetOutput(output: Output) {
    output.Output? && match output.data
      case Names(names) => WIDGET_VIEW_MIME in names
      case Word(text) => HasPart(text, WIDGET_VIEW_MIME)
      case Scalar(_) => false
  }

  function KeptOutputs(outputs: seq<Output>): (r: seq<Output>)
    ensures |r| <= |outputs|
  {
    if outputs == [] then []
    else if IsWidgetOutput(outputs[0]) then KeptOutputs(outputs[1..])
    else [outputs[0]] + KeptOutputs(outputs[1..])
  }

  function CleanCellOutputs(cell: Cell): Cell {
    if cell.Cell? && cell.outputs.Some?
    then cell.(outputs := Some(KeptOutputs(cell.outputs.value)))
    else cell
  }

  function CleanOutputs(cells: seq<Cell>): (r: seq<Cell>)
    ensures |r| == |cells|
  {
    if cells == [] then [] else [CleanCellOutputs(cells[0])] + CleanOutputs(cells[1..])
  }

  function CleanMetadata(metadata: Option<map<string, string>>): Option<map<string, string>> {
    if metadata.Some? then Some(metadata.value - {"widgets"}) else None
  }

  function CleanCells(cells: Option<seq<Cell>>): Option<seq<Cell>> {
    if cells.Some? then Some(CleanOutputs(StripHeader(cells.value))) else None
  }

  /** The notebook after one pass; meaningful when the pass does not raise. */
  function CleanedNotebook(nb: Notebook): Notebook
    requires nb.Notebook?
  {
    nb.(cells := CleanCells(nb.cells), metadata := CleanMetadata(nb.metadata))
  }

  // ---------------------------------------------------------------- what is left

  function Max(a: nat, b: nat): nat { if a < b then b else a }

  function IntroLines(lines: seq<string>): nat {
    if lines == [] then 0 else (if IsIntroLine(lines[0]) then 1 else 0) + IntroLines(lines[1..])
  }

  function SourceIntros(source: Source): nat {
    if source.NoSource? then 0 else IntroLines(source.lines)
  }

  /** The largest number of announcements in one cell of the leading markdown block. */
  function DeepestHeader(cells: seq<Cell>): nat {
    if cells == [] || !IsHeaderCell(cells[0]) then 0
    else Max(SourceIntros(cells[0].source), DeepestHeader(cells[1..]))
  }

  function HeaderIntros(cells: seq<Cell>): nat {
    if cells == [] || !IsHeaderCell(cells[0]) then 0
    else SourceIntros(cells[0].source) + HeaderIntros(cells[1..])
  }

  function WidgetOutputs(outputs: seq<Output>): nat {
    if outputs == [] then 0
    else (if IsWidgetOutput(outputs[0]) then 1 else 0) + WidgetOutputs(outputs[1..])
  }

  function CellWidgets(cell: Cell): nat {
    if cell.Cell? && cell.outputs.Some? then WidgetOutputs(cell.outputs.value) else 0
  }

  function AllWidgets(cells: seq<Cell>): nat {
    if cells == [] then 0 else CellWidgets(cells[0]) + AllWidgets(cells[1..])
  }

  function WidgetState(metadata: Option<map<string, string>>): nat {
    if metadata.Some? && "widgets" in metadata.value then 1 else 0
  }

  /** Announcements in the leading block plus widget outputs plus widget metadata. */
  function Dirt(nb: Notebook): nat
    requires nb.Notebook?
  {
    (if nb.cells.Some? then HeaderIntros(nb.cells.value) + AllWidgets(nb.cells.value) else 0)
    + WidgetState(nb.metadata)
  }

  /** How many passes the notebook needs. */
  function Passes(nb: Notebook): nat
    requires nb.Notebook?
  {
    var widgets := (if nb.cells.Some? then AllWidgets(nb.cells.value) else 0) + WidgetState(nb.metadata);
    Max(if nb.cells.Some? then DeepestHeader(nb.cells.value) else 0, if widgets > 0 then 1 else 0)
  }

  // ---------------------------------------------------------------- facts about one pass

  lemma StripOfSpace(s: string)
    requires Strip(s) == ""
    ensures !IsIntroLine(s)
  {
    assert Lower("") == "";
  }

  /** One pass over a cell's lines removes exactly one announcement, and fails to change the lines only when there is none. */
  lemma {:induction false} StripLinesRemovesOne(lines: seq<string>)
    ensures StripLines(lines).None? <==> IntroLines(lines) == 0
    ensures StripLines(lines).Some? ==> IntroLines(StripLines(lines).value) == IntroLines(lines) - 1
  {
    if lines != [] {
      if IsIntroLine(lines[0]) {
        if |lines| > 1 && IsBlankLine(lines[1]) {
          StripOfSpace(lines[1]);
          assert lines[1..][1..] == lines[2..];
        }
      } else {
        StripLinesRemovesOne(lines[1..]);
        if StripLines(lines[1..]).Some? {
          var rest := StripLines(lines[1..]).value;
          assert ([lines[0]] + rest)[1..] == rest;
        }
      }
    }
  }

  function Less(n: nat): nat { if n == 0 then 0 else n - 1 }

  lemma StripCellRemovesOne(cell: Cell)
    requires IsHeaderCell(cell)
    ensures var r := StripCell(cell);
      && IsHeaderCell(r) && r.outputs == cell.outputs && r.rest == cell.rest
      && SourceIntros(r.source) == Less(SourceIntros(cell.source))
      && (r == cell <==> SourceIntros(cell.source) == 0)
  {
    if !cell.source.NoSource? {
      StripLinesRemovesOne(cell.source.lines);
    }
  }

  lemma {:induction false} StripHeaderRemovesOneEach(cells: seq<Cell>)
    ensures var r := StripHeader(cells);
      && DeepestHeader(r) == Less(DeepestHeader(cells))
      && HeaderIntros(r) <= HeaderIntros(cells)
      && (r != cells ==> HeaderIntros(r) < HeaderIntros(cells))
      && AllWidgets(r) == AllWidgets(cells)
      && (r == cells <==> DeepestHeader(cells) == 0)
  {
    if cells != [] && IsHeaderCell(cells[0]) {
      StripCellRemovesOne(cells[0]);
      StripHeaderRemovesOneEach(cells[1..]);
      var r := StripHeader(cells);
      assert r[0] == StripCell(cells[0]) && r[1..] == StripHeader(cells[1..]);
      assert r == cells <==> r[0] == cells[0] && r[1..] == cells[1..];
    }
  }

  lemma {:induction false} KeptOutputsRemovesWidgets(outputs: seq<Output>)
    ensures var r := KeptOutputs(outputs);
      && WidgetOutputs(r) == 0
      && |r| == |outputs| - WidgetOutputs(outputs)
      && (|r| == |outputs| ==> r == outputs)
  {
    if outputs != [] {
      KeptOutputsRemovesWidgets(outputs[1..]);
      assert ([outputs[0]] + KeptOutputs(outputs[1..]))[1..] == KeptOutputs(outputs[1..]);
      assert outputs == [outputs[0]] + outputs[1..];
    }
  }

  lemma {:induction false} CleanOutputsRemovesWidgets(cells: seq<Cell>)
    ensures var r := CleanOutputs(cells);
      && AllWidgets(r) == 0
      && HeaderIntros(r) == HeaderIntros(cells)
      && DeepestHeader(r) == DeepestHeader(cells)
      && (r == cells <==> AllWidgets(cells) == 0)
  {
    if cells != [] {
      CleanOutputsRemovesWidgets(cells[1..]);
      var r := CleanOutputs(cells);
      assert r[0] == CleanCellOutputs(cells[0]) && r[1..] == CleanOutputs(cells[1..]);
      assert r == cells <==> r[0] == cells[0] && r[1..] == cells[1..];
      if cells[0].Cell? && cells[0].outputs.Some? {
        KeptOutputsRemovesWidgets(cells[0].outputs.value);
      }
    }
  }

  /** One pass lowers the number of passes still needed by exactly one, and strictly lowers the dirt when it changes anything. */
  lemma CleanedNotebookIsCleaner(nb: Notebook)
    requires nb.Notebook?
    ensures var r := CleanedNotebook(nb);
      && Passes(r) == Less(Passes(nb))
      && (r == nb <==> Dirt(nb) == 0)
      && (r == nb <==> Passes(nb) == 0)
      && (r != nb ==> Dirt(r) < Dirt(nb))
  {
    if nb.cells.Some? {
      var header := StripHeader(nb.cells.value);
      StripHeaderRemovesOneEach(nb.cells.value);
      CleanOutputsRemovesWidgets(header);
      DeepestIsZeroWithHeader(nb.cells.value);
    }
    if nb.metadata.Some? {
      assert "widgets" !in nb.metadata.value ==> nb.metadata.value - {"widgets"} == nb.metadata.value;
    }
  }

  lemma {:induction false} DeepestIsZeroWithHeader(cells: seq<Cell>)
    ensures DeepestHeader(cells) == 0 <==> HeaderIntros(cells) == 0
  {
    if cells != [] && IsHeaderCell(cells[0]) {
      DeepestIsZeroWithHeader(cells[1..]);
    }
  }

  // ---------------------------------------------------------------- what a pass leaves

  /** `kept` is `lines` without line `i`, the first that is `out`, and a `blank` line directly after it. */
  predicate WithoutLine(lines: seq<string>, out: string -> bool, blank: string -> bool, i: nat, kept: seq<string>) {
    && i < |lines| && out(lines[i])
    && (forall k :: 0 <= k < i ==> !out(lines[k]))
    && kept == lines[..i] + lines[(if i + 1 < |lines| && blank(lines[i + 1]) then i + 2 else i + 1)..]
  }

  /** `kept` is `lines` without its first announcement, which is line `i`, and a blank line directly after it. */
  predicate WithoutFirst(lines: seq<string>, i: nat, kept: seq<string>) {
    WithoutLine(lines, IsIntroLine, IsBlankLine, i, kept)
  }

  /** `StripLines`, for any notion of announcement and blank line. */
  function DropFirst(lines: seq<string>, out: string -> bool, blank: string -> bool): Option<seq<string>> {
    if lines == [] then None
    else if out(lines[0]) then
      if |lines| > 1 && blank(lines[1]) then Some(lines[2..]) else Some(lines[1..])
    else match DropFirst(lines[1..], out, blank)
      case None => None
      case Some(rest) => Some([lines[0]] + rest)
  }

  lemma {:induction false} StripLinesDrops(lines: seq<string>)
    ensures StripLines(lines) == DropFirst(lines, IsIntroLine, IsBlankLine)
  {
    if lines != [] { StripLinesDrops(lines[1..]); }
  }

  lemma WithoutLineCons(line: string, lines: seq<string>, out: string -> bool, blank: string -> bool, i: nat, kept: seq<string>)
    requires WithoutLine(lines, out, blank, i, kept) && !out(line)
    ensures WithoutLine([line] + lines, out, blank, i + 1, [line] + kept)
  {
    var all, j := [line] + lines, if i + 1 < |lines| && blank(lines[i + 1]) then i + 2 else i + 1;
    Behind(line, lines, i);
    Behind(line, lines, j);
    Assoc([line], lines[..i], lines[j..]);
    assert i + 1 < |lines| ==> all[i + 2] == lines[i + 1];
    forall k | 0 <= k < i + 1 ensures !out(all[k]) {
      if k > 0 { assert all[k] == lines[k - 1]; }
    }
  }

  lemma Behind(line: string, lines: seq<string>, i: nat)
    requires i <= |lines|
    ensures ([line] + lines)[..i + 1] == [line] + lines[..i] && ([line] + lines)[i + 1..] == lines[i..]
  {
  }

  lemma {:induction false} NoneDropped(lines: seq<string>, out: string -> bool, blank: string -> bool)
    requires DropFirst(lines, out, blank).None?
    ensures forall k :: 0 <= k < |lines| ==> !out(lines[k])
  {
    if lines != [] {
      NoneDropped(lines[1..], out, blank);
      assert forall k :: 0 < k < |lines| ==> lines[k] == lines[1..][k - 1];
    }
  }

  lemma {:induction false} DropFirstLeaves(lines: seq<string>, out: string -> bool, blank: string -> bool) returns (i: nat)
    requires DropFirst(lines, out, blank).Some?
    ensures WithoutLine(lines, out, blank, i, DropFirst(lines, out, blank).value)
  {
    var kept := DropFirst(lines, out, blank).value;
    if out(lines[0]) {
      i := 0;
      assert kept == lines[..0] + kept;
    } else {
      var first, rest := lines[0], lines[1..];
      var j := DropFirstLeaves(rest, out, blank);
      WithoutLineCons(first, rest, out, blank, j, DropFirst(rest, out, blank).value);
      assert lines == [first] + rest;
      i := j + 1;
    }
  }

  /** One pass over a cell's lines takes out the first announcement and a blank line directly after it, nothing else. */
  lemma StripLinesLeaves(lines: seq<string>)
    ensures match StripLines(lines)
      case None => forall k :: 0 <= k < |lines| ==> !IsIntroLine(lines[k])
      case Some(kept) => exists i :: 0 <= i < |lines| && WithoutFirst(lines, i, kept)
  {
    StripLinesDrops(lines);
    if StripLines(lines).Some? {
      var i := DropFirstLeaves(lines, IsIntroLine, IsBlankLine);
      assert WithoutFirst(lines, i, StripLines(lines).value);
    } else {
      NoneDropped(lines, IsIntroLine, IsBlankLine);
    }
  }

  /** A source after the pass: the form is kept, and at most the first announcement goes. */
  predicate SourceLeft(was: Source, now: Source) {
    if was.NoSource? || forall k :: 0 <= k < |was.lines| ==> !IsIntroLine(was.lines[k]) then now == was
    else
      && !now.NoSource? && (now.Text? <==> was.Text?)
      && exists i :: 0 <= i < |was.lines| && WithoutFirst(was.lines, i, now.lines)
  }

  /** How many outputs before the `i`-th one stay. */
  function StayBefore(outputs: seq<Output>, i: nat): (n: nat)
    requires i <= |outputs|
    ensures n <= i
  {
    if i == 0 then 0 else StayBefore(outputs, i - 1) + (if IsWidgetOutput(outputs[i - 1]) then 0 else 1)
  }

  /** Exactly the outputs without a widget view stay, in their order. */
  predicate OutputsLeft(was: seq<Output>, now: seq<Output>) {
    && |now| == StayBefore(was, |was|)
    && forall i :: 0 <= i < |was| && !IsWidgetOutput(was[i]) ==>
         StayBefore(was, i) < |now| && now[StayBefore(was, i)] == was[i]
  }

  lemma {:induction false} StayBeforeTail(outputs: seq<Output>, i: nat)
    requires outputs != [] && i < |outputs|
    ensures StayBefore(outputs, i + 1) == StayBefore(outputs[1..], i) + (if IsWidgetOutput(outputs[0]) then 0 else 1)
  {
    if i > 0 { StayBeforeTail(outputs, i - 1); }
  }

  lemma {:induction false} KeptOutputsLeft(outputs: seq<Output>)
    ensures OutputsLeft(outputs, KeptOutputs(outputs))
  {
    if outputs != [] {
      var rest := outputs[1..];
      KeptOutputsLeft(rest);
      StayBeforeTail(outputs, |rest|);
      forall i | 0 <= i < |outputs| && !IsWidgetOutput(outputs[i])
        ensures StayBefore(outputs, i) < |KeptOutputs(outputs)| && KeptOutputs(outputs)[StayBefore(outputs, i)] == outputs[i]
      {
        if i > 0 {
          StayBeforeTail(outputs, i - 1);
          assert rest[i - 1] == outputs[i];
        }
      }
    }
  }

  /** Cell `k` belongs to the leading markdown block. */
  predicate InHeader(cells: seq<Cell>, k: nat) {
    k < |cells| && forall m :: 0 <= m <= k ==> IsHeaderCell(cells[m])
  }

  /** A cell after the pass. */
  predicate CellLeft(was: Cell, now: Cell, header: bool) {
    if was.OtherCell? then now == was
    else
      && now.Cell? && now.markdown == was.markdown && now.rest == was.rest
      && (if header then SourceLeft(was.source, now.source) else now.source == was.source)
      && (match was.outputs
          case None => now.outputs.None?
          case Some(outputs) => now.outputs.Some? && OutputsLeft(outputs, now.outputs.value))
  }

  /** A notebook after the pass: announcements, widget views and widget metadata go, and everything else is as it was. */
  predicate NotebookLeft(was: Notebook, now: Notebook)
    requires was.Notebook?
  {
    && now.Notebook? && now.rest == was.rest
    && (match was.cells
        case None => now.cells.None?
        case Some(cells) =>
          && now.cells.Some? && |now.cells.value| == |cells|
          && forall k :: 0 <= k < |cells| ==> CellLeft(cells[k], now.cells.value[k], InHeader(cells, k)))
    && (match was.metadata
        case None => now.metadata.None?
        case Some(m) =>
          && now.metadata.Some? && now.metadata.value.Keys == m.Keys - {"widgets"}
          && forall key :: key in now.metadata.value ==> now.metadata.value[key] == m[key])
  }

  lemma {:induction false} StripHeaderAt(cells: seq<Cell>, k: nat)
    requires k < |cells|
    ensures StripHeader(cells)[k] == if InHeader(cells, k) then StripCell(cells[k]) else cells[k]
  {
    if !IsHeaderCell(cells[0]) {
      assert !InHeader(cells, k);
    } else if k > 0 {
      StripHeaderAt(cells[1..], k - 1);
      assert InHeader(cells[1..], k - 1) <==> InHeader(cells, k) by {
        assert forall m :: 0 < m <= k ==> cells[m] == cells[1..][m - 1];
      }
    }
  }

  lemma {:induction false} CleanOutputsAt(cells: seq<Cell>, k: nat)
    requires k < |cells|
    ensures CleanOutputs(cells)[k] == CleanCellOutputs(cells[k])
  {
    if k > 0 { CleanOutputsAt(cells[1..], k - 1); }
  }

  lemma StripCellLeaves(cell: Cell)
    requires IsHeaderCell(cell)
    ensures StripCell(cell) == cell.(source := StripCell(cell).source) && SourceLeft(cell.source, StripCell(cell).source)
  {
    if !cell.source.NoSource? { StripLinesLeaves(cell.source.lines); }
  }

  lemma CellLeaves(cell: Cell, header: bool)
    requires header ==> IsHeaderCell(cell)
    ensures CellLeft(cell, CleanCellOutputs(if header then StripCell(cell) else cell), header)
  {
    if header { StripCellLeaves(cell); }
    if cell.Cell? && cell.outputs.Some? { KeptOutputsLeft(cell.outputs.value); }
  }

  /** One pass changes nothing but what it is for. */
  lemma CleanedNotebookLeaves(nb: Notebook)
    requires nb.Notebook?
    ensures NotebookLeft(nb, CleanedNotebook(nb))
  {
    if nb.cells.Some? {
      var cells := nb.cells.value;
      forall k | 0 <= k < |cells|
        ensures CellLeft(cells[k], CleanedNotebook(nb).cells.value[k], InHeader(cells, k))
      {
        StripHeaderAt(cells, k);
        CleanOutputsAt(StripHeader(cells), k);
        CellLeaves(cells[k], InHeader(cells, k));
      }
    }
  }

  // ---------------------------------------------------------------- files

  /** A notebook file: text that does not parse, or JSON in some layout (0 is the one the script writes). */
  datatype File = Unparsed(text: string) | Json(nb: Notebook, layout: nat)

  datatype Cleaning = Unchanged | Cleaned(file: File) | Raises

  predicate OutputRaises(output: Output) {
    output.Output? && output.data.Scalar? && output.data.truthy
  }

  predicate CellRaises(cell: Cell) {
    cell.Cell? && cell.outputs.Some? && exists o :: o in cell.outputs.value && OutputRaises(o)
  }

  /** The pass dies with an uncaught exception: the JSON is no object, or a lookup is made in a number. */
  predicate NotebookRaises(nb: Notebook) {
    nb.OtherJson? || (nb.cells.Some? && exists c :: c in nb.cells.value && CellRaises(c))
  }

  /** What staging a cleaned copy of a file yields. */
  function Clean(file: File): Cleaning {
    if file.Unparsed? then Unchanged
    else if NotebookRaises(file.nb) then Raises
    else if CleanedNotebook(file.nb) == file.nb then Unchanged
    else Cleaned(Json(CleanedNotebook(file.nb), 0))
  }

  function CleanOnce(file: File): File {
    match Clean(file) case Cleaned(f) => f case _ => file
  }

  function CleanTimes(n: nat, file: File): File {
    if n == 0 then file else CleanTimes(n - 1, CleanOnce(file))
  }

  /** The number of passes after which a file is left alone. */
  function PassesNeeded(file: File): nat {
    if file.Unparsed? || NotebookRaises(file.nb) then 0 else Passes(file.nb)
  }

  lemma {:induction false} HeaderRaisesNoMore(cells: seq<Cell>)
    ensures (exists c :: c in StripHeader(cells) && CellRaises(c)) ==> exists c :: c in cells && CellRaises(c)
  {
    if cells != [] && IsHeaderCell(cells[0]) {
      HeaderRaisesNoMore(cells[1..]);
      StripCellRemovesOne(cells[0]);
      if c :| c in StripHeader(cells) && CellRaises(c) {
        if c == StripCell(cells[0]) {
          assert cells[0] in cells && CellRaises(cells[0]);
        } else {
          assert c in StripHeader(cells[1..]);
          var d :| d in cells[1..] && CellRaises(d);
          assert d in cells;
        }
      }
    }
  }

  lemma {:induction false} KeptOutputsAreOutputs(outputs: seq<Output>)
    ensures forall o :: o in KeptOutputs(outputs) ==> o in outputs
  {
    if outputs != [] {
      KeptOutputsAreOutputs(outputs[1..]);
    }
  }

  lemma {:induction false} OutputsRaiseNoMore(cells: seq<Cell>)
    ensures (exists c :: c in CleanOutputs(cells) && CellRaises(c)) ==> exists c :: c in cells && CellRaises(c)
  {
    if cells != [] {
      OutputsRaiseNoMore(cells[1..]);
      if cells[0].Cell? && cells[0].outputs.Some? {
        KeptOutputsAreOutputs(cells[0].outputs.value);
      }
      if c :| c in CleanOutputs(cells) && CellRaises(c) {
        if c == CleanCellOutputs(cells[0]) {
          assert cells[0] in cells && CellRaises(cells[0]);
        } else {
          assert c in CleanOutputs(cells[1..]);
          var d :| d in cells[1..] && CellRaises(d);
          assert d in cells;
        }
      }
    }
  }

  /** A pass leaves a file that no later pass dies on, and that needs one pass less. */
  lemma CleanMakesProgress(file: File)
    ensures Clean(file).Cleaned? ==>
      && PassesNeeded(file) > 0
      && !Clean(Clean(file).file).Raises?
      && PassesNeeded(Clean(file).file) == PassesNeeded(file) - 1
    ensures Clean(file).Unchanged? ==> PassesNeeded(file) == 0
  {
    if file.Json? && !NotebookRaises(file.nb) {
      CleanedNotebookIsCleaner(file.nb);
      if file.nb.cells.Some? {
        HeaderRaisesNoMore(file.nb.cells.value);
        OutputsRaiseNoMore(StripHeader(file.nb.cells.value));
      }
    }
  }

  /** Repeated passes settle, and exactly after `PassesNeeded` of them. */
  lemma {:induction false} SettlesExactly(n: nat, file: File)
    requires !Clean(file).Raises?
    ensures Clean(CleanTimes(n, file)).Unchanged? <==> n >= PassesNeeded(file)
  {
    CleanMakesProgress(file);
    if n > 0 {
      SettlesExactly(n - 1, CleanOnce(file));
    }
  }

  /** The script calls the in-place mode idempotent; that holds exactly when one pass suffices. */
  lemma IdempotentIff(file: File)
    requires !Clean(file).Raises?
    ensures CleanOnce(CleanOnce(file)) == CleanOnce(file) <==> PassesNeeded(file) <= 1
  {
    CleanMakesProgress(file);
    CleanMakesProgress(CleanOnce(file));
    if Clean(CleanOnce(file)).Cleaned? {
      CleanMakesProgress(CleanOnce(file));
    }
  }

  /** A header cell that announces twice keeps one announcement after the first pass. */
  lemma NotIdempotent(line: string) returns (file: File)
    requires IsIntroLine(line)
    ensures Clean(file).Cleaned? && Clean(Clean(file).file).Cleaned?
  {
    var cell := Cell(true, Lines([line, line]), None, "");
    file := Json(Notebook(Some([cell]), None, ""), 0);
    assert IntroLines([line, line][1..]) == 1 by { assert [line, line][1..] == [line]; }
    assert SourceIntros(cell.source) == 2;
    assert DeepestHeader([cell]) == 2;
    assert Passes(file.nb) == 2;
    assert PassesNeeded(file) == 2;
    CleanMakesProgress(file);
    CleanMakesProgress(Clean(file).file);
  }

  lemma PlainText(s: string)
    requires s != "" && !IsSpace(s[0]) && !IsSpace(s[|s| - 1])
    requires forall k :: 0 <= k < |s| ==> !('A' <= s[k] <= 'Z')
    ensures Lower(Strip(s)) == s
  {
    LowerFixed(s);
  }

  /** There are such lines: the announcement itself is one. */
  lemma AnnouncementIsIntro(line: string)
    requires line == INTRO_PREFIX
    ensures IsIntroLine(line)
  {
    PlainText(line);
  }

  /** So is an announcement in a comment that opens and closes on its line. */
  lemma CommentIsIntro(t: string)
    requires INTRO_PREFIX <= Lower(Strip(t))
    ensures IsIntroLine("<!--" + t + "-->")
  {
    var line := "<!--" + t + "-->";
    assert line[0] == '<' && line[|line| - 1] == '>';
    StripIsStripped(line);
    LowerAt(line);
    assert Lower(line)[..4] == "<!--";
    assert line[4..|line| - 3] == t;
  }

  /** A line that begins with neither the announcement nor a comment is left alone. */
  lemma OtherLineIsNone(line: string)
    requires Stripped(line) && line != "" && line[0] != 't' && line[0] != 'T' && line[0] != '<'
    ensures !IsIntroLine(line)
  {
    StripIsStripped(line);
    LowerAt(line);
    assert INTRO_PREFIX[0] == 't' && "<!--"[0] == '<';
  }

  lemma {:induction false} BlankIff(line: string)
    ensures IsBlankLine(line) <==> AllSpace(line)
  {
    if AllSpace(line) {
      StripLeftPadded(line, "");
      assert line + "" == line;
    } else {
      StripKeepsText(line);
    }
  }

  /** Which outputs hold a widget view, and where a look-up dies. */
  lemma WidgetIff(output: Output)
    ensures IsWidgetOutput(output) <==> output.Output? && match output.data
      case Names(names) => "application/vnd.jupyter.widget-view+json" in names
      case Word(text) => exists i :: PartAt(text, "application/vnd.jupyter.widget-view+json", i)
      case Scalar(_) => false
  {
    if output.Output? && output.data.Word? { HasPartIff(output.data.text, WIDGET_VIEW_MIME); }
  }

  /** A comment that does not close on its line is none: dropping its first line would leave the rest open. */
  lemma OpenCommentIsNone(line: string)
    requires Stripped(line) && "<!--" <= line && !EndsWith(line, "-->")
    ensures !IsIntroLine(line)
  {
    StripIsStripped(line);
    LowerAt(line);
  }

  lemma {:induction false} LowerAt(s: string)
    ensures forall k :: 0 <= k < |s| ==> Lower(s)[k] == LowerChar(s[k])
  {
    if s != "" { LowerAt(s[1..]); }
  }

  lemma {:induction false} LowerFixed(s: string)
    requires forall k :: 0 <= k < |s| ==> !('A' <= s[k] <= 'Z')
    ensures Lower(s) == s
  {
    if s != "" {
      LowerFixed(s[1..]);
      assert s == [s[0]] + s[1..];
    }
  }

  // ---------------------------------------------------------------- the edit in place

  lemma {:induction false} HeaderPointwise(cells: seq<Cell>, r: seq<Cell>, i: nat)
    requires i <= |cells| == |r|
    requires i == |cells| || !IsHeaderCell(cells[i])
    requires forall k :: 0 <= k < i ==> IsHeaderCell(cells[k]) && r[k] == StripCell(cells[k])
    requires forall k :: i <= k < |cells| ==> r[k] == cells[k]
    ensures r == StripHeader(cells)
  {
    if i == 0 {
      assert r == cells;
    } else {
      HeaderPointwise(cells[1..], r[1..], i - 1);
      assert r == [r[0]] + r[1..];
    }
  }

  lemma {:induction false} OutputsPointwise(cells: seq<Cell>, r: seq<Cell>)
    requires |cells| == |r|
    requires forall k :: 0 <= k < |cells| ==> r[k] == CleanCellOutputs(cells[k])
    ensures r == CleanOutputs(cells)
  {
    if cells != [] {
      OutputsPointwise(cells[1..], r[1..]);
      assert r == [r[0]] + r[1..];
    }
  }

  /** The parsed notebook object, edited in place by the two passes. */
  class Document {
    var cells: Option<seq<Cell>>
    var metadata: Option<map<string, string>>
    const rest: string

    constructor (nb: Notebook)
      requires nb.Notebook?
      ensures Value() == nb
    {
      cells, metadata, rest := nb.cells, nb.metadata, nb.rest;
    }

    function Value(): Notebook
      reads this
    {
      Notebook(cells, metadata, rest)
    }

    /** Strip one announcement from every cell of the leading markdown block. */
    method StripIntro() returns (changed: bool)
      modifies this`cells
      ensures old(cells).None? ==> cells == old(cells) && !changed
      ensures old(cells).Some? ==> cells == Some(StripHeader(old(cells).value))
      ensures changed <==> cells != old(cells)
    {
      changed := false;
      if cells.None? { return; }
      ghost var before := cells.value;
      var i := 0;
      while i < |cells.value| && IsHeaderCell(cells.value[i])
        invariant cells.Some? && |cells.value| == |before| && i <= |before|
        invariant forall k :: 0 <= k < i ==> IsHeaderCell(before[k]) && cells.value[k] == StripCell(before[k])
        invariant forall k :: i <= k < |before| ==> cells.value[k] == before[k]
        invariant changed <==> exists k :: 0 <= k < i && cells.value[k] != before[k]
      {
        var cell := cells.value[i];
        StripCellRemovesOne(cell);
        var source := StripSource(cell.source);
        if source.Some? {
          StripLinesRemovesOne(cell.source.lines);
          cells := Some(cells.value[i := cell.(source := source.value)]);
          changed := true;
        }
        i := i + 1;
      }
      HeaderPointwise(before, cells.value, i);
      assert !changed ==> cells.value == before;
    }

    /** Drop every widget output and the widget metadata; `raised` when a lookup is made in a scalar. */
    method CleanWidgets() returns (changed: bool, raised: bool)
      modifies this
      ensures raised <==> old(cells).Some? && exists c :: c in old(cells).value && CellRaises(c)
      ensures !raised ==>
        && cells == (if old(cells).Some? then Some(CleanOutputs(old(cells).value)) else None)
        && metadata == CleanMetadata(old(metadata))
        && (changed <==> Value() != old(Value()))
    {
      changed, raised := false, false;
      if cells.Some? {
        ghost var before := cells.value;
        var i := 0;
        while i < |cells.value|
          invariant cells.Some? && |cells.value| == |before| && i <= |before| && metadata == old(metadata)
          invariant forall k :: 0 <= k < i ==> !CellRaises(before[k]) && cells.value[k] == CleanCellOutputs(before[k])
          invariant forall k :: i <= k < |before| ==> cells.value[k] == before[k]
          invariant changed <==> exists k :: 0 <= k < i && cells.value[k] != before[k]
        {
          var cell := cells.value[i];
          if CellRaises(cell) {
            assert before[i] in before;
            return changed, true;
          }
          if cell.Cell? && cell.outputs.Some? {
            var kept := KeptOutputs(cell.outputs.value);
            KeptOutputsRemovesWidgets(cell.outputs.value);
            if |kept| != |cell.outputs.value| {
              cells := Some(cells.value[i := cell.(outputs := Some(kept))]);
              changed := true;
            }
          }
          i := i + 1;
        }
        OutputsPointwise(before, cells.value);
        assert !changed ==> cells.value == before;
      }
      if metadata.Some? && "widgets" in metadata.value {
        metadata := Some(metadata.value - {"widgets"});
        changed := true;
      } else {
        assert metadata.Some? ==> metadata.value - {"widgets"} == metadata.value;
      }
    }
  }

  /** Stage a cleaned copy: parse, clean in place, and report what there is to publish. */
  method StageClean(file: File) returns (r: Cleaning)
    ensures r == Clean(file)
    ensures r.Cleaned? ==> file.Json? && file.nb.Notebook? && r.file.Json? && NotebookLeft(file.nb, r.file.nb)
  {
    if file.Unparsed? { return Unchanged; }
    if file.nb.OtherJson? { return Raises; }
    var doc := new Document(file.nb);
    var stripped := doc.StripIntro();
    if file.nb.cells.Some? {
      HeaderRaisesSame(file.nb.cells.value);
    }
    var cleaned, raised := doc.CleanWidgets();
    if raised { return Raises; }
    assert doc.Value() == CleanedNotebook(file.nb);
    CleanedNotebookLeaves(file.nb);
    if file.nb.cells.Some? {
      NoCancelling(file.nb.cells.value);
    }
    r := if stripped || cleaned then Cleaned(Json(doc.Value(), 0)) else Unchanged;
  }

  /** Whether the pass raises does not depend on the header having been stripped. */
  lemma {:induction false} HeaderRaisesSame(cells: seq<Cell>)
    ensures (exists c :: c in StripHeader(cells) && CellRaises(c)) <==> exists c :: c in cells && CellRaises(c)
  {
    HeaderRaisesNoMore(cells);
    if c :| c in cells && CellRaises(c) {
      var k :| 0 <= k < |cells| && cells[k] == c;
      HeaderKeepsOutputs(cells, k);
      assert StripHeader(cells)[k] in StripHeader(cells) && CellRaises(StripHeader(cells)[k]);
    }
  }

  lemma {:induction false} HeaderKeepsOutputs(cells: seq<Cell>, k: nat)
    requires k < |cells|
    ensures cells[k].Cell? <==> StripHeader(cells)[k].Cell?
    ensures cells[k].Cell? ==> StripHeader(cells)[k].outputs == cells[k].outputs
  {
    if IsHeaderCell(cells[0]) {
      if k > 0 { HeaderKeepsOutputs(cells[1..], k - 1); }
    }
  }

  /** Dropping outputs cannot undo what stripping the header changed. */
  lemma NoCancelling(cells: seq<Cell>)
    ensures CleanOutputs(StripHeader(cells)) == cells ==> StripHeader(cells) == cells
  {
    StripHeaderRemovesOneEach(cells);
    CleanOutputsRemovesWidgets(StripHeader(cells));
  }
}
