/**
 * The filter of docker/unsloth_pip_shim.py on text: logical lines are read, decided one by one and
 * written; when what is written in their place reads back, the copy reads as the decided lines.
 */
module RequirementsText {
  import opened Wrappers
  import opened Text
  import opened RequirementsLines

  // ---------------------------------------------------------------- from text to lines and back

  /** How a decided group is written: as it was, not at all, or as one new physical line. */
  function Decided<L(==)>(parse: Group -> L, emit: L -> string, g: Group, out: seq<L>): Fate
    requires |out| <= 1
  {
    if out == [] then Dropped else if out == [parse(g)] then Verbatim else Replaced(emit(out[0]))
  }

  function AllDecided<L(==)>(parse: Group -> L, emit: L -> string, groups: seq<Group>, outs: seq<seq<L>>): (r: seq<Fate>)
    requires |outs| == |groups| && forall i :: 0 <= i < |outs| ==> |outs[i]| <= 1
    ensures |r| == |groups|
  {
    if groups == [] then []
    else [Decided(parse, emit, groups[0], outs[0])] + AllDecided(parse, emit, groups[1..], outs[1..])
  }

  function Parsed<L>(parse: Group -> L, groups: seq<Group>): seq<L> {
    if groups == [] then [] else [parse(groups[0])] + Parsed(parse, groups[1..])
  }

  function Concat<L>(outs: seq<seq<L>>): seq<L> {
    if outs == [] then [] else outs[0] + Concat(outs[1..])
  }

  /** A new line is a whole logical line, and read as what it was written for. */
  ghost predicate Readable<L>(goes: Rule, parse: Group -> L, emit: L -> string, groups: seq<Group>, outs: seq<seq<L>>)
    requires |outs| == |groups|
  {
    forall i :: 0 <= i < |outs| && outs[i] != [] && outs[i] != [parse(groups[i])] ==>
      !goes(emit(outs[i][0])) && parse([emit(outs[i][0])]) == outs[i][0]
  }

  lemma {:induction false} DecidedReads<L>(goes: Rule, parse: Group -> L, emit: L -> string, groups: seq<Group>, outs: seq<seq<L>>)
    requires |outs| == |groups| && (forall i :: 0 <= i < |outs| ==> |outs[i]| <= 1) && Readable(goes, parse, emit, groups, outs)
    ensures Parsed(parse, Written(groups, AllDecided(parse, emit, groups, outs))) == Concat(outs)
    ensures Quiet(goes, AllDecided(parse, emit, groups, outs))
  {
    if groups != [] {
      var out, rest := outs[0], Written(groups[1..], AllDecided(parse, emit, groups[1..], outs[1..]));
      assert forall i :: 0 <= i < |outs[1..]| ==> outs[1..][i] == outs[i + 1] && groups[1..][i] == groups[i + 1];
      DecidedReads(goes, parse, emit, groups[1..], outs[1..]);
      var fates := AllDecided(parse, emit, groups, outs);
      assert fates[1..] == AllDecided(parse, emit, groups[1..], outs[1..]);
      FirstDecided(parse, emit, groups[0], out, rest);
      assert forall i :: 0 < i < |fates| ==> fates[i] == fates[1..][i - 1];
    }
  }

  lemma FirstDecided<L>(parse: Group -> L, emit: L -> string, g: Group, out: seq<L>, rest: seq<Group>)
    requires |out| <= 1 && (out != [] && out != [parse(g)] ==> parse([emit(out[0])]) == out[0])
    ensures var here := match Decided(parse, emit, g, out)
        case Verbatim => [g]
        case Dropped => []
        case Replaced(line) => [[line]];
      Parsed(parse, here + rest) == out + Parsed(parse, rest)
  {
    if out == [] {
      assert [] + rest == rest;
    } else {
      var first := if out == [parse(g)] then g else [emit(out[0])];
      assert ([first] + rest)[1..] == rest;
    }
  }

  /** The text of the copy, cut into logical lines and read, gives exactly the lines decided on. */
  lemma CopyReadsAsDecided<L>(goes: Rule, parse: Group -> L, emit: L -> string, lines: seq<string>, outs: seq<seq<L>>)
    requires |outs| == |Logical(goes, lines)| && forall i :: 0 <= i < |outs| ==> |outs[i]| <= 1
    requires Readable(goes, parse, emit, Logical(goes, lines), outs)
    ensures var fates := AllDecided(parse, emit, Logical(goes, lines), outs);
      Parsed(parse, Logical(goes, Flat(Written(Logical(goes, lines), fates)))) == Concat(outs)
  {
    DecidedReads(goes, parse, emit, Logical(goes, lines), outs);
    SurvivorsReadBack(goes, lines, AllDecided(parse, emit, Logical(goes, lines), outs));
  }

  // ---------------------------------------------------------------- the lines the filter writes

  /** `_extras_only_target` (418-441): a name with its extras, and the marker if there is one. */
  function ExtrasTarget(name: string, extras: string, marker: Option<string>): string {
    name + "[" + extras + "]" + (if marker.Some? then " ; " + marker.value else "")
  }

  /** `_emit` of `_rewrite_include` (484-488). */
  function IncludeLine(flag: string, target: string, comment: Option<string>): string {
    flag + " " + target + (if comment.Some? then " " + comment.value else "")
  }

  predicate EndsInBackslash(s: string) {
    s != "" && s[|s| - 1] == '\\'
  }

  lemma StripLine(s: string, newline: bool)
    requires Stripped(s)
    ensures Strip(s + (if newline then "\n" else "")) == s
  {
    StripIsStripped(s);
    if newline {
      if s != "" {
        assert StripLeft(s + "\n") == s + "\n";
        assert (s + "\n")[..|s|] == s;
      } else {
        assert s + "\n" == "\n" && "\n"[1..] == "";
      }
    } else {
      assert s + "" == s;
    }
  }

  /** The extras of a struck requirement go on into the next line exactly when their marker ends in a backslash. */
  lemma ExtrasLoudIff(name: string, extras: string, marker: Option<string>, newline: bool)
    requires name != "" && !IsSpace(name[0]) && name[0] != '#'
    requires marker.Some? ==> marker.value != "" && Stripped(marker.value)
    ensures Continues(ExtrasTarget(name, extras, marker) + (if newline then "\n" else ""))
      <==> marker.Some? && EndsInBackslash(marker.value)
  {
    var s := ExtrasTarget(name, extras, marker);
    assert s[0] == name[0];
    assert s[|s| - 1] == if marker.Some? then marker.value[|marker.value| - 1] else ']';
    StripLine(s, newline);
  }

  /**
   * A rewritten include, which stood on a whole physical line, goes on exactly when it has no
   * comment and its new target ends in a backslash.
   */
  lemma IncludeLoudIff(line: string, before: string, flag: string, target: string, comment: Option<string>, newline: bool)
    requires !Continues(line) && Strip(line) != "" && Strip(line)[0] == '-'
    requires flag != "" && flag[0] == '-' && target != "" && Stripped(target)
    requires comment.Some? ==> comment.value != "" && Strip(line) == before + comment.value
    ensures Continues(IncludeLine(flag, target, comment) + (if newline then "\n" else ""))
      <==> comment.None? && EndsInBackslash(target)
  {
    var s, body := IncludeLine(flag, target, comment), Strip(line);
    StripIsStripped(line);
    assert s[0] == flag[0];
    if comment.Some? {
      assert s[|s| - 1] == comment.value[|comment.value| - 1] == body[|body| - 1];
    } else {
      assert s[|s| - 1] == target[|target| - 1];
    }
    StripLine(s, newline);
  }

  /**
   * A line of which the filter writes such a replacement: it is a logical line of its own because
   * of its comment, and without the comment its marker ends in a backslash.
   */
  lemma LoudReplacementWritten() returns (line: string, spec: string)
    ensures line == spec + " #c" && spec == "torch" + "[" + "x" + "]" + ";" + "m \\"
    ensures !Continues(line)
    ensures Continues(ExtrasTarget("torch", "x", Some("m \\")) + "\n")
  {
    spec := "torch" + "[" + "x" + "]" + ";" + "m \\";
    line := spec + " #c";
    StripIsStripped(line);
    assert line[|line| - 1] == 'c' && line[0] == 't';
    ExtrasLoudIff("torch", "x", Some("m \\"), true);
  }
}
