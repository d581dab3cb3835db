/**
 * `_logical_lines` of docker/unsloth_pip_shim.py: physical lines of a requirements file grouped
 * into the logical lines pip parses, and what is read back after groups were dropped or replaced.
 */
module RequirementsLines {
  import opened Text

  /** Whether the next physical line belongs to the same logical line. */
  predicate Continues(line: string) {
    var body := Strip(line);
    body != "" && body[|body| - 1] == '\\' && body[0] != '#'
  }

  /** Indented or with blanks behind it, a line goes on if it ends in a backslash and is no comment. */
  lemma ContinuesIff(left: string, text: string, right: string)
    requires AllSpace(left) && AllSpace(right) && text != "" && Stripped(text)
    ensures Continues(left + (text + right)) <==> text[|text| - 1] == '\\' && text[0] != '#'
  {
    StripPadded(left, text, right);
  }

  /** Tells of a physical line whether the logical line goes on after it. */
  type Rule = string -> bool

  type Group = seq<string>

  function Flat(groups: seq<Group>): seq<string> {
    if groups == [] then [] else groups[0] + Flat(groups[1..])
  }

  /** A whole logical line: every line but the last goes on. */
  predicate Closed(goes: Rule, g: Group) {
    g != [] && !goes(g[|g| - 1]) && forall i :: 0 <= i < |g| - 1 ==> goes(g[i])
  }

  /** The last logical line of a file whose end is a continuation. */
  predicate Open(goes: Rule, g: Group) {
    g != [] && forall i :: 0 <= i < |g| ==> goes(g[i])
  }

  /** How a file falls into logical lines. */
  predicate Grouping(goes: Rule, groups: seq<Group>) {
    || groups == []
    || (if |groups| == 1 then Closed(goes, groups[0]) || Open(goes, groups[0])
        else Closed(goes, groups[0]) && Grouping(goes, groups[1..]))
  }

  /** The index of the first line that does not go on. */
  function FirstEnd(goes: Rule, lines: seq<string>): (r: nat)
    ensures r <= |lines|
    ensures forall i :: 0 <= i < r ==> goes(lines[i])
    ensures r < |lines| ==> !goes(lines[r])
  {
    if lines == [] || !goes(lines[0]) then 0 else 1 + FirstEnd(goes, lines[1..])
  }

  /** `lines` cut after every line that does not go on. */
  function Logical(goes: Rule, lines: seq<string>): seq<Group> {
    if lines == [] then []
    else
      var end := FirstEnd(goes, lines);
      if end == |lines| then [lines] else [lines[..end + 1]] + Logical(goes, lines[end + 1..])
  }

  lemma FirstIsClosed(goes: Rule, lines: seq<string>)
    requires lines != []
    ensures var end := FirstEnd(goes, lines);
      if end == |lines| then Open(goes, lines) else Closed(goes, lines[..end + 1])
  {
    var end := FirstEnd(goes, lines);
    if end < |lines| {
      var g := lines[..end + 1];
      assert g[end] == lines[end];
      forall i | 0 <= i < end ensures goes(g[i]) { assert g[i] == lines[i]; }
    }
  }

  lemma PrependGroup(goes: Rule, g: Group, rest: seq<Group>)
    ensures Flat([g] + rest) == g + Flat(rest)
    ensures Closed(goes, g) && Grouping(goes, rest) ==> Grouping(goes, [g] + rest)
  {
    assert ([g] + rest)[1..] == rest;
  }

  lemma OneGroup(goes: Rule, g: Group)
    requires Open(goes, g)
    ensures Flat([g]) == g && Grouping(goes, [g])
  {
    PrependGroup(goes, g, []);
    assert [g] + [] == [g] && g + [] == g;
  }

  /** The groups are whole logical lines, and together they are the file. */
  lemma {:induction false} LogicalIsGrouping(goes: Rule, lines: seq<string>)
    ensures Flat(Logical(goes, lines)) == lines && Grouping(goes, Logical(goes, lines))
  {
    if lines != [] {
      FirstIsClosed(goes, lines);
      if FirstEnd(goes, lines) == |lines| {
        OneGroup(goes, lines);
      } else {
        var end := FirstEnd(goes, lines);
        var g, rest := lines[..end + 1], lines[end + 1..];
        LogicalIsGrouping(goes, rest);
        PrependGroup(goes, g, Logical(goes, rest));
        assert Logical(goes, lines) == [g] + Logical(goes, rest);
        assert lines == g + rest;
      }
    }
  }

  lemma FirstEndOf(goes: Rule, g: Group, rest: seq<string>)
    requires Closed(goes, g)
    ensures FirstEnd(goes, g + rest) == |g| - 1
  {
    var lines := g + rest;
    forall i | 0 <= i < |g| ensures lines[i] == g[i] {}
  }

  lemma LogicalCons(goes: Rule, g: Group, rest: seq<string>)
    requires Closed(goes, g)
    ensures Logical(goes, g + rest) == [g] + Logical(goes, rest)
  {
    FirstEndOf(goes, g, rest);
    assert (g + rest)[..|g|] == g && (g + rest)[|g|..] == rest;
  }

  lemma LogicalOpen(goes: Rule, g: Group)
    requires Open(goes, g)
    ensures Logical(goes, g) == [g]
  {
    assert FirstEnd(goes, g) == |g|;
  }

  /** ... and no other way of grouping has both properties. */
  lemma {:induction false} GroupingIsLogical(goes: Rule, groups: seq<Group>)
    requires Grouping(goes, groups)
    ensures Logical(goes, Flat(groups)) == groups
  {
    if groups != [] {
      var g, rest := groups[0], groups[1..];
      assert groups == [g] + rest;
      if Closed(goes, g) {
        LogicalCons(goes, g, Flat(rest));
        GroupingIsLogical(goes, rest);
      } else {
        LogicalOpen(goes, g);
        assert rest == [] && g + [] == g;
      }
    }
  }

  /** Written groups are read back as they are exactly when each but the last is a whole logical line. */
  lemma ReadBackIff(goes: Rule, groups: seq<Group>)
    ensures Logical(goes, Flat(groups)) == groups <==> Grouping(goes, groups)
  {
    LogicalIsGrouping(goes, Flat(groups));
    if Grouping(goes, groups) { GroupingIsLogical(goes, groups); }
  }

  /** The loop of `_logical_lines`. */
  method GroupLines(goes: Rule, lines: seq<string>) returns (groups: seq<Group>)
    ensures groups == Logical(goes, lines)
    ensures Flat(groups) == lines && Grouping(goes, groups)
  {
    groups := [];
    var group := [];
    for i := 0 to |lines|
      invariant AllClosed(goes, groups)
      invariant forall k :: 0 <= k < |group| ==> goes(group[k])
      invariant Flat(groups) + group == lines[..i]
    {
      assert lines[..i + 1] == lines[..i] + [lines[i]];
      group := group + [lines[i]];
      if goes(lines[i]) { continue; }
      FlatAppend(groups, group);
      groups := groups + [group];
      group := [];
    }
    assert lines[..|lines|] == lines;
    FlatAppend(groups, group);
    ClosedIsGrouping(goes, groups, group);
    if group != [] { groups := groups + [group]; }
    GroupingIsLogical(goes, groups);
  }

  /** `_logical_lines`, with the rule pip applies. */
  method LogicalLines(lines: seq<string>) returns (groups: seq<Group>)
    ensures groups == Logical(Continues, lines)
    ensures Flat(groups) == lines && Grouping(Continues, groups)
  {
    groups := GroupLines(Continues, lines);
  }

  predicate AllClosed(goes: Rule, groups: seq<Group>) {
    forall i :: 0 <= i < |groups| ==> Closed(goes, groups[i])
  }

  lemma {:induction false} FlatAppend(groups: seq<Group>, g: Group)
    ensures Flat(groups + [g]) == Flat(groups) + g
  {
    if groups == [] {
      assert groups + [g] == [g] && [g][1..] == [];
    } else {
      FlatAppend(groups[1..], g);
      assert (groups + [g])[1..] == groups[1..] + [g];
    }
  }

  lemma {:induction false} ClosedIsGrouping(goes: Rule, groups: seq<Group>, last: Group)
    requires AllClosed(goes, groups) && (last == [] || Closed(goes, last) || Open(goes, last))
    ensures Grouping(goes, if last == [] then groups else groups + [last])
  {
    if groups != [] {
      ClosedIsGrouping(goes, groups[1..], last);
      assert (groups + [last])[1..] == groups[1..] + [last];
    }
  }

  // ---------------------------------------------------------------- dropping and replacing groups

  /** What becomes of one logical line: kept as it is, dropped, or replaced by a single physical line. */
  datatype Fate = Verbatim | Dropped | Replaced(line: string)

  /** The groups written out: every decision is about a whole logical line (580-632). */
  function Written(groups: seq<Group>, fates: seq<Fate>): seq<Group>
    requires |groups| == |fates|
  {
    if groups == [] then []
    else
      (match fates[0]
       case Verbatim => [groups[0]]
       case Dropped => []
       case Replaced(line) => [[line]]) + Written(groups[1..], fates[1..])
  }

  /** A replacement that goes on would swallow the logical line after it. */
  predicate Quiet(goes: Rule, fates: seq<Fate>) {
    forall i :: 0 <= i < |fates| && fates[i].Replaced? ==> !goes(fates[i].line)
  }

  lemma {:induction false} WrittenIsGrouping(goes: Rule, groups: seq<Group>, fates: seq<Fate>)
    requires |groups| == |fates| && Grouping(goes, groups) && Quiet(goes, fates)
    ensures Grouping(goes, Written(groups, fates))
    ensures AllClosed(goes, groups) ==> AllClosed(goes, Written(groups, fates))
  {
    if groups != [] {
      assert forall i :: 0 <= i < |fates[1..]| ==> fates[1..][i] == fates[i + 1];
      WrittenIsGrouping(goes, groups[1..], fates[1..]);
      var rest := Written(groups[1..], fates[1..]);
      assert fates[0].Replaced? ==> Closed(goes, [fates[0].line]);
      if |groups| == 1 { assert groups[1..] == [] && rest == []; }
      if fates[0].Dropped? {
        assert [] + rest == rest;
      } else {
        var g := if fates[0].Verbatim? then groups[0] else [fates[0].line];
        PrependGroup(goes, g, rest);
        assert rest == [] ==> [g] + rest == [g];
      }
    }
  }

  /** Reading back what was written gives exactly the surviving logical lines: no continuation is orphaned. */
  lemma SurvivorsReadBack(goes: Rule, lines: seq<string>, fates: seq<Fate>)
    requires |fates| == |Logical(goes, lines)| && Quiet(goes, fates)
    ensures Logical(goes, Flat(Written(Logical(goes, lines), fates))) == Written(Logical(goes, lines), fates)
  {
    LogicalIsGrouping(goes, lines);
    WrittenIsGrouping(goes, Logical(goes, lines), fates);
    ReadBackIff(goes, Written(Logical(goes, lines), fates));
  }

  /** A replacement ending in a backslash does swallow the next logical line. */
  lemma LoudReplacementSwallows(goes: Rule, line: string, next: Group)
    requires goes(line) && Closed(goes, next)
    ensures Logical(goes, Flat([[line], next])) == [[line] + next]
  {
    var joined := [line] + next;
    assert Flat([[line], next]) == joined + Flat([]) by {
      assert [[line], next][1..] == [next] && [next][1..] == [];
    }
    assert joined + Flat([]) == joined && Closed(goes, joined);
    GroupingIsLogical(goes, [joined]);
    assert Flat([joined]) == joined + Flat([joined][1..]) && [joined][1..] == [];
  }
}
