/** Splitting and joining text, and where a separator cuts it. */
module Text {
  function Split(s: string, separator: string): (r: seq<string>)
    requires separator != ""
    ensures r != []
  {
    if s == "" then [""]
    else if separator <= s then [""] + Split(s[|separator|..], separator)
    else
      var rest := Split(s[1..], separator);
      [[s[0]] + rest[0]] + rest[1..]
  }

  function Join(parts: seq<string>, separator: string): string {
    if parts == [] then ""
    else if |parts| == 1 then parts[0]
    else parts[0] + separator + Join(parts[1..], separator)
  }

  lemma JoinCons(first: string, rest: seq<string>, separator: string)
    requires rest != []
    ensures Join([first] + rest, separator) == first + separator + Join(rest, separator)
  {
    assert ([first] + rest)[1..] == rest;
  }

  lemma JoinLonger(c: char, parts: seq<string>, separator: string)
    requires parts != []
    ensures Join([[c] + parts[0]] + parts[1..], separator) == [c] + Join(parts, separator)
  {
    if |parts| > 1 {
      JoinCons([c] + parts[0], parts[1..], separator);
      assert parts == [parts[0]] + parts[1..];
      JoinCons(parts[0], parts[1..], separator);
    }
  }

  lemma {:induction false} JoinSplit(s: string, separator: string)
    requires separator != ""
    ensures Join(Split(s, separator), separator) == s
  {
    if s == "" {
    } else if separator <= s {
      var rest := s[|separator|..];
      JoinSplit(rest, separator);
      JoinCons("", Split(rest, separator), separator);
      assert "" + separator + rest == s;
    } else {
      var rest := s[1..];
      JoinSplit(rest, separator);
      JoinLonger(s[0], Split(rest, separator), separator);
      assert [s[0]] + rest == s;
    }
  }

  lemma PrefixHasNone(s: string, c: char, first: string, separator: string)
    requires separator != "" && first <= s && !HasPart(first, separator) && !(separator <= [c] + s)
    ensures !HasPart([c] + first, separator)
  {
    assert ([c] + first)[1..] == first;
    assert [c] + first <= [c] + s;
  }

  /** The pieces of a split hold no separator any more: nothing is left to cut. */
  lemma {:induction false} SplitCutsAll(s: string, separator: string)
    requires separator != ""
    ensures Split(s, separator)[0] <= s
    ensures forall i :: 0 <= i < |Split(s, separator)| ==> !HasPart(Split(s, separator)[i], separator)
  {
    if s == "" {
    } else if separator <= s {
      SplitCutsAll(s[|separator|..], separator);
    } else {
      var rest := Split(s[1..], separator);
      SplitCutsAll(s[1..], separator);
      assert [s[0]] + s[1..] == s;
      PrefixHasNone(s[1..], s[0], rest[0], separator);
    }
  }

  /** A text is cut in one way by a character that its first piece does not hold. */
  lemma CutAt(c: char, a: string, b: string, s: string, t: string)
    requires c !in a && c !in b && a + [c] + s == b + [c] + t
    ensures a == b && s == t
  {
    var left, right := a + [c] + s, b + [c] + t;
    assert left[|a|] == c && right[|b|] == c;
    assert forall i :: 0 <= i < |a| ==> left[i] == a[i] && a[i] != c;
    assert forall i :: 0 <= i < |b| ==> right[i] == b[i] && b[i] != c;
    assert left[..|a|] == a && right[..|b|] == b;
    assert left[|a| + 1..] == s && right[|b| + 1..] == t;
  }

  predicate HasPart(s: string, part: string)
    decreases |s|
  {
    |part| <= |s| && (part <= s || (s != "" && HasPart(s[1..], part)))
  }

  predicate PartAt(s: string, part: string, i: int) {
    0 <= i <= |s| - |part| && s[i..i + |part|] == part
  }

  lemma {:induction false} HasPartIff(s: string, part: string)
    ensures HasPart(s, part) <==> exists i :: PartAt(s, part, i)
    decreases |s|
  {
    if part <= s { assert PartAt(s, part, 0); }
    if s != "" {
      HasPartIff(s[1..], part);
      forall i ensures PartAt(s[1..], part, i) <==> i >= 0 && PartAt(s, part, i + 1) {
        if 0 <= i < |s| - |part| { assert s[1..][i..i + |part|] == s[i + 1..i + 1 + |part|]; }
      }
      if i :| PartAt(s, part, i) { assert i > 0 ==> PartAt(s[1..], part, i - 1); }
    }
  }

  // ---------------------------------------------------------------- white space

  /** What `str.strip` removes, within ASCII. */
  predicate IsSpace(c: char) {
    var n := c as int;
    9 <= n <= 13 || 28 <= n <= 32
  }

  function StripLeft(s: string): (r: string)
    ensures r == "" || !IsSpace(r[0])
  {
    if s != "" && IsSpace(s[0]) then StripLeft(s[1..]) else s
  }

  function StripRight(s: string): (r: string)
    ensures r == "" || !IsSpace(r[|r| - 1])
    ensures r <= s
  {
    if s != "" && IsSpace(s[|s| - 1]) then StripRight(s[..|s| - 1]) else s
  }

  function Strip(s: string): string { StripRight(StripLeft(s)) }

  predicate Stripped(s: string) {
    s == "" || (!IsSpace(s[0]) && !IsSpace(s[|s| - 1]))
  }

  lemma StripIsStripped(s: string)
    ensures Stripped(Strip(s)) && (Stripped(s) ==> Strip(s) == s)
  {
  }

  predicate AllSpace(s: string) {
    forall i :: 0 <= i < |s| ==> IsSpace(s[i])
  }

  lemma {:induction false} StripLeftPadded(left: string, s: string)
    requires AllSpace(left) && (s == "" || !IsSpace(s[0]))
    ensures StripLeft(left + s) == s
  {
    if left == "" {
      assert left + s == s;
    } else {
      assert (left + s)[1..] == left[1..] + s;
      StripLeftPadded(left[1..], s);
    }
  }

  lemma {:induction false} StripRightPadded(s: string, right: string)
    requires AllSpace(right) && (s == "" || !IsSpace(s[|s| - 1]))
    ensures StripRight(s + right) == s
    decreases |right|
  {
    if right == "" {
      assert s + right == s;
    } else {
      var n := |right| - 1;
      assert (s + right)[..|s| + n] == s + right[..n] && (s + right)[|s| + n] == right[n];
      StripRightPadded(s, right[..n]);
    }
  }

  /** Stripping takes exactly the white space around a text. */
  lemma StripPadded(left: string, s: string, right: string)
    requires AllSpace(left) && AllSpace(right) && s != "" && Stripped(s)
    ensures Strip(left + (s + right)) == s
  {
    StripLeftPadded(left, s + right);
    StripRightPadded(s, right);
  }

  /** What holds anything but white space is not stripped away. */
  lemma StripKeepsText(s: string)
    requires !AllSpace(s)
    ensures Strip(s) != ""
  {
    StripLeftKeepsText(s);
    var t := StripLeft(s);
    StripRightKeepsText(t);
  }

  lemma {:induction false} StripLeftKeepsText(s: string)
    requires !AllSpace(s)
    ensures StripLeft(s) != ""
  {
    if IsSpace(s[0]) {
      var i :| 0 <= i < |s| && !IsSpace(s[i]);
      assert s[1..][i - 1] == s[i];
      StripLeftKeepsText(s[1..]);
    }
  }

  lemma {:induction false} StripRightKeepsText(s: string)
    requires s != "" && !IsSpace(s[0])
    ensures StripRight(s) != ""
  {
    if |s| > 1 && IsSpace(s[|s| - 1]) { StripRightKeepsText(s[..|s| - 1]); }
  }
}
