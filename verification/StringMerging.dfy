/**
 * `_merge_string_run` of scripts/enforce_kwargs_spacing.py: adjacent string literals, some of them
 * f-strings, become one literal.
 *
 * What a literal means is a list of code points and fields, read element by element.  An element
 * stays what it is when text follows, but for an octal escape at the very end; so bodies can be
 * joined (`DecodeConcat`) unless a digit leaks into such an escape (`LeakShortens`).  Doubling
 * braces is undone by reading the text as an f-string (`DoublingIsUndone`).
 */
module StringMerging {
  import opened Wrappers
  import opened Sequences

  /** A piece of the value: a code point, or a replacement field with its source text. */
  datatype Part = Code(point: int) | Field(source: string)

  /** How a body is read: escapes or not, fields or not. */
  datatype Mode = Raw | Plain | Formatted

  predicate IsOctal(c: char) { '0' <= c <= '7' }

  function DigitValue(c: char): Option<nat> {
    if '0' <= c <= '9' then Some(c as int - '0' as int)
    else if 'a' <= c <= 'f' then Some(c as int - 'a' as int + 10)
    else if 'A' <= c <= 'F' then Some(c as int - 'A' as int + 10)
    else None
  }

  /** The number the hexadecimal digits write, None when there is another character. */
  function Hex(s: string): Option<nat> {
    if s == "" then Some(0)
    else match (Hex(s[..|s| - 1]), DigitValue(s[|s| - 1]))
      case (Some(high), Some(low)) => Some(16 * high + low)
      case _ => None
  }

  /** Octal digits at the start, at most `limit`. */
  function OctalRun(s: string, limit: nat): (r: nat)
    ensures r <= |s| && r <= limit
    ensures forall i :: 0 <= i < r ==> IsOctal(s[i])
    ensures r < |s| && r < limit ==> !IsOctal(s[r])
  {
    if limit == 0 || s == "" || !IsOctal(s[0]) then 0 else 1 + OctalRun(s[1..], limit - 1)
  }

  function Octal(s: string): int {
    if s == "" then 0 else 8 * Octal(s[..|s| - 1]) + (s[|s| - 1] as int - '0' as int)
  }

  /** Escapes that stand for one other character. */
  function Named(c: char): Option<int> {
    match c
    case '\\' => Some(92)
    case '\'' => Some(39)
    case '\"' => Some(34)
    case 'a' => Some(7)
    case 'b' => Some(8)
    case 'f' => Some(12)
    case 'n' => Some(10)
    case 'r' => Some(13)
    case 't' => Some(9)
    case 'v' => Some(11)
    case _ => None
  }

  function HexLength(c: char): nat {
    if c == 'x' then 2 else if c == 'u' then 4 else if c == 'U' then 8 else 0
  }

  /** The end of a field, behind the brace that closes the `depth` open ones. */
  function FieldEnd(s: string, at: nat, depth: nat): (r: Option<nat>)
    requires at <= |s|
    ensures r.Some? ==> at <= r.value <= |s|
    decreases |s| - at
  {
    if depth == 0 then Some(at)
    else if at == |s| then None
    else FieldEnd(s, at + 1, if s[at] == '{' then depth + 1 else if s[at] == '}' then depth - 1 else depth)
  }

  /** The first element of a body: what it means and how many characters it takes. */
  datatype Step = Step(parts: seq<Part>, length: nat)

  /** A backslash and what it escapes; an unknown escape is just a backslash. Named characters are not modelled. */
  function EscapeStep(s: string): Option<Step>
    requires s != "" && s[0] == '\\'
  {
    if |s| == 1 then None
    else
      var c := s[1];
      if IsOctal(c) then
        var n := OctalRun(s[1..], 3);
        Some(Step([Code(Octal(s[1..1 + n]))], 1 + n))
      else if HexLength(c) > 0 then
        if |s| < 2 + HexLength(c) then None
        else match Hex(s[2..2 + HexLength(c)])
          case Some(point) => Some(Step([Code(point)], 2 + HexLength(c)))
          case None => None
      else if c == 'N' || c == '\n' then None
      else match Named(c)
        case Some(point) => Some(Step([Code(point)], 2))
        case None => Some(Step([Code(92)], 1))
  }

  function BraceStep(s: string): Option<Step>
    requires s != "" && (s[0] == '{' || s[0] == '}')
  {
    if |s| > 1 && s[1] == s[0] then Some(Step([Code(s[0] as int)], 2))
    else if s[0] == '}' then None
    else match FieldEnd(s, 1, 1)
      case Some(end) => Some(Step([Field(s[..end])], end))
      case None => None
  }

  function FirstStep(s: string, mode: Mode): Option<Step>
    requires s != ""
  {
    if mode != Raw && s[0] == '\\' then EscapeStep(s)
    else if mode == Formatted && (s[0] == '{' || s[0] == '}') then BraceStep(s)
    else Some(Step([Code(s[0] as int)], 1))
  }

  lemma StepBounds(s: string, mode: Mode)
    requires s != ""
    ensures FirstStep(s, mode).Some? ==> 0 < FirstStep(s, mode).value.length <= |s|
  {
  }

  /** What a body means; None when it is no well-formed body. */
  function Decode(s: string, mode: Mode): Option<seq<Part>>
    decreases |s|
  {
    if s == "" then Some([])
    else
      StepBounds(s, mode);
      match FirstStep(s, mode)
      case None => None
      case Some(step) =>
        match Decode(s[step.length..], mode)
        case None => None
        case Some(rest) => Some(step.parts + rest)
  }

  // ---------------------------------------------------------------- joining two bodies

  /** The body ends in an octal escape that another digit would lengthen. */
  predicate EndsOpen(s: string, mode: Mode)
    decreases |s|
  {
    && s != ""
    && var step := FirstStep(s, mode);
       && step.Some?
       && (StepBounds(s, mode);
           if step.value.length < |s| then EndsOpen(s[step.value.length..], mode)
           else mode != Raw && s[0] == '\\' && |s| > 1 && IsOctal(s[1]) && |s| < 4)
  }

  /** Where two bodies meet, a digit would be taken into the escape before it. */
  predicate Leaks(a: string, b: string, mode: Mode) {
    EndsOpen(a, mode) && b != "" && IsOctal(b[0])
  }

  lemma {:induction false} FieldEndLocal(a: string, b: string, at: nat, depth: nat)
    requires at <= |a| && FieldEnd(a, at, depth).Some?
    ensures FieldEnd(a + b, at, depth) == FieldEnd(a, at, depth)
    decreases |a| - at
  {
    if depth > 0 {
      assert (a + b)[at] == a[at];
      FieldEndLocal(a, b, at + 1, if a[at] == '{' then depth + 1 else if a[at] == '}' then depth - 1 else depth);
    }
  }

  lemma {:induction false} OctalRunLocal(a: string, b: string, limit: nat)
    requires OctalRun(a, limit) == |a| && |a| < limit ==> b == "" || !IsOctal(b[0])
    ensures OctalRun(a + b, limit) == OctalRun(a, limit)
    decreases limit
  {
    if limit > 0 {
      if a == "" {
        assert a + b == b;
      } else if IsOctal(a[0]) {
        assert (a + b)[1..] == a[1..] + b;
        OctalRunLocal(a[1..], b, limit - 1);
      }
    }
  }

  lemma EscapeLocal(a: string, b: string)
    requires a != "" && a[0] == '\\' && EscapeStep(a).Some?
    requires EscapeStep(a).value.length == |a| && |a| > 1 && IsOctal(a[1]) && |a| < 4 ==> b == "" || !IsOctal(b[0])
    ensures EscapeStep(a + b) == EscapeStep(a)
  {
    var s, c := a + b, a[1];
    assert s[0] == a[0] && s[1] == c && s[1..] == a[1..] + b;
    if IsOctal(c) {
      OctalRunLocal(a[1..], b, 3);
      var n := OctalRun(a[1..], 3);
      assert s[1..1 + n] == a[1..1 + n];
    } else if HexLength(c) > 0 {
      assert s[2..2 + HexLength(c)] == a[2..2 + HexLength(c)];
    }
  }

  /** The first element of a body stays what it is when text follows, but for an open octal escape. */
  lemma StepLocal(a: string, b: string, mode: Mode)
    requires a != "" && FirstStep(a, mode).Some?
    requires FirstStep(a, mode).value.length == |a| ==> !Leaks(a, b, mode)
    ensures FirstStep(a + b, mode) == FirstStep(a, mode)
  {
    assert (a + b)[0] == a[0];
    StepBounds(a, mode);
    if mode != Raw && a[0] == '\\' {
      EscapeLocal(a, b);
    } else if mode == Formatted && (a[0] == '{' || a[0] == '}') {
      if |a| > 1 { assert (a + b)[1] == a[1]; }
      if |a| > 1 && a[1] != a[0] && a[0] == '{' {
        FieldEndLocal(a, b, 1, 1);
        var end := FieldEnd(a, 1, 1).value;
        assert (a + b)[..end] == a[..end];
      }
    }
  }

  /** A body that reads as `step` and then `rest`. */
  ghost predicate Reads(s: string, mode: Mode, step: Step, rest: seq<Part>) {
    && s != "" && FirstStep(s, mode) == Some(step) && 0 < step.length <= |s|
    && Decode(s[step.length..], mode) == Some(rest)
  }

  lemma Unfold(s: string, mode: Mode) returns (step: Step, rest: seq<Part>)
    requires s != "" && Decode(s, mode).Some?
    ensures Reads(s, mode, step, rest) && Decode(s, mode) == Some(step.parts + rest)
  {
    StepBounds(s, mode);
    step := FirstStep(s, mode).value;
    rest := Decode(s[step.length..], mode).value;
  }

  lemma Fold(s: string, mode: Mode, step: Step, rest: seq<Part>)
    requires Reads(s, mode, step, rest)
    ensures Decode(s, mode) == Some(step.parts + rest)
  {
  }

  lemma TailLeaks(a: string, b: string, mode: Mode, n: nat)
    requires a != "" && FirstStep(a, mode).Some? && FirstStep(a, mode).value.length == n < |a|
    ensures Leaks(a, b, mode) <==> Leaks(a[n..], b, mode)
  {
  }

  lemma ConcatReads(a: string, b: string, mode: Mode, step: Step, rest: seq<Part>, more: seq<Part>)
    requires Reads(a, mode, step, rest) && (step.length == |a| ==> !Leaks(a, b, mode))
    requires Decode(a[step.length..] + b, mode) == Some(more)
    ensures Reads(a + b, mode, step, more)
  {
    StepLocal(a, b, mode);
    assert (a + b)[step.length..] == a[step.length..] + b;
  }

  lemma ConcatStep(a: string, b: string, mode: Mode, step: Step, rest: seq<Part>, more: seq<Part>)
    requires Reads(a, mode, step, rest) && (step.length == |a| ==> !Leaks(a, b, mode))
    requires Decode(a[step.length..] + b, mode) == Some(more)
    ensures Decode(a + b, mode) == Some(step.parts + more)
  {
    ConcatReads(a, b, mode, step, rest, more);
    Fold(a + b, mode, step, more);
  }

  /** Bodies that do not leak into each other mean, joined, what they mean one after the other. */
  lemma {:induction false} DecodeConcat(a: string, b: string, mode: Mode)
    requires Decode(a, mode).Some? && Decode(b, mode).Some? && !Leaks(a, b, mode)
    ensures Decode(a + b, mode) == Some(Decode(a, mode).value + Decode(b, mode).value)
    decreases |a|, 1
  {
    if a == "" {
      assert a + b == b && [] + Decode(b, mode).value == Decode(b, mode).value;
    } else {
      var step, rest := Unfold(a, mode);
      ConcatTail(a, b, mode, step, rest);
      ConcatStep(a, b, mode, step, rest, rest + Decode(b, mode).value);
      Assoc(step.parts, rest, Decode(b, mode).value);
    }
  }

  lemma {:induction false} ConcatTail(a: string, b: string, mode: Mode, step: Step, rest: seq<Part>)
    requires Reads(a, mode, step, rest) && Decode(b, mode).Some? && !Leaks(a, b, mode)
    ensures Decode(a[step.length..] + b, mode) == Some(rest + Decode(b, mode).value)
    decreases |a|, 0
  {
    if step.length < |a| {
      TailLeaks(a, b, mode, step.length);
      DecodeConcat(a[step.length..], b, mode);
    } else {
      assert a[step.length..] == "" && "" + b == b;
      assert rest == [] && [] + Decode(b, mode).value == Decode(b, mode).value;
    }
  }

  lemma {:induction false} DigitsAreOnePartEach(b: string, mode: Mode, k: nat)
    requires Decode(b, mode).Some? && k <= |b| && forall i :: 0 <= i < k ==> IsOctal(b[i])
    ensures Decode(b[k..], mode).Some? && |Decode(b, mode).value| == k + |Decode(b[k..], mode).value|
    decreases k
  {
    if k > 0 {
      var step, rest := Unfold(b, mode);
      assert IsOctal(b[0]) && step.length == 1 && |step.parts| == 1;
      DigitsAreOnePartEach(b[1..], mode, k - 1);
      assert b[1..][k - 1..] == b[k..];
    }
  }

  /** An octal escape at the very end of `a` takes digits of `b` with it. */
  lemma OpenEscapeGrows(a: string, b: string, mode: Mode)
    requires Leaks(a, b, mode) && FirstStep(a, mode).value.length == |a|
    ensures var step := FirstStep(a + b, mode);
      && step.Some? && |step.value.parts| == 1
      && |a| < step.value.length <= |a + b|
      && forall i :: 0 <= i < step.value.length - |a| ==> IsOctal(b[i])
  {
    var s := a + b;
    assert s[0] == a[0] && s[1] == a[1];
    var n := OctalRun(s[1..], 3);
    assert forall i :: 0 <= i < |a| - 1 ==> s[1..][i] == a[1..][i];
    assert s[1..][|a| - 1] == b[0];
    assert forall i :: 0 <= i < n ==> IsOctal(s[1..][i]);
    assert forall i :: 0 <= i < n + 1 - |a| ==> b[i] == s[1..][i + |a| - 1];
  }

  lemma LeakAtEnd(a: string, b: string, mode: Mode)
    requires Decode(a, mode).Some? && Decode(b, mode).Some? && Leaks(a, b, mode)
    requires FirstStep(a, mode).value.length == |a|
    ensures Decode(a + b, mode).Some? && |Decode(a + b, mode).value| < |Decode(a, mode).value| + |Decode(b, mode).value|
  {
    OpenEscapeGrows(a, b, mode);
    var step := FirstStep(a + b, mode).value;
    var k := step.length - |a|;
    DigitsAreOnePartEach(b, mode, k);
    assert (a + b)[step.length..] == b[k..];
    Fold(a + b, mode, step, Decode(b[k..], mode).value);
    var head, none := Unfold(a, mode);
    assert a[head.length..] == "" && none == [];
  }

  /** Where bodies leak, the joined body means less than the two: some digits are gone. */
  lemma {:induction false} LeakShortens(a: string, b: string, mode: Mode)
    requires Decode(a, mode).Some? && Decode(b, mode).Some? && Leaks(a, b, mode)
    ensures Decode(a + b, mode).Some? && |Decode(a + b, mode).value| < |Decode(a, mode).value| + |Decode(b, mode).value|
    decreases |a|
  {
    var step, rest := Unfold(a, mode);
    if step.length == |a| {
      LeakAtEnd(a, b, mode);
    } else {
      TailLeaks(a, b, mode, step.length);
      LeakShortens(a[step.length..], b, mode);
      ConcatReads(a, b, mode, step, rest, Decode(a[step.length..] + b, mode).value);
      Fold(a + b, mode, step, Decode(a[step.length..] + b, mode).value);
    }
  }

  /** Joining two bodies keeps the value exactly when no octal escape is left open before a digit. */
  lemma JoinKeepsValueIff(a: string, b: string, mode: Mode)
    requires Decode(a, mode).Some? && Decode(b, mode).Some?
    ensures Decode(a + b, mode) == Some(Decode(a, mode).value + Decode(b, mode).value) <==> !Leaks(a, b, mode)
  {
    if Leaks(a, b, mode) { LeakShortens(a, b, mode); } else { DecodeConcat(a, b, mode); }
  }

  // ---------------------------------------------------------------- doubling braces

  /** `replace("{", "{{").replace("}", "}}")`. */
  function Doubled(s: string): string {
    if s == "" then ""
    else (if s[0] == '{' || s[0] == '}' then [s[0], s[0]] else [s[0]]) + Doubled(s[1..])
  }

  lemma {:induction false} DoubledSplit(s: string, n: nat)
    requires n <= |s| && forall i :: 0 <= i < n ==> s[i] != '{' && s[i] != '}'
    ensures Doubled(s) == s[..n] + Doubled(s[n..])
  {
    if n > 0 {
      DoubledSplit(s[1..], n - 1);
      assert s[1..][n - 1..] == s[n..] && s[..n] == [s[0]] + s[1..][..n - 1];
    }
  }

  lemma DoubledFirst(s: string)
    requires s != ""
    ensures Doubled(s) != "" && Doubled(s)[0] == s[0]
  {
  }

  /** An escape holds no brace, and is the same escape before doubled text. */
  lemma EscapeDoubled(s: string)
    requires s != "" && s[0] == '\\' && EscapeStep(s).Some?
    ensures EscapeStep(Doubled(s)) == EscapeStep(s)
    ensures forall i :: 0 <= i < EscapeStep(s).value.length ==> s[i] != '{' && s[i] != '}'
  {
    var c := s[1];
    SecondSurvives(s);
    if IsOctal(c) {
      OctalEscapeDoubled(s);
    } else if HexLength(c) > 0 {
      HexEscapeDoubled(s);
    }
  }

  lemma SecondSurvives(s: string)
    requires |s| > 1 && s[0] == '\\'
    ensures |Doubled(s)| > 1 && Doubled(s)[0] == s[0] && Doubled(s)[1] == s[1]
    ensures Doubled(s)[1..] == Doubled(s[1..])
  {
    DoubledSplit(s, 1);
    DoubledFirst(s[1..]);
  }

  lemma OctalEscapeDoubled(s: string)
    requires |s| > 1 && s[0] == '\\' && IsOctal(s[1])
    ensures EscapeStep(Doubled(s)) == EscapeStep(s)
    ensures forall i :: 0 <= i < EscapeStep(s).value.length ==> s[i] != '{' && s[i] != '}'
  {
    SecondSurvives(s);
    var n, d := 1 + OctalRun(s[1..], 3), Doubled(s);
    OctalDoubled(s[1..], 3);
    forall i | 0 <= i < n ensures s[i] != '{' && s[i] != '}' {
      if i >= 1 { assert IsOctal(s[1..][i - 1]); }
    }
    DoubledSplit(s, n);
    assert d[1..n] == s[1..n];
  }

  lemma HexEscapeNoBrace(s: string)
    requires |s| > 1 && s[0] == '\\' && !IsOctal(s[1]) && HexLength(s[1]) > 0 && EscapeStep(s).Some?
    ensures EscapeStep(s).value.length == 2 + HexLength(s[1]) <= |s|
    ensures forall i :: 0 <= i < 2 + HexLength(s[1]) ==> s[i] != '{' && s[i] != '}'
  {
    var n := 2 + HexLength(s[1]);
    HexHasNoBrace(s[2..n]);
    forall i | 0 <= i < n ensures s[i] != '{' && s[i] != '}' {
      if i >= 2 { assert s[2..n][i - 2] == s[i]; }
    }
  }

  lemma SameHexEscape(s: string, d: string)
    requires |s| > 1 && s[0] == '\\' && !IsOctal(s[1]) && HexLength(s[1]) > 0 && EscapeStep(s).Some?
    requires var n := 2 + HexLength(s[1]); n <= |s| && n <= |d| && d[..n] == s[..n]
    ensures EscapeStep(d) == EscapeStep(s)
  {
    var n := 2 + HexLength(s[1]);
    assert d[0] == d[..n][0] && d[1] == d[..n][1];
    assert d[2..n] == d[..n][2..] && s[2..n] == s[..n][2..];
  }

  lemma HexEscapeDoubled(s: string)
    requires |s| > 1 && s[0] == '\\' && !IsOctal(s[1]) && HexLength(s[1]) > 0 && EscapeStep(s).Some?
    ensures EscapeStep(Doubled(s)) == EscapeStep(s)
    ensures forall i :: 0 <= i < EscapeStep(s).value.length ==> s[i] != '{' && s[i] != '}'
  {
    HexEscapeNoBrace(s);
    DoubledSplit(s, 2 + HexLength(s[1]));
    SameHexEscape(s, Doubled(s));
  }

  lemma {:induction false} OctalDoubled(s: string, limit: nat)
    ensures OctalRun(Doubled(s), limit) == OctalRun(s, limit)
    decreases limit
  {
    if limit > 0 && s != "" {
      DoubledFirst(s);
      if IsOctal(s[0]) {
        OctalDoubled(s[1..], limit - 1);
        assert Doubled(s)[1..] == Doubled(s[1..]);
      }
    }
  }

  lemma {:induction false} HexHasNoBrace(s: string)
    requires Hex(s).Some?
    ensures forall i :: 0 <= i < |s| ==> s[i] != '{' && s[i] != '}'
  {
    if s != "" {
      HexHasNoBrace(s[..|s| - 1]);
      assert DigitValue(s[|s| - 1]).Some?;
      forall i | 0 <= i < |s| ensures s[i] != '{' && s[i] != '}' {
        if i < |s| - 1 { assert s[..|s| - 1][i] == s[i]; }
      }
    }
  }

  /** The first element of doubled text means what it meant before, and what follows it is doubled text. */
  lemma StepDoubled(s: string)
    requires s != "" && FirstStep(s, Plain).Some?
    ensures var step, doubled := FirstStep(s, Plain).value, FirstStep(Doubled(s), Formatted);
      && 0 < step.length <= |s|
      && doubled.Some? && doubled.value.parts == step.parts
      && 0 < doubled.value.length <= |Doubled(s)|
      && Doubled(s)[doubled.value.length..] == Doubled(s[step.length..])
  {
    StepBounds(s, Plain);
    var n := FirstStep(s, Plain).value.length;
    DoubledFirst(s);
    if s[0] == '\\' {
      EscapeDoubled(s);
      DoubledSplit(s, n);
    }
  }

  /** Reading doubled text as an f-string undoes the doubling. */
  lemma {:induction false} DoublingIsUndone(s: string)
    requires Decode(s, Plain).Some?
    ensures Decode(Doubled(s), Formatted) == Decode(s, Plain)
    decreases |s|
  {
    if s != "" {
      var step, rest := Unfold(s, Plain);
      StepDoubled(s);
      DoublingIsUndone(s[step.length..]);
      Fold(Doubled(s), Formatted, FirstStep(Doubled(s), Formatted).value, rest);
    }
  }

  // ---------------------------------------------------------------- merging a run

  /** A literal: `formatted` tells an f-string, the prefix is what stands before the quote. */
  datatype Literal = Literal(formatted: bool, prefix: string, quote: string, body: string)

  predicate Holds(prefix: string, lower: char, upper: char) { lower in prefix || upper in prefix }

  predicate IsBytes(l: Literal) { Holds(l.prefix, 'b', 'B') }

  predicate IsRaw(l: Literal) { Holds(l.prefix, 'r', 'R') }

  function LowerPrefix(s: string): (r: string)
    ensures |r| == |s|
    ensures forall i :: 0 <= i < |s| ==> (r[i] == 'r' <==> s[i] == 'r' || s[i] == 'R')
  {
    seq(|s|, i requires 0 <= i < |s| => if 'A' <= s[i] <= 'Z' then s[i] - 'A' + 'a' else s[i])
  }

  function ModeOf(l: Literal): Mode {
    if IsRaw(l) then Raw else if l.formatted then Formatted else Plain
  }

  function Meaning(l: Literal): Option<seq<Part>> {
    Decode(l.body, ModeOf(l))
  }

  function BodyIn(l: Literal, fold: bool): string {
    if fold && !l.formatted then Doubled(l.body) else l.body
  }

  function MergedBody(run: seq<Literal>, fold: bool): string {
    if run == [] then "" else BodyIn(run[0], fold) + MergedBody(run[1..], fold)
  }

  /** What a run of adjacent literals means: one after the other. */
  function RunMeaning(run: seq<Literal>): Option<seq<Part>> {
    if run == [] then Some([])
    else match (Meaning(run[0]), RunMeaning(run[1..]))
      case (Some(a), Some(b)) => Some(a + b)
      case _ => None
  }

  /** `_merge_string_run`: what is merged, and how. */
  method MergeRun(run: seq<Literal>) returns (merged: Option<Literal>)
    requires run != []
    ensures merged.Some? ==>
      Merges(run, merged.value) && (merged.value.formatted <==> exists i :: 0 <= i < |run| && run[i].formatted)
    ensures merged.None? <==>
      || (exists i :: 0 <= i < |run| && IsBytes(run[i]))
      || (exists i :: 0 <= i < |run| && run[i].quote != run[0].quote)
      || (if exists i :: 0 <= i < |run| && run[i].formatted
          then (forall i :: 0 <= i < |run| ==> run[i].formatted) || exists i :: 0 <= i < |run| && IsRaw(run[i])
          else exists i :: 0 <= i < |run| && LowerPrefix(run[i].prefix) != LowerPrefix(run[0].prefix))
  {
    if exists i :: 0 <= i < |run| && IsBytes(run[i]) { return None; }
    if exists i :: 0 <= i < |run| && run[i].quote != run[0].quote { return None; }
    if !exists i :: 0 <= i < |run| && run[i].formatted {
      if exists i :: 0 <= i < |run| && LowerPrefix(run[i].prefix) != LowerPrefix(run[0].prefix) { return None; }
      var body := Concat(run, false);
      return Some(Literal(false, run[0].prefix, run[0].quote, body));
    }
    if forall i :: 0 <= i < |run| ==> run[i].formatted { return None; }
    if exists i :: 0 <= i < |run| && IsRaw(run[i]) { return None; }
    var body := Concat(run, true);
    merged := Some(Literal(true, "f", run[0].quote, body));
  }

  /** The two shapes a merge can take. */
  predicate Merges(run: seq<Literal>, merged: Literal) {
    && run != []
    && (forall i :: 0 <= i < |run| ==> run[i].quote == merged.quote)
    && if merged.formatted
       then && merged.prefix == "f" && merged.body == MergedBody(run, true)
            && (forall i :: 0 <= i < |run| ==> !IsRaw(run[i]))
       else && merged.prefix == run[0].prefix && merged.body == MergedBody(run, false)
            && (forall i :: 0 <= i < |run| ==> !run[i].formatted && (IsRaw(run[i]) <==> IsRaw(merged)))
  }

  /** The join over the pieces. */
  method Concat(run: seq<Literal>, fold: bool) returns (body: string)
    ensures body == MergedBody(run, fold)
  {
    body := "";
    for i := 0 to |run|
      invariant body + MergedBody(run[i..], fold) == MergedBody(run, fold)
    {
      assert run[i..][0] == run[i] && run[i..][1..] == run[i + 1..];
      body := body + BodyIn(run[i], fold);
    }
  }

  /** No piece ends in an octal escape that the text after it would lengthen. */
  predicate NoLeaks(run: seq<Literal>, fold: bool, mode: Mode) {
    run == [] || (!Leaks(BodyIn(run[0], fold), MergedBody(run[1..], fold), mode) && NoLeaks(run[1..], fold, mode))
  }

  /** Each piece means in the merged literal what it meant on its own. */
  predicate Fits(l: Literal, fold: bool, mode: Mode) {
    if fold then mode == Formatted && !IsRaw(l) else mode == ModeOf(l)
  }

  lemma PieceKeepsMeaning(l: Literal, fold: bool, mode: Mode)
    requires Fits(l, fold, mode) && Meaning(l).Some?
    ensures Decode(BodyIn(l, fold), mode) == Meaning(l)
  {
    if fold && !l.formatted { DoublingIsUndone(l.body); }
  }

  /** The merged body never means more than the run, and as much exactly when nothing leaks. */
  lemma {:induction false} MergedMeaning(run: seq<Literal>, fold: bool, mode: Mode)
    requires RunMeaning(run).Some? && forall i :: 0 <= i < |run| ==> Fits(run[i], fold, mode)
    ensures Decode(MergedBody(run, fold), mode).Some?
    ensures |Decode(MergedBody(run, fold), mode).value| <= |RunMeaning(run).value|
    ensures if NoLeaks(run, fold, mode) then Decode(MergedBody(run, fold), mode) == RunMeaning(run)
            else |Decode(MergedBody(run, fold), mode).value| < |RunMeaning(run).value|
  {
    if run != [] {
      PieceKeepsMeaning(run[0], fold, mode);
      MergedMeaning(run[1..], fold, mode);
      var a, b := BodyIn(run[0], fold), MergedBody(run[1..], fold);
      if Leaks(a, b, mode) { LeakShortens(a, b, mode); } else { DecodeConcat(a, b, mode); }
    }
  }

  /** A merge means what the run meant exactly when no octal escape is left open before a digit. */
  lemma MergeKeepsValueIff(run: seq<Literal>, merged: Literal)
    requires Merges(run, merged) && RunMeaning(run).Some?
    ensures Meaning(merged) == RunMeaning(run) <==> NoLeaks(run, merged.formatted, ModeOf(merged))
  {
    MergedMeaning(run, merged.formatted, ModeOf(merged));
  }

  lemma OpenOctal()
    ensures Decode("\\1", Plain).Some? && EndsOpen("\\1", Plain)
  {
    var a := "\\1";
    assert a[1..][1..] == "" && OctalRun(a[1..], 3) == 1;
    assert FirstStep(a, Plain).Some? && FirstStep(a, Plain).value.length == 2;
    assert a[2..] == "";
    Fold(a, Plain, FirstStep(a, Plain).value, []);
  }

  /** Such a run exists: an escape for code 1 before a digit 2 is merged into an escape for code 10. */
  lemma MergeCanChangeValue() returns (run: seq<Literal>, merged: Literal)
    ensures Merges(run, merged) && RunMeaning(run).Some? && Meaning(merged) != RunMeaning(run)
  {
    var a, b := "\\1", "2";
    run := [Literal(false, "", "'", a), Literal(false, "", "'", b)];
    merged := Literal(false, "", "'", a + MergedBody(run[1..], false));
    OpenOctal();
    assert b[1..] == "" && Decode(b, Plain).Some?;
    assert run[1..] == [run[1]] && run[1..][1..] == [] && MergedBody([run[1]], false) == b + "";
    assert RunMeaning([run[1]]).Some?;
    MergeKeepsValueIff(run, merged);
  }
}
