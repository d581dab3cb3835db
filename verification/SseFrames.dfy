/**
 * One frame of the event stream that scripts/benchmark-helix-v3-source-runtime.py replays: the
 * fields of a block of lines, the bounded JSON envelope, and the canonical way to print an event.
 */
module SseFrames {
  import opened Wrappers
  import opened Text

  /** Parsed JSON; the members of an object have distinct names. */
  datatype Json =
    | Scalar(text: string)
    | Bool(truth: bool)
    | Num(value: int)
    | Str(s: string)
    | Arr(items: seq<Json>)
    | Obj(members: seq<Member>)

  datatype Member = Member(name: string, value: Json)

  const MAX_JSON_DEPTH := 32
  const TRACE_EVENT_TYPE := "optimization.trace"

  // ---------------------------------------------------------------- nesting

  function Max(a: nat, b: nat): nat { if a < b then b else a }

  /** Nesting depth: nothing for scalars, one more than the deepest item for containers. */
  function Depth(v: Json): nat {
    match v
    case Arr(items) => 1 + DepthOfItems(items)
    case Obj(members) => 1 + DepthOfMembers(members)
    case _ => 0
  }

  function DepthOfItems(items: seq<Json>): nat {
    if items == [] then 0 else Max(Depth(items[0]), DepthOfItems(items[1..]))
  }

  function DepthOfMembers(members: seq<Member>): nat {
    if members == [] then 0 else Max(Depth(members[0].value), DepthOfMembers(members[1..]))
  }

  /** `_json_depth`: None stands for the exception; `level` counts the way down. */
  method JsonDepth(v: Json, limit: nat, level: nat) returns (r: Option<nat>)
    ensures r.Some? ==> r.value == Depth(v) && Depth(v) <= limit
    ensures Depth(v) > limit ==> r.None?
    ensures r.None? ==> level + Depth(v) > limit
    decreases v
  {
    if level > limit { return None; }
    var depth: nat := 0;
    match v {
      case Arr(items) =>
        for i := 0 to |items|
          invariant Max(depth, DepthOfItems(items[i..])) == DepthOfItems(items)
        {
          assert items[i..][0] == items[i] && items[i..][1..] == items[i + 1..];
          DeepestItem(items, i);
          var inner := JsonDepth(items[i], limit, level + 1);
          if inner.None? { return None; }
          depth := Max(depth, inner.value);
        }
      case Obj(members) =>
        for i := 0 to |members|
          invariant Max(depth, DepthOfMembers(members[i..])) == DepthOfMembers(members)
        {
          assert members[i..][0] == members[i] && members[i..][1..] == members[i + 1..];
          DeepestMember(members, i);
          var inner := JsonDepth(members[i].value, limit, level + 1);
          if inner.None? { return None; }
          depth := Max(depth, inner.value);
        }
      case _ => return Some(0);
    }
    r := if 1 + depth > limit then None else Some(1 + depth);
  }

  lemma {:induction false} DeepestItem(items: seq<Json>, i: nat)
    requires i < |items|
    ensures Depth(items[i]) <= DepthOfItems(items)
  {
    if i > 0 { DeepestItem(items[1..], i - 1); }
  }

  lemma {:induction false} DeepestMember(members: seq<Member>, i: nat)
    requires i < |members|
    ensures Depth(members[i].value) <= DepthOfMembers(members)
  {
    if i > 0 { DeepestMember(members[1..], i - 1); }
  }

  /** `n` containers stand one in the other in `v`, beginning with `v`. */
  ghost predicate Nests(v: Json, n: nat)
    decreases v
  {
    || n == 0
    || (v.Arr? && (n == 1 || exists i :: 0 <= i < |v.items| && Nests(v.items[i], n - 1)))
    || (v.Obj? && (n == 1 || exists i :: 0 <= i < |v.members| && Nests(v.members[i].value, n - 1)))
  }

  lemma {:induction false} DepthOfItemsIff(items: seq<Json>, n: nat)
    ensures DepthOfItems(items) >= n <==> n == 0 || exists i :: 0 <= i < |items| && Depth(items[i]) >= n
  {
    if items != [] {
      DepthOfItemsIff(items[1..], n);
      assert forall i :: 0 < i < |items| ==> items[i] == items[1..][i - 1];
      if i :| 0 <= i < |items[1..]| && Depth(items[1..][i]) >= n { assert Depth(items[i + 1]) >= n; }
    }
  }

  lemma {:induction false} DepthOfMembersIff(members: seq<Member>, n: nat)
    ensures DepthOfMembers(members) >= n <==> n == 0 || exists i :: 0 <= i < |members| && Depth(members[i].value) >= n
  {
    if members != [] {
      DepthOfMembersIff(members[1..], n);
      assert forall i :: 0 < i < |members| ==> members[i] == members[1..][i - 1];
      if i :| 0 <= i < |members[1..]| && Depth(members[1..][i].value) >= n { assert Depth(members[i + 1].value) >= n; }
    }
  }

  /** The depth is how many containers stand one in the other. */
  lemma {:induction false} DepthIff(v: Json, n: nat)
    ensures Depth(v) >= n <==> Nests(v, n)
    decreases v
  {
    if n > 0 {
      match v
      case Arr(items) =>
        DepthOfItemsIff(items, n - 1);
        forall i | 0 <= i < |items| ensures Depth(items[i]) >= n - 1 <==> Nests(items[i], n - 1) { DepthIff(items[i], n - 1); }
      case Obj(members) =>
        DepthOfMembersIff(members, n - 1);
        forall i | 0 <= i < |members| ensures Depth(members[i].value) >= n - 1 <==> Nests(members[i].value, n - 1) {
          DepthIff(members[i].value, n - 1);
        }
      case _ =>
    }
  }

  // ---------------------------------------------------------------- private traces

  const TRACE_PRIVATE_KEY := "_helix_optimization_trace_v1"
  const PRIVATE_PREFIX := "_helix_optimization_trace"
  const PRIVATE_KEYS: set<string> := {
    TRACE_PRIVATE_KEY, "optimization.trace", "optimization_trace", "access_token", "refresh_token", "authorization",
    "password", "secret", "token"}

  predicate PrivateName(name: string) {
    name in PRIVATE_KEYS || PRIVATE_PREFIX <= name
  }

  predicate PrivateText(s: string) {
    HasPart(s, TRACE_EVENT_TYPE) || HasPart(s, TRACE_PRIVATE_KEY)
  }

  /** What the search of a value finds. */
  predicate Private(v: Json) {
    match v
    case Obj(members) => PrivateMembers(members)
    case Arr(items) => PrivateItems(items)
    case Str(s) => PrivateText(s)
    case _ => false
  }

  predicate PrivateItems(items: seq<Json>) {
    items != [] && (Private(items[0]) || PrivateItems(items[1..]))
  }

  predicate PrivateMembers(members: seq<Member>) {
    members != [] && (PrivateName(members[0].name) || Private(members[0].value) || PrivateMembers(members[1..]))
  }

  /** `_contains_private_trace`. */
  method ContainsPrivateTrace(v: Json) returns (found: bool)
    ensures found == Private(v)
    decreases v
  {
    match v {
      case Obj(members) =>
        for i := 0 to |members|
          invariant PrivateMembers(members[i..]) == PrivateMembers(members)
        {
          assert members[i..][0] == members[i] && members[i..][1..] == members[i + 1..];
          if PrivateName(members[i].name) { return true; }
          found := ContainsPrivateTrace(members[i].value);
          if found { return; }
        }
      case Arr(items) =>
        for i := 0 to |items|
          invariant PrivateItems(items[i..]) == PrivateItems(items)
        {
          assert items[i..][0] == items[i] && items[i..][1..] == items[i + 1..];
          found := ContainsPrivateTrace(items[i]);
          if found { return; }
        }
      case Str(s) => return PrivateText(s);
      case _ =>
    }
    found := false;
  }

  /** `x` stands somewhere in `v`. */
  ghost predicate Within(x: Json, v: Json)
    decreases v
  {
    || x == v
    || (v.Arr? && exists i :: 0 <= i < |v.items| && Within(x, v.items[i]))
    || (v.Obj? && exists i :: 0 <= i < |v.members| && Within(x, v.members[i].value))
  }

  /** A text that mentions the trace, or an object with a field for it or for a secret. */
  predicate Tells(x: Json) {
    || (x.Str? && PrivateText(x.s))
    || (x.Obj? && exists i :: 0 <= i < |x.members| && PrivateName(x.members[i].name))
  }

  ghost predicate SomeTells(v: Json) {
    exists x :: Within(x, v) && Tells(x)
  }

  lemma {:induction false} PrivateItemsIff(items: seq<Json>)
    ensures PrivateItems(items) <==> exists i :: 0 <= i < |items| && Private(items[i])
  {
    if items != [] {
      PrivateItemsIff(items[1..]);
      assert forall i :: 0 < i < |items| ==> items[i] == items[1..][i - 1];
      if i :| 0 <= i < |items[1..]| && Private(items[1..][i]) { assert Private(items[i + 1]); }
    }
  }

  lemma {:induction false} PrivateMembersIff(members: seq<Member>)
    ensures PrivateMembers(members) <==>
      exists i :: 0 <= i < |members| && (PrivateName(members[i].name) || Private(members[i].value))
  {
    if members != [] {
      var rest := members[1..];
      PrivateMembersIff(rest);
      assert forall i :: 0 < i < |members| ==> members[i] == rest[i - 1];
      if i :| 0 <= i < |rest| && (PrivateName(rest[i].name) || Private(rest[i].value)) {
        assert members[i + 1] == rest[i];
      }
    }
  }

  /** The search finds something exactly if anything in the value, at any depth, tells of the trace. */
  lemma {:induction false} PrivateIff(v: Json)
    ensures Private(v) <==> SomeTells(v)
    decreases v
  {
    match v
    case Arr(items) =>
      PrivateItemsIff(items);
      forall i | 0 <= i < |items| ensures Private(items[i]) <==> SomeTells(items[i]) { PrivateIff(items[i]); }
      TellsInItems(v);
    case Obj(members) =>
      PrivateMembersIff(members);
      forall i | 0 <= i < |members| ensures Private(members[i].value) <==> SomeTells(members[i].value) {
        PrivateIff(members[i].value);
      }
      TellsInMembers(v);
    case _ => assert Within(v, v);
  }

  lemma TellsInItems(v: Json)
    requires v.Arr?
    ensures SomeTells(v) <==> exists i :: 0 <= i < |v.items| && SomeTells(v.items[i])
  {
    if i :| 0 <= i < |v.items| && SomeTells(v.items[i]) {
      var x :| Within(x, v.items[i]) && Tells(x);
      assert Within(x, v);
    }
    if x :| Within(x, v) && Tells(x) {
      var i :| 0 <= i < |v.items| && Within(x, v.items[i]);
      assert SomeTells(v.items[i]);
    }
  }

  lemma TellsInMembers(v: Json)
    requires v.Obj?
    ensures SomeTells(v) <==>
      exists i :: 0 <= i < |v.members| && (PrivateName(v.members[i].name) || SomeTells(v.members[i].value))
  {
    if i :| 0 <= i < |v.members| && SomeTells(v.members[i].value) {
      var x :| Within(x, v.members[i].value) && Tells(x);
      assert Within(x, v);
    }
    if i :| 0 <= i < |v.members| && PrivateName(v.members[i].name) {
      assert Within(v, v) && Tells(v);
    }
    if x :| Within(x, v) && Tells(x) {
      if x != v {
        var i :| 0 <= i < |v.members| && Within(x, v.members[i].value);
        assert SomeTells(v.members[i].value);
      }
    }
  }

  // ---------------------------------------------------------------- fields of a block

  datatype Fields = Fields(event: Option<string>, id: Option<string>, data: seq<string>)

  /** Lines 1264-1272: comments and unknown fields are skipped, a later event or id wins. */
  function Read(lines: seq<string>): Fields {
    if lines == [] then Fields(None, None, [])
    else
      var before, line := Read(lines[..|lines| - 1]), lines[|lines| - 1];
      if ":" <= line then before
      else if "event:" <= line then before.(event := Some(Strip(line[6..])))
      else if "id:" <= line then before.(id := Some(Strip(line[3..])))
      else if "data:" <= line then before.(data := before.data + [StripLeft(line[5..])])
      else before
  }

  predicate IsDigit(c: char) { '0' <= c <= '9' }

  predicate IsDigits(s: string) {
    s != "" && forall i :: 0 <= i < |s| ==> IsDigit(s[i])
  }

  function Decimal(s: string): nat
    requires forall i :: 0 <= i < |s| ==> IsDigit(s[i])
  {
    if s == "" then 0 else (assert IsDigit(s[|s| - 1]); 10 * Decimal(s[..|s| - 1]) + (s[|s| - 1] as int - '0' as int))
  }

  /** Line `i` is the last one that begins with `prefix`. */
  predicate LastWith(lines: seq<string>, prefix: string, i: nat) {
    i < |lines| && prefix <= lines[i] && forall j :: i < j < |lines| ==> !(prefix <= lines[j])
  }

  predicate NoneWith(lines: seq<string>, prefix: string) {
    forall j :: 0 <= j < |lines| ==> !(prefix <= lines[j])
  }

  /** How many of the first `i` lines are data. */
  function DataBefore(lines: seq<string>, i: nat): nat
    requires i <= |lines|
  {
    if i == 0 then 0 else DataBefore(lines, i - 1) + (if "data:" <= lines[i - 1] then 1 else 0)
  }

  /** `value` is what the last line with `prefix` gives, if there is one. */
  ghost predicate GivenLast(lines: seq<string>, prefix: string, value: Option<string>) {
    && (NoneWith(lines, prefix) ==> value == None)
    && (forall i: nat :: LastWith(lines, prefix, i) ==> value == Some(Strip(lines[i][|prefix|..])))
  }

  /** Line `i` gives the data item that the data lines before it leave to it. */
  predicate GivenAt(lines: seq<string>, data: seq<string>, i: nat)
    requires i < |lines| && "data:" <= lines[i]
  {
    var k := DataBefore(lines, i);
    k < |data| && data[k] == StripLeft(lines[i][5..])
  }

  /** `data` is what the data lines give, in order. */
  predicate GivenInOrder(lines: seq<string>, data: seq<string>) {
    && |data| == DataBefore(lines, |lines|)
    && (forall i :: 0 <= i < |lines| && "data:" <= lines[i] ==> GivenAt(lines, data, i))
  }

  lemma {:induction false} DataBeforeFront(lines: seq<string>, line: string, i: nat)
    requires i <= |lines|
    ensures DataBefore(lines + [line], i) == DataBefore(lines, i)
  {
    if i > 0 { DataBeforeFront(lines, line, i - 1); }
  }

  lemma PrefixesApart(line: string)
    ensures "event:" <= line ==> !(":" <= line) && !("id:" <= line) && !("data:" <= line)
    ensures "id:" <= line ==> !(":" <= line) && !("data:" <= line)
    ensures "data:" <= line ==> !(":" <= line)
  {
    assert "event:" <= line ==> line[0] == "event:"[0];
    assert "id:" <= line ==> line[0] == "id:"[0];
    assert "data:" <= line ==> line[0] == "data:"[0];
    assert ":" <= line ==> line[0] == ":"[0];
  }

  lemma LastWithNext(lines: seq<string>, line: string, prefix: string)
    ensures NoneWith(lines + [line], prefix) <==> NoneWith(lines, prefix) && !(prefix <= line)
    ensures forall i: nat :: LastWith(lines + [line], prefix, i) <==>
      if prefix <= line then i == |lines| else LastWith(lines, prefix, i)
  {
    var all := lines + [line];
    assert all[|lines|] == line && forall j :: 0 <= j < |lines| ==> all[j] == lines[j];
  }

  lemma GivenLastNext(lines: seq<string>, line: string, prefix: string, value: Option<string>)
    requires GivenLast(lines, prefix, value)
    ensures GivenLast(lines + [line], prefix, if prefix <= line then Some(Strip(line[|prefix|..])) else value)
  {
    LastWithNext(lines, line, prefix);
  }

  lemma GivenAtNext(lines: seq<string>, line: string, data: seq<string>, more: seq<string>, i: nat)
    requires i < |lines| && "data:" <= lines[i] && GivenAt(lines, data, i)
    ensures (lines + [line])[i] == lines[i] && GivenAt(lines + [line], data + more, i)
  {
    DataBeforeFront(lines, line, i);
  }

  lemma GivenInOrderNext(lines: seq<string>, line: string, data: seq<string>)
    requires GivenInOrder(lines, data)
    ensures GivenInOrder(lines + [line], if "data:" <= line then data + [StripLeft(line[5..])] else data)
  {
    var all, more := lines + [line], if "data:" <= line then [StripLeft(line[5..])] else [];
    DataBeforeFront(lines, line, |lines|);
    assert data + [] == data && all[|lines|] == line;
    forall i | 0 <= i < |all| && "data:" <= all[i] ensures GivenAt(all, data + more, i) {
      if i < |lines| {
        GivenAtNext(lines, line, data, more, i);
      } else {
        GivenAtLast(lines, line, data);
      }
    }
  }

  lemma GivenAtLast(lines: seq<string>, line: string, data: seq<string>)
    requires |data| == DataBefore(lines, |lines|) && "data:" <= line
    ensures (lines + [line])[|lines|] == line && GivenAt(lines + [line], data + [StripLeft(line[5..])], |lines|)
  {
    DataBeforeFront(lines, line, |lines|);
  }

  /** Event and id are from the last line that gives them. */
  lemma {:induction false} ReadGivesLast(lines: seq<string>)
    ensures GivenLast(lines, "event:", Read(lines).event) && GivenLast(lines, "id:", Read(lines).id)
  {
    if lines != [] {
      var before, line := lines[..|lines| - 1], lines[|lines| - 1];
      assert lines == before + [line];
      ReadGivesLast(before);
      PrefixesApart(line);
      GivenLastNext(before, line, "event:", Read(before).event);
      GivenLastNext(before, line, "id:", Read(before).id);
    }
  }

  /** The data is from every line that gives some, in order. */
  lemma {:induction false} ReadGivesData(lines: seq<string>)
    ensures GivenInOrder(lines, Read(lines).data)
  {
    if lines != [] {
      var before, line := lines[..|lines| - 1], lines[|lines| - 1];
      assert lines == before + [line];
      ReadGivesData(before);
      PrefixesApart(line);
      GivenInOrderNext(before, line, Read(before).data);
    }
  }

  // ---------------------------------------------------------------- cursors

  function Digit(n: nat): char
    requires n < 10
  {
    '0' + n as char
  }

  function Digits(n: nat): string {
    if n < 10 then [Digit(n)] else Digits(n / 10) + [Digit(n % 10)]
  }

  /** A cursor is read as the number it is written for. */
  lemma {:induction false} DecimalOfDigits(n: nat)
    ensures IsDigits(Digits(n)) && Decimal(Digits(n)) == n
  {
    if n < 10 {
      assert Digits(n)[..0] == "";
    } else {
      DecimalOfDigits(n / 10);
      assert Digits(n)[..|Digits(n)| - 1] == Digits(n / 10);
    }
  }

  // ---------------------------------------------------------------- the envelope

  function Get(members: seq<Member>, key: string): Option<Json> {
    if members == [] then None
    else if members[0].name == key then Some(members[0].value)
    else Get(members[1..], key)
  }

  function Names(members: seq<Member>): set<string> {
    set m | m in members :: m.name
  }

  /** An accepted event, as it is handed on. */
  datatype Event = Event(event: string, id: string, cursor: nat, payload: Json, run: Option<Json>)

  /** JSON text to value, None where it is malformed. */
  datatype Reader = Reader(parse: string -> Option<Json>)

  datatype Verdict = Nothing | Refused | Emits(event: Event)

  /** The only fields an envelope may have: chunks carry no run, everything else does. */
  function ExpectedNames(event: string): set<string> {
    {"seq", "type", "payload", "createdAt"} + (if event == "chunk" then {} else {"run"})
  }

  /** Lines 1287-1312: the envelope has exactly the expected fields, and they agree with the wire. */
  predicate Canonical(v: Json, event: string, cursor: nat) {
    && v.Obj?
    && Names(v.members) == ExpectedNames(event)
    && Get(v.members, "seq") == Some(Num(cursor))
    && event != "" && Get(v.members, "type") == Some(Str(event))
    && (match Get(v.members, "createdAt") case Some(t) => t.Num? case None => false)
    && (match Get(v.members, "payload") case Some(p) => p.Obj? case None => false)
    && (event != "chunk" ==> match Get(v.members, "run") case Some(r) => r.Obj? case None => false)
  }

  /** What a block says on its own, before its cursor is compared with the one before. */
  function Judge(r: Reader, lines: seq<string>): Verdict {
    var f := Read(lines);
    if f.data == [] then (if f.id.Some? then Refused else Nothing)
    else match r.parse(Join(f.data, "\n"))
      case None => Refused
      case Some(v) =>
        if Depth(v) > MAX_JSON_DEPTH || Private(v) then Refused
        else if f.event.None? || f.event == Some(TRACE_EVENT_TYPE) then Refused
        else if f.id.None? || !IsDigits(f.id.value) then Refused
        else if !Canonical(v, f.event.value, Decimal(f.id.value)) then Refused
        else Emits(Event(f.event.value, f.id.value, Decimal(f.id.value), Get(v.members, "payload").value,
                         if f.event.value == "chunk" then None else Get(v.members, "run")))
  }

  /** The reading loop and the checks of `consume_block` (1256-1312). */
  method ReadBlock(r: Reader, lines: seq<string>) returns (verdict: Verdict)
    ensures verdict == Judge(r, lines)
  {
    var event, id, data := None, None, [];
    for i := 0 to |lines|
      invariant Read(lines[..i]) == Fields(event, id, data)
    {
      var line := lines[i];
      assert lines[..i + 1][..i] == lines[..i] && lines[..i + 1][i] == line;
      if ":" <= line {
      } else if "event:" <= line {
        event := Some(Strip(line[6..]));
      } else if "id:" <= line {
        id := Some(Strip(line[3..]));
      } else if "data:" <= line {
        data := data + [StripLeft(line[5..])];
      }
    }
    assert lines[..|lines|] == lines;
    if data == [] { return if id.Some? then Refused else Nothing; }
    var parsed := r.parse(Join(data, "\n"));
    if parsed.None? { return Refused; }
    var v := parsed.value;
    var depth := JsonDepth(v, MAX_JSON_DEPTH, 0);
    if depth.None? { return Refused; }
    var private := ContainsPrivateTrace(v);
    if private || event == Some(TRACE_EVENT_TYPE) || event.None? { return Refused; }
    if id.None? || !IsDigits(id.value) { return Refused; }
    var cursor := Decimal(id.value);
    if !Canonical(v, event.value, cursor) { return Refused; }
    verdict := Emits(Event(event.value, id.value, cursor, Get(v.members, "payload").value,
                           if event.value == "chunk" then None else Get(v.members, "run")));
  }

  /**
   * `v` is an envelope for the event `e`: an object with the five fields, or four for a chunk, and no
   * other, that agrees with the wire; not too deep, and nothing in it tells of the private trace.
   */
  ghost predicate IsEnvelopeOf(v: Json, e: Event) {
    && v.Obj? && Depth(v) <= 32 && !SomeTells(v)
    && (forall m :: m in v.members ==> m.name in {"seq", "type", "payload", "createdAt", "run"})
    && Get(v.members, "seq") == Some(Num(e.cursor))
    && Get(v.members, "type") == Some(Str(e.event))
    && Get(v.members, "payload") == Some(e.payload) && e.payload.Obj?
    && Get(v.members, "createdAt").Some? && Get(v.members, "createdAt").value.Num?
    && Get(v.members, "run") == e.run
    && (if e.event == "chunk" then e.run.None? else e.run.Some? && e.run.value.Obj?)
  }

  lemma {:induction false} GetNames(members: seq<Member>, key: string)
    ensures Get(members, key).Some? <==> key in Names(members)
  {
    if members != [] {
      GetNames(members[1..], key);
      NamesCons(members[0], members[1..]);
      assert members == [members[0]] + members[1..];
    }
  }

  lemma NamesWithin(members: seq<Member>, names: set<string>)
    ensures Names(members) <= names <==> forall m :: m in members ==> m.name in names
  {
    if Names(members) <= names {
      forall m | m in members ensures m.name in names { assert m.name in Names(members); }
    }
  }

  lemma CanonicalIff(v: Json, e: Event)
    requires v.Obj? && Depth(v) <= 32 && !SomeTells(v) && e.event != ""
    ensures IsEnvelopeOf(v, e) <==>
      && Canonical(v, e.event, e.cursor) && Get(v.members, "payload") == Some(e.payload)
      && e.run == (if e.event == "chunk" then None else Get(v.members, "run"))
  {
    var all := {"seq", "type", "payload", "createdAt", "run"};
    NamesWithin(v.members, all);
    GetNames(v.members, "seq");
    GetNames(v.members, "type");
    GetNames(v.members, "payload");
    GetNames(v.members, "createdAt");
    GetNames(v.members, "run");
    assert ExpectedNames(e.event) == if e.event == "chunk" then all - {"run"} else all;
  }

  /** A block emits an event if and only if its data parses to an envelope for it and its id and event lines say the same. */
  ghost predicate Announces(r: Reader, lines: seq<string>, e: Event) {
    var f := Read(lines);
    && f.event == Some(e.event) && e.event != "" && e.event != "optimization.trace"
    && f.id == Some(e.id) && IsDigits(e.id) && e.cursor == Decimal(e.id)
    && f.data != [] && r.parse(Join(f.data, "\n")).Some? && IsEnvelopeOf(r.parse(Join(f.data, "\n")).value, e)
  }

  lemma JudgeEmitsIff(r: Reader, lines: seq<string>, e: Event)
    ensures Judge(r, lines) == Emits(e) <==> Announces(r, lines, e)
  {
    var f := Read(lines);
    if f.data != [] && r.parse(Join(f.data, "\n")).Some? {
      var v := r.parse(Join(f.data, "\n")).value;
      PrivateIff(v);
      if v.Obj? && Depth(v) <= 32 && !SomeTells(v) && e.event != "" { CanonicalIff(v, e); }
    }
  }

  /** A block that is passed over holds neither data nor an id; any other that announces nothing is refused. */
  lemma JudgeNothingIff(r: Reader, lines: seq<string>)
    ensures Judge(r, lines) == Nothing <==> NoneWith(lines, "data:") && NoneWith(lines, "id:")
    ensures Judge(r, lines) == Refused <==>
      !(NoneWith(lines, "data:") && NoneWith(lines, "id:")) && forall e :: !Announces(r, lines, e)
  {
    NoDataIff(lines);
    NoIdIff(lines);
    forall e ensures Judge(r, lines) == Emits(e) <==> Announces(r, lines, e) { JudgeEmitsIff(r, lines, e); }
    if Judge(r, lines).Emits? { assert Announces(r, lines, Judge(r, lines).event); }
  }

  lemma {:induction false} NoDataIff(lines: seq<string>)
    ensures Read(lines).data == [] <==> NoneWith(lines, "data:")
  {
    if lines != [] {
      var before, line := lines[..|lines| - 1], lines[|lines| - 1];
      NoDataIff(before);
      PrefixesApart(line);
      LastWithNext(before, line, "data:");
      assert lines == before + [line];
    }
  }

  lemma {:induction false} NoIdIff(lines: seq<string>)
    ensures Read(lines).id == None <==> NoneWith(lines, "id:")
  {
    if lines != [] {
      var before, line := lines[..|lines| - 1], lines[|lines| - 1];
      NoIdIff(before);
      PrefixesApart(line);
      LastWithNext(before, line, "id:");
      assert lines == before + [line];
    }
  }

  // ---------------------------------------------------------------- printing an event

  /** What every emitted event looks like. */
  predicate WellFormed(e: Event) {
    && e.event != "" && Stripped(e.event) && e.event != TRACE_EVENT_TYPE
    && IsDigits(e.id) && e.cursor == Decimal(e.id)
    && e.payload.Obj?
    && (if e.event == "chunk" then e.run.None? else e.run.Some? && e.run.value.Obj?)
  }

  lemma {:induction false} ReadIsStripped(lines: seq<string>)
    ensures Read(lines).event.Some? ==> Stripped(Read(lines).event.value)
  {
    if lines != [] {
      ReadIsStripped(lines[..|lines| - 1]);
      var line := lines[|lines| - 1];
      if "event:" <= line { StripIsStripped(line[6..]); }
    }
  }

  lemma EmittedIsWellFormed(r: Reader, lines: seq<string>)
    requires Judge(r, lines).Emits?
    ensures WellFormed(Judge(r, lines).event)
  {
    ReadIsStripped(lines);
  }

  function RunMembers(e: Event): seq<Member> {
    if e.run.Some? then [Member("run", e.run.value)] else []
  }

  /** The canonical envelope of an event, with some creation time. */
  function Envelope(e: Event, createdAt: int): Json {
    Obj([Member("seq", Num(e.cursor))] + ([Member("type", Str(e.event))]
        + ([Member("payload", e.payload)] + ([Member("createdAt", Num(createdAt))] + RunMembers(e)))))
  }

  /** The canonical frame: id, event and data lines, without the blank line that ends it. */
  function Frame(dumps: Json -> string, e: Event, createdAt: int): seq<string> {
    ["id: " + e.id, "event: " + e.event, "data: " + dumps(Envelope(e, createdAt))]
  }

  /** The envelope can be sent: it prints and parses back, is not private and not too deep. */
  predicate Sendable(r: Reader, dumps: Json -> string, v: Json) {
    && r.parse(dumps(v)) == Some(v)
    && dumps(v) != "" && !IsSpace(dumps(v)[0])
    && !Private(v) && Depth(v) <= MAX_JSON_DEPTH
  }

  lemma GetCons(m: Member, rest: seq<Member>, key: string)
    ensures Get([m] + rest, key) == if m.name == key then Some(m.value) else Get(rest, key)
  {
    assert ([m] + rest)[1..] == rest;
  }

  lemma NamesCons(m: Member, rest: seq<Member>)
    ensures Names([m] + rest) == {m.name} + Names(rest)
  {
    var all := [m] + rest;
    forall x | x in rest ensures x in all {}
    assert all[0] in all;
  }

  lemma EnvelopeGet(e: Event, createdAt: int, key: string)
    ensures Get(Envelope(e, createdAt).members, key) ==
      if key == "seq" then Some(Num(e.cursor))
      else if key == "type" then Some(Str(e.event))
      else if key == "payload" then Some(e.payload)
      else if key == "createdAt" then Some(Num(createdAt))
      else Get(RunMembers(e), key)
  {
    var m4, m3, m2 := Member("createdAt", Num(createdAt)), Member("payload", e.payload), Member("type", Str(e.event));
    var r4 := [m4] + RunMembers(e);
    var r3 := [m3] + r4;
    GetCons(m4, RunMembers(e), key);
    GetCons(m3, r4, key);
    GetCons(m2, r3, key);
    GetCons(Member("seq", Num(e.cursor)), [m2] + r3, key);
  }

  lemma EnvelopeNames(e: Event, createdAt: int)
    ensures Names(Envelope(e, createdAt).members)
      == {"seq"} + ({"type"} + ({"payload"} + ({"createdAt"} + Names(RunMembers(e)))))
  {
    var m4, m3, m2 := Member("createdAt", Num(createdAt)), Member("payload", e.payload), Member("type", Str(e.event));
    NamesCons(m4, RunMembers(e));
    NamesCons(m3, [m4] + RunMembers(e));
    NamesCons(m2, [m3] + ([m4] + RunMembers(e)));
    NamesCons(Member("seq", Num(e.cursor)), [m2] + ([m3] + ([m4] + RunMembers(e))));
  }

  lemma RunMember(e: Event)
    ensures Get(RunMembers(e), "run") == e.run
    ensures Names(RunMembers(e)) == if e.run.Some? then {"run"} else {}
  {
    if e.run.Some? {
      GetCons(RunMembers(e)[0], [], "run");
      assert [RunMembers(e)[0]] + [] == RunMembers(e);
    }
  }

  lemma NamesAreExpected(e: Event, createdAt: int)
    requires e.event == "chunk" <==> e.run.None?
    ensures Names(Envelope(e, createdAt).members) == ExpectedNames(e.event)
  {
    EnvelopeNames(e, createdAt);
    RunMember(e);
  }

  lemma EnvelopeIsCanonical(e: Event, createdAt: int)
    requires WellFormed(e)
    ensures Canonical(Envelope(e, createdAt), e.event, e.cursor)
    ensures Get(Envelope(e, createdAt).members, "payload") == Some(e.payload)
    ensures Get(Envelope(e, createdAt).members, "run") == e.run
  {
    NamesAreExpected(e, createdAt);
    EnvelopeGet(e, createdAt, "seq");
    EnvelopeGet(e, createdAt, "type");
    EnvelopeGet(e, createdAt, "payload");
    EnvelopeGet(e, createdAt, "createdAt");
    EnvelopeGet(e, createdAt, "run");
    RunMember(e);
  }

  lemma ReadId(lines: seq<string>, id: string)
    requires id != "" && Stripped(id)
    ensures Read(lines + ["id: " + id]) == Read(lines).(id := Some(id))
  {
    var line := "id: " + id;
    assert (lines + [line])[..|lines|] == lines;
    assert line[0] == 'i' && line[..3] == "id:";
    assert !(":" <= line) && !("event:" <= line);
    assert line[3..] == " " + id;
    FieldValue(id);
  }

  lemma ReadEvent(lines: seq<string>, event: string)
    requires event != "" && Stripped(event)
    ensures Read(lines + ["event: " + event]) == Read(lines).(event := Some(event))
  {
    var line := "event: " + event;
    assert (lines + [line])[..|lines|] == lines;
    assert line[0] == 'e' && line[..6] == "event:";
    assert !(":" <= line);
    assert line[6..] == " " + event;
    FieldValue(event);
  }

  lemma ReadData(lines: seq<string>, text: string)
    requires text != "" && !IsSpace(text[0])
    ensures Read(lines + ["data: " + text]) == Read(lines).(data := Read(lines).data + [text])
  {
    var line := "data: " + text;
    assert (lines + [line])[..|lines|] == lines;
    assert line[0] == 'd' && line[..5] == "data:";
    assert !(":" <= line) && !("event:" <= line) && !("id:" <= line);
    assert line[5..] == " " + text && (" " + text)[1..] == text;
    assert StripLeft(" " + text) == StripLeft(text) == text;
    assert Read(lines + [line]) == Read(lines).(data := Read(lines).data + [StripLeft(line[5..])]);
  }

  /** The fields of a canonical frame. */
  lemma FrameFields(dumps: Json -> string, e: Event, createdAt: int)
    requires WellFormed(e)
    requires var text := dumps(Envelope(e, createdAt)); text != "" && !IsSpace(text[0])
    ensures Read(Frame(dumps, e, createdAt)) == Fields(Some(e.event), Some(e.id), [dumps(Envelope(e, createdAt))])
  {
    var text := dumps(Envelope(e, createdAt));
    DigitsAreStripped(e.id);
    ReadId([], e.id);
    ReadEvent([] + ["id: " + e.id], e.event);
    ReadData([] + ["id: " + e.id] + ["event: " + e.event], text);
    assert Frame(dumps, e, createdAt) == [] + ["id: " + e.id] + ["event: " + e.event] + ["data: " + text];
  }

  lemma DigitsAreStripped(s: string)
    requires IsDigits(s)
    ensures Stripped(s)
  {
    assert IsDigit(s[0]) && IsDigit(s[|s| - 1]);
  }

  lemma FieldValue(value: string)
    requires value != "" && Stripped(value)
    ensures Strip(" " + value) == value
  {
    assert (" " + value)[1..] == value;
    StripIsStripped(value);
  }

  /** Printing an event as its canonical frame and consuming the frame gives the event back. */
  lemma FrameRoundTrip(r: Reader, dumps: Json -> string, e: Event, createdAt: int)
    requires WellFormed(e) && Sendable(r, dumps, Envelope(e, createdAt))
    ensures Judge(r, Frame(dumps, e, createdAt)) == Emits(e)
  {
    FrameFields(dumps, e, createdAt);
    EnvelopeIsCanonical(e, createdAt);
    assert Join([dumps(Envelope(e, createdAt))], "\n") == dumps(Envelope(e, createdAt));
  }
}
