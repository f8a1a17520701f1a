/** `parseJsonObject` (packages/core/src/executor/agent-stream.ts): cutting one JSON object out of prose. */
module JsonScan {
  import opened Prelude
  import opened Text

  // ---------------------------------------------------------------- JSON texts (RFC 8259)

  /** A character of a string (section 7): itself, a two-character escape, or `\u` and four hex digits. */
  datatype StrPart = Plain(c: char) | Short(c: char) | Unicode(hex: string)

  /** `[ minus ] int [ frac ] [ exp ]` (section 6). */
  datatype Num = Num(negative: bool, digits: string, frac: Option<string>, exp: Option<Exponent>)
  datatype Exponent = Exponent(e: char, sign: string, digits: string)

  /** A JSON text with the white space it is written with (section 2). */
  datatype Json =
    | Word(word: string)
    | Number(n: Num)
    | Str(parts: seq<StrPart>)
    | Arr(ws: string, elems: Elems)
    | Obj(ws: string, members: Members)

  datatype Elems = NoElems | Elem(before: string, value: Json, after: string, rest: Elems)

  datatype Members =
    | NoMembers
    | Member(before: string, key: seq<StrPart>, colonBefore: string, colonAfter: string, value: Json, after: string, rest: Members)

  predicate IsWs(s: string) {
    forall i :: 0 <= i < |s| ==> s[i] == ' ' || s[i] == '\t' || s[i] == '\n' || s[i] == '\r'
  }

  predicate IsDigits(s: string) {
    s != "" && forall i :: 0 <= i < |s| ==> '0' <= s[i] <= '9'
  }

  predicate IsHex(c: char) {
    '0' <= c <= '9' || 'a' <= c <= 'f' || 'A' <= c <= 'F'
  }

  predicate ValidPart(p: StrPart) {
    match p
    case Plain(c) => c != '"' && c != '\\' && ' ' <= c
    case Short(c) => c in "\"\\/bfnrt"
    case Unicode(hex) => |hex| == 4 && forall i :: 0 <= i < 4 ==> IsHex(hex[i])
  }

  predicate ValidParts(parts: seq<StrPart>) {
    forall i :: 0 <= i < |parts| ==> ValidPart(parts[i])
  }

  predicate ValidNum(n: Num) {
    && IsDigits(n.digits) && (n.digits[0] == '0' ==> |n.digits| == 1)
    && (n.frac.Some? ==> IsDigits(n.frac.value))
    && (n.exp.Some? ==> n.exp.value.e in "eE" && n.exp.value.sign in {"", "+", "-"} && IsDigits(n.exp.value.digits))
  }

  predicate Valid(t: Json) {
    match t
    case Word(w) => w in {"true", "false", "null"}
    case Number(n) => ValidNum(n)
    case Str(parts) => ValidParts(parts)
    case Arr(ws, elems) => IsWs(ws) && ValidElems(elems)
    case Obj(ws, members) => IsWs(ws) && ValidMembers(members)
  }

  predicate ValidElems(es: Elems) {
    match es
    case NoElems => true
    case Elem(before, value, after, rest) => IsWs(before) && Valid(value) && IsWs(after) && ValidElems(rest)
  }

  predicate ValidMembers(ms: Members) {
    match ms
    case NoMembers => true
    case Member(before, key, colonBefore, colonAfter, value, after, rest) =>
      IsWs(before) && ValidParts(key) && IsWs(colonBefore) && IsWs(colonAfter) && Valid(value) && IsWs(after) && ValidMembers(rest)
  }

  function PrintPart(p: StrPart): string {
    match p
    case Plain(c) => [c]
    case Short(c) => ['\\', c]
    case Unicode(hex) => "\\u" + hex
  }

  function PrintParts(parts: seq<StrPart>): string {
    if parts == [] then "" else PrintPart(parts[0]) + PrintParts(parts[1..])
  }

  function PrintStr(parts: seq<StrPart>): string {
    ['"'] + (PrintParts(parts) + ['"'])
  }

  function PrintNum(n: Num): string {
    (if n.negative then "-" else "") + n.digits
    + (if n.frac.Some? then "." + n.frac.value else "")
    + (if n.exp.Some? then [n.exp.value.e] + n.exp.value.sign + n.exp.value.digits else "")
  }

  function Print(t: Json): string {
    match t
    case Word(w) => w
    case Number(n) => PrintNum(n)
    case Str(parts) => PrintStr(parts)
    case Arr(ws, elems) => ['['] + (ws + (PrintElems(elems) + [']']))
    case Obj(ws, members) => ['{'] + (ws + (PrintMembers(members) + ['}']))
  }

  function PrintElems(es: Elems): string {
    match es
    case NoElems => ""
    case Elem(before, value, after, rest) =>
      before + (Print(value) + (after + (if rest.NoElems? then "" else [','] + PrintElems(rest))))
  }

  function PrintMembers(ms: Members): string {
    match ms
    case NoMembers => ""
    case Member(before, key, colonBefore, colonAfter, value, after, rest) =>
      before + (PrintStr(key) + (colonBefore + ([':'] + (colonAfter + (Print(value) + (after +
        (if rest.NoMembers? then "" else [','] + PrintMembers(rest))))))))
  }

  /** What `JSON.parse` accepts: one value with white space around it. */
  ghost predicate IsJsonText(s: string) {
    exists w1, t, w2 :: IsWs(w1) && Valid(t) && IsWs(w2) && s == w1 + Print(t) + w2
  }

  // ---------------------------------------------------------------- the scanner

  datatype State = State(depth: int, inString: bool, escaped: bool)

  const OUTSIDE := State(0, false, false)

  function Next(st: State, ch: char): State {
    if st.inString then
      if st.escaped then st.(escaped := false)
      else if ch == '\\' then st.(escaped := true)
      else if ch == '"' then st.(inString := false)
      else st
    else if ch == '"' then st.(inString := true)
    else if ch == '{' then st.(depth := st.depth + 1)
    else if ch == '}' then st.(depth := st.depth - 1)
    else st
  }

  /** The index of the `}` that brings the depth back to zero. */
  function CloseFrom(text: string, i: nat, st: State): Option<nat>
    decreases |text| - i
  {
    if i >= |text| then None
    else
      var st' := Next(st, text[i]);
      if !st.inString && text[i] == '}' && st'.depth == 0 then Some(i) else CloseFrom(text, i + 1, st')
  }

  function Scan(text: string): Option<string> {
    match IndexOf(text, '{')
    case None => None
    case Some(start) =>
      match CloseFrom(text, start, OUTSIDE)
      case None => None
      case Some(close) => CloseInRange(text, start, OUTSIDE); Some(text[start..close + 1])
  }

  lemma {:induction false} CloseInRange(text: string, i: nat, st: State)
    ensures CloseFrom(text, i, st).Some? ==> i <= CloseFrom(text, i, st).value < |text|
    decreases |text| - i
  {
    if i < |text| {
      CloseInRange(text, i + 1, Next(st, text[i]));
    }
  }

  /** `parse` stands for `JSON.parse`, with None for a thrown SyntaxError. */
  function Extract<V>(text: string, parse: string -> Option<V>): Option<V> {
    var trimmed := Trim(text);
    if trimmed != "" && trimmed[0] == '{' && parse(trimmed).Some? then parse(trimmed)
    else
      match Scan(text)
      case None => None
      case Some(slice) => parse(slice)
  }

  method ParseJsonObject<V>(text: string, parse: string -> Option<V>) returns (r: Option<V>)
    ensures r == Extract(text, parse)
  {
    var trimmed := Trim(text);
    if trimmed != "" && trimmed[0] == '{' {
      var whole := parse(trimmed);
      if whole.Some? {
        return whole;
      }
    }
    var start := IndexOf(text, '{');
    if start.None? {
      return None;
    }
    var close := FindClose(text, start.value);
    CloseInRange(text, start.value, OUTSIDE);
    if close.None? {
      return None;
    }
    return parse(text[start.value..close.value + 1]);
  }

  lemma CloseNext(text: string, i: nat, st: State)
    requires i < |text|
    ensures CloseFrom(text, i, st) ==
            if !st.inString && text[i] == '}' && st.depth == 1 then Some(i) else CloseFrom(text, i + 1, Next(st, text[i]))
  {
  }

  /** The scanning loop: the index at which it would slice and parse. */
  method FindClose(text: string, start: nat) returns (close: Option<nat>)
    requires start <= |text|
    ensures close == CloseFrom(text, start, OUTSIDE)
  {
    var depth, inString, escaped := 0, false, false;
    ghost var goal, st := CloseFrom(text, start, OUTSIDE), OUTSIDE;
    for i := start to |text|
      invariant st == State(depth, inString, escaped) && goal == CloseFrom(text, i, st)
    {
      var ch := text[i];
      CloseNext(text, i, st);
      st := Next(st, ch);
      if inString {
        if escaped {
          escaped := false;
        } else if ch == '\\' {
          escaped := true;
        } else if ch == '"' {
          inString := false;
        }
      } else if ch == '"' {
        inString := true;
      } else if ch == '{' {
        depth := depth + 1;
      } else if ch == '}' {
        depth := depth - 1;
        if depth == 0 {
          return Some(i);
        }
      }
    }
    return None;
  }

  // ---------------------------------------------------------------- the cut is the shortest balanced slice

  function Run(s: string, st: State): State {
    if s == "" then st else Next(Run(s[..|s| - 1], st), s[|s| - 1])
  }

  /** Read from the outside, `s` opens at least one brace and ends with all of them closed, outside any string. */
  predicate Balanced(s: string) {
    s != "" && Run(s, OUTSIDE) == OUTSIDE
  }

  lemma {:induction false} CloseIsFirst(text: string, start: nat, i: nat)
    requires start < i <= |text|
    requires forall j :: start < j <= i ==> Run(text[start..j], OUTSIDE).depth > 0
    ensures var close := CloseFrom(text, i, Run(text[start..i], OUTSIDE));
            && (close.Some? ==> i <= close.value < |text| && Balanced(text[start..close.value + 1])
                                && forall j :: start < j <= close.value ==> !Balanced(text[start..j]))
            && (close.None? ==> forall j :: start < j <= |text| ==> !Balanced(text[start..j]))
    decreases |text| - i
  {
    if i < |text| {
      var st := Run(text[start..i], OUTSIDE);
      assert text[start..i + 1][..i - start] == text[start..i];
      assert Run(text[start..i + 1], OUTSIDE) == Next(st, text[i]);
      if !(!st.inString && text[i] == '}' && Next(st, text[i]).depth == 0) {
        CloseIsFirst(text, start, i + 1);
      } else {
        EscapedOnlyInside(text[start..i]);
      }
    }
  }

  lemma {:induction false} EscapedOnlyInside(s: string)
    ensures Run(s, OUTSIDE).escaped ==> Run(s, OUTSIDE).inString
  {
    if s != "" {
      EscapedOnlyInside(s[..|s| - 1]);
    }
  }

  lemma CloseFromBrace(text: string, start: nat)
    requires start < |text| && text[start] == '{'
    ensures var close := CloseFrom(text, start, OUTSIDE);
            && (close.Some? ==> start <= close.value < |text| && Balanced(text[start..close.value + 1])
                                && forall j :: start < j <= close.value ==> !Balanced(text[start..j]))
            && (close.None? ==> forall j :: start < j <= |text| ==> !Balanced(text[start..j]))
  {
    assert text[start..start + 1] == ['{'];
    RunBrace();
    CloseIsFirst(text, start, start + 1);
  }

  lemma RunBrace()
    ensures Run(['{'], OUTSIDE) == State(1, false, false)
  {
    assert ['{'][..0] == "";
  }

  /**
   * The scan returns the shortest balanced slice that starts at the first `{`,
   * and nothing exactly when no slice from there is balanced.
   */
  lemma ScanIsShortestBalanced(text: string)
    requires '{' in text
    ensures var start := IndexOf(text, '{').value;
            match Scan(text)
            case Some(s) =>
              && start + |s| <= |text| && s == text[start..start + |s|] && Balanced(s)
              && (forall j :: start < j < start + |s| ==> !Balanced(text[start..j]))
            case None => forall j :: start < j <= |text| ==> !Balanced(text[start..j])
  {
    CloseFromBrace(text, IndexOf(text, '{').value);
  }

  // ---------------------------------------------------------------- a printed object is cut exactly

  /** The state after reading all of `p` without closing, or None if the scan closes within `p`. */
  function Walk(p: string, st: State): Option<State> {
    if p == "" then Some(st)
    else if !st.inString && p[0] == '}' && Next(st, p[0]).depth == 0 then None
    else Walk(p[1..], Next(st, p[0]))
  }

  lemma {:induction false} WalkConcat(a: string, b: string, st: State)
    requires Walk(a, st).Some?
    ensures Walk(a + b, st) == Walk(b, Walk(a, st).value)
  {
    if a == "" {
      assert a + b == b;
    } else {
      assert (a + b)[1..] == a[1..] + b;
      WalkConcat(a[1..], b, Next(st, a[0]));
    }
  }

  /** Reading on from the middle of a text: what was walked over can be skipped. */
  lemma {:induction false} WalkSkips(text: string, i: nat, j: nat, st: State)
    requires i <= j <= |text| && Walk(text[i..j], st).Some?
    ensures CloseFrom(text, i, st) == CloseFrom(text, j, Walk(text[i..j], st).value)
    decreases j - i
  {
    if i < j {
      assert text[i..j][1..] == text[i + 1..j];
      WalkSkips(text, i + 1, j, Next(st, text[i]));
    }
  }

  lemma {:induction false} WalkInert(p: string, depth: int)
    requires forall k :: 0 <= k < |p| ==> p[k] != '"' && p[k] != '{' && p[k] != '}'
    ensures Walk(p, State(depth, false, false)) == Some(State(depth, false, false))
  {
    if p != "" {
      WalkInert(p[1..], depth);
    }
  }

  lemma {:induction false} WalkInString(p: string, depth: int)
    requires forall k :: 0 <= k < |p| ==> p[k] != '"' && p[k] != '\\'
    ensures Walk(p, State(depth, true, false)) == Some(State(depth, true, false))
  {
    if p != "" {
      WalkInString(p[1..], depth);
    }
  }

  lemma WalkPart(part: StrPart, depth: int)
    requires ValidPart(part)
    ensures Walk(PrintPart(part), State(depth, true, false)) == Some(State(depth, true, false))
  {
    match part
    case Plain(c) => WalkInString([c], depth);
    case Short(c) =>
      assert ['\\', c] == ['\\'] + [c];
      WalkCons('\\', [c], State(depth, true, false));
      WalkChar(c, State(depth, true, true));
    case Unicode(hex) =>
      assert ("\\u" + hex)[1..] == ['u'] + hex && (['u'] + hex)[1..] == hex;
      WalkInString(hex, depth);
  }

  lemma {:induction false} WalkParts(parts: seq<StrPart>, depth: int)
    requires ValidParts(parts)
    ensures Walk(PrintParts(parts), State(depth, true, false)) == Some(State(depth, true, false))
  {
    if parts != [] {
      WalkPart(parts[0], depth);
      WalkParts(parts[1..], depth);
      WalkConcat(PrintPart(parts[0]), PrintParts(parts[1..]), State(depth, true, false));
    }
  }

  lemma WalkStr(parts: seq<StrPart>, depth: int)
    requires ValidParts(parts)
    ensures Walk(PrintStr(parts), State(depth, false, false)) == Some(State(depth, false, false))
  {
    WalkParts(parts, depth);
    WalkConcat(PrintParts(parts), ['"'], State(depth, true, false));
    WalkChar('"', State(depth, true, false));
    WalkCons('"', PrintParts(parts) + ['"'], State(depth, false, false));
  }

  lemma WalkCons(c: char, p: string, st: State)
    requires st.inString || c != '}'
    ensures Walk([c] + p, st) == Walk(p, Next(st, c))
  {
    assert ([c] + p)[1..] == p;
  }

  lemma WalkChar(c: char, st: State)
    requires st.inString || c != '}'
    ensures Walk([c], st) == Some(Next(st, c))
  {
    assert [c][1..] == "";
  }

  lemma WalkBrackets(ws: string, elems: string, depth: int)
    requires IsWs(ws) && depth >= 1 && Walk(elems, State(depth, false, false)) == Some(State(depth, false, false))
    ensures Walk(['['] + (ws + (elems + [']'])), State(depth, false, false)) == Some(State(depth, false, false))
  {
    var st := State(depth, false, false);
    WalkCons('[', ws + (elems + [']']), st);
    WalkWs(ws, elems + [']'], depth);
    WalkConcat(elems, [']'], st);
    WalkChar(']', st);
  }

  lemma WalkBraces(ws: string, members: string, depth: int)
    requires depth >= 1 && Walk(['{'] + (ws + members), State(depth, false, false)) == Some(State(depth + 1, false, false))
    ensures Walk(['{'] + (ws + (members + ['}'])), State(depth, false, false)) == Some(State(depth, false, false))
  {
    var body := ['{'] + (ws + members);
    WalkConcat(body, ['}'], State(depth, false, false));
    assert ['{'] + (ws + (members + ['}'])) == body + ['}'];
    assert ['}'][1..] == "";
  }

  /** Inside an object, a complete value leaves the scanner where it was, braces in strings and nested objects included. */
  lemma {:induction false} WalkValue(t: Json, depth: int)
    requires Valid(t) && depth >= 1
    ensures Walk(Print(t), State(depth, false, false)) == Some(State(depth, false, false))
    decreases t
  {
    var st := State(depth, false, false);
    match t
    case Word(w) => WalkInert(w, depth);
    case Number(n) => NumInert(n); WalkInert(PrintNum(n), depth);
    case Str(parts) => WalkStr(parts, depth);
    case Arr(ws, elems) =>
      WalkElems(elems, depth);
      WalkBrackets(ws, PrintElems(elems), depth);
    case Obj(ws, members) =>
      WalkBody(t, depth);
      WalkBraces(ws, PrintMembers(members), depth);
  }

  lemma WalkWs(ws: string, p: string, depth: int)
    requires IsWs(ws)
    ensures Walk(ws + p, State(depth, false, false)) == Walk(p, State(depth, false, false))
  {
    WalkInert(ws, depth);
    WalkConcat(ws, p, State(depth, false, false));
  }

  lemma NumInert(n: Num)
    requires ValidNum(n)
    ensures forall k :: 0 <= k < |PrintNum(n)| ==> PrintNum(n)[k] != '"' && PrintNum(n)[k] != '{' && PrintNum(n)[k] != '}'
  {
    var a := (if n.negative then "-" else "") + n.digits;
    var b := if n.frac.Some? then "." + n.frac.value else "";
    var c := if n.exp.Some? then [n.exp.value.e] + n.exp.value.sign + n.exp.value.digits else "";
    assert Plainly(a) && Plainly(b) && Plainly(c);
    assert PrintNum(n) == a + b + c;
  }

  predicate Plainly(s: string) {
    forall k :: 0 <= k < |s| ==> s[k] != '"' && s[k] != '{' && s[k] != '}'
  }

  lemma {:induction false} WalkElems(es: Elems, depth: int)
    requires ValidElems(es) && depth >= 1
    ensures Walk(PrintElems(es), State(depth, false, false)) == Some(State(depth, false, false))
    decreases es
  {
    match es
    case NoElems =>
    case Elem(before, value, after, rest) =>
      var tail := if rest.NoElems? then "" else [','] + PrintElems(rest);
      WalkWs(before, Print(value) + (after + tail), depth);
      WalkValue(value, depth);
      WalkConcat(Print(value), after + tail, State(depth, false, false));
      WalkWs(after, tail, depth);
      if rest.Elem? {
        WalkCons(',', PrintElems(rest), State(depth, false, false));
        WalkElems(rest, depth);
      }
  }

  lemma {:induction false} WalkMembers(ms: Members, depth: int)
    requires ValidMembers(ms) && depth >= 1
    ensures Walk(PrintMembers(ms), State(depth, false, false)) == Some(State(depth, false, false))
    decreases ms
  {
    match ms
    case NoMembers =>
    case Member(before, key, colonBefore, colonAfter, value, after, rest) =>
      var st := State(depth, false, false);
      var tail := if rest.NoMembers? then "" else [','] + PrintMembers(rest);
      var fromValue := Print(value) + (after + tail);
      WalkKey(before, key, colonBefore, colonAfter, fromValue, depth);
      WalkValue(value, depth);
      WalkConcat(Print(value), after + tail, st);
      WalkWs(after, tail, depth);
      if rest.Member? {
        WalkCons(',', PrintMembers(rest), st);
        WalkMembers(rest, depth);
      }
  }

  lemma WalkKey(before: string, key: seq<StrPart>, colonBefore: string, colonAfter: string, fromValue: string, depth: int)
    requires IsWs(before) && ValidParts(key) && IsWs(colonBefore) && IsWs(colonAfter)
    ensures Walk(before + (PrintStr(key) + (colonBefore + ([':'] + (colonAfter + fromValue)))), State(depth, false, false)) ==
            Walk(fromValue, State(depth, false, false))
  {
    var st := State(depth, false, false);
    WalkWs(before, PrintStr(key) + (colonBefore + ([':'] + (colonAfter + fromValue))), depth);
    WalkStr(key, depth);
    WalkConcat(PrintStr(key), colonBefore + ([':'] + (colonAfter + fromValue)), st);
    WalkWs(colonBefore, [':'] + (colonAfter + fromValue), depth);
    WalkCons(':', colonAfter + fromValue, st);
    WalkWs(colonAfter, fromValue, depth);
  }

  /** From the `{` of an object the scanner arrives at its own `}` one level deeper, having closed nowhere before. */
  lemma {:induction false} WalkBody(t: Json, depth: int)
    requires Valid(t) && t.Obj? && depth >= 0
    ensures Walk(['{'] + (t.ws + PrintMembers(t.members)), State(depth, false, false)) == Some(State(depth + 1, false, false))
    decreases t, 0
  {
    WalkCons('{', t.ws + PrintMembers(t.members), State(depth, false, false));
    WalkWs(t.ws, PrintMembers(t.members), depth + 1);
    WalkMembers(t.members, depth + 1);
  }

  /** The scan cuts a printed object out of any prose that has no `{` before it. */
  lemma ScanCutsObject(pre: string, obj: Json, post: string)
    requires '{' !in pre && obj.Obj? && Valid(obj)
    ensures Scan(pre + Print(obj) + post) == Some(Print(obj))
    ensures IndexOf(pre + Print(obj) + post, '{') == Some(|pre|)
  {
    var body := ['{'] + (obj.ws + PrintMembers(obj.members));
    assert Print(obj) == body + ['}'];
    Located(pre, body, '}', post);
    WalkBody(obj, 0);
    CutAt(pre + (body + ['}']) + post, pre, body);
  }

  lemma CutAt(text: string, pre: string, body: string)
    requires '{' !in pre && |pre| + |body| < |text| && forall i :: 0 <= i < |pre| ==> text[i] == pre[i]
    requires text[|pre|..|pre| + |body|] == body && text[|pre| + |body|] == '}'
    requires body != "" && body[0] == '{' && Walk(body, OUTSIDE) == Some(State(1, false, false))
    ensures IndexOf(text, '{') == Some(|pre|) && Scan(text) == Some(text[|pre|..|pre| + |body| + 1])
  {
    assert text[|pre|] == text[|pre|..|pre| + |body|][0];
    FirstAt(pre, '{', text);
    ClosesAfter(text, |pre|, |pre| + |body|);
  }

  lemma ClosesAfter(text: string, i: nat, j: nat)
    requires i <= j < |text| && text[j] == '}' && Walk(text[i..j], OUTSIDE) == Some(State(1, false, false))
    ensures CloseFrom(text, i, OUTSIDE) == Some(j)
  {
    WalkSkips(text, i, j, OUTSIDE);
  }

  lemma Located(pre: string, body: string, c: char, post: string)
    ensures var text := pre + (body + [c]) + post;
            && text[|pre|..|pre| + |body|] == body && text[|pre| + |body|] == c
            && text[|pre|..|pre| + |body| + 1] == body + [c]
            && forall i :: 0 <= i < |pre| ==> text[i] == pre[i]
  {
  }

  lemma FirstAt(pre: string, c: char, text: string)
    requires c !in pre && |pre| < |text| && text[|pre|] == c
    requires forall i :: 0 <= i < |pre| ==> text[i] == pre[i]
    ensures IndexOf(text, c) == Some(|pre|)
  {
    assert c in text;
    var r := IndexOf(text, c);
    assert r.Some?;
    assert text[r.value] == c;
  }

  /** The whole function, fast path included: it returns exactly what `JSON.parse` makes of the embedded object. */
  lemma ExtractsObject<V>(pre: string, obj: Json, post: string, parse: string -> Option<V>)
    requires '{' !in pre && obj.Obj? && Valid(obj)
    requires forall s :: parse(s).Some? <==> IsJsonText(s)
    ensures Extract(pre + Print(obj) + post, parse) == parse(Print(obj))
    ensures parse(Print(obj)).Some?
  {
    var text := pre + Print(obj) + post;
    ScanCutsObject(pre, obj, post);
    assert IsJsonText(Print(obj)) by {
      assert Print(obj) == "" + Print(obj) + "" && IsWs("");
    }
    var trimmed := Trim(text);
    if trimmed != "" && trimmed[0] == '{' && parse(trimmed).Some? {
      FastPathAgrees(text, Print(obj));
    }
  }

  /** When the trimmed text is itself a JSON text, the scan cuts out that very text. */
  lemma FastPathAgrees(text: string, slice: string)
    requires Trim(text) != "" && Trim(text)[0] == '{' && IsJsonText(Trim(text))
    requires Scan(text) == Some(slice)
    ensures Trim(text) == slice
  {
    var w1, t, w2 :| IsWs(w1) && Valid(t) && IsWs(w2) && Trim(text) == w1 + Print(t) + w2;
    var l, r := TrimParts(text);
    OnlyPrinted(Trim(text), w1, t, w2);
    NoBrace(l);
    ScanCutsObject(l, t, r);
  }

  lemma OnlyPrinted(trimmed: string, w1: string, t: Json, w2: string)
    requires trimmed != "" && trimmed[0] == '{' && !IsSpace(trimmed[0]) && !IsSpace(trimmed[|trimmed| - 1])
    requires IsWs(w1) && Valid(t) && IsWs(w2) && trimmed == w1 + Print(t) + w2
    ensures trimmed == Print(t) && t.Obj?
  {
    assert trimmed == w1 + (Print(t) + w2);
    NoLeadingWs(w1, Print(t) + w2, trimmed);
    NoTrailingWs(w1 + Print(t), w2, trimmed);
    assert trimmed == Print(t);
    PrintStarts(t);
  }

  lemma NoBrace(l: string)
    requires AllSpace(l)
    ensures '{' !in l
  {
  }

  lemma NoLeadingWs(w: string, rest: string, s: string)
    requires IsWs(w) && s == w + rest && s != "" && !IsSpace(s[0])
    ensures w == ""
  {
    assert forall i :: 0 <= i < |w| ==> s[i] == w[i];
  }

  lemma NoTrailingWs(rest: string, w: string, s: string)
    requires IsWs(w) && s == rest + w && s != "" && !IsSpace(s[|s| - 1])
    ensures w == ""
  {
    LastChar(rest, w);
  }

  lemma LastChar(rest: string, w: string)
    ensures w != "" ==> (rest + w)[|rest + w| - 1] == w[|w| - 1]
  {
  }

  lemma PrintStarts(t: Json)
    requires Valid(t)
    ensures Print(t) != "" && (Print(t)[0] == '{' <==> t.Obj?)
  {
    match t
    case Number(n) => assert PrintNum(n)[0] == if n.negative then '-' else n.digits[0];
    case _ =>
  }

  /** On an object padded with white space, the fast path and the scan give the same value. */
  lemma PaddedObject<V>(l: string, obj: Json, r: string, parse: string -> Option<V>)
    requires AllSpace(l) && AllSpace(r) && obj.Obj? && Valid(obj)
    requires forall s :: parse(s).Some? <==> IsJsonText(s)
    ensures Trim(l + Print(obj) + r) == Print(obj)
    ensures Scan(l + Print(obj) + r) == Some(Trim(l + Print(obj) + r))
  {
    var text := l + Print(obj) + r;
    assert '{' !in l;
    ScanCutsObject(l, obj, r);
    assert Print(obj)[|Print(obj)| - 1] == '}';
    TrimUnique(l, Print(obj), r);
  }

  lemma TrimUnique(l: string, s: string, r: string)
    requires AllSpace(l) && AllSpace(r) && s != "" && !IsSpace(s[0]) && !IsSpace(s[|s| - 1])
    ensures Trim(l + s + r) == s
  {
    TrimStartSkips(l, s + r);
    assert l + s + r == l + (s + r);
    TrimEndSkips(s, r);
  }

  lemma {:induction false} TrimStartSkips(l: string, s: string)
    requires AllSpace(l) && s != "" && !IsSpace(s[0])
    ensures TrimStart(l + s) == s
  {
    if l == "" {
      assert l + s == s;
    } else {
      assert (l + s)[1..] == l[1..] + s;
      TrimStartSkips(l[1..], s);
    }
  }

  lemma {:induction false} TrimEndSkips(s: string, r: string)
    requires AllSpace(r) && s != "" && !IsSpace(s[|s| - 1])
    ensures TrimEnd(s + r) == s
  {
    if r == "" {
      assert s + r == s;
    } else {
      assert (s + r)[..|s + r| - 1] == s + r[..|r| - 1];
      TrimEndSkips(s, r[..|r| - 1]);
    }
  }
}
