/** The reader and the editor of `.env` files agree. */
module EnvFileProofs {
  import opened Prelude
  import opened Text
  import opened EnvFile

  /** A key that a line can assign and a reader can find. */
  predicate WellFormedKey(k: string) {
    k != "" && Trim(k) == k && '=' !in k && '\n' !in k && k[0] != '#'
  }

  // ---------------------------------------------------------------- trimming

  lemma {:induction false} TrimEndAfter(a: string, b: string)
    requires a != "" && !IsSpace(a[|a| - 1])
    ensures TrimEnd(a + b) == a + TrimEnd(b)
  {
    if b == "" {
      assert a + b == a;
    } else if IsSpace(b[|b| - 1]) {
      assert (a + b)[..|a + b| - 1] == a + b[..|b| - 1];
      TrimEndAfter(a, b[..|b| - 1]);
    }
  }

  lemma {:induction false} TrimStartBefore(s: string, c: char)
    requires IsSpace(c)
    ensures TrimEnd(TrimStart(s + [c])) == TrimEnd(TrimStart(s))
  {
    if s == "" {
      assert s + [c] == [c] && [c][1..] == "";
    } else if IsSpace(s[0]) {
      assert (s + [c])[1..] == s[1..] + [c];
      TrimStartBefore(s[1..], c);
    } else {
      assert (s + [c])[..|s|] == s;
    }
  }

  lemma {:induction false} TrimOfTrimEnd(s: string)
    ensures Trim(TrimEnd(s)) == Trim(s)
  {
    if s != "" && IsSpace(s[|s| - 1]) {
      var w := s[..|s| - 1];
      TrimOfTrimEnd(w);
      TrimStartBefore(w, s[|s| - 1]);
      assert s == w + [s[|s| - 1]];
    }
  }

  lemma TrimEndKeeps(s: string)
    requires s != "" && !IsSpace(s[0])
    ensures TrimEnd(s) != "" && TrimEnd(s)[0] == s[0] && Trim(s) == TrimEnd(s)
    ensures forall c :: c in TrimEnd(s) ==> c in s
  {
    var r := TrimEndParts(s);
    assert (TrimEnd(s) + r)[0] == s[0];
  }

  lemma TrimKeeps(s: string)
    ensures forall c :: c in Trim(s) ==> c in s
    ensures Trim(Trim(s)) == Trim(s)
  {
    var l, r := TrimParts(s);
  }

  // ---------------------------------------------------------------- one line

  lemma AssignmentParses(k: string, v: string)
    requires WellFormedKey(k)
    ensures ParseLine(Assignment(k, v)) == Some((k, Trim(v)))
  {
    var l, r := TrimParts(k);
    var raw := Assignment(k, v);
    assert raw == (k + "=") + v && raw[0] == k[0];
    TrimEndAfter(k + "=", v);
    assert Trim(raw) == k + ['='] + TrimEnd(v);
    IndexOfFirst(k, '=', TrimEnd(v));
    TrimOfTrimEnd(v);
  }

  /** Whatever a line assigns, it assigns to a well-formed key. */
  lemma ParsedKey(raw: string)
    requires '\n' !in raw && ParseLine(raw).Some?
    ensures WellFormedKey(ParseLine(raw).value.0)
  {
    var line := Trim(raw);
    var eq := IndexOf(line, '=').value;
    var l, r := TrimParts(raw);
    TrimKeeps(raw);
    var name := line[..eq];
    assert name[0] == line[0];
    TrimEndKeeps(name);
    TrimKeeps(name);
    assert forall c :: c in name ==> c in line;
  }

  lemma {:induction false} KeysRead(lines: seq<string>, k: string)
    requires (forall l :: l in lines ==> '\n' !in l) && k in ReadLines(lines)
    ensures WellFormedKey(k)
  {
    var init, last := lines[..|lines| - 1], lines[|lines| - 1];
    if k in ReadLines(init) {
      KeysRead(init, k);
    } else {
      ParsedKey(last);
    }
  }

  // ---------------------------------------------------------------- what a line says, character by character

  /** The white space and line terminators of ECMA-262, by code. */
  ghost predicate White(c: char) {
    9 <= c as int <= 13 || c as int in {32, 0xA0, 0x1680, 0x2028, 0x2029, 0x202F, 0x205F, 0x3000, 0xFEFF} || 0x2000 <= c as int <= 0x200A
  }

  ghost predicate Blank(s: string) {
    forall i :: 0 <= i < |s| ==> White(s[i])
  }

  ghost predicate Bare(s: string) {
    s == "" || (!White(s[0]) && !White(s[|s| - 1]))
  }

  ghost predicate Spaced(raw: string, k: string, v: string, a: string, b: string, c: string, d: string) {
    raw == a + (k + b + ['='] + (c + v)) + d && Blank(a) && Blank(b) && Blank(c) && Blank(d)
  }

  /** `k=v`, with white space around either, a key that is not empty, has no `=` and begins no comment, and any value. */
  ghost predicate Says(raw: string, k: string, v: string) {
    && k != "" && k[0] != '#' && '=' !in k && Bare(k) && Bare(v)
    && exists a, b, c, d :: Spaced(raw, k, v, a, b, c, d)
  }

  lemma AllSpaceIsBlank(s: string)
    ensures AllSpace(s) <==> Blank(s)
  {
  }

  lemma {:induction false} TrimStartDrops(a: string, s: string)
    requires Blank(a) && (s == "" || !White(s[0]))
    ensures TrimStart(a + s) == s
  {
    if a == "" {
      assert a + s == s;
    } else {
      assert (a + s)[1..] == a[1..] + s;
      TrimStartDrops(a[1..], s);
    }
  }

  lemma {:induction false} TrimEndDrops(s: string, d: string)
    requires Blank(d) && (s == "" || !White(s[|s| - 1]))
    ensures TrimEnd(s + d) == s
  {
    if d == "" {
      assert s + d == s;
    } else {
      var init, c := d[..|d| - 1], d[|d| - 1];
      TrimEndDrops(s, init);
      TrimEndSnoc(s + init, c);
      assert s + d == (s + init) + [c];
    }
  }

  lemma TrimEndSnoc(s: string, c: char)
    requires IsSpace(c)
    ensures TrimEnd(s + [c]) == TrimEnd(s)
  {
    assert (s + [c])[..|s|] == s;
  }

  lemma TrimDrops(a: string, s: string, d: string)
    requires Blank(a) && Blank(d) && Bare(s)
    ensures Trim(a + s + d) == s
  {
    if s == "" {
      assert a + s + d == (a + d) + "";
      TrimStartDrops(a + d, "");
    } else {
      assert a + s + d == a + (s + d);
      TrimStartDrops(a, s + d);
      TrimEndDrops(s, d);
    }
  }

  lemma LineIsParsed(line: string, k: string, b: string, rest: string, v: string)
    requires line == k + b + ['='] + rest && Trim(line) == line
    requires k != "" && k[0] != '#' && '=' !in k && Bare(k) && Blank(b) && Trim(rest) == v
    ensures ParseLine(line) == Some((k, v))
  {
    assert line[0] == k[0];
    assert '=' !in k + b;
    IndexOfFirst(k + b, '=', rest);
    TrimDrops("", k, b);
    assert "" + k + b == k + b;
  }

  lemma SaidIsParsed(raw: string, k: string, v: string)
    requires Says(raw, k, v)
    ensures ParseLine(raw) == Some((k, v))
  {
    var a, b, c, d :| Spaced(raw, k, v, a, b, c, d);
    var blank, rest, after := if v == "" then "" else c, if v == "" then "" else c + v, if v == "" then c + d else d;
    var line := k + b + ['='] + rest;
    assert raw == a + line + after;
    assert v != "" ==> line[|line| - 1] == v[|v| - 1];
    TrimDrops(a, line, after);
    TrimKeeps(raw);
    TrimDrops(blank, v, "");
    assert rest == blank + v + "";
    LineIsParsed(line, k, b, rest, v);
  }

  lemma KeyOfLine(line: string, eq: nat) returns (b: string)
    requires 1 <= eq < |line| && !IsSpace(line[0]) && '=' !in line[..eq]
    ensures var k := Trim(line[..eq]);
            line[..eq] == k + b && Blank(b) && k != "" && k[0] == line[0] && '=' !in k && Bare(k)
  {
    var x: string;
    x, b := TrimParts(line[..eq]);
    AllSpaceIsBlank(b);
    var k := Trim(line[..eq]);
    assert line[0] == line[..eq][0];
    BeginsBare(x, k + b, line[..eq]);
    assert line[..eq] == k + b;
    BeginsBare(if k == "" then b else "", if k == "" then "" else k + b, line[..eq]);
    TrimKeeps(line[..eq]);
  }

  lemma BeginsBare(x: string, t: string, s: string)
    requires s == x + t && s != "" && AllSpace(x) && !IsSpace(s[0])
    ensures x == ""
  {
  }

  lemma ValueOfLine(rest: string) returns (c: string, y: string)
    ensures rest == (c + Trim(rest)) + y && Blank(c) && Blank(y) && Bare(Trim(rest))
  {
    c, y := TrimParts(rest);
    AllSpaceIsBlank(c);
    AllSpaceIsBlank(y);
  }

  lemma Together(raw: string, a: string, line: string, d: string, eq: nat, k: string, b: string, c: string, v: string, y: string)
    requires raw == a + line + d && eq < |line| && line[eq] == '=' && line[..eq] == k + b && line[eq + 1..] == (c + v) + y
    requires Blank(a) && Blank(b) && Blank(c) && Blank(y) && Blank(d)
    ensures Spaced(raw, k, v, a, b, c, y + d)
  {
    assert line == line[..eq] + ['='] + line[eq + 1..];
    assert a + (k + b + ['='] + ((c + v) + y)) + d == a + (k + b + ['='] + (c + v)) + (y + d);
  }

  lemma ParsedIsSaid(raw: string, k: string, v: string)
    requires ParseLine(raw) == Some((k, v))
    ensures Says(raw, k, v)
  {
    var line := Trim(raw);
    var eq := IndexOf(line, '=').value;
    var a, d := TrimParts(raw);
    AllSpaceIsBlank(a);
    AllSpaceIsBlank(d);
    var b := KeyOfLine(line, eq);
    var c, y := ValueOfLine(line[eq + 1..]);
    Together(raw, a, line, d, eq, k, b, c, v, y);
  }

  /** The key and the value of a line are its only ones. */
  lemma SaysExactly(raw: string, k: string, v: string)
    ensures ParseLine(raw) == Some((k, v)) <==> Says(raw, k, v)
  {
    if ParseLine(raw) == Some((k, v)) {
      ParsedIsSaid(raw, k, v);
    }
    if Says(raw, k, v) {
      SaidIsParsed(raw, k, v);
    }
  }

  /** The last line that assigns the key says so. */
  ghost predicate SaysLast(lines: seq<string>, k: string, v: string) {
    exists i :: 0 <= i < |lines| && Says(lines[i], k, v) && forall j, w :: i < j < |lines| ==> !Says(lines[j], k, w)
  }

  lemma SaysLastSnoc(lines: seq<string>, last: string, k: string, v: string)
    ensures SaysLast(lines + [last], k, v) <==> Says(last, k, v) || (SaysLast(lines, k, v) && !(exists w :: Says(last, k, w)))
  {
    var all := lines + [last];
    assert all[|lines|] == last;
    if SaysLast(lines, k, v) && !(exists w :: Says(last, k, w)) {
      var i :| 0 <= i < |lines| && Says(lines[i], k, v) && forall j, w :: i < j < |lines| ==> !Says(lines[j], k, w);
      assert all[i] == lines[i];
    }
    if SaysLast(all, k, v) && !Says(last, k, v) {
      var i :| 0 <= i < |all| && Says(all[i], k, v) && forall j, w :: i < j < |all| ==> !Says(all[j], k, w);
      assert lines[i] == all[i];
      forall j, w | i < j < |lines|
        ensures !Says(lines[j], k, w)
      {
        assert lines[j] == all[j];
      }
    }
  }

  /** A reading holds exactly what the lines say, the last one to assign a key winning. */
  lemma {:induction false} ReadsExactly(lines: seq<string>, k: string, v: string)
    ensures k in ReadLines(lines) && ReadLines(lines)[k] == v <==> SaysLast(lines, k, v)
  {
    if lines != [] {
      var init, last := lines[..|lines| - 1], lines[|lines| - 1];
      assert lines == init + [last];
      ReadsExactly(init, k, v);
      SaysLastSnoc(init, last, k, v);
      forall w
        ensures ParseLine(last) == Some((k, w)) <==> Says(last, k, w)
      {
        SaysExactly(last, k, w);
      }
    }
  }

  // ---------------------------------------------------------------- the reader after the editor

  lemma ReadSnoc(lines: seq<string>, last: string)
    ensures ReadLines(lines + [last]) == Put(ReadLines(lines), ParseLine(last))
  {
    InSnoc(lines, last, last);
  }

  lemma RewriteSnoc(lines: seq<string>, last: string, updates: Vars)
    ensures RewriteAll(lines + [last], updates) == RewriteAll(lines, updates) + [Rewrite(last, updates)]
  {
    InSnoc(lines, last, last);
  }

  /** What an update does to one assignment. */
  function Overriding(assignment: Option<(string, string)>, updates: Vars): Option<(string, string)> {
    if assignment.Some? && assignment.value.0 in updates then Some((assignment.value.0, Trim(updates[assignment.value.0]))) else assignment
  }

  lemma RewriteParses(raw: string, updates: Vars)
    requires forall k :: k in updates ==> WellFormedKey(k)
    ensures ParseLine(Rewrite(raw, updates)) == Overriding(ParseLine(raw), updates)
  {
    if ParseLine(raw).Some? && ParseLine(raw).value.0 in updates {
      AssignmentParses(ParseLine(raw).value.0, updates[ParseLine(raw).value.0]);
    }
  }

  ghost predicate OverriddenAt(r: Vars, old_: Vars, updates: Vars, q: string) {
    && (q in r <==> q in old_)
    && (q in r ==> r[q] == if q in updates then Trim(updates[q]) else old_[q])
  }

  lemma PutOverriding(r: Vars, old_: Vars, assignment: Option<(string, string)>, updates: Vars, q: string)
    requires OverriddenAt(r, old_, updates, q)
    ensures OverriddenAt(Put(r, Overriding(assignment, updates)), Put(old_, assignment), updates, q)
  {
  }

  lemma {:induction false} ReadRewritten(lines: seq<string>, updates: Vars, q: string)
    requires forall k :: k in updates ==> WellFormedKey(k)
    ensures OverriddenAt(ReadLines(RewriteAll(lines, updates)), ReadLines(lines), updates, q)
  {
    if lines == [] {
      assert RewriteAll(lines, updates) == [];
    } else {
      var init, last := lines[..|lines| - 1], lines[|lines| - 1];
      ReadRewritten(init, updates, q);
      PutOverriding(ReadLines(RewriteAll(init, updates)), ReadLines(init), ParseLine(last), updates, q);
      RewriteParses(last, updates);
      RewriteSnoc(init, last, updates);
      ReadSnoc(RewriteAll(init, updates), Rewrite(last, updates));
      assert lines == init + [last];
    }
  }

  lemma {:induction false} ReadStripped(lines: seq<string>)
    ensures ReadLines(StripTail(lines)) == ReadLines(lines)
  {
    if lines != [] && lines[|lines| - 1] == "" {
      ReadStripped(lines[..|lines| - 1]);
    }
  }

  lemma AppendedSnoc(base: seq<string>, a: seq<string>, k: string, v: string)
    requires WellFormedKey(k)
    ensures ReadLines(base + (a + [Assignment(k, v)])) == ReadLines(base + a)[k := Trim(v)]
  {
    AssignmentParses(k, v);
    assert base + (a + [Assignment(k, v)]) == (base + a) + [Assignment(k, v)];
    ReadSnoc(base + a, Assignment(k, v));
  }

  lemma {:induction false} ReadAppended(base: seq<string>, keys: seq<string>, updates: Vars, old_: Vars, q: string)
    requires forall k :: k in keys ==> k in updates && WellFormedKey(k)
    ensures var r, hit := ReadLines(base + Appended(keys, updates, old_)), q in keys && q !in old_;
            && (q in r <==> q in ReadLines(base) || hit)
            && (q in r ==> r[q] == if hit then Trim(updates[q]) else ReadLines(base)[q])
  {
    if keys == [] {
      assert base + [] == base;
    } else {
      var init, last := keys[..|keys| - 1], keys[|keys| - 1];
      ReadAppended(base, init, updates, old_, q);
      assert keys == init + [last];
      InSnoc(init, last, q);
      if last !in old_ {
        AppendedSnoc(base, Appended(init, updates, old_), last, updates[last]);
      }
    }
  }

  lemma {:induction false} StripSubset(lines: seq<string>)
    ensures forall l :: l in StripTail(lines) ==> l in lines
    ensures StripTail(lines) == [] || StripTail(lines)[|StripTail(lines)| - 1] != ""
  {
    if lines != [] && lines[|lines| - 1] == "" {
      StripSubset(lines[..|lines| - 1]);
    }
  }

  /** Neither the updates nor, when written, their lines hold a newline. */
  ghost predicate Writable(keys: seq<string>, updates: Vars) {
    && (forall k :: k in keys <==> k in updates)
    && forall k :: k in updates ==> '\n' !in k && '\n' !in updates[k]
  }

  lemma {:induction false} AppendedLines(keys: seq<string>, updates: Vars, old_: Vars)
    requires forall k :: k in keys ==> k in updates
    ensures forall l :: l in Appended(keys, updates, old_) ==> exists k :: k in keys && k !in old_ && l == Assignment(k, updates[k])
  {
    if keys != [] {
      AppendedLines(keys[..|keys| - 1], updates, old_);
      assert keys[|keys| - 1] in keys;
    }
  }

  /** Splitting the text the editor writes gives back its lines. */
  lemma WrittenLines(file: Option<string>, keys: seq<string>, updates: Vars)
    requires Writable(keys, updates)
    ensures LinesOf(Some(Upsert(file, keys, updates))) == NewLines(LinesOf(file), keys, updates) + [""]
  {
    var lines := LinesOf(file);
    var out := NewLines(lines, keys, updates) + [""];
    forall l | l in out
      ensures '\n' !in l
    {
      StripSubset(RewriteAll(lines, updates));
      AppendedLines(keys, updates, ReadLines(lines));
      if l in RewriteAll(lines, updates) {
        var i :| 0 <= i < |lines| && l == Rewrite(lines[i], updates);
        assert lines[i] in lines;
      }
    }
    SplitJoin(out);
  }

  function Trimmed(updates: Vars): Vars {
    map k | k in updates :: Trim(updates[k])
  }

  lemma ReadKey(lines: seq<string>, keys: seq<string>, updates: Vars, q: string)
    requires (forall k :: k in keys <==> k in updates) && forall k :: k in updates ==> WellFormedKey(k)
    ensures var r := ReadLines(NewLines(lines, keys, updates) + [""]);
            && (q in r <==> q in ReadLines(lines) || q in updates)
            && (q in r ==> r[q] == if q in updates then Trim(updates[q]) else ReadLines(lines)[q])
  {
    var rewritten := RewriteAll(lines, updates);
    ReadRewritten(lines, updates, q);
    ReadStripped(rewritten);
    ReadAppended(StripTail(rewritten), keys, updates, ReadLines(lines), q);
    ReadSnoc(NewLines(lines, keys, updates), "");
    assert ParseLine("").None?;
  }

  lemma NewLinesRead(lines: seq<string>, keys: seq<string>, updates: Vars)
    requires (forall k :: k in keys <==> k in updates) && forall k :: k in updates ==> WellFormedKey(k)
    ensures ReadLines(NewLines(lines, keys, updates) + [""]) == ReadLines(lines) + Trimmed(updates)
  {
    var r := ReadLines(NewLines(lines, keys, updates) + [""]);
    forall q
      ensures q in r <==> q in ReadLines(lines) || q in updates
      ensures q in r ==> r[q] == if q in updates then Trim(updates[q]) else ReadLines(lines)[q]
    {
      ReadKey(lines, keys, updates, q);
    }
    Overridden(r, ReadLines(lines), updates);
  }

  lemma Overridden(r: Vars, old_: Vars, updates: Vars)
    requires forall q :: (q in r <==> q in old_ || q in updates) && (q in r ==> r[q] == if q in updates then Trim(updates[q]) else old_[q])
    ensures r == old_ + Trimmed(updates)
  {
  }

  /** Reading after an update gives the old reading overridden by the trimmed updates. */
  lemma UpsertThenRead(file: Option<string>, keys: seq<string>, updates: Vars)
    requires Writable(keys, updates) && forall k :: k in updates ==> WellFormedKey(k)
    ensures Read(Some(Upsert(file, keys, updates))) == Read(file) + Trimmed(updates)
  {
    WrittenLines(file, keys, updates);
    NewLinesRead(LinesOf(file), keys, updates);
  }

  /** A written value is read back exactly under the well-formed keys. */
  lemma ReadBackExactly(file: Option<string>, k: string, v: string)
    requires '\n' !in v
    ensures (var r := Read(Some(Upsert(file, [k], map[k := v]))); k in r && r[k] == Trim(v)) <==> WellFormedKey(k)
  {
    var text := Upsert(file, [k], map[k := v]);
    if WellFormedKey(k) {
      UpsertThenRead(file, [k], map[k := v]);
    } else if k in Read(Some(text)) {
      KeysRead(LinesOf(Some(text)), k);
    }
  }

  // ---------------------------------------------------------------- idempotence

  lemma RewriteFixed(raw: string, updates: Vars)
    requires forall k :: k in updates ==> WellFormedKey(k)
    ensures Rewrite(Rewrite(raw, updates), updates) == Rewrite(raw, updates)
  {
    if ParseLine(raw).Some? && ParseLine(raw).value.0 in updates {
      AssignmentParses(ParseLine(raw).value.0, updates[ParseLine(raw).value.0]);
    }
  }

  lemma NewLinesFixed(lines: seq<string>, keys: seq<string>, updates: Vars)
    requires (forall k :: k in keys <==> k in updates) && forall k :: k in updates ==> WellFormedKey(k)
    ensures var n := NewLines(lines, keys, updates); RewriteAll(n + [""], updates) == n + [""]
  {
    var n := NewLines(lines, keys, updates) + [""];
    forall i | 0 <= i < |n|
      ensures Rewrite(n[i], updates) == n[i]
    {
      StripSubset(RewriteAll(lines, updates));
      AppendedLines(keys, updates, ReadLines(lines));
      if n[i] in RewriteAll(lines, updates) {
        var j :| 0 <= j < |lines| && n[i] == Rewrite(lines[j], updates);
        RewriteFixed(lines[j], updates);
      } else if n[i] in Appended(keys, updates, ReadLines(lines)) {
        var k :| k in keys && n[i] == Assignment(k, updates[k]);
        AssignmentParses(k, updates[k]);
      }
    }
  }

  lemma {:induction false} NothingAppended(keys: seq<string>, updates: Vars, old_: Vars)
    requires forall k :: k in keys ==> k in updates && k in old_
    ensures Appended(keys, updates, old_) == []
  {
    if keys != [] {
      NothingAppended(keys[..|keys| - 1], updates, old_);
      assert keys[|keys| - 1] in keys;
    }
  }

  lemma NoTrailingBlank(lines: seq<string>, keys: seq<string>, updates: Vars)
    requires forall k :: k in keys <==> k in updates
    ensures var n := NewLines(lines, keys, updates); StripTail(n + [""]) == n
  {
    var n := NewLines(lines, keys, updates);
    StripSubset(RewriteAll(lines, updates));
    AppendedLines(keys, updates, ReadLines(lines));
    var a := Appended(keys, updates, ReadLines(lines));
    assert a != [] ==> n[|n| - 1] == a[|a| - 1] && a[|a| - 1] in a;
    assert (n + [""])[..|n|] == n;
  }

  /** Updating twice with the same values writes the same text. */
  lemma UpsertIdempotent(file: Option<string>, keys: seq<string>, updates: Vars)
    requires Writable(keys, updates) && forall k :: k in updates ==> WellFormedKey(k)
    ensures var text := Upsert(file, keys, updates); Upsert(Some(text), keys, updates) == text
  {
    var n := NewLines(LinesOf(file), keys, updates);
    WrittenLines(file, keys, updates);
    NewLinesRead(LinesOf(file), keys, updates);
    NewLinesFixed(LinesOf(file), keys, updates);
    NoTrailingBlank(LinesOf(file), keys, updates);
    NothingAppended(keys, updates, ReadLines(n + [""]));
    assert NewLines(n + [""], keys, updates) == n;
  }

  // ---------------------------------------------------------------- unrelated lines

  predicate Assigns(raw: string, updates: Vars) {
    ParseLine(raw).Some? && ParseLine(raw).value.0 in updates
  }

  function Unrelated(lines: seq<string>, updates: Vars): seq<string> {
    if lines == [] then []
    else
      var rest := Unrelated(lines[..|lines| - 1], updates);
      if Assigns(lines[|lines| - 1], updates) then rest else rest + [lines[|lines| - 1]]
  }

  lemma {:induction false} StripRewritten(lines: seq<string>, updates: Vars)
    ensures StripTail(RewriteAll(lines, updates)) == RewriteAll(StripTail(lines), updates)
  {
    if lines != [] {
      var init, last := lines[..|lines| - 1], lines[|lines| - 1];
      assert lines == init + [last];
      RewriteSnoc(init, last, updates);
      InSnoc(RewriteAll(init, updates), Rewrite(last, updates), last);
      assert Rewrite(last, updates) == "" <==> last == "";
      if last == "" {
        StripRewritten(init, updates);
      }
    }
  }

  lemma {:induction false} UnrelatedRewritten(lines: seq<string>, updates: Vars)
    requires forall k :: k in updates ==> WellFormedKey(k)
    ensures Unrelated(RewriteAll(lines, updates), updates) == Unrelated(lines, updates)
  {
    if lines != [] {
      var init, last := lines[..|lines| - 1], lines[|lines| - 1];
      UnrelatedRewritten(init, updates);
      assert RewriteAll(lines, updates)[..|lines| - 1] == RewriteAll(init, updates);
      if Assigns(last, updates) {
        AssignmentParses(ParseLine(last).value.0, updates[ParseLine(last).value.0]);
      }
    }
  }

  lemma {:induction false} UnrelatedConcat(a: seq<string>, b: seq<string>, updates: Vars)
    ensures Unrelated(a + b, updates) == Unrelated(a, updates) + Unrelated(b, updates)
  {
    if b == [] {
      assert a + b == a;
    } else {
      assert (a + b)[..|a + b| - 1] == a + b[..|b| - 1];
      UnrelatedConcat(a, b[..|b| - 1], updates);
    }
  }

  lemma {:induction false} AppendedAssign(keys: seq<string>, updates: Vars, old_: Vars)
    requires forall k :: k in keys ==> k in updates && WellFormedKey(k)
    ensures Unrelated(Appended(keys, updates, old_), updates) == []
  {
    if keys != [] {
      var last, a := keys[|keys| - 1], Appended(keys[..|keys| - 1], updates, old_);
      AppendedAssign(keys[..|keys| - 1], updates, old_);
      AssignmentParses(last, updates[last]);
      assert (a + [Assignment(last, updates[last])])[..|a|] == a;
    }
  }

  /** All lines but those of the updated keys and the trailing empty ones stay, in order. */
  lemma UnrelatedLinesStay(file: Option<string>, keys: seq<string>, updates: Vars)
    requires Writable(keys, updates) && forall k :: k in updates ==> WellFormedKey(k)
    ensures Unrelated(LinesOf(Some(Upsert(file, keys, updates))), updates) == Unrelated(StripTail(LinesOf(file)), updates) + [""]
  {
    var lines := LinesOf(file);
    var kept, added := StripTail(RewriteAll(lines, updates)), Appended(keys, updates, ReadLines(lines));
    WrittenLines(file, keys, updates);
    StripRewritten(lines, updates);
    UnrelatedRewritten(StripTail(lines), updates);
    AppendedAssign(keys, updates, ReadLines(lines));
    UnrelatedConcat(kept, added, updates);
    UnrelatedConcat(kept + added, [""], updates);
    assert [""][..0] == [];
    assert Unrelated([""], updates) == [""];
  }
}
