/** Reading and updating a `.env` file (packages/cli/src/lib/env-file.ts). */
module EnvFile {
  import opened Prelude
  import opened Text

  type Vars = map<string, string>

  // ---------------------------------------------------------------- lines

  function Split(s: string): (lines: seq<string>)
    ensures lines != [] && forall l :: l in lines ==> '\n' !in l
    decreases |s|
  {
    match IndexOf(s, '\n')
    case None => [s]
    case Some(i) => [s[..i]] + Split(s[i + 1..])
  }

  function Join(lines: seq<string>): string {
    if lines == [] then ""
    else if |lines| == 1 then lines[0]
    else lines[0] + "\n" + Join(lines[1..])
  }

  lemma {:induction false} SplitJoin(lines: seq<string>)
    requires lines != [] && forall l :: l in lines ==> '\n' !in l
    ensures Split(Join(lines)) == lines
  {
    if |lines| == 1 {
      assert lines[0] in lines && IndexOf(lines[0], '\n').None?;
    } else {
      SplitJoin(lines[1..]);
      FirstLine(lines[0], Join(lines[1..]));
      assert lines == [lines[0]] + lines[1..];
    }
  }

  lemma FirstLine(line: string, rest: string)
    requires '\n' !in line
    ensures Split(line + "\n" + rest) == [line] + Split(rest)
  {
    IndexOfFirst(line, '\n', rest);
  }

  // ---------------------------------------------------------------- reading

  /** The key of a line that assigns one, with its value. */
  function ParseLine(raw: string): Option<(string, string)> {
    var line := Trim(raw);
    if line == "" || line[0] == '#' then None
    else
      match IndexOf(line, '=')
      case None => None
      case Some(eq) => if eq < 1 then None else Some((Trim(line[..eq]), Trim(line[eq + 1..])))
  }

  function ReadLines(lines: seq<string>): Vars {
    if lines == [] then map[]
    else Put(ReadLines(lines[..|lines| - 1]), ParseLine(lines[|lines| - 1]))
  }

  function Put(vars: Vars, assignment: Option<(string, string)>): Vars {
    match assignment
    case None => vars
    case Some((key, value)) => vars[key := value]
  }

  /** A file that is not there has no lines. */
  function LinesOf(file: Option<string>): seq<string> {
    if file.Some? then Split(file.value) else []
  }

  function Read(file: Option<string>): Vars {
    ReadLines(LinesOf(file))
  }

  method ReadEnvFile(file: Option<string>) returns (out: Vars)
    ensures out == Read(file)
  {
    out := map[];
    if file.None? {
      return;
    }
    var lines := Split(file.value);
    for i := 0 to |lines|
      invariant out == ReadLines(lines[..i])
    {
      assert lines[..i + 1][..i] == lines[..i];
      var line := Trim(lines[i]);
      if line == "" || line[0] == '#' {
        continue;
      }
      var eq := IndexOf(line, '=');
      if eq.None? || eq.value < 1 {
        continue;
      }
      out := out[Trim(line[..eq.value]) := Trim(line[eq.value + 1..])];
    }
    assert lines[..|lines|] == lines;
  }

  // ---------------------------------------------------------------- updating

  function Assignment(key: string, value: string): string {
    key + "=" + value
  }

  function Rewrite(raw: string, updates: Vars): string {
    match ParseLine(raw)
    case None => raw
    case Some((key, _)) => if key in updates then Assignment(key, updates[key]) else raw
  }

  function RewriteAll(lines: seq<string>, updates: Vars): seq<string> {
    seq(|lines|, i requires 0 <= i < |lines| => Rewrite(lines[i], updates))
  }

  function StripTail(lines: seq<string>): seq<string> {
    if lines != [] && lines[|lines| - 1] == "" then StripTail(lines[..|lines| - 1]) else lines
  }

  /** The assignments of the keys that the file did not have, in the order of the updates. */
  function Appended(keys: seq<string>, updates: Vars, old_: Vars): seq<string>
    requires forall k :: k in keys ==> k in updates
  {
    if keys == [] then []
    else
      var rest, k := Appended(keys[..|keys| - 1], updates, old_), keys[|keys| - 1];
      if k in old_ then rest else rest + [Assignment(k, updates[k])]
  }

  function NewLines(lines: seq<string>, keys: seq<string>, updates: Vars): seq<string>
    requires forall k :: k in keys ==> k in updates
  {
    StripTail(RewriteAll(lines, updates)) + Appended(keys, updates, ReadLines(lines))
  }

  /** `keys` is `Object.keys(updates)`. */
  function Upsert(file: Option<string>, keys: seq<string>, updates: Vars): string
    requires forall k :: k in keys ==> k in updates
  {
    Join(NewLines(LinesOf(file), keys, updates) + [""])
  }

  lemma NextLine(lines: seq<string>, i: nat, updates: Vars)
    requires i < |lines|
    ensures RewriteAll(lines[..i + 1], updates) == RewriteAll(lines[..i], updates) + [Rewrite(lines[i], updates)]
    ensures ReadLines(lines[..i + 1]).Keys * updates.Keys ==
              ReadLines(lines[..i]).Keys * updates.Keys
              + match ParseLine(lines[i]) { case None => {} case Some((key, _)) => {key} * updates.Keys }
  {
    assert lines[..i + 1][..i] == lines[..i];
  }

  method RewriteLines(lines: seq<string>, updates: Vars) returns (out: seq<string>, seen: set<string>)
    ensures out == RewriteAll(lines, updates)
    ensures seen == ReadLines(lines).Keys * updates.Keys
  {
    seen, out := {}, [];
    for i := 0 to |lines|
      invariant out == RewriteAll(lines[..i], updates)
      invariant seen == ReadLines(lines[..i]).Keys * updates.Keys
    {
      NextLine(lines, i, updates);
      var raw := lines[i];
      var trimmed := Trim(raw);
      if trimmed == "" || trimmed[0] == '#' {
        out := out + [raw];
        continue;
      }
      var eq := IndexOf(trimmed, '=');
      if eq.None? || eq.value < 1 {
        out := out + [raw];
        continue;
      }
      var key := Trim(trimmed[..eq.value]);
      if key in updates {
        out := out + [Assignment(key, updates[key])];
        seen := seen + {key};
      } else {
        out := out + [raw];
      }
    }
    assert lines[..|lines|] == lines;
  }

  method PopBlanks(lines: seq<string>) returns (out: seq<string>)
    ensures out == StripTail(lines)
  {
    out := lines;
    while |out| > 0 && out[|out| - 1] == ""
      invariant StripTail(out) == StripTail(lines)
    {
      out := out[..|out| - 1];
    }
  }

  method UpsertEnvFile(file: Option<string>, keys: seq<string>, updates: Vars) returns (text: string)
    requires forall k :: k in keys <==> k in updates
    ensures text == Upsert(file, keys, updates)
  {
    var lines: seq<string> := [];
    if file.Some? {
      lines := Split(file.value);
    }
    var rewritten, seen := RewriteLines(lines, updates);
    var out := PopBlanks(rewritten);
    ghost var kept := out;
    for i := 0 to |keys|
      invariant out == kept + Appended(keys[..i], updates, ReadLines(lines))
    {
      assert keys[..i + 1][..i] == keys[..i];
      if keys[i] !in seen {
        out := out + [Assignment(keys[i], updates[keys[i]])];
      }
    }
    assert keys[..|keys|] == keys;
    text := Join(out + [""]);
  }
}
