/** The key of a configured repository in the live map (packages/cli/src/lib/build-repo-configs.ts). */
module RepoKeys {
  import opened Prelude
  import opened ConfigDiff

  predicate IsSeparator(c: char) { c == '/' || c == ':' }

  predicate IsSlugChar(c: char) {
    'A' <= c <= 'Z' || 'a' <= c <= 'z' || '0' <= c <= '9' || c == '.' || c == '_' || c == '-'
  }

  function StripGit(url: string): string {
    if |url| >= 4 && url[|url| - 4..] == ".git" then url[..|url| - 4] else url
  }

  /** `split(/[/:]/).filter(Boolean).pop()`, "" when there is no segment. */
  function LastSegment(s: string): string {
    if s == "" then ""
    else if !IsSeparator(s[|s| - 1]) then Tail(s)
    else LastSegment(s[..|s| - 1])
  }

  function Tail(s: string): string {
    if s == "" || IsSeparator(s[|s| - 1]) then "" else Tail(s[..|s| - 1]) + [s[|s| - 1]]
  }

  function Slug(s: string): string {
    seq(|s|, i requires 0 <= i < |s| => if IsSlugChar(s[i]) then s[i] else '-')
  }

  function DeriveKeyFromUrl(url: string): string {
    var last := LastSegment(StripGit(url));
    Slug(if last == "" then "repo" else last)
  }

  function Key(r: Repo): string {
    if r.teamId.Some? then r.teamId.value else DeriveKeyFromUrl(r.url)
  }

  // ---------------------------------------------------------------- what a key is

  /** The key: the team, or else the last non-empty segment of the URL without ".git", "repo" if it has none, and "-" for odd characters. */
  ghost predicate IsKey(key: string, r: Repo) {
    match r.teamId
    case Some(team) => key == team
    case None => exists core :: IsCore(core, r.url) && IsSlugOf(key, core)
  }

  ghost predicate IsCore(core: string, url: string) {
    url == core + ".git" || (url == core && !(exists stem :: url == stem + ".git"))
  }

  ghost predicate Separates(s: string) {
    forall c :: c in s ==> c == '/' || c == ':'
  }

  /** `s` is `before`, a segment and separators, and the segment is as long as can be. */
  ghost predicate IsLastSegment(segment: string, s: string) {
    && segment != "" && '/' !in segment && ':' !in segment
    && exists before, after ::
         s == before + (segment + after) && Separates(after) && (before == "" || before[|before| - 1] == '/' || before[|before| - 1] == ':')
  }

  ghost predicate IsSlugOf(key: string, core: string) {
    if Separates(core) then key == "repo"
    else exists segment :: IsLastSegment(segment, core) && IsSlug(key, segment)
  }

  ghost predicate IsSlug(key: string, segment: string) {
    && |key| == |segment|
    && forall i :: 0 <= i < |key| ==>
         key[i] == if 'A' <= segment[i] <= 'Z' || 'a' <= segment[i] <= 'z' || '0' <= segment[i] <= '9' || segment[i] in {'.', '_', '-'} then segment[i] else '-'
  }

  // ---------------------------------------------------------------- the last segment

  /** Cutting off what follows the last segment. */
  lemma {:induction false} LastSegmentCuts(s: string)
    ensures Separates(s) <==> LastSegment(s) == ""
    ensures LastSegment(s) != "" ==> IsLastSegment(LastSegment(s), s)
  {
    if s != "" {
      var init, c := s[..|s| - 1], s[|s| - 1];
      assert s == init + [c];
      SeparatesSnoc(init, c);
      if c == '/' || c == ':' {
        LastSegmentCuts(init);
        if LastSegment(init) != "" {
          LongerTail(LastSegment(init), init, c);
        }
      } else {
        TailIsLast(s);
      }
    }
  }

  lemma SeparatesSnoc(s: string, c: char)
    ensures Separates(s + [c]) <==> Separates(s) && (c == '/' || c == ':')
  {
    assert c in s + [c];
    assert forall d :: d in s ==> d in s + [c];
  }

  lemma TailIsLast(s: string)
    requires s != "" && !IsSeparator(s[|s| - 1])
    ensures IsLastSegment(Tail(s), s)
  {
    TailCuts(s);
    var before :| s == before + Tail(s) && (before == "" || before[|before| - 1] == '/' || before[|before| - 1] == ':');
    assert Tail(s) + "" == Tail(s);
    IsLastSegmentAt(Tail(s), s, before, "");
  }

  lemma IsLastSegmentAt(segment: string, s: string, before: string, after: string)
    requires segment != "" && '/' !in segment && ':' !in segment && s == before + (segment + after) && Separates(after)
    requires before == "" || before[|before| - 1] == '/' || before[|before| - 1] == ':'
    ensures IsLastSegment(segment, s)
  {
  }

  lemma LongerTail(segment: string, s: string, c: char)
    requires IsLastSegment(segment, s) && (c == '/' || c == ':')
    ensures IsLastSegment(segment, s + [c])
  {
    var before, after :|
      s == before + (segment + after) && Separates(after) && (before == "" || before[|before| - 1] == '/' || before[|before| - 1] == ':');
    assert s + [c] == before + (segment + (after + [c]));
    assert Separates(after + [c]);
  }

  lemma {:induction false} TailCuts(s: string)
    ensures '/' !in Tail(s) && ':' !in Tail(s)
    ensures exists before :: s == before + Tail(s) && (before == "" || before[|before| - 1] == '/' || before[|before| - 1] == ':')
  {
    if s == "" || IsSeparator(s[|s| - 1]) {
      assert s == s + Tail(s);
    } else {
      var init := s[..|s| - 1];
      TailCuts(init);
      var before :| init == before + Tail(init) && (before == "" || before[|before| - 1] == '/' || before[|before| - 1] == ':');
      assert s == before + Tail(s);
    }
  }

  /** There is only one last segment: the shorter of two would end at a separator inside the longer one. */
  lemma LastSegmentUnique(x: string, y: string, s: string)
    requires IsLastSegment(x, s) && IsLastSegment(y, s)
    ensures x == y
  {
    var p, a :| s == p + (x + a) && Separates(a) && (p == "" || p[|p| - 1] == '/' || p[|p| - 1] == ':');
    var q, b :| s == q + (y + b) && Separates(b) && (q == "" || q[|q| - 1] == '/' || q[|q| - 1] == ':');
    SegmentEnds(p, x, a, q, y, b, s);
    SegmentEnds(q, y, b, p, x, a, s);
    SegmentStarts(p, x, a, q, y, b, s);
    SegmentStarts(q, y, b, p, x, a, s);
    assert x == s[|p|..|p| + |x|] && y == s[|q|..|q| + |y|];
  }

  lemma InSegment(p: string, x: string, a: string, s: string, k: nat)
    requires s == p + (x + a) && '/' !in x && ':' !in x && |p| <= k < |p| + |x|
    ensures s[k] != '/' && s[k] != ':'
  {
    assert s[k] == x[k - |p|] && x[k - |p|] in x;
  }

  lemma InAfter(p: string, x: string, a: string, s: string, k: nat)
    requires s == p + (x + a) && Separates(a) && |p| + |x| <= k < |s|
    ensures s[k] == '/' || s[k] == ':'
  {
    assert s[k] == a[k - |p| - |x|] && a[k - |p| - |x|] in a;
  }

  lemma SegmentEnds(p: string, x: string, a: string, q: string, y: string, b: string, s: string)
    requires s == p + (x + a) == q + (y + b) && x != "" && '/' !in x && ':' !in x && Separates(b)
    ensures |p| + |x| <= |q| + |y|
  {
    var k := |p| + |x| - 1;
    InSegment(p, x, a, s, k);
    if k >= |q| + |y| {
      InAfter(q, y, b, s, k);
    }
  }

  lemma SegmentStarts(p: string, x: string, a: string, q: string, y: string, b: string, s: string)
    requires s == p + (x + a) == q + (y + b) && '/' !in y && ':' !in y && |p| + |x| == |q| + |y| && x != ""
    requires p == "" || p[|p| - 1] == '/' || p[|p| - 1] == ':'
    ensures |p| <= |q|
  {
    if p != "" {
      var k := |p| - 1;
      assert s[k] == p[k];
      if |q| < |p| {
        InSegment(q, y, b, s, k);
      }
    }
  }

  lemma CoreIsStripped(core: string, url: string)
    ensures IsCore(core, url) <==> core == StripGit(url)
  {
    if |url| >= 4 && url[|url| - 4..] == ".git" {
      assert url == url[..|url| - 4] + ".git";
    }
    if stem :| url == stem + ".git" {
      assert url[|url| - 4..] == ".git" && url[..|url| - 4] == stem;
    }
    if url == core + ".git" {
      assert url[|url| - 4..] == ".git" && url[..|url| - 4] == core;
    }
  }

  lemma SlugExactly(key: string, core: string)
    ensures IsSlugOf(key, core) <==> key == Slug(if LastSegment(core) == "" then "repo" else LastSegment(core))
  {
    LastSegmentCuts(core);
    if Separates(core) {
      assert Slug("repo") == "repo";
    } else {
      if segment :| IsLastSegment(segment, core) && IsSlug(key, segment) {
        LastSegmentUnique(segment, LastSegment(core), core);
      }
      assert IsSlug(key, LastSegment(core)) <==> key == Slug(LastSegment(core));
    }
  }

  /** Every entry has exactly one key. */
  lemma KeyExactly(key: string, r: Repo)
    ensures IsKey(key, r) <==> key == Key(r)
  {
    if r.teamId.None? {
      var core := StripGit(r.url);
      CoreIsStripped(core, r.url);
      SlugExactly(key, core);
      forall other | IsCore(other, r.url)
        ensures other == core
      {
        CoreIsStripped(other, r.url);
      }
    }
  }
}
