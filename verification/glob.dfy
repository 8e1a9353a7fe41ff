/** The shell pattern matcher of internal/shards/pattern.go: Match, scanChunk and matchChunk, for
    ASCII patterns of literals, '?' and '*' (no class, escape or named segment) and ASCII names. */
module Glob {

  predicate Plain(p: string)
  {
    '<' !in p && '[' !in p && '\\' !in p
  }

  // ---------------------------------------------------------------- what a pattern means

  predicate AtomFits(c: char, d: char)
  {
    if c == '?' then d != '/' else c == d
  }

  predicate SlashFree(n: string, k: nat)
    requires k <= |n|
  {
    forall i :: 0 <= i < k ==> n[i] != '/'
  }

  /** The name splits along the pattern: '*' takes a run without '/', '?' one character that is
      not '/', and any other character itself. */
  ghost predicate Matches(p: string, n: string)
    decreases |p|
  {
    if p == "" then n == ""
    else if p[0] == '*' then exists k: nat :: k <= |n| && SlashFree(n, k) && Matches(p[1..], n[k..])
    else n != "" && AtomFits(p[0], n[0]) && Matches(p[1..], n[1..])
  }

  /** The pattern as the matcher reads it: nothing after the first star of "**" counts. */
  function Cut(p: string): (r: string)
    ensures |r| <= |p|
  {
    if |p| < 2 then p
    else if p[0] == '*' && p[1] == '*' then "*"
    else [p[0]] + Cut(p[1..])
  }

  /** The characters of a chunk fit the start of s one by one. */
  predicate ChunkFits(chunk: string, s: string)
  {
    |chunk| <= |s| && forall i :: 0 <= i < |chunk| ==> AtomFits(chunk[i], s[i])
  }

  // ---------------------------------------------------------------- chunks

  lemma {:induction false} ChunkMatches(chunk: string, rest: string, n: string)
    requires '*' !in chunk
    ensures Matches(chunk + rest, n) <==> ChunkFits(chunk, n) && Matches(rest, n[|chunk|..])
    decreases |chunk|
  {
    if chunk == "" {
      assert chunk + rest == rest && n[0..] == n;
    } else {
      assert (chunk + rest)[1..] == chunk[1..] + rest;
      if n != "" {
        ChunkMatches(chunk[1..], rest, n[1..]);
        ChunkTail(chunk, n);
        if |chunk| <= |n| {
          assert n[1..][|chunk| - 1..] == n[|chunk|..];
        }
      }
    }
  }

  lemma ChunkTail(chunk: string, n: string)
    requires chunk != "" && n != ""
    ensures ChunkFits(chunk, n) <==> AtomFits(chunk[0], n[0]) && ChunkFits(chunk[1..], n[1..])
  {
    if ChunkFits(chunk, n) {
      forall i | 0 <= i < |chunk[1..]|
        ensures AtomFits(chunk[1..][i], n[1..][i])
      {
        assert AtomFits(chunk[i + 1], n[i + 1]);
      }
    }
    if AtomFits(chunk[0], n[0]) && ChunkFits(chunk[1..], n[1..]) {
      forall i | 0 <= i < |chunk|
        ensures AtomFits(chunk[i], n[i])
      {
        if i > 0 {
          assert AtomFits(chunk[1..][i - 1], n[1..][i - 1]);
        }
      }
    }
  }

  /** The chunk fits after a star has taken k characters. */
  predicate FitsAt(chunk: string, n: string, k: nat)
  {
    k <= |n| && SlashFree(n, k) && ChunkFits(chunk, n[k..])
  }

  lemma StarChunk(chunk: string, rest: string, n: string)
    requires '*' !in chunk
    ensures Matches("*" + chunk + rest, n) <==> exists k: nat :: FitsAt(chunk, n, k) && Matches(rest, n[k + |chunk|..])
  {
    var p := "*" + chunk + rest;
    assert p != "" && p[0] == '*' && p[1..] == chunk + rest;
    forall k: nat | k <= |n|
      ensures Matches(p[1..], n[k..]) <==> ChunkFits(chunk, n[k..]) && Matches(rest, n[k..][|chunk|..])
    {
      ChunkMatches(chunk, rest, n[k..]);
    }
    if Matches(p, n) {
      var k: nat :| k <= |n| && SlashFree(n, k) && Matches(p[1..], n[k..]);
      assert n[k..][|chunk|..] == n[k + |chunk|..];
      assert FitsAt(chunk, n, k);
    }
    if k: nat :| FitsAt(chunk, n, k) && Matches(rest, n[k + |chunk|..]) {
      assert n[k..][|chunk|..] == n[k + |chunk|..];
      assert SlashFree(n, k) && Matches(p[1..], n[k..]);
    }
  }

  ghost predicate FirstSlashAt(s: string, i: nat)
  {
    i < |s| && s[i] == '/' && SlashFree(s, i)
  }

  function FirstSlash(s: string): (i: nat)
    requires '/' in s
    ensures FirstSlashAt(s, i)
  {
    if s[0] == '/' then 0 else 1 + FirstSlash(s[1..])
  }

  lemma SlashPlace(chunk: string, n: string, k: nat)
    requires '/' in chunk && FitsAt(chunk, n, k)
    ensures FirstSlashAt(n, k + FirstSlash(chunk))
  {
    var i := FirstSlash(chunk);
    forall f | 0 <= f <= k + i
      ensures n[f] == '/' <==> f == k + i
    {
      if f >= k {
        assert AtomFits(chunk[f - k], n[k..][f - k]);
      }
    }
  }

  /** A chunk without '/' takes no '/' of the name. */
  lemma ChunkSlashFree(chunk: string, n: string, k: nat)
    requires '/' !in chunk && FitsAt(chunk, n, k)
    ensures SlashFree(n, k + |chunk|)
  {
    forall i | 0 <= i < k + |chunk|
      ensures n[i] != '/'
    {
      if i >= k {
        assert AtomFits(chunk[i - k], n[k..][i - k]);
      }
    }
  }

  /** Taking the leftmost place for a chunk loses nothing when another star follows: that star takes
      what lies between. */
  lemma LeftmostSuffices(chunk: string, rest: string, n: string, j: nat, k: nat)
    requires '*' !in chunk && rest != "" && rest[0] == '*'
    requires j <= k && FitsAt(chunk, n, j) && FitsAt(chunk, n, k)
    requires Matches(rest, n[k + |chunk|..])
    ensures Matches(rest, n[j + |chunk|..])
  {
    if '/' in chunk {
      SlashPlace(chunk, n, j);
      SlashPlace(chunk, n, k);
    } else {
      var a, b := j + |chunk|, k + |chunk|;
      ChunkSlashFree(chunk, n, k);
      var m: nat :| m <= |n[b..]| && SlashFree(n[b..], m) && Matches(rest[1..], n[b..][m..]);
      forall i | 0 <= i < b - a + m
        ensures n[a..][i] != '/'
      {
        if a + i >= b {
          assert n[b..][a + i - b] == n[a + i];
        }
      }
      assert n[a..][b - a + m..] == n[b..][m..];
      assert SlashFree(n[a..], b - a + m);
    }
  }

  // ---------------------------------------------------------------- the matcher

  method ScanChunk(pattern: string) returns (star: bool, chunk: string, rest: string)
    requires Plain(pattern)
    ensures pattern == (if star then "*" else "") + chunk + rest
    ensures star <==> pattern != "" && pattern[0] == '*'
    ensures '*' !in chunk && (rest != "" ==> rest[0] == '*')
  {
    if |pattern| == 0 {
      return false, "", "";
    }
    var p := pattern;
    star := false;
    if p[0] == '*' {
      p := p[1..];
      star := true;
    }
    var i := 0;
    while i < |p| && p[i] != '*'
      invariant i <= |p| && '*' !in p[..i]
    {
      i := i + 1;
    }
    return star, p[..i], p[i..];
  }

  method MatchChunk(chunk: string, s: string) returns (rest: string, ok: bool)
    requires Plain(chunk) && '*' !in chunk
    ensures ok <==> ChunkFits(chunk, s)
    ensures rest == if ok then s[|chunk|..] else ""
  {
    var failed, c, t := false, chunk, s;
    ghost var i := 0;
    while |c| > 0
      invariant i <= |chunk| && c == chunk[i..]
      invariant failed ==> !ChunkFits(chunk, s)
      invariant !failed ==> i <= |s| && t == s[i..] && forall j :: 0 <= j < i ==> AtomFits(chunk[j], s[j])
    {
      if !failed && |t| == 0 {
        failed := true;
      }
      if c[0] == '?' {
        if !failed {
          if t[0] == '/' {
            failed := true;
            assert !AtomFits(chunk[i], s[i]);
          }
          t := t[1..];
        }
        c := c[1..];
      } else {
        if !failed {
          if c[0] != t[0] {
            failed := true;
            assert !AtomFits(chunk[i], s[i]);
          }
          t := t[1..];
        }
        c := c[1..];
      }
      i := i + 1;
    }
    if failed {
      return "", false;
    }
    return t, true;
  }

  lemma {:induction false} CutChunk(chunk: string, rest: string)
    requires '*' !in chunk
    ensures Cut(chunk + rest) == chunk + Cut(rest)
    decreases |chunk|
  {
    if chunk == "" {
      assert chunk + rest == rest;
    } else {
      assert (chunk + rest)[1..] == chunk[1..] + rest;
      CutChunk(chunk[1..], rest);
      assert [chunk[0]] + (chunk[1..] + Cut(rest)) == chunk + Cut(rest);
      if |chunk + rest| < 2 {
        assert rest == "" && chunk[1..] == "";
      }
    }
  }

  lemma CutStarChunk(chunk: string, rest: string)
    requires '*' !in chunk && chunk != ""
    ensures Cut("*" + chunk + rest) == "*" + chunk + Cut(rest)
  {
    var p := "*" + chunk + rest;
    assert p[1..] == chunk + rest && p[1] == chunk[0];
    CutChunk(chunk, rest);
    assert ["*"[0]] + (chunk + Cut(rest)) == "*" + chunk + Cut(rest);
  }

  lemma CutStart(rest: string)
    ensures Cut(rest) == "" <==> rest == ""
    ensures rest != "" ==> Cut(rest)[0] == rest[0]
  {
  }

  /** A place where the matcher takes a chunk: the last chunk has to end the name. */
  predicate Takes(chunk: string, rest: string, n: string, k: nat)
  {
    FitsAt(chunk, n, k) && (rest == "" ==> k + |chunk| == |n|)
  }

  /** The meaning of the pattern at the first place the matcher takes. */
  lemma FirstPlace(chunk: string, rest: string, n: string, j: nat)
    requires '*' !in chunk && chunk != "" && (rest != "" ==> rest[0] == '*')
    requires Takes(chunk, rest, n, j) && forall i: nat :: i < j ==> !Takes(chunk, rest, n, i)
    ensures Matches(Cut("*" + chunk + rest), n) <==> Matches(Cut(rest), n[j + |chunk|..])
  {
    CutStarChunk(chunk, rest);
    CutStart(rest);
    StarChunk(chunk, Cut(rest), n);
    if k: nat :| FitsAt(chunk, n, k) && Matches(Cut(rest), n[k + |chunk|..]) {
      if rest == "" {
        assert n[k + |chunk|..] == "";
        assert k == j;
      } else {
        assert Takes(chunk, rest, n, k);
        LeftmostSuffices(chunk, Cut(rest), n, j, k);
      }
    }
  }

  lemma NoPlace(chunk: string, rest: string, n: string, b: nat)
    requires b <= |n| && (b < |n| ==> n[b] == '/')
    requires '*' !in chunk && chunk != "" && (rest != "" ==> rest[0] == '*')
    requires forall i: nat :: i <= b ==> !Takes(chunk, rest, n, i)
    ensures !Matches(Cut("*" + chunk + rest), n)
  {
    CutStarChunk(chunk, rest);
    StarChunk(chunk, Cut(rest), n);
    if k: nat :| FitsAt(chunk, n, k) && Matches(Cut(rest), n[k + |chunk|..]) {
      assert Takes(chunk, rest, n, k);
    }
  }

  lemma LeadingChunk(chunk: string, rest: string, n: string)
    requires '*' !in chunk
    ensures Matches(Cut(chunk + rest), n) <==> ChunkFits(chunk, n) && Matches(Cut(rest), n[|chunk|..])
  {
    CutChunk(chunk, rest);
    ChunkMatches(chunk, Cut(rest), n);
  }

  lemma LastStar(rest: string, n: string)
    requires rest != "" ==> rest[0] == '*'
    ensures Matches(Cut("*" + rest), n) <==> '/' !in n
  {
    assert Cut("*" + rest) == "*";
    if '/' !in n {
      assert SlashFree(n, |n|) && n[|n|..] == "";
    }
    if Matches("*", n) {
      var k: nat :| k <= |n| && SlashFree(n, k) && Matches("*"[1..], n[k..]);
      assert n[k..] == "";
    }
  }

  lemma TakesWhen(chunk: string, rest: string, n: string, k: nat, t: string, ok: bool)
    requires k <= |n| && SlashFree(n, k)
    requires ok <==> ChunkFits(chunk, n[k..])
    requires t == if ok then n[k..][|chunk|..] else ""
    ensures Takes(chunk, rest, n, k) <==> ok && (|t| == 0 || |rest| > 0)
    ensures ok ==> k + |chunk| <= |n| && t == n[k + |chunk|..]
  {
    if ok {
      assert n[k..][|chunk|..] == n[k + |chunk|..];
    }
  }

  lemma EmptyPattern(n: string)
    ensures Matches(Cut(""), n) <==> n == ""
  {
  }

  /** Match, for a pattern without classes, escapes and named segments: true exactly when the name
      splits along the pattern, read up to its first "**". */
  method Match(pattern: string, name: string) returns (matched: bool)
    requires Plain(pattern)
    ensures matched <==> Matches(Cut(pattern), name)
  {
    hide Matches, Cut, Takes, FitsAt, ChunkFits;
    var p, n := pattern, name;
    label Pattern:
    while |p| > 0
      invariant Plain(p)
      invariant Matches(Cut(p), n) <==> Matches(Cut(pattern), name)
      decreases |p|
    {
      ghost var p0 := p;
      var star, chunk, rest := ScanChunk(p);
      if star && chunk == "" {
        LastStar(rest, n);
        assert p0 == "*" + rest;
        return '/' !in n;
      }
      p := rest;
      var t, ok := MatchChunk(chunk, n);
      assert n[0..] == n;
      TakesWhen(chunk, rest, n, 0, t, ok);
      if ok && (|t| == 0 || |p| > 0) {
        if star {
          FirstPlace(chunk, rest, n, 0);
        } else {
          assert p0 == chunk + rest;
          LeadingChunk(chunk, rest, n);
        }
        n := t;
        continue;
      }
      if star {
        var i := 0;
        while i < |n| && n[i] != '/'
          invariant i <= |n| && SlashFree(n, i)
          invariant forall j: nat :: j <= i ==> !Takes(chunk, rest, n, j)
        {
          t, ok := MatchChunk(chunk, n[i + 1..]);
          TakesWhen(chunk, rest, n, i + 1, t, ok);
          if ok {
            if |p| == 0 && |t| > 0 {
              i := i + 1;
              continue;
            }
            FirstPlace(chunk, rest, n, i + 1);
            n := t;
            continue Pattern;
          }
          i := i + 1;
        }
        NoPlace(chunk, rest, n, i);
      } else {
        assert p0 == chunk + rest;
        LeadingChunk(chunk, rest, n);
        EmptyPattern(t);
      }
      return false;
    }
    EmptyPattern(n);
    return |n| == 0;
  }

  // ---------------------------------------------------------------- adjacent stars

  /** "**a" is read as "*": the code answers true for a name that has no such split. */
  lemma AdjacentStarsDiffer()
    ensures Matches(Cut("**a"), "b") && !Matches("**a", "b")
  {
    assert Cut("**a") == "*" && "b"[1..] == "" && SlashFree("b", 1);
    assert Matches("*", "b");
  }

  predicate OnlyStars(p: string)
  {
    forall i :: 0 <= i < |p| ==> p[i] == '*'
  }

  /** The matcher agrees with the meaning of the pattern on every name exactly when nothing but
      stars follows the first star of its first "**". */
  lemma MatchExact(p: string)
    ensures (forall n :: Matches(Cut(p), n) <==> Matches(p, n)) <==> OnlyStars(p[|Cut(p)|..])
  {
    CutPrefix(p);
    var q, r := Cut(p), p[|Cut(p)|..];
    assert p == q + r;
    if OnlyStars(r) {
      forall n
        ensures Matches(q, n) <==> Matches(p, n)
      {
        if r == "" {
          assert p == q;
        } else {
          MoreStars(q[..|q| - 1], r, n);
          assert q == q[..|q| - 1] + "*" && p == q[..|q| - 1] + ("*" + r);
        }
      }
    } else {
      FillMatches(q);
      SolidAdds(q, r);
      SolidPositive(r);
      if Matches(p, Fill(q)) {
        ShortestName(p, Fill(q));
        assert false;
      }
      assert !(Matches(Cut(p), Fill(q)) <==> Matches(p, Fill(q)));
    }
  }

  lemma {:induction false} CutPrefix(p: string)
    ensures Cut(p) <= p
    ensures Cut(p) != p ==> Cut(p) != "" && Cut(p)[|Cut(p)| - 1] == '*'
    decreases |p|
  {
    if |p| >= 2 && !(p[0] == '*' && p[1] == '*') {
      CutPrefix(p[1..]);
      assert p == [p[0]] + p[1..];
    }
  }

  /** The number of characters of a pattern other than '*'. */
  function Solid(p: string): nat
  {
    if p == "" then 0 else (if p[0] == '*' then 0 else 1) + Solid(p[1..])
  }

  lemma {:induction false} SolidAdds(p: string, q: string)
    ensures Solid(p + q) == Solid(p) + Solid(q)
  {
    if p == "" {
      assert p + q == q;
    } else {
      assert (p + q)[1..] == p[1..] + q;
      SolidAdds(p[1..], q);
    }
  }

  lemma {:induction false} SolidPositive(p: string)
    requires !OnlyStars(p)
    ensures Solid(p) > 0
  {
    if p[0] == '*' {
      var i :| 0 <= i < |p| && p[i] != '*';
      assert p[1..][i - 1] == p[i];
      SolidPositive(p[1..]);
    }
  }

  /** Every name a pattern matches has at least its solid characters. */
  lemma {:induction false} ShortestName(p: string, n: string)
    ensures Matches(p, n) ==> |n| >= Solid(p)
    decreases |p|
  {
    if p != "" && Matches(p, n) {
      if p[0] == '*' {
        var k: nat :| k <= |n| && SlashFree(n, k) && Matches(p[1..], n[k..]);
        ShortestName(p[1..], n[k..]);
      } else {
        ShortestName(p[1..], n[1..]);
      }
    }
  }

  /** A name of just the solid characters. */
  function Fill(p: string): (n: string)
    ensures |n| == Solid(p)
  {
    if p == "" then ""
    else (if p[0] == '*' then "" else if p[0] == '?' then "a" else [p[0]]) + Fill(p[1..])
  }

  lemma {:induction false} FillMatches(p: string)
    ensures Matches(p, Fill(p))
  {
    if p != "" {
      FillMatches(p[1..]);
      if p[0] == '*' {
        assert Fill(p) == Fill(p[1..]) && Fill(p)[0..] == Fill(p) && SlashFree(Fill(p), 0);
      } else {
        assert Fill(p)[1..] == Fill(p[1..]);
      }
    }
  }

  /** Stars after a star change nothing. */
  lemma {:induction false} MoreStars(p: string, stars: string, n: string)
    requires OnlyStars(stars)
    ensures Matches(p + "*", n) <==> Matches(p + ("*" + stars), n)
    decreases |p|
  {
    if p == "" {
      AllStars("*", n);
      AllStars("*" + stars, n);
      assert p + "*" == "*" && p + ("*" + stars) == "*" + stars;
    } else {
      var a, b := p + "*", p + ("*" + stars);
      assert a[1..] == p[1..] + "*" && b[1..] == p[1..] + ("*" + stars) && a[0] == b[0] == p[0];
      forall k: nat | k <= |n|
        ensures Matches(a[1..], n[k..]) <==> Matches(b[1..], n[k..])
      {
        MoreStars(p[1..], stars, n[k..]);
      }
    }
  }

  lemma {:induction false} AllStars(stars: string, n: string)
    requires OnlyStars(stars) && stars != ""
    ensures Matches(stars, n) <==> SlashFree(n, |n|)
    decreases |stars|
  {
    if stars[1..] != "" {
      forall k: nat | k <= |n|
        ensures Matches(stars[1..], n[k..]) <==> SlashFree(n[k..], |n| - k)
      {
        AllStars(stars[1..], n[k..]);
      }
    }
    if SlashFree(n, |n|) {
      assert n[|n|..] == "";
      assert SlashFree(n, |n|) && Matches(stars[1..], n[|n|..]);
    }
    if Matches(stars, n) {
      var k: nat :| k <= |n| && SlashFree(n, k) && Matches(stars[1..], n[k..]);
      assert stars[1..] == "" ==> n[k..] == "";
      forall i | 0 <= i < |n|
        ensures n[i] != '/'
      {
        if i >= k && stars[1..] != "" {
          assert n[k..][i - k] == n[i];
        }
      }
    }
  }

  // ---------------------------------------------------------------- a name for every character of the pattern

  function Joined(xs: seq<string>): string { if xs == [] then "" else xs[0] + Joined(xs[1..]) }

  /** A star stands for any run without a slash, a question mark for one character that is none, and any other
      character for itself. */
  predicate Stands(c: char, x: string)
  {
    if c == '*' then '/' !in x else if c == '?' then |x| == 1 && x != "/" else x == [c]
  }

  ghost predicate Spells(p: string, xs: seq<string>, n: string)
  {
    |xs| == |p| && Joined(xs) == n && forall i :: 0 <= i < |p| ==> Stands(p[i], xs[i])
  }

  lemma {:induction false} MatchSpells(p: string, n: string) returns (xs: seq<string>)
    requires Matches(p, n)
    ensures Spells(p, xs, n)
  {
    if p == "" {
      xs := [];
    } else {
      var k := 1;
      if p[0] == '*' {
        k :| 0 <= k <= |n| && SlashFree(n, k) && Matches(p[1..], n[k..]);
      }
      var more := MatchSpells(p[1..], n[k..]);
      xs := [n[..k]] + more;
      assert xs[1..] == more && n == n[..k] + n[k..];
      assert forall i :: 0 < i < |p| ==> p[i] == p[1..][i - 1] && xs[i] == more[i - 1];
    }
  }

  lemma {:induction false} SpellMatches(p: string, xs: seq<string>, n: string)
    requires Spells(p, xs, n)
    ensures Matches(p, n)
  {
    if p != "" {
      var x, more := xs[0], xs[1..];
      var k := |x|;
      assert n == x + Joined(more) && n[k..] == Joined(more) && n[..k] == x;
      assert Stands(p[0], x);
      forall i | 0 <= i < |p| - 1
        ensures Stands(p[1..][i], more[i])
      {
        assert Stands(p[i + 1], xs[i + 1]);
      }
      SpellMatches(p[1..], more, n[k..]);
      forall i | 0 <= i < k
        ensures n[i] == x[i]
      {
      }
    }
  }

  /** A name matches if and only if it is one string for each character of the pattern. */
  lemma MatchesSpelled(p: string, n: string)
    ensures Matches(p, n) <==> exists xs :: Spells(p, xs, n)
  {
    if Matches(p, n) {
      var xs := MatchSpells(p, n);
    }
    if exists xs :: Spells(p, xs, n) {
      var xs :| Spells(p, xs, n);
      SpellMatches(p, xs, n);
    }
  }
}
