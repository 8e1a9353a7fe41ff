/** The anchored diff: Diff of internal/diff/diff.go, over the lines of both texts.

    The result is the list of hunks in the order they are written.  Applying them to the old lines gives the
    new ones, applying them backwards gives the old ones, and they mark the fewest unique lines. */
module Diff {
  import opened Wrappers
  import opened Anchors
  import opened Hunks

  // ---------------------------------------------------------------- writing hunks

  function Mark(c: char, ls: seq<string>): (r: seq<string>)
    ensures |r| == |ls|
  {
    if ls == [] then [] else Mark(c, ls[..|ls| - 1]) + [[c] + ls[|ls| - 1]]
  }

  lemma MarkStep(c: char, ls: seq<string>, i: nat)
    requires i < |ls|
    ensures Mark(c, ls[..i + 1]) == Mark(c, ls[..i]) + [[c] + ls[i]]
  {
    assert ls[..i + 1][..i] == ls[..i];
  }

  lemma {:induction false} MarkAt(c: char, ls: seq<string>, i: nat)
    requires i < |ls|
    ensures Mark(c, ls)[i] == [c] + ls[i]
  {
    if i < |ls| - 1 {
      MarkAt(c, ls[..|ls| - 1], i);
    }
  }

  lemma {:induction false} MarkSides(ctext: seq<string>, c: char, ls: seq<string>)
    requires c in {' ', '-', '+'}
    ensures var r := ctext + Mark(c, ls);
      && Old(r) == Old(ctext) + (if c == '+' then [] else ls)
      && New(r) == New(ctext) + (if c == '-' then [] else ls)
      && (Signed(ctext) ==> Signed(r))
  {
    if ls == [] {
      assert ctext + [] == ctext;
    } else {
      var n := |ls| - 1;
      var l := [c] + ls[n];
      var r := ctext + Mark(c, ls[..n]);
      MarkSides(ctext, c, ls[..n]);
      assert ctext + Mark(c, ls) == r + [l];
      hide Mark;
      assert l[1..] == ls[n] && (r + [l])[..|r|] == r && ls == ls[..n] + [ls[n]];
    }
  }

  method AppendLines(ctext: seq<string>, c: char, ls: seq<string>) returns (r: seq<string>)
    requires c in {' ', '-', '+'}
    ensures r == ctext + Mark(c, ls)
    ensures Old(r) == Old(ctext) + (if c == '+' then [] else ls)
    ensures New(r) == New(ctext) + (if c == '-' then [] else ls)
    ensures |r| == |ctext| + |ls| && (Signed(ctext) ==> Signed(r))
  {
    r := ctext;
    assert Mark(c, ls[..0]) == [];
    hide Mark, Side, Signed;
    for i := 0 to |ls|
      invariant r == ctext + Mark(c, ls[..i])
    {
      MarkStep(c, ls, i);
      r := r + [[c] + ls[i]];
    }
    assert ls[..|ls|] == ls;
    MarkSides(ctext, c, ls);
  }

  /** The chunk being collected: it starts where the written hunks end, and its text covers
      both sides up to done. */
  ghost predicate Pending(x: seq<string>, y: seq<string>, out: seq<Hunk>, chunk: Pair, count: Pair, ctext: seq<string>, done: Pair)
  {
    && chunk.x + count.x == done.x <= |x| && chunk.y + count.y == done.y <= |y|
    && Old(ctext) == x[chunk.x..done.x] && New(ctext) == y[chunk.y..done.y] && Signed(ctext)
    && Fit(x, y, out, chunk)
  }

  lemma NothingPending(x: seq<string>, y: seq<string>)
    ensures Pending(x, y, [], Pair(0, 0), Pair(0, 0), [], Pair(0, 0))
  {
  }

  lemma FreshChunk(x: seq<string>, y: seq<string>, out: seq<Hunk>, chunk: Pair)
    requires Fit(x, y, out, chunk) && chunk.x <= |x| && chunk.y <= |y|
    ensures Pending(x, y, out, chunk, Pair(0, 0), [], chunk)
  {
  }

  lemma EmptyChunk(x: seq<string>, y: seq<string>, out: seq<Hunk>, chunk: Pair, count: Pair, done: Pair)
    requires Pending(x, y, out, chunk, count, [], done)
    ensures chunk == done && Fit(x, y, out, done)
  {
  }

  /** Written out, the chunk is a fitting hunk. */
  lemma Write(x: seq<string>, y: seq<string>, out: seq<Hunk>, chunk: Pair, count: Pair, ctext: seq<string>, done: Pair, h: Hunk)
    requires Pending(x, y, out, chunk, count, ctext, done)
    requires h == Hunk(if count.x > 0 then chunk.x + 1 else chunk.x, count.x, if count.y > 0 then chunk.y + 1 else chunk.y, count.y, ctext)
    ensures Fit(x, y, out + [h], done)
  {
    ChunkAgrees(x, y, chunk, count, ctext, done, h);
    hide Fit, Agrees, Old, New, Signed;
    FitSnoc(x, y, out, h, done);
  }

  lemma ChunkAgrees(x: seq<string>, y: seq<string>, chunk: Pair, count: Pair, ctext: seq<string>, done: Pair, h: Hunk)
    requires chunk.x + count.x == done.x <= |x| && chunk.y + count.y == done.y <= |y|
    requires Old(ctext) == x[chunk.x..done.x] && New(ctext) == y[chunk.y..done.y] && Signed(ctext)
    requires h == Hunk(if count.x > 0 then chunk.x + 1 else chunk.x, count.x, if count.y > 0 then chunk.y + 1 else chunk.y, count.y, ctext)
    ensures Agrees(x, y, h, done) && Start(h) == chunk
  {
    hide Old, New, Signed;
    assert x[done.x..done.x] == y[done.y..done.y];
  }

  lemma Glue<T>(s: seq<T>, a: nat, b: nat, c: nat)
    requires a <= b <= c <= |s|
    ensures s[a..c] == s[a..b] + s[b..c]
  {
  }

  /** Equal lines may follow. */
  lemma Extend(x: seq<string>, y: seq<string>, hs: seq<Hunk>, a: Pair, b: Pair)
    requires Fit(x, y, hs, a)
    requires a.x <= b.x <= |x| && a.y <= b.y <= |y| && x[a.x..b.x] == y[a.y..b.y]
    ensures Fit(x, y, hs, b)
  {
    if hs == [] {
      Glue(x, 0, a.x, b.x);
      Glue(y, 0, a.y, b.y);
    } else {
      AgreesExtend(x, y, hs[|hs| - 1], a, b);
    }
  }

  lemma AgreesExtend(x: seq<string>, y: seq<string>, h: Hunk, a: Pair, b: Pair)
    requires Agrees(x, y, h, a)
    requires a.x <= b.x <= |x| && a.y <= b.y <= |y| && x[a.x..b.x] == y[a.y..b.y]
    ensures Agrees(x, y, h, b)
  {
    Glue(x, Start(h).x + h.nx, a.x, b.x);
    Glue(y, Start(h).y + h.ny, a.y, b.y);
  }

  /** Lines common to both texts, on one diagonal. */
  ghost predicate Diagonal(x: seq<string>, y: seq<string>, a: Pair, b: Pair)
  {
    a.x <= b.x <= |x| && a.y <= b.y <= |y| && x[a.x..b.x] == y[a.y..b.y]
  }

  /** A later anchor that is not behind on the x side is not behind on the y side either: its line
      is unique, and the lines since the last anchor are common. */
  lemma NotBehind(x: seq<string>, y: seq<string>, last: Pair, done: Pair, m: Pair)
    requires Diagonal(x, y, last, done)
    requires UniqueMatch(x, y, m) && last.y <= m.y && done.x <= m.x
    ensures done.y <= m.y
  {
    if m.y < done.y {
      var k := m.y - last.y;
      assert y[last.y..done.y][k] == y[m.y];
      assert x[last.x..done.x][k] == x[last.x + k];
      SeenTwice(x, last.x + k, m.x);
    }
  }

  lemma DiagonalBack(x: seq<string>, y: seq<string>, a: Pair, b: Pair)
    requires Diagonal(x, y, a, b) && a.x > 0 && a.y > 0 && x[a.x - 1] == y[a.y - 1]
    ensures Diagonal(x, y, Pair(a.x - 1, a.y - 1), b)
  {
    assert x[a.x - 1..b.x] == [x[a.x - 1]] + x[a.x..b.x];
    assert y[a.y - 1..b.y] == [y[a.y - 1]] + y[a.y..b.y];
  }

  lemma DiagonalOn(x: seq<string>, y: seq<string>, a: Pair, b: Pair)
    requires Diagonal(x, y, a, b) && b.x < |x| && b.y < |y| && x[b.x] == y[b.y]
    ensures Diagonal(x, y, a, Pair(b.x + 1, b.y + 1))
  {
    assert x[a.x..b.x + 1] == x[a.x..b.x] + [x[b.x]];
    assert y[a.y..b.y + 1] == y[a.y..b.y] + [y[b.y]];
  }

  lemma DiagonalJoin(x: seq<string>, y: seq<string>, a: Pair, b: Pair, c: Pair)
    requires Diagonal(x, y, a, b) && Diagonal(x, y, b, c)
    ensures Diagonal(x, y, a, c)
  {
    assert x[a.x..c.x] == x[a.x..b.x] + x[b.x..c.x];
    assert y[a.y..c.y] == y[a.y..b.y] + y[b.y..c.y];
  }

  const C: nat := 3

  /** The common lines around m, as far as they go, but not before done. */
  ghost predicate Stretched(x: seq<string>, y: seq<string>, done: Pair, m: Pair, start: Pair, end: Pair)
  {
    && done.x <= start.x && done.y <= start.y
    && Diagonal(x, y, start, m) && Diagonal(x, y, m, end) && Diagonal(x, y, start, end)
    && (start.x == done.x || start.y == done.y || x[start.x - 1] != y[start.y - 1])
    && (end.x == |x| || end.y == |y| || x[end.x] != y[end.y])
  }

  /** Expands an anchor to the common lines around it, not before done. */
  method Stretch(x: seq<string>, y: seq<string>, done: Pair, m: Pair) returns (start: Pair, end: Pair)
    requires done.x <= m.x <= |x| && done.y <= m.y <= |y|
    ensures Stretched(x, y, done, m, start, end)
  {
    start := m;
    assert Diagonal(x, y, m, m);
    hide Diagonal;
    while start.x > done.x && start.y > done.y && x[start.x - 1] == y[start.y - 1]
      invariant done.x <= start.x <= m.x && done.y <= start.y <= m.y
      invariant Diagonal(x, y, start, m)
      decreases start.x
    {
      DiagonalBack(x, y, start, m);
      start := Pair(start.x - 1, start.y - 1);
    }
    end := m;
    while end.x < |x| && end.y < |y| && x[end.x] == y[end.y]
      invariant m.x <= end.x <= |x| && m.y <= end.y <= |y|
      invariant Diagonal(x, y, m, end)
      decreases |x| - end.x
    {
      DiagonalOn(x, y, m, end);
      end := Pair(end.x + 1, end.y + 1);
    }
    DiagonalJoin(x, y, start, m, end);
  }

  /** Adds the lines removed from x and those added to y, up to the common stretch. */
  method Mismatch(x: seq<string>, y: seq<string>, ghost out: seq<Hunk>, ghost chunk: Pair, count: Pair, ctext: seq<string>, done: Pair, start: Pair)
    returns (ctext': seq<string>, count': Pair)
    requires Pending(x, y, out, chunk, count, ctext, done)
    requires done.x <= start.x <= |x| && done.y <= start.y <= |y|
    ensures Pending(x, y, out, chunk, count', ctext', start)
    ensures ctext' == [] ==> ctext == [] && start == done
    ensures ctext' == ctext + Mark('-', x[done.x..start.x]) + Mark('+', y[done.y..start.y])
  {
    hide Fit, Mark;
    var t := AppendLines(ctext, '-', x[done.x..start.x]);
    ctext' := AppendLines(t, '+', y[done.y..start.y]);
    count' := Pair(count.x + (start.x - done.x), count.y + (start.y - done.y));
    Glue(x, chunk.x, done.x, start.x);
    Glue(y, chunk.y, done.y, start.y);
  }

  /** Adds n common lines. */
  method Common(x: seq<string>, y: seq<string>, ghost out: seq<Hunk>, ghost chunk: Pair, count: Pair, ctext: seq<string>, start: Pair, n: nat)
    returns (ctext': seq<string>, count': Pair)
    requires Pending(x, y, out, chunk, count, ctext, start)
    requires Diagonal(x, y, start, Pair(start.x + n, start.y + n))
    ensures Pending(x, y, out, chunk, count', ctext', Pair(start.x + n, start.y + n))
    ensures |ctext'| == |ctext| + n && ctext' == ctext + Mark(' ', x[start.x..start.x + n])
  {
    hide Fit, Side, Mark;
    ctext' := AppendLines(ctext, ' ', x[start.x..start.x + n]);
    count' := Pair(count.x + n, count.y + n);
    Glue(x, chunk.x, start.x, start.x + n);
    Glue(y, chunk.y, start.y, start.y + n);
  }

  lemma SliceSlice<T>(s: seq<T>, a: nat, b: nat, i: nat, j: nat)
    requires a <= b <= |s| && i <= j <= b - a
    ensures s[a + i..a + j] == s[a..b][i..j]
  {
    forall k | 0 <= k < j - i
      ensures s[a + i..a + j][k] == s[a..b][i..j][k]
    {
      assert s[a..b][i..j][k] == s[a..b][i + k] == s[a + (i + k)];
    }
  }

  lemma SubDiagonal(x: seq<string>, y: seq<string>, a: Pair, b: Pair, i: nat, j: nat)
    requires Diagonal(x, y, a, b) && a.x + i <= a.x + j <= b.x
    ensures Diagonal(x, y, Pair(a.x + i, a.y + i), Pair(a.x + j, a.y + j))
    ensures Diagonal(x, y, Pair(a.x + i, a.y + i), b)
  {
    assert |x[a.x..b.x]| == |y[a.y..b.y]|;
    SliceSlice(x, a.x, b.x, i, j);
    SliceSlice(y, a.y, b.y, i, j);
    SliceSlice(x, a.x, b.x, i, b.x - a.x);
    SliceSlice(y, a.y, b.y, i, b.y - a.y);
  }

  // ---------------------------------------------------------------- context

  /** One of n lines from i on is marked. */
  ghost predicate Near(body: seq<string>, i: nat, n: nat)
  {
    exists k :: i <= k < i + n && k < |body| && !Blank(body[k])
  }

  predicate Blanks(body: seq<string>, i: nat, n: nat)
  {
    i + n <= |body| && forall k :: i <= k < i + n ==> Blank(body[k])
  }

  /** No six common lines in a row. */
  ghost predicate NoRun(body: seq<string>)
  {
    forall i: nat :: i + 6 <= |body| ==> Near(body, i, 6)
  }

  /** Where lines are removed and added, those removed come first. */
  ghost predicate Sorted(body: seq<string>)
  {
    forall i, j :: 0 <= i && j == i + 1 && j < |body| ==> !(Begins(body[i], '+') && Begins(body[j], '-'))
  }

  predicate Begins(l: string, c: char) { l != "" && l[0] == c }

  function EndOf(h: Hunk): Pair
    requires Numbered(h)
  {
    Pair(Start(h).x + h.nx, Start(h).y + h.ny)
  }

  /** A hunk has three common lines at either end, or fewer at the ends of both texts; never six in a row;
      and what is removed stands before what is added. */
  ghost predicate Framed(x: seq<string>, y: seq<string>, h: Hunk)
  {
    var n := |h.body|;
    && Numbered(h) && NoRun(h.body) && Sorted(h.body) && Near(h.body, 0, 4) && Near(h.body, if n >= 4 then n - 4 else 0, 4)
    && (Start(h) == Pair(0, 0) || Blanks(h.body, 0, 3))
    && (EndOf(h) == Pair(|x|, |y|) || (n >= 3 && Blanks(h.body, n - 3, 3)))
  }

  ghost predicate AllFramed(x: seq<string>, y: seq<string>, hs: seq<Hunk>)
  {
    forall i :: 0 <= i < |hs| ==> Framed(x, y, hs[i])
  }

  /** So begins the text of a chunk. */
  ghost predicate Begun(chunk: Pair, ctext: seq<string>)
  {
    && NoRun(ctext) && (chunk == Pair(0, 0) || Blanks(ctext, 0, 3)) && (|ctext| >= 4 ==> Near(ctext, 0, 4))
    && Sorted(ctext) && (ctext != [] ==> Blank(ctext[|ctext| - 1]))
  }

  /** It ends with a marked line, if it is not empty. */
  ghost predicate Broken(chunk: Pair, ctext: seq<string>)
  {
    && NoRun(ctext) && Sorted(ctext) && (chunk == Pair(0, 0) || Blanks(ctext, 0, 3))
    && (if ctext == [] then chunk == Pair(0, 0) else !Blank(ctext[|ctext| - 1]) && Near(ctext, 0, 4))
  }

  lemma NearLonger(body: seq<string>, more: seq<string>, i: nat, n: nat)
    requires Near(body, i, n)
    ensures Near(body + more, i, n)
  {
    var k :| i <= k < i + n && k < |body| && !Blank(body[k]);
    assert (body + more)[k] == body[k];
  }

  lemma BlanksLonger(body: seq<string>, more: seq<string>, i: nat, n: nat)
    requires Blanks(body, i, n)
    ensures Blanks(body + more, i, n)
  {
  }

  /** No line is removed behind one that is added. */
  lemma SortedBoth(a: seq<string>, b: seq<string>)
    requires Sorted(a) && Sorted(b) && (a != [] && b != [] ==> !(Begins(a[|a| - 1], '+') && Begins(b[0], '-')))
    ensures Sorted(a + b)
  {
    var all := a + b;
    forall i, j | 0 <= i && j == i + 1 && j < |all|
      ensures !(Begins(all[i], '+') && Begins(all[j], '-'))
    {
      if j < |a| {
        assert !(Begins(a[i], '+') && Begins(a[j], '-'));
      } else if i >= |a| {
        var k, m := i - |a|, j - |a|;
        assert !(Begins(b[k], '+') && Begins(b[m], '-'));
      }
    }
  }

  ghost predicate AllBegin(ls: seq<string>, c: char) { forall i :: 0 <= i < |ls| ==> Begins(ls[i], c) }

  lemma MarksBegin(c: char, ls: seq<string>)
    ensures AllBegin(Mark(c, ls), c) && Sorted(Mark(c, ls))
  {
    forall k | 0 <= k < |ls|
      ensures Begins(Mark(c, ls)[k], c)
    {
      MarkAt(c, ls, k);
    }
    hide Mark;
  }

  lemma SortedMarks(ctext: seq<string>, a: seq<string>, b: seq<string>)
    requires Sorted(ctext) && (ctext != [] ==> Blank(ctext[|ctext| - 1]))
    requires AllBegin(a, '-') && Sorted(a) && AllBegin(b, '+') && Sorted(b)
    ensures Sorted(ctext + (a + b))
  {
    hide Sorted;
    SortedBoth(a, b);
    SortedBoth(ctext, a + b);
  }

  lemma SortedBlank(ctext: seq<string>, bs: seq<string>)
    requires Sorted(ctext) && Sorted(bs) && AllBegin(bs, ' ')
    ensures Sorted(ctext + bs)
  {
    hide Sorted;
    SortedBoth(ctext, bs);
  }

  ghost predicate NoneBlank(ls: seq<string>) { forall i :: 0 <= i < |ls| ==> !Blank(ls[i]) }

  lemma BreakBegun(chunk: Pair, ctext: seq<string>, ls: seq<string>)
    requires Begun(chunk, ctext) && NoneBlank(ls) && ls != [] && Sorted(ctext + ls)
    ensures Broken(chunk, ctext + ls)
  {
    var all := ctext + ls;
    forall i: nat | i + 6 <= |all|
      ensures Near(all, i, 6)
    {
      if i + 6 <= |ctext| {
        NearLonger(ctext, ls, i, 6);
      } else {
        assert all[i + 5] == ls[i + 5 - |ctext|];
      }
    }
    if |ctext| >= 4 {
      NearLonger(ctext, ls, 0, 4);
    } else {
      assert all[|ctext|] == ls[0];
    }
    if chunk != Pair(0, 0) {
      BlanksLonger(ctext, ls, 0, 3);
    }
    assert all[|all| - 1] == ls[|ls| - 1];
  }

  /** Fewer than six common lines behind a marked one. */
  lemma RunShort(ctext: seq<string>, ls: seq<string>)
    requires NoRun(ctext) && |ls| < 6 && (ctext != [] ==> !Blank(ctext[|ctext| - 1]))
    ensures NoRun(ctext + ls)
  {
    var all := ctext + ls;
    forall i: nat | i + 6 <= |all|
      ensures Near(all, i, 6)
    {
      if i + 6 <= |ctext| {
        NearLonger(ctext, ls, i, 6);
      } else {
        assert all[|ctext| - 1] == ctext[|ctext| - 1];
      }
    }
  }

  lemma JoinBegun(chunk: Pair, ctext: seq<string>, ls: seq<string>)
    requires Broken(chunk, ctext) && |ls| < 6 && (if ctext == [] then |ls| < 3 else ls != [])
    ensures Begun(chunk, ctext + Mark(' ', ls))
  {
    MarksBegin(' ', ls);
    MarksBlank(ls);
    JoinsBegun(chunk, ctext, Mark(' ', ls));
  }

  lemma JoinsBegun(chunk: Pair, ctext: seq<string>, ls: seq<string>)
    requires Broken(chunk, ctext) && |ls| < 6 && (if ctext == [] then |ls| < 3 else ls != [])
    requires AllBegin(ls, ' ') && Sorted(ls) && Blanks(ls, 0, |ls|)
    ensures Begun(chunk, ctext + ls)
  {
    RunShort(ctext, ls);
    SortedBlank(ctext, ls);
    hide NoRun, Sorted;
    if ctext != [] {
      NearLonger(ctext, ls, 0, 4);
      if chunk != Pair(0, 0) {
        BlanksLonger(ctext, ls, 0, 3);
      }
    }
  }

  lemma MarksBlank(ls: seq<string>)
    ensures Blanks(Mark(' ', ls), 0, |ls|)
  {
    forall k | 0 <= k < |ls|
      ensures Blank(Mark(' ', ls)[k])
    {
      MarkAt(' ', ls, k);
    }
    hide Mark;
  }

  lemma MarksNotBlank(c: char, ls: seq<string>)
    requires c != ' '
    ensures NoneBlank(Mark(c, ls))
  {
    forall k | 0 <= k < |ls|
      ensures !Blank(Mark(c, ls)[k])
    {
      MarkAt(c, ls, k);
    }
    hide Mark;
  }

  lemma FirstBegun(chunk: Pair, ls: seq<string>)
    requires |ls| == 3
    ensures Begun(chunk, Mark(' ', ls))
  {
    MarksBlank(ls);
    MarksBegin(' ', ls);
    hide Mark;
  }

  lemma WrittenFramed(x: seq<string>, y: seq<string>, chunk: Pair, ctext: seq<string>, ls: seq<string>, h: Hunk)
    requires Broken(chunk, ctext) && ctext != [] && |ls| <= 3 && Numbered(h) && Start(h) == chunk && h.body == ctext + Mark(' ', ls)
    requires |ls| == 3 || EndOf(h) == Pair(|x|, |y|)
    ensures Framed(x, y, h)
  {
    MarksBlank(ls);
    MarksBegin(' ', ls);
    hide Mark;
    var bs := Mark(' ', ls);
    RunShort(ctext, bs);
    SortedBlank(ctext, bs);
    hide Sorted;
    NearLonger(ctext, bs, 0, 4);
    if chunk != Pair(0, 0) {
      BlanksLonger(ctext, bs, 0, 3);
    }
    hide NoRun;
    assert h.body[|ctext| - 1] == ctext[|ctext| - 1];
    if |ls| == 3 {
      assert forall k :: 0 <= k < 3 ==> h.body[|ctext| + k] == bs[k];
    }
  }

  // ---------------------------------------------------------------- anchors stay

  /** p stays in what is written or collected. */
  ghost predicate Safe(out: seq<Hunk>, chunk: Pair, ctext: seq<string>, p: Pair)
  {
    Kept(out, chunk, p) || KeptIn(ctext, chunk, p)
  }

  lemma KeptLonger(body: seq<string>, more: seq<string>, s: Pair, p: Pair)
    requires KeptIn(body, s, p)
    ensures KeptIn(body + more, s, p)
  {
    var k: nat :| KeptAt(body, s, k, p);
    assert (body + more)[..k] == body[..k];
    assert KeptAt(body + more, s, k, p);
  }

  lemma KeptBlank(body: seq<string>, ls: seq<string>, s: Pair, k: nat)
    requires k < |ls|
    ensures KeptIn(body + Mark(' ', ls), s, Pair(s.x + |Old(body)| + k, s.y + |New(body)| + k))
  {
    hide *;
    BlankSides(body, ls, k);
    BlankLine(body, ls, k);
    BlankKept(body + Mark(' ', ls), s, |body| + k, Pair(s.x + |Old(body)| + k, s.y + |New(body)| + k));
  }

  lemma BlankLine(body: seq<string>, ls: seq<string>, k: nat)
    requires k < |ls|
    ensures |body + Mark(' ', ls)| == |body| + |ls| && Blank((body + Mark(' ', ls))[|body| + k])
  {
    MarkAt(' ', ls, k);
    hide Mark;
  }

  lemma BlankKept(all: seq<string>, s: Pair, k: nat, p: Pair)
    requires k < |all| && Blank(all[k]) && p == Pair(s.x + |Old(all[..k])|, s.y + |New(all[..k])|)
    ensures KeptIn(all, s, p)
  {
    assert KeptAt(all, s, k, p);
  }

  lemma {:induction false} BlankSides(body: seq<string>, ls: seq<string>, k: nat)
    requires k <= |ls|
    ensures var all := body + Mark(' ', ls);
      |Old(all[..|body| + k])| == |Old(body)| + k && |New(all[..|body| + k])| == |New(body)| + k
  {
    var all := body + Mark(' ', ls);
    if k == 0 {
      assert all[..|body|] == body;
    } else {
      BlankSides(body, ls, k - 1);
      MarkAt(' ', ls, k - 1);
      hide Mark;
      var n := |body| + k;
      assert all[..n][..n - 1] == all[..n - 1] && all[..n][n - 1] == all[n - 1];
      assert all[n - 1] == [' '] + ls[k - 1];
    }
  }

  /** Common lines that are added stay, and so does what stayed. */
  lemma SafeCommon(x: seq<string>, y: seq<string>, out: seq<Hunk>, chunk: Pair, count: Pair, ctext: seq<string>, start: Pair, n: nat, p: Pair)
    requires Pending(x, y, out, chunk, count, ctext, start) && start.x + n <= |x|
    ensures Safe(out, chunk, ctext, p) || Along(start, Pair(start.x + n, start.y + n), p) ==>
      Safe(out, chunk, ctext + Mark(' ', x[start.x..start.x + n]), p)
  {
    hide Fit, Signed, Side, Mark, KeptIn, Kept;
    var ls := x[start.x..start.x + n];
    if KeptIn(ctext, chunk, p) {
      KeptLonger(ctext, Mark(' ', ls), chunk, p);
    }
    if Along(start, Pair(start.x + n, start.y + n), p) {
      assert |x[chunk.x..start.x]| == |Old(ctext)| && |y[chunk.y..start.y]| == |New(ctext)|;
      KeptBlank(ctext, ls, chunk, p.x - start.x);
    }
  }

  lemma SafeGrown(out: seq<Hunk>, chunk: Pair, ctext: seq<string>, ctext': seq<string>, p: Pair)
    requires Safe(out, chunk, ctext, p) && ctext <= ctext'
    ensures Safe(out, chunk, ctext', p)
  {
    hide Kept, KeptIn;
    if KeptIn(ctext, chunk, p) {
      KeptLonger(ctext, ctext'[|ctext|..], chunk, p);
      assert ctext + ctext'[|ctext|..] == ctext';
    }
  }

  lemma SafeWritten(out: seq<Hunk>, h: Hunk, done: Pair, p: Pair)
    requires Numbered(h) && Safe(out, Start(h), h.body, p)
    ensures Kept(out + [h], done, p)
  {
    assert (out + [h])[..|out|] == out;
    hide KeptIn;
  }

  lemma SafeFurther(x: seq<string>, y: seq<string>, out: seq<Hunk>, done: Pair, end: Pair, p: Pair)
    requires Fit(x, y, out, done) && Diagonal(x, y, done, end)
    ensures Kept(out, done, p) || Along(done, end, p) ==> Kept(out, end, p)
  {
    assert |x[done.x..end.x]| == |y[done.y..end.y]|;
    if out == [] {
      assert |x[..done.x]| == |y[..done.y]|;
    } else {
      var h := out[|out| - 1];
      var s := Start(h);
      assert |x[s.x + h.nx..done.x]| == |y[s.y + h.ny..done.y]|;
      hide Old, New, Signed, KeptIn;
    }
  }

  /** The anchors before the i-th, and the common lines from last to done, stay. */
  ghost predicate AllSafe(s: seq<Pair>, i: nat, last: Pair, done: Pair, out: seq<Hunk>, chunk: Pair, ctext: seq<string>)
  {
    && (forall j :: 0 < j < i && j < |s| - 1 ==> Safe(out, chunk, ctext, s[j]))
    && (forall p :: Along(last, done, p) ==> Safe(out, chunk, ctext, p))
  }

  ghost predicate AllKept(s: seq<Pair>, out: seq<Hunk>, e: Pair)
  {
    forall j :: 0 < j < |s| - 1 ==> Kept(out, e, s[j])
  }

  /** A unique match between the ends of common lines is one of them. */
  lemma MatchAlong(x: seq<string>, y: seq<string>, last: Pair, done: Pair, m: Pair)
    requires Diagonal(x, y, last, done) && UniqueMatch(x, y, m) && last.x <= m.x < done.x
    ensures Along(last, done, m)
  {
    var k := m.x - last.x;
    assert |x[last.x..done.x]| == |y[last.y..done.y]|;
    assert x[last.x..done.x][k] == x[m.x] && y[last.y..done.y][k] == y[last.y + k];
    if last.y + k < m.y {
      SeenTwice(y, last.y + k, m.y);
    } else if m.y < last.y + k {
      SeenTwice(y, m.y, last.y + k);
    }
  }

  lemma MatchInside(x: seq<string>, y: seq<string>, start: Pair, end: Pair, m: Pair)
    requires Diagonal(x, y, start, m) && Diagonal(x, y, m, end) && UniqueMatch(x, y, m)
    requires end.x >= |x| || end.y >= |y| || x[end.x] != y[end.y]
    ensures Along(start, end, m)
  {
    assert |x[start.x..m.x]| == |y[start.y..m.y]| && |x[m.x..end.x]| == |y[m.y..end.y]|;
  }

  lemma AlongLonger(x: seq<string>, y: seq<string>, start: Pair, m: Pair, end: Pair, p: Pair)
    requires Diagonal(x, y, start, m) && Along(m, end, p)
    ensures Along(start, end, p)
  {
    assert |x[start.x..m.x]| == |y[start.y..m.y]|;
  }

  lemma MatchBelow(x: seq<string>, y: seq<string>, p: Pair)
    requires UniqueMatch(x, y, p)
    ensures p.x < |x|
  {
  }

  /** Anchors as the loop uses them: never going back, unique matches between the sentinels. */
  ghost predicate Course(x: seq<string>, y: seq<string>, s: seq<Pair>)
  {
    && |s| >= 2 && s[0] == Pair(0, 0) && s[|s| - 1] == Pair(|x|, |y|)
    && (forall i :: 0 <= i < |s| ==> s[i].x <= |x| && s[i].y <= |y|)
    && (forall i, j :: 0 <= i < j < |s| ==> s[i].x <= s[j].x && s[i].y <= s[j].y)
    && (forall i :: 0 < i < |s| - 1 ==> UniqueMatch(x, y, s[i]))
  }

  lemma AnchorsCourse(x: seq<string>, y: seq<string>, s: seq<Pair>)
    requires IsAnchors(x, y, s)
    ensures Course(x, y, s)
  {
    var c := s[1..|s| - 1];
    forall i | 0 < i < |s| - 1
      ensures UniqueMatch(x, y, s[i])
    {
      assert c[i - 1] == s[i];
    }
    forall i, j | 0 <= i < j < |s|
      ensures s[i].x <= s[j].x && s[i].y <= s[j].y
    {
      if 0 < i && j < |s| - 1 {
        assert c[i - 1] == s[i] && c[j - 1] == s[j];
      }
    }
  }

  /** The hunk holds the chunk and the common lines up to done. */
  ghost predicate Written(x: seq<string>, chunk: Pair, ctext: seq<string>, start: Pair, done: Pair, h: Hunk)
  {
    && start.x <= done.x <= |x|
    && Numbered(h) && Start(h) == chunk && h.body == ctext + Mark(' ', x[start.x..done.x])
    && chunk.x + h.nx == done.x && chunk.y + h.ny == done.y
  }

  /** Without lines nothing is written; otherwise one more hunk, with at most C lines of context. */
  ghost predicate EndsChunk(x: seq<string>, out: seq<Hunk>, chunk: Pair, ctext: seq<string>, start: Pair, end: Pair, out': seq<Hunk>, done: Pair)
  {
    if ctext == [] then out' == out && done == start
    else
      && |out'| == |out| + 1 && out'[..|out|] == out && Written(x, chunk, ctext, start, done, out'[|out|])
      && done.x - start.x == if end.x - start.x > C then C else end.x - start.x
  }

  /** Ends the chunk, if there is one, with at most C lines of context, and writes it. */
  method EndChunk(x: seq<string>, y: seq<string>, out: seq<Hunk>, chunk: Pair, count: Pair, ctext: seq<string>, start: Pair, end: Pair)
    returns (out': seq<Hunk>, done: Pair)
    requires Pending(x, y, out, chunk, count, ctext, start)
    requires Diagonal(x, y, start, end)
    ensures Fit(x, y, out', done) && Diagonal(x, y, start, done) && Diagonal(x, y, done, end)
    ensures EndsChunk(x, out, chunk, ctext, start, end, out', done)
  {
    hide Fit, Side, Mark;
    assert x[start.x..start.x] == y[start.y..start.y];
    out', done := out, start;
    if |ctext| == 0 {
      EmptyChunk(x, y, out, chunk, count, start);
    }
    if |ctext| > 0 {
      var n := if end.x - start.x > C then C else end.x - start.x;
      SubDiagonal(x, y, start, end, 0, n);
      SubDiagonal(x, y, start, end, n, end.x - start.x);
      var text, size := Common(x, y, out, chunk, count, ctext, start, n);
      done := Pair(start.x + n, start.y + n);
      var h := Hunk(if size.x > 0 then chunk.x + 1 else chunk.x, size.x, if size.y > 0 then chunk.y + 1 else chunk.y, size.y, text);
      Write(x, y, out, chunk, size, text, done, h);
      out' := out + [h];
    }
  }

  lemma EnoughLeft(x: seq<string>, out: seq<Hunk>, chunk: Pair, ctext: seq<string>, start: Pair, end: Pair, out': seq<Hunk>, done: Pair)
    requires EndsChunk(x, out, chunk, ctext, start, end, out', done)
    requires start.x + C <= end.x && (ctext != [] ==> start.x + 2 * C <= end.x)
    ensures done.x + C <= end.x
  {
    hide Written;
  }

  ghost predicate StartsChunk(x: seq<string>, y: seq<string>, out: seq<Hunk>, done: Pair, end: Pair, chunk: Pair, ctext: seq<string>)
  {
    && chunk.x + C == end.x <= |x| && chunk.y + C == end.y
    && Diagonal(x, y, done, chunk) && Diagonal(x, y, chunk, end) && Fit(x, y, out, chunk)
    && ctext == Mark(' ', x[chunk.x..end.x])
  }

  /** Starts a chunk with the last C common lines. */
  method StartChunk(x: seq<string>, y: seq<string>, ghost out: seq<Hunk>, ghost done: Pair, end: Pair)
    returns (chunk: Pair, ctext: seq<string>, count: Pair)
    requires Fit(x, y, out, done) && Diagonal(x, y, done, end) && done.x + C <= end.x
    ensures Pending(x, y, out, chunk, count, ctext, end)
    ensures StartsChunk(x, y, out, done, end, chunk, ctext)
  {
    hide Fit, Side, Mark;
    assert |x[done.x..end.x]| == |y[done.y..end.y]|;
    SubDiagonal(x, y, done, end, 0, end.x - C - done.x);
    SubDiagonal(x, y, done, end, end.x - C - done.x, end.x - done.x);
    chunk := Pair(end.x - C, end.y - C);
    Extend(x, y, out, done, chunk);
    FreshChunk(x, y, out, chunk);
    ctext, count := Common(x, y, out, chunk, Pair(0, 0), [], chunk, C);
  }

  lemma AlongParts(x: seq<string>, y: seq<string>, a: Pair, b: Pair, c: Pair, p: Pair)
    requires Diagonal(x, y, a, b) && Diagonal(x, y, b, c)
    ensures Along(a, c, p) ==> Along(a, b, p) || Along(b, c, p)
  {
    assert |x[a.x..b.x]| == |y[a.y..b.y]|;
  }

  lemma NothingWritten(x: seq<string>, y: seq<string>, out: seq<Hunk>, chunk: Pair, count: Pair, start: Pair, p: Pair)
    requires Pending(x, y, out, chunk, count, [], start) && Safe(out, chunk, [], p)
    ensures Kept(out, start, p)
  {
    EmptyChunk(x, y, out, chunk, count, start);
    assert !KeptIn([], chunk, p);
    hide Fit, Kept;
  }

  /** Once the chunk is written, all of it stays. */
  lemma WrittenSafe(x: seq<string>, y: seq<string>, out: seq<Hunk>, chunk: Pair, count: Pair, ctext: seq<string>, start: Pair,
      end: Pair, out': seq<Hunk>, done: Pair, p: Pair)
    requires Pending(x, y, out, chunk, count, ctext, start) && Diagonal(x, y, start, done)
    requires EndsChunk(x, out, chunk, ctext, start, end, out', done)
    requires Safe(out, chunk, ctext, p) || Along(start, done, p)
    ensures Kept(out', done, p)
  {
    EndsIn(x, y, start, done);
    hide Fit, Kept, KeptIn, Pending, Signed, Side, Mark, Safe, Diagonal;
    if ctext == [] {
      NothingWritten(x, y, out, chunk, count, start, p);
    } else {
      var h := out'[|out|];
      assert out' == out + [h];
      SafeCommon(x, y, out, chunk, count, ctext, start, done.x - start.x, p);
      SafeWritten(out, h, done, p);
    }
  }

  /** With the common lines behind it, of which the last ones start the next chunk. */
  lemma NextSafe(x: seq<string>, y: seq<string>, out: seq<Hunk>, done: Pair, chunk: Pair, end: Pair, ctext: seq<string>, p: Pair)
    requires Fit(x, y, out, done) && Fit(x, y, out, chunk) && Diagonal(x, y, done, chunk) && Diagonal(x, y, chunk, end)
    requires ctext == Mark(' ', x[chunk.x..end.x])
    requires Kept(out, done, p) || Along(done, end, p)
    ensures Safe(out, chunk, ctext, p)
  {
    hide *;
    if Kept(out, done, p) {
      SafeFurther(x, y, out, done, chunk, p);
      KeptSafe(out, chunk, ctext, p);
    } else {
      AlongParts(x, y, done, chunk, end, p);
      if Along(done, chunk, p) {
        SafeFurther(x, y, out, done, chunk, p);
        KeptSafe(out, chunk, ctext, p);
      } else {
        ContextSafe(x, y, out, chunk, end, p);
      }
    }
  }

  lemma KeptSafe(out: seq<Hunk>, chunk: Pair, ctext: seq<string>, p: Pair)
    requires Kept(out, chunk, p)
    ensures Safe(out, chunk, ctext, p)
  {
    hide Kept, KeptIn;
  }

  lemma ContextSafe(x: seq<string>, y: seq<string>, out: seq<Hunk>, chunk: Pair, end: Pair, p: Pair)
    requires Fit(x, y, out, chunk) && Diagonal(x, y, chunk, end) && Along(chunk, end, p)
    ensures chunk.x <= end.x <= |x| && Safe(out, chunk, Mark(' ', x[chunk.x..end.x]), p)
  {
    EndsIn(x, y, chunk, end);
    FreshChunk(x, y, out, chunk);
    hide *;
    SafeCommon(x, y, out, chunk, Pair(0, 0), [], chunk, end.x - chunk.x, p);
    NoneBefore(Mark(' ', x[chunk.x..chunk.x + (end.x - chunk.x)]));
  }

  lemma NoneBefore(a: seq<string>)
    ensures [] + a == a
  {
  }

  // ---------------------------------------------------------------- the way along the anchors

  /** Common lines do not go on at e, and there are more lines. */
  predicate Stopped(x: seq<string>, y: seq<string>, e: Pair)
  {
    (e.x >= |x| || e.y >= |y| || x[e.x] != y[e.y]) && (e.x < |x| || e.y < |y|)
  }

  /** Before anchor i: its lines and those before it up to done are written or collected. */
  ghost predicate Way(x: seq<string>, y: seq<string>, s: seq<Pair>, i: nat, last: Pair, done: Pair,
      out: seq<Hunk>, chunk: Pair, count: Pair, ctext: seq<string>)
  {
    && Pending(x, y, out, chunk, count, ctext, done)
    && (if i == 0 then done == chunk == Pair(0, 0) && ctext == [] else Stopped(x, y, done))
    && Diagonal(x, y, last, done) && (forall j :: i <= j < |s| ==> last.x <= s[j].x && last.y <= s[j].y)
    && AllSafe(s, i, last, done, out, chunk, ctext) && Begun(chunk, ctext) && AllFramed(x, y, out)
  }

  /** At anchor i: the lines before the common ones around it are collected too. */
  ghost predicate Midway(x: seq<string>, y: seq<string>, s: seq<Pair>, i: nat, start: Pair, end: Pair,
      out: seq<Hunk>, chunk: Pair, count: Pair, ctext: seq<string>)
  {
    && i < |s| && Pending(x, y, out, chunk, count, ctext, start)
    && Diagonal(x, y, start, s[i]) && Diagonal(x, y, s[i], end) && Diagonal(x, y, start, end)
    && (end.x >= |x| || end.y >= |y| || x[end.x] != y[end.y])
    && (forall j :: 0 < j < i && j < |s| - 1 ==> Safe(out, chunk, ctext, s[j]))
    && Broken(chunk, ctext) && AllFramed(x, y, out) && (i == 0 ==> ctext == [])
  }

  ghost predicate Stay(out: seq<Hunk>, done: Pair, end: Pair, p: Pair) { Kept(out, done, p) || Along(done, end, p) }

  /** Behind anchor i: all is written up to done, and the common lines go on to end. */
  ghost predicate Halfway(x: seq<string>, y: seq<string>, s: seq<Pair>, i: nat, end: Pair, out: seq<Hunk>, done: Pair)
  {
    && i < |s| && Fit(x, y, out, done) && Diagonal(x, y, done, end) && Diagonal(x, y, s[i], end) && AllFramed(x, y, out)
    && (end.x >= |x| || end.y >= |y| || x[end.x] != y[end.y])
    && (forall j :: 0 < j <= i && j < |s| - 1 ==> Stay(out, done, end, s[j]))
    && (forall p :: Along(s[i], end, p) ==> Stay(out, done, end, p))
    && (end.x < |x| || end.y < |y| ==> done.x + C <= end.x)
  }

  lemma WayStarts(x: seq<string>, y: seq<string>, s: seq<Pair>)
    requires Course(x, y, s)
    ensures Way(x, y, s, 0, Pair(0, 0), Pair(0, 0), [], Pair(0, 0), Pair(0, 0), [])
  {
    NothingPending(x, y);
    assert x[0..0] == y[0..0];
    hide Pending;
  }

  /** The anchor is not behind what is done, unless the loop skips it. */
  lemma WayPlace(x: seq<string>, y: seq<string>, s: seq<Pair>, i: nat, last: Pair, done: Pair, out: seq<Hunk>, chunk: Pair, count: Pair, ctext: seq<string>)
    requires Course(x, y, s) && i < |s| && Way(x, y, s, i, last, done, out, chunk, count, ctext)
    ensures Pending(x, y, out, chunk, count, ctext, done)
    ensures s[i].x <= |x| && s[i].y <= |y| && done.x <= |x| && done.y <= |y|
    ensures s[i].x >= done.x ==> s[i].y >= done.y
    ensures s[i].x < done.x ==> i + 1 < |s| && Way(x, y, s, i + 1, last, done, out, chunk, count, ctext)
  {
    hide UniqueMatch, Safe, Pending, Begun, AllFramed, Along;
    if 0 < i < |s| - 1 {
      if s[i].x >= done.x {
        NotBehind(x, y, last, done, s[i]);
      } else {
        MatchAlong(x, y, last, done, s[i]);
      }
    }
  }

  /** There are lines to mark before every anchor but the first. */
  lemma LinesBefore(x: seq<string>, y: seq<string>, s: seq<Pair>, i: nat, done: Pair, start: Pair, end: Pair)
    requires Course(x, y, s) && 0 < i < |s| && Stopped(x, y, done) && Stretched(x, y, done, s[i], start, end)
    ensures start != done
  {
    DiagonalFirst(x, y, done, s[i]);
  }

  lemma DiagonalFirst(x: seq<string>, y: seq<string>, a: Pair, b: Pair)
    ensures Diagonal(x, y, a, b) ==> b.x - a.x == b.y - a.y
    ensures Diagonal(x, y, a, b) && a.x < b.x ==> x[a.x] == y[a.y]
  {
    if Diagonal(x, y, a, b) {
      EndsIn(x, y, a, b);
      if a.x < b.x {
        assert x[a.x..b.x][0] == y[a.y..b.y][0];
      }
    }
  }

  lemma FirstAround(x: seq<string>, y: seq<string>, m: Pair, start: Pair, end: Pair)
    requires m == Pair(0, 0) && Stretched(x, y, Pair(0, 0), m, start, end)
    ensures start == m
  {
  }

  lemma WayMid(x: seq<string>, y: seq<string>, s: seq<Pair>, i: nat, last: Pair, done: Pair, out: seq<Hunk>, chunk: Pair, count: Pair, ctext: seq<string>,
      start: Pair, end: Pair, count': Pair, ctext': seq<string>)
    requires Course(x, y, s) && i < |s| && Way(x, y, s, i, last, done, out, chunk, count, ctext) && Stretched(x, y, done, s[i], start, end)
    requires start.x <= |x| && start.y <= |y| && Pending(x, y, out, chunk, count', ctext', start)
    requires ctext' == ctext + Mark('-', x[done.x..start.x]) + Mark('+', y[done.y..start.y])
    ensures Midway(x, y, s, i, start, end, out, chunk, count', ctext')
  {
    hide Pending, Safe, Mark, Diagonal, AllFramed, Course, Begun, Broken, Along;
    MidMarked(x, y, s, i, done, start, end, chunk, ctext, ctext');
    forall j | 0 < j < i && j < |s| - 1
      ensures Safe(out, chunk, ctext', s[j])
    {
      SafeGrown(out, chunk, ctext, ctext', s[j]);
    }
  }

  lemma MidMarked(x: seq<string>, y: seq<string>, s: seq<Pair>, i: nat, done: Pair, start: Pair, end: Pair, chunk: Pair, ctext: seq<string>,
      ctext': seq<string>)
    requires Course(x, y, s) && i < |s| && Stretched(x, y, done, s[i], start, end) && start.x <= |x| && start.y <= |y| && Begun(chunk, ctext)
    requires if i == 0 then done == chunk == Pair(0, 0) && ctext == [] else Stopped(x, y, done)
    requires ctext' == ctext + Mark('-', x[done.x..start.x]) + Mark('+', y[done.y..start.y])
    ensures Broken(chunk, ctext') && ctext <= ctext' && (i == 0 ==> ctext' == [])
  {
    var a, b := Mark('-', x[done.x..start.x]), Mark('+', y[done.y..start.y]);
    MarksNotBlank('-', x[done.x..start.x]);
    MarksNotBlank('+', y[done.y..start.y]);
    MarksBegin('-', x[done.x..start.x]);
    MarksBegin('+', y[done.y..start.y]);
    assert |a| == start.x - done.x && |b| == start.y - done.y;
    if i == 0 {
      FirstSentinel(x, y, s);
      FirstAround(x, y, s[i], start, end);
      assert ctext' == [];
      NothingBroken();
    } else {
      LinesBefore(x, y, s, i, done, start, end);
      assert a + b != [];
      hide *;
      MidBroken(chunk, ctext, a, b);
      Regroup(ctext, a, b);
    }
  }

  lemma Regroup(a: seq<string>, b: seq<string>, c: seq<string>)
    ensures (a + b) + c == a + (b + c) && a <= (a + b) + c
  {
  }

  lemma FirstSentinel(x: seq<string>, y: seq<string>, s: seq<Pair>)
    requires Course(x, y, s)
    ensures s[0] == Pair(0, 0)
  {
  }

  lemma NothingBroken()
    ensures Broken(Pair(0, 0), [])
  {
  }

  lemma MidBroken(chunk: Pair, ctext: seq<string>, a: seq<string>, b: seq<string>)
    requires Begun(chunk, ctext) && NoneBlank(a) && NoneBlank(b) && a + b != []
    requires AllBegin(a, '-') && Sorted(a) && AllBegin(b, '+') && Sorted(b)
    ensures Broken(chunk, ctext + (a + b))
  {
    SortedMarks(ctext, a, b);
    hide Begun, Broken;
    BreakBegun(chunk, ctext, a + b);
  }

  /** All that is collected at anchor i stays, and so do the common lines around it. */
  lemma AnchorAround(x: seq<string>, y: seq<string>, s: seq<Pair>, i: nat, start: Pair, end: Pair)
    requires Course(x, y, s) && i < |s| && Diagonal(x, y, start, s[i]) && Diagonal(x, y, s[i], end)
    requires end.x >= |x| || end.y >= |y| || x[end.x] != y[end.y]
    ensures 0 < i < |s| - 1 ==> Along(start, end, s[i])
    ensures forall p :: Along(s[i], end, p) ==> Along(start, end, p)
  {
    hide UniqueMatch, Along, Diagonal;
    if 0 < i < |s| - 1 {
      MatchInside(x, y, start, end, s[i]);
    }
    forall p | Along(s[i], end, p)
      ensures Along(start, end, p)
    {
      AlongLonger(x, y, start, s[i], end, p);
    }
  }

  /** The common lines around the anchor, and what is marked before them. */
  method MarkNext(x: seq<string>, y: seq<string>, ghost s: seq<Pair>, ghost i: nat, m: Pair, ghost last: Pair, done: Pair,
      ghost out: seq<Hunk>, ghost chunk: Pair, count: Pair, ctext: seq<string>)
    returns (start: Pair, end: Pair, ctext': seq<string>, count': Pair)
    requires Course(x, y, s) && i < |s| && m == s[i] && Way(x, y, s, i, last, done, out, chunk, count, ctext)
    requires Pending(x, y, out, chunk, count, ctext, done) && done.x <= m.x <= |x| && done.y <= m.y <= |y|
    ensures Midway(x, y, s, i, start, end, out, chunk, count', ctext') && start.x <= end.x
  {
    hide *;
    start, end := Stretch(x, y, done, m);
    StretchedIn(x, y, done, m, start, end);
    ctext', count' := Mismatch(x, y, out, chunk, count, ctext, done, start);
    WayMid(x, y, s, i, last, done, out, chunk, count, ctext, start, end, count', ctext');
  }

  /** Common lines that are short join the chunk. */
  method JoinNext(x: seq<string>, y: seq<string>, ghost s: seq<Pair>, ghost i: nat, start: Pair, end: Pair,
      ghost out: seq<Hunk>, ghost chunk: Pair, count: Pair, ctext: seq<string>)
    returns (ctext': seq<string>, count': Pair)
    requires Course(x, y, s) && Midway(x, y, s, i, start, end, out, chunk, count, ctext) && start.x <= end.x
    requires (end.x < |x| || end.y < |y|) && (end.x - start.x < C || (|ctext| > 0 && end.x - start.x < 2 * C))
    ensures i + 1 < |s| && Way(x, y, s, i + 1, s[i], end, out, chunk, count', ctext')
  {
    hide Pending, Safe, Mark, Diagonal, Along, Broken, Begun, AllFramed;
    EndsIn(x, y, start, end);
    AnchorAround(x, y, s, i, start, end);
    NotOver(x, y, s, i, s[i], end);
    if i > 0 {
      AlongSome(start, end, s[i]);
    }
    hide Course;
    assert Pair(start.x + (end.x - start.x), start.y + (end.x - start.x)) == end;
    ctext', count' := Common(x, y, out, chunk, count, ctext, start, end.x - start.x);
    JoinBegun(chunk, ctext, x[start.x..start.x + (end.x - start.x)]);
    JoinSafe(x, y, s, i, start, end, out, chunk, count, ctext, ctext');
    CourseOn(x, y, s, i);
  }

  lemma AlongSome(a: Pair, b: Pair, p: Pair)
    requires Along(a, b, p)
    ensures a.x < b.x
  {
  }

  lemma CourseOn(x: seq<string>, y: seq<string>, s: seq<Pair>, i: nat)
    requires Course(x, y, s) && i + 1 < |s|
    ensures forall j :: i + 1 <= j < |s| ==> s[i].x <= s[j].x && s[i].y <= s[j].y
  {
  }

  lemma JoinSafe(x: seq<string>, y: seq<string>, s: seq<Pair>, i: nat, start: Pair, end: Pair, out: seq<Hunk>, chunk: Pair, count: Pair,
      ctext: seq<string>, ctext': seq<string>)
    requires i < |s| && Pending(x, y, out, chunk, count, ctext, start) && Diagonal(x, y, start, end) && start.x <= end.x <= |x|
    requires ctext' == ctext + Mark(' ', x[start.x..start.x + (end.x - start.x)])
    requires forall j :: 0 < j < i && j < |s| - 1 ==> Safe(out, chunk, ctext, s[j])
    requires 0 < i < |s| - 1 ==> Along(start, end, s[i])
    requires forall p :: Along(s[i], end, p) ==> Along(start, end, p)
    ensures AllSafe(s, i + 1, s[i], end, out, chunk, ctext')
  {
    EndsIn(x, y, start, end);
    hide Pending, Safe, Mark, Along, Diagonal;
    assert end == Pair(start.x + (end.x - start.x), start.y + (end.x - start.x));
    forall p | Safe(out, chunk, ctext, p) || Along(start, end, p)
      ensures Safe(out, chunk, ctext', p)
    {
      SafeCommon(x, y, out, chunk, count, ctext, start, end.x - start.x, p);
    }
  }

  /** Before long common lines, or at the end, the chunk is written. */
  method EndNext(x: seq<string>, y: seq<string>, ghost s: seq<Pair>, ghost i: nat, start: Pair, end: Pair,
      out: seq<Hunk>, chunk: Pair, count: Pair, ctext: seq<string>)
    returns (out': seq<Hunk>, done: Pair)
    requires Course(x, y, s) && Midway(x, y, s, i, start, end, out, chunk, count, ctext) && start.x <= end.x
    requires end.x < |x| || end.y < |y| ==> end.x - start.x >= C && (|ctext| > 0 ==> end.x - start.x >= 2 * C)
    ensures Halfway(x, y, s, i, end, out', done)
  {
    MidwayParts(x, y, s, i, start, end, out, chunk, count, ctext);
    hide *;
    out', done := EndChunk(x, y, out, chunk, count, ctext, start, end);
    HalfwayWhen(x, y, s, i, start, end, out, chunk, count, ctext, out', done);
  }

  lemma MidwayParts(x: seq<string>, y: seq<string>, s: seq<Pair>, i: nat, start: Pair, end: Pair, out: seq<Hunk>, chunk: Pair, count: Pair,
      ctext: seq<string>)
    requires Midway(x, y, s, i, start, end, out, chunk, count, ctext)
    ensures i < |s| && Pending(x, y, out, chunk, count, ctext, start)
    ensures Diagonal(x, y, start, s[i]) && Diagonal(x, y, s[i], end) && Diagonal(x, y, start, end)
    ensures end.x >= |x| || end.y >= |y| || x[end.x] != y[end.y]
    ensures forall j :: 0 < j < i && j < |s| - 1 ==> Safe(out, chunk, ctext, s[j])
    ensures Broken(chunk, ctext) && AllFramed(x, y, out)
  {
    hide Pending, Safe, Diagonal, Broken, AllFramed;
  }

  lemma HalfwayIs(x: seq<string>, y: seq<string>, s: seq<Pair>, i: nat, end: Pair, out: seq<Hunk>, done: Pair)
    requires i < |s| && Fit(x, y, out, done) && Diagonal(x, y, done, end) && Diagonal(x, y, s[i], end) && AllFramed(x, y, out)
    requires end.x >= |x| || end.y >= |y| || x[end.x] != y[end.y]
    requires forall j :: 0 < j <= i && j < |s| - 1 ==> Stay(out, done, end, s[j])
    requires forall p :: Along(s[i], end, p) ==> Stay(out, done, end, p)
    requires end.x < |x| || end.y < |y| ==> done.x + C <= end.x
    ensures Halfway(x, y, s, i, end, out, done)
  {
    hide Fit, Diagonal, AllFramed, Stay, Along;
  }

  lemma HalfwayWhen(x: seq<string>, y: seq<string>, s: seq<Pair>, i: nat, start: Pair, end: Pair, out: seq<Hunk>, chunk: Pair, count: Pair,
      ctext: seq<string>, out': seq<Hunk>, done: Pair)
    requires Course(x, y, s) && Midway(x, y, s, i, start, end, out, chunk, count, ctext) && start.x <= end.x
    requires end.x < |x| || end.y < |y| ==> end.x - start.x >= C && (|ctext| > 0 ==> end.x - start.x >= 2 * C)
    requires Fit(x, y, out', done) && Diagonal(x, y, start, done) && Diagonal(x, y, done, end)
    requires EndsChunk(x, out, chunk, ctext, start, end, out', done)
    ensures Halfway(x, y, s, i, end, out', done)
  {
    hide *;
    MidwayParts(x, y, s, i, start, end, out, chunk, count, ctext);
    EndsIn(x, y, start, end);
    AnchorAround(x, y, s, i, start, end);
    StaySafe(x, y, s, i, start, end, out, chunk, count, ctext, out', done);
    WrittenAll(x, y, out, chunk, ctext, start, end, out', done);
    HalfwayIs(x, y, s, i, end, out', done);
  }

  lemma StaySafe(x: seq<string>, y: seq<string>, s: seq<Pair>, i: nat, start: Pair, end: Pair, out: seq<Hunk>, chunk: Pair, count: Pair,
      ctext: seq<string>, out': seq<Hunk>, done: Pair)
    requires i < |s| && Pending(x, y, out, chunk, count, ctext, start) && Diagonal(x, y, start, done) && Diagonal(x, y, done, end)
    requires EndsChunk(x, out, chunk, ctext, start, end, out', done)
    requires forall j :: 0 < j < i && j < |s| - 1 ==> Safe(out, chunk, ctext, s[j])
    requires 0 < i < |s| - 1 ==> Along(start, end, s[i])
    requires forall p :: Along(s[i], end, p) ==> Along(start, end, p)
    ensures forall j :: 0 < j <= i && j < |s| - 1 ==> Stay(out', done, end, s[j])
    ensures forall p :: Along(s[i], end, p) ==> Stay(out', done, end, p)
  {
    hide Pending, Safe, Mark, Along, Diagonal, EndsChunk, Kept;
    forall p | Safe(out, chunk, ctext, p) || Along(start, end, p)
      ensures Stay(out', done, end, p)
    {
      AlongParts(x, y, start, done, end, p);
      if Safe(out, chunk, ctext, p) || Along(start, done, p) {
        WrittenSafe(x, y, out, chunk, count, ctext, start, end, out', done, p);
      }
    }
  }

  lemma WrittenAll(x: seq<string>, y: seq<string>, out: seq<Hunk>, chunk: Pair, ctext: seq<string>, start: Pair, end: Pair, out': seq<Hunk>, done: Pair)
    requires AllFramed(x, y, out) && Broken(chunk, ctext) && EndsChunk(x, out, chunk, ctext, start, end, out', done)
    requires start.x <= end.x <= |x| && Diagonal(x, y, done, end)
    requires end.x < |x| || end.y < |y| ==> end.x - start.x >= C && (|ctext| > 0 ==> end.x - start.x >= 2 * C)
    ensures AllFramed(x, y, out') && (end.x < |x| || end.y < |y| ==> done.x + C <= end.x)
  {
    EndsIn(x, y, done, end);
    hide Diagonal, Broken, Framed;
    if ctext != [] {
      var h := out'[|out|];
      var ls := x[start.x..done.x];
      if |ls| < 3 {
        assert EndOf(h) == done;
      }
      hide Mark;
      WrittenFramed(x, y, chunk, ctext, ls, h);
      assert out' == out + [h];
    }
  }

  /** The next chunk starts with the last common lines. */
  method StartNext(x: seq<string>, y: seq<string>, ghost s: seq<Pair>, ghost i: nat, end: Pair, ghost out: seq<Hunk>, ghost done: Pair)
    returns (chunk: Pair, ctext: seq<string>, count: Pair)
    requires Course(x, y, s) && Halfway(x, y, s, i, end, out, done) && (end.x < |x| || end.y < |y|)
    ensures i + 1 < |s| && Way(x, y, s, i + 1, s[i], end, out, chunk, count, ctext)
  {
    hide Pending, Safe, Mark, Diagonal, Along, Begun, AllFramed, Fit, Kept, Stay;
    NotOver(x, y, s, i, s[i], end);
    CourseOn(x, y, s, i);
    hide Course;
    chunk, ctext, count := StartChunk(x, y, out, done, end);
    FirstBegun(chunk, x[chunk.x..end.x]);
    NextAll(x, y, s, i, end, out, done, chunk, ctext);
  }

  lemma NextAll(x: seq<string>, y: seq<string>, s: seq<Pair>, i: nat, end: Pair, out: seq<Hunk>, done: Pair, chunk: Pair, ctext: seq<string>)
    requires i < |s| && Fit(x, y, out, done) && StartsChunk(x, y, out, done, end, chunk, ctext)
    requires forall j :: 0 < j <= i && j < |s| - 1 ==> Stay(out, done, end, s[j])
    requires forall p :: Along(s[i], end, p) ==> Stay(out, done, end, p)
    ensures AllSafe(s, i + 1, s[i], end, out, chunk, ctext)
  {
    forall p | Stay(out, done, end, p)
      ensures Safe(out, chunk, ctext, p)
    {
      NextSafe(x, y, out, done, chunk, end, ctext, p);
    }
    hide Fit, Kept, Along, Diagonal, Mark, Safe, Stay;
  }

  /** At the end of both texts all anchors stay. */
  lemma OverAll(x: seq<string>, y: seq<string>, s: seq<Pair>, i: nat, end: Pair, out: seq<Hunk>, done: Pair)
    requires Course(x, y, s) && Halfway(x, y, s, i, end, out, done) && end.x >= |x| && end.y >= |y|
    ensures Fit(x, y, out, Pair(|x|, |y|)) && AllKept(s, out, Pair(|x|, |y|)) && AllFramed(x, y, out)
  {
    EndsIn(x, y, done, end);
    EndsIn(x, y, s[i], end);
    hide Along, Diagonal, Kept, UniqueMatch, AllFramed, Fit;
    Extend(x, y, out, done, end) by { DiagonalMeans(x, y, done, end); }
    forall j | 0 < j < |s| - 1
      ensures Kept(out, end, s[j])
    {
      if j > i {
        MatchBelow(x, y, s[j]);
        MatchAlong(x, y, s[i], end, s[j]);
      }
      assert Stay(out, done, end, s[j]);
      SafeFurther(x, y, out, done, end, s[j]);
    }
  }

  lemma DiagonalMeans(x: seq<string>, y: seq<string>, a: Pair, b: Pair)
    requires Diagonal(x, y, a, b)
    ensures a.x <= b.x <= |x| && a.y <= b.y <= |y| && x[a.x..b.x] == y[a.y..b.y]
  {
  }

  /** Diff over lines, as written: every anchor is stretched to the common lines around it; the
      mismatched lines before it join the chunk, which ends at a long enough common stretch.  Every anchor
      is a line that stays. */
  method DiffAlong(x: seq<string>, y: seq<string>, s: seq<Pair>) returns (out: seq<Hunk>)
    requires Course(x, y, s)
    ensures Fit(x, y, out, Pair(|x|, |y|)) && AllKept(s, out, Pair(|x|, |y|)) && AllFramed(x, y, out)
  {
    WayStarts(x, y, s);
    assert |s| > 0;
    hide *;
    var done, chunk, count := Pair(0, 0), Pair(0, 0), Pair(0, 0);
    var ctext: seq<string> := [];
    ghost var last := Pair(0, 0);
    out := [];
    var i := 0;
    while i < |s|
      invariant i < |s|
      invariant Way(x, y, s, i, last, done, out, chunk, count, ctext)
    {
      WayPlace(x, y, s, i, last, done, out, chunk, count, ctext);
      var m := s[i];
      if m.x < done.x {
        i := i + 1;
        continue;
      }
      var start, end;
      start, end, ctext, count := MarkNext(x, y, s, i, m, last, done, out, chunk, count, ctext);
      if (end.x < |x| || end.y < |y|) && (end.x - start.x < C || (|ctext| > 0 && end.x - start.x < 2 * C)) {
        ctext, count := JoinNext(x, y, s, i, start, end, out, chunk, count, ctext);
        last, done := m, end;
        i := i + 1;
        continue;
      }
      out, done := EndNext(x, y, s, i, start, end, out, chunk, count, ctext);
      if end.x >= |x| && end.y >= |y| {
        OverAll(x, y, s, i, end, out, done);
        break;
      }
      chunk, ctext, count := StartNext(x, y, s, i, end, out, done);
      last, done := m, end;
      i := i + 1;
    }
  }

  lemma StretchedIn(x: seq<string>, y: seq<string>, done: Pair, m: Pair, start: Pair, end: Pair)
    requires Stretched(x, y, done, m, start, end)
    ensures Diagonal(x, y, start, end) && done.x <= start.x <= end.x <= |x| && done.y <= start.y <= end.y <= |y|
    ensures end.x - start.x == end.y - start.y
    ensures Pair(start.x + (end.x - start.x), start.y + (end.x - start.x)) == end
  {
    EndsIn(x, y, start, end);
  }

  lemma EndsIn(x: seq<string>, y: seq<string>, start: Pair, end: Pair)
    requires Diagonal(x, y, start, end)
    ensures start.x <= end.x <= |x| && start.y <= end.y <= |y| && end.x - start.x == end.y - start.y
  {
    assert |x[start.x..end.x]| == |y[start.y..end.y]|;
  }

  /** Behind the last anchor there are no lines. */
  lemma NotOver(x: seq<string>, y: seq<string>, s: seq<Pair>, i: nat, m: Pair, end: Pair)
    requires Course(x, y, s) && i < |s| && m == s[i] && Diagonal(x, y, m, end) && (end.x < |x| || end.y < |y|)
    ensures i + 1 < |s|
  {
  }

  // ---------------------------------------------------------------- lines of a text

  const NoNewline: string := "\n\\ No newline at end of file\n"

  /** The position of the first newline, or the length. */
  function FirstNewline(t: string): (i: nat)
    ensures i <= |t| && '\n' !in t[..i]
    ensures i < |t| ==> t[i] == '\n'
  {
    if t == "" || t[0] == '\n' then 0 else 1 + FirstNewline(t[1..])
  }

  /** strings.SplitAfter with a newline. */
  function SplitAfter(t: string): (ls: seq<string>)
    ensures |ls| > 0
    decreases |t|
  {
    var i := FirstNewline(t);
    if i == |t| then [t] else [t[..i + 1]] + SplitAfter(t[i + 1..])
  }

  function Lines(t: string): seq<string>
  {
    var l := SplitAfter(t);
    var last := |l| - 1;
    if l[last] == "" then l[..last] else l[last := l[last] + NoNewline]
  }

  function Concat(ls: seq<string>): string
  {
    if ls == [] then "" else ls[0] + Concat(ls[1..])
  }

  /** The text behind a list of lines: the note about the missing newline is dropped again. */
  function Text(ls: seq<string>): string
  {
    if ls == [] then ""
    else
      var last := ls[|ls| - 1];
      var k := |last| - |NoNewline|;
      Concat(ls[..|ls| - 1]) + (if k >= 0 && last[k..] == NoNewline then last[..k] else last)
  }

  ghost predicate OneNewline(l: string)
  {
    l != "" && l[|l| - 1] == '\n' && '\n' !in l[..|l| - 1]
  }

  ghost predicate Shaped(ls: seq<string>, t: string)
  {
    && |ls| > 0 && Concat(ls) == t
    && '\n' !in ls[|ls| - 1]
    && forall i :: 0 <= i < |ls| - 1 ==> OneNewline(ls[i])
  }

  lemma ShapeCons(l: string, ls: seq<string>, t: string)
    requires OneNewline(l) && Shaped(ls, t)
    ensures Shaped([l] + ls, l + t)
  {
    assert ([l] + ls)[1..] == ls;
  }

  lemma {:induction false} SplitShape(t: string)
    ensures Shaped(SplitAfter(t), t)
    decreases |t|
  {
    var i := FirstNewline(t);
    if i == |t| {
      assert t[..i] == t;
    } else {
      SplitShape(t[i + 1..]);
      assert t[..i + 1] + t[i + 1..] == t;
      assert t[..i + 1][..i] == t[..i];
      ShapeCons(t[..i + 1], SplitAfter(t[i + 1..]), t[i + 1..]);
    }
  }

  lemma {:induction false} ConcatSnoc(a: seq<string>, l: string)
    ensures Concat(a + [l]) == Concat(a) + l
  {
    if a == [] {
      assert [l][1..] == [];
    } else {
      ConcatSnoc(a[1..], l);
      assert (a + [l])[1..] == a[1..] + [l];
    }
  }

  lemma NotTheNote(l: string)
    requires OneNewline(l)
    ensures |l| >= |NoNewline| ==> l[|l| - |NoNewline|..] != NoNewline
  {
    var k := |l| - |NoNewline|;
    if k >= 0 {
      assert l[k..][0] == l[k];
      assert l[..|l| - 1][k] == l[k];
    }
  }

  lemma TextOfLast(ls: seq<string>, l: string)
    requires |l| >= |NoNewline| ==> l[|l| - |NoNewline|..] != NoNewline
    ensures Text(ls + [l]) == Concat(ls + [l])
  {
    var all := ls + [l];
    assert all[..|ls|] == ls && all[|ls|] == l;
    ConcatSnoc(ls, l);
  }

  lemma TextOfNoted(ls: seq<string>, l: string)
    ensures Text(ls + [l + NoNewline]) == Concat(ls + [l])
  {
    ConcatSnoc(ls, l);
    assert (ls + [l + NoNewline])[..|ls|] == ls;
    assert (l + NoNewline)[|l|..] == NoNewline && (l + NoNewline)[..|l|] == l;
  }

  /** No text is lost: equal lists of lines come from equal texts. */
  lemma LinesRecoverText(t: string)
    ensures Text(Lines(t)) == t
  {
    var ls := SplitAfter(t);
    var n := |ls| - 1;
    SplitShape(t);
    hide SplitAfter, Text, Concat, OneNewline;
    assert ls == ls[..n] + [ls[n]];
    ConcatSnoc(ls[..n], ls[n]);
    if ls[n] != "" {
      TextOfNoted(ls[..n], ls[n]);
      assert Lines(t) == ls[..n] + [ls[n] + NoNewline];
    } else if n > 0 {
      assert ls[..n] == ls[..n - 1] + [ls[n - 1]];
      NotTheNote(ls[n - 1]);
      TextOfLast(ls[..n - 1], ls[n - 1]);
      NothingMore(Concat(ls[..n]));
    } else {
      NoLines(ls[..n]);
    }
  }

  lemma NothingMore(s: string)
    ensures s + "" == s
  {
  }

  lemma NoLines(ls: seq<string>)
    requires ls == []
    ensures Concat(ls) == "" && Text(ls) == "" && "" + "" == ""
  {
  }

  /** The hunks mark the fewest unique lines: no chain of lines that are unique in both texts has more of
      them than stay, and no other hunks between these texts let more of them stay. */
  ghost predicate Fewest(x: seq<string>, y: seq<string>, hs: seq<Hunk>)
  {
    && (forall c :: UniqueChain(x, y, c) ==> |c| <= |KeptUnique(x, y, hs)|)
    && (forall other :: Fit(x, y, other, Pair(|x|, |y|)) ==> |KeptUnique(x, y, other)| <= |KeptUnique(x, y, hs)|)
  }

  lemma ChainsKept(x: seq<string>, y: seq<string>, hs: seq<Hunk>)
    requires forall c :: UniqueChain(x, y, c) ==> |c| <= |KeptUnique(x, y, hs)|
    ensures Fewest(x, y, hs)
  {
    hide Fit, UniqueChain, KeptUnique;
    forall other | Fit(x, y, other, Pair(|x|, |y|))
      ensures |KeptUnique(x, y, other)| <= |KeptUnique(x, y, hs)|
    {
      var c := FewStay(x, y, other);
    }
  }

  lemma KeptEnough(x: seq<string>, y: seq<string>, hs: seq<Hunk>, c: seq<Pair>)
    requires UniqueChain(x, y, c) && forall i :: 0 <= i < |c| ==> Kept(hs, Pair(|x|, |y|), c[i])
    ensures |c| <= |KeptUnique(x, y, hs)|
  {
    hide Kept;
    forall p | p in c
      ensures p in KeptUnique(x, y, hs)
    {
      var i :| 0 <= i < |c| && c[i] == p;
      assert UniqueMatch(x, y, Pair(p.x, p.y));
    }
    ChainSize(c, KeptUnique(x, y, hs));
  }

  lemma AnchorsFewest(x: seq<string>, y: seq<string>, s: seq<Pair>, hs: seq<Hunk>)
    requires IsAnchors(x, y, s) && AllKept(s, hs, Pair(|x|, |y|))
    ensures Fewest(x, y, hs)
  {
    hide Kept, KeptUnique, UniqueChain;
    var c := s[1..|s| - 1];
    forall i | 0 <= i < |c|
      ensures Kept(hs, Pair(|x|, |y|), c[i])
    {
      assert c[i] == s[i + 1];
    }
    KeptEnough(x, y, hs, c);
    ChainsKept(x, y, hs);
  }

  lemma EqualFewest(x: seq<string>)
    ensures Fewest(x, x, []) && AllFramed(x, x, []) && Fit(x, x, [], Pair(|x|, |x|))
  {
    forall c | UniqueChain(x, x, c)
      ensures |c| <= |KeptUnique(x, x, [])|
    {
      forall i | 0 <= i < |c|
        ensures Kept([], Pair(|x|, |x|), c[i])
      {
        OnDiagonal(x, c[i]);
      }
      KeptEnough(x, x, [], c);
    }
    ChainsKept(x, x, []);
  }

  lemma OnDiagonal(x: seq<string>, p: Pair)
    requires UniqueMatch(x, x, p)
    ensures p.x == p.y < |x|
  {
    if p.x < p.y {
      SeenTwice(x, p.x, p.y);
    } else if p.y < p.x {
      SeenTwice(x, p.y, p.x);
    }
  }

  /** Diff: nothing for equal texts; otherwise hunks that lead from one text to the other, and mark the
      fewest unique lines. */
  method Diff(old': string, new': string) returns (out: seq<Hunk>)
    ensures out == [] <==> old' == new'
    ensures Apply(Lines(old'), out) == Some(Lines(new'))
    ensures Apply(Lines(new'), FlipAll(out)) == Some(Lines(old'))
    ensures Fit(Lines(old'), Lines(new'), out, Pair(|Lines(old')|, |Lines(new')|))
    ensures Fewest(Lines(old'), Lines(new'), out) && AllFramed(Lines(old'), Lines(new'), out)
  {
    EqualLines(old');
    hide *;
    var x, y := Lines(old'), Lines(new');
    if old' == new' {
      return [];
    }
    var s := Tgs(x, y);
    AnchorsCourse(x, y, s);
    out := DiffAlong(x, y, s);
    AnchorsFewest(x, y, s, out);
    FitBothWays(x, y, out);
    if out == [] {
      NoChange(old', new');
    }
  }

  lemma EqualLines(t: string)
    ensures var x := Lines(t);
      Apply(x, []) == Some(x) && Apply(x, FlipAll([])) == Some(x) && Fewest(x, x, []) && AllFramed(x, x, []) && Fit(x, x, [], Pair(|x|, |x|))
  {
    hide Lines, Fewest, Fit;
    var x := Lines(t);
    assert x[..|x|] == x;
    EqualFewest(x);
  }

  lemma NoChange(old': string, new': string)
    requires Apply(Lines(old'), []) == Some(Lines(new'))
    ensures old' == new'
  {
    hide Lines;
    assert Lines(old')[..|Lines(old')|] == Lines(old');
    LinesRecoverText(old');
    LinesRecoverText(new');
  }
}
