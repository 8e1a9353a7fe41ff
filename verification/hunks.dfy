/** Hunks as internal/diff/diff.go writes them, over the lines of both texts: what they say about the texts,
    what applying them gives, and which lines they leave alone. */
module Hunks {
  import opened Wrappers
  import opened Anchors

  /** One hunk: 1-based starts (0-based for an empty side), line counts, prefixed lines. */
  datatype Hunk = Hunk(x: nat, nx: nat, y: nat, ny: nat, body: seq<string>)

  // ---------------------------------------------------------------- reading a hunk

  predicate Marked(l: string, c: char)
  {
    l != [] && (l[0] == ' ' || l[0] == c)
  }

  /** The lines of a hunk body that carry mark c or none. */
  function Side(body: seq<string>, c: char): seq<string>
  {
    if body == [] then []
    else
      var l := body[|body| - 1];
      Side(body[..|body| - 1], c) + (if Marked(l, c) then [l[1..]] else [])
  }

  function Old(body: seq<string>): seq<string> { Side(body, '-') }

  function New(body: seq<string>): seq<string> { Side(body, '+') }

  /** Every line carries a mark. */
  predicate Signed(body: seq<string>)
  {
    forall i :: 0 <= i < |body| ==> body[i] != "" && body[i][0] in {' ', '-', '+'}
  }

  /** A side with lines is numbered from 1. */
  predicate Numbered(h: Hunk)
  {
    (h.nx > 0 ==> h.x > 0) && (h.ny > 0 ==> h.y > 0)
  }

  /** Where a hunk starts, counted from 0: an empty side is numbered by the line before it. */
  function Start(h: Hunk): Pair
    requires Numbered(h)
  {
    Pair(if h.nx > 0 then h.x - 1 else h.x, if h.ny > 0 then h.y - 1 else h.y)
  }

  // ---------------------------------------------------------------- applying hunks

  /** Patches the first n lines of x with the hunks hs: the hunks before the last one patch what
      lies before it, its old lines have to be there, and so has its place in the result. */
  function Patch(x: seq<string>, n: nat, hs: seq<Hunk>): Option<seq<string>>
    requires n <= |x|
    decreases |hs|
  {
    if hs == [] then Some(x[..n])
    else
      var h := hs[|hs| - 1];
      if !Numbered(h) || Start(h).x + h.nx > n then None
      else
        var s := Start(h);
        if Old(h.body) != x[s.x..s.x + h.nx] || |New(h.body)| != h.ny then None
        else
          match Patch(x, s.x, hs[..|hs| - 1])
          case None => None
          case Some(before) =>
            if |before| == s.y then Some(before + New(h.body) + x[s.x + h.nx..n]) else None
  }

  function Apply(x: seq<string>, hs: seq<Hunk>): Option<seq<string>>
  {
    Patch(x, |x|, hs)
  }

  function FlipLine(l: string): string
  {
    if l == [] then l
    else if l[0] == '-' then ['+'] + l[1..]
    else if l[0] == '+' then ['-'] + l[1..]
    else l
  }

  function FlipBody(body: seq<string>): seq<string>
  {
    if body == [] then [] else FlipBody(body[..|body| - 1]) + [FlipLine(body[|body| - 1])]
  }

  /** The hunk read in the other direction, as patch -R reads it. */
  function Flip(h: Hunk): Hunk
  {
    Hunk(h.y, h.ny, h.x, h.nx, FlipBody(h.body))
  }

  function FlipAll(hs: seq<Hunk>): seq<Hunk>
  {
    if hs == [] then [] else FlipAll(hs[..|hs| - 1]) + [Flip(hs[|hs| - 1])]
  }

  // ---------------------------------------------------------------- what the hunks describe

  /** One hunk agrees with both texts: its body and counts are exact, and the lines after it are
      equal up to e. */
  ghost predicate Agrees(x: seq<string>, y: seq<string>, h: Hunk, e: Pair)
  {
    && e.x <= |x| && e.y <= |y| && Numbered(h) && Signed(h.body)
    && var s := Start(h);
    && s.x + h.nx <= e.x && s.y + h.ny <= e.y
    && Old(h.body) == x[s.x..s.x + h.nx] && New(h.body) == y[s.y..s.y + h.ny]
    && x[s.x + h.nx..e.x] == y[s.y + h.ny..e.y]
  }

  /** The hunks turn x[..e.x] into y[..e.y]: each one agrees, and the lines before, between and
      after them are equal. */
  ghost predicate Fit(x: seq<string>, y: seq<string>, hs: seq<Hunk>, e: Pair)
    decreases |hs|
  {
    if hs == [] then e.x <= |x| && e.y <= |y| && x[..e.x] == y[..e.y]
    else
      var h := hs[|hs| - 1];
      Agrees(x, y, h, e) && Fit(x, y, hs[..|hs| - 1], Start(h))
  }

  lemma ThreeParts(y: seq<string>, i: nat, j: nat, k: nat)
    requires i <= j <= k <= |y|
    ensures y[..k] == y[..i] + y[i..j] + y[j..k]
  {
  }

  lemma {:induction false} FitPatches(x: seq<string>, y: seq<string>, hs: seq<Hunk>, e: Pair)
    requires Fit(x, y, hs, e)
    ensures e.x <= |x| && e.y <= |y| && Patch(x, e.x, hs) == Some(y[..e.y])
    decreases |hs|
  {
    if hs != [] {
      var h := hs[|hs| - 1];
      var t := Start(h).y;
      FitPatches(x, y, hs[..|hs| - 1], Start(h));
      ThreeParts(y, t, t + h.ny, e.y);
      hide Old, New;
    }
  }

  lemma SideSnoc(body: seq<string>, l: string, c: char)
    ensures Side(body + [l], c) == Side(body, c) + if Marked(l, c) then [l[1..]] else []
  {
    assert (body + [l])[..|body|] == body;
  }

  lemma FlipMarks(l: string)
    ensures Marked(FlipLine(l), '-') <==> Marked(l, '+')
    ensures Marked(FlipLine(l), '+') <==> Marked(l, '-')
    ensures l != "" ==> FlipLine(l) != "" && FlipLine(l)[1..] == l[1..]
    ensures l != "" && l[0] in {' ', '-', '+'} ==> FlipLine(l)[0] in {' ', '-', '+'}
  {
  }

  lemma {:induction false} FlipSide(body: seq<string>)
    ensures Old(FlipBody(body)) == New(body) && New(FlipBody(body)) == Old(body)
    ensures Signed(body) ==> Signed(FlipBody(body))
  {
    if body != [] {
      var init, l := body[..|body| - 1], body[|body| - 1];
      FlipSide(init);
      FlipMarks(l);
      assert FlipBody(body) == FlipBody(init) + [FlipLine(l)] && body == init + [l];
      SideSnoc(init, l, '-');
      SideSnoc(init, l, '+');
      SideSnoc(FlipBody(init), FlipLine(l), '-');
      SideSnoc(FlipBody(init), FlipLine(l), '+');
      hide Side, FlipBody, FlipLine;
    }
  }

  /** One more agreeing hunk. */
  lemma FitSnoc(x: seq<string>, y: seq<string>, hs: seq<Hunk>, h: Hunk, e: Pair)
    requires Agrees(x, y, h, e) && Fit(x, y, hs, Start(h))
    ensures Fit(x, y, hs + [h], e)
  {
    assert (hs + [h])[..|hs|] == hs;
  }

  lemma AgreesFlips(x: seq<string>, y: seq<string>, h: Hunk, e: Pair)
    requires Agrees(x, y, h, e)
    ensures Agrees(y, x, Flip(h), Pair(e.y, e.x)) && Start(Flip(h)) == Pair(Start(h).y, Start(h).x)
  {
    FlipSide(h.body);
    hide Old, New, FlipBody;
    FlipTurns(h);
  }

  lemma FlipTurns(h: Hunk)
    requires Numbered(h)
    ensures Numbered(Flip(h)) && Start(Flip(h)) == Pair(Start(h).y, Start(h).x)
    ensures Flip(h).nx == h.ny && Flip(h).ny == h.nx && Flip(h).body == FlipBody(h.body)
  {
    hide FlipBody;
  }

  lemma {:induction false} FitFlips(x: seq<string>, y: seq<string>, hs: seq<Hunk>, e: Pair)
    requires Fit(x, y, hs, e)
    ensures Fit(y, x, FlipAll(hs), Pair(e.y, e.x))
    decreases |hs|
  {
    if hs != [] {
      var h := hs[|hs| - 1];
      FitFlips(x, y, hs[..|hs| - 1], Start(h));
      AgreesFlips(x, y, h, e);
      FitSnoc(y, x, FlipAll(hs[..|hs| - 1]), Flip(h), Pair(e.y, e.x));
    }
  }

  /** Fitting hunks patch the old lines into the new ones, and back. */
  lemma FitBothWays(x: seq<string>, y: seq<string>, hs: seq<Hunk>)
    requires Fit(x, y, hs, Pair(|x|, |y|))
    ensures Apply(x, hs) == Some(y)
    ensures Apply(y, FlipAll(hs)) == Some(x)
  {
    FitPatches(x, y, hs, Pair(|x|, |y|));
    FitFlips(x, y, hs, Pair(|x|, |y|));
    FitPatches(y, x, FlipAll(hs), Pair(|y|, |x|));
    assert y[..|y|] == y && x[..|x|] == x;
  }

  // ---------------------------------------------------------------- lines that stay

  predicate Blank(l: string) { l != "" && l[0] == ' ' }

  /** A line of a body from s on that carries no mark stands at p in both texts. */
  ghost predicate KeptAt(body: seq<string>, s: Pair, k: nat, p: Pair)
  {
    k < |body| && Blank(body[k]) && p == Pair(s.x + |Old(body[..k])|, s.y + |New(body[..k])|)
  }

  ghost predicate KeptIn(body: seq<string>, s: Pair, p: Pair)
  {
    exists k :: KeptAt(body, s, k, p)
  }

  /** p is on the common lines from a to b. */
  predicate Along(a: Pair, b: Pair, p: Pair) { a.x <= p.x < b.x && a.y <= p.y < b.y && p.x - a.x == p.y - a.y }

  /** Line p.x of the old text stays as line p.y of the new one: it carries no mark in its hunk, or is in
      none. */
  ghost predicate Kept(hs: seq<Hunk>, e: Pair, p: Pair)
    decreases |hs|
  {
    if hs == [] then Along(Pair(0, 0), e, p)
    else
      var h := hs[|hs| - 1];
      Numbered(h) &&
      (KeptIn(h.body, Start(h), p) || Along(Pair(Start(h).x + h.nx, Start(h).y + h.ny), e, p) || Kept(hs[..|hs| - 1], Start(h), p))
  }

  /** The unique lines of both texts that stay. */
  ghost function KeptUnique(x: seq<string>, y: seq<string>, hs: seq<Hunk>): set<Pair>
  {
    set i, j | 0 <= i < |x| && 0 <= j < |y| && UniqueMatch(x, y, Pair(i, j)) && Kept(hs, Pair(|x|, |y|), Pair(i, j)) :: Pair(i, j)
  }

  ghost predicate Stays(x: seq<string>, y: seq<string>, hs: seq<Hunk>, i: nat, j: nat) { Pair(i, j) in KeptUnique(x, y, hs) }

  ghost predicate Ahead(p: Pair, q: Pair) { p.x < q.x && p.y < q.y }

  /** Any two lines that stay are in the same order in both texts. */
  ghost predicate InOrder(p: Pair, q: Pair) { p == q || Ahead(p, q) || Ahead(q, p) }

  lemma {:induction false} SideGrows(body: seq<string>, k: nat, m: nat)
    requires k <= m <= |body|
    ensures |Old(body[..k])| <= |Old(body[..m])| && |New(body[..k])| <= |New(body[..m])|
    ensures k < m && Blank(body[k]) ==> |Old(body[..k])| < |Old(body[..m])| && |New(body[..k])| < |New(body[..m])|
    decreases m
  {
    if k < m {
      assert body[..m][..m - 1] == body[..m - 1] && body[..m][m - 1] == body[m - 1];
      SideGrows(body, k, m - 1);
    }
  }

  lemma KeptWithin(body: seq<string>, s: Pair, p: Pair)
    requires KeptIn(body, s, p)
    ensures s.x <= p.x < s.x + |Old(body)| && s.y <= p.y < s.y + |New(body)|
  {
    var k: nat :| KeptAt(body, s, k, p);
    SideGrows(body, k, |body|);
    assert body[..|body|] == body;
  }

  lemma KeptOrder(body: seq<string>, s: Pair, p: Pair, q: Pair)
    requires KeptIn(body, s, p) && KeptIn(body, s, q)
    ensures InOrder(p, q)
  {
    var k: nat :| KeptAt(body, s, k, p);
    var m: nat :| KeptAt(body, s, m, q);
    if k <= m {
      SideGrows(body, k, m);
    } else {
      SideGrows(body, m, k);
    }
  }

  lemma {:induction false} KeptBelow(x: seq<string>, y: seq<string>, hs: seq<Hunk>, e: Pair, p: Pair)
    requires Fit(x, y, hs, e) && Kept(hs, e, p)
    ensures Ahead(p, e)
    decreases |hs|
  {
    hide Old, New, Signed, KeptIn;
    if hs != [] {
      var h := hs[|hs| - 1];
      var s := Start(h);
      if KeptIn(h.body, s, p) {
        KeptWithin(h.body, s, p);
        assert |x[s.x..s.x + h.nx]| == h.nx && |y[s.y..s.y + h.ny]| == h.ny;
      } else if Kept(hs[..|hs| - 1], s, p) {
        KeptBelow(x, y, hs[..|hs| - 1], s, p);
      }
    }
  }

  /** Where a line that stays is: behind the last hunk, in it, or before it. */
  lemma {:induction false} KeptRises(x: seq<string>, y: seq<string>, hs: seq<Hunk>, e: Pair, p: Pair, q: Pair)
    requires Fit(x, y, hs, e) && Kept(hs, e, p) && Kept(hs, e, q)
    ensures InOrder(p, q)
    decreases |hs|
  {
    if hs != [] {
      var h := hs[|hs| - 1];
      LastRises(x, y, hs, e, p);
      LastRises(x, y, hs, e, q);
      var init, s := hs[..|hs| - 1], Start(h);
      hide Fit, Kept;
      if Kept(init, s, p) && Kept(init, s, q) {
        assert Fit(x, y, init, s) by { FitInit(x, y, hs, e); }
        KeptRises(x, y, init, s, p, q);
      } else if KeptIn(h.body, s, p) && KeptIn(h.body, s, q) {
        KeptOrder(h.body, s, p, q);
      }
    }
  }

  lemma FitInit(x: seq<string>, y: seq<string>, hs: seq<Hunk>, e: Pair)
    requires hs != [] && Fit(x, y, hs, e)
    ensures Numbered(hs[|hs| - 1]) && Fit(x, y, hs[..|hs| - 1], Start(hs[|hs| - 1]))
  {
  }

  lemma LastRises(x: seq<string>, y: seq<string>, hs: seq<Hunk>, e: Pair, p: Pair)
    requires hs != [] && Fit(x, y, hs, e) && Kept(hs, e, p)
    ensures Numbered(hs[|hs| - 1])
    ensures var h := hs[|hs| - 1]; var s := Start(h); var t := Pair(s.x + h.nx, s.y + h.ny);
        || (Kept(hs[..|hs| - 1], s, p) && Ahead(p, s))
        || (KeptIn(h.body, s, p) && s.x <= p.x < t.x && s.y <= p.y < t.y)
        || Along(t, e, p)
  {
    hide Old, New, Signed, KeptIn;
    var h := hs[|hs| - 1];
    var s := Start(h);
    if KeptIn(h.body, s, p) {
      KeptWithin(h.body, s, p);
      assert |x[s.x..s.x + h.nx]| == h.nx && |y[s.y..s.y + h.ny]| == h.ny;
    } else if Kept(hs[..|hs| - 1], s, p) {
      KeptBelow(x, y, hs[..|hs| - 1], s, p);
    }
  }

  ghost predicate StaysBelow(x: seq<string>, y: seq<string>, hs: seq<Hunk>, n: nat, p: Pair)
  {
    p in KeptUnique(x, y, hs) && p.x < n
  }

  /** The unique lines that stay, below line n of the old text, in order. */
  lemma {:induction false} StayingChain(x: seq<string>, y: seq<string>, hs: seq<Hunk>, n: nat) returns (c: seq<Pair>)
    requires Fit(x, y, hs, Pair(|x|, |y|)) && n <= |x|
    ensures UniqueChain(x, y, c) && forall p :: p in c <==> StaysBelow(x, y, hs, n, p)
  {
    c := [];
    if n > 0 {
      var m := n - 1;
      var c' := StayingChain(x, y, hs, m);
      hide Fit, Kept, UniqueMatch, KeptUnique, UniqueChain;
      c := c';
      forall p | p in KeptUnique(x, y, hs) && p.x == m
        ensures exists j :: Stays(x, y, hs, m, j)
      {
        assert Stays(x, y, hs, m, p.y);
      }
      if exists j :: Stays(x, y, hs, m, j) {
        var j: nat :| Stays(x, y, hs, m, j);
        ChainGrows(x, y, hs, c', Pair(m, j));
        c := c' + [Pair(m, j)];
        forall p
          ensures p in c <==> StaysBelow(x, y, hs, n, p)
        {
          assert p in c <==> p in c' || p == Pair(m, j);
          if p in KeptUnique(x, y, hs) && p.x == m {
            StayingOrder(x, y, hs, p, Pair(m, j));
          }
        }
      } else {
        assert forall p :: p in KeptUnique(x, y, hs) ==> p.x != m;
      }
    }
  }

  lemma StayingOrder(x: seq<string>, y: seq<string>, hs: seq<Hunk>, p: Pair, q: Pair)
    requires Fit(x, y, hs, Pair(|x|, |y|)) && p in KeptUnique(x, y, hs) && q in KeptUnique(x, y, hs)
    ensures InOrder(p, q) && UniqueMatch(x, y, p)
  {
    hide Fit, Kept, UniqueMatch;
    KeptRises(x, y, hs, Pair(|x|, |y|), p, q);
  }

  lemma ChainGrows(x: seq<string>, y: seq<string>, hs: seq<Hunk>, c: seq<Pair>, p: Pair)
    requires Fit(x, y, hs, Pair(|x|, |y|)) && p in KeptUnique(x, y, hs)
    requires UniqueChain(x, y, c) && forall q :: q in c <==> StaysBelow(x, y, hs, p.x, q)
    ensures UniqueChain(x, y, c + [p])
  {
    hide Fit, KeptUnique, UniqueMatch;
    StayingOrder(x, y, hs, p, p);
    forall i | 0 <= i < |c|
      ensures Ahead(c[i], p)
    {
      assert c[i] in c;
      StayingOrder(x, y, hs, c[i], p);
    }
  }

  lemma {:induction false} ChainSize(c: seq<Pair>, ps: set<Pair>)
    requires Rising(c) && forall p :: p in c ==> p in ps
    ensures |c| <= |ps|
  {
    if c != [] {
      var init, last := c[..|c| - 1], c[|c| - 1];
      assert forall i :: 0 <= i < |init| ==> init[i] == c[i];
      assert last !in init;
      ChainSize(init, ps - {last});
    }
  }

  lemma {:induction false} SetSize(c: seq<Pair>, ps: set<Pair>)
    requires forall p :: p in ps ==> p in c
    ensures |ps| <= |c|
  {
    if c != [] {
      var init, last := c[..|c| - 1], c[|c| - 1];
      assert c == init + [last];
      SetSize(init, ps - {last});
    }
  }

  /** No hunks keep more unique lines than the longest chain of them. */
  lemma FewStay(x: seq<string>, y: seq<string>, hs: seq<Hunk>) returns (c: seq<Pair>)
    requires Fit(x, y, hs, Pair(|x|, |y|))
    ensures UniqueChain(x, y, c) && |KeptUnique(x, y, hs)| <= |c|
  {
    hide Fit, Kept, UniqueMatch;
    c := StayingChain(x, y, hs, |x|);
    forall p | p in KeptUnique(x, y, hs)
      ensures p in c
    {
      assert StaysBelow(x, y, hs, |x|, p);
    }
    SetSize(c, KeptUnique(x, y, hs));
  }
}
