/** The anchors of the anchored diff: tgs of internal/diff/diff.go.

    A line is unique when it appears once in the old text and once in the new one.  The anchors
    are a longest chain of pairs of equal unique lines that rises on both sides, between the
    sentinels (0,0) and (|x|,|y|).  Szymanski's algorithm finds it by patience sorting. */
module Anchors {

  datatype Pair = Pair(x: nat, y: nat)

  /** How often line l occurs in s. */
  function Count<T(==)>(s: seq<T>, l: T): nat
  {
    if s == [] then 0 else Count(s[..|s| - 1], l) + (if s[|s| - 1] == l then 1 else 0)
  }

  ghost predicate Once<T>(s: seq<T>, i: nat)
  {
    i < |s| && Count(s, s[i]) == 1
  }

  /** Equal lines, each appearing once in its own text. */
  ghost predicate UniqueMatch<T>(x: seq<T>, y: seq<T>, p: Pair)
  {
    p.x < |x| && p.y < |y| && x[p.x] == y[p.y] && Once(x, p.x) && Once(y, p.y)
  }

  ghost predicate Rising(ps: seq<Pair>)
  {
    forall i, j :: 0 <= i < j < |ps| ==> ps[i].x < ps[j].x && ps[i].y < ps[j].y
  }

  /** A chain of unique matches, rising in both coordinates. */
  ghost predicate UniqueChain<T>(x: seq<T>, y: seq<T>, ps: seq<Pair>)
  {
    Rising(ps) && forall i :: 0 <= i < |ps| ==> UniqueMatch(x, y, ps[i])
  }

  /** What tgs promises: sentinels around a longest unique chain. */
  ghost predicate IsAnchors<T>(x: seq<T>, y: seq<T>, s: seq<Pair>)
  {
    && |s| >= 2
    && s[0] == Pair(0, 0)
    && s[|s| - 1] == Pair(|x|, |y|)
    && UniqueChain(x, y, s[1..|s| - 1])
    && forall c :: UniqueChain(x, y, c) ==> |c| <= |s| - 2
  }

  // ---------------------------------------------------------------- counting lines

  /** The code of a line seen cx times in the old text and cy times in the new one. */
  function Code(cx: nat, cy: nat): int
  {
    (if cx == 0 then 0 else if cx == 1 then -1 else -2) + (if cy == 0 then 0 else if cy == 1 then -4 else -8)
  }

  function Lookup<T(==)>(m: map<T, int>, s: T): int
  {
    if s in m then m[s] else 0
  }

  ghost predicate Tallied<T(!new)>(m: map<T, int>, x: seq<T>, y: seq<T>)
  {
    forall s: T :: Lookup(m, s) == Code(Count(x, s), Count(y, s))
  }

  lemma TallyX<T(!new)>(m: map<T, int>, m': map<T, int>, x: seq<T>, i: nat)
    requires i < |x| && Tallied(m, x[..i], [])
    requires var c := Lookup(m, x[i]); m' == if c > -2 then m[x[i] := c - 1] else m
    ensures Tallied(m', x[..i + 1], [])
  {
    assert x[..i + 1][..i] == x[..i];
    forall s
      ensures Lookup(m', s) == Code(Count(x[..i + 1], s), Count([], s))
    {
      assert Lookup(m, s) == Code(Count(x[..i], s), Count([], s));
    }
  }

  lemma TallyY<T(!new)>(m: map<T, int>, m': map<T, int>, x: seq<T>, y: seq<T>, i: nat)
    requires i < |y| && Tallied(m, x, y[..i])
    requires var c := Lookup(m, y[i]); m' == if c > -8 then m[y[i] := c - 4] else m
    ensures Tallied(m', x, y[..i + 1])
  {
    assert y[..i + 1][..i] == y[..i];
    forall s
      ensures Lookup(m', s) == Code(Count(x, s), Count(y[..i + 1], s))
    {
      assert Lookup(m, s) == Code(Count(x, s), Count(y[..i], s));
    }
  }

  method CountLines<T(==,!new)>(x: seq<T>, y: seq<T>) returns (m: map<T, int>)
    ensures Tallied(m, x, y)
  {
    m := map[];
    for i := 0 to |x|
      invariant Tallied(m, x[..i], [])
    {
      ghost var m0 := m;
      var c := Lookup(m, x[i]);
      if c > -2 {
        m := m[x[i] := c - 1];
      }
      TallyX(m0, m, x, i);
    }
    assert x[..|x|] == x && y[..0] == [];
    for i := 0 to |y|
      invariant Tallied(m, x, y[..i])
    {
      ghost var m0 := m;
      var c := Lookup(m, y[i]);
      if c > -8 {
        m := m[y[i] := c - 4];
      }
      TallyY(m0, m, x, y, i);
    }
    assert y[..|y|] == y;
  }

  // ---------------------------------------------------------------- unique lines

  ghost predicate Increasing(s: seq<nat>)
  {
    forall i, j :: 0 <= i < j < |s| ==> s[i] < s[j]
  }

  /** A line that appears once in either text. */
  ghost predicate BothOnce<T>(x: seq<T>, y: seq<T>, s: T)
  {
    Count(x, s) == 1 && Count(y, s) == 1
  }

  ghost predicate Listed(xi: seq<nat>, yi: seq<nat>, inv: seq<nat>, p: Pair)
  {
    exists i :: 0 <= i < |xi| && i < |inv| && inv[i] < |yi| && xi[i] == p.x && yi[inv[i]] == p.y
  }

  /** xi and yi list the unique lines of either side in order; inv maps the first to the second. */
  ghost predicate Indexed<T>(x: seq<T>, y: seq<T>, xi: seq<nat>, yi: seq<nat>, inv: seq<nat>)
  {
    && |yi| <= |xi| == |inv|
    && Increasing(xi) && Increasing(yi)
    && (forall i :: 0 <= i < |xi| ==> inv[i] < |yi| && UniqueMatch(x, y, Pair(xi[i], yi[inv[i]])))
    && (forall p {:trigger Listed(xi, yi, inv, p)} :: UniqueMatch(x, y, p) ==> Listed(xi, yi, inv, p))
  }

  lemma SeenTwice<T>(s: seq<T>, i: nat, j: nat)
    requires i < j < |s| && s[i] == s[j]
    ensures Count(s, s[i]) >= 2
  {
    CountSome(s[..j], i);
    CountPrefix(s, j + 1);
    assert s[..j + 1][..j] == s[..j];
  }

  lemma {:induction false} CountSome<T>(s: seq<T>, i: nat)
    requires i < |s|
    ensures Count(s, s[i]) >= 1
  {
    if i < |s| - 1 {
      CountSome(s[..|s| - 1], i);
    }
  }

  lemma {:induction false} CountPrefix<T>(s: seq<T>, k: nat)
    requires k <= |s|
    ensures forall l :: Count(s[..k], l) <= Count(s, l)
    decreases |s|
  {
    if k < |s| {
      CountPrefix(s[..|s| - 1], k);
      assert s[..|s| - 1][..k] == s[..k];
    } else {
      assert s[..k] == s;
    }
  }

  /** Fewer values than positions: a list that holds 0, ..., m - 1 has at least m entries. */
  lemma {:induction false} Onto(f: seq<nat>, m: nat)
    requires forall j: nat :: j < m ==> j in f
    ensures m <= |f|
    decreases m
  {
    if m > 0 {
      var last: nat := m - 1;
      assert last in f;
      var k :| 0 <= k < |f| && f[k] == last;
      var g := f[..k] + f[k + 1..];
      forall j: nat | j < m - 1
        ensures j in g
      {
        assert j in f;
        var i :| 0 <= i < |f| && f[i] == j;
        assert g[if i < k then i else i - 1] == j;
      }
      Onto(g, m - 1);
    }
  }

  lemma SamePlace<T>(s: seq<T>, i: nat, j: nat)
    requires i < |s| && j < |s| && s[i] == s[j] && Count(s, s[i]) == 1
    ensures i == j
  {
    if i < j {
      SeenTwice(s, i, j);
    } else if j < i {
      SeenTwice(s, j, i);
    }
  }

  lemma {:induction false} CountPlace<T>(s: seq<T>, l: T)
    requires Count(s, l) > 0
    ensures l in s
  {
    if s[|s| - 1] != l {
      CountPlace(s[..|s| - 1], l);
    }
  }

  /** The map after the first i lines of y: unique lines seen so far have their rank in yi. */
  ghost predicate Ranked<T(!new)>(m: map<T, int>, x: seq<T>, y: seq<T>, i: nat, yi: seq<nat>)
    requires i <= |y|
  {
    && Increasing(yi)
    && (forall k :: 0 <= k < |yi| ==> yi[k] < i && BothOnce(x, y, y[yi[k]]) && y[yi[k]] in m && m[y[yi[k]]] == k)
    && (forall s: T :: BothOnce(x, y, s) && s in y[..i] ==> exists k :: 0 <= k < |yi| && y[yi[k]] == s)
    && (forall s: T :: !BothOnce(x, y, s) || s !in y[..i] ==> Lookup(m, s) == Code(Count(x, s), Count(y, s)))
  }

  lemma RankNext<T(!new)>(m: map<T, int>, x: seq<T>, y: seq<T>, i: nat, yi: seq<nat>)
    requires i < |y| && Ranked(m, x, y, i, yi)
    ensures Lookup(m, y[i]) == -1 + -4 <==> BothOnce(x, y, y[i])
    ensures BothOnce(x, y, y[i]) ==> Ranked(m[y[i] := |yi|], x, y, i + 1, yi + [i])
    ensures !BothOnce(x, y, y[i]) ==> Ranked(m, x, y, i + 1, yi)
  {
    assert y[..i + 1] == y[..i] + [y[i]];
    if BothOnce(x, y, y[i]) {
      if y[i] in y[..i] {
        var j :| 0 <= j < i && y[j] == y[i];
        SeenTwice(y, j, i);
      }
      var zi := yi + [i];
      forall s: T | BothOnce(x, y, s) && s in y[..i + 1]
        ensures exists k :: 0 <= k < |zi| && y[zi[k]] == s
      {
        if s == y[i] {
          assert zi[|yi|] == i;
        } else {
          var k :| 0 <= k < |yi| && y[yi[k]] == s;
          assert zi[k] == yi[k];
        }
      }
    } else {
      if y[i] in y[..i] {
        assert Lookup(m, y[i]) == Code(Count(x, y[i]), Count(y, y[i]));
      }
    }
  }

  method RankLines<T(==,!new)>(m0: map<T, int>, x: seq<T>, y: seq<T>) returns (m: map<T, int>, yi: seq<nat>)
    requires Tallied(m0, x, y)
    ensures Ranked(m, x, y, |y|, yi)
  {
    m, yi := m0, [];
    for i := 0 to |y|
      invariant Ranked(m, x, y, i, yi)
    {
      RankNext(m, x, y, i, yi);
      if Lookup(m, y[i]) == -1 + -4 {
        m := m[y[i] := |yi|];
        yi := yi + [i];
      }
    }
  }

  /** The pairs found in the first i lines of x. */
  ghost predicate Paired<T>(x: seq<T>, y: seq<T>, i: nat, xi: seq<nat>, yi: seq<nat>, inv: seq<nat>)
    requires i <= |x|
  {
    && |xi| == |inv|
    && Increasing(xi)
    && (forall k :: 0 <= k < |xi| ==> xi[k] < i && inv[k] < |yi| && UniqueMatch(x, y, Pair(xi[k], yi[inv[k]])))
    && (forall j :: 0 <= j < i && BothOnce(x, y, x[j]) ==> exists k :: 0 <= k < |xi| && xi[k] == j)
  }

  lemma PairNext<T(!new)>(m: map<T, int>, x: seq<T>, y: seq<T>, i: nat, xi: seq<nat>, yi: seq<nat>, inv: seq<nat>)
    requires Ranked(m, x, y, |y|, yi)
    requires i < |x| && Paired(x, y, i, xi, yi, inv)
    ensures x[i] in m && m[x[i]] >= 0 <==> BothOnce(x, y, x[i])
    ensures BothOnce(x, y, x[i]) ==> Paired(x, y, i + 1, xi + [i], yi, inv + [m[x[i]]])
    ensures !BothOnce(x, y, x[i]) ==> Paired(x, y, i + 1, xi, yi, inv)
  {
    assert y[..|y|] == y;
    CountSome(x, i);
    if BothOnce(x, y, x[i]) {
      CountPlace(y, x[i]);
      var k :| 0 <= k < |yi| && y[yi[k]] == x[i];
      var xi' := xi + [i];
      forall j | 0 <= j < i + 1 && BothOnce(x, y, x[j])
        ensures exists k :: 0 <= k < |xi'| && xi'[k] == j
      {
        if j == i {
          assert xi'[|xi|] == j;
        } else {
          var k :| 0 <= k < |xi| && xi[k] == j;
          assert xi'[k] == j;
        }
      }
    } else {
      assert Lookup(m, x[i]) == Code(Count(x, x[i]), Count(y, x[i]));
    }
  }

  method UniqueLines<T(==,!new)>(x: seq<T>, y: seq<T>) returns (xi: seq<nat>, yi: seq<nat>, inv: seq<nat>)
    ensures Indexed(x, y, xi, yi, inv)
  {
    var m := CountLines(x, y);
    m, yi := RankLines(m, x, y);
    xi, inv := [], [];
    for i := 0 to |x|
      invariant Paired(x, y, i, xi, yi, inv)
    {
      PairNext(m, x, y, i, xi, yi, inv);
      if x[i] in m && m[x[i]] >= 0 {
        inv := inv + [m[x[i]]];
        xi := xi + [i];
      }
    }
    PairsComplete(m, x, y, xi, yi, inv);
  }

  lemma PairsComplete<T(!new)>(m: map<T, int>, x: seq<T>, y: seq<T>, xi: seq<nat>, yi: seq<nat>, inv: seq<nat>)
    requires Ranked(m, x, y, |y|, yi)
    requires Paired(x, y, |x|, xi, yi, inv)
    ensures Indexed(x, y, xi, yi, inv)
  {
    forall p | UniqueMatch(x, y, p)
      ensures Listed(xi, yi, inv, p)
    {
      var i :| 0 <= i < |xi| && xi[i] == p.x;
      SamePlace(y, yi[inv[i]], p.y);
    }
    forall j: nat | j < |yi|
      ensures j in inv
    {
      CountPlace(x, y[yi[j]]);
      var a :| 0 <= a < |x| && x[a] == y[yi[j]];
      var i :| 0 <= i < |xi| && xi[i] == a;
      SamePlace(y, yi[inv[i]], yi[j]);
      assert inv[i] == j;
    }
    Onto(inv, |yi|);
  }

  // ---------------------------------------------------------------- patience sorting

  /** Position b starts a chain or has a predecessor: a smaller value further left, labelled one less. */
  ghost predicate HasPrior(J: seq<nat>, L: seq<nat>, b: nat)
    requires b < |J| == |L|
  {
    L[b] == 1 || exists a :: 0 <= a < b && L[a] + 1 == L[b] && J[a] < J[b]
  }

  /** Length labels of positions 0, ..., i - 1: a smaller value further left has a smaller label,
      and every label above 1 has a predecessor one below it. */
  ghost predicate Labelled(J: seq<nat>, L: seq<nat>, i: nat)
    requires i <= |J| == |L|
  {
    && (forall a :: 0 <= a < i ==> 1 <= L[a] <= a + 1)
    && (forall a, b :: 0 <= a < b < i && J[a] < J[b] ==> L[a] < L[b])
    && (forall b :: 0 <= b < i ==> HasPrior(J, L, b))
  }

  /** The value on pile k is the last value of a position labelled k + 1. */
  ghost predicate Topped(J: seq<nat>, L: seq<nat>, i: nat, T: seq<nat>, k: nat)
    requires i <= |J| == |L| == |T| && k < |T|
  {
    T[k] == |J| + 1 || exists a :: 0 <= a < i && L[a] == k + 1 && J[a] == T[k]
  }

  ghost predicate Covered(J: seq<nat>, L: seq<nat>, T: seq<nat>, a: nat)
    requires a < |J| == |L|
  {
    1 <= L[a] <= |T| && T[L[a] - 1] <= J[a]
  }

  /** T[k] is the least value that ends a chain of k + 1 among the first i, or n + 1. */
  ghost predicate Piles(J: seq<nat>, L: seq<nat>, i: nat, T: seq<nat>)
    requires i <= |J| == |L| == |T|
  {
    && (forall k, l :: 0 <= k < l < |T| ==> T[k] <= T[l])
    && (forall k :: i <= k < |T| ==> T[k] == |J| + 1)
    && (forall k :: 0 <= k < i ==> Topped(J, L, i, T, k))
    && (forall a :: 0 <= a < i ==> Covered(J, L, T, a))
  }

  /** sort.Search: the first position whose entry is at least v. */
  method Search(T: array<nat>, v: nat) returns (k: nat)
    requires forall i, j :: 0 <= i < j < T.Length ==> T[i] <= T[j]
    ensures k <= T.Length
    ensures forall i :: 0 <= i < k ==> T[i] < v
    ensures forall i :: k <= i < T.Length ==> v <= T[i]
  {
    var i, j := 0, T.Length;
    while i < j
      invariant 0 <= i <= j <= T.Length
      invariant forall h :: 0 <= h < i ==> T[h] < v
      invariant forall h :: j <= h < T.Length ==> v <= T[h]
    {
      var h := (i + j) / 2;
      if T[h] < v {
        i := h + 1;
      } else {
        j := h;
      }
    }
    k := i;
  }

  ghost predicate Fits(J: seq<nat>, i: nat, T: seq<nat>, k: nat)
  {
    && k <= i < |J| == |T|
    && (forall h :: 0 <= h < k ==> T[h] < J[i])
    && (forall h :: k <= h < |T| ==> J[i] <= T[h])
  }

  lemma LabelStep(J: seq<nat>, L: seq<nat>, i: nat, T: seq<nat>, k: nat)
    requires Fits(J, i, T, k) && |L| == |J| && J[i] <= |J|
    requires Labelled(J, L, i) && Piles(J, L, i, T)
    ensures Labelled(J, L[i := k + 1], i + 1)
  {
    var L' := L[i := k + 1];
    forall a | 0 <= a < i && J[a] < J[i]
      ensures L[a] < k + 1
    {
      assert Covered(J, L, T, a);
    }
    forall b | 0 <= b < i + 1
      ensures HasPrior(J, L', b)
    {
      if b == i && k > 0 {
        assert T[k - 1] < J[i] && Topped(J, L, i, T, k - 1);
        var a :| 0 <= a < i && L[a] == k && J[a] == T[k - 1];
        assert L'[a] == k;
      } else if b < i && L[b] != 1 {
        assert HasPrior(J, L, b);
        var a :| 0 <= a < b && L[a] + 1 == L[b] && J[a] < J[b];
        assert L'[a] == L[a];
      }
    }
  }

  lemma PileStep(J: seq<nat>, L: seq<nat>, i: nat, T: seq<nat>, k: nat)
    requires Fits(J, i, T, k) && |L| == |J| && J[i] <= |J|
    requires Piles(J, L, i, T)
    ensures Piles(J, L[i := k + 1], i + 1, T[k := J[i]])
  {
    var L', T', next := L[i := k + 1], T[k := J[i]], i + 1;
    forall h | 0 <= h < next
      ensures Topped(J, L', next, T', h)
    {
      if h == k {
        assert L'[i] == h + 1;
      } else if h < i && T[h] != |J| + 1 {
        assert Topped(J, L, i, T, h);
        var a :| 0 <= a < i && L[a] == h + 1 && J[a] == T[h];
        assert L'[a] == h + 1;
      }
    }
    forall a | 0 <= a < i + 1
      ensures Covered(J, L', T', a)
    {
      if a < i {
        assert Covered(J, L, T, a);
      }
    }
  }

  lemma EmptyPiles(J: seq<nat>, L: seq<nat>, T: seq<nat>)
    requires |L| == |J| == |T| && forall k :: 0 <= k < |T| ==> T[k] == |J| + 1
    ensures Labelled(J, L, 0) && Piles(J, L, 0, T)
  {
  }

  lemma PilesSorted(J: seq<nat>, L: seq<nat>, i: nat, T: seq<nat>)
    requires i <= |J| == |L| == |T| && Piles(J, L, i, T)
    ensures forall k, l :: 0 <= k < l < |T| ==> T[k] <= T[l]
    ensures i < |T| ==> T[i] == |J| + 1
  {
  }

  method Patience(J: seq<nat>) returns (L: seq<nat>)
    requires forall i :: 0 <= i < |J| ==> J[i] <= |J|
    ensures |L| == |J| && Labelled(J, L, |J|)
  {
    hide Labelled, Piles;
    var n := |J|;
    var T := new nat[n](_ => n + 1);
    L := seq(n, _ => 0);
    EmptyPiles(J, L, T[..]);
    for i := 0 to n
      invariant |L| == n && Labelled(J, L, i) && Piles(J, L, i, T[..])
    {
      ghost var t := T[..];
      PilesSorted(J, L, i, t);
      var k := Search(T, J[i]);
      assert forall h :: 0 <= h < n ==> t[h] == T[h];
      LabelStep(J, L, i, t, k);
      PileStep(J, L, i, t, k);
      T[k] := J[i];
      assert T[..] == t[k := J[i]];
      L := L[i := k + 1];
    }
  }

  // ---------------------------------------------------------------- the backward pass

  ghost predicate Peak(L: seq<nat>, k: nat)
  {
    (forall i :: 0 <= i < |L| ==> L[i] <= k) && (k > 0 ==> k in L)
  }

  method Highest(L: seq<nat>) returns (k: nat)
    ensures Peak(L, k)
  {
    k := 0;
    for i := 0 to |L|
      invariant forall j :: 0 <= j < i ==> L[j] <= k
      invariant k > 0 ==> k in L
    {
      if k < L[i] {
        k := L[i];
      }
    }
  }

  /** The chosen positions from pile k upwards: positions rise, values rise, labels count up. */
  ghost predicate Climb(J: seq<nat>, L: seq<nat>, c: seq<nat>, k: nat)
    requires |J| == |L|
  {
    && (forall h :: 0 <= h < |c| ==> c[h] < |J| && L[c[h]] == k + 1 + h)
    && (forall g, h :: 0 <= g < h < |c| ==> c[g] < c[h] && J[c[g]] < J[c[h]])
  }

  /** Within one label, values fall from left to right, so the rightmost candidate is small enough. */
  lemma RightmostFits(J: seq<nat>, L: seq<nat>, i: nat, b: nat)
    requires |J| == |L| && Labelled(J, L, |J|)
    requires i < b < |J| && L[i] + 1 == L[b]
    requires forall a :: i < a < b ==> L[a] != L[i]
    ensures J[i] < J[b]
  {
    assert HasPrior(J, L, b);
    var a :| 0 <= a < b && L[a] + 1 == L[b] && J[a] < J[b];
    assert a <= i;
  }

  /** The backward pass before position i: c is chosen, and label k is next. */
  ghost predicate Chosen(J: seq<nat>, L: seq<nat>, c: seq<nat>, k: nat, i: nat)
  {
    && i <= |J| == |L| && Climb(J, L, c, k)
    && var top := if c == [] then |J| else c[0];
       i <= top && forall a :: i <= a < top ==> L[a] != k
  }

  lemma ChooseNext(J: seq<nat>, L: seq<nat>, c: seq<nat>, k: nat, i: nat)
    requires Chosen(J, L, c, k, i + 1) && Labelled(J, L, |J|)
    ensures L[i] == k ==> k > 0 && Chosen(J, L, [i] + c, k - 1, i)
    ensures L[i] != k ==> Chosen(J, L, c, k, i)
  {
    if L[i] == k && c != [] {
      RightmostFits(J, L, i, c[0]);
    }
  }

  /** At the left end every label has been chosen: the next one would still have to be there. */
  lemma AllChosen(J: seq<nat>, L: seq<nat>, c: seq<nat>, k: nat, k0: nat)
    requires |J| == |L| && Labelled(J, L, |J|) && Peak(L, k0)
    requires |c| + k == k0 && Chosen(J, L, c, k, 0)
    ensures k == 0
  {
    assert c != [] ==> HasPrior(J, L, c[0]);
  }

  /** Labels bound the length of every chain of positions that rises in value. */
  lemma {:induction false} LabelsBound(J: seq<nat>, L: seq<nat>, c: seq<nat>)
    requires |J| == |L| && Labelled(J, L, |J|)
    requires forall h :: 0 <= h < |c| ==> c[h] < |J|
    requires forall g, h :: 0 <= g < h < |c| ==> c[g] < c[h] && J[c[g]] < J[c[h]]
    ensures c != [] ==> |c| <= L[c[|c| - 1]]
  {
    if |c| > 1 {
      LabelsBound(J, L, c[..|c| - 1]);
      assert L[c[|c| - 2]] < L[c[|c| - 1]];
    }
  }

  /** Every unique chain is a rising chain of indexed positions, so no longer than the peak. */
  lemma ChainsBounded<T>(x: seq<T>, y: seq<T>, xi: seq<nat>, yi: seq<nat>, J: seq<nat>, L: seq<nat>, k: nat, ps: seq<Pair>)
    requires Indexed(x, y, xi, yi, J)
    requires |J| == |L| && Labelled(J, L, |J|) && Peak(L, k)
    requires UniqueChain(x, y, ps)
    ensures |ps| <= k
  {
    if ps != [] {
      var c := Positions(x, y, xi, yi, J, ps);
      LabelsBound(J, L, c);
    }
  }

  lemma {:induction false} Positions<T>(x: seq<T>, y: seq<T>, xi: seq<nat>, yi: seq<nat>, J: seq<nat>, ps: seq<Pair>) returns (c: seq<nat>)
    requires Indexed(x, y, xi, yi, J)
    requires UniqueChain(x, y, ps)
    ensures |c| == |ps|
    ensures forall h :: 0 <= h < |c| ==> c[h] < |J| && xi[c[h]] == ps[h].x && yi[J[c[h]]] == ps[h].y
    ensures forall g, h :: 0 <= g < h < |c| ==> c[g] < c[h] && J[c[g]] < J[c[h]]
  {
    if ps == [] {
      c := [];
    } else {
      var q := ps[..|ps| - 1];
      c := Positions(x, y, xi, yi, J, q);
      var p := ps[|ps| - 1];
      assert UniqueMatch(x, y, p);
      assert Listed(xi, yi, J, p);
      var i :| 0 <= i < |xi| && xi[i] == p.x && yi[J[i]] == p.y;
      forall g | 0 <= g < |c|
        ensures c[g] < i && J[c[g]] < J[i]
      {
        assert ps[g].x < p.x && ps[g].y < p.y && q[g] == ps[g];
      }
      c := c + [i];
    }
  }

  /** The chosen positions give a unique chain. */
  lemma ClimbIsChain<T>(x: seq<T>, y: seq<T>, xi: seq<nat>, yi: seq<nat>, J: seq<nat>, L: seq<nat>, c: seq<nat>, ps: seq<Pair>)
    requires Indexed(x, y, xi, yi, J)
    requires |J| == |L| && Climb(J, L, c, 0)
    requires |ps| == |c| && forall h :: 0 <= h < |c| ==> ps[h] == Pair(xi[c[h]], yi[J[c[h]]])
    ensures UniqueChain(x, y, ps)
  {
    forall g, h | 0 <= g < h < |ps|
      ensures ps[g].x < ps[h].x && ps[g].y < ps[h].y
    {
      assert c[g] < c[h] && J[c[g]] < J[c[h]];
    }
  }

  /** The slots from k + 1 upwards hold the pairs of the chosen positions. */
  ghost predicate Filled(s: seq<Pair>, xi: seq<nat>, yi: seq<nat>, J: seq<nat>, c: seq<nat>, k: nat)
  {
    && k + 1 + |c| < |s|
    && forall h :: 0 <= h < |c| ==>
      c[h] < |xi| && c[h] < |J| && J[c[h]] < |yi| && s[k + 1 + h] == Pair(xi[c[h]], yi[J[c[h]]])
  }

  lemma NothingChosen(xi: seq<nat>, yi: seq<nat>, J: seq<nat>, L: seq<nat>, s: seq<Pair>, k: nat)
    requires |J| == |L| && |s| == k + 2 && Peak(L, k)
    ensures Chosen(J, L, [], k, |J|) && Filled(s, xi, yi, J, [], k)
  {
  }

  lemma ChosenClimbs(J: seq<nat>, L: seq<nat>, c: seq<nat>, k: nat)
    requires Chosen(J, L, c, k, 0)
    ensures |J| == |L| && Climb(J, L, c, k)
  {
  }

  lemma FillNext(s: seq<Pair>, s': seq<Pair>, xi: seq<nat>, yi: seq<nat>, J: seq<nat>, c: seq<nat>, k: nat, i: nat)
    requires 0 < k && Filled(s, xi, yi, J, c, k)
    requires i < |xi| && i < |J| && J[i] < |yi|
    requires s' == s[k := Pair(xi[i], yi[J[i]])]
    ensures Filled(s', xi, yi, J, [i] + c, k - 1)
  {
    var d := [i] + c;
    forall h | 0 <= h < |d|
      ensures d[h] < |xi| && d[h] < |J| && J[d[h]] < |yi| && s'[k + h] == Pair(xi[d[h]], yi[J[d[h]]])
    {
      if h > 0 {
        assert d[h] == c[h - 1];
        assert s[k + 1 + (h - 1)] == Pair(xi[c[h - 1]], yi[J[c[h - 1]]]);
      }
    }
  }

  lemma AnchorsHold<T(!new)>(x: seq<T>, y: seq<T>, xi: seq<nat>, yi: seq<nat>, J: seq<nat>, L: seq<nat>, c: seq<nat>, s: seq<Pair>)
    requires Indexed(x, y, xi, yi, J) && |J| == |L| && Labelled(J, L, |J|) && Peak(L, |c|)
    requires Climb(J, L, c, 0) && |s| == |c| + 2
    requires s[0] == Pair(0, 0) && s[|c| + 1] == Pair(|x|, |y|) && Filled(s, xi, yi, J, c, 0)
    ensures IsAnchors(x, y, s)
  {
    ClimbIsChain(x, y, xi, yi, J, L, c, s[1..|s| - 1]);
    forall ps | UniqueChain(x, y, ps)
      ensures |ps| <= |s| - 2
    {
      ChainsBounded(x, y, xi, yi, J, L, |c|, ps);
    }
  }

  /** The backward pass.  It compares with lastj, which stays n, so that test always passes: the
      rightmost position of each label is taken, and RightmostFits says that this is right. */
  method Backtrack(xi: seq<nat>, yi: seq<nat>, J: seq<nat>, L: seq<nat>, k0: nat, pairs: array<Pair>) returns (ghost c: seq<nat>)
    requires |yi| <= |xi| == |J| == |L| && Labelled(J, L, |J|) && Peak(L, k0)
    requires forall i :: 0 <= i < |J| ==> J[i] < |yi|
    requires pairs.Length == k0 + 2
    modifies pairs
    ensures |c| == k0 && Climb(J, L, c, 0) && Filled(pairs[..], xi, yi, J, c, 0)
    ensures pairs[k0 + 1] == old(pairs[k0 + 1])
  {
    hide Chosen, Filled, Climb, Labelled, Peak;
    var n, k := |xi|, k0;
    var lastj := n;
    c := [];
    NothingChosen(xi, yi, J, L, pairs[..], k0);
    for i := n downto 0
      invariant 0 <= k && |c| + k == k0
      invariant Chosen(J, L, c, k, i) && Filled(pairs[..], xi, yi, J, c, k)
      invariant pairs[k0 + 1] == old(pairs[k0 + 1])
    {
      ChooseNext(J, L, c, k, i);
      if L[i] == k && J[i] < lastj {
        FillNext(pairs[..], pairs[..][k := Pair(xi[i], yi[J[i]])], xi, yi, J, c, k, i);
        pairs[k] := Pair(xi[i], yi[J[i]]);
        c := [i] + c;
        k := k - 1;
      }
    }
    AllChosen(J, L, c, k, k0);
    ChosenClimbs(J, L, c, k);
  }

  /** tgs: the longest common subsequence of the unique lines, between sentinels. */
  method Tgs<T(==,!new)>(x: seq<T>, y: seq<T>) returns (s: seq<Pair>)
    ensures IsAnchors(x, y, s)
  {
    var xi, yi, J := UniqueLines(x, y);
    var L := Patience(J);
    var k := Highest(L);
    var pairs := new Pair[2 + k](_ => Pair(0, 0));
    pairs[1 + k] := Pair(|x|, |y|);
    ghost var c := Backtrack(xi, yi, J, L, k, pairs);
    pairs[0] := Pair(0, 0);
    s := pairs[..];
    AnchorsHold(x, y, xi, yi, J, L, c, s);
  }
}
