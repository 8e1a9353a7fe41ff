/** One rendering pass of rx-browser/rx (render.go): the entity trees of a node tree, the entities it
    hands out, and the instructions for the browser.  A node tree is a value, so it has no cycles. */
module EntityRender {
  import opened EntityForest

  datatype Node =
    | Element(tag: string, entity: nat, hdl: Handler, kids: seq<Node>)
    | Nothing(kids: seq<Node>)
    | Reuse(old_: nat, entity: nat)

  datatype Instr = CreateElement(tag: string) | SetID(ntt: nat) | ReuseNode(ntt: nat) | ReID(from: nat, to: nat) | Next

  /** Entities for one generation: every second number. */
  function Inc(cnt: nat): nat { cnt + 2 }

  // ---------------------------------------------------------------- reuse

  /** The tree renamed, its root to a given entity and the others in preorder to new ones. */
  function Rename(t: Tree, to: nat, cnt: nat): (Tree, nat)
  {
    var r := RenameAll(t.kids, cnt);
    (Tree(to, t.hdl, r.0), r.1)
  }

  function RenameAll(ts: seq<Tree>, cnt: nat): (seq<Tree>, nat)
  {
    if ts == [] then ([], cnt)
    else
      var a := Rename(ts[0], Inc(cnt), Inc(cnt));
      var b := RenameAll(ts[1..], a.1);
      ([a.0] + b.0, b.1)
  }

  function Renumber(g: seq<Prenode>, cnt: nat): (r: seq<Prenode>)
    ensures |r| == |g|
  {
    seq(|g|, i requires 0 <= i < |g| => g[i].(ntt := cnt + 2 * (i + 1)))
  }

  lemma RenumberConcat(a: seq<Prenode>, b: seq<Prenode>, cnt: nat)
    ensures Renumber(a + b, cnt) == Renumber(a, cnt) + Renumber(b, cnt + 2 * |a|)
  {
  }

  lemma {:induction false} RenameAllFlat(ts: seq<Tree>, cnt: nat)
    ensures FlatAll(RenameAll(ts, cnt).0) == Renumber(FlatAll(ts), cnt)
    ensures RenameAll(ts, cnt).1 == cnt + 2 * |FlatAll(ts)|
    decreases ts
  {
    if ts != [] {
      var a := Rename(ts[0], Inc(cnt), Inc(cnt));
      RenameFlat(ts[0], Inc(cnt), Inc(cnt));
      RenameAllFlat(ts[1..], a.1);
      var below, more := FlatAll(ts[0].kids), FlatAll(ts[1..]);
      var top := Flat(ts[0])[0];
      var b := RenameAll(ts[1..], a.1);
      assert ([a.0] + b.0)[1..] == b.0;
      assert Renumber([top], cnt) == [top.(ntt := cnt + 2)];
      hide Flat, FlatAll, RenameAll, Rename, Renumber;
      RenumberConcat([top], below + more, cnt);
      RenumberConcat(below, more, cnt + 2);
      Assoc([top], below, more);
      Assoc([top.(ntt := cnt + 2)], Renumber(below, cnt + 2), Renumber(more, cnt + 2 + 2 * |below|));
    }
  }

  /** The array of a renamed tree is that of the tree with new entities, scopes and handlers kept. */
  lemma {:induction false} RenameFlat(t: Tree, to: nat, cnt: nat)
    ensures Flat(Rename(t, to, cnt).0) == [Flat(t)[0].(ntt := to)] + Renumber(FlatAll(t.kids), cnt)
    ensures Rename(t, to, cnt).1 == cnt + 2 * |FlatAll(t.kids)|
    decreases t
  {
    RenameAllFlat(t.kids, cnt);
  }

  /** The announcements of a renaming. */
  function ReIDs(before: seq<Prenode>, after: seq<Prenode>): seq<Instr>
    requires |before| == |after|
  {
    if before == [] then []
    else
      ReIDs(before[..|before| - 1], after[..|after| - 1])
        + if before[|before| - 1].ntt != after[|after| - 1].ntt then [ReID(before[|before| - 1].ntt, after[|after| - 1].ntt)] else []
  }

  // ---------------------------------------------------------------- a pass

  datatype Pass = Pass(forest: seq<Tree>, cnt: nat, xas: seq<Instr>)

  function Render(n: Node, prev: seq<Tree>, cnt: nat): Pass
  {
    match n
    case Nothing(kids) => RenderAll(kids, prev, cnt)
    case Reuse(o, e) =>
      var t := Find(prev, o);
      if t.None? then Pass([], cnt, [ReuseNode(o)])
      else
        var r := Rename(t.value, e, cnt);
        RenameFlat(t.value, e, cnt);
        Pass([r.0], r.1, [ReuseNode(o)] + ReIDs(Flat(t.value), Flat(r.0)))
    case Element(tag, e, hdl, kids) =>
      var cnt' := if e == 0 && hdl != {} then Inc(cnt) else cnt;
      var e' := if e == 0 && hdl != {} then Inc(cnt) else e;
      var below := RenderAll(kids, prev, cnt');
      if e' == 0 then Pass(below.forest, below.cnt, [CreateElement(tag)] + below.xas + [Next])
      else Pass([Tree(e', hdl, below.forest)], below.cnt, [CreateElement(tag), SetID(e')] + below.xas + [Next])
  }

  function RenderAll(ns: seq<Node>, prev: seq<Tree>, cnt: nat): Pass
  {
    if ns == [] then Pass([], cnt, [])
    else
      var a := RenderAll(ns[..|ns| - 1], prev, cnt);
      var b := Render(ns[|ns| - 1], prev, a.cnt);
      Pass(a.forest + b.forest, b.cnt, a.xas + b.xas)
  }

  // ---------------------------------------------------------------- entities of a pass

  /** The entities given to nodes while they were built. */
  function Keys(n: Node): seq<nat>
  {
    match n
    case Nothing(kids) => KeysAll(kids)
    case Reuse(_, e) => [e]
    case Element(_, e, _, kids) => (if e == 0 then [] else [e]) + KeysAll(kids)
  }

  function KeysAll(ns: seq<Node>): seq<nat>
  {
    if ns == [] then [] else KeysAll(ns[..|ns| - 1]) + Keys(ns[|ns| - 1])
  }

  /** Keys come from the counter of this generation, one call each. */
  ghost predicate Keyed(keys: seq<nat>, cnt: nat)
  {
    Distinct(keys) && forall k :: k in keys ==> k % 2 == cnt % 2 && 1 < k <= cnt
  }

  /** Entities of a pass: keys, or handed out between lo and hi, and none twice. */
  ghost predicate Issued(ids: seq<nat>, keys: seq<nat>, lo: nat, hi: nat)
  {
    && lo <= hi && lo % 2 == hi % 2 && Distinct(ids)
    && forall x :: x in ids ==> x in keys || (x % 2 == lo % 2 && lo < x <= hi)
  }

  lemma DistinctSeqs(a: seq<nat>, b: seq<nat>)
    requires Distinct(a + b)
    ensures Distinct(a) && Distinct(b) && forall x :: x in a ==> x !in b
  {
    var g := a + b;
    forall i, j | 0 <= i < |a| && 0 <= j < |b|
      ensures a[i] != b[j]
    {
      assert g[i] == a[i] && g[|a| + j] == b[j];
    }
    forall i, j | 0 <= i < j < |a|
      ensures a[i] != a[j]
    {
      assert g[i] != g[j];
    }
    forall i, j | 0 <= i < j < |b|
      ensures b[i] != b[j]
    {
      assert g[|a| + i] != g[|a| + j];
    }
  }

  lemma DistinctJoin(a: seq<nat>, b: seq<nat>)
    requires Distinct(a) && Distinct(b) && forall x :: x in a ==> x !in b
    ensures Distinct(a + b)
  {
    forall i, j | 0 <= i < j < |a + b|
      ensures (a + b)[i] != (a + b)[j]
    {
      if i < |a| <= j {
        assert a[i] in a && b[j - |a|] in b;
      }
    }
  }

  ghost predicate Below(keys: seq<nat>, lo: nat)
  {
    forall k :: k in keys ==> k <= lo
  }

  lemma BelowSeqs(a: seq<nat>, b: seq<nat>, lo: nat, hi: nat)
    requires Below(a + b, lo) && lo <= hi
    ensures Below(a, hi) && Below(b, hi)
  {
    assert forall k :: k in a || k in b ==> k in a + b;
  }

  lemma IssuedJoin(a: seq<nat>, b: seq<nat>, ka: seq<nat>, kb: seq<nat>, lo: nat, mid: nat, hi: nat)
    requires Issued(a, ka, lo, mid) && Issued(b, kb, mid, hi)
    requires Distinct(ka + kb) && Below(ka + kb, lo)
    ensures Issued(a + b, ka + kb, lo, hi)
  {
    DistinctSeqs(ka, kb);
    assert forall k :: k in ka || k in kb ==> k in ka + kb;
    forall x | x in a
      ensures x !in b
    {
    }
    DistinctJoin(a, b);
  }

  lemma IdsConcat(a: seq<Prenode>, b: seq<Prenode>)
    ensures IdsOf(a + b) == IdsOf(a) + IdsOf(b)
  {
  }

  lemma IdsOfConcat(a: seq<Tree>, b: seq<Tree>)
    ensures Ids(a + b) == Ids(a) + Ids(b)
  {
    FlatConcat(a, b);
    IdsConcat(FlatAll(a), FlatAll(b));
  }

  lemma IdsOfTree(e: nat, hdl: Handler, kids: seq<Tree>)
    ensures Ids([Tree(e, hdl, kids)]) == [e] + Ids(kids)
  {
    FlatOne(Tree(e, hdl, kids));
    var p := Prenode(e, 1 + |FlatAll(kids)|, hdl);
    IdsConcat([p], FlatAll(kids));
    assert IdsOf([p]) == [e];
  }

  /** The entities of a pass are distinct, and come from the counter. */
  lemma {:induction false} RenderIssues(n: Node, prev: seq<Tree>, cnt: nat)
    requires Distinct(Keys(n)) && Below(Keys(n), cnt)
    ensures Issued(Ids(Render(n, prev, cnt).forest), Keys(n), cnt, Render(n, prev, cnt).cnt)
    decreases n, 1
  {
    match n
    case Nothing(kids) => RenderAllIssues(kids, prev, cnt);
    case Reuse(o, e) =>
      assert e in Keys(n);
      ReuseIssues(o, e, prev, cnt);
    case Element(tag, e, hdl, kids) =>
      var key := if e == 0 then [] else [e];
      var cnt' := if e == 0 && hdl != {} then Inc(cnt) else cnt;
      var e' := if e == 0 && hdl != {} then Inc(cnt) else e;
      DistinctSeqs(key, KeysAll(kids));
      BelowSeqs(key, KeysAll(kids), cnt, cnt');
      RenderAllIssues(kids, prev, cnt');
      var below := RenderAll(kids, prev, cnt');
      hide Render, RenderAll, KeysAll, Ids;
      if e' == 0 {
        assert key + KeysAll(kids) == KeysAll(kids);
      } else {
        IdsOfTree(e', hdl, below.forest);
        assert Issued([e'], key, cnt, cnt');
        IssuedJoin([e'], Ids(below.forest), key, KeysAll(kids), cnt, cnt', below.cnt);
      }
      RenderElement(n, prev, cnt);
  }

  lemma RenderElement(n: Node, prev: seq<Tree>, cnt: nat)
    requires n.Element?
    ensures var cnt' := if n.entity == 0 && n.hdl != {} then Inc(cnt) else cnt;
      var e' := if n.entity == 0 && n.hdl != {} then Inc(cnt) else n.entity;
      var below := RenderAll(n.kids, prev, cnt');
      Render(n, prev, cnt).cnt == below.cnt
        && Render(n, prev, cnt).forest == if e' == 0 then below.forest else [Tree(e', n.hdl, below.forest)]
  {
  }

  lemma {:induction false} RenderAllIssues(ns: seq<Node>, prev: seq<Tree>, cnt: nat)
    requires Distinct(KeysAll(ns)) && Below(KeysAll(ns), cnt)
    ensures Issued(Ids(RenderAll(ns, prev, cnt).forest), KeysAll(ns), cnt, RenderAll(ns, prev, cnt).cnt)
    decreases ns, 0
  {
    if ns == [] {
      assert Ids([]) == [];
    } else {
      var init, n := ns[..|ns| - 1], ns[|ns| - 1];
      DistinctSeqs(KeysAll(init), Keys(n));
      BelowSeqs(KeysAll(init), Keys(n), cnt, cnt);
      RenderAllIssues(init, prev, cnt);
      var a := RenderAll(init, prev, cnt);
      BelowSeqs(KeysAll(init), Keys(n), cnt, a.cnt);
      RenderIssues(n, prev, a.cnt);
      var b := Render(n, prev, a.cnt);
      IdsOfConcat(a.forest, b.forest);
      hide Render, Keys, Ids;
      IssuedJoin(Ids(a.forest), Ids(b.forest), KeysAll(init), Keys(n), cnt, a.cnt, b.cnt);
    }
  }

  lemma ReuseIssues(o: nat, e: nat, prev: seq<Tree>, cnt: nat)
    requires e <= cnt
    ensures Issued(Ids(Render(Reuse(o, e), prev, cnt).forest), [e], cnt, Render(Reuse(o, e), prev, cnt).cnt)
  {
    var t := Find(prev, o);
    if t.Some? {
      var r := Rename(t.value, e, cnt);
      RenameFlat(t.value, e, cnt);
      FlatOne(r.0);
      var below := FlatAll(t.value.kids);
      var p := Flat(t.value)[0].(ntt := e);
      IdsConcat([p], Renumber(below, cnt));
      assert IdsOf([p]) == [e];
      RenumberIssues(below, cnt);
      ReuseIs(o, e, prev, cnt);
      hide Flat, FlatAll, Rename, Render, Find;
      assert Issued([e], [e], cnt, cnt);
      assert [e] + [] == [e];
      IssuedJoin([e], IdsOf(Renumber(below, cnt)), [e], [], cnt, cnt, cnt + 2 * |below|);
    } else {
      assert Ids([]) == [];
    }
  }

  lemma ReuseIs(o: nat, e: nat, prev: seq<Tree>, cnt: nat)
    requires Find(prev, o).Some?
    ensures var r := Rename(Find(prev, o).value, e, cnt);
      Render(Reuse(o, e), prev, cnt).forest == [r.0] && Render(Reuse(o, e), prev, cnt).cnt == r.1
  {
  }

  lemma RenumberIssues(g: seq<Prenode>, cnt: nat)
    ensures Issued(IdsOf(Renumber(g, cnt)), [], cnt, cnt + 2 * |g|)
  {
    var ids := IdsOf(Renumber(g, cnt));
    assert forall i :: 0 <= i < |ids| ==> ids[i] == cnt + 2 * (i + 1);
  }

  /** A pass hands out distinct entities of its own parity, all past 1. */
  lemma PassIssues(n: Node, prev: seq<Tree>, cnt: nat)
    requires Keyed(Keys(n), cnt)
    ensures var p := Render(n, prev, cnt);
      && Distinct(Ids(p.forest)) && p.cnt % 2 == cnt % 2 && p.cnt >= cnt
      && forall x :: x in Ids(p.forest) ==> x % 2 == cnt % 2 && 1 < x <= p.cnt
  {
    RenderIssues(n, prev, cnt);
  }

  /** The entity at i has another name afterwards. */
  predicate Renamed(before: seq<Prenode>, after: seq<Prenode>, i: nat)
  {
    i < |before| && i < |after| && before[i].ntt != after[i].ntt
  }

  predicate Announces(before: seq<Prenode>, after: seq<Prenode>, i: nat, x: Instr)
  {
    Renamed(before, after, i) && x == ReID(before[i].ntt, after[i].ntt)
  }

  /** The renamed entities below n, in order. */
  function Changed(before: seq<Prenode>, after: seq<Prenode>, n: nat): seq<nat>
  {
    if n == 0 then []
    else Changed(before, after, n - 1) + if Renamed(before, after, n - 1) then [n - 1] else []
  }

  /** These are all of them, each one once. */
  lemma {:induction false} ChangedExact(before: seq<Prenode>, after: seq<Prenode>, n: nat)
    ensures forall i: nat :: i in Changed(before, after, n) <==> i < n && Renamed(before, after, i)
    ensures forall i, j :: 0 <= i < j < |Changed(before, after, n)| ==> Changed(before, after, n)[i] < Changed(before, after, n)[j]
  {
    hide Renamed;
    if n > 0 {
      ChangedExact(before, after, n - 1);
      var ks := Changed(before, after, n - 1);
      assert forall j :: 0 <= j < |ks| ==> ks[j] in ks;
    }
  }

  /** What is announced is every renaming, in order. */
  lemma {:induction false} AllAnnounced(before: seq<Prenode>, after: seq<Prenode>)
    requires |before| == |after|
    ensures var ks, rs := Changed(before, after, |before|), ReIDs(before, after);
      |rs| == |ks| && forall j :: 0 <= j < |ks| ==> Announces(before, after, ks[j], rs[j])
  {
    if before != [] {
      var n := |before| - 1;
      var b, a := before[..n], after[..n];
      AllAnnounced(b, a);
      SameChanged(before, after, n);
      var ks, rs := Changed(b, a, n), ReIDs(b, a);
      hide Changed, ReIDs;
      forall j | 0 <= j < |ks|
        ensures Announces(before, after, ks[j], rs[j])
      {
        assert Announces(b, a, ks[j], rs[j]);
      }
    }
  }

  lemma {:induction false} SameChanged(before: seq<Prenode>, after: seq<Prenode>, n: nat)
    requires n <= |before| && n <= |after|
    ensures Changed(before[..n], after[..n], n) == Changed(before, after, n)
  {
    ChangedBelow(before, after, n, n);
  }

  lemma {:induction false} ChangedBelow(before: seq<Prenode>, after: seq<Prenode>, n: nat, k: nat)
    requires k <= n <= |before| && n <= |after|
    ensures Changed(before[..n], after[..n], k) == Changed(before, after, k)
  {
    if k > 0 {
      ChangedBelow(before, after, n, k - 1);
    }
  }

  /** When the reused tree shares no entity with the new one, every entity is announced. */
  lemma {:induction false} EachAnnounced(before: seq<Prenode>, after: seq<Prenode>)
    requires |before| == |after| && forall i :: 0 <= i < |before| ==> before[i].ntt != after[i].ntt
    ensures |ReIDs(before, after)| == |before|
    ensures forall i :: 0 <= i < |before| ==> ReIDs(before, after)[i] == ReID(before[i].ntt, after[i].ntt)
  {
    if before != [] {
      EachAnnounced(before[..|before| - 1], after[..|after| - 1]);
    }
  }
}
