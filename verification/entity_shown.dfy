/** What a rendering pass shows of its nodes: every key, in the order of the nodes, and every element with a
    name or a handler, with what is below it. */
module EntityShown {
  import opened EntityForest
  import opened EntityRender

  // ---------------------------------------------------------------- keys in order

  /** The keys of the nodes, in order, but for those of reused trees that were not shown. */
  function Shown(n: Node, prev: seq<Tree>): seq<nat>
  {
    match n
    case Nothing(kids) => ShownAll(kids, prev)
    case Reuse(o, e) => if o in Ids(prev) then [e] else []
    case Element(_, e, _, kids) => (if e == 0 then [] else [e]) + ShownAll(kids, prev)
  }

  function ShownAll(ns: seq<Node>, prev: seq<Tree>): seq<nat>
  {
    if ns == [] then [] else ShownAll(ns[..|ns| - 1], prev) + Shown(ns[|ns| - 1], prev)
  }

  /** What was there before the counter went past lo. */
  function UpTo(ids: seq<nat>, lo: nat): seq<nat>
  {
    if ids == [] then [] else UpTo(ids[..|ids| - 1], lo) + if ids[|ids| - 1] <= lo then [ids[|ids| - 1]] else []
  }

  lemma {:induction false} UpToConcat(a: seq<nat>, b: seq<nat>, lo: nat)
    ensures UpTo(a + b, lo) == UpTo(a, lo) + UpTo(b, lo)
  {
    if b == [] {
      assert a + b == a && UpTo(b, lo) == [];
    } else {
      var init, last := b[..|b| - 1], b[|b| - 1];
      UpToConcat(a, init, lo);
      assert (a + b)[..|a + b| - 1] == a + init && (a + b)[|a + b| - 1] == last;
    }
  }

  lemma {:induction false} NoneUpTo(ids: seq<nat>, lo: nat)
    requires forall i :: 0 <= i < |ids| ==> ids[i] > lo
    ensures UpTo(ids, lo) == []
  {
    if ids != [] {
      NoneUpTo(ids[..|ids| - 1], lo);
    }
  }

  lemma OneUpTo(e: nat, lo: nat)
    ensures UpTo([e], lo) == if e <= lo then [e] else []
  {
    assert [e][..0] == [];
  }

  lemma KeysBelow(a: seq<nat>, b: seq<nat>, lo: nat)
    requires Below(a + b, lo)
    ensures Below(a, lo) && Below(b, lo)
  {
    assert forall k :: k in a || k in b ==> k in a + b;
  }

  lemma {:induction false} CounterRises(n: Node, prev: seq<Tree>, cnt: nat)
    ensures Render(n, prev, cnt).cnt >= cnt
    decreases n, 1
  {
    match n
    case Nothing(kids) => CounterRisesAll(kids, prev, cnt);
    case Reuse(o, e) =>
      if Find(prev, o).Some? {
        RenameFlat(Find(prev, o).value, e, cnt);
      }
    case Element(_, e, hdl, kids) => CounterRisesAll(kids, prev, if e == 0 && hdl != {} then Inc(cnt) else cnt);
  }

  lemma {:induction false} CounterRisesAll(ns: seq<Node>, prev: seq<Tree>, cnt: nat)
    ensures RenderAll(ns, prev, cnt).cnt >= cnt
    decreases ns, 0
  {
    if ns != [] {
      CounterRisesAll(ns[..|ns| - 1], prev, cnt);
      CounterRises(ns[|ns| - 1], prev, RenderAll(ns[..|ns| - 1], prev, cnt).cnt);
      hide Render;
    }
  }

  /** Of the entities shown, those up to where the counter stood are the keys, in order. */
  lemma {:induction false} KeysShown(n: Node, prev: seq<Tree>, cnt: nat, lo: nat)
    requires Below(Keys(n), lo) && lo <= cnt
    ensures UpTo(Ids(Render(n, prev, cnt).forest), lo) == Shown(n, prev)
    decreases n, 1
  {
    match n
    case Nothing(kids) => KeysShownAll(kids, prev, cnt, lo);
    case Reuse(o, e) =>
      assert e in Keys(n);
      ReuseShown(o, e, prev, cnt, lo);
    case Element(tag, e, hdl, kids) =>
      var key := if e == 0 then [] else [e];
      var cnt' := if e == 0 && hdl != {} then Inc(cnt) else cnt;
      var e' := if e == 0 && hdl != {} then Inc(cnt) else e;
      KeysBelow(key, KeysAll(kids), lo);
      KeysShownAll(kids, prev, cnt', lo);
      var below := RenderAll(kids, prev, cnt');
      assert e != 0 ==> e in key;
      assert [] + ShownAll(kids, prev) == ShownAll(kids, prev);
      RenderElement(n, prev, cnt);
      hide Render, RenderAll, KeysAll, Ids, ShownAll;
      if e' != 0 {
        IdsOfTree(e', hdl, below.forest);
        UpToConcat([e'], Ids(below.forest), lo);
        OneUpTo(e', lo);
      }
  }

  lemma {:induction false} KeysShownAll(ns: seq<Node>, prev: seq<Tree>, cnt: nat, lo: nat)
    requires Below(KeysAll(ns), lo) && lo <= cnt
    ensures UpTo(Ids(RenderAll(ns, prev, cnt).forest), lo) == ShownAll(ns, prev)
    decreases ns, 0
  {
    if ns == [] {
      assert Ids([]) == [];
    } else {
      var init, n := ns[..|ns| - 1], ns[|ns| - 1];
      KeysBelow(KeysAll(init), Keys(n), lo);
      KeysShownAll(init, prev, cnt, lo);
      CounterRisesAll(init, prev, cnt);
      var a := RenderAll(init, prev, cnt);
      KeysShown(n, prev, a.cnt, lo);
      var b := Render(n, prev, a.cnt);
      IdsOfConcat(a.forest, b.forest);
      hide Render, Keys, Ids, Shown;
      UpToConcat(Ids(a.forest), Ids(b.forest), lo);
    }
  }

  lemma ReuseShown(o: nat, e: nat, prev: seq<Tree>, cnt: nat, lo: nat)
    requires e <= lo <= cnt
    ensures UpTo(Ids(Render(Reuse(o, e), prev, cnt).forest), lo) == if o in Ids(prev) then [e] else []
  {
    FoundIn(prev, o);
    var t := Find(prev, o);
    if t.Some? {
      var r := Rename(t.value, e, cnt);
      RenameFlat(t.value, e, cnt);
      FlatOne(r.0);
      var below := FlatAll(t.value.kids);
      var p := Flat(t.value)[0].(ntt := e);
      IdsConcat([p], Renumber(below, cnt));
      assert IdsOf([p]) == [e];
      ReuseIs(o, e, prev, cnt);
      hide Flat, FlatAll, Rename, Render, Find;
      var ids := IdsOf(Renumber(below, cnt));
      assert forall i :: 0 <= i < |ids| ==> ids[i] == cnt + 2 * (i + 1);
      NoneUpTo(ids, lo);
      UpToConcat([e], ids, lo);
      OneUpTo(e, lo);
      assert [e] + [] == [e];
    } else {
      assert Ids([]) == [];
    }
  }

  lemma FoundIn(prev: seq<Tree>, o: nat)
    ensures Find(prev, o).Some? <==> o in Ids(prev)
  {
    var i := FindStands(prev, o);
    hide Find, FlatAll;
    var g := FlatAll(prev);
    assert Ids(prev) == IdsOf(g);
    if Find(prev, o).Some? {
      assert IdsOf(g)[i] == o;
    }
  }

  // ---------------------------------------------------------------- elements

  /** m is n, or one of the nodes below it. */
  ghost predicate Inside(n: Node, m: Node)
    decreases n, 1
  {
    m == n || (!n.Reuse? && InsideAll(n.kids, m))
  }

  ghost predicate InsideAll(ns: seq<Node>, m: Node)
    decreases ns, 0
  {
    ns != [] && (InsideAll(ns[..|ns| - 1], m) || Inside(ns[|ns| - 1], m))
  }

  /** t is one of the trees, or below one of them. */
  ghost predicate Among(t: Tree, ts: seq<Tree>)
  {
    exists i :: 0 <= i < |ts| && (ts[i] == t || Among(t, ts[i].kids))
  }

  lemma AmongConcat(t: Tree, a: seq<Tree>, b: seq<Tree>)
    requires Among(t, a) || Among(t, b)
    ensures Among(t, a + b)
  {
    if Among(t, a) {
      var i :| 0 <= i < |a| && (a[i] == t || Among(t, a[i].kids));
      assert (a + b)[i] == a[i];
    } else {
      var i :| 0 <= i < |b| && (b[i] == t || Among(t, b[i].kids));
      assert (a + b)[|a| + i] == b[i];
    }
  }

  lemma AmongBelow(t: Tree, e: nat, hdl: Handler, kids: seq<Tree>)
    ensures Among(t, kids) ==> Among(t, [Tree(e, hdl, kids)])
    ensures Among(Tree(e, hdl, kids), [Tree(e, hdl, kids)])
  {
    assert [Tree(e, hdl, kids)][0] == Tree(e, hdl, kids);
  }

  /** The tree of an element: its entity or a new one, its handler, and the keys below it. */
  ghost predicate TreeOf(m: Node, prev: seq<Tree>, lo: nat, t: Tree)
    requires m.Element?
  {
    t.hdl == m.hdl && (if m.entity != 0 then t.ntt == m.entity else t.ntt > lo) && UpTo(Ids(t.kids), lo) == ShownAll(m.kids, prev)
  }

  /** Every element with a key or a handler is shown, and what is below it is below it there. */
  lemma {:induction false} ElementShown(n: Node, m: Node, prev: seq<Tree>, cnt: nat, lo: nat) returns (t: Tree)
    requires Below(Keys(n), lo) && lo <= cnt && Inside(n, m) && m.Element? && (m.entity != 0 || m.hdl != {})
    ensures Among(t, Render(n, prev, cnt).forest) && TreeOf(m, prev, lo, t)
    decreases n, 1
  {
    t := Tree(0, {}, []);
    match n
    case Nothing(kids) => t := ElementShownAll(kids, m, prev, cnt, lo);
    case Reuse(_, _) =>
    case Element(tag, e, hdl, kids) =>
      var key := if e == 0 then [] else [e];
      var cnt' := if e == 0 && hdl != {} then Inc(cnt) else cnt;
      var e' := if e == 0 && hdl != {} then Inc(cnt) else e;
      KeysBelow(key, KeysAll(kids), lo);
      RenderElement(n, prev, cnt);
      var below := RenderAll(kids, prev, cnt');
      hide Render, RenderAll, KeysAll, Ids, ShownAll, Among;
      if m == n {
        KeysShownAll(kids, prev, cnt', lo);
        t := Tree(e', hdl, below.forest);
        AmongBelow(t, e', hdl, below.forest);
      } else {
        t := ElementShownAll(kids, m, prev, cnt', lo);
        AmongBelow(t, e', hdl, below.forest);
      }
  }

  lemma {:induction false} ElementShownAll(ns: seq<Node>, m: Node, prev: seq<Tree>, cnt: nat, lo: nat) returns (t: Tree)
    requires Below(KeysAll(ns), lo) && lo <= cnt && InsideAll(ns, m) && m.Element? && (m.entity != 0 || m.hdl != {})
    ensures Among(t, RenderAll(ns, prev, cnt).forest) && TreeOf(m, prev, lo, t)
    decreases ns, 0
  {
    var init, n := ns[..|ns| - 1], ns[|ns| - 1];
    KeysBelow(KeysAll(init), Keys(n), lo);
    CounterRisesAll(init, prev, cnt);
    var a := RenderAll(init, prev, cnt);
    var b := Render(n, prev, a.cnt);
    hide Render, Keys, Among, TreeOf;
    if InsideAll(init, m) {
      t := ElementShownAll(init, m, prev, cnt, lo);
    } else {
      t := ElementShown(n, m, prev, a.cnt, lo);
    }
    AmongConcat(t, a.forest, b.forest);
  }
}
