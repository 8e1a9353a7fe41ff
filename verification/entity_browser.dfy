/** The instructions of a rendering pass as the browser runs them (buildView of rx-browser/webc/datacell.ts):
    they build a document whose entities are those of the engine's array.  Renamings are kept with the tree
    that was moved before them, and looked up by the old name. */
module EntityBrowser {
  import opened Wrappers
  import opened EntityForest
  import opened EntityRender

  /** What the browser builds: elements of its own, and trees moved over from the document before. */
  datatype Dom = Made(tag: string, id: nat, kids: seq<Dom>) | Moved(old_: nat, names: seq<Instr>)

  /** An element that is open. */
  datatype Frame = Frame(tag: string, id: nat, kids: seq<Dom>)

  // ---------------------------------------------------------------- running instructions

  function Put(stack: seq<Frame>, ds: seq<Dom>): (r: seq<Frame>)
    requires stack != []
    ensures |r| == |stack|
  {
    var n := |stack| - 1;
    stack[..n] + [stack[n].(kids := stack[n].kids + ds)]
  }

  function Exec(stack: seq<Frame>, x: Instr): (r: seq<Frame>)
    requires stack != []
    ensures r != []
  {
    var n := |stack| - 1;
    var top := stack[n];
    match x
    case CreateElement(tag) => stack + [Frame(tag, 0, [])]
    case SetID(e) => stack[..n] + [top.(id := e)]
    case ReuseNode(o) => Put(stack, [Moved(o, [])])
    case ReID(_, _) =>
      var m := |top.kids| - 1;
      if m < 0 || !top.kids[m].Moved? then stack
      else stack[..n] + [top.(kids := top.kids[..m] + [Moved(top.kids[m].old_, top.kids[m].names + [x])])]
    case Next => if n == 0 then stack else Put(stack[..n], [Made(top.tag, top.id, top.kids)])
  }

  function ExecAll(stack: seq<Frame>, xs: seq<Instr>): (r: seq<Frame>)
    requires stack != []
    ensures r != []
  {
    if xs == [] then stack else Exec(ExecAll(stack, xs[..|xs| - 1]), xs[|xs| - 1])
  }

  lemma {:induction false} ExecConcat(stack: seq<Frame>, a: seq<Instr>, b: seq<Instr>)
    requires stack != []
    ensures ExecAll(stack, a + b) == ExecAll(ExecAll(stack, a), b)
  {
    hide Exec;
    if b == [] {
      assert a + b == a;
    } else {
      ExecConcat(stack, a, b[..|b| - 1]);
      assert (a + b)[..|a + b| - 1] == a + b[..|b| - 1];
    }
  }

  lemma ExecOne(stack: seq<Frame>, x: Instr)
    requires stack != []
    ensures ExecAll(stack, [x]) == Exec(stack, x)
  {
    assert [x][..0] == [];
    hide Exec;
  }

  lemma PutTwice(stack: seq<Frame>, a: seq<Dom>, b: seq<Dom>)
    requires stack != []
    ensures Put(Put(stack, a), b) == Put(stack, a + b) && Put(stack, []) == stack
  {
    var n := |stack| - 1;
    var top := stack[n];
    assert (top.kids + a) + b == top.kids + (a + b);
    assert Put(stack, a)[..n] == stack[..n] && Put(stack, a)[n] == top.(kids := top.kids + a);
    assert top.kids + [] == top.kids;
  }

  // ---------------------------------------------------------------- renamings

  /** Instructions of renamings only. */
  predicate Renames(xs: seq<Instr>) { forall i :: 0 <= i < |xs| ==> xs[i].ReID? }

  lemma {:induction false} ReIDsRename(before: seq<Prenode>, after: seq<Prenode>)
    requires |before| == |after|
    ensures Renames(ReIDs(before, after))
  {
    if before != [] {
      ReIDsRename(before[..|before| - 1], after[..|after| - 1]);
    }
  }

  lemma {:induction false} RenamesKept(stack: seq<Frame>, o: nat, xs: seq<Instr>)
    requires stack != [] && Renames(xs)
    ensures ExecAll(Put(stack, [Moved(o, [])]), xs) == Put(stack, [Moved(o, xs)])
  {
    if xs != [] {
      var init, x := xs[..|xs| - 1], xs[|xs| - 1];
      assert forall i :: 0 <= i < |init| ==> init[i] == xs[i];
      RenamesKept(stack, o, init);
      OneRename(stack, o, init, x);
      assert xs == init + [x];
    }
  }

  lemma OneRename(stack: seq<Frame>, o: nat, init: seq<Instr>, x: Instr)
    requires stack != [] && x.ReID?
    ensures Exec(Put(stack, [Moved(o, init)]), x) == Put(stack, [Moved(o, init + [x])])
  {
    var n := |stack| - 1;
    var top := stack[n];
    var now := Put(stack, [Moved(o, init)]);
    assert now[..n] == stack[..n] && now[n] == top.(kids := top.kids + [Moved(o, init)]);
    assert (top.kids + [Moved(o, init)])[..|top.kids|] == top.kids;
  }

  /** The new name, if there is one. */
  function NewName(xs: seq<Instr>, x: nat): nat
  {
    if xs == [] then x
    else if xs[|xs| - 1].ReID? && xs[|xs| - 1].from == x then xs[|xs| - 1].to
    else NewName(xs[..|xs| - 1], x)
  }

  lemma {:induction false} NewNames(before: seq<Prenode>, after: seq<Prenode>, i: nat)
    requires |before| == |after| && i < |before| && Distinct(IdsOf(before))
    ensures NewName(ReIDs(before, after), before[i].ntt) == after[i].ntt
  {
    var n := |before| - 1;
    var b, a := before[..n], after[..n];
    var ids := IdsOf(before);
    assert IdsOf(b) == ids[..n];
    assert Distinct(ids[..n]);
    assert i < n ==> ids[i] != ids[n];
    if before[n].ntt != after[n].ntt {
      assert ReIDs(before, after)[..|ReIDs(b, a)|] == ReIDs(b, a);
    } else {
      assert ReIDs(before, after) == ReIDs(b, a);
    }
    if i < n {
      NewNames(b, a, i);
    } else if before[n].ntt == after[n].ntt {
      NoNewName(b, a, before[n].ntt);
    }
  }

  lemma {:induction false} NoNewName(before: seq<Prenode>, after: seq<Prenode>, x: nat)
    requires |before| == |after| && forall i :: 0 <= i < |before| ==> before[i].ntt != x
    ensures NewName(ReIDs(before, after), x) == x
  {
    if before != [] {
      var n := |before| - 1;
      NoNewName(before[..n], after[..n], x);
      if before[n].ntt != after[n].ntt {
        assert ReIDs(before, after)[..|ReIDs(before[..n], after[..n])|] == ReIDs(before[..n], after[..n]);
      } else {
        assert ReIDs(before, after) == ReIDs(before[..n], after[..n]);
      }
    }
  }

  // ---------------------------------------------------------------- the entities of a document

  /** An entity and the size of its subtree. */
  datatype Place = Place(ntt: nat, scp: int)

  function Places(g: seq<Prenode>): (r: seq<Place>)
    ensures |r| == |g|
  {
    seq(|g|, i requires 0 <= i < |g| => Place(g[i].ntt, g[i].scp))
  }

  /** The elements with names, in preorder; what is moved brings those of the tree it was. */
  function Named(ds: seq<Dom>, prev: seq<Tree>): seq<Place>
  {
    if ds == [] then [] else Named(ds[..|ds| - 1], prev) + NamedIn(ds[|ds| - 1], prev)
  }

  function NamedIn(d: Dom, prev: seq<Tree>): seq<Place>
  {
    match d
    case Made(_, id, kids) =>
      var below := Named(kids, prev);
      (if id == 0 then [] else [Place(id, 1 + |below|)]) + below
    case Moved(o, names) =>
      var t := Find(prev, o);
      if t.None? then []
      else
        var g := Flat(t.value);
        seq(|g|, i requires 0 <= i < |g| => Place(NewName(names, g[i].ntt), g[i].scp))
  }

  lemma {:induction false} NamedConcat(a: seq<Dom>, b: seq<Dom>, prev: seq<Tree>)
    ensures Named(a + b, prev) == Named(a, prev) + Named(b, prev)
  {
    if b == [] {
      assert a + b == a && Named(a, prev) + [] == Named(a, prev);
    } else {
      var init, d := b[..|b| - 1], b[|b| - 1];
      NamedConcat(a, init, prev);
      assert (a + b)[..|a + b| - 1] == a + init;
      hide NamedIn;
    }
  }

  lemma NamedOne(d: Dom, prev: seq<Tree>)
    ensures Named([d], prev) == NamedIn(d, prev) && Named([], prev) == []
  {
    assert [d][..0] == [];
    hide NamedIn;
  }

  lemma PlacesConcat(a: seq<Prenode>, b: seq<Prenode>)
    ensures Places(a + b) == Places(a) + Places(b)
  {
  }

  // ---------------------------------------------------------------- the nodes of a document

  /** The document shows the nodes: an element for each one, in order and nested alike, named if it has a key
      or a handler; and a moved tree for each one that is reused. */
  ghost predicate Draws(n: Node, ds: seq<Dom>)
    decreases n, 1
  {
    match n
    case Nothing(kids) => DrawsAll(kids, ds)
    case Reuse(o, _) => |ds| == 1 && ds[0].Moved? && ds[0].old_ == o
    case Element(tag, e, hdl, kids) =>
      && |ds| == 1 && ds[0].Made? && ds[0].tag == tag && DrawsAll(kids, ds[0].kids)
      && (if e != 0 then ds[0].id == e else ds[0].id != 0 <==> hdl != {})
  }

  ghost predicate DrawsAll(ns: seq<Node>, ds: seq<Dom>)
    decreases ns, 0
  {
    if ns == [] then ds == []
    else exists k :: 0 <= k <= |ds| && DrawsAll(ns[..|ns| - 1], ds[..k]) && Draws(ns[|ns| - 1], ds[k..])
  }

  /** Running what the pass emitted puts the nodes into the open element, with the entities of the pass. */
  ghost predicate Builds(ns: seq<Dom>, p: Pass, stack: seq<Frame>, prev: seq<Tree>)
    requires stack != []
  {
    ExecAll(stack, p.xas) == Put(stack, ns) && Named(ns, prev) == Places(FlatAll(p.forest))
  }

  lemma {:induction false} RenderBuilds(n: Node, prev: seq<Tree>, cnt: nat, stack: seq<Frame>) returns (ds: seq<Dom>)
    requires stack != [] && Distinct(Ids(prev))
    ensures Draws(n, ds) && Builds(ds, Render(n, prev, cnt), stack, prev)
    decreases n, 1
  {
    match n
    case Nothing(kids) => ds := RenderAllBuilds(kids, prev, cnt, stack);
    case Reuse(o, e) => ds := ReuseBuilds(o, e, prev, cnt, stack);
    case Element(tag, e, hdl, kids) =>
      var cnt' := if e == 0 && hdl != {} then Inc(cnt) else cnt;
      var e' := if e == 0 && hdl != {} then Inc(cnt) else e;
      var open := stack + [Frame(tag, e', [])];
      var below := RenderAllBuilds(kids, prev, cnt', open);
      ds := [Made(tag, e', below)];
      ElementBuilds(n, prev, cnt, stack, below);
  }

  lemma ElementBuilds(n: Node, prev: seq<Tree>, cnt: nat, stack: seq<Frame>, below: seq<Dom>)
    requires stack != [] && n.Element?
    requires var cnt' := if n.entity == 0 && n.hdl != {} then Inc(cnt) else cnt;
      var e' := if n.entity == 0 && n.hdl != {} then Inc(cnt) else n.entity;
      Builds(below, RenderAll(n.kids, prev, cnt'), stack + [Frame(n.tag, e', [])], prev)
    ensures var e' := if n.entity == 0 && n.hdl != {} then Inc(cnt) else n.entity;
      Builds([Made(n.tag, e', below)], Render(n, prev, cnt), stack, prev)
  {
    var tag, e, hdl := n.tag, n.entity, n.hdl;
    var cnt' := if e == 0 && hdl != {} then Inc(cnt) else cnt;
    var e' := if e == 0 && hdl != {} then Inc(cnt) else e;
    var p := RenderAll(n.kids, prev, cnt');
    var head := if e' == 0 then [CreateElement(tag)] else [CreateElement(tag), SetID(e')];
    ElementParts(n, prev, cnt);
    hide Render, RenderAll, Named, FlatAll, ExecAll;
    Opens(stack, tag, e');
    var open := stack + [Frame(tag, e', [])];
    ExecConcat(stack, head, p.xas);
    ExecConcat(stack, head + p.xas, [Next]);
    ExecOne(Put(open, below), Next);
    Closes(stack, tag, e', below);
    NamedOne(Made(tag, e', below), prev);
    ElementPlaces(tag, e', hdl, below, p.forest, prev);
  }

  lemma ElementParts(n: Node, prev: seq<Tree>, cnt: nat)
    requires n.Element?
    ensures
      var cnt' := if n.entity == 0 && n.hdl != {} then Inc(cnt) else cnt;
      var e' := if n.entity == 0 && n.hdl != {} then Inc(cnt) else n.entity;
      var p := RenderAll(n.kids, prev, cnt');
      var head := if e' == 0 then [CreateElement(n.tag)] else [CreateElement(n.tag), SetID(e')];
      && Render(n, prev, cnt).xas == head + p.xas + [Next]
      && Render(n, prev, cnt).forest == if e' == 0 then p.forest else [Tree(e', n.hdl, p.forest)]
  {
    hide RenderAll;
  }

  lemma Opens(stack: seq<Frame>, tag: string, e: nat)
    requires stack != []
    ensures ExecAll(stack, if e == 0 then [CreateElement(tag)] else [CreateElement(tag), SetID(e)]) == stack + [Frame(tag, e, [])]
  {
    ExecOne(stack, CreateElement(tag));
    if e != 0 {
      var made := stack + [Frame(tag, 0, [])];
      ExecConcat(stack, [CreateElement(tag)], [SetID(e)]);
      assert [CreateElement(tag)] + [SetID(e)] == [CreateElement(tag), SetID(e)];
      ExecOne(made, SetID(e));
      assert made[..|stack|] == stack;
    }
  }

  lemma Closes(stack: seq<Frame>, tag: string, e: nat, below: seq<Dom>)
    requires stack != []
    ensures Exec(Put(stack + [Frame(tag, e, [])], below), Next) == Put(stack, [Made(tag, e, below)])
  {
    var open := stack + [Frame(tag, e, [])];
    var full := Put(open, below);
    assert open[..|stack|] == stack && [] + below == below;
    assert full == stack + [Frame(tag, e, below)];
    assert full[..|stack|] == stack;
  }

  lemma ElementPlaces(tag: string, e: nat, hdl: Handler, below: seq<Dom>, kids: seq<Tree>, prev: seq<Tree>)
    requires Named(below, prev) == Places(FlatAll(kids))
    ensures NamedIn(Made(tag, e, below), prev) == Places(FlatAll(if e == 0 then kids else [Tree(e, hdl, kids)]))
  {
    var all := FlatAll(kids);
    if e == 0 {
      assert [] + Named(below, prev) == Named(below, prev);
    } else {
      FlatOne(Tree(e, hdl, kids));
      PlacesConcat([Prenode(e, 1 + |all|, hdl)], all);
      assert Places([Prenode(e, 1 + |all|, hdl)]) == [Place(e, 1 + |all|)];
    }
  }

  lemma ReuseBuilds(o: nat, e: nat, prev: seq<Tree>, cnt: nat, stack: seq<Frame>) returns (ds: seq<Dom>)
    requires stack != [] && Distinct(Ids(prev))
    ensures Draws(Reuse(o, e), ds) && Builds(ds, Render(Reuse(o, e), prev, cnt), stack, prev)
  {
    var t := Find(prev, o);
    var names := [];
    if t.Some? {
      var r := Rename(t.value, e, cnt);
      RenameFlat(t.value, e, cnt);
      names := ReIDs(Flat(t.value), Flat(r.0));
      ReIDsRename(Flat(t.value), Flat(r.0));
    }
    ds := [Moved(o, names)];
    ReuseRuns(stack, o, names);
    NamedOne(ds[0], prev);
    if t.Some? {
      MovedPlaces(o, e, prev, cnt, t.value, names);
    }
    hide ExecAll, Rename, Find;
    if t.None? {
      assert [ReuseNode(o)] + [] == [ReuseNode(o)];
    }
  }

  lemma ReuseRuns(stack: seq<Frame>, o: nat, names: seq<Instr>)
    requires stack != [] && Renames(names)
    ensures ExecAll(stack, [ReuseNode(o)] + names) == Put(stack, [Moved(o, names)])
  {
    ExecConcat(stack, [ReuseNode(o)], names);
    ExecOne(stack, ReuseNode(o));
    RenamesKept(stack, o, names);
  }

  lemma MovedPlaces(o: nat, e: nat, prev: seq<Tree>, cnt: nat, t: Tree, names: seq<Instr>)
    requires Find(prev, o) == Some(t) && Distinct(Ids(prev))
    requires |Flat(Rename(t, e, cnt).0)| == |Flat(t)| && names == ReIDs(Flat(t), Flat(Rename(t, e, cnt).0))
    ensures NamedIn(Moved(o, names), prev) == Places(FlatAll([Rename(t, e, cnt).0]))
  {
    var r := Rename(t, e, cnt).0;
    var g, h := Flat(t), Flat(r);
    FlatOne(r);
    FoundDistinct(prev, o, t);
    SameScopes(t, e, cnt);
    hide Flat, FlatAll, Rename, Find;
    forall i | 0 <= i < |g|
      ensures NewName(names, g[i].ntt) == h[i].ntt && g[i].scp == h[i].scp
    {
      NewNames(g, h, i);
    }
    assert NamedIn(Moved(o, names), prev) == Places(h);
  }

  lemma SameScopes(t: Tree, e: nat, cnt: nat)
    ensures var g, h := Flat(t), Flat(Rename(t, e, cnt).0); |g| == |h| && forall i :: 0 <= i < |g| ==> g[i].scp == h[i].scp
  {
    RenameFlat(t, e, cnt);
    var g := Flat(t);
    assert g[1..] == FlatAll(t.kids);
  }

  lemma FoundDistinct(prev: seq<Tree>, o: nat, t: Tree)
    requires Find(prev, o) == Some(t) && Distinct(Ids(prev))
    ensures Distinct(IdsOf(Flat(t)))
  {
    var i := FindStands(prev, o);
    var g, h := FlatAll(prev), Flat(t);
    hide Flat, FlatAll, Find;
    var ids := Ids(prev);
    forall a, b | 0 <= a < b < |h|
      ensures IdsOf(h)[a] != IdsOf(h)[b]
    {
      assert g[i..i + |h|][a] == g[i + a] && g[i..i + |h|][b] == g[i + b];
      assert ids[i + a] != ids[i + b];
    }
  }

  lemma {:induction false} RenderAllBuilds(ns: seq<Node>, prev: seq<Tree>, cnt: nat, stack: seq<Frame>) returns (ds: seq<Dom>)
    requires stack != [] && Distinct(Ids(prev))
    ensures DrawsAll(ns, ds) && Builds(ds, RenderAll(ns, prev, cnt), stack, prev)
    decreases ns, 0
  {
    if ns == [] {
      ds := [];
      PutTwice(stack, [], []);
    } else {
      var init, n := ns[..|ns| - 1], ns[|ns| - 1];
      var a := RenderAll(init, prev, cnt);
      var da := RenderAllBuilds(init, prev, cnt, stack);
      var db := RenderBuilds(n, prev, a.cnt, Put(stack, da));
      var b := Render(n, prev, a.cnt);
      ds := da + db;
      assert ds[..|da|] == da && ds[|da|..] == db;
      hide Render, Draws, ExecAll, Named, FlatAll;
      ExecConcat(stack, a.xas, b.xas);
      PutTwice(stack, da, db);
      NamedConcat(da, db, prev);
      FlatConcat(a.forest, b.forest);
      PlacesConcat(FlatAll(a.forest), FlatAll(b.forest));
    }
  }

  /** The document after a pass: it shows the nodes, and its named elements are the entities of the engine's
      array, nested alike. */
  lemma BrowserAgrees(n: Node, prev: seq<Tree>, cnt: nat) returns (ds: seq<Dom>)
    requires Distinct(Ids(prev))
    ensures var p := Render(n, prev, cnt);
      && ExecAll([Frame("", 0, [])], p.xas) == [Frame("", 0, ds)]
      && Draws(n, ds) && Named(ds, prev) == Places(FlatAll(p.forest))
  {
    ds := RenderBuilds(n, prev, cnt, [Frame("", 0, [])]);
    hide ExecAll, Render, Draws, Named;
    var doc := [Frame("", 0, [])];
    assert [] + ds == ds && doc[..0] == [];
  }
}
