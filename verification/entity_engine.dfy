/** The engine of rx-browser/rx (engine.go, etree.go): two generations of the entity array, the sparse
    index and the turn of the crank that swaps them. */
module EntityEngine {
  import opened Wrappers
  import opened EntityForest
  import opened EntityRender

  const SLOTS := 1024

  /** Every entity of g is looked up at its place. */
  ghost predicate Indexed(g: seq<Prenode>, sparse: seq<int>)
  {
    && |sparse| == SLOTS && (forall k :: 0 <= k < |sparse| ==> 0 <= sparse[k])
    && forall i :: 0 <= i < |g| ==> g[i].ntt < SLOTS && sparse[g[i].ntt] == i
  }

  /** Entities of the generation gen: distinct and of its parity. */
  ghost predicate OfGeneration(ts: seq<Tree>, gen: nat)
  {
    Distinct(Ids(ts)) && forall x :: x in Ids(ts) ==> x % 2 == gen % 2
  }

  lemma IndexedDistinct(g: seq<Prenode>, sparse: seq<int>)
    requires Indexed(g, sparse)
    ensures Distinct(IdsOf(g))
  {
  }

  class Engine {
    var g0: seq<Prenode>
    var g1: seq<Prenode>
    const sparse: array<int>
    var cnt: nat
    var gen: nat
    var buf: seq<Instr>
    ghost var shown: seq<Tree>

    /** g1 is the array of the trees that are shown; g0 is empty between passes. */
    ghost predicate Shows()
      reads this`g1, this`shown, this`gen, sparse
    {
      && g1 == FlatAll(shown) && Indexed(g1, sparse[..])
      && (g1 != [] ==> gen > 0 && OfGeneration(shown, gen - 1))
    }

    ghost predicate Valid()
      reads this, sparse
    {
      Shows() && cnt % 2 == gen % 2
    }

    constructor ()
      ensures Valid() && fresh(sparse) && shown == [] && g0 == [] && gen == 0 && cnt == 0
    {
      g0, g1, cnt, gen, buf, shown := [], [], 0, 0, [], [];
      sparse := new int[SLOTS](_ => 0);
    }

    /** Counter.Inc, as GiveKey calls it: an entity that was not handed out in this generation. */
    method Inc() returns (e: nat)
      modifies this`cnt
      ensures e == cnt == old(cnt) + 2
    {
      cnt := cnt + 2;
      e := cnt;
    }

    // -------------------------------------------------------------- looking up

    method Locate(nt: nat) returns (i: int)
      requires nt < SLOTS && Indexed(g1, sparse[..])
      ensures -1 <= i < |g1|
      ensures i >= 0 ==> g1[i].ntt == nt
      ensures i == -1 ==> nt !in IdsOf(g1)
    {
      i := sparse[nt];
      assert forall j :: 0 <= j < |g1| && g1[j].ntt == nt ==> sparse[..][nt] == j;
      if i >= |g1| || g1[i].ntt != nt {
        return -1;
      }
    }

    /** The subtree of an entity, as the array holds it; nothing if there is no such entity. */
    method Children(nt: nat) returns (g: seq<Prenode>)
      requires nt < SLOTS && Shows()
      ensures g == if Find(shown, nt).Some? then Flat(Find(shown, nt).value) else []
    {
      var i := Locate(nt);
      ghost var k := FindStands(shown, nt);
      if i == -1 {
        StandsIn(g1, nt, shown, k);
        return [];
      }
      assert IdsOf(g1)[i] == nt;
      IndexedOnce(g1, sparse[..], i, k);
      FlatNested(shown);
      return g1[i..i + g1[i].scp];
    }

    /** The entities around one that is shown, itself first. */
    method Parents(nt: nat) returns (chain: seq<Prenode>)
      requires nt < SLOTS && Valid() && nt in Ids(shown)
      ensures chain == Chain(shown, nt) && chain != [] && chain[0].ntt == nt
    {
      var i := Locate(nt);
      IndexedDistinct(g1, sparse[..]);
      EnclosingIsChain(shown, nt, i);
      FlatNested(shown);
      FoundHere(g1, nt, i);
      hide *;
      chain := [];
      var j := i;
      EnclosingStart(g1, i);
      while j >= 0
        invariant -1 <= j <= i < |g1| && Enclosing(g1, i, i) == chain + Enclosing(g1, i, j)
        invariant j < i ==> chain != [] && chain[0] == g1[i]
      {
        EnclosingStep(g1, i, j, chain);
        if g1[j].scp + j > i {
          chain := chain + [g1[j]];
        }
        j := j - 1;
      }
      EnclosingStart(g1, i);
    }

    /** ReactToIntent: the nearest entity that handles the intent, if the event belongs to what is
        shown. */
    method Handler(frame: nat, nt: nat, intent: nat) returns (h: Option<Prenode>)
      requires Valid() && (frame == gen ==> nt < SLOTS && nt in Ids(shown))
      ensures frame != gen ==> h == None
      ensures frame == gen ==> Nearest(Chain(shown, nt), intent, h)
    {
      if frame != gen {
        return None;
      }
      var chain := Parents(nt);
      for k := 0 to |chain|
        invariant forall m :: 0 <= m < k ==> intent !in chain[m].hdl
      {
        if intent in chain[k].hdl {
          return Some(chain[k]);
        }
      }
      return None;
    }

    // -------------------------------------------------------------- recording

    method Add(nt: nat) returns (idx: nat)
      requires nt < SLOTS
      modifies this`g0
      ensures idx == |old(g0)| && g0 == old(g0) + [Prenode(nt, 0, {})]
    {
      g0 := g0 + [Prenode(nt, 0, {})];
      idx := |g0| - 1;
    }

    /** etree.reuse: the subtree of an entity of the last generation, with new entities. */
    method Carry(from: nat, to: nat)
      requires Shows() && from < SLOTS
      modifies this`g0, this`cnt, this`buf
      ensures var t := Find(shown, from);
        if t.None? then g0 == old(g0) && cnt == old(cnt) && buf == old(buf)
        else
          var r := Rename(t.value, to, old(cnt));
          && |Flat(r.0)| == |Flat(t.value)| && g0 == old(g0) + Flat(r.0) && cnt == r.1
          && buf == old(buf) + ReIDs(Flat(t.value), Flat(r.0))
    {
      var below := Children(from);
      var start := |g0|;
      g0 := g0 + below;
      ghost var t := Find(shown, from);
      ghost var want := if t.Some? then Flat(Rename(t.value, to, cnt).0) else [];
      WantedAt(t, to, cnt, below, want);
      RenameFrom(start, to, old(g0), below, want);
      if t.None? {
        NoReIDs(below, want);
        assert old(g0) + want == old(g0);
      }
    }

    /** The renaming loop of etree.reuse. */
    method RenameFrom(start: nat, to: nat, ghost pre: seq<Prenode>, ghost below: seq<Prenode>, ghost want: seq<Prenode>)
      requires |pre| == start && g0 == pre + below && Wanted(below, want, to, cnt)
      modifies this`g0, this`cnt, this`buf
      ensures g0 == pre + want && |want| == |below|
      ensures cnt == old(cnt) + if below == [] then 0 else 2 * (|below| - 1)
      ensures buf == old(buf) + ReIDs(below, want)
    {
      hide *;
      ghost var cnt0, buf0 := cnt, buf;
      WantedLength(below, want, to, cnt);
      CarryStart(pre, below, want);
      NoReIDs(below, want);
      for i := 0 to |g0| - start
        invariant |below| == |want| && |g0| == start + |below| && Carried(g0, pre, below, want, i)
        invariant cnt == cnt0 + (if i == 0 then 0 else 2 * (i - 1))
        invariant buf == buf0 + ReIDs(below[..i], want[..i])
      {
        var nt := to;
        if i != 0 {
          nt := Inc();
        }
        CarryAt(g0, pre, below, want, i);
        WantedIs(below, want, to, cnt0, i);
        ReIDsStep(below, want, i);
        if nt != g0[start + i].ntt {
          buf := buf + [ReID(g0[start + i].ntt, nt)];
        }
        g0 := g0[start + i := g0[start + i].(ntt := nt)];
      }
      CarryEnd(g0, pre, below, want);
    }

    /** serialize: a preorder visit of the node tree. */
    method Serialize(n: Node)
      requires Shows() && Fits(n, shown, cnt)
      modifies this`g0, this`cnt, this`buf
      ensures var p := Render(n, shown, old(cnt));
        g0 == old(g0) + FlatAll(p.forest) && cnt == p.cnt && buf == old(buf) + p.xas
      decreases n, 1
    {
      match n
      case Nothing(kids) =>
        SerializeAll(kids);
      case Reuse(o, e) =>
        ReuseRenders(o, e, shown, cnt);
        buf := buf + [ReuseNode(o)];
        Carry(o, e);
      case Element(tag, entity, hdl, kids) =>
        SerializeElement(n);
    }

    method SerializeElement(n: Node)
      requires n.Element? && Shows() && Fits(n, shown, cnt)
      modifies this`g0, this`cnt, this`buf
      ensures var p := Render(n, shown, old(cnt));
        g0 == old(g0) + FlatAll(p.forest) && cnt == p.cnt && buf == old(buf) + p.xas
      decreases n, 0
    {
      FitsElement(n, shown, cnt);
      hide Indexed, Fits, FitsAll, OfGeneration;
      buf := buf + [CreateElement(n.tag)];
      var e := n.entity;
      if e == 0 && n.hdl != {} {
        e := Inc();
      }
      ghost var below := RenderAll(n.kids, shown, cnt);
      var idx := 0;
      if e != 0 {
        idx := Add(e);
        if n.hdl != {} {
          g0 := g0[|g0| - 1 := g0[|g0| - 1].(hdl := n.hdl)];
        }
        buf := buf + [SetID(e)];
        assert g0 == old(g0) + [Prenode(e, 0, n.hdl)];
      }
      SerializeAll(n.kids);
      if e != 0 {
        g0 := g0[idx := g0[idx].(scp := |g0| - idx)];
        ScopeClosed(old(g0), e, n.hdl, below.forest);
      }
      buf := buf + [Next];
      RenderedElement(n, shown, old(cnt), old(buf));
    }

    method SerializeAll(ns: seq<Node>)
      requires Shows() && FitsAll(ns, shown, cnt)
      modifies this`g0, this`cnt, this`buf
      ensures var p := RenderAll(ns, shown, old(cnt));
        g0 == old(g0) + FlatAll(p.forest) && cnt == p.cnt && buf == old(buf) + p.xas
      decreases ns, 0
    {
      hide Flat, FlatAll, Indexed, Fits;
      assert ns[..0] == [];
      NoneRendered(shown, cnt);
      for k := 0 to |ns|
        invariant g0 == old(g0) + FlatAll(RenderAll(ns[..k], shown, old(cnt)).forest)
        invariant cnt == RenderAll(ns[..k], shown, old(cnt)).cnt
        invariant buf == old(buf) + RenderAll(ns[..k], shown, old(cnt)).xas
      {
        ghost var a := RenderAll(ns[..k], shown, old(cnt));
        RenderStep(ns, k, shown, old(cnt));
        FitsAt(ns, k, shown, old(cnt));
        ghost var g, b := g0, buf;
        Serialize(ns[k]);
        FlatConcat(a.forest, Render(ns[k], shown, a.cnt).forest);
        Assoc(old(g0), FlatAll(a.forest), FlatAll(Render(ns[k], shown, a.cnt).forest));
        Assoc(old(buf), a.xas, Render(ns[k], shown, a.cnt).xas);
      }
      assert ns[..|ns|] == ns;
    }

    // -------------------------------------------------------------- the turn of the crank

    /** etree.ngen: what was recorded is shown from now on. */
    method NextGeneration(ghost now: seq<Tree>)
      requires g0 == FlatAll(now) && Distinct(Ids(now)) && sparse.Length == SLOTS
      requires forall i :: 0 <= i < |g0| ==> g0[i].ntt < SLOTS
      requires forall k :: 0 <= k < SLOTS ==> 0 <= sparse[k]
      modifies this`g0, this`g1, sparse
      ensures g1 == old(g0) && g0 == [] && Indexed(g1, sparse[..])
    {
      g1, g0 := g0, [];
      assert forall i :: 0 <= i < |g1| ==> Ids(now)[i] == g1[i].ntt;
      hide FlatAll, Flat;
      for i := 0 to |g1|
        invariant g1 == old(g0) && g0 == []
        invariant forall k :: 0 <= k < SLOTS ==> 0 <= sparse[k]
        invariant forall j :: 0 <= j < i ==> sparse[g1[j].ntt] == j
      {
        assert forall j :: 0 <= j < i ==> Ids(now)[j] != Ids(now)[i];
        sparse[g1[i].ntt] := i;
      }
    }

    /** turncrank, for the node tree that was built: the trees shown are those of the pass, and none
        of their entities was shown before. */
    method TurnCrank(n: Node)
      requires Valid() && g0 == [] && Keyed(Keys(n), cnt) && Fits(n, shown, cnt)
      modifies this, sparse
      ensures Valid() && g0 == [] && gen == old(gen) + 1 && cnt == gen % 2
      ensures shown == Render(n, old(shown), old(cnt)).forest && buf == Render(n, old(shown), old(cnt)).xas
      ensures Nested(g1)
      ensures forall x :: x in Ids(shown) ==> x !in old(Ids(shown))
    {
      hide Render, Flat, FlatAll, Keyed, Keys, Fits, Ids, Distinct, Indexed, Nested, OfGeneration;
      ghost var p := Render(n, shown, cnt);
      PassFits(n, shown, cnt, gen);
      buf := [];
      Serialize(n);
      assert g0 == FlatAll(p.forest);
      Swap(p.forest);
    }

    /** The end of turncrank: the generations change places, and the counter starts at the parity of
        the new one. */
    method Swap(ghost now: seq<Tree>)
      requires Shows() && g0 == FlatAll(now) && OfGeneration(now, gen)
      requires forall i :: 0 <= i < |g0| ==> g0[i].ntt < SLOTS
      modifies this`g0, this`g1, this`gen, this`cnt, this`shown, sparse
      ensures Valid() && g0 == [] && gen == old(gen) + 1 && cnt == gen % 2 && shown == now
      ensures Nested(g1)
      ensures forall x :: x in Ids(now) ==> x !in old(Ids(shown))
    {
      hide Flat, FlatAll, Ids, Nested;
      OtherParity(shown, now, gen);
      FlatNested(now);
      IndexedSlots(g1, sparse[..]);
      OfGenerationDistinct(now, gen);
      hide Distinct, OfGeneration, Indexed;
      NextGeneration(now);
      shown := now;
      gen := gen + 1;
      cnt := gen % 2;
    }
  }

  lemma IndexedSlots(g: seq<Prenode>, sparse: seq<int>)
    requires Indexed(g, sparse)
    ensures |sparse| == SLOTS && forall k :: 0 <= k < SLOTS ==> 0 <= sparse[k]
  {
  }

  lemma OfGenerationDistinct(ts: seq<Tree>, gen: nat)
    requires OfGeneration(ts, gen)
    ensures Distinct(Ids(ts))
  {
  }

  lemma PassFits(n: Node, prev: seq<Tree>, cnt: nat, gen: nat)
    requires Keyed(Keys(n), cnt) && Fits(n, prev, cnt) && cnt % 2 == gen % 2
    ensures var now := Render(n, prev, cnt).forest;
      OfGeneration(now, gen) && forall i :: 0 <= i < |FlatAll(now)| ==> FlatAll(now)[i].ntt < SLOTS
  {
    PassIssues(n, prev, cnt);
    IdsBelow(Render(n, prev, cnt).forest, Render(n, prev, cnt).cnt);
  }

  lemma IdsBelow(ts: seq<Tree>, cnt: nat)
    requires cnt < SLOTS && forall x :: x in Ids(ts) ==> x <= cnt
    ensures forall i :: 0 <= i < |FlatAll(ts)| ==> FlatAll(ts)[i].ntt < SLOTS
  {
    var g := FlatAll(ts);
    forall i | 0 <= i < |g|
      ensures g[i].ntt < SLOTS
    {
      assert Ids(ts)[i] == g[i].ntt;
      assert Ids(ts)[i] in Ids(ts);
    }
  }

  /** The last generation has the other parity. */
  lemma OtherParity(was: seq<Tree>, now: seq<Tree>, gen: nat)
    requires FlatAll(was) != [] ==> gen > 0 && OfGeneration(was, gen - 1)
    requires OfGeneration(now, gen)
    ensures forall x :: x in Ids(now) ==> x !in Ids(was)
  {
    if FlatAll(was) == [] {
      assert Ids(was) == [];
    }
  }

  lemma ScopeClosed(pre: seq<Prenode>, e: nat, hdl: Handler, kids: seq<Tree>)
    ensures var g := pre + [Prenode(e, 0, hdl)] + FlatAll(kids); var i := |pre|;
      g[i := g[i].(scp := |g| - i)] == pre + FlatAll([Tree(e, hdl, kids)])
  {
    FlatOne(Tree(e, hdl, kids));
    var t := Tree(e, hdl, kids);
    var g := pre + [Prenode(e, 0, hdl)] + FlatAll(kids);
    assert Flat(t) == [Prenode(e, 1 + |FlatAll(kids)|, hdl)] + FlatAll(kids);
    hide Flat, FlatAll;
    assert g[|pre| := g[|pre|].(scp := |g| - |pre|)] == pre + ([Prenode(e, 1 + |FlatAll(kids)|, hdl)] + FlatAll(kids));
  }

  lemma RenderedElement(n: Node, prev: seq<Tree>, cnt: nat, buf: seq<Instr>)
    requires n.Element?
    ensures var cnt' := if n.entity == 0 && n.hdl != {} then EntityRender.Inc(cnt) else cnt;
      var e := if n.entity == 0 && n.hdl != {} then EntityRender.Inc(cnt) else n.entity;
      var below := RenderAll(n.kids, prev, cnt'); var p := Render(n, prev, cnt);
      && p.cnt == below.cnt && p.forest == (if e == 0 then below.forest else [Tree(e, n.hdl, below.forest)])
      && buf + [CreateElement(n.tag)] + (if e == 0 then [] else [SetID(e)]) + below.xas + [Next] == buf + p.xas
      && (e == 0 ==> buf + [CreateElement(n.tag)] + below.xas + [Next] == buf + p.xas)
  {
  }

  // ---------------------------------------------------------------- room for entities

  predicate Small(n: Node)
  {
    match n
    case Nothing(kids) => SmallAll(kids)
    case Reuse(o, e) => o < SLOTS && e < SLOTS
    case Element(_, e, _, kids) => e < SLOTS && SmallAll(kids)
  }

  predicate SmallAll(ns: seq<Node>)
  {
    ns == [] || (SmallAll(ns[..|ns| - 1]) && Small(ns[|ns| - 1]))
  }

  /** Entities, and entities reused, stay below 1024. */
  ghost predicate Fits(n: Node, prev: seq<Tree>, cnt: nat)
  {
    Small(n) && Render(n, prev, cnt).cnt < SLOTS
  }

  ghost predicate FitsAll(ns: seq<Node>, prev: seq<Tree>, cnt: nat)
  {
    SmallAll(ns) && RenderAll(ns, prev, cnt).cnt < SLOTS
  }

  lemma {:induction false} CounterRises(n: Node, prev: seq<Tree>, cnt: nat)
    ensures cnt <= Render(n, prev, cnt).cnt
    decreases n, 1
  {
    match n
    case Nothing(kids) => CounterRisesAll(kids, prev, cnt);
    case Reuse(o, e) =>
      if Find(prev, o).Some? {
        RenameFlat(Find(prev, o).value, e, cnt);
      }
    case Element(_, e, hdl, kids) =>
      CounterRisesAll(kids, prev, if e == 0 && hdl != {} then EntityRender.Inc(cnt) else cnt);
  }

  lemma {:induction false} CounterRisesAll(ns: seq<Node>, prev: seq<Tree>, cnt: nat)
    ensures cnt <= RenderAll(ns, prev, cnt).cnt
    decreases ns, 0
  {
    if ns != [] {
      CounterRisesAll(ns[..|ns| - 1], prev, cnt);
      CounterRises(ns[|ns| - 1], prev, RenderAll(ns[..|ns| - 1], prev, cnt).cnt);
    }
  }

  lemma {:induction false} FitsAt(ns: seq<Node>, k: nat, prev: seq<Tree>, cnt: nat)
    requires k < |ns| && FitsAll(ns, prev, cnt)
    ensures Fits(ns[k], prev, RenderAll(ns[..k], prev, cnt).cnt)
    decreases |ns|
  {
    var init := ns[..|ns| - 1];
    CounterRises(ns[|ns| - 1], prev, RenderAll(init, prev, cnt).cnt);
    if k < |init| {
      FitsAt(init, k, prev, cnt);
      assert init[..k] == ns[..k];
    }
  }

  lemma FitsElement(n: Node, prev: seq<Tree>, cnt: nat)
    requires n.Element? && Fits(n, prev, cnt)
    ensures var cnt' := if n.entity == 0 && n.hdl != {} then EntityRender.Inc(cnt) else cnt;
      n.entity < SLOTS && cnt' < SLOTS && FitsAll(n.kids, prev, cnt')
  {
    var cnt' := if n.entity == 0 && n.hdl != {} then EntityRender.Inc(cnt) else cnt;
    CounterRisesAll(n.kids, prev, cnt');
  }

  lemma NoneRendered(prev: seq<Tree>, cnt: nat)
    ensures RenderAll([], prev, cnt) == Pass([], cnt, []) && FlatAll([]) == []
  {
  }

  lemma RenderStep(ns: seq<Node>, k: nat, prev: seq<Tree>, cnt: nat)
    requires k < |ns|
    ensures var a := RenderAll(ns[..k], prev, cnt); var b := Render(ns[k], prev, a.cnt);
      RenderAll(ns[..k + 1], prev, cnt) == Pass(a.forest + b.forest, b.cnt, a.xas + b.xas)
  {
    assert ns[..k + 1][..k] == ns[..k];
  }

  // ---------------------------------------------------------------- renaming in place

  /** The first i nodes of the carried subtree have their new entities. */
  ghost predicate Carried(g: seq<Prenode>, pre: seq<Prenode>, below: seq<Prenode>, want: seq<Prenode>, i: nat)
  {
    |below| == |want| && i <= |want| && g == pre + (want[..i] + below[i..])
  }

  lemma CarryStart(pre: seq<Prenode>, below: seq<Prenode>, want: seq<Prenode>)
    requires |below| == |want|
    ensures Carried(pre + below, pre, below, want, 0)
  {
    assert want[..0] + below[0..] == below;
  }

  lemma CarryAt(g: seq<Prenode>, pre: seq<Prenode>, below: seq<Prenode>, want: seq<Prenode>, i: nat)
    requires Carried(g, pre, below, want, i) && i < |want|
    ensures |pre| + i < |g| && g[|pre| + i] == below[i]
    ensures Carried(g[|pre| + i := want[i]], pre, below, want, i + 1)
  {
    var g' := g[|pre| + i := want[i]];
    assert g' == pre + (want[..i + 1] + below[i + 1..]);
  }

  lemma CarryEnd(g: seq<Prenode>, pre: seq<Prenode>, below: seq<Prenode>, want: seq<Prenode>)
    requires |below| == |want| && Carried(g, pre, below, want, |want|)
    ensures g == pre + want && below[..|want|] == below && want[..|want|] == want
  {
    assert want[..|want|] + below[|want|..] == want;
  }

  /** want is below with new entities. */
  ghost predicate Wanted(below: seq<Prenode>, want: seq<Prenode>, to: nat, cnt: nat)
  {
    |want| == |below| && forall i :: 0 <= i < |want| ==> want[i] == below[i].(ntt := if i == 0 then to else cnt + 2 * i)
  }

  lemma WantedAt(t: Option<Tree>, to: nat, cnt: nat, below: seq<Prenode>, want: seq<Prenode>)
    requires below == if t.Some? then Flat(t.value) else []
    requires want == if t.Some? then Flat(Rename(t.value, to, cnt).0) else []
    ensures Wanted(below, want, to, cnt)
    ensures |want| == |below| && (t.Some? ==> Rename(t.value, to, cnt).1 == cnt + 2 * (|below| - 1) && |below| > 0)
  {
    if t.Some? {
      RenameFlat(t.value, to, cnt);
    }
  }

  lemma WantedLength(below: seq<Prenode>, want: seq<Prenode>, to: nat, cnt: nat)
    requires Wanted(below, want, to, cnt)
    ensures |want| == |below|
  {
  }

  lemma WantedIs(below: seq<Prenode>, want: seq<Prenode>, to: nat, cnt: nat, i: nat)
    requires Wanted(below, want, to, cnt) && i < |want|
    ensures |want| == |below| && want[i] == below[i].(ntt := if i == 0 then to else cnt + 2 * i)
  {
  }

  lemma NoReIDs(below: seq<Prenode>, want: seq<Prenode>)
    requires |below| == |want|
    ensures ReIDs(below[..0], want[..0]) == []
  {
  }

  lemma ReIDsStep(below: seq<Prenode>, want: seq<Prenode>, i: nat)
    requires i < |below| == |want|
    ensures ReIDs(below[..i + 1], want[..i + 1])
         == if below[i].ntt != want[i].ntt then ReIDs(below[..i], want[..i]) + [ReID(below[i].ntt, want[i].ntt)] else ReIDs(below[..i], want[..i])
  {
    assert below[..i + 1][..i] == below[..i] && want[..i + 1][..i] == want[..i];
  }

  lemma FoundHere(g: seq<Prenode>, e: nat, i: int)
    requires 0 <= i < |g| && g[i].ntt == e && Nested(g)
    ensures g[i].scp + i > i
  {
  }

  lemma EnclosingStart(g: seq<Prenode>, i: int)
    requires 0 <= i < |g|
    ensures Enclosing(g, i, -1) == [] && Enclosing(g, i, i) == [] + Enclosing(g, i, i)
  {
  }

  lemma EnclosingStep(g: seq<Prenode>, i: int, j: int, chain: seq<Prenode>)
    requires 0 <= j < |g|
    ensures chain + Enclosing(g, i, j) == (if g[j].scp + j > i then chain + [g[j]] else chain) + Enclosing(g, i, j - 1)
  {
  }

  ghost predicate Nearest(chain: seq<Prenode>, intent: nat, h: Option<Prenode>)
  {
    match h
    case None => forall p :: p in chain ==> intent !in p.hdl
    case Some(p) => intent in p.hdl && exists k :: 0 <= k < |chain| && chain[k] == p && forall m :: 0 <= m < k ==> intent !in chain[m].hdl
  }

  lemma StandsIn(g: seq<Prenode>, e: nat, ts: seq<Tree>, i: nat)
    requires g == FlatAll(ts) && e !in IdsOf(g) && (Find(ts, e).Some? ==> StandsAt(g, e, Find(ts, e).value, i))
    ensures Find(ts, e).None?
  {
    assert i < |g| ==> IdsOf(g)[i] == g[i].ntt;
  }

  lemma IndexedOnce(g: seq<Prenode>, sparse: seq<int>, i: int, k: nat)
    requires Indexed(g, sparse) && 0 <= i < |g|
    ensures k < |g| && g[k].ntt == g[i].ntt ==> k == i
  {
  }

  lemma ReuseRenders(o: nat, e: nat, prev: seq<Tree>, cnt: nat)
    ensures var t := Find(prev, o); var p := Render(Reuse(o, e), prev, cnt);
      if t.None? then p == Pass([], cnt, [ReuseNode(o)])
      else
        var r := Rename(t.value, e, cnt);
        |Flat(r.0)| == |Flat(t.value)| && FlatAll(p.forest) == Flat(r.0) && p.cnt == r.1 && p.xas == [ReuseNode(o)] + ReIDs(Flat(t.value), Flat(r.0))
  {
    if Find(prev, o).Some? {
      RenameFlat(Find(prev, o).value, e, cnt);
      FlatOne(Rename(Find(prev, o).value, e, cnt).0);
    }
  }
}
