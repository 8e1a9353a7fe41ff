/** Entity trees and their preorder arrays, as rx-browser/rx (etree.go, render.go) keeps them: a tree
    is the array of its nodes in preorder, each with the size of its subtree. */
module EntityForest {
  import opened Wrappers

  /** Which intents an entity handles. */
  type Handler = set<nat>

  datatype Prenode = Prenode(ntt: nat, scp: int, hdl: Handler)

  datatype Tree = Tree(ntt: nat, hdl: Handler, kids: seq<Tree>)

  function Flat(t: Tree): (r: seq<Prenode>)
    ensures r != []
  {
    var below := FlatAll(t.kids);
    [Prenode(t.ntt, 1 + |below|, t.hdl)] + below
  }

  function FlatAll(ts: seq<Tree>): seq<Prenode>
  {
    if ts == [] then [] else Flat(ts[0]) + FlatAll(ts[1..])
  }

  lemma {:induction false} FlatConcat(a: seq<Tree>, b: seq<Tree>)
    ensures FlatAll(a + b) == FlatAll(a) + FlatAll(b)
  {
    if a == [] {
      assert a + b == b;
    } else {
      hide Flat;
      FlatConcat(a[1..], b);
      assert (a + b)[1..] == a[1..] + b && (a + b)[0] == a[0];
      Assoc(Flat(a[0]), FlatAll(a[1..]), FlatAll(b));
    }
  }

  lemma Assoc<T>(a: seq<T>, b: seq<T>, c: seq<T>)
    ensures (a + b) + c == a + (b + c)
  {
  }

  lemma FlatOne(t: Tree)
    ensures FlatAll([t]) == Flat(t)
  {
    assert [t][1..] == [];
  }

  // ---------------------------------------------------------------- nesting

  /** Every scope is exact and ends inside the array. */
  ghost predicate Nested(g: seq<Prenode>)
  {
    && (forall i :: 0 <= i < |g| ==> 1 <= g[i].scp <= |g| - i)
    && (forall i, j :: 0 <= i < j < |g| && j < i + g[i].scp ==> j + g[j].scp <= i + g[i].scp)
  }

  lemma NestedConcat(a: seq<Prenode>, b: seq<Prenode>)
    requires Nested(a) && Nested(b)
    ensures Nested(a + b)
  {
    var g := a + b;
    forall i | 0 <= i < |g|
      ensures 1 <= g[i].scp <= |g| - i
    {
      assert g[i] == if i < |a| then a[i] else b[i - |a|];
    }
    forall i, j | 0 <= i < j < |g| && j < i + g[i].scp
      ensures j + g[j].scp <= i + g[i].scp
    {
      if j < |a| {
        assert g[i] == a[i] && g[j] == a[j];
      } else if i >= |a| {
        assert g[i] == b[i - |a|] && g[j] == b[j - |a|];
      }
    }
  }

  lemma NestedRoot(p: Prenode, below: seq<Prenode>)
    requires Nested(below) && p.scp == 1 + |below|
    ensures Nested([p] + below)
  {
    var g := [p] + below;
    forall i | 0 <= i < |g|
      ensures 1 <= g[i].scp <= |g| - i
    {
      assert i > 0 ==> g[i] == below[i - 1];
    }
    forall i, j | 0 <= i < j < |g| && j < i + g[i].scp
      ensures j + g[j].scp <= i + g[i].scp
    {
      assert g[j] == below[j - 1];
      assert i > 0 ==> g[i] == below[i - 1];
    }
  }

  /** The array of any trees is a well-nested preorder. */
  lemma {:induction false} FlatNested(ts: seq<Tree>)
    ensures Nested(FlatAll(ts))
    decreases ts
  {
    if ts != [] {
      hide Nested;
      TreeNested(ts[0]);
      FlatNested(ts[1..]);
      NestedConcat(Flat(ts[0]), FlatAll(ts[1..]));
    }
  }

  lemma {:induction false} TreeNested(t: Tree)
    ensures Nested(Flat(t))
    decreases t
  {
    FlatNested(t.kids);
    hide Nested;
    NestedRoot(Prenode(t.ntt, 1 + |FlatAll(t.kids)|, t.hdl), FlatAll(t.kids));
  }

  // ---------------------------------------------------------------- finding a tree

  function Ids(ts: seq<Tree>): seq<nat>
  {
    IdsOf(FlatAll(ts))
  }

  function IdsOf(g: seq<Prenode>): (r: seq<nat>)
    ensures |r| == |g| && forall i :: 0 <= i < |g| ==> r[i] == g[i].ntt
  {
    seq(|g|, i requires 0 <= i < |g| => g[i].ntt)
  }

  ghost predicate Distinct(xs: seq<nat>)
  {
    forall i, j :: 0 <= i < j < |xs| ==> xs[i] != xs[j]
  }

  /** The first tree with this entity at its root, in preorder. */
  function Find(ts: seq<Tree>, e: nat): Option<Tree>
  {
    if ts == [] then None
    else
      var t := FindIn(ts[0], e);
      if t.Some? then t else Find(ts[1..], e)
  }

  function FindIn(t: Tree, e: nat): Option<Tree>
  {
    if t.ntt == e then Some(t) else Find(t.kids, e)
  }

  /** The subtree found stands in the array as one stretch, from the entity on. */
  ghost predicate StandsAt(g: seq<Prenode>, e: nat, t: Tree, i: nat)
  {
    i < |g| && g[i].ntt == e == t.ntt && g[i].scp == |Flat(t)| && i + |Flat(t)| <= |g| && g[i..i + |Flat(t)|] == Flat(t)
  }

  lemma {:induction false} FindStands(ts: seq<Tree>, e: nat) returns (i: nat)
    ensures Find(ts, e).Some? ==> StandsAt(FlatAll(ts), e, Find(ts, e).value, i)
    ensures Find(ts, e).None? ==> e !in Ids(ts)
    decreases ts
  {
    i := 0;
    if ts != [] {
      var h := FindInStands(ts[0], e);
      var k := FindStands(ts[1..], e);
      var a, b := Flat(ts[0]), FlatAll(ts[1..]);
      if FindIn(ts[0], e).Some? {
        i := h;
        StandsFirst(a, b, e, FindIn(ts[0], e).value, h);
      } else {
        i := |a| + k;
        if Find(ts[1..], e).Some? {
          StandsSecond(a, b, e, Find(ts[1..], e).value, k);
        } else {
          NotIn(a, b, e);
        }
      }
    }
  }

  lemma NotIn(a: seq<Prenode>, b: seq<Prenode>, e: nat)
    requires e !in IdsOf(a) && e !in IdsOf(b)
    ensures e !in IdsOf(a + b)
  {
    forall i | 0 <= i < |a + b|
      ensures IdsOf(a + b)[i] != e
    {
      assert if i < |a| then IdsOf(a + b)[i] == IdsOf(a)[i] else IdsOf(a + b)[i] == IdsOf(b)[i - |a|];
    }
  }

  lemma {:induction false} FindInStands(t: Tree, e: nat) returns (i: nat)
    ensures FindIn(t, e).Some? ==> StandsAt(Flat(t), e, FindIn(t, e).value, i)
    ensures FindIn(t, e).None? ==> e !in IdsOf(Flat(t))
    decreases t
  {
    if t.ntt == e {
      i := 0;
      assert Flat(t)[0..0 + |Flat(t)|] == Flat(t);
    } else {
      var k := FindStands(t.kids, e);
      i := k + 1;
      var below := FlatAll(t.kids);
      var root := [Prenode(t.ntt, 1 + |below|, t.hdl)];
      if Find(t.kids, e).Some? {
        StandsSecond(root, below, e, Find(t.kids, e).value, k);
      } else {
        assert IdsOf(root) == [t.ntt];
        NotIn(root, below, e);
      }
    }
  }

  lemma StandsFirst(a: seq<Prenode>, b: seq<Prenode>, e: nat, t: Tree, i: nat)
    requires StandsAt(a, e, t, i)
    ensures StandsAt(a + b, e, t, i)
  {
    assert (a + b)[i..i + |Flat(t)|] == a[i..i + |Flat(t)|];
  }

  lemma StandsSecond(a: seq<Prenode>, b: seq<Prenode>, e: nat, t: Tree, k: nat)
    requires StandsAt(b, e, t, k)
    ensures StandsAt(a + b, e, t, |a| + k)
  {
    var i := |a| + k;
    assert (a + b)[i..i + |Flat(t)|] == b[k..k + |Flat(t)|];
  }

  // ---------------------------------------------------------------- enclosing entities

  function Top(t: Tree): Prenode { Flat(t)[0] }

  /** The entities around e, innermost first, starting with e. */
  function Chain(ts: seq<Tree>, e: nat): seq<Prenode>
  {
    if ts == [] then []
    else
      var c := ChainIn(ts[0], e);
      if c != [] then c else Chain(ts[1..], e)
  }

  function ChainIn(t: Tree, e: nat): seq<Prenode>
  {
    if t.ntt == e then [Top(t)]
    else
      var c := Chain(t.kids, e);
      if c != [] then c + [Top(t)] else []
  }

  /** The entities at or before j whose scope reaches past i, the nearest first. */
  function Enclosing(g: seq<Prenode>, i: int, j: int): seq<Prenode>
    requires j < |g|
    decreases j + 1
  {
    if j < 0 then [] else (if g[j].scp + j > i then [g[j]] else []) + Enclosing(g, i, j - 1)
  }

  lemma {:induction false} EnclosingFirst(a: seq<Prenode>, b: seq<Prenode>, i: int, j: int)
    requires j < |a|
    ensures Enclosing(a + b, i, j) == Enclosing(a, i, j)
    decreases j + 1
  {
    if j >= 0 {
      EnclosingFirst(a, b, i, j - 1);
    }
  }

  lemma {:induction false} EnclosingNone(a: seq<Prenode>, i: int, j: int)
    requires j < |a| <= i && Nested(a)
    ensures Enclosing(a, i, j) == []
    decreases j + 1
  {
    if j >= 0 {
      EnclosingNone(a, i, j - 1);
    }
  }

  /** Closed trees before an index do not enclose it. */
  lemma {:induction false} EnclosingSecond(a: seq<Prenode>, b: seq<Prenode>, i: int, j: int)
    requires -1 <= j < |b| && j <= i && 0 <= i && Nested(a)
    ensures Enclosing(a + b, |a| + i, |a| + j) == Enclosing(b, i, j)
    decreases j + 1
  {
    hide Nested;
    if j >= 0 {
      EnclosingSecond(a, b, i, j - 1);
      assert (a + b)[|a| + j] == b[j];
    } else {
      EnclosingFirst(a, b, |a| + i, |a| - 1);
      EnclosingNone(a, |a| + i, |a| - 1);
    }
  }

  lemma {:induction false} EnclosingRoot(p: Prenode, below: seq<Prenode>, i: int, j: int)
    requires -1 <= j < |below| && j <= i < |below| && p.scp == 1 + |below|
    ensures Enclosing([p] + below, 1 + i, 1 + j) == Enclosing(below, i, j) + [p]
    decreases j + 1
  {
    var g := [p] + below;
    if j >= 0 {
      EnclosingRoot(p, below, i, j - 1);
      assert g[1 + j] == below[j];
      Assoc(if below[j].scp + j > i then [below[j]] else [], Enclosing(below, i, j - 1), [p]);
    } else {
      assert g[0] == p;
      assert Enclosing(g, 1 + i, -1) == [];
    }
  }

  /** Going back over the array from an entity gives the entities around it, innermost first. */
  lemma {:induction false} EnclosingIsChain(ts: seq<Tree>, e: nat, i: nat)
    requires Distinct(Ids(ts)) && i < |FlatAll(ts)| && FlatAll(ts)[i].ntt == e
    ensures Enclosing(FlatAll(ts), i, i) == Chain(ts, e) != []
    decreases ts
  {
    var a, b := Flat(ts[0]), FlatAll(ts[1..]);
    DistinctConcat(a, b);
    hide Distinct;
    TreeNested(ts[0]);
    if i < |a| {
      EnclosingIsChainIn(ts[0], e, i);
      EnclosingFirst(a, b, i, i);
    } else {
      assert b[i - |a|].ntt == e;
      NoChain(ts[0], e);
      EnclosingIsChain(ts[1..], e, i - |a|);
      EnclosingSecond(a, b, i - |a|, i - |a|);
    }
  }

  lemma {:induction false} EnclosingIsChainIn(t: Tree, e: nat, i: nat)
    requires Distinct(IdsOf(Flat(t))) && i < |Flat(t)| && Flat(t)[i].ntt == e
    ensures Enclosing(Flat(t), i, i) == ChainIn(t, e) != []
    decreases t
  {
    var below := FlatAll(t.kids);
    var p := Prenode(t.ntt, 1 + |below|, t.hdl);
    DistinctConcat([p], below);
    hide Distinct;
    if i == 0 {
      assert Enclosing(Flat(t), 0, -1) == [];
    } else {
      assert below[i - 1].ntt == e;
      EnclosingIsChain(t.kids, e, i - 1);
      EnclosingRoot(p, below, i - 1, i - 1);
      assert IdsOf([p])[0] == t.ntt;
    }
  }

  /** Entities of two parts of a distinct array are distinct, and apart. */
  lemma DistinctConcat(a: seq<Prenode>, b: seq<Prenode>)
    requires Distinct(IdsOf(a + b))
    ensures Distinct(IdsOf(a)) && Distinct(IdsOf(b))
    ensures forall i, j :: 0 <= i < |a| && 0 <= j < |b| ==> a[i].ntt != b[j].ntt
    ensures forall j :: 0 <= j < |b| ==> b[j].ntt !in IdsOf(a)
  {
    var g := IdsOf(a + b);
    forall i, j | 0 <= i < |a| && 0 <= j < |b|
      ensures a[i].ntt != b[j].ntt
    {
      assert g[i] == a[i].ntt && g[|a| + j] == b[j].ntt;
    }
    forall i, j | 0 <= i < j < |a|
      ensures IdsOf(a)[i] != IdsOf(a)[j]
    {
      assert g[i] != g[j];
    }
    forall i, j | 0 <= i < j < |b|
      ensures IdsOf(b)[i] != IdsOf(b)[j]
    {
      assert g[|a| + i] != g[|a| + j];
    }
  }

  lemma {:induction false} NoChain(t: Tree, e: nat)
    requires e !in IdsOf(Flat(t))
    ensures ChainIn(t, e) == []
    decreases t
  {
    assert IdsOf(Flat(t))[0] == t.ntt;
    forall i | 0 <= i < |FlatAll(t.kids)|
      ensures FlatAll(t.kids)[i].ntt != e
    {
      assert IdsOf(Flat(t))[i + 1] == FlatAll(t.kids)[i].ntt;
    }
    NoChainAll(t.kids, e);
  }

  lemma {:induction false} NoChainAll(ts: seq<Tree>, e: nat)
    requires forall i :: 0 <= i < |FlatAll(ts)| ==> FlatAll(ts)[i].ntt != e
    ensures Chain(ts, e) == []
    decreases ts
  {
    if ts != [] {
      var a, b := Flat(ts[0]), FlatAll(ts[1..]);
      forall i | 0 <= i < |a|
        ensures IdsOf(a)[i] != e
      {
        assert FlatAll(ts)[i] == a[i];
      }
      forall i | 0 <= i < |b|
        ensures b[i].ntt != e
      {
        assert FlatAll(ts)[|a| + i] == b[i];
      }
      NoChain(ts[0], e);
      NoChainAll(ts[1..], e);
    }
  }
}
