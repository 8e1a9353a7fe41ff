/** The matching machine of internal/mdt/backtrack.go on the programs of line patterns: threads,
    captures and the record that a match returns.  Lines are ASCII. */
module PatternMachine {
  import opened PatternSplit

  // ---------------------------------------------------------------- captures

  const EndMark := 128

  /** ref is a byte and rp a 16-bit number. */
  datatype Capture = Capture(ref: nat, rp: nat)

  function Seen(refs: seq<string>, c: Capture): Event
    requires c.ref == EndMark || c.ref < |refs|
  {
    if c.ref == EndMark then Ended(c.rp) else Started(refs[c.ref], c.rp)
  }

  ghost predicate CapsOk(refs: seq<string>, caps: seq<Capture>)
  {
    |refs| <= EndMark && forall i :: 0 <= i < |caps| ==> caps[i].ref == EndMark || caps[i].ref < |refs|
  }

  ghost function View(refs: seq<string>, caps: seq<Capture>): (r: seq<Event>)
    requires CapsOk(refs, caps)
    ensures |r| == |caps|
  {
    seq(|caps|, i requires 0 <= i < |caps| => Seen(refs, caps[i]))
  }

  lemma ViewGrows(refs: seq<string>, refs': seq<string>, caps: seq<Capture>, c: Capture)
    requires CapsOk(refs, caps) && CapsOk(refs', caps + [c]) && refs <= refs' && (c.ref == EndMark || c.ref < |refs'|)
    ensures View(refs', caps + [c]) == View(refs, caps) + [Seen(refs', c)]
  {
    forall i | 0 <= i < |caps|
      ensures View(refs', caps + [c])[i] == View(refs, caps)[i]
    {
      assert (caps + [c])[i] == caps[i];
    }
  }

  class Captures {
    var refs: seq<string>
    var caps: seq<Capture>

    constructor ()
      ensures refs == [] && caps == []
    {
      refs, caps := [], [];
    }

    method Rewind(to: nat)
      requires to <= |caps|
      modifies this`caps
      ensures caps == old(caps)[..to]
    {
      caps := caps[..to];
    }

    method StartCap(name: string, rp: nat)
      requires CapsOk(refs, caps) && (name in refs || |refs| < EndMark) && rp <= 0xFFFF
      modifies this
      ensures CapsOk(refs, caps) && old(refs) <= refs && |refs| <= |old(refs)| + 1 && name in refs
      ensures View(refs, caps) == old(View(refs, caps)) + [Started(name, rp)]
    {
      var ref := -1;
      for r := 0 to |refs|
        invariant -1 <= ref < |refs| && (ref >= 0 ==> refs[ref] == name)
        invariant ref == -1 ==> name !in refs[..r]
      {
        if refs[r] == name {
          ref := r;
        }
      }
      ghost var before := refs;
      if ref == -1 {
        refs := refs + [name];
        ref := |refs| - 1;
      }
      ViewGrows(before, refs, caps, Capture(ref % 256, rp % 0x1_0000));
      caps := caps + [Capture(ref % 256, rp % 0x1_0000)];
    }

    method EndCap(rp: nat)
      requires CapsOk(refs, caps) && rp <= 0xFFFF
      modifies this`caps
      ensures CapsOk(refs, caps)
      ensures View(refs, caps) == old(View(refs, caps)) + [Ended(rp)]
    {
      ViewGrows(refs, refs, caps, Capture(EndMark, rp % 0x1_0000));
      caps := caps + [Capture(EndMark, rp % 0x1_0000)];
    }
  }

  // ---------------------------------------------------------------- the record of a match

  datatype Span = Span(name: string, lo: nat, hi: nat)

  /** A node of the capture tree; parent, next and chil are places in the array of nodes, or -1. */
  datatype Node = Node(name: string, lo: nat, hi: nat, parent: int, next: int, chil: int)

  const BlankNode: Node := Node("", 0, 0, -1, -1, -1)

  /** Captures one after the other. */
  ghost predicate Paired(es: seq<Event>)
  {
    es == [] || (|es| >= 2 && es[0].Started? && es[1].Ended? && Paired(es[2..]))
  }

  ghost function Spans(es: seq<Event>): (r: seq<Span>)
    requires Paired(es)
    ensures |es| == 2 * |r|
  {
    if es == [] then [] else [Span(es[0].name, es[0].pos, es[1].pos)] + Spans(es[2..])
  }

  lemma {:induction false} SpansAt(es: seq<Event>, i: nat)
    requires Paired(es) && 2 * i < |es|
    ensures 2 * i + 1 < |es| && es[2 * i].Started? && es[2 * i + 1].Ended?
    ensures Spans(es)[i] == Span(es[2 * i].name, es[2 * i].pos, es[2 * i + 1].pos)
  {
    if i > 0 {
      SpansAt(es[2..], i - 1);
      var k := 2 * (i - 1);
      assert es[2..][k] == es[2 * i] && es[2..][k + 1] == es[2 * i + 1];
    }
  }

  function Nth(kids: seq<int>, i: nat): int { if i < |kids| then kids[i] else -1 }

  function SpanNode(s: Span, next: int): Node { Node(s.name, s.lo, s.hi, 0, next, -1) }

  /** The nodes hold a root, whose children are the spans, in order. */
  ghost predicate Tree(ns: seq<Node>, root: Node, kids: seq<int>, spans: seq<Span>)
  {
    && |kids| == |spans| && |ns| > 0
    && ns[0] == root.(parent := -1, next := -1, chil := Nth(kids, 0))
    && Nodes(ns, kids, spans) && Rising(kids)
  }

  ghost predicate Nodes(ns: seq<Node>, kids: seq<int>, spans: seq<Span>)
    requires |kids| == |spans|
  {
    forall i :: 0 <= i < |kids| ==> 0 < kids[i] < |ns| && ns[kids[i]] == SpanNode(spans[i], Nth(kids, i + 1))
  }

  ghost predicate Rising(kids: seq<int>)
  {
    forall i, j :: 0 <= i < j < |kids| ==> kids[i] < kids[j]
  }

  lemma TreeAt(ns: seq<Node>, root: Node, kids: seq<int>, spans: seq<Span>, k: nat)
    requires Tree(ns, root, kids, spans)
    ensures |kids| == |spans| && |ns| > 0 && ns[0] == root.(parent := -1, next := -1, chil := Nth(kids, 0))
    ensures k < |kids| ==> 0 < kids[k] < |ns| && ns[kids[k]] == SpanNode(spans[k], Nth(kids, k + 1))
  {
  }

  /** capnd.add, to no node or to a root whose children have no children. */
  method Add(nds: array<Node>, c: int, d: int, ghost root: Node, ghost kids: seq<int>, ghost spans: seq<Span>) returns (r: int)
    requires 0 <= d < nds.Length && nds[d] == BlankNode.(name := nds[d].name)
    requires c != -1 ==> c == 0 < d && Tree(nds[..], root, kids, spans) && Below(kids, d)
    modifies nds
    ensures r == d
    ensures c == -1 ==> nds[..] == old(nds[..])
    ensures c != -1 ==> Tree(nds[..], root, kids + [d], spans + [Span(old(nds[d].name), 0, 0)])
    ensures forall i :: d < i < nds.Length ==> nds[i] == old(nds[i])
  {
    hide Tree;
    if c == -1 {
      return d;
    }
    ghost var ns := nds[..];
    TreeAt(ns, root, kids, spans, 0);
    if nds[c].chil != -1 {
      var p := nds[c].chil;
      ghost var k := 0;
      while nds[p].next != -1
        invariant 0 <= k < |kids| && p == kids[k] && 0 < p < nds.Length && nds[..] == ns
        decreases |kids| - k
      {
        TreeAt(ns, root, kids, spans, k);
        p := nds[p].next;
        k := k + 1;
        TreeAt(ns, root, kids, spans, k);
      }
      TreeAt(ns, root, kids, spans, k);
      TreeAt(ns, root, kids, spans, k + 1);
      nds[d] := nds[d].(parent := c);
      nds[p] := nds[p].(next := d);
      assert nds[..] == Added(ns, p, false, d);
    } else {
      nds[d] := nds[d].(parent := c);
      nds[c] := nds[c].(chil := d);
      assert nds[..] == Added(ns, 0, true, d);
    }
    TreeAdds(ns, nds[..], root, kids, spans, d);
    r := d;
  }

  ghost predicate Below(kids: seq<int>, d: int)
  {
    forall i :: 0 <= i < |kids| ==> kids[i] < d
  }

  lemma TreeAdds(ns: seq<Node>, ns': seq<Node>, root: Node, kids: seq<int>, spans: seq<Span>, d: int)
    requires Tree(ns, root, kids, spans) && 0 < d < |ns| && ns[d] == BlankNode.(name := ns[d].name) && Below(kids, d)
    requires ns' == Added(ns, if kids == [] then 0 else kids[|kids| - 1], kids == [], d)
    ensures Tree(ns', root, kids + [d], spans + [Span(ns[d].name, 0, 0)])
  {
    var kids', spans' := kids + [d], spans + [Span(ns[d].name, 0, 0)];
    if kids != [] {
      TreeAt(ns, root, kids, spans, |kids| - 1);
    }
    assert ns'[0] == root.(parent := -1, next := -1, chil := Nth(kids', 0));
    assert Rising(kids');
    hide Nth, Rising, Added, Below;
    forall i | 0 <= i < |kids'|
      ensures 0 < kids'[i] < |ns'| && ns'[kids'[i]] == SpanNode(spans'[i], Nth(kids', i + 1))
    {
      AddedAt(ns, root, kids, spans, d, i);
    }
  }

  /** The memory once node d hangs behind node p, or below it. */
  function Added(ns: seq<Node>, p: int, below: bool, d: int): seq<Node>
  {
    if 0 <= p < |ns| && 0 <= d < |ns| then
      var ns1 := ns[d := ns[d].(parent := 0)];
      ns1[p := if below then ns1[p].(chil := d) else ns1[p].(next := d)]
    else ns
  }

  lemma AddedAt(ns: seq<Node>, root: Node, kids: seq<int>, spans: seq<Span>, d: int, i: nat)
    requires Tree(ns, root, kids, spans) && 0 < d < |ns| && ns[d] == BlankNode.(name := ns[d].name) && Below(kids, d)
    requires i <= |kids|
    ensures |kids| == |spans|
    ensures var ns' := Added(ns, if kids == [] then 0 else kids[|kids| - 1], kids == [], d);
      var kids', spans' := kids + [d], spans + [Span(ns[d].name, 0, 0)];
      0 < kids'[i] < |ns'| && ns'[kids'[i]] == SpanNode(spans'[i], Nth(kids', i + 1))
  {
    hide Tree;
    TreeAt(ns, root, kids, spans, i);
    if kids != [] {
      TreeAt(ns, root, kids, spans, |kids| - 1);
      if i < |kids| {
        TreeSorted(ns, root, kids, spans, i, |kids| - 1);
        assert i + 1 < |kids| ==> (kids + [d])[i + 1] == kids[i + 1];
      }
    }
  }

  /** Writing the bounds of the last child, or of the root. */
  lemma TreeSets(ns: seq<Node>, root: Node, kids: seq<int>, spans: seq<Span>, s: Span)
    requires Tree(ns, root, kids, spans) && spans != []
    ensures |kids| == |spans| && 0 < kids[|kids| - 1] < |ns|
    ensures var k := |kids| - 1;
      Tree(ns[kids[k] := ns[kids[k]].(name := s.name, lo := s.lo, hi := s.hi)], root, kids, spans[..k] + [s])
  {
    var last := |kids| - 1;
    var ns' := ns[kids[last] := ns[kids[last]].(name := s.name, lo := s.lo, hi := s.hi)];
    forall i | 0 <= i < |kids|
      ensures 0 < kids[i] < |ns'| && ns'[kids[i]] == SpanNode((spans[..last] + [s])[i], Nth(kids, i + 1))
    {
      assert i < last ==> kids[i] < kids[last];
    }
  }

  lemma RootSets(ns: seq<Node>, root: Node, root': Node, kids: seq<int>, spans: seq<Span>)
    requires Tree(ns, root, kids, spans)
    ensures |ns| > 0 && Tree(ns[0 := root'.(parent := -1, next := -1, chil := ns[0].chil)], root', kids, spans)
  {
  }

  // ---------------------------------------------------------------- dropping empty captures

  predicate Empty(s: Span) { s.lo == s.hi }

  /** What capnd.clean leaves of the siblings behind a node. */
  function CleanRest(ss: seq<Span>): seq<Span>
  {
    if ss == [] then []
    else if !Empty(ss[0]) then [ss[0]] + CleanRest(ss[1..])
    else if |ss| == 1 then []
    else [ss[1]] + CleanRest(ss[2..])
  }

  function Cleaned(ss: seq<Span>): seq<Span>
  {
    if ss == [] || Empty(ss[0]) then [] else [ss[0]] + CleanRest(ss[1..])
  }

  function NotEmpty(ss: seq<Span>): seq<Span>
  {
    if ss == [] then [] else (if Empty(ss[0]) then [] else [ss[0]]) + NotEmpty(ss[1..])
  }

  ghost predicate AllEmpty(ss: seq<Span>)
  {
    forall i :: 0 <= i < |ss| ==> Empty(ss[i])
  }

  ghost predicate EmptyApart(ss: seq<Span>)
  {
    forall i, j :: 0 <= i && j == i + 1 && j < |ss| ==> !(Empty(ss[i]) && Empty(ss[j]))
  }

  lemma {:induction false} NotEmptyNone(ss: seq<Span>)
    ensures NotEmpty(ss) == [] <==> AllEmpty(ss)
    ensures forall i :: 0 <= i < |NotEmpty(ss)| ==> !Empty(NotEmpty(ss)[i])
  {
    if ss != [] {
      NotEmptyNone(ss[1..]);
      assert forall i :: 0 < i < |ss| ==> ss[i] == ss[1..][i - 1];
    }
  }

  lemma {:induction false} CleanRestExact(ss: seq<Span>)
    ensures CleanRest(ss) == NotEmpty(ss) <==> EmptyApart(ss)
  {
    if ss != [] {
      var tail := ss[1..];
      CleanRestExact(tail);
      assert tail != [] ==> tail[0] == ss[1];
      assert EmptyApart(ss) <==> EmptyApart(tail) && (|ss| > 1 ==> !(Empty(ss[0]) && Empty(ss[1]))) by {
        ApartCons(ss);
      }
      if Empty(ss[0]) && |ss| > 1 {
        assert tail[1..] == ss[2..];
        NotEmptyNone(ss);
        if Empty(ss[1]) {
          assert CleanRest(ss)[0] == ss[1];
        } else {
          SameHead(ss[1], CleanRest(ss[2..]), NotEmpty(ss[2..]));
        }
      } else if !Empty(ss[0]) {
        SameHead(ss[0], CleanRest(tail), NotEmpty(tail));
      }
    }
  }

  lemma SameHead(s: Span, a: seq<Span>, b: seq<Span>)
    ensures [s] + a == [s] + b <==> a == b
  {
    assert ([s] + a)[1..] == a && ([s] + b)[1..] == b;
  }

  lemma ApartCons(ss: seq<Span>)
    requires ss != []
    ensures EmptyApart(ss) <==> EmptyApart(ss[1..]) && (|ss| > 1 ==> !(Empty(ss[0]) && Empty(ss[1])))
  {
    var tail := ss[1..];
    if EmptyApart(tail) && (|ss| > 1 ==> !(Empty(ss[0]) && Empty(ss[1]))) {
      forall i, j | 0 <= i && j == i + 1 && j < |ss|
        ensures !(Empty(ss[i]) && Empty(ss[j]))
      {
        if i > 0 {
          var h, k := i - 1, j - 1;
          assert tail[h] == ss[i] && tail[k] == ss[j];
        }
      }
    }
    if EmptyApart(ss) {
      forall i, j | 0 <= i && j == i + 1 && j < |tail|
        ensures !(Empty(tail[i]) && Empty(tail[j]))
      {
        var h, k := i + 1, j + 1;
        assert tail[i] == ss[h] && tail[j] == ss[k];
      }
    }
  }

  /** Cleaning keeps exactly the captures that are not empty, if and only if all of them are empty,
      or the first one is not and no two empty ones are neighbours. */
  lemma CleanExact(ss: seq<Span>)
    ensures Cleaned(ss) == NotEmpty(ss) <==> AllEmpty(ss) || (!Empty(ss[0]) && EmptyApart(ss))
  {
    NotEmptyNone(ss);
    hide AllEmpty, EmptyApart, CleanRest;
    if ss == [] {
      NoneEmpty();
    } else if !Empty(ss[0]) {
      var tail := ss[1..];
      CleanRestExact(tail);
      ApartCons(ss);
      SameHead(ss[0], CleanRest(tail), NotEmpty(tail));
      FirstNotEmpty(ss);
    }
  }

  /** A first span that is empty takes the next one along. */
  lemma EmptySpanFirst()
    ensures var ss := [Span("a", 0, 0), Span("b", 1, 2)]; Cleaned(ss) == [] && NotEmpty(ss) == [Span("b", 1, 2)]
  {
    var ss := [Span("a", 0, 0), Span("b", 1, 2)];
    assert ss[1..] == [Span("b", 1, 2)] && ss[1..][1..] == [];
    assert NotEmpty([]) == [] && NotEmpty(ss[1..]) == [Span("b", 1, 2)];
  }

  lemma NoneEmpty()
    ensures AllEmpty([])
  {
  }

  lemma FirstNotEmpty(ss: seq<Span>)
    requires ss != [] && !Empty(ss[0])
    ensures !AllEmpty(ss)
  {
  }

  function Without<T>(xs: seq<T>, h: nat): (r: seq<T>)
    requires h < |xs|
    ensures |r| == |xs| - 1
    ensures forall i :: 0 <= i < |r| ==> r[i] == xs[Skip(i, h)]
  {
    xs[..h] + xs[h + 1..]
  }

  function Skip(i: int, h: nat): int { if i < h then i else i + 1 }

  lemma RemovedAt(ns: seq<Node>, root: Node, kids: seq<int>, spans: seq<Span>, h: nat, i: nat)
    requires Tree(ns, root, kids, spans) && 0 < h < |kids| && i + 1 < |kids|
    ensures 0 < kids[h - 1] < |ns| && 0 < kids[h] < |ns|
    ensures var p, q, j := kids[h - 1], kids[h], Skip(i, h);
      var ns' := ns[p := ns[p].(next := ns[q].next)];
      0 < kids[j] < |ns'| && ns'[kids[j]] == SpanNode(spans[j], Nth(Without(kids, h), i + 1))
  {
    hide Tree;
    var p, j := h - 1, Skip(i, h);
    TreeAt(ns, root, kids, spans, p);
    TreeAt(ns, root, kids, spans, h);
    TreeAt(ns, root, kids, spans, j);
    TreeSorted(ns, root, kids, spans, p, j);
    TreeSorted(ns, root, kids, spans, j, p);
  }

  lemma TreeSorted(ns: seq<Node>, root: Node, kids: seq<int>, spans: seq<Span>, i: nat, j: nat)
    requires Tree(ns, root, kids, spans) && i < |kids| && j < |kids|
    ensures i < j ==> kids[i] < kids[j]
  {
  }

  lemma TreeRemoves(ns: seq<Node>, root: Node, kids: seq<int>, spans: seq<Span>, h: nat)
    requires Tree(ns, root, kids, spans) && 0 < h < |kids|
    ensures |kids| == |spans| && 0 < kids[h - 1] < |ns| && 0 < kids[h] < |ns|
    ensures var p, q := kids[h - 1], kids[h];
      Tree(ns[p := ns[p].(next := ns[q].next)], root, Without(kids, h), Without(spans, h))
  {
    TreeAt(ns, root, kids, spans, h - 1);
    TreeAt(ns, root, kids, spans, h);
    var kids' := Without(kids, h);
    assert Nth(kids', 0) == Nth(kids, 0);
    RemovedNodes(ns, root, kids, spans, h);
    RemovedRising(kids, h);
    hide Nth, Nodes, Rising;
  }

  lemma RemovedNodes(ns: seq<Node>, root: Node, kids: seq<int>, spans: seq<Span>, h: nat)
    requires Tree(ns, root, kids, spans) && 0 < h < |kids|
    ensures 0 < kids[h - 1] < |ns| && 0 < kids[h] < |ns|
    ensures var p, q := kids[h - 1], kids[h];
      Nodes(ns[p := ns[p].(next := ns[q].next)], Without(kids, h), Without(spans, h))
  {
    hide Tree, Nth;
    TreeAt(ns, root, kids, spans, h - 1);
    TreeAt(ns, root, kids, spans, h);
    var p, q := kids[h - 1], kids[h];
    var ns' := ns[p := ns[p].(next := ns[q].next)];
    var kids', spans' := Without(kids, h), Without(spans, h);
    forall i | 0 <= i < |kids'|
      ensures 0 < kids'[i] < |ns'| && ns'[kids'[i]] == SpanNode(spans'[i], Nth(kids', i + 1))
    {
      RemovedAt(ns, root, kids, spans, h, i);
    }
  }

  lemma RemovedRising(kids: seq<int>, h: nat)
    requires Rising(kids) && h < |kids|
    ensures Rising(Without(kids, h))
  {
  }

  /** The first half of a step of capnd.clean: an empty node behind p is unlinked. */
  method DropNext(nds: array<Node>, p: int, ghost root: Node, ghost kids0: seq<int>, ghost spans0: seq<Span>, ghost k: nat)
    returns (ghost kids: seq<int>, ghost spans: seq<Span>)
    requires Tree(nds[..], root, kids0, spans0) && (p == 0 || (k < |kids0| && p == kids0[k]))
    modifies nds
    ensures Tree(nds[..], root, kids, spans)
    ensures var drop := p != 0 && k + 1 < |spans0| && Empty(spans0[k + 1]);
      spans == (if drop then Without(spans0, k + 1) else spans0) && (if drop then |kids0| == |spans0| && kids == Without(kids0, k + 1) else kids == kids0)
  {
    hide Tree, Without;
    kids, spans := kids0, spans0;
    TreeAt(nds[..], root, kids, spans, 0);
    TreeAt(nds[..], root, kids, spans, k);
    TreeAt(nds[..], root, kids, spans, k + 1);
    ghost var ns := nds[..];
    if nds[p].next != -1 && nds[nds[p].next].hi == nds[nds[p].next].lo {
      TreeRemoves(ns, root, kids, spans, k + 1);
      nds[p] := nds[p].(next := nds[nds[p].next].next);
      assert nds[..] == ns[p := ns[p].(next := ns[kids[k + 1]].next)];
      kids, spans := Without(kids, k + 1), Without(spans, k + 1);
    }
  }

  /** capnd.clean, called with the root and then with its first child. */
  method Clean(nds: array<Node>, c: int, ghost root: Node, ghost kids0: seq<int>, ghost spans0: seq<Span>) returns (ghost kids: seq<int>)
    requires Tree(nds[..], root, kids0, spans0)
    requires c == 0 || (kids0 != [] && c == kids0[0] && !Empty(spans0[0]))
    modifies nds
    ensures Tree(nds[..], root, kids, Cleaned(spans0))
    decreases if c == 0 then 1 else 0
  {
    hide Tree, CleanRest, Cleaned, Without, CleanedTo;
    kids := kids0;
    ghost var spans, k := spans0, 0;
    var p := c;
    TreeAt(nds[..], root, kids, spans, 0);
    CleanFirst(spans0);
    while p != -1
      invariant Tree(nds[..], root, kids, spans)
      invariant c == 0 ==> (p == 0 && kids == kids0 && spans == spans0) || (p == -1 && spans == Cleaned(spans0))
      invariant c != 0 ==> k <= |kids| && p == Nth(kids, k) && CleanedTo(spans, k, spans0)
      decreases if c == 0 then (if p == 0 then 1 else 0) else |kids| - k
    {
      TreeAt(nds[..], root, kids, spans, k);
      ghost var before := spans;
      kids, spans := DropNext(nds, p, root, kids, spans, k);
      TreeAt(nds[..], root, kids, spans, 0);
      TreeAt(nds[..], root, kids, spans, k);
      if nds[p].chil != -1 {
        if nds[nds[p].chil].lo == nds[nds[p].chil].hi {
          nds[p] := nds[p].(chil := -1);
          NoChildren(nds[..], root, kids, spans);
          kids := [];
          return;
        }
        kids := Clean(nds, nds[p].chil, root, kids, spans);
        spans := Cleaned(spans);
        TreeAt(nds[..], root, kids, spans, 0);
      }
      if c != 0 {
        CleanStep(before, k, spans0);
      }
      p := nds[p].next;
      k := k + 1;
    }
    TreeAt(nds[..], root, kids, spans, k);
    if c != 0 {
      CleanedAll(spans, k, spans0);
    }
  }

  /** The spans are cleaned up to k, and no further. */
  ghost predicate CleanedTo(spans: seq<Span>, k: nat, spans0: seq<Span>)
  {
    Cleaned(spans0) == if k < |spans| then spans[..k + 1] + CleanRest(spans[k + 1..]) else spans
  }

  lemma CleanFirst(spans: seq<Span>)
    ensures spans == [] || Empty(spans[0]) ==> Cleaned(spans) == []
    ensures spans != [] && !Empty(spans[0]) ==> CleanedTo(spans, 0, spans)
  {
  }

  lemma CleanedAll(spans: seq<Span>, k: nat, spans0: seq<Span>)
    requires CleanedTo(spans, k, spans0) && k >= |spans|
    ensures spans == Cleaned(spans0)
  {
  }

  lemma CleanStep(spans: seq<Span>, k: nat, spans0: seq<Span>)
    requires k < |spans| && CleanedTo(spans, k, spans0)
    ensures CleanedTo(if k + 1 < |spans| && Empty(spans[k + 1]) then Without(spans, k + 1) else spans, k + 1, spans0)
  {
    hide Cleaned;
    var h := k + 1;
    var tail := spans[h..];
    if h == |spans| {
      assert spans[..h] + CleanRest(tail) == spans;
    } else if Empty(spans[h]) {
      CleanDrop(spans, h);
    } else {
      assert CleanRest(tail) == [spans[h]] + CleanRest(tail[1..]) && tail[1..] == spans[h + 1..];
      assert spans[..h + 1] == spans[..h] + [spans[h]];
    }
  }

  lemma CleanDrop(spans: seq<Span>, h: nat)
    requires h < |spans| && Empty(spans[h])
    ensures var spans' := Without(spans, h);
      spans[..h] + CleanRest(spans[h..]) == if h < |spans'| then spans'[..h + 1] + CleanRest(spans'[h + 1..]) else spans'
  {
    var tail, spans' := spans[h..], Without(spans, h);
    if h < |spans'| {
      assert CleanRest(tail) == [tail[1]] + CleanRest(tail[2..]);
      assert tail[1] == spans'[h] && tail[2..] == spans'[h + 1..];
      assert spans'[..h + 1] == spans[..h] + [tail[1]];
    } else {
      assert |tail| == 1;
    }
  }

  lemma NoChildren(ns: seq<Node>, root: Node, kids: seq<int>, spans: seq<Span>)
    requires |ns| > 0 && ns[0] == root.(parent := -1, next := -1, chil := -1)
    ensures Tree(ns, root, [], [])
  {
  }

  // ---------------------------------------------------------------- captures.record

  const Root: Node := Node("root", 0, 0, -1, -1, -1)

  ghost predicate AllBlank(ns: seq<Node>, i: nat)
  {
    forall j :: i <= j < |ns| ==> ns[j] == BlankNode
  }

  /** What the children hold: k whole captures, and the start of one more if it is open. */
  ghost function SoFar(spans: seq<Span>, k: nat, open: bool): seq<Span>
    requires k <= |spans| && (open ==> k < |spans|)
  {
    spans[..k] + if open then [spans[k].(hi := 0)] else []
  }

  /** The nodes after i captures were added. */
  ghost predicate Recorded(ns: seq<Node>, spans: seq<Span>, i: nat, k: nat, open: bool, p: int, kids: seq<int>)
  {
    && i <= |ns| && AllBlank(ns, i) && Below(kids, i)
    && if i == 0 then p == -1 && kids == [] && k == 0 && !open
       else
         && i == 1 + 2 * k + (if open then 1 else 0) && k <= |spans| && (open ==> k < |spans| && kids != [])
         && p == (if open then kids[|kids| - 1] else 0)
         && Tree(ns, Root, kids, SoFar(spans, k, open))
  }

  lemma RecordRoot(ns: seq<Node>, spans: seq<Span>)
    requires Recorded(ns, spans, 0, 0, false, -1, []) && |ns| > 0
    ensures Recorded(ns[0 := Root], spans, 1, 0, false, 0, [])
  {
    assert SoFar(spans, 0, false) == [];
  }

  /** A start: the new last child has its name and lower bound. */
  lemma RecordStart(ns0: seq<Node>, ns: seq<Node>, spans: seq<Span>, i: nat, k: nat, kids: seq<int>)
    requires Recorded(ns0, spans, i, k, false, 0, kids) && 0 < i < |ns| == |ns0| && k < |spans|
    requires Tree(ns, Root, kids + [i], spans[..k] + [Span(spans[k].name, 0, 0)])
    requires forall j :: i < j < |ns| ==> ns[j] == ns0[j]
    ensures Recorded(ns[i := ns[i].(lo := spans[k].lo)], spans, i + 1, k, true, i, kids + [i])
  {
    var s := spans[k].(hi := 0);
    var kids', now := kids + [i], spans[..k] + [Span(spans[k].name, 0, 0)];
    TreeSets(ns, Root, kids', now, s);
    LastChild(ns, kids', now);
    assert now[..|kids'| - 1] + [s] == SoFar(spans, k, true);
    hide Tree, SoFar;
    assert kids'[|kids'| - 1] == i;
    assert ns[i].(name := s.name, lo := s.lo, hi := s.hi) == ns[i].(lo := spans[k].lo);
  }

  lemma LastChild(ns: seq<Node>, kids: seq<int>, spans: seq<Span>)
    requires Tree(ns, Root, kids, spans) && kids != []
    ensures |kids| == |spans| && 0 < kids[|kids| - 1] < |ns|
    ensures ns[kids[|kids| - 1]] == SpanNode(spans[|kids| - 1], -1)
  {
    TreeAt(ns, Root, kids, spans, |kids| - 1);
  }

  /** An end: the last child has its upper bound, and the root is next. */
  lemma RecordEnd(ns: seq<Node>, spans: seq<Span>, i: nat, k: nat, p: int, kids: seq<int>)
    requires Recorded(ns, spans, i, k, true, p, kids) && 0 < i < |ns|
    ensures k < |spans| && 0 < p < |ns| && ns[p].parent == 0
    ensures Recorded(ns[p := ns[p].(hi := spans[k].hi)], spans, i + 1, k + 1, false, 0, kids)
  {
    hide Tree, SoFar;
    CloseLast(ns, spans, k, kids);
    assert p < i;
  }

  lemma CloseLast(ns: seq<Node>, spans: seq<Span>, k: nat, kids: seq<int>)
    requires k < |spans| && kids != [] && Tree(ns, Root, kids, SoFar(spans, k, true))
    ensures 0 < kids[|kids| - 1] < |ns| && ns[kids[|kids| - 1]].parent == 0
    ensures var p := kids[|kids| - 1];
      Tree(ns[p := ns[p].(hi := spans[k].hi)], Root, kids, SoFar(spans, k + 1, false))
  {
    hide Tree;
    var now, s := SoFar(spans, k, true), spans[k];
    LastChild(ns, kids, now);
    TreeSets(ns, Root, kids, now, s);
    assert now[..|kids| - 1] + [s] == SoFar(spans, k + 1, false);
    assert now[|kids| - 1] == s.(hi := 0);
    hide SoFar;
    var p := kids[|kids| - 1];
    assert ns[p].(name := s.name, lo := s.lo, hi := s.hi) == ns[p].(hi := s.hi);
  }

  /** What the machine captured: the root and then the events. */
  ghost predicate Saw(refs: seq<string>, caps: seq<Capture>, evs: seq<Event>)
  {
    CapsOk(refs, caps) && View(refs, caps) == [Started("root", 0)] + evs && Paired(evs)
  }

  /** Capture i is the root, or the start or the end of a span. */
  lemma SawAt(refs: seq<string>, caps: seq<Capture>, evs: seq<Event>, i: nat, k: nat, open: bool)
    requires Saw(refs, caps, evs) && i < |caps|
    requires i > 0 ==> i == 1 + 2 * k + if open then 1 else 0
    ensures var c := caps[i];
      if i == 0 then c.ref < |refs| <= EndMark && refs[c.ref] == "root" && c.rp == 0
      else k < |Spans(evs)| && if open then c.ref == EndMark && c.rp == Spans(evs)[k].hi
           else c.ref < |refs| <= EndMark && refs[c.ref] == Spans(evs)[k].name && c.rp == Spans(evs)[k].lo
  {
    assert View(refs, caps)[i] == Seen(refs, caps[i]);
    assert |caps| == |evs| + 1;
    if i > 0 {
      SpansAt(evs, k);
      hide Spans, Paired;
      assert View(refs, caps)[i] == evs[i - 1];
    }
  }

  /** captures.record: the node tree of the captures, with empty ones cleaned away. */
  method BuildRecord(refs: seq<string>, caps: seq<Capture>, ghost evs: seq<Event>) returns (nds: array<Node>, p: int, ghost kids: seq<int>)
    requires Saw(refs, caps, evs)
    ensures fresh(nds) && p == 0
    ensures Tree(nds[..], Root, kids, Cleaned(Spans(evs)))
  {
    hide Tree, Recorded, Below, Saw, Cleaned, SoFar, Spans, AllBlank;
    nds := new Node[|caps|](_ => BlankNode);
    p, kids := -1, [];
    ghost var spans, k, open := SpansOf(refs, caps, evs), 0, false;
    NothingRecorded(nds[..], spans);
    for i := 0 to |caps|
      invariant Recorded(nds[..], spans, i, k, open, p, kids) && nds.Length == |caps|
    {
      ghost var ns := nds[..];
      RecordedAt(ns, spans, i, k, open, p, kids);
      SawAt(refs, caps, evs, i, k, open);
      var c := caps[i];
      if c.ref == EndMark {
        RecordEnd(ns, spans, i, k, p, kids);
        nds[p] := nds[p].(hi := c.rp);
        assert nds[..] == ns[p := ns[p].(hi := spans[k].hi)];
        p := nds[p].parent;
        k, open := k + 1, false;
      } else {
        nds[i] := nds[i].(name := refs[c.ref]);
        TreeNames(ns, nds[..], spans, i, k, open, p, kids, refs[c.ref]);
        p := Add(nds, p, i, Root, kids, if i > 0 then SoFar(spans, k, open) else []);
        ghost var ns1 := nds[..];
        nds[p] := nds[p].(lo := c.rp);
        if i == 0 {
          assert nds[..] == ns[0 := Root];
          RecordRoot(ns, spans);
        } else {
          SoFarEnds(spans, k, refs[c.ref]);
          RecordStart(ns, ns1, spans, i, k, kids);
          assert nds[..] == ns1[i := ns1[i].(lo := spans[k].lo)];
          kids, open := kids + [i], true;
        }
      }
    }
    AllRecorded(nds[..], refs, caps, evs, k, open, p, kids);
    kids := Clean(nds, p, Root, kids, spans);
  }

  ghost function SpansOf(refs: seq<string>, caps: seq<Capture>, evs: seq<Event>): seq<Span>
    requires Saw(refs, caps, evs)
  {
    Spans(evs)
  }

  lemma NothingRecorded(ns: seq<Node>, spans: seq<Span>)
    requires forall j :: 0 <= j < |ns| ==> ns[j] == BlankNode
    ensures Recorded(ns, spans, 0, 0, false, -1, [])
  {
  }

  lemma RecordedAt(ns: seq<Node>, spans: seq<Span>, i: nat, k: nat, open: bool, p: int, kids: seq<int>)
    requires Recorded(ns, spans, i, k, open, p, kids) && i < |ns|
    ensures ns[i] == BlankNode && Below(kids, i) && (i == 0 ==> p == -1 && kids == [] && k == 0 && !open)
    ensures i > 0 ==> i == 1 + 2 * k + (if open then 1 else 0) && k <= |spans| && (open ==> k < |spans|) && (!open ==> p == 0)
  {
  }

  lemma AllRecorded(ns: seq<Node>, refs: seq<string>, caps: seq<Capture>, evs: seq<Event>, k: nat, open: bool, p: int, kids: seq<int>)
    requires Saw(refs, caps, evs) && |ns| == |caps| && Recorded(ns, SpansOf(refs, caps, evs), |caps|, k, open, p, kids)
    ensures p == 0 && Tree(ns, Root, kids, SpansOf(refs, caps, evs))
  {
    var spans := Spans(evs);
    assert |caps| == |evs| + 1;
    assert !open && k == |spans|;
    hide Paired, Spans;
    assert SoFar(spans, k, open) == spans;
  }

  /** Naming the next node leaves the tree alone. */
  lemma TreeNames(ns: seq<Node>, ns': seq<Node>, spans: seq<Span>, i: nat, k: nat, open: bool, p: int, kids: seq<int>, n: string)
    requires Recorded(ns, spans, i, k, open, p, kids) && i < |ns| && ns' == ns[i := ns[i].(name := n)]
    ensures i > 0 ==> k <= |spans| && (open ==> k < |spans|) && Tree(ns', Root, kids, SoFar(spans, k, open))
  {
  }

  lemma SoFarEnds(spans: seq<Span>, k: nat, n: string)
    requires k < |spans|
    ensures SoFar(spans, k, false) + [Span(n, 0, 0)] == spans[..k] + [Span(n, 0, 0)]
  {
  }
}
