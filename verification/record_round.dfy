/** dsrNode after serNode: which trees come back with all their links. */
module RecordRound {
  import opened Wrappers
  import opened Bytes
  import opened RecordNode
  import opened RecordTree

  lemma {:induction false} PendingAlone(t: Cap, end: int, base: nat)
    ensures EndsAlone(t) ==> Pending(t, end, base) == if t.kids == [] then [] else [Frame(end, base)]
    ensures !EndsAlone(t) ==> |Pending(t, end, base)| >= 2
  {
    if t.kids != [] {
      PendingLast(t.kids, end, base + 1);
    }
  }

  lemma {:induction false} PendingLast(ts: seq<Cap>, end: int, base: nat)
    requires ts != []
    ensures ts[|ts| - 1].kids == [] <==> PendingAll(ts, end, base) == []
    decreases |ts|
  {
    if |ts| > 1 {
      PendingLast(ts[1..], end, base + Size(ts[0]));
    }
  }

  /** After a tree: its nodes are there, and what ended with it is still open. */
  ghost function AfterTree(s: State, t: Cap): State
    requires Valid(s) && s.ancestors != [] && CodableTree(t, s.delta)
  {
    var end, base := s.idx + |SerTree(t, s.delta)|, |s.nds|;
    State(end, Pending(t, end, base) + s.ancestors, LastSlot(t, base), LastHi(t),
      Put(s.nds, s.ptr, base) + LayTree(t, base, s.ancestors[0].node))
  }

  ghost function AfterAll(s: State, ts: seq<Cap>): State
    requires Valid(s) && s.ancestors != [] && Codable(ts, s.delta)
  {
    var end, base := s.idx + |Ser(ts, s.delta)|, |s.nds|;
    State(end, PendingAll(ts, end, base) + s.ancestors, LastSlotAll(ts, base), LastHiAll(ts),
      Put(s.nds, s.ptr, base) + Lay(ts, base, s.ancestors[0].node))
  }

  // ---------------------------------------------------------------- one node

  /** The state once the head of a tree has been read. */
  ghost function AfterHead(s: State, t: Cap): State
    requires Valid(s) && s.ancestors != [] && CodableTree(t, s.delta)
  {
    var base := |s.nds|;
    var nds := Put(s.nds, s.ptr, base) + [Linked(t.head, s.ancestors[0].node, -1, -1)];
    if t.kids == [] then State(s.idx + |EncodeNode(t.head, s.delta)|, s.ancestors, NextOf(base), t.head.hi, nds)
    else State(s.idx + 2 + |EncodeNode(t.head, s.delta)|, [Frame(s.idx + |SerTree(t, s.delta)|, base)] + s.ancestors, Chil(base), t.head.lo, nds)
  }

  lemma Slices<T>(buf: seq<T>, i: nat, a: seq<T>, rest: seq<T>)
    requires i <= |buf| && buf[i..] == a + rest
    ensures i + |a| <= |buf| && buf[i + |a|..] == rest
    ensures forall k :: 0 <= k < |a| ==> buf[i + k] == a[k]
  {
    assert buf[i + |a|..] == buf[i..][|a|..];
    forall k | 0 <= k < |a|
      ensures buf[i + k] == a[k]
    {
      assert buf[i..][k] == buf[i + k];
    }
  }

  lemma U16Back(n: nat)
    requires n <= MaxU15
    ensures var w := U16(0x8000 + n);
      |w| == 2 && w[0] as int * 256 + w[1] == 0x8000 + n && w[0] >= 128
  {
  }

  /** Reading a leaf. */
  lemma ReadLeaf(buf: seq<Byte>, s: State, t: Cap, rest: seq<Byte>)
    requires Valid(s) && s.ancestors != [] && CodableTree(t, s.delta) && Kept(|t.head.name|) && t.kids == []
    requires s.idx <= |buf| && buf[s.idx..] == SerTree(t, s.delta) + rest
    ensures s.idx < |buf| && Read(buf, s) == Some(AfterHead(s, t))
  {
    TreeParts(t, s.delta);
    hide CodableTree, Ser, SerTree, DecodeNode, Codable;
    var e := EncodeNode(t.head, s.delta);
    Slices(buf, s.idx, e, rest);
    assert buf[s.idx + 0] == e[0] && buf[s.idx + 1] == e[1];
    NodeRoundTrip(t.head, s.delta, rest);
    hide EncodeNode;
  }

  lemma ReadLong(buf: seq<Byte>, s: State, n: nat, h: Head, size: nat)
    requires Valid(s) && s.ancestors != [] && 2 < n <= MaxU15 && s.idx + 2 <= |buf|
    requires buf[s.idx] as int * 256 + buf[s.idx + 1] == 0x8000 + n
    requires DecodeNode(buf[s.idx + 2..], s.delta) == Some(Decoded(h, size))
    ensures Read(buf, s) == Some(State(s.idx + 2 + size, [Frame(s.idx + n, |s.nds|)] + s.ancestors, Chil(|s.nds|), h.lo,
      Put(s.nds, s.ptr, |s.nds|) + [Linked(h, s.ancestors[0].node, -1, -1)]))
  {
    hide DecodeNode;
  }

  /** Reading the length and the head of a tree with children. */
  lemma {:induction false} ReadInner(buf: seq<Byte>, s: State, t: Cap, rest: seq<Byte>)
    requires Valid(s) && s.ancestors != [] && CodableTree(t, s.delta) && Kept(|t.head.name|) && t.kids != []
    requires s.idx <= |buf| && buf[s.idx..] == SerTree(t, s.delta) + rest
    ensures s.idx < |buf| && Read(buf, s) == Some(AfterHead(s, t))
  {
    hide *;
    TreeParts(t, s.delta);
    InnerHead(s, t);
    var e, below := EncodeNode(t.head, s.delta), Ser(t.kids, t.head.lo);
    U16Back(2 + |e| + |below|);
    ReadCoded(buf, s, t.head, e, below, rest);
  }

  lemma ReadCoded(buf: seq<Byte>, s: State, h: Head, e: seq<Byte>, below: seq<Byte>, rest: seq<Byte>)
    requires Valid(s) && s.ancestors != [] && Encodable(h, s.delta) && Kept(|h.name|) && e == EncodeNode(h, s.delta)
    requires 2 + |e| + |below| <= MaxU15
    requires s.idx <= |buf| && buf[s.idx..] == U16(0x8000 + (2 + |e| + |below|)) + (e + below) + rest
    ensures s.idx + 2 <= |buf|
    ensures Read(buf, s) == Some(State(s.idx + 2 + |e|, [Frame(s.idx + 2 + |e| + |below|, |s.nds|)] + s.ancestors, Chil(|s.nds|), h.lo,
      Put(s.nds, s.ptr, |s.nds|) + [Linked(h, s.ancestors[0].node, -1, -1)]))
  {
    hide Read, Put, U16, DecodeNode;
    var n := 2 + |e| + |below|;
    InnerBytes(buf, s.idx, n, e, below, rest);
    NodeRoundTrip(h, s.delta, below + rest);
    hide EncodeNode, Encodable;
    ReadLong(buf, s, n, h, |e|);
  }

  /** What is left to read once the head of a tree with children has been read: the children. */
  lemma {:induction false} InnerRest(buf: seq<Byte>, s: State, t: Cap, rest: seq<Byte>)
    requires Valid(s) && s.ancestors != [] && CodableTree(t, s.delta) && t.kids != []
    requires s.idx <= |buf| && buf[s.idx..] == SerTree(t, s.delta) + rest
    ensures Codable(t.kids, t.head.lo)
    ensures var s1 := AfterHead(s, t);
      s1.idx <= |buf| && buf[s1.idx..] == Ser(t.kids, t.head.lo) + rest && s1.idx + |Ser(t.kids, t.head.lo)| == s.idx + |SerTree(t, s.delta)|
  {
    hide *;
    TreeParts(t, s.delta);
    InnerHead(s, t);
    var e, below := EncodeNode(t.head, s.delta), Ser(t.kids, t.head.lo);
    var n := 2 + |e| + |below|;
    U16Back(n);
    InnerBytes(buf, s.idx, n, e, below, rest);
    Slices(buf, s.idx + 2, e, below + rest);
  }

  lemma InnerBytes(buf: seq<Byte>, idx: nat, n: nat, e: seq<Byte>, below: seq<Byte>, rest: seq<Byte>)
    requires n == 2 + |e| + |below| <= MaxU15 && |e| >= 2
    requires idx <= |buf| && buf[idx..] == U16(0x8000 + n) + (e + below) + rest
    ensures idx + n <= |buf| && buf[idx] as int * 256 + buf[idx + 1] == 0x8000 + n
    ensures buf[idx + 2..] == e + (below + rest)
  {
    var w := U16(0x8000 + n);
    U16Back(n);
    hide U16;
    Concat(w, e + below, rest);
    Concat(e, below, rest);
    Slices(buf, idx, w, e + (below + rest));
    assert buf[idx + 0] == w[0] && buf[idx + 1] == w[1];
  }

  lemma InnerHead(s: State, t: Cap)
    requires Valid(s) && s.ancestors != [] && CodableTree(t, s.delta) && t.kids != []
    ensures var base := |s.nds|; var e := EncodeNode(t.head, s.delta);
      AfterHead(s, t) == State(s.idx + 2 + |e|, [Frame(s.idx + |SerTree(t, s.delta)|, base)] + s.ancestors, Chil(base), t.head.lo,
        Put(s.nds, s.ptr, base) + [Linked(t.head, s.ancestors[0].node, -1, -1)])
  {
    hide SerTree, Ser;
  }

  // ---------------------------------------------------------------- places stay in range

  lemma {:induction false} TreePlaces(t: Cap, end: int, base: nat)
    ensures base <= LastSlot(t, base).at < base + Size(t) && LastSlot(t, base).NextOf?
    ensures forall i :: 0 <= i < |Pending(t, end, base)| ==> base <= Pending(t, end, base)[i].node < base + Size(t) && Pending(t, end, base)[i].pos == end
    decreases t, 0
  {
    if t.kids != [] {
      AllPlaces(t.kids, end, base + 1);
    }
  }

  lemma {:induction false} AllPlaces(ts: seq<Cap>, end: int, base: nat)
    requires ts != []
    ensures base <= LastSlotAll(ts, base).at < base + SizeAll(ts) && LastSlotAll(ts, base).NextOf?
    ensures forall i :: 0 <= i < |PendingAll(ts, end, base)| ==> base <= PendingAll(ts, end, base)[i].node < base + SizeAll(ts) && PendingAll(ts, end, base)[i].pos == end
    decreases ts, 1
  {
    if |ts| == 1 {
      TreePlaces(ts[0], end, base);
    } else {
      AllPlaces(ts[1..], end, base + Size(ts[0]));
    }
  }

  lemma AfterTreeValid(s: State, t: Cap)
    requires Valid(s) && s.ancestors != [] && CodableTree(t, s.delta)
    ensures Valid(AfterTree(s, t)) && AfterTree(s, t).ancestors != []
  {
    TreePlaces(t, s.idx + |SerTree(t, s.delta)|, |s.nds|);
    hide SerTree, CodableTree, Pending, LastSlot, LastHi, LayTree;
  }

  lemma AfterAllValid(s: State, ts: seq<Cap>)
    requires Valid(s) && s.ancestors != [] && Codable(ts, s.delta) && ts != []
    ensures Valid(AfterAll(s, ts)) && AfterAll(s, ts).ancestors != []
  {
    AllPlaces(ts, s.idx + |Ser(ts, s.delta)|, |s.nds|);
    hide Ser, Codable, PendingAll, LastSlotAll, LastHiAll, Lay;
  }

  // ---------------------------------------------------------------- a tree, and siblings

  /** The bytes at the state are those of the trees, and no ancestor ends before their end. */
  ghost predicate AtTree(buf: seq<Byte>, s: State, t: Cap, rest: seq<Byte>)
  {
    && Valid(s) && s.ancestors != [] && CodableTree(t, s.delta) && s.idx <= |buf|
    && buf[s.idx..] == SerTree(t, s.delta) + rest && s.ancestors[0].pos >= s.idx + |SerTree(t, s.delta)|
    && Kept(|t.head.name|) && NamesKept(t.kids)
  }

  ghost predicate AtAll(buf: seq<Byte>, s: State, ts: seq<Cap>, rest: seq<Byte>)
  {
    && Valid(s) && s.ancestors != [] && Codable(ts, s.delta) && s.idx <= |buf|
    && buf[s.idx..] == Ser(ts, s.delta) + rest && s.ancestors[0].pos >= s.idx + |Ser(ts, s.delta)|
    && NamesKept(ts)
  }

  lemma SerTreeLong(t: Cap, d: int)
    requires CodableTree(t, d)
    ensures |SerTree(t, d)| >= 2
  {
  }

  /** One turn of the loop reads the head of a tree. */
  lemma TurnHead(buf: seq<Byte>, s: State, t: Cap, rest: seq<Byte>)
    requires AtTree(buf, s, t, rest)
    ensures s.idx < |buf| && Valid(AfterHead(s, t)) && Run(buf, s) == Run(buf, AfterHead(s, t))
  {
    SerTreeLong(t, s.delta);
    if t.kids == [] {
      ReadLeaf(buf, s, t, rest);
    } else {
      ReadInner(buf, s, t, rest);
    }
    hide Read, AfterHead, SerTree, CodableTree, Kept, NamesKept;
    assert Pop(s) == s;
  }

  lemma LeafAfter(buf: seq<Byte>, s: State, t: Cap, rest: seq<Byte>)
    requires AtTree(buf, s, t, rest) && t.kids == []
    ensures AfterHead(s, t) == AfterTree(s, t)
  {
    TreeParts(t, s.delta);
    hide Ser, CodableTree, EncodeNode, Read;
    var x := [Linked(t.head, s.ancestors[0].node, -1, -1)];
    assert x + [] == x && [] + s.ancestors == s.ancestors;
  }

  /** After the head of a tree with children the bytes of the children stand. */
  lemma {:induction false} KidsAt(buf: seq<Byte>, s: State, t: Cap, rest: seq<Byte>)
    requires AtTree(buf, s, t, rest) && t.kids != []
    ensures AtAll(buf, AfterHead(s, t), t.kids, rest)
  {
    InnerRest(buf, s, t, rest);
    hide Ser, SerTree, Codable, CodableTree, Kept, NamesKept;
  }

  /** The children complete the tree. */
  lemma {:induction false} KidsAfter(buf: seq<Byte>, s: State, t: Cap, rest: seq<Byte>)
    requires AtTree(buf, s, t, rest) && t.kids != [] && AtAll(buf, AfterHead(s, t), t.kids, rest)
    ensures AfterAll(AfterHead(s, t), t.kids) == AfterTree(s, t)
  {
    InnerRest(buf, s, t, rest);
    hide Ser, SerTree, Codable, CodableTree, Kept, NamesKept, EncodeNode, Read;
    var base := |s.nds|;
    var s1 := AfterHead(s, t);
    var head := Linked(t.head, s.ancestors[0].node, -1, base + 1);
    var nds := Put(s.nds, s.ptr, base);
    assert |s1.nds| == base + 1;
    assert Put(s1.nds, s1.ptr, base + 1) == nds + [head];
    Concat(nds, [head], Lay(t.kids, base + 1, base));
    Concat(PendingAll(t.kids, s.idx + |SerTree(t, s.delta)|, base + 1), [Frame(s.idx + |SerTree(t, s.delta)|, base)], s.ancestors);
  }

  /** The state before the next sibling, once the ancestor that ended is left. */
  ghost function Ready(s: State, t: Cap): State
    requires Valid(s) && s.ancestors != [] && CodableTree(t, s.delta)
  {
    AfterTree(s, t).(ancestors := s.ancestors, ptr := NextOf(|s.nds|), delta := t.head.hi)
  }

  lemma {:induction false} AllUnfold(buf: seq<Byte>, s: State, ts: seq<Cap>, rest: seq<Byte>)
    requires AtAll(buf, s, ts, rest) && ts != []
    ensures Codable(ts[1..], ts[0].head.hi) && AtTree(buf, s, ts[0], Ser(ts[1..], ts[0].head.hi) + rest)
    ensures |Ser(ts, s.delta)| == |SerTree(ts[0], s.delta)| + |Ser(ts[1..], ts[0].head.hi)|
  {
    SerUnfold(ts, s.delta);
    hide Ser, SerTree, Codable, CodableTree;
    Concat(SerTree(ts[0], s.delta), Ser(ts[1..], ts[0].head.hi), rest);
  }

  lemma TreeRest(buf: seq<Byte>, s: State, t: Cap, rest: seq<Byte>)
    requires AtTree(buf, s, t, rest)
    ensures var i := s.idx + |SerTree(t, s.delta)|; i <= |buf| && buf[i..] == rest
    ensures AfterTree(s, t).idx == s.idx + |SerTree(t, s.delta)| && |AfterTree(s, t).nds| == |s.nds| + Size(t)
  {
    hide SerTree, CodableTree, Kept, NamesKept;
    Slices(buf, s.idx, SerTree(t, s.delta), rest);
  }

  lemma {:induction false} ReadyAt(buf: seq<Byte>, s: State, ts: seq<Cap>, rest: seq<Byte>)
    requires AtAll(buf, s, ts, rest) && |ts| > 1
    ensures CodableTree(ts[0], s.delta) && AtAll(buf, Ready(s, ts[0]), ts[1..], rest)
  {
    AllUnfold(buf, s, ts, rest);
    TreeRest(buf, s, ts[0], Ser(ts[1..], ts[0].head.hi) + rest);
    hide Ser, SerTree, Codable, CodableTree, AfterTree;
  }

  lemma SerLong(ts: seq<Cap>, d: int)
    requires Codable(ts, d) && ts != []
    ensures |Ser(ts, d)| >= 2
  {
    SerUnfold(ts, d);
    SerTreeLong(ts[0], d);
    hide Ser, SerTree, Codable;
  }

  /** The ancestor that ended with a tree is left at the next sibling. */
  lemma {:induction false} LeaveOne(buf: seq<Byte>, s: State, ts: seq<Cap>, rest: seq<Byte>)
    requires AtAll(buf, s, ts, rest) && |ts| > 1 && EndsAlone(ts[0])
    ensures CodableTree(ts[0], s.delta) && Valid(AfterTree(s, ts[0])) && Valid(Ready(s, ts[0]))
    ensures Run(buf, AfterTree(s, ts[0])) == Run(buf, Ready(s, ts[0]))
  {
    var t := ts[0];
    AllUnfold(buf, s, ts, rest);
    ReadyAt(buf, s, ts, rest);
    AfterTreeValid(s, t);
    SerLong(ts[1..], t.head.hi);
    TreeRest(buf, s, t, Ser(ts[1..], t.head.hi) + rest);
    var s2, s3 := AfterTree(s, t), Ready(s, t);
    PendingAlone(t, s2.idx, |s.nds|);
    HeadHere(s, t);
    LeafReady(s, t);
    hide Ser, SerTree, Codable, CodableTree, AfterTree, Read, Pending, NamesKept;
    assert s3.ancestors[0].pos > s3.idx;
    assert Pop(s3) == s3;
    if t.kids == [] {
      assert s2 == s3;
    } else {
      assert s2.ancestors == [Frame(s2.idx, |s.nds|)] + s.ancestors;
      assert s2.ancestors[1..] == s.ancestors;
      assert Pop(s2) == s3;
    }
  }

  lemma HeadHere(s: State, t: Cap)
    requires Valid(s) && s.ancestors != [] && CodableTree(t, s.delta)
    ensures var s2 := AfterTree(s, t);
      |s.nds| < |s2.nds| && s2.nds[|s.nds|].head == t.head && s2.ancestors == Pending(t, s2.idx, |s.nds|) + s.ancestors
  {
    hide SerTree, CodableTree;
  }

  lemma LeafReady(s: State, t: Cap)
    requires Valid(s) && s.ancestors != [] && CodableTree(t, s.delta)
    ensures t.kids == [] ==> AfterTree(s, t) == Ready(s, t)
    ensures Ready(s, t).idx == AfterTree(s, t).idx && Ready(s, t).nds == AfterTree(s, t).nds
    ensures Ready(s, t).ancestors == s.ancestors && Ready(s, t).ptr == NextOf(|s.nds|) && Ready(s, t).delta == t.head.hi
  {
    hide SerTree, CodableTree;
    assert t.kids == [] ==> [] + s.ancestors == s.ancestors;
  }

  lemma {:induction false} OneAfter(s: State, ts: seq<Cap>)
    requires Valid(s) && s.ancestors != [] && Codable(ts, s.delta) && |ts| == 1
    ensures CodableTree(ts[0], s.delta) && AfterAll(s, ts) == AfterTree(s, ts[0])
  {
    SerUnfold(ts, s.delta);
    SerNothing(ts[0].head.hi);
    assert ts[1..] == [];
    hide Ser, SerTree, Codable, CodableTree, LayTree, Pending, LastSlot, LastHi, Put;
    var base := |s.nds|;
    assert LayTree(ts[0], base, s.ancestors[0].node) + [] == LayTree(ts[0], base, s.ancestors[0].node);
    assert SerTree(ts[0], s.delta) + [] == SerTree(ts[0], s.delta);
  }

  lemma {:induction false} MoreAfter(buf: seq<Byte>, s: State, ts: seq<Cap>, rest: seq<Byte>)
    requires AtAll(buf, s, ts, rest) && |ts| > 1
    ensures CodableTree(ts[0], s.delta) && Valid(Ready(s, ts[0])) && Codable(ts[1..], Ready(s, ts[0]).delta)
    ensures AfterAll(Ready(s, ts[0]), ts[1..]) == AfterAll(s, ts)
  {
    var t := ts[0];
    AllUnfold(buf, s, ts, rest);
    ReadyAt(buf, s, ts, rest);
    TreeRest(buf, s, t, Ser(ts[1..], t.head.hi) + rest);
    LeafReady(s, t);
    var base, n := |s.nds|, |s.nds| + Size(t);
    var s3 := Ready(s, t);
    var first := LayTree(t, base, s.ancestors[0].node);
    var pre := Put(s.nds, s.ptr, base);
    assert s3.nds == pre + first;
    hide Ser, SerTree, Codable, CodableTree, AfterTree, LayTree, NamesKept;
    assert Put(s3.nds, NextOf(base), n) == pre + first[0 := first[0].(next := n)];
    Concat(pre, first[0 := first[0].(next := n)], Lay(ts[1..], n, s.ancestors[0].node));
  }

  /** Reading the bytes of a tree gives its nodes. */
  lemma {:induction false} RunTree(buf: seq<Byte>, s: State, t: Cap, rest: seq<Byte>)
    requires AtTree(buf, s, t, rest) && OneEnds(t.kids)
    ensures Valid(AfterTree(s, t)) && Run(buf, s) == Run(buf, AfterTree(s, t))
    decreases t, 0
  {
    hide *;
    TreeBasics(buf, s, t, rest);
    TurnHead(buf, s, t, rest);
    AfterTreeValid(s, t);
    if t.kids == [] {
      LeafAfter(buf, s, t, rest);
    } else {
      KidsAt(buf, s, t, rest);
      RunAll(buf, AfterHead(s, t), t.kids, rest);
      AllBasics(buf, AfterHead(s, t), t.kids, rest);
      KidsAfter(buf, s, t, rest);
    }
  }

  lemma TreeBasics(buf: seq<Byte>, s: State, t: Cap, rest: seq<Byte>)
    requires AtTree(buf, s, t, rest)
    ensures Valid(s) && s.ancestors != [] && CodableTree(t, s.delta)
  {
  }

  lemma AllBasics(buf: seq<Byte>, s: State, ts: seq<Cap>, rest: seq<Byte>)
    requires AtAll(buf, s, ts, rest)
    ensures Valid(s) && s.ancestors != [] && Codable(ts, s.delta)
  {
  }

  lemma {:induction false} RunAll(buf: seq<Byte>, s: State, ts: seq<Cap>, rest: seq<Byte>)
    requires AtAll(buf, s, ts, rest) && ts != [] && OneEnds(ts)
    ensures Codable(ts, s.delta) && Valid(s) && s.ancestors != []
    ensures Valid(AfterAll(s, ts)) && Run(buf, s) == Run(buf, AfterAll(s, ts))
    decreases ts, 1
  {
    hide *;
    OneEndsParts(ts);
    AllBasics(buf, s, ts, rest);
    AfterAllValid(s, ts);
    if |ts| == 1 {
      AllUnfold(buf, s, ts, rest);
      TreeBasics(buf, s, ts[0], Ser(ts[1..], ts[0].head.hi) + rest);
      RunTree(buf, s, ts[0], Ser(ts[1..], ts[0].head.hi) + rest);
      OneAfter(s, ts);
    } else {
      NextReady(buf, s, ts, rest);
      RunAll(buf, Ready(s, ts[0]), ts[1..], rest);
      MoreAfter(buf, s, ts, rest);
    }
  }

  lemma OneEndsParts(ts: seq<Cap>)
    requires OneEnds(ts) && ts != []
    ensures OneEnds(ts[0].kids) && OneEnds(ts[1..]) && (|ts| > 1 ==> EndsAlone(ts[0]))
  {
  }

  // ---------------------------------------------------------------- the round trip

  /** The nodes of the whole record: the root, and then its captures. */
  function Nodes(root: Head, ts: seq<Cap>): seq<Linked>
  {
    [Linked(root, -1, -1, if ts == [] then -1 else 1)] + Lay(ts, 1, 0)
  }

  lemma BeginAt(root: Head, ts: seq<Cap>)
    requires Codable(ts, 0) && NamesKept(ts)
    ensures var buf := Ser(ts, 0); AtAll(buf, Begin(buf, root), ts, [])
  {
    var buf := Ser(ts, 0);
    hide Ser, Codable, NamesKept;
    assert buf[0..] == buf && buf + [] == buf;
  }

  lemma {:induction false} ComesBack(root: Head, ts: seq<Cap>)
    requires Codable(ts, 0) && OneEnds(ts) && NamesKept(ts)
    ensures var buf := Ser(ts, 0); var r := Run(buf, Begin(buf, root));
      r.Some? && r.value.nds == Nodes(root, ts)
  {
    var buf := Ser(ts, 0);
    var s := Begin(buf, root);
    if ts == [] {
      SerNothing(0);
    } else {
      BeginAt(root, ts);
      RunAll(buf, s, ts, []);
      AllDone(root, ts);
    }
  }

  lemma AllDone(root: Head, ts: seq<Cap>)
    requires Codable(ts, 0) && ts != []
    ensures var buf := Ser(ts, 0); var s := Begin(buf, root); var r := AfterAll(s, ts);
      (Valid(r) ==> Run(buf, r) == Some(r)) && r.nds == Nodes(root, ts)
  {
    hide Ser, Codable, Lay, PendingAll, LastSlotAll, LastHiAll;
  }

  // ---------------------------------------------------------------- when two ancestors end

  /** Reading failed, or node j has a next sibling. */
  ghost predicate Broken(r: Option<State>, j: nat)
  {
    r.None? || (j < |r.value.nds| && r.value.nds[j].next != -1)
  }

  lemma {:induction false} RunBroken(buf: seq<Byte>, s: State, j: nat)
    requires Valid(s) && j < |s.nds| && s.nds[j].next != -1
    ensures Broken(Run(buf, s), j)
    decreases |buf| - s.idx
  {
    if s.idx < |buf| {
      var t := Turn(buf, s);
      if t.Some? {
        ReadKeeps(buf, Pop(s), j);
        RunBroken(buf, t.value, j);
      }
    }
  }

  lemma ReadKeeps(buf: seq<Byte>, s: State, j: nat)
    requires Valid(s) && s.idx < |buf| && j < |s.nds| && (s.nds[j].next != -1 || s.ptr == NextOf(j))
    ensures var t := Read(buf, s); t.Some? ==> j < |t.value.nds| && t.value.nds[j].next != -1
  {
    hide DecodeNode;
  }

  /** The innermost ancestor that ends with some siblings is the last of its own. */
  lemma {:induction false} PendingHasNoNext(ts: seq<Cap>, end: int, base: nat, parent: int)
    requires ts != [] && PendingAll(ts, end, base) != []
    ensures var j := PendingAll(ts, end, base)[0].node;
      base <= j < base + SizeAll(ts) && Lay(ts, base, parent)[j - base].next == -1
    decreases ts, 1
  {
    hide *;
    PendingStep(ts, end, base, parent);
    if |ts| == 1 {
      TreePendingNoNext(ts[0], end, base, parent);
    } else {
      var n := base + Size(ts[0]);
      PendingHasNoNext(ts[1..], end, n, parent);
      LayLater(ts, base, parent, PendingAll(ts[1..], end, n)[0].node - n);
    }
  }

  lemma PendingStep(ts: seq<Cap>, end: int, base: nat, parent: int)
    requires ts != []
    ensures |ts| == 1 ==> PendingAll(ts, end, base) == Pending(ts[0], end, base) && Lay(ts, base, parent) == LayTree(ts[0], base, parent) && SizeAll(ts) == Size(ts[0])
    ensures |ts| > 1 ==> PendingAll(ts, end, base) == PendingAll(ts[1..], end, base + Size(ts[0]))
  {
    assert |ts| == 1 ==> ts[1..] == [];
  }

  lemma {:induction false} TreePendingNoNext(t: Cap, end: int, base: nat, parent: int)
    requires Pending(t, end, base) != []
    ensures var j := Pending(t, end, base)[0].node;
      base <= j < base + Size(t) && LayTree(t, base, parent)[j - base].next == -1
    decreases t, 0
  {
    TreePlaces(t, end, base);
    if PendingAll(t.kids, end, base + 1) != [] {
      PendingHasNoNext(t.kids, end, base + 1, base);
    }
  }

  lemma {:induction false} InnerPending(t: Cap, end: int, base: nat, parent: int)
    requires !EndsAlone(t)
    ensures var p := Pending(t, end, base);
      |p| >= 2 && base < p[0].node < base + Size(t) && LayTree(t, base, parent)[p[0].node - base].next == -1
  {
    PendingAlone(t, end, base);
    assert PendingAll(t.kids, end, base + 1) != [];
    PendingHasNoNext(t.kids, end, base + 1, base);
  }

  /** Node j of some nodes from base on has a next sibling after reading, but none in the tree. */
  ghost predicate Wrong(r: Option<State>, base: nat, lay: seq<Linked>, from: nat, j: nat)
  {
    base + from <= j < base + |lay| && lay[j - base].next == -1 && Broken(r, j)
  }

  /** Where two ancestors end before a sibling, only the inner one is left: it gets the sibling. */
  lemma {:induction false} LeaveTooFew(buf: seq<Byte>, s: State, ts: seq<Cap>, rest: seq<Byte>) returns (j: nat)
    requires AtAll(buf, s, ts, rest) && |ts| > 1 && !EndsAlone(ts[0]) && OneEnds(ts[0].kids)
    ensures Wrong(Run(buf, s), |s.nds|, LayTree(ts[0], |s.nds|, s.ancestors[0].node), 1, j)
  {
    hide *;
    var t := ts[0];
    AllBasics(buf, s, ts, rest);
    AllUnfold(buf, s, ts, rest);
    TreeBasics(buf, s, t, Ser(ts[1..], t.head.hi) + rest);
    RunTree(buf, s, t, Ser(ts[1..], t.head.hi) + rest);
    SerLong(ts[1..], t.head.hi);
    TreeRest(buf, s, t, Ser(ts[1..], t.head.hi) + rest);
    var s2 := AfterTree(s, t);
    var base, parent := |s.nds|, s.ancestors[0].node;
    InnerPending(t, s2.idx, base, parent);
    TreePlaces(t, s2.idx, base);
    HeadHere(s, t);
    j := s2.ancestors[0].node;
    assert s2.ancestors[0] == Pending(t, s2.idx, base)[0];
    LeaveBroken(buf, s2, j);
    WrongMake(Run(buf, s), base, LayTree(t, base, parent), 1, j);
  }

  lemma WrongMake(r: Option<State>, base: nat, lay: seq<Linked>, from: nat, j: nat)
    requires base + from <= j < base + |lay| && lay[j - base].next == -1 && Broken(r, j)
    ensures Wrong(r, base, lay, from, j)
  {
  }

  /** The ancestor that is left gets the next node as its sibling. */
  lemma LeaveBroken(buf: seq<Byte>, s: State, j: nat)
    requires Valid(s) && s.idx < |buf| && s.ancestors != [] && s.ancestors[0] == Frame(s.idx, j)
    ensures Broken(Run(buf, s), j)
  {
    hide Read;
    var s3 := Pop(s);
    ReadKeeps(buf, s3, j);
    var t3 := Turn(buf, s);
    if t3.Some? {
      RunBroken(buf, t3.value, j);
    }
  }

  lemma {:induction false} TreeWrong(buf: seq<Byte>, s: State, t: Cap, rest: seq<Byte>) returns (j: nat)
    requires AtTree(buf, s, t, rest) && !OneEnds(t.kids)
    ensures Valid(s) && s.ancestors != [] && Wrong(Run(buf, s), |s.nds|, LayTree(t, |s.nds|, s.ancestors[0].node), 1, j)
    decreases t, 0
  {
    hide *;
    OneEndsNone(t);
    TreeBasics(buf, s, t, rest);
    TurnHead(buf, s, t, rest);
    KidsAt(buf, s, t, rest);
    HeadPlaces(s, t);
    j := AllWrong(buf, AfterHead(s, t), t.kids, rest);
    KidsWrong(Run(buf, s), t, |s.nds|, s.ancestors[0].node, j);
  }

  lemma OneEndsNone(t: Cap)
    ensures !OneEnds(t.kids) ==> t.kids != []
  {
  }

  /** Why two ancestors end somewhere. */
  lemma NotOneEnds(ts: seq<Cap>)
    requires !OneEnds(ts)
    ensures ts != []
    ensures OneEnds(ts[0].kids) && (|ts| > 1 ==> EndsAlone(ts[0])) ==> |ts| > 1 && !OneEnds(ts[1..])
  {
  }

  lemma {:induction false} KidsWrong(r: Option<State>, t: Cap, base: nat, parent: int, j: nat)
    requires t.kids != [] && Wrong(r, base + 1, Lay(t.kids, base + 1, base), 0, j)
    ensures Wrong(r, base, LayTree(t, base, parent), 1, j)
  {
    hide Lay, Broken;
  }

  lemma HeadPlaces(s: State, t: Cap)
    requires Valid(s) && s.ancestors != [] && CodableTree(t, s.delta)
    ensures t.kids != [] ==>
      var s1 := AfterHead(s, t); |s1.nds| == |s.nds| + 1 && s1.ancestors != [] && s1.ancestors[0].node == |s.nds|
  {
    hide SerTree, CodableTree;
  }

  lemma {:induction false} AllWrong(buf: seq<Byte>, s: State, ts: seq<Cap>, rest: seq<Byte>) returns (j: nat)
    requires AtAll(buf, s, ts, rest) && !OneEnds(ts)
    ensures Valid(s) && s.ancestors != [] && Wrong(Run(buf, s), |s.nds|, Lay(ts, |s.nds|, s.ancestors[0].node), 0, j)
    decreases ts, 1
  {
    hide *;
    NotOneEnds(ts);
    AllBasics(buf, s, ts, rest);
    AllUnfold(buf, s, ts, rest);
    if !OneEnds(ts[0].kids) {
      j := TreeWrong(buf, s, ts[0], Ser(ts[1..], ts[0].head.hi) + rest);
      FirstWrong(Run(buf, s), ts, |s.nds|, s.ancestors[0].node, j);
    } else if |ts| > 1 && !EndsAlone(ts[0]) {
      j := LeaveTooFew(buf, s, ts, rest);
      FirstWrong(Run(buf, s), ts, |s.nds|, s.ancestors[0].node, j);
    } else {
      NextReady(buf, s, ts, rest);
      j := AllWrong(buf, Ready(s, ts[0]), ts[1..], rest);
      LaterWrong(Run(buf, s), ts, |s.nds|, s.ancestors[0].node, j);
    }
  }

  /** A first tree that reads well leads to the next sibling. */
  lemma {:induction false} NextReady(buf: seq<Byte>, s: State, ts: seq<Cap>, rest: seq<Byte>)
    requires AtAll(buf, s, ts, rest) && |ts| > 1 && EndsAlone(ts[0]) && OneEnds(ts[0].kids)
    ensures Valid(s) && s.ancestors != [] && CodableTree(ts[0], s.delta) && Valid(Ready(s, ts[0]))
    ensures AtAll(buf, Ready(s, ts[0]), ts[1..], rest) && Run(buf, s) == Run(buf, Ready(s, ts[0]))
    ensures |Ready(s, ts[0]).nds| == |s.nds| + Size(ts[0]) && Ready(s, ts[0]).ancestors == s.ancestors
    decreases ts, 0
  {
    hide *;
    AllBasics(buf, s, ts, rest);
    AllUnfold(buf, s, ts, rest);
    var more := Ser(ts[1..], ts[0].head.hi) + rest;
    TreeBasics(buf, s, ts[0], more);
    RunTree(buf, s, ts[0], more);
    LeaveOne(buf, s, ts, rest);
    ReadyAt(buf, s, ts, rest);
    TreeRest(buf, s, ts[0], more);
    LeafReady(s, ts[0]);
  }

  lemma {:induction false} FirstWrong(r: Option<State>, ts: seq<Cap>, base: nat, parent: int, j: nat)
    requires ts != [] && Wrong(r, base, LayTree(ts[0], base, parent), 1, j)
    ensures Wrong(r, base, Lay(ts, base, parent), 0, j)
  {
    hide LayTree, Broken;
  }

  lemma {:induction false} LaterWrong(r: Option<State>, ts: seq<Cap>, base: nat, parent: int, j: nat)
    requires |ts| > 1 && Wrong(r, base + Size(ts[0]), Lay(ts[1..], base + Size(ts[0]), parent), 0, j)
    ensures Wrong(r, base, Lay(ts, base, parent), 0, j)
  {
    LayLater(ts, base, parent, j - base - Size(ts[0]));
    hide Lay, Broken, Size;
  }

  lemma {:induction false} LayLater(ts: seq<Cap>, base: nat, parent: int, k: int)
    requires |ts| > 1 && 0 <= k < SizeAll(ts[1..])
    ensures SizeAll(ts) == Size(ts[0]) + SizeAll(ts[1..])
    ensures Lay(ts, base, parent)[Size(ts[0]) + k] == Lay(ts[1..], base + Size(ts[0]), parent)[k]
  {
    hide LayTree;
  }

  /** For trees whose bounds are in order and in range and whose names keep their length: writing and
      reading back gives all nodes with all their links, if and only if at most one ancestor ends
      where a node begins. */
  lemma {:induction false} RecordExact(root: Head, ts: seq<Cap>)
    requires Codable(ts, 0) && NamesKept(ts)
    ensures var buf := Ser(ts, 0); var r := Run(buf, Begin(buf, root));
      (r.Some? && r.value.nds == Nodes(root, ts)) <==> OneEnds(ts)
  {
    var buf := Ser(ts, 0);
    if OneEnds(ts) {
      ComesBack(root, ts);
    } else {
      BeginAt(root, ts);
      var s := Begin(buf, root);
      assert |s.nds| == 1 && s.ancestors[0].node == 0;
      hide Ser, Codable, OneEnds, NamesKept, AtAll, Run, Lay;
      var j := AllWrong(buf, s, ts, []);
      assert Nodes(root, ts)[j] == Lay(ts, 1, 0)[j - 1];
    }
  }

  /** No capture is empty. */
  predicate Filled(ts: seq<Cap>)
  {
    forall i :: 0 <= i < |ts| ==> ts[i].head.lo < ts[i].head.hi && Filled(ts[i].kids)
  }

  /** A capture in a capture in a capture, and one after it. */
  function Deep(): seq<Cap>
  {
    [Cap(Head([97], 0, 3), [Cap(Head([98], 1, 3), [Cap(Head([99], 1, 2), [])])]), Cap(Head([100], 3, 4), [])]
  }

  /** Two ancestors end where the last capture starts, and the tree does not come back. */
  lemma DeepRecordLost(root: Head)
    ensures Filled(Deep()) && Codable(Deep(), 0) && NamesKept(Deep())
    ensures var r := Run(Ser(Deep(), 0), Begin(Ser(Deep(), 0), root)); !(r.Some? && r.value.nds == Nodes(root, Deep()))
  {
    DeepFilled();
    DeepCodable();
    hide *;
    RecordExact(root, Deep());
  }

  lemma DeepFilled()
    ensures Filled(Deep()) && !OneEnds(Deep())
  {
    assert Filled([]);
    assert Filled([Cap(Head([99], 1, 2), [])]);
    assert Filled([Cap(Head([98], 1, 3), [Cap(Head([99], 1, 2), [])])]);
  }

  lemma DeepCodable()
    ensures Codable(Deep(), 0) && NamesKept(Deep())
  {
    hide Codable, NamesKept, Ser;
    var c1, d1 := Cap(Head([99], 1, 2), []), Cap(Head([100], 3, 4), []);
    var b1 := Cap(Head([98], 1, 3), [c1]);
    var a1 := Cap(Head([97], 0, 3), [b1]);
    assert [c1] + [] == [c1] && [b1] + [] == [b1] && [d1] + [] == [d1] && [a1] + [d1] == Deep();
    SerNone(2);
    SerNone(3);
    SerNone(4);
    SerNone(1);
    OneMore(c1, [], 1);
    OneMore(b1, [], 0);
    OneMore(d1, [], 3);
    OneMore(a1, [d1], 0);
  }

  lemma SerNone(d: int)
    ensures Codable([], d) && NamesKept([]) && Ser([], d) == []
  {
  }

  lemma OneMore(t: Cap, more: seq<Cap>, d: int)
    requires 0 <= d <= t.head.lo < t.head.hi <= 4 && |t.head.name| == 1
    requires Codable(t.kids, t.head.lo) && NamesKept(t.kids) && |Ser(t.kids, t.head.lo)| < 100
    requires Codable(more, t.head.hi) && NamesKept(more)
    ensures Codable([t] + more, d) && NamesKept([t] + more)
    ensures |Ser([t] + more, d)| <= |Ser(t.kids, t.head.lo)| + |Ser(more, t.head.hi)| + 5
  {
    assert ([t] + more)[1..] == more;
    Short(t.head, d);
    assert CodableTree(t, d);
  }

  lemma Short(h: Head, d: int)
    requires 0 <= d <= h.lo < h.hi <= 4 && |h.name| == 1
    ensures Encodable(h, d) && |EncodeNode(h, d)| == 3
  {
  }
}
