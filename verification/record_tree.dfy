/** serNode and dsrNode of internal/mdt/record.go: the tree of captures as bytes, and back into linked
    nodes. */
module RecordTree {
  import opened Wrappers
  import opened Bytes
  import opened RecordNode

  datatype Cap = Cap(head: Head, kids: seq<Cap>)

  function Size(t: Cap): (n: nat)
    ensures n >= 1
  {
    1 + SizeAll(t.kids)
  }

  function SizeAll(ts: seq<Cap>): nat
  {
    if ts == [] then 0 else Size(ts[0]) + SizeAll(ts[1..])
  }

  // ---------------------------------------------------------------- serNode

  const MaxU15 := 0x7FFF

  function U16(n: nat): seq<Byte>
    requires n < 0x1_0000
  {
    [n / 256, n % 256]
  }

  /** Bounds in order and in range, and no subtree of more than 32767 bytes. */
  ghost predicate Codable(ts: seq<Cap>, d: int)
    decreases ts, 0
  {
    ts == [] || (CodableTree(ts[0], d) && Codable(ts[1..], ts[0].head.hi))
  }

  ghost predicate CodableTree(t: Cap, d: int)
    decreases t, 1
  {
    && Encodable(t.head, d) && Codable(t.kids, t.head.lo)
    && (t.kids != [] ==> 2 + |EncodeNode(t.head, d)| + |Ser(t.kids, t.head.lo)| <= MaxU15)
  }

  ghost function Ser(ts: seq<Cap>, d: int): seq<Byte>
    requires Codable(ts, d)
    decreases ts, 2
  {
    if ts == [] then [] else SerTree(ts[0], d) + Ser(ts[1..], ts[0].head.hi)
  }

  ghost function SerTree(t: Cap, d: int): seq<Byte>
    requires CodableTree(t, d)
    decreases t, 3
  {
    if t.kids == [] then EncodeNode(t.head, d)
    else
      var body := EncodeNode(t.head, d) + Ser(t.kids, t.head.lo);
      U16(0x8000 + 2 + |body|) + body
  }

  lemma SerUnfold(ts: seq<Cap>, d: int)
    requires Codable(ts, d) && ts != []
    ensures CodableTree(ts[0], d) && Codable(ts[1..], ts[0].head.hi)
    ensures Ser(ts, d) == SerTree(ts[0], d) + Ser(ts[1..], ts[0].head.hi)
  {
  }

  /** serNode: siblings one after the other, each with children behind a length that is filled in
      once it is known. */
  method SerNode(ts: seq<Cap>, delta0: int, buf0: seq<Byte>) returns (buf: seq<Byte>)
    requires Codable(ts, delta0)
    ensures buf == buf0 + Ser(ts, delta0)
    decreases ts
  {
    hide Ser, SerTree, Codable, CodableTree;
    buf := buf0;
    var delta := delta0;
    assert ts[0..] == ts;
    for i := 0 to |ts|
      invariant Codable(ts[i..], delta) && buf + Ser(ts[i..], delta) == buf0 + Ser(ts, delta0)
    {
      var c := ts[i];
      SerUnfold(ts[i..], delta);
      assert ts[i..][1..] == ts[i + 1..];
      ghost var before := buf;
      var li := |buf|;
      if c.kids != [] {
        buf := buf + [0, 0];
      }
      TreeParts(c, delta);
      buf := buf + EncodeNode(c.head, delta);
      if c.kids != [] {
        buf := SerNode(c.kids, c.head.lo, buf);
        var d := |buf| - li;
        LengthPlace(before, EncodeNode(c.head, delta), Ser(c.kids, c.head.lo), d);
        buf := buf[li := (d + 0x8000) / 256][li + 1 := d % 256];
      }
      assert buf == before + SerTree(c, delta);
      Concat(before, SerTree(c, delta), Ser(ts[i + 1..], c.head.hi));
      delta := c.head.hi;
    }
    SerNothing(delta);
    assert ts[|ts|..] == [];
  }

  lemma SerNothing(d: int)
    ensures Codable([], d) && Ser([], d) == []
  {
  }

  lemma Concat<T>(a: seq<T>, b: seq<T>, c: seq<T>)
    ensures (a + b) + c == a + (b + c)
  {
  }

  lemma TreeParts(t: Cap, d: int)
    requires CodableTree(t, d)
    ensures Encodable(t.head, d) && Codable(t.kids, t.head.lo)
    ensures t.kids == [] ==> SerTree(t, d) == EncodeNode(t.head, d)
    ensures t.kids != [] ==>
      var n := 2 + |EncodeNode(t.head, d)| + |Ser(t.kids, t.head.lo)|;
      n <= MaxU15 && SerTree(t, d) == U16(0x8000 + n) + (EncodeNode(t.head, d) + Ser(t.kids, t.head.lo))
  {
    hide Ser;
  }

  lemma LengthPlace(before: seq<Byte>, a: seq<Byte>, b: seq<Byte>, d: int)
    requires d == 2 + |a| + |b| <= MaxU15
    ensures 0 <= (d + 0x8000) / 256 < 256 && 0 <= d % 256 < 256
    ensures (before + [0, 0] + a + b)[|before| := (d + 0x8000) / 256][|before| + 1 := d % 256] == before + (U16(0x8000 + d) + (a + b))
  {
  }

  // ---------------------------------------------------------------- dsrNode

  /** A node of the tree that is built; links are places in the list of nodes, or -1. */
  datatype Linked = Linked(head: Head, parent: int, next: int, chil: int)

  datatype Slot = Chil(at: nat) | NextOf(at: nat)

  /** An ancestor, and where its subtree ends in the bytes. */
  datatype Frame = Frame(pos: int, node: nat)

  datatype State = State(idx: nat, ancestors: seq<Frame>, ptr: Slot, delta: int, nds: seq<Linked>)

  ghost predicate Valid(s: State)
  {
    s.ptr.at < |s.nds| && forall i :: 0 <= i < |s.ancestors| ==> s.ancestors[i].node < |s.nds|
  }

  function Put(nds: seq<Linked>, ptr: Slot, node: int): (r: seq<Linked>)
    requires ptr.at < |nds|
    ensures |r| == |nds|
  {
    nds[ptr.at := if ptr.Chil? then nds[ptr.at].(chil := node) else nds[ptr.at].(next := node)]
  }

  /** An ancestor that ends here is left, but only one. */
  function Pop(s: State): (t: State)
    requires Valid(s) && s.ancestors != []
    ensures Valid(t)
  {
    if s.ancestors[0].pos == s.idx then
      s.(ptr := NextOf(s.ancestors[0].node), delta := s.nds[s.ancestors[0].node].head.hi, ancestors := s.ancestors[1..])
    else s
  }

  /** One node; None where the code would panic. */
  function Read(buf: seq<Byte>, s: State): (t: Option<State>)
    requires Valid(s) && s.idx < |buf|
    ensures t.Some? ==> Valid(t.value) && t.value.idx > s.idx && |t.value.nds| == |s.nds| + 1
  {
    if s.ancestors == [] || s.idx + 2 > |buf| then None
    else
      var sk := buf[s.idx] as int * 256 + buf[s.idx + 1];
      var li: int := if sk >= 0x8000 then sk - 0x8000 + s.idx else 0;
      var idx := if sk >= 0x8000 then s.idx + 2 else s.idx;
      var d := DecodeNode(buf[idx..], s.delta);
      if d.None? then None
      else
        var c := |s.nds|;
        var h := d.value.head;
        var nds := Put(s.nds, s.ptr, c) + [Linked(h, s.ancestors[0].node, -1, -1)];
        if li > 0 then Some(State(idx + d.value.size, [Frame(li, c)] + s.ancestors, Chil(c), h.lo, nds))
        else Some(State(idx + d.value.size, s.ancestors, NextOf(c), h.hi, nds))
  }

  function Turn(buf: seq<Byte>, s: State): (t: Option<State>)
    requires Valid(s) && s.idx < |buf|
    ensures t.Some? ==> Valid(t.value) && t.value.idx > s.idx
  {
    if s.ancestors == [] then None else Read(buf, Pop(s))
  }

  function Run(buf: seq<Byte>, s: State): Option<State>
    requires Valid(s)
    decreases |buf| - s.idx
  {
    if s.idx >= |buf| then Some(s)
    else
      var t := Turn(buf, s);
      if t.None? then None else Run(buf, t.value)
  }

  function Root(h: Head): Linked { Linked(h, -1, -1, -1) }

  function Begin(buf: seq<Byte>, root: Head): State
  {
    State(0, [Frame(|buf|, 0)], Chil(0), 0, [Root(root)])
  }

  /** dsrNode: reads nodes until the bytes are used up, linking each behind the one before it. */
  method DsrNode(buf: seq<Byte>, root: Head) returns (nds: Option<seq<Linked>>)
    ensures var r := Run(buf, Begin(buf, root));
      nds == if r.None? then None else Some(r.value.nds)
  {
    var s := Begin(buf, root);
    while s.idx < |buf|
      invariant Valid(s) && Run(buf, s) == Run(buf, Begin(buf, root))
      decreases |buf| - s.idx
    {
      if s.ancestors == [] {
        return None;
      }
      if s.ancestors[0].pos == s.idx {
        s := s.(ptr := NextOf(s.ancestors[0].node), delta := s.nds[s.ancestors[0].node].head.hi, ancestors := s.ancestors[1..]);
      }
      var t := Read(buf, s);
      if t.None? {
        return None;
      }
      s := t.value;
    }
    return Some(s.nds);
  }

  // ---------------------------------------------------------------- the nodes of a tree

  /** The nodes of a tree in preorder from place base on. */
  function LayTree(t: Cap, base: nat, parent: int): (r: seq<Linked>)
    ensures |r| == Size(t)
    decreases t, 0
  {
    [Linked(t.head, parent, -1, if t.kids == [] then -1 else base + 1)] + Lay(t.kids, base + 1, base)
  }

  /** The nodes of siblings, each linked to the next. */
  function Lay(ts: seq<Cap>, base: nat, parent: int): (r: seq<Linked>)
    ensures |r| == SizeAll(ts)
    decreases ts, 1
  {
    if ts == [] then []
    else if |ts| == 1 then LayTree(ts[0], base, parent) + []
    else
      var n := base + Size(ts[0]);
      var first := LayTree(ts[0], base, parent);
      first[0 := first[0].(next := n)] + Lay(ts[1..], n, parent)
  }

  /** The ancestors that end where a tree ends: the tree itself and its last children, if they have
      children. */
  function Pending(t: Cap, end: int, base: nat): seq<Frame>
    decreases t, 0
  {
    if t.kids == [] then [] else PendingAll(t.kids, end, base + 1) + [Frame(end, base)]
  }

  function PendingAll(ts: seq<Cap>, end: int, base: nat): seq<Frame>
    decreases ts, 1
  {
    if ts == [] then [] else if |ts| == 1 then Pending(ts[0], end, base) else PendingAll(ts[1..], end, base + Size(ts[0]))
  }

  function LastSlot(t: Cap, base: nat): Slot
    decreases t, 0
  {
    if t.kids == [] then NextOf(base) else LastSlotAll(t.kids, base + 1)
  }

  function LastSlotAll(ts: seq<Cap>, base: nat): Slot
    decreases ts, 1
  {
    if ts == [] then NextOf(base) else if |ts| == 1 then LastSlot(ts[0], base) else LastSlotAll(ts[1..], base + Size(ts[0]))
  }

  function LastHi(t: Cap): int
    decreases t, 0
  {
    if t.kids == [] then t.head.hi else LastHiAll(t.kids)
  }

  function LastHiAll(ts: seq<Cap>): int
    decreases ts, 1
  {
    if ts == [] then 0 else if |ts| == 1 then LastHi(ts[0]) else LastHiAll(ts[1..])
  }

  /** The last child, if any, has no children. */
  predicate EndsAlone(t: Cap) { t.kids == [] || t.kids[|t.kids| - 1].kids == [] }

  /** Where a node begins, at most one ancestor ends. */
  predicate OneEnds(ts: seq<Cap>)
    decreases ts, 0
  {
    ts == [] || (OneEnds(ts[0].kids) && (|ts| > 1 ==> EndsAlone(ts[0])) && OneEnds(ts[1..]))
  }

  predicate NamesKept(ts: seq<Cap>)
    decreases ts, 0
  {
    ts == [] || (Kept(|ts[0].head.name|) && NamesKept(ts[0].kids) && NamesKept(ts[1..]))
  }

  /** A capture in a capture: the length of both, with the high bit, stands in front. */
  lemma NestedBytes()
    ensures var ts := [Cap(Head([97], 0, 2), [Cap(Head([98], 0, 1), [])])];
      Codable(ts, 0) && Ser(ts, 0) == [128, 8, 1, 97, 2, 1, 98, 1]
  {
    var b := Cap(Head([98], 0, 1), []);
    var a := Cap(Head([97], 0, 2), [b]);
    assert EncodeNode(b.head, 0) == [1, 98, 1] && EncodeNode(a.head, 0) == [1, 97, 2];
    assert CodableTree(b, 0) && [b][1..] == [] && [a][1..] == [];
    assert Codable([], 1) && Ser([], 1) == [] && Codable([], 2) && Ser([], 2) == [];
    assert Codable([b], 0) && Ser([b], 0) == [1, 98, 1] + [];
    assert CodableTree(a, 0) && SerTree(a, 0) == U16(0x8000 + 8) + ([1, 97, 2] + [1, 98, 1]);
    assert Codable([a], 0) && Ser([a], 0) == SerTree(a, 0) + [];
    assert U16(0x8000 + 8) == [128, 8];
  }
}
