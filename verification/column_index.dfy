/** The column index of rx-browser/datacell/fields.go: names in a list, and a table of 512 slots that is
    probed with an odd stride.  Slots start as 0, which is also the number of the first column.  Columns
    are added at the end only (Conj), and the index is never reset. */
module ColumnIndex {
  import opened Wrappers
  import opened Arith

  const Slots: nat := 512

  // ---------------------------------------------------------------- the probe

  /** Where the probe looks after i steps. */
  function Probe(p: nat, s: nat, i: nat): (q: nat)
    ensures q < Slots
  {
    if i == 0 then p % Slots else (Probe(p, s, i - 1) + s) % Slots
  }

  lemma {:induction false} ProbeIs(p: nat, s: nat, i: nat)
    ensures Probe(p, s, i) == (p + Times(i, s)) % Slots
  {
    if i > 0 {
      ProbeIs(p, s, i - 1);
      TimesMore(i, s);
      AddMod(p + Times(i - 1, s), s);
    }
  }

  lemma TimesMore(i: nat, s: nat)
    requires i > 0
    ensures Times(i, s) == Times(i - 1, s) + s
  {
  }

  lemma AddMod(a: nat, b: nat)
    ensures (a % Slots + b) % Slots == (a + b) % Slots
  {
  }

  /** An odd factor does not help a number to a power of two. */
  lemma {:induction false} OddFactor(d: nat, s: nat, k: nat, m: nat)
    requires s % 2 == 1 && d * s == Pow2(k) * m
    ensures exists n: nat :: d == Pow2(k) * n
  {
    if k == 0 {
      assert d == Pow2(0) * d;
    } else {
      Halve(d, s, Pow2(k - 1), m);
      var e := d / 2;
      OddFactor(e, s, k - 1, m);
      var n: nat :| e == Pow2(k - 1) * n;
      Double(d, e, Pow2(k - 1), n);
    }
  }

  lemma Double(d: nat, e: nat, q: nat, n: nat)
    requires d == 2 * e && e == q * n
    ensures d == (2 * q) * n
  {
  }

  lemma Halve(d: nat, s: nat, q: nat, m: nat)
    requires s % 2 == 1 && d * s == (2 * q) * m
    ensures d % 2 == 0 && (d / 2) * s == q * m
  {
    var e, r := d / 2, s / 2;
    assert s == 2 * r + 1;
    assert d * s == 2 * (d * r) + d;
    assert (2 * q) * m == 2 * (q * m);
    assert d == 2 * e;
    assert d * s == 2 * (e * s);
  }

  /** With an odd stride, 512 steps never look at one slot twice. */
  lemma ProbesApart(p: nat, s: nat, i: nat, j: nat)
    requires s % 2 == 1 && i < j < Slots
    ensures Probe(p, s, i) != Probe(p, s, j)
  {
    hide *;
    ProbeIs(p, s, i);
    ProbeIs(p, s, j);
    if Probe(p, s, i) == Probe(p, s, j) {
      TimesApart(i, j, s);
      var m := SameRest(p + Times(i, s), p + Times(j, s));
      SlotsDivide(j - i, s, m);
    }
  }

  lemma SlotsDivide(d: nat, s: nat, m: nat)
    requires s % 2 == 1 && Times(d, s) == Times(Slots, m)
    ensures d == 0 || d >= Slots
  {
    Pow2Slots();
    OddFactor(d, s, 9, m);
    var n: nat :| d == Pow2(9) * n;
    hide Pow2;
    Multiple(d, n);
  }

  lemma Pow2Slots()
    ensures Pow2(9) == Slots
  {
    assert Pow2(4) == 16 && Pow2(8) == 256;
  }

  lemma Multiple(d: nat, n: nat)
    requires d == Slots * n
    ensures d == 0 || d >= Slots
  {
  }

  lemma TimesApart(i: nat, j: nat, s: nat)
    requires i < j
    ensures Times(j, s) == Times(i, s) + Times(j - i, s)
  {
  }

  lemma SameRest(a: nat, b: nat) returns (m: nat)
    requires a <= b && a % Slots == b % Slots
    ensures b - a == Times(Slots, m)
  {
    m := b / Slots - a / Slots;
  }

  // ---------------------------------------------------------------- the table

  function Start(h: nat): nat { h % Slots }

  /** ((h >> 16) & mask) | 1 */
  function Stride(h: nat): (s: nat)
    ensures s % 2 == 1
  {
    var x := h / 0x1_0000 % Slots;
    if x % 2 == 0 then x + 1 else x
  }

  function Look(h: nat, i: nat): nat { Probe(Start(h), Stride(h), i) }

  /** Numbers of columns below n, no two slots with the same one but for 0. */
  ghost predicate Table(tab: seq<nat>, n: nat)
  {
    && |tab| == Slots && n <= Slots
    && (forall q :: 0 <= q < Slots ==> tab[q] == 0 || tab[q] < n)
    && (forall q, r :: 0 <= q < r < Slots && tab[q] == tab[r] ==> tab[q] == 0)
  }

  /** The probe ends at slot q. */
  predicate Stops(tab: seq<nat>, cols: seq<string>, col: string, q: nat)
    requires q < |tab|
  {
    tab[q] == 0 || tab[q] >= |cols| || cols[tab[q]] == col
  }

  function Numbers(tab: seq<nat>, h: nat, n: nat): set<nat>
    requires |tab| == Slots
  {
    if n == 0 then {} else Numbers(tab, h, n - 1) + {tab[Look(h, n - 1)]}
  }

  lemma {:induction false} NumbersIn(tab: seq<nat>, h: nat, n: nat, x: nat)
    requires |tab| == Slots
    ensures x in Numbers(tab, h, n) <==> exists i :: 0 <= i < n && tab[Look(h, i)] == x
  {
    if n > 0 {
      NumbersIn(tab, h, n - 1, x);
    }
  }

  lemma {:induction false} NumbersCount(tab: seq<nat>, m: nat, h: nat, n: nat)
    requires Table(tab, m) && n <= Slots && forall i :: 0 <= i < n ==> tab[Look(h, i)] != 0
    ensures |Numbers(tab, h, n)| == n
  {
    if n > 0 {
      NumbersCount(tab, m, h, n - 1);
      var x := tab[Look(h, n - 1)];
      NumbersIn(tab, h, n - 1, x);
      if x in Numbers(tab, h, n - 1) {
        var i :| 0 <= i < n - 1 && tab[Look(h, i)] == x;
        ProbesApart(Start(h), Stride(h), i, n - 1);
      }
    }
  }

  lemma {:induction false} Below(s: set<nat>, n: nat)
    requires forall x :: x in s ==> 0 < x < n
    ensures n > 0 ==> |s| < n
  {
    if n > 1 {
      Below(s - {n - 1}, n - 1);
    } else if n == 1 {
      assert s == {};
    }
  }

  /** One of the 512 slots ends the probe: there are at most 511 numbers that are not 0. */
  lemma SomeStop(tab: seq<nat>, n: nat, cols: seq<string>, col: string, h: nat) returns (t: nat)
    requires Table(tab, n)
    ensures t < Slots && Stops(tab, cols, col, Look(h, t))
  {
    if t' :| 0 <= t' < Slots && Stops(tab, cols, col, Look(h, t')) {
      t := t';
    } else {
      var s := Numbers(tab, h, Slots);
      NumbersCount(tab, n, h, Slots);
      forall x | x in s
        ensures 0 < x < Slots
      {
        NumbersIn(tab, h, Slots, x);
      }
      Below(s, Slots);
      assert false;
    }
  }

  // ---------------------------------------------------------------- where a column stands

  ghost predicate NoneTwice(cols: seq<string>)
  {
    forall i, j :: 0 <= i < j < |cols| ==> cols[i] != cols[j]
  }

  /** Slot q is where the probe for hash h comes after i steps, with no 0 before. */
  ghost predicate Reaches(tab: seq<nat>, h: nat, i: nat, q: nat)
    requires |tab| == Slots
  {
    q == Look(h, i) && forall j :: 0 <= j < i ==> tab[Look(h, j)] != 0
  }

  ghost predicate Placed(tab: seq<nat>, h: nat, k: nat)
    requires |tab| == Slots
  {
    exists i: nat, q: nat :: Reaches(tab, h, i, q) && q < Slots && tab[q] == k
  }

  /** Every column but the first stands where its probe finds it. */
  ghost predicate Indexed(tab: seq<nat>, cols: seq<string>, hash: string -> nat)
  {
    Table(tab, |cols|) && NoneTwice(cols) && forall k :: 0 < k < |cols| ==> Placed(tab, hash(cols[k]), k)
  }

  /** The first slot that ends the probe. */
  ghost predicate Ends(tab: seq<nat>, cols: seq<string>, col: string, h: nat, p: nat)
    requires |tab| == Slots
  {
    exists i: nat :: p == Look(h, i) && Stops(tab, cols, col, p) && forall j :: 0 <= j < i ==> !Stops(tab, cols, col, Look(h, j))
  }

  /** Where the probe ends the column is, or it is not there. */
  lemma Found(tab: seq<nat>, cols: seq<string>, hash: string -> nat, col: string, p: nat)
    requires Indexed(tab, cols, hash) && cols != [] && Ends(tab, cols, col, hash(col), p)
    ensures tab[p] < |cols| && (cols[tab[p]] == col <==> col in cols)
  {
    var h := hash(col);
    if col in cols && cols[0] != col {
      var k :| 0 < k < |cols| && cols[k] == col;
      var i: nat :| p == Look(h, i) && forall j :: 0 <= j < i ==> !Stops(tab, cols, col, Look(h, j));
      assert Placed(tab, h, k);
      var i': nat, q: nat :| Reaches(tab, h, i', q) && q < Slots && tab[q] == k;
      assert Stops(tab, cols, col, q);
      assert i <= i' && (i < i' ==> tab[p] != 0) && (i == i' ==> p == q);
    }
  }

  /** A new column goes where the probe for it ends. */
  lemma PlaceNew(tab: seq<nat>, cols: seq<string>, hash: string -> nat, col: string, p: nat)
    requires Indexed(tab, cols, hash) && col !in cols && |cols| < Slots
    requires Ends(tab, cols + [col], col, hash(col), p)
    ensures p < Slots && tab[p] == 0 && Indexed(tab[p := |cols|], cols + [col], hash)
  {
    var n, h, more := |cols|, hash(col), cols + [col];
    var tab' := tab[p := n];
    assert tab[p] == 0;
    forall k | 0 < k < |more|
      ensures Placed(tab', hash(more[k]), k)
    {
      if k < n {
        assert Placed(tab, hash(cols[k]), k);
        var i: nat, q: nat :| Reaches(tab, hash(cols[k]), i, q) && q < Slots && tab[q] == k;
        assert Reaches(tab', hash(more[k]), i, q);
      } else {
        var i: nat :| p == Look(h, i) && forall j :: 0 <= j < i ==> !Stops(tab, more, col, Look(h, j));
        assert Reaches(tab', h, i, p);
      }
    }
  }

  lemma NothingIndexed(tab: seq<nat>, hash: string -> nat)
    requires |tab| == Slots && forall q :: 0 <= q < Slots ==> tab[q] == 0
    ensures Indexed(tab, [], hash)
  {
  }

  class Fields {
    const hash: string -> nat
    const idx: array<nat>
    var cols: seq<string>

    ghost predicate Valid()
      reads this, idx
    {
      idx.Length == Slots && Indexed(idx[..], cols, hash)
    }

    constructor (h: string -> nat)
      ensures Valid() && cols == [] && hash == h && fresh(idx)
    {
      hash := h;
      cols := [];
      idx := new nat[Slots](_ => 0);
      new;
      NothingIndexed(idx[..], h);
    }

    /** fh: follows the probe to a slot that is free or holds the column. */
    method Slot(col: string) returns (p: nat)
      requires idx.Length == Slots && exists n :: Table(idx[..], n)
      ensures p < Slots && Ends(idx[..], cols, col, hash(col), p)
    {
      hide Table, Probe;
      var h := hash(col);
      p := Start(h);
      var s := Stride(h);
      ghost var n :| Table(idx[..], n);
      ghost var t := SomeStop(idx[..], n, cols, col, h);
      ghost var i := 0;
      LookFirst(h);
      while true
        invariant i <= t && p == Look(h, i) && p < Slots
        invariant forall j :: 0 <= j < i ==> !Stops(idx[..], cols, col, Look(h, j))
        decreases t - i
      {
        var r := idx[p];
        if r == 0 || r >= |cols| || cols[r] == col {
          return;
        }
        LookNext(h, i);
        p := (p + s) % Slots;
        i := i + 1;
      }
    }

    /** Idx: the number of the column, or -1. */
    method Idx(col: string) returns (k: int)
      requires Valid()
      ensures k == -1 <==> col !in cols
      ensures k != -1 ==> 0 <= k < |cols| && cols[k] == col
    {
      if |cols| == 0 {
        return -1;
      }
      var p := Slot(col);
      Found(idx[..], cols, hash, col, p);
      var r := idx[p];
      if r < |cols| && cols[r] == col {
        return r;
      }
      return -1;
    }

    /** Conj: the number of the column, which is added if it is not there; nothing when 512 columns are
        there already, where the code panics. */
    method Conj(col: string) returns (k: Option<nat>)
      requires Valid()
      modifies this`cols, idx
      ensures Valid()
      ensures cols == if col in old(cols) || |old(cols)| == Slots then old(cols) else old(cols) + [col]
      ensures k.None? <==> col !in old(cols) && |old(cols)| == Slots
      ensures k.Some? ==> k.value < |cols| && cols[k.value] == col
    {
      var have := Idx(col);
      if have != -1 {
        return Some(have);
      }
      if |cols| == Slots {
        return None;
      }
      ghost var tab, was := idx[..], cols;
      ghost var n: nat := |cols|;
      assert Table(tab, n);
      cols := cols + [col];
      assert idx[..] == tab;
      var p := Slot(col);
      PlaceNew(tab, was, hash, col, p);
      idx[p] := |cols| - 1;
      assert idx[..] == tab[p := n];
      return Some(|cols| - 1);
    }
  }

  lemma LookFirst(h: nat)
    ensures Look(h, 0) == Start(h) < Slots
  {
  }

  lemma LookNext(h: nat, i: nat)
    ensures Look(h, i + 1) == (Look(h, i) + Stride(h)) % Slots < Slots
  {
  }
}
