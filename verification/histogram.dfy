/** The histogram of internal/metrics/hist.go: Record and histbuckets.  Values are 64-bit integers, and
    counters do not wrap.  The bounds are whole numbers, which a 64-bit float holds exactly. */
module Histograms {
  import opened Arith

  const Sub: nat := 16
  const MinBits: nat := 9
  const MaxBits: nat := 48
  const Buckets: nat := 40
  const Counts: nat := 640

  // ---------------------------------------------------------------- bounds

  /** bits.Len64 */
  function Len(v: nat): nat { if v == 0 then 0 else 1 + Len(v / 2) }

  lemma {:induction false} LenIs(v: nat)
    ensures v < Pow2(Len(v)) && (v > 0 ==> Pow2(Len(v) - 1) <= v)
  {
    if v > 0 {
      LenIs(v / 2);
      assert v / 2 == 0 ==> v == 1;
    }
  }

  lemma {:induction false} Pow2Rises(m: nat, n: nat)
    requires m < n
    ensures 2 * Pow2(m) <= Pow2(n)
    decreases n
  {
    Pow2Positive(m);
    if m + 1 < n {
      Pow2Rises(m, n - 1);
    }
  }

  lemma LenAt(v: nat, n: nat)
    ensures Len(v) <= n <==> v < Pow2(n)
  {
    LenIs(v);
    if Len(v) < n {
      Pow2Rises(Len(v), n);
    } else if n < Len(v) - 1 {
      Pow2Rises(n, Len(v) - 1);
    }
  }

  /** Where count c starts: 16 steps of 16, and then 16 steps from each power of two to the next. */
  function Lower(c: nat): nat
  {
    if c < Sub then 16 * c else Times(Sub + c % Sub, Pow2(c / Sub + 3))
  }

  /** Each count but the first ones is a sixteenth of a power of two wide. */
  lemma Widths(c: nat)
    ensures Lower(c) < Lower(c + 1)
    ensures c < Sub ==> Lower(c + 1) == Lower(c) + 16
    ensures c >= Sub ==> 16 * (Lower(c + 1) - Lower(c)) <= Lower(c)
  {
    var k := c / Sub + 3;
    Pow2Positive(k);
    if c < Sub {
      if c == Sub - 1 {
        assert Pow2(4) == 16;
        SixteenTimes(Pow2(4));
      }
    } else if c % Sub < Sub - 1 {
      assert (c + 1) / Sub == c / Sub && (c + 1) % Sub == c % Sub + 1;
      Step(Sub + c % Sub, Pow2(k));
    } else {
      assert (c + 1) / Sub == c / Sub + 1 && (c + 1) % Sub == 0;
      Carry(Pow2(k));
    }
  }

  lemma SixteenTimes(p: nat)
    ensures Times(16, p) == 16 * p
  {
  }

  lemma Step(n: nat, p: nat)
    requires p > 0 && n >= 16
    ensures Times(n + 1, p) == Times(n, p) + p && 16 * p <= Times(n, p)
  {
  }

  lemma Carry(p: nat)
    ensures Times(16, 2 * p) == Times(31, p) + p && 16 * p <= Times(31, p)
  {
  }

  lemma {:induction false} LowerRises(c: nat, d: nat)
    requires c < d
    ensures Lower(c) < Lower(d)
    decreases d
  {
    hide Lower;
    Widths(d - 1);
    if c < d - 1 {
      LowerRises(c, d - 1);
    }
  }

  lemma LastBound()
    ensures Lower(Counts) == Pow2(47)
  {
    Pow2Adds(4, 43);
    assert Pow2(4) == 16;
  }

  // ---------------------------------------------------------------- which count a value adds to

  datatype Slot = Under | At(c: nat) | Over

  /** The slot of a value in the bounds. */
  ghost predicate Within(value: int, s: Slot)
  {
    match s
    case Under => value < 0
    case At(c) => c < Counts && Lower(c) <= value < Lower(c + 1)
    case Over => value >= Pow2(47)
  }

  lemma OneSlot(value: int, s: Slot, t: Slot)
    requires Within(value, s) && Within(value, t)
    ensures s == t
  {
    LastBound();
    hide Lower, Pow2;
    if s.At? && t.At? {
      if s.c < t.c {
        Ordered(s.c + 1, t.c);
      } else if t.c < s.c {
        Ordered(t.c + 1, s.c);
      }
    } else if s.At? {
      Ordered(0, s.c);
      Ordered(s.c + 1, Counts);
      LowerZero();
    } else if t.At? {
      Ordered(0, t.c);
      Ordered(t.c + 1, Counts);
      LowerZero();
    }
  }

  lemma LowerZero()
    ensures Lower(0) == 0
  {
  }

  lemma Ordered(c: nat, d: nat)
    requires c <= d
    ensures Lower(c) <= Lower(d)
  {
    hide Lower;
    if c < d {
      LowerRises(c, d);
    }
  }

  /** The sub-bucket of a value with its highest bit at place l - 1. */
  lemma SubBucket(v: nat, l: nat)
    requires MinBits <= l && Pow2(l - 1) <= v < Pow2(l)
    ensures
      var p := Pow2(l - 5);
      && p > 0 && Times(16 + v / p % Sub, p) <= v < Times(17 + v / p % Sub, p)
  {
    var p := Pow2(l - 5);
    Pow2Adds(4, l - 5);
    Pow2Adds(5, l - 5);
    Pow2Positive(l - 5);
    assert Pow2(4) == 16 && Pow2(5) == 32;
    Quotients(v, p);
  }

  lemma Quotients(v: nat, p: nat)
    requires p > 0 && 16 * p <= v < 32 * p
    ensures Times(16 + v / p % Sub, p) <= v < Times(17 + v / p % Sub, p)
  {
    var q := v / p;
    DivIdentity(v, p);
    if q < 16 {
      MulAtLeast(16 - q, p);
      Distribute(16, q, p);
      Distribute(1, q, p);
    }
    if q >= 32 {
      MulAtLeast(q - 31, p);
      Distribute(q, 32, p);
    }
    assert 16 + q % 16 == q;
    Distribute(1, q, p);
  }

  /** Where Record counts a value. */
  function SlotOf(value: int): Slot
  {
    if value < 0 then Under
    else
      var l := Len(value);
      var bit := if l < MinBits then MinBits else l;
      var bucket := if l < MinBits then 0 else l - MinBits + 1;
      if bucket >= Buckets then Over
      else
        Pow2Positive(bit - 5);
        At(bucket * Sub + value / Pow2(bit - 5) % Sub)
  }

  lemma SlotIs(value: int)
    ensures Within(value, SlotOf(value))
  {
    if value >= 0 {
      var l := Len(value);
      LenIs(value);
      LenAt(value, 8);
      LenAt(value, 47);
      if l < MinBits {
        assert Pow2(8) == 256;
        LowSlot(value);
      } else if l < MaxBits {
        SubBucket(value, l);
        HighSlot(value, l);
      }
    }
  }

  lemma LowIs(v: nat)
    requires Len(v) < MinBits
    ensures SlotOf(v) == At(v / 16 % 16)
  {
    hide Len;
    assert Pow2(4) == 16;
  }

  lemma LowSlot(v: nat)
    requires v < 256 && Len(v) < MinBits
    ensures Within(v, SlotOf(v))
  {
    hide SlotOf, Lower, Pow2, Len;
    LowIs(v);
    var c := v / 16;
    assert c < 16 && 16 * c <= v < 16 * c + 16;
    Widths(c);
    LowerLow(c);
  }

  lemma LowerLow(c: nat)
    requires c < Sub
    ensures Lower(c) == 16 * c
  {
  }

  lemma HighIs(v: nat, l: nat)
    requires MinBits <= l == Len(v) < MaxBits && Pow2(l - 5) > 0
    ensures SlotOf(v) == At((l - MinBits + 1) * Sub + v / Pow2(l - 5) % Sub)
  {
    hide Len, Pow2;
  }

  lemma LowerHigh(l: nat, j: nat)
    requires MinBits <= l && j < Sub
    ensures var c := (l - MinBits + 1) * Sub + j;
      Lower(c) == Times(16 + j, Pow2(l - 5)) && Lower(c + 1) == Times(17 + j, Pow2(l - 5))
  {
    var c, p := (l - MinBits + 1) * Sub + j, Pow2(l - 5);
    assert c / Sub + 3 == l - 5 && c % Sub == j && c >= Sub;
    if j < Sub - 1 {
      assert (c + 1) / Sub == c / Sub && (c + 1) % Sub == j + 1;
    } else {
      assert (c + 1) / Sub == c / Sub + 1 && (c + 1) % Sub == 0;
      assert Pow2(l - 4) == 2 * p;
      Carry(p);
      Next(31, p);
    }
    hide Times, Pow2;
  }

  lemma Next(n: nat, p: nat)
    ensures Times(n + 1, p) == Times(n, p) + p
  {
  }

  lemma HighSlot(v: nat, l: nat)
    requires MinBits <= l == Len(v) < MaxBits
    requires var p := Pow2(l - 5); p > 0 && Times(16 + v / p % Sub, p) <= v < Times(17 + v / p % Sub, p)
    ensures Within(v, SlotOf(v))
  {
    HighIs(v, l);
    LowerHigh(l, v / Pow2(l - 5) % Sub);
    hide Times, Pow2, SlotOf, Len, Lower;
  }

  /** How many of the values belong to a slot. */
  ghost function Number(values: seq<int>, s: Slot): nat
  {
    if values == [] then 0
    else Number(values[..|values| - 1], s) + if Within(values[|values| - 1], s) then 1 else 0
  }

  lemma NumberMore(values: seq<int>, v: int, s: Slot)
    ensures Number(values + [v], s) == Number(values, s) + if s == SlotOf(v) then 1 else 0
  {
    assert (values + [v])[..|values|] == values;
    SlotIs(v);
    hide Within, SlotOf;
    if Within(v, s) {
      OneSlot(v, s, SlotOf(v));
    }
  }

  ghost function Total(values: seq<int>, n: nat): nat
  {
    if n == 0 then 0 else Total(values, n - 1) + Number(values, At(n - 1))
  }

  lemma {:induction false} TotalMore(values: seq<int>, v: int, n: nat)
    ensures Total(values + [v], n) == Total(values, n) + if SlotOf(v).At? && SlotOf(v).c < n then 1 else 0
  {
    hide Number, SlotOf;
    if n > 0 {
      TotalMore(values, v, n - 1);
      NumberMore(values, v, At(n - 1));
    }
  }

  lemma {:induction false} TotalNone(n: nat)
    ensures Total([], n) == 0
  {
    if n > 0 {
      TotalNone(n - 1);
    }
  }

  /** Every value is counted once. */
  lemma {:induction false} NoneLost(values: seq<int>)
    ensures Number(values, Under) + Total(values, Counts) + Number(values, Over) == |values|
  {
    if values == [] {
      TotalNone(Counts);
    } else {
      var init, v := values[..|values| - 1], values[|values| - 1];
      assert values == init + [v];
      NoneLost(init);
      hide Number, Total;
      NumberMore(init, v, Under);
      NumberMore(init, v, Over);
      TotalMore(init, v, Counts);
      SlotIs(v);
      hide SlotOf;
    }
  }

  class Histogram {
    const counts: array<nat>
    var underflow: nat
    var overflow: nat
    ghost var values: seq<int>

    /** Every counter holds the number of values in its bounds. */
    ghost predicate Valid()
      reads this, counts
    {
      && counts.Length == Counts
      && underflow == Number(values, Under) && overflow == Number(values, Over)
      && forall c :: 0 <= c < Counts ==> counts[c] == Number(values, At(c))
    }

    constructor ()
      ensures Valid() && values == [] && fresh(counts)
    {
      counts := new nat[Counts](_ => 0);
      underflow, overflow, values := 0, 0, [];
    }

    method Record(value: int)
      requires Valid()
      modifies this`underflow, this`overflow, this`values, counts
      ensures Valid() && values == old(values) + [value]
    {
      hide Number, Pow2;
      MoreEverywhere(values, value);
      SlotIs(value);
      values := values + [value];
      if value < 0 {
        underflow := underflow + 1;
        return;
      }
      var bucketBit, bucket: nat;
      var l := Len(value);
      if l < MinBits {
        bucketBit, bucket := MinBits, 0;
      } else {
        bucketBit, bucket := l, l - MinBits + 1;
      }
      if bucket >= Buckets {
        overflow := overflow + 1;
        return;
      }
      Pow2Positive(bucketBit - 5);
      var subBucket := value / Pow2(bucketBit - 5) % Sub;
      var c := bucket * Sub + subBucket;
      assert SlotOf(value) == At(c);
      hide SlotOf;
      counts[c] := counts[c] + 1;
    }
  }

  lemma MoreEverywhere(values: seq<int>, v: int)
    ensures forall s :: Number(values + [v], s) == Number(values, s) + if s == SlotOf(v) then 1 else 0
  {
    hide Number, SlotOf;
    forall s
      ensures Number(values + [v], s) == Number(values, s) + if s == SlotOf(v) then 1 else 0
    {
      NumberMore(values, v, s);
    }
  }

  // ---------------------------------------------------------------- histbuckets

  datatype Bound = NegInf | Fin(n: nat) | PosInf

  /** The bounds from place 1 on, up to place n. */
  ghost predicate Bounded(b: seq<Bound>, n: nat)
  {
    n < |b| && forall c :: 0 <= c && c + 1 < n ==> b[c + 1] == Fin(Lower(c))
  }

  /** The bit of the bucket, and the bits of the sub-bucket below it. */
  lemma BoundIs(i: nat, j: nat)
    requires MinBits <= i && j < Sub
    ensures var c := (i - MinBits + 1) * Sub + j; Lower(c) == Pow2(i - 1) + Times(j, Pow2(i - 5))
  {
    var c := (i - MinBits + 1) * Sub + j;
    assert c / Sub + 3 == i - 5 && c % Sub == j && c >= Sub;
    Pow2Adds(4, i - 5);
    assert Pow2(4) == 16;
    TimesLaws(16, j, Pow2(i - 5));
    SixteenTimes(Pow2(i - 5));
    hide Pow2;
  }

  /** The bounds of count c are at c + 1 and at c + 2. */
  method HistBuckets() returns (b: array<Bound>)
    ensures fresh(b) && b.Length == Counts + 3
    ensures b[0] == NegInf && b[Counts + 2] == PosInf
    ensures forall c :: 0 <= c <= Counts ==> b[c + 1] == Fin(Lower(c))
  {
    hide Lower, Pow2, Times;
    b := new Bound[Counts + 3](_ => PosInf);
    b[0] := NegInf;
    for j := 0 to Sub
      invariant b[0] == NegInf && forall c :: 0 <= c < j ==> b[c + 1] == Fin(Lower(c))
    {
      LowBound(j);
      b[j + 1] := Fin(j * Pow2(4));
    }
    for i := MinBits to MaxBits
      invariant b[0] == NegInf && forall c :: 0 <= c < (i - MinBits + 1) * Sub ==> b[c + 1] == Fin(Lower(c))
    {
      for j := 0 to Sub
        invariant b[0] == NegInf && forall c :: 0 <= c < (i - MinBits + 1) * Sub + j ==> b[c + 1] == Fin(Lower(c))
      {
        BoundIs(i, j);
        var bval := Pow2(i - 1);
        bval := bval + Times(j, Pow2(i - 5));
        var bucketIndex := (i - MinBits + 1) * Sub + j + 1;
        b[bucketIndex] := Fin(bval);
      }
    }
    LastBound();
    b[b.Length - 2] := Fin(Pow2(47));
    b[b.Length - 1] := PosInf;
  }

  lemma LowBound(j: nat)
    requires j < Sub
    ensures Lower(j) == j * Pow2(4)
  {
    assert Pow2(4) == 16;
  }

  /** The bounds in closed form: multiples of 16 up to 256, and then sixteenths of every power of two. */
  lemma BoundsAre(b: nat, j: nat)
    requires j < 16
    ensures Lower(j) == 16 * j
    ensures Lower(16 * (b + 1) + j) == Pow2(b + 8) + j * Pow2(b + 4)
  {
    var c := 16 * (b + 1) + j;
    assert c / Sub == b + 1 && c % Sub == j;
    Pow2Adds(4, b + 4);
    assert Pow2(4) == 16;
    Sixteenths(j, Pow2(b + 4));
    hide Pow2;
  }

  lemma Sixteenths(j: nat, p: nat)
    ensures Times(Sub + j, p) == 16 * p + j * p && Times(16, p) == 16 * p
  {
  }
}
