/** Sets of runes as lists of ranges: minrange and rangeexcl of internal/mdt/compile.go.  Runes are 32-bit
    integers, and adding one to the largest wraps around. */
module RuneRanges {

  datatype Rng = Rng(lo: int, hi: int)

  const MaxRune: int := 0x7FFF_FFFF

  function Wrap(r: int): int { if r > MaxRune then r - 0x1_0000_0000 else r }

  function NextRune(r: int): int { if r < MaxRune - 1 then r + 1 else r }

  predicate In(x: int, rs: seq<Rng>)
  {
    exists i :: 0 <= i < |rs| && rs[i].lo <= x <= rs[i].hi
  }

  ghost predicate Same(a: seq<Rng>, b: seq<Rng>)
  {
    forall x :: In(x, a) <==> In(x, b)
  }

  /** No range is empty, and all runes are runes. */
  ghost predicate Proper(rs: seq<Rng>)
  {
    forall i :: 0 <= i < |rs| ==> 0 <= rs[i].lo <= rs[i].hi <= MaxRune
  }

  /** Ranges in order that do not overlap. */
  ghost predicate Apart(rs: seq<Rng>)
  {
    forall i, j :: 0 <= i < j < |rs| ==> rs[i].hi < rs[j].lo
  }

  /** No range starts right behind another, but for the last two runes. */
  ghost predicate Minimal(rs: seq<Rng>)
  {
    forall i, j :: 0 <= i < j < |rs| ==> NextRune(rs[i].hi) < rs[j].lo
  }

  lemma InAppend(x: int, a: seq<Rng>, b: seq<Rng>)
    ensures In(x, a + b) <==> In(x, a) || In(x, b)
  {
    if In(x, a) {
      var i :| 0 <= i < |a| && a[i].lo <= x <= a[i].hi;
      assert (a + b)[i] == a[i];
    }
    if In(x, b) {
      var i :| 0 <= i < |b| && b[i].lo <= x <= b[i].hi;
      assert (a + b)[|a| + i] == b[i];
    }
    if In(x, a + b) {
      var i :| 0 <= i < |a + b| && (a + b)[i].lo <= x <= (a + b)[i].hi;
      assert (a + b)[i] == if i < |a| then a[i] else b[i - |a|];
    }
  }

  lemma InOne(x: int, r: Rng)
    ensures In(x, [r]) <==> r.lo <= x <= r.hi
    ensures !In(x, [])
  {
    assert [r][0] == r;
  }

  // ---------------------------------------------------------------- sorting

  /** sort.Slice by the lower bound. */
  function Sort(rs: seq<Rng>): (r: seq<Rng>)
    ensures |r| == |rs|
  {
    if rs == [] then [] else Insert(rs[|rs| - 1], Sort(rs[..|rs| - 1]))
  }

  function Insert(x: Rng, rs: seq<Rng>): (r: seq<Rng>)
    ensures |r| == |rs| + 1
  {
    if rs == [] then [x] else if x.lo < rs[0].lo then [x] + rs else [rs[0]] + Insert(x, rs[1..])
  }

  ghost predicate Ordered(rs: seq<Rng>)
  {
    forall i, j :: 0 <= i < j < |rs| ==> rs[i].lo <= rs[j].lo
  }

  lemma {:induction false} InsertKeeps(x: Rng, rs: seq<Rng>)
    requires Ordered(rs)
    ensures Ordered(Insert(x, rs)) && forall r :: r in Insert(x, rs) <==> r == x || r in rs
  {
    if rs != [] && x.lo >= rs[0].lo {
      InsertKeeps(x, rs[1..]);
      var t := Insert(x, rs[1..]);
      assert forall r :: r in t ==> rs[0].lo <= r.lo;
    }
  }

  lemma {:induction false} SortKeeps(rs: seq<Rng>)
    ensures Ordered(Sort(rs)) && forall r :: r in Sort(rs) <==> r in rs
  {
    if rs != [] {
      SortKeeps(rs[..|rs| - 1]);
      InsertKeeps(rs[|rs| - 1], Sort(rs[..|rs| - 1]));
    }
  }

  lemma SameMembers(a: seq<Rng>, b: seq<Rng>)
    requires forall r :: r in a <==> r in b
    ensures Same(a, b)
  {
    forall x
      ensures In(x, a) <==> In(x, b)
    {
      if In(x, a) {
        var i :| 0 <= i < |a| && a[i].lo <= x <= a[i].hi;
        assert a[i] in b;
        var j :| 0 <= j < |b| && b[j] == a[i];
      }
      if In(x, b) {
        var i :| 0 <= i < |b| && b[i].lo <= x <= b[i].hi;
        assert b[i] in a;
        var j :| 0 <= j < |a| && a[j] == b[i];
      }
    }
  }

  // ---------------------------------------------------------------- minrange

  /** One more range: behind the last one, or joined to it. */
  function Join(out: seq<Rng>, r: Rng): (t: seq<Rng>)
    ensures t != []
  {
    if out == [] then [r]
    else
      var last := out[|out| - 1];
      if r.lo > NextRune(last.hi) then out + [r]
      else if r.hi > last.hi then out[..|out| - 1] + [Rng(last.lo, r.hi)]
      else out
  }

  function JoinAll(rs: seq<Rng>): (t: seq<Rng>)
    ensures rs != [] ==> t != []
    ensures |t| <= |rs|
  {
    if rs == [] then [] else Join(JoinAll(rs[..|rs| - 1]), rs[|rs| - 1])
  }

  function MinRanges(rs: seq<Rng>): seq<Rng> { JoinAll(Sort(rs)) }

  lemma NextRuneIs(r: int)
    ensures r <= NextRune(r) <= r + 1
  {
  }

  lemma JoinIn(out: seq<Rng>, r: Rng, x: int)
    requires out != [] ==> out[|out| - 1].lo <= r.lo
    ensures In(x, Join(out, r)) <==> In(x, out) || r.lo <= x <= r.hi
  {
    InOne(x, r);
    InAppend(x, out, [r]);
    if out != [] {
      var init, last := out[..|out| - 1], out[|out| - 1];
      assert out == init + [last];
      InAppend(x, init, [last]);
      InOne(x, last);
      InAppend(x, init, [Rng(last.lo, r.hi)]);
      InOne(x, Rng(last.lo, r.hi));
      NextRuneIs(last.hi);
    } else {
      assert [] + [r] == [r];
    }
  }

  lemma {:induction false} JoinAllLast(rs: seq<Rng>)
    requires Ordered(rs) && rs != []
    ensures JoinAll(rs)[|JoinAll(rs)| - 1].lo <= rs[|rs| - 1].lo
  {
    if |rs| > 1 {
      var init := rs[..|rs| - 1];
      JoinAllLast(init);
      assert init[|init| - 1].lo <= rs[|rs| - 1].lo;
    }
  }

  lemma {:induction false} JoinAllIn(rs: seq<Rng>, x: int)
    requires Ordered(rs)
    ensures In(x, JoinAll(rs)) <==> In(x, rs)
  {
    hide In, Join;
    if rs != [] {
      var init, r := rs[..|rs| - 1], rs[|rs| - 1];
      JoinAllIn(init, x);
      if init != [] {
        JoinAllLast(init);
        assert init[|init| - 1].lo <= r.lo;
      }
      JoinIn(JoinAll(init), r, x);
      assert rs == init + [r];
      InAppend(x, init, [r]);
      InOne(x, r);
    } else {
      InOne(x, Rng(0, 0));
    }
  }

  lemma {:induction false} JoinAllMinimal(rs: seq<Rng>)
    requires Ordered(rs) && Proper(rs)
    ensures Proper(JoinAll(rs)) && Minimal(JoinAll(rs)) && Apart(JoinAll(rs))
  {
    if rs != [] {
      var init, r := rs[..|rs| - 1], rs[|rs| - 1];
      JoinAllMinimal(init);
      if init != [] {
        JoinAllLast(init);
        assert init[|init| - 1].lo <= r.lo;
      }
      JoinMinimal(JoinAll(init), r);
    }
  }

  lemma JoinMinimal(out: seq<Rng>, r: Rng)
    requires Proper(out) && Minimal(out) && Apart(out) && 0 <= r.lo <= r.hi <= MaxRune
    requires out != [] ==> out[|out| - 1].lo <= r.lo
    ensures Proper(Join(out, r)) && Minimal(Join(out, r)) && Apart(Join(out, r))
  {
    var t := Join(out, r);
    if out != [] {
      var k := |out| - 1;
      NextRuneIs(out[k].hi);
      forall i, j | 0 <= i < j < |t|
        ensures NextRune(t[i].hi) < t[j].lo && t[i].hi < t[j].lo
      {
        NextRuneIs(t[i].hi);
        if j == |out| && i < k {
          assert NextRune(out[i].hi) < out[k].lo;
        } else if j == k {
          assert NextRune(out[i].hi) < out[k].lo;
        }
      }
    }
  }

  /** The minimal form has the same runes, in ranges in order that neither overlap nor touch. */
  lemma MinRangesExact(rs: seq<Rng>)
    ensures Same(MinRanges(rs), rs)
    ensures Proper(rs) ==> Proper(MinRanges(rs)) && Apart(MinRanges(rs)) && Minimal(MinRanges(rs))
  {
    SortKeeps(rs);
    SameMembers(Sort(rs), rs);
    forall x
      ensures In(x, MinRanges(rs)) <==> In(x, rs)
    {
      JoinAllIn(Sort(rs), x);
    }
    if Proper(rs) {
      forall i | 0 <= i < |Sort(rs)|
        ensures 0 <= Sort(rs)[i].lo <= Sort(rs)[i].hi <= MaxRune
      {
        assert Sort(rs)[i] in rs;
      }
      JoinAllMinimal(Sort(rs));
    }
  }

  lemma JoinAllStep(rs: seq<Rng>, i: nat)
    requires i < |rs|
    ensures JoinAll(rs[..i + 1]) == Join(JoinAll(rs[..i]), rs[i])
  {
    assert rs[..i + 1][..i] == rs[..i];
  }

  lemma JoinAllOne(rs: seq<Rng>)
    requires rs != []
    ensures JoinAll(rs[..1]) == [rs[0]]
  {
    assert rs[..1] == [rs[0]];
    assert JoinAll([]) == [];
  }

  /** minrange, in place: the first n ranges are the result. */
  method MinRange(runes: array<Rng>) returns (n: nat)
    requires runes.Length > 0
    modifies runes
    ensures n <= runes.Length && runes[..n] == MinRanges(old(runes[..]))
  {
    hide Sort, JoinAll;
    ghost var sorted := Sort(runes[..]);
    SortArray(runes);
    var j := 0;
    JoinAllOne(sorted);
    for i := 1 to runes.Length
      invariant 0 <= j < i
      invariant runes[..j + 1] == JoinAll(sorted[..i])
      invariant forall k :: i <= k < runes.Length ==> runes[k] == sorted[k]
    {
      JoinAllStep(sorted, i);
      ghost var out := JoinAll(sorted[..i]);
      assert runes[j] == out[j];
      if runes[i].lo > NextRune(runes[j].hi) {
        j := j + 1;
        runes[j] := runes[i];
        assert runes[..j + 1] == out + [sorted[i]];
      } else if runes[i].hi > runes[j].hi {
        runes[j] := Rng(runes[j].lo, runes[i].hi);
        assert runes[..j + 1] == out[..j] + [Rng(out[j].lo, sorted[i].hi)];
      }
    }
    assert sorted[..|sorted|] == sorted;
    n := j + 1;
  }

  method SortArray(runes: array<Rng>)
    modifies runes
    ensures runes[..] == Sort(old(runes[..]))
  {
    var sorted := Sort(runes[..]);
    forall i | 0 <= i < runes.Length {
      runes[i] := sorted[i];
    }
  }

  // ---------------------------------------------------------------- all runes

  const AnyRune: seq<Rng> := [Rng(0, MaxRune)]

  /** Joined ranges that start with 0 are one range. */
  lemma {:induction false} JoinFromZero(rs: seq<Rng>)
    requires Proper(rs) && rs != [] && forall i :: 0 <= i < |rs| ==> rs[i].lo == 0
    ensures |JoinAll(rs)| == 1 && JoinAll(rs)[0].lo == 0 && Proper(JoinAll(rs))
    ensures forall i :: 0 <= i < |rs| ==> rs[i].hi <= JoinAll(rs)[0].hi
  {
    var n := |rs| - 1;
    var init := rs[..n];
    if init != [] {
      assert forall i :: 0 <= i < n ==> init[i] == rs[i];
      JoinFromZero(init);
      NextRuneIs(JoinAll(init)[0].hi);
    }
  }

  lemma JoinToAny(r: Rng)
    requires 0 <= r.lo <= r.hi <= MaxRune
    ensures Join(AnyRune, r) == AnyRune
  {
  }

  lemma {:induction false} JoinAny(rs: seq<Rng>, m: nat)
    requires Proper(rs) && m < |rs| && rs[m].hi == MaxRune && forall i :: 0 <= i <= m ==> rs[i].lo == 0
    ensures JoinAll(rs) == AnyRune
    decreases |rs|
  {
    var n := |rs| - 1;
    if m == n {
      JoinFromZero(rs);
      assert rs[m].hi <= JoinAll(rs)[0].hi;
    } else {
      assert forall i :: 0 <= i < n ==> rs[..n][i] == rs[i];
      JoinAny(rs[..n], m);
      JoinToAny(rs[n]);
    }
  }

  /** With a range of all runes the minimal form is that range. */
  lemma MinRangesAny(rs: seq<Rng>)
    requires Proper(rs) && Rng(0, MaxRune) in rs
    ensures MinRanges(rs) == AnyRune
  {
    SortKeeps(rs);
    var t := Sort(rs);
    assert forall i :: 0 <= i < |t| ==> t[i] in rs;
    var m :| 0 <= m < |t| && t[m] == Rng(0, MaxRune);
    JoinAny(t, m);
  }

  // ---------------------------------------------------------------- rangeexcl

  /** Both lists end with the largest rune: there the code wraps around. */
  predicate BothMax(a: seq<Rng>, b: seq<Rng>)
  {
    a != [] && b != [] && a[|a| - 1].hi == MaxRune && b[|b| - 1].hi == MaxRune
  }

  /** The last range of a is the last one of out. */
  predicate KeepsLast(a: seq<Rng>, out: seq<Rng>)
  {
    a != [] && out != [] && out[|out| - 1] == a[|a| - 1]
  }

  ghost predicate Listed(rs: seq<Rng>) { Proper(rs) && Apart(rs) }

  ghost predicate Difference(a: seq<Rng>, b: seq<Rng>, out: seq<Rng>)
  {
    Listed(out) && forall x :: In(x, out) <==> In(x, a) && !In(x, b)
  }

  /** out holds what is in the first k ranges of a, and below p in the next one, but not in b. */
  ghost predicate Excluded(a: seq<Rng>, b: seq<Rng>, k: nat, p: int, out: seq<Rng>)
  {
    && k <= |a| && Listed(out)
    && (forall x :: In(x, out) <==> !In(x, b) && (In(x, a[..k]) || (k < |a| && a[k].lo <= x < p)))
    && (out != [] ==> out[|out| - 1].hi < p)
  }

  /** The ranges of b before j end before p, and the others start behind those. */
  ghost predicate Behind(b: seq<Rng>, j: nat, p: int)
  {
    j <= |b| && forall h :: 0 <= h < j ==> b[h].hi < p
  }

  lemma NotBetween(b: seq<Rng>, j: nat, lo: int, hi: int)
    requires Listed(b) && Behind(b, j, lo) && (j < |b| ==> hi < b[j].lo)
    ensures forall x :: lo <= x <= hi ==> !In(x, b)
  {
    forall x | lo <= x <= hi
      ensures !In(x, b)
    {
      forall i | 0 <= i < |b|
        ensures !(b[i].lo <= x <= b[i].hi)
      {
        if i > j {
          assert b[j].hi < b[i].lo;
        }
      }
    }
  }

  lemma AppendListed(out: seq<Rng>, r: Rng)
    requires Listed(out) && 0 <= r.lo <= r.hi <= MaxRune && (out != [] ==> out[|out| - 1].hi < r.lo)
    ensures Listed(out + [r])
  {
    var k := |out| - 1;
    forall i | 0 <= i < |out|
      ensures out[i].hi < r.lo
    {
      if i < k {
        assert out[i].hi < out[k].lo;
      }
    }
  }

  /** A stretch up to hi, free of b, is taken. */
  lemma TakeFree(a: seq<Rng>, b: seq<Rng>, k: nat, p: int, out: seq<Rng>, j: nat, hi: int)
    requires Listed(a) && Listed(b) && k < |a| && Excluded(a, b, k, p, out) && Behind(b, j, p)
    requires a[k].lo <= p <= hi <= a[k].hi && (j < |b| ==> hi < b[j].lo)
    ensures Excluded(a, b, k, hi + 1, out + [Rng(p, hi)])
  {
    NotBetween(b, j, p, hi);
    AppendListed(out, Rng(p, hi));
    var out' := out + [Rng(p, hi)];
    forall x
      ensures In(x, out') <==> !In(x, b) && (In(x, a[..k]) || a[k].lo <= x < hi + 1)
    {
      InAppend(x, out, [Rng(p, hi)]);
      InOne(x, Rng(p, hi));
    }
  }

  /** Runes of b are left out. */
  lemma LeaveOut(a: seq<Rng>, b: seq<Rng>, k: nat, p: int, out: seq<Rng>, j: nat, q: int)
    requires k < |a| && Excluded(a, b, k, p, out) && j < |b|
    requires a[k].lo <= p <= q && b[j].lo <= p && q <= b[j].hi + 1
    ensures Excluded(a, b, k, q, out)
  {
    forall x | p <= x < q
      ensures In(x, b)
    {
      assert b[j].lo <= x <= b[j].hi;
    }
  }

  /** All of range k has been looked at. */
  lemma NextRange(a: seq<Rng>, b: seq<Rng>, k: nat, out: seq<Rng>, q: int)
    requires Listed(a) && k < |a| && Excluded(a, b, k, a[k].hi + 1, out)
    requires q > a[k].hi && (k + 1 < |a| ==> q == a[k + 1].lo)
    ensures Excluded(a, b, k + 1, q, out)
  {
    assert a[..k + 1] == a[..k] + [a[k]];
    forall x
      ensures In(x, a[..k + 1]) <==> In(x, a[..k]) || a[k].lo <= x <= a[k].hi
    {
      InAppend(x, a[..k], [a[k]]);
      InOne(x, a[k]);
    }
  }

  lemma NothingExcluded(a: seq<Rng>, b: seq<Rng>, p: int)
    requires a != [] ==> p == a[0].lo
    ensures Excluded(a, b, 0, p, [])
  {
    assert a[..0] == [];
  }

  lemma AllExcluded(a: seq<Rng>, b: seq<Rng>, p: int, out: seq<Rng>)
    requires Excluded(a, b, |a|, p, out)
    ensures Difference(a, b, out)
  {
    assert a[..|a|] == a;
  }

  lemma NothingBehind(b: seq<Rng>, p: int)
    ensures Behind(b, 0, p)
  {
  }

  lemma BehindUp(b: seq<Rng>, j: nat, p: int, q: int, r: int)
    requires Behind(b, j, p) && p <= q && q <= r
    ensures Behind(b, j, r)
  {
  }

  /** Only the last range can reach the largest rune. */
  lemma NotLast(rs: seq<Rng>, k: nat)
    requires Listed(rs) && k + 1 < |rs|
    ensures rs[k].hi < MaxRune
  {
    assert rs[k].hi < rs[k + 1].lo <= rs[k + 1].hi;
  }

  lemma BelowMax(a: seq<Rng>, b: seq<Rng>, k: nat, j: nat)
    requires Listed(a) && Listed(b) && !BothMax(a, b) && k < |a| && j < |b| && b[j].hi <= a[k].hi
    ensures b[j].hi < MaxRune
  {
    if k + 1 < |a| {
      NotLast(a, k);
    }
    if j + 1 < |b| {
      NotLast(b, j);
    }
  }

  lemma BehindNext(b: seq<Rng>, j: nat, p: int)
    requires Listed(b) && j < |b| && b[j].hi < p
    ensures Behind(b, j + 1, p)
  {
  }

  lemma BehindLater(b: seq<Rng>, j: nat, p: int)
    requires Listed(b) && j < |b| && b[j].lo <= p
    ensures Behind(b, j, p)
  {
  }

  lemma LastIn(rs: seq<Rng>)
    requires Proper(rs) && rs != [] && rs[|rs| - 1].hi == MaxRune
    ensures In(MaxRune, rs)
  {
  }

  lemma MaxInBoth(a: seq<Rng>, b: seq<Rng>, out: seq<Rng>)
    requires Proper(b) && BothMax(a, b) && Proper(out) && out != [] && out[|out| - 1].hi == MaxRune
    ensures !Difference(a, b, out)
  {
    LastIn(b);
    LastIn(out);
  }

  lemma AppendProper(out: seq<Rng>, r: Rng)
    requires Proper(out) && 0 <= r.lo <= r.hi <= MaxRune
    ensures Proper(out + [r])
  {
  }

  /** rangeexcl: what is in runes1 and not in runes2, unless both end with the largest rune; then the whole
      last range of runes1 is left in. */
  method RangeExcl(runes1: seq<Rng>, runes2: seq<Rng>) returns (out: seq<Rng>)
    requires Listed(runes1) && Proper(runes2)
    ensures Listed(runes2) ==> (Difference(runes1, runes2, out) <==> !BothMax(runes1, runes2))
    ensures Proper(out)
    ensures BothMax(runes1, runes2) ==> KeepsLast(runes1, out)
  {
    hide In, Excluded, Behind;
    out := [];
    var j := 0;
    ghost var both := BothMax(runes1, runes2);
    ghost var exact := Listed(runes2) && !both;
    ghost var next := if runes1 == [] then 0 else runes1[0].lo;
    NothingExcluded(runes1, runes2, next);
    NothingBehind(runes2, next);
    for k := 0 to |runes1|
      invariant j <= |runes2| && Proper(out)
      invariant k < |runes1| ==> next == runes1[k].lo
      invariant exact ==> Excluded(runes1, runes2, k, next, out) && Behind(runes2, j, next)
      invariant both && k < |runes1| ==> j < |runes2|
      invariant both && k == |runes1| ==> KeepsLast(runes1, out)
    {
      var v := runes1[k];
      var p := v.lo;
      var more := true;
      if k + 1 < |runes1| {
        NotLast(runes1, k);
      }
      while more && j < |runes2| && runes2[j].lo <= v.hi
        invariant j <= |runes2| && v.lo <= p && Proper(out)
        invariant exact ==> p <= v.hi + 1 && Excluded(runes1, runes2, k, p, out) && Behind(runes2, j, p)
        invariant exact && more ==> p == v.lo || (0 < j && p == runes2[j - 1].hi + 1)
        invariant !more ==> p == v.hi + 1 && j < |runes2| && v.hi < runes2[j].hi
        invariant both && k + 1 < |runes1| ==> j < |runes2|
        invariant both && k + 1 == |runes1| ==> more && (j < |runes2| || p == v.lo)
        decreases |runes2| - j, more
      {
        ghost var b := runes2[j];
        ghost var from := p;
        if p < runes2[j].lo {
          AppendProper(out, Rng(p, b.lo - 1));
          if exact {
            TakeFree(runes1, runes2, k, p, out, j, b.lo - 1);
          }
          out := out + [Rng(p, runes2[j].lo - 1)];
          from := b.lo;
        }
        if v.hi >= runes2[j].hi {
          p := Wrap(runes2[j].hi + 1);
          if p < v.lo {
            p := v.lo;
          }
          if exact {
            BelowMax(runes1, runes2, k, j);
            if from < p {
              LeaveOut(runes1, runes2, k, from, out, j, p);
            }
            BehindNext(runes2, j, p);
          }
          j := j + 1;
        } else {
          if exact {
            LeaveOut(runes1, runes2, k, from, out, j, v.hi + 1);
            BehindLater(runes2, j, v.hi + 1);
          }
          p := v.hi + 1;
          more := false;
        }
      }
      if more && p <= v.hi {
        AppendProper(out, Rng(p, v.hi));
        if exact {
          TakeFree(runes1, runes2, k, p, out, j, v.hi);
        }
        out := out + [Rng(p, v.hi)];
      }
      next := if k + 1 < |runes1| then runes1[k + 1].lo else v.hi + 1;
      if exact {
        BehindUp(runes2, j, p, v.hi + 1, next);
        NextRange(runes1, runes2, k, out, next);
      }
    }
    if exact {
      AllExcluded(runes1, runes2, next, out);
    }
    if both {
      MaxInBoth(runes1, runes2, out);
    }
  }
}
