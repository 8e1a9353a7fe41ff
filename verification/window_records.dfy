/** What the window evaluator of WindowModel makes of single records: which ones pass the filters, which ones
    share a partition, where the window starts, and when a partition is full.  Said of the fields of the
    records and of their places in the stream. */
module WindowRecords {
  import opened Wrappers
  import opened WindowModel
  import opened WindowSpec

  // ---------------------------------------------------------------- filters

  predicate Hits(f: Filter, x: Field) { x.name == f.on && f.test(x.value) }

  /** The fields of the clause's name end with this many that satisfy its test. */
  function Tail(f: Filter, fields: seq<Field>): nat
  {
    if fields == [] then 0
    else
      var init, last := fields[..|fields| - 1], fields[|fields| - 1];
      if last.name != f.on then Tail(f, init) else if f.test(last.value) then Tail(f, init) + 1 else 0
  }

  ghost predicate Found(f: Filter, fields: seq<Field>) { exists i :: 0 <= i < |fields| && Hits(f, fields[i]) }

  lemma {:induction false} MarkExact(filters: seq<Filter>, fields: seq<Field>, k: nat)
    requires k < |filters|
    ensures Marks(filters, fields)[k] <==> if filters[k].negated then Tail(filters[k], fields) % 2 == 0 else Found(filters[k], fields)
  {
    if fields != [] {
      var init, last := fields[..|fields| - 1], fields[|fields| - 1];
      MarkExact(filters, init, k);
      var f := filters[k];
      assert forall i :: 0 <= i < |init| ==> init[i] == fields[i];
      if Found(f, init) {
        var i :| 0 <= i < |init| && Hits(f, init[i]);
        assert Hits(f, fields[i]);
      }
      if Hits(f, last) {
        assert Hits(f, fields[|fields| - 1]);
      }
    }
  }

  /** A record passes if and only if every plain clause finds a field of its name that satisfies its test,
      and for every negated clause the fields of its name end with an even number of those that do. */
  lemma PassesAlways(r: Rule, rc: Record)
    ensures Passes(r, rc) <==> forall k :: 0 <= k < |r.filters| ==>
      if r.filters[k].negated then Tail(r.filters[k], rc.fields) % 2 == 0 else Found(r.filters[k], rc.fields)
  {
    forall k | 0 <= k < |r.filters|
      ensures Marks(r.filters, rc.fields)[k] <==>
        if r.filters[k].negated then Tail(r.filters[k], rc.fields) % 2 == 0 else Found(r.filters[k], rc.fields)
    {
      MarkExact(r.filters, rc.fields, k);
    }
    hide Marks, Tail, Found;
  }

  /** No two fields have the name of the clause. */
  ghost predicate OnceAt(f: Filter, fields: seq<Field>)
  {
    forall i, j :: 0 <= i < j < |fields| && fields[i].name == f.on ==> fields[j].name != f.on
  }

  lemma {:induction false} TailOnce(f: Filter, fields: seq<Field>)
    requires OnceAt(f, fields)
    ensures Tail(f, fields) == if Found(f, fields) then 1 else 0
  {
    if fields != [] {
      var init, last := fields[..|fields| - 1], fields[|fields| - 1];
      TailOnce(f, init);
      assert forall i :: 0 <= i < |init| ==> init[i] == fields[i];
      if Found(f, init) {
        var i :| 0 <= i < |init| && Hits(f, init[i]);
        assert Hits(f, fields[i]) && last.name != f.on;
      }
      if last.name == f.on {
        forall i | 0 <= i < |init|
          ensures !Hits(f, init[i])
        {
        }
        assert Tail(f, init) == 0;
        if f.test(last.value) {
          assert Hits(f, fields[|fields| - 1]);
        }
      }
    }
  }

  /** A record with every filtered field once at most passes if and only if every plain clause has a field
      that satisfies its test, and no negated one has. */
  lemma PassesExact(r: Rule, rc: Record)
    requires forall k :: 0 <= k < |r.filters| ==> OnceAt(r.filters[k], rc.fields)
    ensures Passes(r, rc) <==> forall k :: 0 <= k < |r.filters| ==> (r.filters[k].negated <==> !Found(r.filters[k], rc.fields))
  {
    PassesAlways(r, rc);
    forall k | 0 <= k < |r.filters|
      ensures Tail(r.filters[k], rc.fields) == if Found(r.filters[k], rc.fields) then 1 else 0
    {
      TailOnce(r.filters[k], rc.fields);
    }
    hide Passes, Tail, Found, OnceAt;
  }

  /** A field that comes twice undoes itself: a record with two forbidden values passes. */
  lemma TwiceForbidden(test: string -> bool, v: string)
    requires test(v)
    ensures var r := Rule([Filter("k", test, true)], [], 10, 1, 1);
      && Passes(r, Record(Some(1), [Field("k", v), Field("k", v)]))
      && !Passes(r, Record(Some(1), [Field("k", v)]))
  {
    var f := Filter("k", test, true);
    var r := Rule([f], [], 10, 1, 1);
    var one, two := [Field("k", v)], [Field("k", v), Field("k", v)];
    assert one[..0] == [] && two[..1] == one;
    assert Tail(f, []) == 0 && Tail(f, one) == 1 && Tail(f, two) == 2;
    assert r.filters[0] == f;
    hide Passes, Tail, Found;
    PassesAlways(r, Record(Some(1), one));
    PassesAlways(r, Record(Some(1), two));
  }

  // ---------------------------------------------------------------- partitions

  /** The last field of this name has this value. */
  ghost predicate LastIs(fields: seq<Field>, name: string, v: string)
  {
    exists i :: 0 <= i < |fields| && fields[i] == Field(name, v) && forall j :: i < j < |fields| ==> fields[j].name != name
  }

  ghost predicate SameValue(a: Record, b: Record, name: string)
  {
    exists v :: LastIs(a.fields, name, v) && LastIs(b.fields, name, v)
  }

  /** No value of a partition field holds the separator. */
  ghost predicate Clean(r: Rule, rc: Record)
  {
    forall k, i :: 0 <= k < |r.parts| && 0 <= i < |rc.fields| && rc.fields[i].name == r.parts[k] ==> Plain(rc.fields[i].value)
  }

  predicate Plain(s: string) { forall i :: 0 <= i < |s| ==> s[i] as int != 0x1C }

  lemma {:induction false} LastFilled(parts: seq<string>, fields: seq<Field>, locals: seq<string>, k: nat)
    requires |locals| == |parts| && k < |parts| && Has(fields, parts[k])
    ensures LastIs(fields, parts[k], Fill(parts, fields, locals)[k])
  {
    var n := |fields| - 1;
    var init, last := fields[..n], fields[n];
    if last.name == parts[k] {
      assert fields[n] == Field(parts[k], last.value);
    } else {
      var i :| 0 <= i < |fields| && fields[i].name == parts[k];
      assert init[i].name == parts[k];
      LastFilled(parts, init, locals, k);
      LastLater(fields, parts[k], Fill(parts, init, locals)[k]);
    }
  }

  lemma LastLater(fields: seq<Field>, name: string, v: string)
    requires fields != [] && fields[|fields| - 1].name != name && LastIs(fields[..|fields| - 1], name, v)
    ensures LastIs(fields, name, v)
  {
    var init := fields[..|fields| - 1];
    var i :| 0 <= i < |init| && init[i] == Field(name, v) && forall j :: i < j < |init| ==> init[j].name != name;
    assert fields[i] == Field(name, v);
    assert forall j :: i < j < |init| ==> fields[j] == init[j];
  }

  lemma LastOne(fields: seq<Field>, name: string, v: string, w: string)
    requires LastIs(fields, name, v) && LastIs(fields, name, w)
    ensures v == w
  {
    var i :| 0 <= i < |fields| && fields[i] == Field(name, v) && forall j :: i < j < |fields| ==> fields[j].name != name;
    var h :| 0 <= h < |fields| && fields[h] == Field(name, w) && forall j :: h < j < |fields| ==> fields[j].name != name;
  }

  lemma {:induction false} JoinApart(a: seq<string>, b: seq<string>)
    requires |a| == |b| && (forall k :: 0 <= k < |a| ==> Plain(a[k]) && Plain(b[k]))
    ensures Join(a) == Join(b) <==> a == b
  {
    if |a| > 1 {
      var n := |a| - 1;
      var ai, bi := a[..n], b[..n];
      JoinApart(ai, bi);
      if Join(a) == Join(b) {
        SplitLast(Join(ai), a[n], Join(bi), b[n]);
        assert a == ai + [a[n]] && b == bi + [b[n]];
      }
    } else if |a| == 1 {
      assert a == [a[0]] && b == [b[0]];
    }
  }

  /** The last separator parts what is behind it. */
  lemma SplitLast(p: string, a: string, q: string, b: string)
    requires Plain(a) && Plain(b) && p + [0x1C as char] + a == q + [0x1C as char] + b
    ensures p == q && a == b
  {
    var s, t := p + [0x1C as char] + a, q + [0x1C as char] + b;
    assert s[|p|] as int == 0x1C && t[|q|] as int == 0x1C;
    PlainBehind(p, a);
    PlainBehind(q, b);
    assert |p| == |q|;
    assert s[..|p|] == p && t[..|q|] == q && s[|p| + 1..] == a && t[|q| + 1..] == b;
  }

  lemma PlainBehind(p: string, a: string)
    requires Plain(a)
    ensures var s := p + [0x1C as char] + a; forall i :: |p| < i < |s| ==> s[i] as int != 0x1C
  {
  }

  /** Two records are in one partition if and only if the last values of every partition field are equal. */
  lemma KeyExact(r: Rule, a: Record, b: Record)
    requires Present(r, a) && Present(r, b) && Clean(r, a) && Clean(r, b)
    ensures Key(r, a) == Key(r, b) <==> forall k :: 0 <= k < |r.parts| ==> SameValue(a, b, r.parts[k])
  {
    var n := |r.parts|;
    var x, y := Fill(r.parts, a.fields, Blank(n)), Fill(r.parts, b.fields, Blank(n));
    hide Join, Fill;
    forall k | 0 <= k < n
      ensures Plain(x[k]) && Plain(y[k]) && (x[k] == y[k] <==> SameValue(a, b, r.parts[k]))
    {
      LastFilled(r.parts, a.fields, Blank(n), k);
      LastFilled(r.parts, b.fields, Blank(n), k);
      if SameValue(a, b, r.parts[k]) {
        var v :| LastIs(a.fields, r.parts[k], v) && LastIs(b.fields, r.parts[k], v);
        LastOne(a.fields, r.parts[k], v, x[k]);
        LastOne(b.fields, r.parts[k], v, y[k]);
      }
    }
    JoinApart(x, y);
    hide Plain, SameValue;
    assert x == y <==> forall k :: 0 <= k < n ==> x[k] == y[k];
  }

  /** With the separator in a value, records with other values share a partition. */
  lemma SeparatorCollides()
    ensures var fs := [0x1C as char];
      var a, b := Record(Some(1), [Field("k", "x" + fs), Field("m", "y")]), Record(Some(1), [Field("k", "x"), Field("m", fs + "y")]);
      Key(Rule([], ["k", "m"], 10, 1, 1), a) == Key(Rule([], ["k", "m"], 10, 1, 1), b)
  {
    var fs := [0x1C as char];
    var r := Rule([], ["k", "m"], 10, 1, 1);
    KeyOfTwo(r, "x" + fs, "y");
    KeyOfTwo(r, "x", fs + "y");
    assert ("x" + fs) + fs + "y" == "x" + fs + (fs + "y");
  }

  lemma KeyOfTwo(r: Rule, v: string, w: string)
    requires r.parts == ["k", "m"]
    ensures Key(r, Record(Some(1), [Field("k", v), Field("m", w)])) == v + [0x1C as char] + w
  {
    var rc := Record(Some(1), [Field("k", v), Field("m", w)]);
    LastIsAt(rc.fields, 0);
    LastIsAt(rc.fields, 1);
    var x := Fill(r.parts, rc.fields, Blank(2));
    assert rc.fields[0].name == r.parts[0] && rc.fields[1].name == r.parts[1];
    LastFilled(r.parts, rc.fields, Blank(2), 0);
    LastFilled(r.parts, rc.fields, Blank(2), 1);
    LastOne(rc.fields, "k", v, x[0]);
    LastOne(rc.fields, "m", w, x[1]);
    hide Fill;
    assert x == [v, w] && [v, w][..1] == [v];
    assert Join([v]) == v;
    assert Join([v, w]) == v + [0x1C as char] + w;
    assert |r.parts| == 2 && Key(r, rc) == Join(x);
  }

  lemma LastIsAt(fields: seq<Field>, i: nat)
    requires i < |fields| && forall j :: i < j < |fields| ==> fields[j].name != fields[i].name
    ensures LastIs(fields, fields[i].name, fields[i].value)
  {
  }

  // ---------------------------------------------------------------- the window and the limit

  /** The window moves once the newest record is a whole length behind its start, and then to the last
      multiple of the hop that leaves it that length. */
  lemma WMinExact(r: Rule, rs: seq<Record>, n: nat)
    requires Current(r, rs) && 0 < n <= |rs|
    ensures var before, now, t := WMin(r, rs, n - 1), WMin(r, rs, n), Ts(rs[n - 1]);
      if t < before + r.over then now == before else Multiple(now, r.hop) && now <= t - r.over < now + r.hop
  {
    WMinMoves(r, rs, n - 1);
    var before, t := WMin(r, rs, n - 1), Ts(rs[n - 1]);
    if t >= before + r.over {
      HopBelow(t - r.over, r.hop);
      Whole(t - r.over, r.hop);
    }
  }

  /** The records in the window after n, in the partition of record m. */
  ghost function Together(r: Rule, rs: seq<Record>, n: nat, k: nat, key: string): set<nat>
    requires RuleOk(r) && k <= n <= |rs|
  {
    set i: nat | i < k && InWindow(r, rs, n, i) && Key(r, rs[i]) == key
  }

  lemma {:induction false} MembersAre(r: Rule, rs: seq<Record>, n: nat, k: nat, key: string)
    requires RuleOk(r) && k <= n <= |rs|
    ensures Members(r, rs, n, k, key) == |Together(r, rs, n, k, key)|
  {
    hide InWindow, Key;
    if k > 0 {
      MembersAre(r, rs, n, k - 1, key);
      var s := Together(r, rs, n, k - 1, key);
      if InWindow(r, rs, n, k - 1) && Key(r, rs[k - 1]) == key {
        assert Together(r, rs, n, k, key) == s + {k - 1};
      } else {
        assert Together(r, rs, n, k, key) == s;
      }
    } else {
      assert Together(r, rs, n, k, key) == {};
    }
  }

  /** A record fires if and only if it passes and with it at least as many records as the limit says are in
      the window and in its partition. */
  lemma FiresExact(r: Rule, rs: seq<Record>, n: nat)
    requires RuleOk(r) && 0 < n <= |rs|
    ensures Fires(r, rs, n) <==> Passes(r, rs[n - 1]) && r.max <= |Together(r, rs, n, n, Key(r, rs[n - 1]))|
  {
    MembersAre(r, rs, n, n, Key(r, rs[n - 1]));
  }

  /** The output only grows, and what one record adds is in the order of the stream. */
  lemma OutputOrder(r: Rule, rs: seq<Record>, n: nat)
    requires RuleOk(r) && 0 < n <= |rs|
    ensures var a, b := Output(r, rs, n - 1), Output(r, rs, n);
      a <= b && forall h, k :: |a| <= h < k < |b| ==> b[h] < b[k]
  {
    var a, b := Output(r, rs, n - 1), Output(r, rs, n);
    OffersRise(r, rs, n, n);
    var more := NewOffers(r, rs, n, n);
    hide NewOffers, Fires;
    if Fires(r, rs, n) {
      assert b == a + more;
      assert forall h :: |a| <= h < |b| ==> b[h] == more[h - |a|];
    }
  }

  ghost predicate Climbs(at: seq<nat>, k: nat)
  {
    (forall i :: 0 <= i < |at| ==> at[i] < k) && forall i, j :: 0 <= i < j < |at| ==> at[i] < at[j]
  }

  lemma {:induction false} OffersRise(r: Rule, rs: seq<Record>, n: nat, k: nat)
    requires RuleOk(r) && 0 < n <= |rs| && k <= n
    ensures Climbs(NewOffers(r, rs, n, k), k)
  {
    hide IsNew, Climbs;
    if k > 0 {
      OffersRise(r, rs, n, k - 1);
      ClimbsOn(NewOffers(r, rs, n, k - 1), k - 1);
      assert NewOffers(r, rs, n, k - 1) + [] == NewOffers(r, rs, n, k - 1);
    } else {
      ClimbsNone();
    }
  }

  lemma ClimbsNone()
    ensures Climbs([], 0)
  {
  }

  lemma ClimbsOn(at: seq<nat>, k: nat)
    requires Climbs(at, k)
    ensures Climbs(at, k + 1) && Climbs(at + [k], k + 1)
  {
  }
}
