/** What the window evaluator of WindowModel does over a whole stream of records: which records are in
    the window, what each partition counts, and which records are offered, in which order. */
module WindowSpec {
  import opened Wrappers
  import opened WindowModel

  // ---------------------------------------------------------------- records

  function Blank(n: nat): seq<string> { seq(n, _ => "") }

  function Key(r: Rule, rc: Record): string
  {
    Join(Fill(r.parts, rc.fields, Blank(|r.parts|)))
  }

  predicate Passes(r: Rule, rc: Record) { AllTrue(Marks(r.filters, rc.fields)) }

  /** Every partition field is there. */
  ghost predicate Present(r: Rule, rc: Record)
  {
    forall k :: 0 <= k < |r.parts| ==> Has(rc.fields, r.parts[k])
  }

  ghost predicate Has(fields: seq<Field>, name: string)
  {
    exists i :: 0 <= i < |fields| && fields[i].name == name
  }

  /** Captured fields do not depend on what was captured before. */
  lemma {:induction false} FillAt(parts: seq<string>, fields: seq<Field>, a: seq<string>, b: seq<string>, k: nat)
    requires |a| == |b| == |parts| && k < |parts|
    requires Has(fields, parts[k])
    ensures Fill(parts, fields, a)[k] == Fill(parts, fields, b)[k]
  {
    var init, last := fields[..|fields| - 1], fields[|fields| - 1];
    if last.name != parts[k] {
      var i :| 0 <= i < |fields| && fields[i].name == parts[k];
      assert init[i].name == parts[k];
      FillAt(parts, init, a, b, k);
    }
  }

  lemma KeyAny(r: Rule, rc: Record, locals: seq<string>)
    requires Present(r, rc) && |locals| == |r.parts|
    ensures Join(Fill(r.parts, rc.fields, locals)) == Key(r, rc)
  {
    var a, b := Fill(r.parts, rc.fields, locals), Fill(r.parts, rc.fields, Blank(|r.parts|));
    forall k | 0 <= k < |r.parts|
      ensures a[k] == b[k]
    {
      FillAt(r.parts, rc.fields, locals, Blank(|r.parts|), k);
    }
    assert a == b;
  }

  // ---------------------------------------------------------------- what the stream means

  predicate Live(rc: Record) { rc.ts.Some? && rc.ts.value > 0 }

  /** Strictly increasing timestamps, and no partition field missing. */
  ghost predicate Stream(r: Rule, rs: seq<Record>)
  {
    && RuleOk(r)
    && (forall i :: 0 <= i < |rs| && Live(rs[i]) ==> Present(r, rs[i]))
    && (forall i, j :: 0 <= i < j < |rs| && rs[i].ts.Some? && rs[j].ts.Some? ==> rs[i].ts.value < rs[j].ts.value)
  }

  /** A stream of records after the epoch only. */
  ghost predicate Current(r: Rule, rs: seq<Record>)
  {
    && RuleOk(r)
    && (forall i :: 0 <= i < |rs| ==> rs[i].ts.Some? && rs[i].ts.value > 0 && Present(r, rs[i]))
    && (forall i, j :: 0 <= i < j < |rs| ==> rs[i].ts.value < rs[j].ts.value)
  }

  function Ts(rc: Record): int { if rc.ts.Some? then rc.ts.value else 0 }

  /** Where the window starts after n records: it hops once it has become too long. */
  function WMin(r: Rule, rs: seq<Record>, n: nat): int
    requires RuleOk(r) && n <= |rs|
  {
    if n == 0 then 0
    else
      var before, t := WMin(r, rs, n - 1), Ts(rs[n - 1]);
      if before + r.over <= t then Quotient(t - r.over, r.hop) * r.hop else before
  }

  predicate InWindow(r: Rule, rs: seq<Record>, n: nat, i: nat)
    requires RuleOk(r) && n <= |rs|
  {
    i < n && Passes(r, rs[i]) && Ts(rs[i]) >= WMin(r, rs, n)
  }

  /** How many of the first k records are in the window after n, in this partition. */
  function Members(r: Rule, rs: seq<Record>, n: nat, k: nat, key: string): nat
    requires RuleOk(r) && k <= n <= |rs|
  {
    if k == 0 then 0
    else Members(r, rs, n, k - 1, key) + if InWindow(r, rs, n, k - 1) && Key(r, rs[k - 1]) == key then 1 else 0
  }

  /** Record n, counted from 1, passes and finds its partition full. */
  predicate Fires(r: Rule, rs: seq<Record>, n: nat)
    requires RuleOk(r) && 0 < n <= |rs|
  {
    Passes(r, rs[n - 1]) && Members(r, rs, n, n, Key(r, rs[n - 1])) >= r.max
  }

  /** Record i was in the window and the partition of one of the records that fired. */
  ghost predicate Offered(r: Rule, rs: seq<Record>, n: nat, i: nat)
    requires RuleOk(r) && n <= |rs|
  {
    exists m :: OfferedBy(r, rs, n, i, m)
  }

  predicate OfferedBy(r: Rule, rs: seq<Record>, n: nat, i: nat, m: nat)
    requires RuleOk(r) && n <= |rs|
  {
    i < m <= n && Fires(r, rs, m) && InWindow(r, rs, m, i) && Key(r, rs[i]) == Key(r, rs[m - 1])
  }

  // ---------------------------------------------------------------- the window never moves back

  lemma HopBelow(a: int, hop: int)
    requires hop > 0 && a >= 0
    ensures 0 <= Quotient(a, hop) * hop <= a
    ensures forall m: int :: 0 <= m <= a && Multiple(m, hop) ==> m <= Quotient(a, hop) * hop
    ensures Multiple(Quotient(a, hop) * hop, hop)
  {
    var q := a / hop;
    Whole(a, hop);
    forall m: int | 0 <= m <= a && Multiple(m, hop)
      ensures m <= q * hop
    {
      var c :| m == c * hop;
      if c > q {
        MultiplesApart(c, q, hop);
      } else {
        MultiplesRise(c, q, hop);
      }
    }
    assert Multiple(q * hop, hop);
  }

  lemma Whole(a: int, hop: int)
    requires hop > 0 && a >= 0
    ensures 0 <= a / hop * hop <= a < a / hop * hop + hop
  {
    var q := a / hop;
    assert a == q * hop + a % hop;
    MultiplesRise(0, q, hop);
  }

  ghost predicate Multiple(m: int, hop: int) { exists c: int :: m == c * hop }

  lemma MultiplesApart(c: int, q: int, hop: int)
    requires hop > 0 && c > q
    ensures c * hop >= q * hop + hop
  {
    MultiplesRise(q + 1, c, hop);
    assert (q + 1) * hop == q * hop + hop;
  }

  lemma MultiplesRise(c: int, q: int, hop: int)
    requires hop > 0 && c <= q
    ensures c * hop <= q * hop
  {
    assert (q - c) * hop >= 0;
    assert (q - c) * hop == q * hop - c * hop;
  }

  /** The window starts at a multiple of the hop, moves forward only, and holds the latest record. */
  lemma {:induction false} WMinMoves(r: Rule, rs: seq<Record>, n: nat)
    requires Current(r, rs) && n <= |rs|
    ensures WMin(r, rs, n) >= 0 && Multiple(WMin(r, rs, n), r.hop)
    ensures n > 0 ==> WMin(r, rs, n - 1) <= WMin(r, rs, n) <= Ts(rs[n - 1])
  {
    if n == 0 {
      assert 0 == 0 * r.hop;
    } else {
      WMinMoves(r, rs, n - 1);
      var before, t := WMin(r, rs, n - 1), Ts(rs[n - 1]);
      if before + r.over <= t {
        HopBelow(t - r.over, r.hop);
      } else if n > 1 {
        assert Ts(rs[n - 2]) < t;
      }
    }
  }

  lemma {:induction false} WMinRises(r: Rule, rs: seq<Record>, m: nat, n: nat)
    requires Current(r, rs) && m <= n <= |rs|
    ensures WMin(r, rs, m) <= WMin(r, rs, n)
    decreases n
  {
    if m < n {
      WMinMoves(r, rs, n);
      WMinRises(r, rs, m, n - 1);
    }
  }

  // ---------------------------------------------------------------- what the state is

  /** The place of record i in the window after n records, offered by the first m of them. */
  ghost function Entry(r: Rule, rs: seq<Record>, n: nat, m: nat, i: nat): Ref
    requires RuleOk(r) && m <= n <= |rs| && i < n
  {
    var rc := rs[i];
    Ref(rc, Ts(rc), InWindow(r, rs, n, i), [if Passes(r, rc) then Key(r, rc) else ""], Offered(r, rs, m, i))
  }

  /** The window: the records in it, and the last record. */
  ghost function Window(r: Rule, rs: seq<Record>, n: nat, m: nat, k: nat): seq<Ref>
    requires RuleOk(r) && m <= n <= |rs| && k <= n
  {
    if k == 0 then []
    else Window(r, rs, n, m, k - 1) + if InWindow(r, rs, n, k - 1) || k == n then [Entry(r, rs, n, m, k - 1)] else []
  }

  /** The records that record n makes the evaluator offer, among the first k. */
  ghost function NewOffers(r: Rule, rs: seq<Record>, n: nat, k: nat): seq<nat>
    requires RuleOk(r) && 0 < n <= |rs| && k <= n
  {
    if k == 0 then []
    else NewOffers(r, rs, n, k - 1) + if IsNew(r, rs, n, k - 1) then [k - 1] else []
  }

  /** Record i is in the window and the partition of record n, and was not offered before. */
  ghost predicate IsNew(r: Rule, rs: seq<Record>, n: nat, i: nat)
    requires RuleOk(r) && 0 < n <= |rs|
  {
    InWindow(r, rs, n, i) && Key(r, rs[i]) == Key(r, rs[n - 1]) && !Offered(r, rs, n - 1, i)
  }

  /** All records offered, in order, by their place in the stream. */
  ghost function Output(r: Rule, rs: seq<Record>, n: nat): seq<nat>
    requires RuleOk(r) && n <= |rs|
  {
    if n == 0 then []
    else Output(r, rs, n - 1) + if Fires(r, rs, n) then NewOffers(r, rs, n, n) else []
  }

  ghost function Pick(rs: seq<Record>, at: seq<nat>): seq<Record>
    requires forall j :: 0 <= j < |at| ==> at[j] < |rs|
  {
    seq(|at|, j requires 0 <= j < |at| => rs[at[j]])
  }

  lemma {:induction false} NewOffersIn(r: Rule, rs: seq<Record>, n: nat, k: nat)
    requires RuleOk(r) && 0 < n <= |rs| && k <= n
    ensures forall i: nat :: i in NewOffers(r, rs, n, k) <==> i < k && IsNew(r, rs, n, i)
    ensures NoneTwice(NewOffers(r, rs, n, k))
  {
    hide IsNew;
    if k > 0 {
      NewOffersIn(r, rs, n, k - 1);
    }
  }

  ghost predicate NoneTwice(at: seq<nat>)
  {
    forall a, b :: 0 <= a < b < |at| ==> at[a] != at[b]
  }

  lemma NoneTwiceAppend(a: seq<nat>, b: seq<nat>)
    requires NoneTwice(a) && NoneTwice(b) && forall i: nat :: i in a ==> i !in b
    ensures NoneTwice(a + b)
  {
    forall h, k | 0 <= h < k < |a + b|
      ensures (a + b)[h] != (a + b)[k]
    {
      if h < |a| <= k {
        assert a[h] in a && b[k - |a|] in b;
      }
    }
  }

  lemma OfferedStep(r: Rule, rs: seq<Record>, n: nat, i: nat)
    requires RuleOk(r) && 0 < n <= |rs|
    ensures Offered(r, rs, n, i) <==> Offered(r, rs, n - 1, i) || OfferedBy(r, rs, n, i, n)
  {
    if Offered(r, rs, n, i) {
      var m: nat :| OfferedBy(r, rs, n, i, m);
      if m < n {
        assert OfferedBy(r, rs, n - 1, i, m);
      }
    }
    if Offered(r, rs, n - 1, i) {
      var m: nat :| OfferedBy(r, rs, n - 1, i, m);
      assert OfferedBy(r, rs, n, i, m);
    }
  }

  /** A record that fires offers what is new to it. */
  lemma OfferedNow(r: Rule, rs: seq<Record>, n: nat, i: nat)
    requires RuleOk(r) && 0 < n <= |rs|
    ensures Offered(r, rs, n, i) <==> Offered(r, rs, n - 1, i) || (Fires(r, rs, n) && IsNew(r, rs, n, i))
    ensures IsNew(r, rs, n, i) ==> i < n
    ensures Offered(r, rs, n - 1, i) ==> i < n
  {
    OfferedStep(r, rs, n, i);
    hide Fires;
  }

  lemma NoneOffered(r: Rule, rs: seq<Record>, i: nat)
    requires RuleOk(r)
    ensures !Offered(r, rs, 0, i)
  {
  }

  /** The output holds exactly the records offered, each once. */
  lemma {:induction false} OutputExact(r: Rule, rs: seq<Record>, n: nat)
    requires RuleOk(r) && n <= |rs|
    ensures forall i: nat :: i in Output(r, rs, n) <==> Offered(r, rs, n, i)
    ensures forall i: nat :: i in Output(r, rs, n) ==> i < n
    ensures NoneTwice(Output(r, rs, n))
  {
    if n > 0 {
      OutputExact(r, rs, n - 1);
      NewOffersIn(r, rs, n, n);
      forall i: nat
        ensures Offered(r, rs, n, i) <==> Offered(r, rs, n - 1, i) || (Fires(r, rs, n) && IsNew(r, rs, n, i))
        ensures IsNew(r, rs, n, i) ==> i < n && !Offered(r, rs, n - 1, i)
      {
        OfferedNow(r, rs, n, i);
      }
      hide NewOffers, Offered, Fires, IsNew, NoneTwice;
      if Fires(r, rs, n) {
        NoneTwiceAppend(Output(r, rs, n - 1), NewOffers(r, rs, n, n));
      }
    } else {
      forall i: nat
        ensures !Offered(r, rs, 0, i)
      {
        NoneOffered(r, rs, i);
      }
    }
  }

  // ---------------------------------------------------------------- one record more

  /** What the state is after the first n records. */
  ghost predicate Tracks(r: Rule, rs: seq<Record>, n: nat, s: State)
    requires RuleOk(r) && n <= |rs|
  {
    && |s.locals| == |r.parts| && s.wmin == WMin(r, rs, n) && s.wmax == (if n == 0 then 0 else Ts(rs[n - 1]))
    && s.win == Window(r, rs, n, n, n)
    && CountsAre(s.groups, r, rs, n, n)
    && InRange(Output(r, rs, n), |rs|) && s.out == Pick(rs, Output(r, rs, n))
  }

  /** Each partition counts its members among the first k records. */
  ghost predicate CountsAre(groups: map<string, int>, r: Rule, rs: seq<Record>, n: nat, k: nat)
    requires RuleOk(r) && k <= n <= |rs|
  {
    forall key :: Count(groups, key) == Members(r, rs, n, k, key)
  }

  ghost predicate InRange(at: seq<nat>, n: nat)
  {
    forall j :: 0 <= j < |at| ==> at[j] < n
  }

  /** After record n + 1 a record of the window before is in it, unless it expired. */
  lemma StaysIn(r: Rule, rs: seq<Record>, n: nat, i: nat, moves: bool)
    requires Current(r, rs) && n < |rs| && i < n
    requires moves <==> WMin(r, rs, n) + r.over <= Ts(rs[n])
    ensures InWindow(r, rs, n + 1, i) <==> InWindow(r, rs, n, i) && !(moves && Ts(rs[i]) < WMin(r, rs, n + 1))
    ensures !moves ==> WMin(r, rs, n + 1) == WMin(r, rs, n)
  {
    WMinMoves(r, rs, n + 1);
  }

  lemma NewestIn(r: Rule, rs: seq<Record>, n: nat)
    requires Current(r, rs) && n < |rs|
    ensures InWindow(r, rs, n + 1, n) <==> Passes(r, rs[n])
  {
    WMinMoves(r, rs, n + 1);
  }

  lemma {:induction false} KeepAppend(a: seq<Ref>, w: Ref, moves: bool, wmin: int)
    ensures Keep(a + [w], moves, wmin) == Keep(a, moves, wmin) + if w.ref && !Expired(w, moves, wmin) then [w] else []
  {
    assert (a + [w])[..|a|] == a;
  }

  /** Sliding keeps exactly the records that are still in the window. */
  lemma {:induction false} KeepWindow(r: Rule, rs: seq<Record>, n: nat, k: nat, moves: bool)
    requires Current(r, rs) && n < |rs| && k <= n
    requires moves <==> WMin(r, rs, n) + r.over <= Ts(rs[n])
    ensures Keep(Window(r, rs, n, n, k), moves, WMin(r, rs, n + 1)) == Window(r, rs, n + 1, n, k)
  {
    hide *;
    StreamRule(r, rs);
    if k == 0 {
      NoneKept(moves, WMin(r, rs, n + 1));
      NoWindow(r, rs, n);
    } else {
      KeepWindow(r, rs, n, k - 1, moves);
      KeepStep(r, rs, n, k, moves);
    }
  }

  lemma KeepStep(r: Rule, rs: seq<Record>, n: nat, k: nat, moves: bool)
    requires Current(r, rs) && RuleOk(r) && n < |rs| && 0 < k <= n
    requires moves <==> WMin(r, rs, n) + r.over <= Ts(rs[n])
    requires Keep(Window(r, rs, n, n, k - 1), moves, WMin(r, rs, n + 1)) == Window(r, rs, n + 1, n, k - 1)
    ensures Keep(Window(r, rs, n, n, k), moves, WMin(r, rs, n + 1)) == Window(r, rs, n + 1, n, k)
  {
    hide *;
    EntryExpires(r, rs, n, k - 1, moves);
    WindowStep(r, rs, n, n, k);
    WindowStep(r, rs, n + 1, n, k);
    KeepAppend(Window(r, rs, n, n, k - 1), Entry(r, rs, n, n, k - 1), moves, WMin(r, rs, n + 1));
  }

  lemma NoWindow(r: Rule, rs: seq<Record>, n: nat)
    requires RuleOk(r) && n < |rs|
    ensures Window(r, rs, n, n, 0) == [] && Window(r, rs, n + 1, n, 0) == []
  {
  }

  lemma WindowStep(r: Rule, rs: seq<Record>, n: nat, m: nat, k: nat)
    requires RuleOk(r) && m <= n <= |rs| && 0 < k <= n
    ensures Window(r, rs, n, m, k)
         == if InWindow(r, rs, n, k - 1) || k == n then Window(r, rs, n, m, k - 1) + [Entry(r, rs, n, m, k - 1)] else Window(r, rs, n, m, k - 1)
  {
  }

  lemma NoneKept(moves: bool, wmin: int)
    ensures Keep([], moves, wmin) == []
  {
  }

  // ---------------------------------------------------------------- counting down

  lemma ExitCounts(r: Rule, s: State, rc: Record, key: string)
    requires |s.locals| == |r.parts| && Present(r, rc) && Count(s.groups, Key(r, rc)) > 0
    ensures Count(Exit(r, s, rc).groups, key) == Count(s.groups, key) - if Key(r, rc) == key then 1 else 0
  {
    KeyAny(r, rc, s.locals);
  }

  lemma ExitAppend(r: Rule, s: State, a: seq<Ref>, w: Ref, moves: bool, wmin: int)
    requires |s.locals| == |r.parts|
    ensures var t := ExitAll(r, s, a, moves, wmin);
      ExitAll(r, s, a + [w], moves, wmin) == if Expired(w, moves, wmin) then Exit(r, t, w.rc) else t
  {
    assert (a + [w])[..|a|] == a;
  }

  lemma {:induction false} MembersRise(r: Rule, rs: seq<Record>, n: nat, k: nat, h: nat, key: string)
    requires RuleOk(r) && k <= h <= n <= |rs|
    ensures Members(r, rs, n, k, key) <= Members(r, rs, n, h, key)
    decreases h
  {
    if k < h {
      MembersRise(r, rs, n, k, h - 1, key);
    }
  }

  /** What a partition counts once the first k records have been looked at for leaving. */
  ghost function Left(r: Rule, rs: seq<Record>, n: nat, k: nat, key: string): int
    requires RuleOk(r) && k <= n < |rs|
  {
    Members(r, rs, n, n, key) - Members(r, rs, n, k, key) + Members(r, rs, n + 1, k, key)
  }

  lemma LeftStep(r: Rule, rs: seq<Record>, n: nat, k: nat, moves: bool, key: string)
    requires Current(r, rs) && n < |rs| && 0 < k <= n
    requires moves <==> WMin(r, rs, n) + r.over <= Ts(rs[n])
    ensures var i := k - 1; var gone := InWindow(r, rs, n, i) && !InWindow(r, rs, n + 1, i);
      && Left(r, rs, n, k, key) == Left(r, rs, n, i, key) - (if gone && Key(r, rs[i]) == key then 1 else 0)
      && (gone && Key(r, rs[i]) == key ==> Left(r, rs, n, i, key) > 0)
  {
    var i := k - 1;
    StaysIn(r, rs, n, i, moves);
    MembersRise(r, rs, n, k, n, key);
    hide InWindow, Key, WMin, Current;
  }

  /** Each partition counts down by the records that leave. */
  lemma StreamRule(r: Rule, rs: seq<Record>)
    requires Current(r, rs)
    ensures RuleOk(r)
  {
  }

  lemma NoneLeft(r: Rule, rs: seq<Record>, n: nat, moves: bool, s: State, key: string)
    requires RuleOk(r) && n < |rs| && |s.locals| == |r.parts| && CountsAre(s.groups, r, rs, n, n)
    ensures Count(ExitAll(r, s, Window(r, rs, n, n, 0), moves, WMin(r, rs, n + 1)).groups, key) == Left(r, rs, n, 0, key)
  {
    hide WMin, InWindow, Key;
  }

  lemma {:induction false} ExitMembers(r: Rule, rs: seq<Record>, n: nat, k: nat, moves: bool, s: State, key: string)
    requires Current(r, rs) && n < |rs| && k <= n && |s.locals| == |r.parts|
    requires moves <==> WMin(r, rs, n) + r.over <= Ts(rs[n])
    requires CountsAre(s.groups, r, rs, n, n)
    ensures Count(ExitAll(r, s, Window(r, rs, n, n, k), moves, WMin(r, rs, n + 1)).groups, key) == Left(r, rs, n, k, key)
    decreases k
  {
    hide *;
    StreamRule(r, rs);
    if k == 0 {
      NoneLeft(r, rs, n, moves, s, key);
    } else {
      var q := Key(r, rs[k - 1]);
      ExitMembers(r, rs, n, k - 1, moves, s, key);
      ExitMembers(r, rs, n, k - 1, moves, s, q);
      ExitStep(r, rs, n, k, moves, s, key);
    }
  }

  lemma ExitStep(r: Rule, rs: seq<Record>, n: nat, k: nat, moves: bool, s: State, key: string)
    requires Current(r, rs) && RuleOk(r) && n < |rs| && 0 < k <= n && |s.locals| == |r.parts|
    requires moves <==> WMin(r, rs, n) + r.over <= Ts(rs[n])
    requires var t := ExitAll(r, s, Window(r, rs, n, n, k - 1), moves, WMin(r, rs, n + 1));
      Count(t.groups, key) == Left(r, rs, n, k - 1, key) && Count(t.groups, Key(r, rs[k - 1])) == Left(r, rs, n, k - 1, Key(r, rs[k - 1]))
    ensures Count(ExitAll(r, s, Window(r, rs, n, n, k), moves, WMin(r, rs, n + 1)).groups, key) == Left(r, rs, n, k, key)
  {
    hide *;
    var i := k - 1;
    LeftStep(r, rs, n, k, moves, key);
    LeftStep(r, rs, n, k, moves, Key(r, rs[i]));
    EntryExpires(r, rs, n, i, moves);
    StreamPresent(r, rs, i);
    WindowStep(r, rs, n, n, k);
    ExitMore(r, s, Window(r, rs, n, n, i), Entry(r, rs, n, n, i), moves, WMin(r, rs, n + 1), key);
  }

  /** One more record is looked at for leaving. */
  lemma ExitMore(r: Rule, s: State, ws: seq<Ref>, w: Ref, moves: bool, wmin: int, key: string)
    requires |s.locals| == |r.parts| && Present(r, w.rc)
    requires Expired(w, moves, wmin) ==> Count(ExitAll(r, s, ws, moves, wmin).groups, Key(r, w.rc)) > 0
    ensures Count(ExitAll(r, s, ws + [w], moves, wmin).groups, key)
         == Count(ExitAll(r, s, ws, moves, wmin).groups, key) - if Expired(w, moves, wmin) && Key(r, w.rc) == key then 1 else 0
  {
    hide Key, ExitAll, Exit, Count, Present, Expired;
    ExitAppend(r, s, ws, w, moves, wmin);
    if Expired(w, moves, wmin) {
      ExitCounts(r, ExitAll(r, s, ws, moves, wmin), w.rc, key);
    }
  }

  lemma EntryExpires(r: Rule, rs: seq<Record>, n: nat, i: nat, moves: bool)
    requires Current(r, rs) && n < |rs| && i < n
    requires moves <==> WMin(r, rs, n) + r.over <= Ts(rs[n])
    ensures var w := Entry(r, rs, n, n, i);
      && w.rc == rs[i] && (w.ref <==> InWindow(r, rs, n, i)) && (InWindow(r, rs, n + 1, i) ==> w.ref && w == Entry(r, rs, n + 1, n, i))
      && (Expired(w, moves, WMin(r, rs, n + 1)) <==> InWindow(r, rs, n, i) && !InWindow(r, rs, n + 1, i))
  {
    StaysIn(r, rs, n, i, moves);
  }

  lemma StreamPresent(r: Rule, rs: seq<Record>, i: nat)
    requires Current(r, rs) && i < |rs|
    ensures Present(r, rs[i])
  {
  }

  // ---------------------------------------------------------------- offering

  lemma MarkedAppend(ws: seq<Ref>, w: Ref, key: string)
    ensures Marked(ws + [w], key) == Marked(ws, key) + [if Due(w, key) then w.(unq := true) else w]
    ensures Offers(ws + [w], key) == Offers(ws, key) + if Due(w, key) then [w.rc] else []
  {
    assert (ws + [w])[..|ws|] == ws;
  }

  lemma PickAppend(rs: seq<Record>, at: seq<nat>, i: nat)
    requires InRange(at, |rs|) && i < |rs|
    ensures InRange(at + [i], |rs|) && Pick(rs, at + [i]) == Pick(rs, at) + [rs[i]]
  {
  }

  lemma PickConcat(rs: seq<Record>, a: seq<nat>, b: seq<nat>)
    requires InRange(a, |rs|) && InRange(b, |rs|)
    ensures InRange(a + b, |rs|) && Pick(rs, a + b) == Pick(rs, a) + Pick(rs, b)
  {
  }

  /** The entry of a record that is new to one that fires is due, and no other entry is. */
  lemma EntryDue(r: Rule, rs: seq<Record>, n: nat, i: nat)
    requires RuleOk(r) && n < |rs| && i <= n && Fires(r, rs, n + 1)
    ensures var w := Entry(r, rs, n + 1, n, i);
      (Due(w, Key(r, rs[n])) <==> IsNew(r, rs, n + 1, i))
      && (if IsNew(r, rs, n + 1, i) then w.(unq := true) else w) == Entry(r, rs, n + 1, n + 1, i)
  {
    OfferedNow(r, rs, n + 1, i);
    hide Key, Fires, Offered, WMin;
  }

  /** Offering marks the entries and appends the records. */
  lemma {:induction false} OfferWindow(r: Rule, rs: seq<Record>, n: nat, k: nat)
    requires RuleOk(r) && n < |rs| && k <= n + 1 && Fires(r, rs, n + 1)
    ensures Marked(Window(r, rs, n + 1, n, k), Key(r, rs[n])) == Window(r, rs, n + 1, n + 1, k)
    ensures InRange(NewOffers(r, rs, n + 1, k), |rs|)
    ensures Offers(Window(r, rs, n + 1, n, k), Key(r, rs[n])) == Pick(rs, NewOffers(r, rs, n + 1, k))
  {
    hide Fires, Key, InWindow, Entry, Marked, Offers, IsNew, Pick, Window;
    if k == 0 {
      NothingOffered(rs, Key(r, rs[n]));
      EmptyWindows(r, rs, n);
    } else {
      var i := k - 1;
      OfferWindow(r, rs, n, i);
      WindowStep(r, rs, n + 1, n, k);
      WindowStep(r, rs, n + 1, n + 1, k);
      EntryDue(r, rs, n, i);
      OnlyInWindow(r, rs, n + 1, i);
      MarkedAppend(Window(r, rs, n + 1, n, i), Entry(r, rs, n + 1, n, i), Key(r, rs[n]));
      PickAppend(rs, NewOffers(r, rs, n + 1, i), i);
      assert NewOffers(r, rs, n + 1, k) == if IsNew(r, rs, n + 1, i) then NewOffers(r, rs, n + 1, i) + [i] else NewOffers(r, rs, n + 1, i);
      EntryRc(r, rs, n + 1, n, i);
    }
  }

  lemma EntryRc(r: Rule, rs: seq<Record>, n: nat, m: nat, i: nat)
    requires RuleOk(r) && m <= n <= |rs| && i < n
    ensures Entry(r, rs, n, m, i).rc == rs[i]
  {
  }

  lemma OnlyInWindow(r: Rule, rs: seq<Record>, n: nat, i: nat)
    requires RuleOk(r) && 0 < n <= |rs|
    ensures IsNew(r, rs, n, i) ==> InWindow(r, rs, n, i)
  {
  }

  lemma EmptyWindows(r: Rule, rs: seq<Record>, n: nat)
    requires RuleOk(r) && n < |rs|
    ensures Window(r, rs, n + 1, n, 0) == [] && Window(r, rs, n + 1, n + 1, 0) == []
  {
  }

  lemma NothingOffered(rs: seq<Record>, key: string)
    ensures Marked([], key) == [] && Offers([], key) == [] && Pick(rs, []) == []
  {
  }

  lemma {:induction false} SameWindow(r: Rule, rs: seq<Record>, n: nat, k: nat)
    requires RuleOk(r) && n < |rs| && k <= n + 1 && !Fires(r, rs, n + 1)
    ensures Window(r, rs, n + 1, n, k) == Window(r, rs, n + 1, n + 1, k)
  {
    hide Offered, Fires, InWindow, Key, Members, Window;
    if k > 0 {
      SameWindow(r, rs, n, k - 1);
      OfferedNow(r, rs, n + 1, k - 1);
      WindowStep(r, rs, n + 1, n, k);
      WindowStep(r, rs, n + 1, n + 1, k);
    } else {
      EmptyWindows(r, rs, n);
    }
  }

  // ---------------------------------------------------------------- every record keeps track

  /** What the window is once it has slid for record n + 1. */
  ghost predicate Slid(r: Rule, rs: seq<Record>, n: nat, t: State)
    requires RuleOk(r) && n < |rs|
  {
    && |t.locals| == |r.parts| && t.wmin == WMin(r, rs, n + 1) && t.wmax == Ts(rs[n])
    && t.win == Window(r, rs, n + 1, n, n) + [Fresh(rs[n], Ts(rs[n]))]
    && CountsAre(t.groups, r, rs, n + 1, n)
    && InRange(Output(r, rs, n), |rs|) && t.out == Pick(rs, Output(r, rs, n))
  }

  lemma SlideTracks(r: Rule, rs: seq<Record>, n: nat, s: State)
    requires Current(r, rs) && n < |rs| && Tracks(r, rs, n, s)
    ensures Slid(r, rs, n, Slide(r, s, rs[n], Ts(rs[n])))
  {
    var ts := Ts(rs[n]);
    var moves := Moves(r, s, ts);
    KeepWindow(r, rs, n, n, moves);
    var groups, m := ExitAll(r, s, s.win, moves, WMin(r, rs, n + 1)).groups, n + 1;
    forall key
      ensures Count(groups, key) == Members(r, rs, m, n, key)
    {
      ExitMembers(r, rs, n, n, moves, s, key);
    }
    assert NewMin(r, s, ts) == WMin(r, rs, n + 1);
    hide Current, ExitAll, Keep, Window, Members, Output, NewMin, WMin;
  }

  /** A record that does not pass changes nothing else. */
  lemma IgnoreTracks(r: Rule, rs: seq<Record>, n: nat, t: State)
    requires Current(r, rs) && n < |rs| && Slid(r, rs, n, t) && !Passes(r, rs[n])
    ensures Tracks(r, rs, n + 1, Match(r, t, |t.win| - 1, rs[n]))
  {
    SameWindow(r, rs, n, n);
    NewestIn(r, rs, n);
    WindowStep(r, rs, n + 1, n + 1, n + 1);
    NotYet(r, rs, n);
    assert !Fires(r, rs, n + 1);
    hide Window, WMin, Current, Offered, Fill, Key;
  }

  lemma NotYet(r: Rule, rs: seq<Record>, n: nat)
    requires RuleOk(r) && n < |rs|
    ensures !Offered(r, rs, n, n) && (!Fires(r, rs, n + 1) ==> !Offered(r, rs, n + 1, n))
  {
    OfferedNow(r, rs, n + 1, n);
  }

  /** The window with the newest record counted in. */
  lemma CountTracks(r: Rule, rs: seq<Record>, n: nat, t: State)
    requires Current(r, rs) && n < |rs| && Slid(r, rs, n, t) && Passes(r, rs[n])
    ensures var key := Key(r, rs[n]); var nw := |t.win| - 1;
      && nw >= 0 && t.win[nw := t.win[nw].(ref := true, ptn := [key])] == Window(r, rs, n + 1, n, n + 1)
      && Count(t.groups, key) + 1 == Members(r, rs, n + 1, n + 1, key)
      && CountsAre(t.groups[key := Count(t.groups, key) + 1], r, rs, n + 1, n + 1)
  {
    NewestIn(r, rs, n);
    var m := n + 1;
    assert forall q :: Members(r, rs, m, m, q) == Members(r, rs, m, n, q) + if Key(r, rs[n]) == q then 1 else 0;
    hide Members;
    WindowStep(r, rs, n + 1, n, n + 1);
    NotYet(r, rs, n);
    hide Window, WMin, Current, Offered, Key, Output;
  }

  /** The count in the window decides whether a record fires. */
  lemma FiresWhen(r: Rule, rs: seq<Record>, n: nat, t: State)
    requires Current(r, rs) && n < |rs| && Slid(r, rs, n, t) && Passes(r, rs[n])
    ensures RuleOk(r) && (Fires(r, rs, n + 1) <==> Count(t.groups, Key(r, rs[n])) + 1 >= r.max)
  {
    CountTracks(r, rs, n, t);
    hide Members, Slid, Key, CountsAre;
  }

  /** What counting a record does to the state. */
  lemma MatchIs(r: Rule, rs: seq<Record>, n: nat, t: State)
    requires Current(r, rs) && n < |rs| && Slid(r, rs, n, t) && Passes(r, rs[n])
    ensures |t.win| > 0 && |t.locals| == |r.parts|
    ensures
      var key := Key(r, rs[n]); var nw := |t.win| - 1; var count := Count(t.groups, key) + 1;
      var win := t.win[nw := t.win[nw].(ref := true, ptn := [key])];
      var m := Match(r, t, nw, rs[n]);
      && m.wmin == t.wmin && m.wmax == t.wmax && |m.locals| == |r.parts| && m.groups == t.groups[key := count]
      && m.win == (if count >= r.max then Marked(win, key) else win)
      && m.out == t.out + if count >= r.max then Offers(win, key) else []
  {
    StreamPresent(r, rs, n);
    KeyAny(r, rs[n], t.locals);
    CountTracks(r, rs, n, t);
    hide Window, WMin, Offered, Fill, Key, Members, Marked, Offers, Pick, Marks, Present, CountsAre, Slid, Output;
  }

  lemma MatchTracks(r: Rule, rs: seq<Record>, n: nat, t: State)
    requires Current(r, rs) && n < |rs| && Slid(r, rs, n, t) && Passes(r, rs[n])
    ensures Tracks(r, rs, n + 1, Match(r, t, |t.win| - 1, rs[n]))
  {
    var key := Key(r, rs[n]);
    FiresWhen(r, rs, n, t);
    StreamPresent(r, rs, n);
    KeyAny(r, rs[n], t.locals);
    CountTracks(r, rs, n, t);
    OutputExact(r, rs, n);
    SlidOut(r, rs, n, t);
    MatchIs(r, rs, n, t);
    hide Match, Fires, Window, WMin, Current, Offered, Fill, Key, NewOffers, Members, Marked, Offers, Pick, Marks, Present, Fresh, CountsAre, Slid, Output, RuleOk;
    OutputStep(r, rs, n + 1);
    if Fires(r, rs, n + 1) {
      OfferWindow(r, rs, n, n + 1);
      PickConcat(rs, Output(r, rs, n), NewOffers(r, rs, n + 1, n + 1));
    } else {
      SameWindow(r, rs, n, n + 1);
    }
  }

  lemma SlidOut(r: Rule, rs: seq<Record>, n: nat, t: State)
    requires RuleOk(r) && n < |rs| && Slid(r, rs, n, t)
    ensures |t.locals| == |r.parts| && t.wmin == WMin(r, rs, n + 1) && t.wmax == Ts(rs[n]) && |t.win| > 0
    ensures InRange(Output(r, rs, n), |rs|) && t.out == Pick(rs, Output(r, rs, n))
  {
  }

  lemma OutputStep(r: Rule, rs: seq<Record>, n: nat)
    requires RuleOk(r) && 0 < n <= |rs|
    ensures Output(r, rs, n) == if Fires(r, rs, n) then Output(r, rs, n - 1) + NewOffers(r, rs, n, n) else Output(r, rs, n - 1)
  {
  }

  /** Every record keeps the state on track. */
  lemma NextTracks(r: Rule, rs: seq<Record>, n: nat, s: State)
    requires Current(r, rs) && n < |rs| && Tracks(r, rs, n, s)
    ensures Tracks(r, rs, n + 1, Next(r, s, rs[n]))
  {
    SlideTracks(r, rs, n, s);
    assert s.wmax < Ts(rs[n]) && rs[n].ts.Some?;
    hide Tracks, Slid, Slide, Match, Current;
    var t := Slide(r, s, rs[n], Ts(rs[n]));
    if Passes(r, rs[n]) {
      MatchTracks(r, rs, n, t);
    } else {
      IgnoreTracks(r, rs, n, t);
    }
  }

  function After(r: Rule, rs: seq<Record>): (s: State)
    requires RuleOk(r)
    ensures |s.locals| == |r.parts|
  {
    if rs == [] then Initial(r) else Next(r, After(r, rs[..|rs| - 1]), rs[|rs| - 1])
  }

  lemma NothingTracks(r: Rule, rs: seq<Record>)
    requires Current(r, rs)
    ensures Tracks(r, rs, 0, After(r, rs[..0]))
  {
    assert rs[..0] == [];
    assert forall key :: Members(r, rs, 0, 0, key) == 0;
  }

  lemma {:induction false} StreamTracks(r: Rule, rs: seq<Record>, n: nat)
    requires Current(r, rs) && n <= |rs|
    ensures Tracks(r, rs, n, After(r, rs[..n]))
    decreases n
  {
    hide Tracks, Next;
    if n == 0 {
      NothingTracks(r, rs);
    } else {
      StreamTracks(r, rs, n - 1);
      NextTracks(r, rs, n - 1, After(r, rs[..n - 1]));
      assert rs[..n][..n - 1] == rs[..n - 1];
    }
  }

  // ---------------------------------------------------------------- main results

  /** References of one partition in the window. */
  function Refs(ws: seq<Ref>, key: string): nat
  {
    if ws == [] then 0 else Refs(ws[..|ws| - 1], key) + if ws[|ws| - 1].ref && ws[|ws| - 1].ptn == [key] then 1 else 0
  }

  lemma RefsAppend(ws: seq<Ref>, w: Ref, key: string)
    ensures Refs(ws + [w], key) == Refs(ws, key) + if w.ref && w.ptn == [key] then 1 else 0
  {
    assert (ws + [w])[..|ws|] == ws;
  }

  lemma {:induction false} WindowRefs(r: Rule, rs: seq<Record>, n: nat, m: nat, k: nat, key: string)
    requires RuleOk(r) && m <= n <= |rs| && k <= n
    ensures Refs(Window(r, rs, n, m, k), key) == Members(r, rs, n, k, key)
  {
    hide InWindow, Offered, Key, Passes, WMin, Entry, Window, Refs, Members;
    if k == 0 {
      NoRefs(r, rs, n, m, key);
    } else {
      WindowStep(r, rs, n, m, k);
      WindowRefs(r, rs, n, m, k - 1, key);
      RefsAppend(Window(r, rs, n, m, k - 1), Entry(r, rs, n, m, k - 1), key);
      EntryRefers(r, rs, n, m, k - 1, key);
      MembersStep(r, rs, n, k, key);
    }
  }

  lemma NoRefs(r: Rule, rs: seq<Record>, n: nat, m: nat, key: string)
    requires RuleOk(r) && m <= n <= |rs|
    ensures Refs(Window(r, rs, n, m, 0), key) == Members(r, rs, n, 0, key)
  {
  }

  lemma EntryRefers(r: Rule, rs: seq<Record>, n: nat, m: nat, i: nat, key: string)
    requires RuleOk(r) && m <= n <= |rs| && i < n
    ensures var w := Entry(r, rs, n, m, i);
      (w.ref && w.ptn == [key]) <==> (InWindow(r, rs, n, i) && Key(r, rs[i]) == key)
    ensures Entry(r, rs, n, m, i).ref <==> InWindow(r, rs, n, i)
  {
    PassesIn(r, rs, n, i);
    hide Key, WMin, Offered, InWindow;
  }

  lemma MembersStep(r: Rule, rs: seq<Record>, n: nat, k: nat, key: string)
    requires RuleOk(r) && 0 < k <= n <= |rs|
    ensures Members(r, rs, n, k, key)
      == Members(r, rs, n, k - 1, key) + if InWindow(r, rs, n, k - 1) && Key(r, rs[k - 1]) == key then 1 else 0
  {
    hide Key, InWindow;
  }

  lemma PassesIn(r: Rule, rs: seq<Record>, n: nat, i: nat)
    requires RuleOk(r) && n <= |rs|
    ensures InWindow(r, rs, n, i) ==> i < n && Passes(r, rs[i]) && Ts(rs[i]) >= WMin(r, rs, n)
  {
  }

  lemma {:induction false} WindowTimes(r: Rule, rs: seq<Record>, n: nat, m: nat, k: nat)
    requires RuleOk(r) && m <= n <= |rs| && k <= n
    ensures forall w :: w in Window(r, rs, n, m, k) && w.ref ==> w.ts >= WMin(r, rs, n)
  {
    if k > 0 {
      WindowTimes(r, rs, n, m, k - 1);
      PassesIn(r, rs, n, k - 1);
    }
  }

  lemma CurrentExact(r: Rule, rs: seq<Record>)
    requires Current(r, rs)
    ensures Agrees(r, rs, After(r, rs))
  {
    var n := |rs|;
    StreamTracks(r, rs, n);
    assert rs[..n] == rs;
    OutputExact(r, rs, n);
    WindowTimes(r, rs, n, n, n);
    var s := After(r, rs);
    forall key
      ensures Count(s.groups, key) == Refs(s.win, key)
    {
      WindowRefs(r, rs, n, n, n, key);
    }
  }

  // ---------------------------------------------------------------- records that are not newer

  /** A record that comes twice: it is counted twice, and held once. */
  lemma SameRecordTwice()
    ensures
      var r := Rule([], ["k"], 10, 1, 9);
      var rc := Record(Some(1), [Field("k", "v")]);
      Balanced(After(r, [rc])) && !Balanced(After(r, [rc, rc]))
  {
    var r := Rule([], ["k"], 10, 1, 9);
    var rc := Record(Some(1), [Field("k", "v")]);
    var one, two := [rc], [rc, rc];
    assert one[..|one| - 1] == [] && two[..|two| - 1] == one;
    assert After(r, []) == Initial(r);
    AfterOne(r, rc);
    OnePresent(r, rc);
    assert RuleOk(r);
    var s := After(r, one);
    assert After(r, two) == Next(r, s, rc);
    hide *;
    CurrentExact(r, one);
    AgreesBalanced(r, one, s);
    LateRecord(r, s, rc);
  }

  lemma AgreesBalanced(r: Rule, rs: seq<Record>, s: State)
    requires RuleOk(r) && Agrees(r, rs, s)
    ensures Balanced(s)
  {
  }

  lemma OnePresent(r: Rule, rc: Record)
    requires r.parts == ["k"] && rc.fields == [Field("k", "v")] && RuleOk(r) && rc.ts == Some(1)
    ensures Current(r, [rc])
  {
    assert rc.fields[0].name == "k";
    assert Has(rc.fields, "k");
  }

  lemma AfterOne(r: Rule, rc: Record)
    requires RuleOk(r) && r.filters == [] && r.over == 10 && rc.ts == Some(1)
    ensures Passes(r, rc)
    ensures var s := Next(r, Initial(r), rc); |s.win| == 1 && s.win[0].ref && |s.win[0].ptn| == 1 && s.wmax == 1
  {
    assert |Marks(r.filters, rc.fields)| == 0;
    hide Fill, Marks, Join;
  }

  ghost predicate Balanced(s: State)
  {
    forall key :: Count(s.groups, key) == Refs(s.win, key)
  }

  lemma RefsLast(ws: seq<Ref>, w: Ref, key: string)
    requires ws != []
    ensures var last := ws[|ws| - 1];
      Refs(ws[|ws| - 1 := w], key) == Refs(ws, key) - (if last.ref && last.ptn == [key] then 1 else 0) + if w.ref && w.ptn == [key] then 1 else 0
  {
    var init := ws[..|ws| - 1];
    RefsAppend(init, w, key);
    RefsAppend(init, ws[|ws| - 1], key);
    assert ws[|ws| - 1 := w] == init + [w] && ws == init + [ws[|ws| - 1]];
  }

  lemma {:induction false} MarkedRefs(ws: seq<Ref>, key: string, q: string)
    ensures Refs(Marked(ws, key), q) == Refs(ws, q)
  {
    if ws != [] {
      var init, w := ws[..|ws| - 1], ws[|ws| - 1];
      MarkedRefs(init, key, q);
      MarkedAppend(init, w, key);
      RefsAppend(Marked(init, key), if Due(w, key) then w.(unq := true) else w, q);
      RefsAppend(init, w, q);
      assert ws == init + [w];
    }
  }

  /** Each partition counts the records in the window that refer to it, all of them inside the window,
      and exactly the records that are due have been offered, each once. */
  ghost predicate Agrees(r: Rule, rs: seq<Record>, s: State)
    requires RuleOk(r)
  {
    && (forall key :: Count(s.groups, key) == Refs(s.win, key))
    && (forall w :: w in s.win && w.ref ==> w.ts >= s.wmin)
    && InRange(Output(r, rs, |rs|), |rs|) && s.out == Pick(rs, Output(r, rs, |rs|))
    && NoneTwice(Output(r, rs, |rs|))
    && forall i: nat :: i in Output(r, rs, |rs|) <==> Offered(r, rs, |rs|, i)
  }

  /** The records with a timestamp after the epoch. */
  function Lively(rs: seq<Record>): seq<Record>
  {
    if rs == [] then [] else Lively(rs[..|rs| - 1]) + if Live(rs[|rs| - 1]) then [rs[|rs| - 1]] else []
  }

  lemma {:induction false} LivelyIn(rs: seq<Record>, i: nat) returns (k: nat)
    requires i < |Lively(rs)|
    ensures k < |rs| && Lively(rs)[i] == rs[k] && Live(rs[k])
  {
    var init := rs[..|rs| - 1];
    if i < |Lively(init)| {
      k := LivelyIn(init, i);
    } else {
      k := |rs| - 1;
    }
  }

  lemma {:induction false} LivelyCurrent(r: Rule, rs: seq<Record>)
    requires Stream(r, rs)
    ensures Current(r, Lively(rs))
  {
    if rs == [] {
    } else {
      var init, last := rs[..|rs| - 1], rs[|rs| - 1];
      LivelyCurrent(r, init);
      if Live(last) {
        forall i | 0 <= i < |Lively(init)|
          ensures Lively(init)[i].ts.value < last.ts.value
        {
          var k := LivelyIn(init, i);
          assert init[k] == rs[k];
        }
      }
    }
  }

  /** Records without a timestamp, and those at or before the epoch, change nothing. */
  lemma {:induction false} OnlyLively(r: Rule, rs: seq<Record>)
    requires Stream(r, rs)
    ensures After(r, rs) == After(r, Lively(rs))
  {
    if rs != [] {
      var init, last := rs[..|rs| - 1], rs[|rs| - 1];
      OnlyLively(r, init);
      var live := Lively(init);
      if Live(last) {
        assert (live + [last])[..|live|] == live;
      } else {
        assert Lively(rs) == live;
        assert live == [] ==> After(r, live) == Initial(r);
      }
      if !Live(last) && last.ts.Some? && live != [] {
        var k := LivelyIn(init, 0);
      }
    }
  }

  /** After every stream the state agrees with the records after the epoch; the others are neither
      counted nor offered. */
  lemma EvaluatorExact(r: Rule, rs: seq<Record>)
    requires Stream(r, rs)
    ensures Agrees(r, Lively(rs), After(r, rs))
  {
    OnlyLively(r, rs);
    LivelyCurrent(r, rs);
    CurrentExact(r, Lively(rs));
  }

  /** A record that is not newer than the latest one takes the place of that one in the window: the
      counts still agree with the window if and only if the record does not pass the filters or the
      latest one was not counted. */
  lemma LateRecord(r: Rule, s: State, rc: Record)
    requires RuleOk(r) && |s.locals| == |r.parts| && Balanced(s)
    requires rc.ts.Some? && rc.ts.value <= s.wmax && s.win != [] && |s.win[|s.win| - 1].ptn| == 1
    ensures Balanced(Next(r, s, rc)) <==> !(Passes(r, rc) && s.win[|s.win| - 1].ref)
  {
    var t := Next(r, s, rc);
    var last := s.win[|s.win| - 1];
    if Passes(r, rc) {
      var key := Join(Fill(r.parts, rc.fields, s.locals));
      var w := last.(ref := true, ptn := [key]);
      var win := s.win[|s.win| - 1 := w];
      forall q
        ensures Refs(t.win, q) == Refs(win, q)
        ensures Refs(win, q) == Refs(s.win, q) - (if last.ref && last.ptn == [q] then 1 else 0) + if key == q then 1 else 0
      {
        MarkedRefs(win, key, q);
        RefsLast(s.win, w, q);
      }
      assert forall q :: Count(t.groups, q) == Count(s.groups, q) + if key == q then 1 else 0;
      if last.ref {
        var q := last.ptn[0];
        assert last.ptn == [q];
        assert Count(t.groups, q) != Refs(t.win, q);
      }
    }
  }
}
