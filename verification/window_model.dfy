/** The sliding-window evaluator of internal/piql (impeller.go, ops.go, windowfuncs.go) with one rule:
    filters, then a window "over ... hop ...", a partition "by ..." and a "limit".  With one rule the
    bitmaps of the code are single bits.  A send to the downstream channel is an offer, appended to
    out. */
module WindowModel {
  import opened Wrappers

  datatype Field = Field(name: string, value: string)

  /** A record, with the time its timestamp field gives, if it has one that parses. */
  datatype Record = Record(ts: Option<int>, fields: seq<Field>)

  /** One filter clause; test is the Step of what it holds, and negated that of a Not. */
  datatype Filter = Filter(on: string, test: string -> bool, negated: bool)

  datatype Rule = Rule(filters: seq<Filter>, parts: seq<string>, over: int, hop: int, max: int)

  datatype Ref = Ref(rc: Record, ts: int, ref: bool, ptn: seq<string>, unq: bool)

  datatype State = State(win: seq<Ref>, wmin: int, wmax: int, groups: map<string, int>, locals: seq<string>, ptn: string, out: seq<Record>)

  // ---------------------------------------------------------------- one record

  predicate Step(f: Filter, value: string) { if f.negated then !f.test(value) else f.test(value) }

  /** The clauses that stand when no field has been seen. */
  function WantNull(filters: seq<Filter>): seq<bool>
  {
    seq(|filters|, i requires 0 <= i < |filters| => filters[i].negated)
  }

  /** The clauses after one more field. */
  function MarkField(filters: seq<Filter>, f: Field, mtch: seq<bool>): seq<bool>
    requires |mtch| == |filters|
  {
    seq(|filters|, i requires 0 <= i < |filters| =>
      if filters[i].on != f.name then mtch[i]
      else if Step(filters[i], f.value) then true
      else if filters[i].negated then !mtch[i]
      else mtch[i])
  }

  function Marks(filters: seq<Filter>, fields: seq<Field>): (r: seq<bool>)
    ensures |r| == |filters|
  {
    if fields == [] then WantNull(filters)
    else MarkField(filters, fields[|fields| - 1], Marks(filters, fields[..|fields| - 1]))
  }

  /** The partition captures after one more field. */
  function FillField(parts: seq<string>, f: Field, locals: seq<string>): seq<string>
    requires |locals| == |parts|
  {
    seq(|parts|, k requires 0 <= k < |parts| => if parts[k] == f.name then f.value else locals[k])
  }

  function Fill(parts: seq<string>, fields: seq<Field>, locals: seq<string>): (r: seq<string>)
    requires |locals| == |parts|
    ensures |r| == |parts|
  {
    if fields == [] then locals
    else FillField(parts, fields[|fields| - 1], Fill(parts, fields[..|fields| - 1], locals))
  }

  /** strings.Join with the separator of the partition name. */
  function Join(ss: seq<string>): string
  {
    if ss == [] then "" else if |ss| == 1 then ss[0] else Join(ss[..|ss| - 1]) + [0x1C as char] + ss[|ss| - 1]
  }

  predicate AllTrue(bs: seq<bool>) { forall i :: 0 <= i < |bs| ==> bs[i] }

  // ---------------------------------------------------------------- the window

  /** Division of the source language: towards zero. */
  function Quotient(a: int, b: int): int
    requires b > 0
  {
    if a >= 0 then a / b else -(-a / b)
  }

  predicate RuleOk(r: Rule) { r.hop > 0 && r.over >= 0 }

  predicate Expired(w: Ref, moves: bool, wmin: int) { moves && w.ref && w.ts < wmin }

  /** opGroup.Exit for one record that leaves the window. */
  function Exit(r: Rule, s: State, rc: Record): State
    requires |s.locals| == |r.parts|
  {
    var locals := Fill(r.parts, rc.fields, s.locals);
    var key := Join(locals);
    s.(locals := locals, ptn := key, groups := if key in s.groups then s.groups[key := s.groups[key] - 1] else s.groups)
  }

  function ExitAll(r: Rule, s: State, ws: seq<Ref>, moves: bool, wmin: int): (t: State)
    requires |s.locals| == |r.parts|
    ensures |t.locals| == |r.parts|
    ensures t.win == s.win && t.wmin == s.wmin && t.wmax == s.wmax && t.out == s.out
  {
    if ws == [] then s
    else
      var t := ExitAll(r, s, ws[..|ws| - 1], moves, wmin);
      var w := ws[|ws| - 1];
      if Expired(w, moves, wmin) then Exit(r, t, w.rc) else t
  }

  function Keep(ws: seq<Ref>, moves: bool, wmin: int): seq<Ref>
  {
    if ws == [] then []
    else
      var w := ws[|ws| - 1];
      Keep(ws[..|ws| - 1], moves, wmin) + if w.ref && !Expired(w, moves, wmin) then [w] else []
  }

  function Fresh(rc: Record, ts: int): Ref { Ref(rc, ts, false, [""], false) }

  predicate Moves(r: Rule, s: State, ts: int) { s.wmin + r.over <= ts }

  function NewMin(r: Rule, s: State, ts: int): int
    requires RuleOk(r)
  {
    if Moves(r, s, ts) then Quotient(ts - r.over, r.hop) * r.hop else s.wmin
  }

  function Slide(r: Rule, s: State, rc: Record, ts: int): State
    requires RuleOk(r) && |s.locals| == |r.parts|
  {
    var wmin := NewMin(r, s, ts);
    ExitAll(r, s, s.win, Moves(r, s, ts), wmin)
      .(wmax := ts, wmin := wmin, win := Keep(s.win, Moves(r, s, ts), wmin) + [Fresh(rc, ts)])
  }

  predicate Due(w: Ref, key: string) { w.ref && !w.unq && w.ptn == [key] }

  function Marked(ws: seq<Ref>, key: string): seq<Ref>
  {
    seq(|ws|, j requires 0 <= j < |ws| => if Due(ws[j], key) then ws[j].(unq := true) else ws[j])
  }

  function Offers(ws: seq<Ref>, key: string): seq<Record>
  {
    if ws == [] then []
    else Offers(ws[..|ws| - 1], key) + if Due(ws[|ws| - 1], key) then [ws[|ws| - 1].rc] else []
  }

  function Count(groups: map<string, int>, key: string): int { if key in groups then groups[key] else 0 }

  /** Filters, partition, limit and offers for a record, whose place in the window is nw. */
  function Match(r: Rule, s: State, nw: nat, rc: Record): State
    requires nw < |s.win| && |s.locals| == |r.parts|
  {
    var locals := Fill(r.parts, rc.fields, s.locals);
    if !AllTrue(Marks(r.filters, rc.fields)) then s.(locals := locals)
    else
      var key := Join(locals);
      var count := Count(s.groups, key) + 1;
      var win := s.win[nw := s.win[nw].(ref := true, ptn := [key])];
      var t := s.(locals := locals, ptn := key, groups := s.groups[key := count], win := win);
      if count >= r.max then t.(win := Marked(win, key), out := s.out + Offers(win, key)) else t
  }

  /** One turn of Run. */
  function Next(r: Rule, s: State, rc: Record): (t: State)
    requires RuleOk(r) && |s.locals| == |r.parts|
    ensures |t.locals| == |r.parts|
  {
    if rc.ts.None? then s
    else if s.wmax < rc.ts.value then
      var t := Slide(r, s, rc, rc.ts.value);
      Match(r, t, |t.win| - 1, rc)
    else if s.win == [] then s
    else Match(r, s, |s.win| - 1, rc)
  }

  function Initial(r: Rule): State
  {
    State([], 0, 0, map[], seq(|r.parts|, _ => ""), "", [])
  }

  // ---------------------------------------------------------------- the evaluator

  class Evaluator {
    const rule: Rule
    var win: seq<Ref>
    var wmin: int
    var wmax: int
    var groups: map<string, int>
    var locals: seq<string>
    var ptn: string
    var out: seq<Record>

    ghost function Now(): State
      reads this
    {
      State(win, wmin, wmax, groups, locals, ptn, out)
    }

    ghost predicate Valid()
      reads this
    {
      RuleOk(rule) && |locals| == |rule.parts| && Named(win)
    }

    constructor (r: Rule)
      requires RuleOk(r)
      ensures Valid() && rule == r && Now() == Initial(r)
    {
      rule := r;
      win, wmin, wmax, groups, ptn, out := [], 0, 0, map[], "", [];
      locals := seq(|r.parts|, _ => "");
    }

    /** Step 1 of Run: one walk over the fields. */
    method Walk(rc: Record) returns (mtch: seq<bool>)
      requires Valid()
      modifies this`locals
      ensures mtch == Marks(rule.filters, rc.fields)
      ensures locals == Fill(rule.parts, rc.fields, old(locals))
    {
      mtch := WantNull(rule.filters);
      for k := 0 to |rc.fields|
        invariant mtch == Marks(rule.filters, rc.fields[..k])
        invariant |locals| == |rule.parts| && locals == Fill(rule.parts, rc.fields[..k], old(locals))
      {
        var f := rc.fields[k];
        assert rc.fields[..k + 1][..k] == rc.fields[..k];
        ghost var mtch0, locals0 := mtch, locals;
        for i := 0 to |mtch|
          invariant |mtch| == |mtch0| == |rule.filters|
          invariant forall h :: 0 <= h < i ==> mtch[h] == MarkField(rule.filters, f, mtch0)[h]
          invariant forall h :: i <= h < |mtch| ==> mtch[h] == mtch0[h]
        {
          if rule.filters[i].on == f.name {
            if Step(rule.filters[i], f.value) {
              mtch := mtch[i := true];
            } else if rule.filters[i].negated {
              mtch := mtch[i := !mtch[i]];
            }
          }
        }
        Capture(f);
      }
      assert rc.fields[..|rc.fields|] == rc.fields;
    }

    /** The opCapture nodes of one field. */
    method Capture(f: Field)
      requires |locals| == |rule.parts|
      modifies this`locals
      ensures |locals| == |rule.parts| && locals == FillField(rule.parts, f, old(locals))
    {
      for k := 0 to |locals|
        invariant |locals| == |old(locals)|
        invariant forall h :: 0 <= h < k ==> locals[h] == FillField(rule.parts, f, old(locals))[h]
        invariant forall h :: k <= h < |locals| ==> locals[h] == old(locals)[h]
      {
        if rule.parts[k] == f.name {
          locals := locals[k := f.value];
        }
      }
    }

    /** A record leaves the window: its fields are captured again, and its group counts one less. */
    method ExitRecord(rc: Record)
      requires |locals| == |rule.parts|
      modifies this`locals, this`ptn, this`groups
      ensures |locals| == |rule.parts| && Now() == Exit(rule, old(Now()), rc)
    {
      for k := 0 to |rc.fields|
        invariant |locals| == |rule.parts| && locals == Fill(rule.parts, rc.fields[..k], old(locals))
        invariant ptn == old(ptn) && groups == old(groups)
      {
        assert rc.fields[..k + 1][..k] == rc.fields[..k];
        Capture(rc.fields[k]);
      }
      assert rc.fields[..|rc.fields|] == rc.fields;
      var key := Join(locals);
      ptn := key;
      if key in groups {
        groups := groups[key := groups[key] - 1];
      }
    }

    /** slidewindow for a record with the timestamp ts: its place in the window, or -1. */
    method SlideWindow(rc: Record) returns (nw: int)
      requires Valid()
      modifies this
      ensures Valid()
      ensures rc.ts.None? || (rc.ts.value <= old(wmax) && old(win) == []) ==> nw == -1 && Now() == old(Now())
      ensures rc.ts.Some? && rc.ts.value > old(wmax) ==> nw == |win| - 1 >= 0 && Now() == Slide(rule, old(Now()), rc, rc.ts.value)
      ensures rc.ts.Some? && rc.ts.value <= old(wmax) && old(win) != [] ==> nw == |win| - 1 >= 0 && Now() == old(Now())
    {
      if rc.ts.None? {
        return -1;
      }
      var ts := rc.ts.value;
      if wmax < ts {
        wmax := ts;
      } else {
        return |win| - 1;
      }
      var inv := seq(|win|, _ => false);
      ghost var moves := wmin + rule.over <= wmax;
      if wmin + rule.over <= wmax {
        wmin := Quotient(wmax - rule.over, rule.hop) * rule.hop;
        inv := UnrefExpired();
      }
      ghost var win0 := old(win);
      assert Cleared(win0, moves, wmin, inv, win);
      ExitAllWith(rule, old(Now()), win0, moves, wmin, win, wmin, wmax);
      Compact(inv, win0, moves);
      KeepNamed(win0, moves, wmin);
      win := win + [Fresh(rc, ts)];
      return |win| - 1;
    }

    /** Step 2 of slidewindow: references to records before wmin are dropped. */
    method UnrefExpired() returns (inv: seq<bool>)
      modifies this`win
      ensures Cleared(old(win), true, wmin, inv, win)
    {
      inv := seq(|win|, _ => false);
      for j := 0 to |win|
        invariant |inv| == |win| == |old(win)|
        invariant forall h :: 0 <= h < |win| ==> inv[h] == (h < j && Expired(old(win)[h], true, wmin))
        invariant forall h :: 0 <= h < |win| ==> win[h] == if inv[h] then Unref(old(win)[h]) else old(win)[h]
      {
        if win[j].ref && win[j].ts < wmin {
          inv := inv[j := true];
          win := win[j := Unref(win[j])];
        }
      }
    }

    /** Step 3 of slidewindow: what left the window is counted down, and the window is compacted in
        place. */
    method Compact(inv: seq<bool>, ghost win0: seq<Ref>, ghost moves: bool)
      requires |locals| == |rule.parts| && Cleared(win0, moves, wmin, inv, win)
      modifies this`win, this`locals, this`ptn, this`groups
      ensures |locals| == |rule.parts|
      ensures Now() == ExitAll(rule, old(Now()), win0, moves, wmin).(win := Keep(win0, moves, wmin))
    {
      ghost var win1, s := win, Now();
      ClearedLength(win0, moves, wmin, inv, win1);
      CompactStart(rule, s, win0, win1, moves, wmin);
      hide ExitAll, Keep, Cleared, Exit, Compacted;
      var j := 0;
      for i := 0 to |win|
        invariant 0 <= j <= i <= |win| == |win1| && |win1| == |win0| && |locals| == |rule.parts|
        invariant Compacted(rule, s, win0, win1, moves, wmin, i, j, Now())
      {
        ClearedAt(win0, moves, wmin, inv, win1, i);
        CompactAt(rule, s, win0, win1, moves, wmin, i, j, Now());
        ghost var now := Now();
        if inv[i] {
          ExitRecord(win[i].rc);
        }
        if !win[i].ref {
          CompactDrop(rule, s, win0, win1, moves, wmin, i, j, now, Now());
          continue;
        }
        if i != j {
          win := win[j := win[i]];
        }
        CompactKeep(rule, s, win0, win1, moves, wmin, i, j, now, Now());
        j := j + 1;
      }
      CompactEnd(rule, s, win0, win1, moves, wmin, j, Now());
      win := win[..j];
    }

    /** One turn of Run: the window slides, the record is matched and counted, and the records of its
        partition are offered once there are enough. */
    method Process(rc: Record)
      requires Valid()
      modifies this
      ensures Valid() && Now() == Next(rule, old(Now()), rc)
    {
      hide Slide, Match;
      var nw := SlideWindow(rc);
      if nw == -1 {
        return;
      }
      MatchRecord(rc, nw);
    }

    /** Steps 1, 3 and 4 of Run. */
    method MatchRecord(rc: Record, nw: nat)
      requires Valid() && nw < |win|
      modifies this
      ensures Valid() && Now() == Match(rule, old(Now()), nw, rc)
    {
      hide Fill, Marks, Marked, Offers;
      var mtch := Walk(rc);
      if !AllTrue(mtch) {
        return;
      }
      var key := Join(locals);
      ptn := key;
      if key !in groups {
        groups := groups[key := 0];
      }
      groups := groups[key := groups[key] + 1];
      assert groups == old(groups)[key := Count(old(groups), key) + 1];
      win := win[nw := win[nw].(ref := true, ptn := win[nw].ptn[0 := ptn])];
      assert win[nw].ptn == [key];
      if groups[key] >= rule.max {
        Offer(key);
      }
    }

    /** Step 4 of Run: every record of the partition that was not offered yet is. */
    method Offer(ghost key: string)
      requires Named(win) && ptn == key
      modifies this`win, this`out
      ensures Named(win) && win == Marked(old(win), key) && out == old(out) + Offers(old(win), key)
    {
      ghost var win1 := win;
      for j := 0 to |win|
        invariant |win| == |win1| && Named(win)
        invariant forall h :: 0 <= h < |win| ==> win[h] == if h < j then Marked(win1, key)[h] else win1[h]
        invariant out == old(out) + Offers(win1[..j], key)
      {
        assert win1[..j + 1][..j] == win1[..j];
        assert Due(win[j], key) == (win[j].ref && !win[j].unq && win[j].ptn[0] == ptn);
        if win[j].ref && !win[j].unq && win[j].ptn[0] == ptn {
          win := win[j := win[j].(unq := true)];
          out := out + [win[j].rc];
        }
      }
      assert win1[..|win1|] == win1;
    }
  }

  /** The partition name of every record in the window is stored. */
  predicate Named(ws: seq<Ref>) { forall j :: 0 <= j < |ws| ==> |ws[j].ptn| == 1 }

  function Unref(w: Ref): Ref { w.(ref := false, ptn := if |w.ptn| > 0 then w.ptn[..0] else []) }

  /** win1 is win0 without the references to records before wmin, and inv says which those were. */
  ghost predicate Cleared(win0: seq<Ref>, moves: bool, wmin: int, inv: seq<bool>, win1: seq<Ref>)
  {
    && |inv| == |win1| == |win0|
    && (forall h :: 0 <= h < |win0| ==> inv[h] == Expired(win0[h], moves, wmin))
    && (forall h :: 0 <= h < |win0| ==> win1[h] == if Expired(win0[h], moves, wmin) then Unref(win0[h]) else win0[h])
  }

  lemma ClearedAt(win0: seq<Ref>, moves: bool, wmin: int, inv: seq<bool>, win1: seq<Ref>, i: nat)
    requires Cleared(win0, moves, wmin, inv, win1) && i < |win0|
    ensures inv[i] == Expired(win0[i], moves, wmin) && win1[i].rc == win0[i].rc
    ensures win1[i].ref <==> win0[i].ref && !inv[i]
    ensures !inv[i] ==> win1[i] == win0[i]
  {
  }

  lemma ClearedLength(win0: seq<Ref>, moves: bool, wmin: int, inv: seq<bool>, win1: seq<Ref>)
    requires Cleared(win0, moves, wmin, inv, win1)
    ensures |inv| == |win1| == |win0|
  {
  }

  /** The first i entries are compacted to the first j places, and what left is counted down. */
  ghost predicate Compacted(r: Rule, s: State, win0: seq<Ref>, win1: seq<Ref>, moves: bool, wmin: int, i: nat, j: nat, now: State)
  {
    && j <= i <= |win0| == |win1| && |now.win| == |win1| && |s.locals| == |r.parts| == |now.locals|
    && now.win[i..] == win1[i..] && now.win[..j] == Keep(win0[..i], moves, wmin)
    && now == ExitAll(r, s, win0[..i], moves, wmin).(win := now.win)
  }

  lemma CompactStart(r: Rule, s: State, win0: seq<Ref>, win1: seq<Ref>, moves: bool, wmin: int)
    requires |s.locals| == |r.parts| && s.win == win1 && |win0| == |win1|
    ensures Compacted(r, s, win0, win1, moves, wmin, 0, 0, s)
  {
    assert win0[..0] == [];
  }

  lemma CompactAt(r: Rule, s: State, win0: seq<Ref>, win1: seq<Ref>, moves: bool, wmin: int, i: nat, j: nat, now: State)
    requires Compacted(r, s, win0, win1, moves, wmin, i, j, now) && i < |win0|
    ensures j <= i < |now.win| && now.win[i] == win1[i]
  {
    assert now.win[i] == now.win[i..][0];
  }

  /** An entry that is left out; it is counted down if it just left the window. */
  lemma CompactDrop(r: Rule, s: State, win0: seq<Ref>, win1: seq<Ref>, moves: bool, wmin: int, i: nat, j: nat, now: State, then_: State)
    requires Compacted(r, s, win0, win1, moves, wmin, i, j, now) && i < |win0|
    requires !win0[i].ref || Expired(win0[i], moves, wmin)
    requires then_ == if Expired(win0[i], moves, wmin) then Exit(r, now, win0[i].rc) else now
    ensures Compacted(r, s, win0, win1, moves, wmin, i + 1, j, then_)
  {
    LeaveStep(r, s, win0, i, moves, wmin);
    Tails(now.win, win1, i);
    hide ExitAll, Keep;
    ExitWith(r, ExitAll(r, s, win0[..i], moves, wmin), win0[i].rc, now.win);
  }

  /** An entry that is kept, at the next place. */
  lemma CompactKeep(r: Rule, s: State, win0: seq<Ref>, win1: seq<Ref>, moves: bool, wmin: int, i: nat, j: nat, now: State, then_: State)
    requires Compacted(r, s, win0, win1, moves, wmin, i, j, now) && i < |win0|
    requires win0[i].ref && !Expired(win0[i], moves, wmin) && win1[i] == win0[i]
    requires then_ == now.(win := now.win[j := win0[i]])
    ensures Compacted(r, s, win0, win1, moves, wmin, i + 1, j + 1, then_)
  {
    LeaveStep(r, s, win0, i, moves, wmin);
    Tails(now.win, win1, i);
    hide ExitAll, Keep;
    assert then_.win[i + 1..] == now.win[i + 1..];
    assert then_.win[..j + 1] == now.win[..j] + [win0[i]];
  }

  lemma CompactEnd(r: Rule, s: State, win0: seq<Ref>, win1: seq<Ref>, moves: bool, wmin: int, j: nat, now: State)
    requires |win0| == |win1| && Compacted(r, s, win0, win1, moves, wmin, |win1|, j, now)
    ensures j <= |now.win| && |s.locals| == |r.parts|
    ensures now.(win := now.win[..j]) == ExitAll(r, s, win0, moves, wmin).(win := Keep(win0, moves, wmin))
  {
    assert win0[..|win0|] == win0;
  }

  lemma Tails(a: seq<Ref>, b: seq<Ref>, i: nat)
    requires i < |a| == |b| && a[i..] == b[i..]
    ensures a[i + 1..] == b[i + 1..]
  {
    assert a[i + 1..] == a[i..][1..] && b[i + 1..] == b[i..][1..];
  }

  lemma LeaveStep(r: Rule, s: State, win0: seq<Ref>, i: nat, moves: bool, wmin: int)
    requires |s.locals| == |r.parts| && i < |win0|
    ensures var init, w, ws := win0[..i], win0[i], win0[..i + 1];
      && Keep(ws, moves, wmin) == Keep(init, moves, wmin) + (if w.ref && !Expired(w, moves, wmin) then [w] else [])
      && ExitAll(r, s, ws, moves, wmin)
           == if Expired(w, moves, wmin) then Exit(r, ExitAll(r, s, init, moves, wmin), w.rc) else ExitAll(r, s, init, moves, wmin)
  {
    assert win0[..i + 1][..i] == win0[..i];
  }

  /** Leaving touches the groups and the captures only. */
  lemma {:induction false} ExitAllWith(r: Rule, s: State, ws: seq<Ref>, moves: bool, wmin: int, win1: seq<Ref>, wmin1: int, wmax1: int)
    requires |s.locals| == |r.parts|
    ensures ExitAll(r, s.(win := win1, wmin := wmin1, wmax := wmax1), ws, moves, wmin)
         == ExitAll(r, s, ws, moves, wmin).(win := win1, wmin := wmin1, wmax := wmax1)
  {
    if ws != [] {
      ExitAllWith(r, s, ws[..|ws| - 1], moves, wmin, win1, wmin1, wmax1);
    }
  }

  lemma ExitWith(r: Rule, s: State, rc: Record, ws: seq<Ref>)
    requires |s.locals| == |r.parts|
    ensures Exit(r, s, rc).(win := ws) == Exit(r, s.(win := ws), rc)
  {
  }

  lemma {:induction false} KeepNamed(ws: seq<Ref>, moves: bool, wmin: int)
    requires Named(ws)
    ensures Named(Keep(ws, moves, wmin))
  {
    if ws != [] {
      KeepNamed(ws[..|ws| - 1], moves, wmin);
    }
  }
}
