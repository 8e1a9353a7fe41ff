/** Which lines the matching machine of internal/mdt accepts, whatever the pattern ends in: those with a
    split in which every literal stands where it is met first. */
module PatternEager {
  import opened Wrappers
  import opened Strings
  import opened PatternSplit

  /** In the split ks, no literal stands already inside the stretch before it. */
  predicate Earliest(es: seq<Elem>, s: string, p: nat, ks: seq<nat>)
  {
    if es == [] then true
    else
      match es[0]
      case Lit(t) => Earliest(es[1..], s, p + |t|, ks)
      case Any => ks == [] || (NotBefore(es[1..], s, p, ks[0]) && Earliest(es[1..], s, p + ks[0], ks[1..]))
      case Open(_) => Earliest(es[1..], s, p, ks)
      case Close => Earliest(es[1..], s, p, ks)
  }

  /** The literal behind the ends of captures, if there is one, is not met in the first k places. */
  predicate NotBefore(es: seq<Elem>, s: string, p: nat, k: nat)
  {
    var j := Closes(es);
    j < |es| && es[j].Lit? ==> forall q :: p <= q < p + k ==> !At(s, q, es[j].t)
  }

  ghost predicate Eager(es: seq<Elem>, s: string, p: nat, ks: seq<nat>)
  {
    Splits(es, s, p, ks) && Earliest(es, s, p, ks)
  }

  /** Stretches with literals between them, and perhaps one behind the last. */
  predicate Stretches(es: seq<Elem>)
  {
    es != [] && ((es[0].Open? && Stretches(es[1..])) || (es[0].Any? && Behind(es[1..])))
  }

  predicate Behind(es: seq<Elem>)
  {
    || es == []
    || (es[0].Close? && Behind(es[1..]))
    || (es[0].Lit? && es[0].t != "" && (es[1..] == [] || Stretches(es[1..])))
  }

  lemma {:induction false} ClosesBehind(es: seq<Elem>, s: string, p: nat, ks: seq<nat>)
    ensures Behind(es) <==> Behind(es[Closes(es)..])
    ensures Earliest(es, s, p, ks) <==> Earliest(es[Closes(es)..], s, p, ks)
    decreases |es|
  {
    if es != [] && es[0].Close? {
      ClosesBehind(es[1..], s, p, ks);
      assert es[1..][Closes(es[1..])..] == es[Closes(es)..];
    } else {
      assert es[0..] == es;
    }
  }

  lemma StretchShape(es: seq<Elem>)
    requires Stretches(es) && es[0].Any?
    ensures var j := Closes(es[1..]);
      j == |es| - 1 || (1 + j < |es| && es[1 + j].Lit? && (es[2 + j..] == [] || Stretches(es[2 + j..])))
  {
    var j := Closes(es[1..]);
    ClosesBehind(es[1..], "", 0, []);
    DropTwice(es, 1, j);
    if j < |es| - 1 {
      DropTwice(es, 1 + j, 1);
    }
  }

  /** The first literal stands where it is met first, and the rest is eager behind it. */
  lemma EagerScan(es: seq<Elem>, s: string, p: nat, ks: seq<nat>)
    requires es != [] && es[0].Any? && p <= |s|
    requires var j := Closes(es[1..]); 1 + j < |es| && es[1 + j].Lit?
    ensures var j := Closes(es[1..]); var t := es[1 + j].t; var i := Index(s[p..], t);
      Eager(es, s, p, ks) <==> i >= 0 && ks != [] && ks[0] == i && Eager(es[2 + j..], s, p + i + |t|, ks[1..])
  {
    var j := Closes(es[1..]);
    var t := es[1 + j].t;
    StretchLiteral(es, s, p, ks);
    FirstMet(s, p, t);
    if ks != [] {
      ClosesBehind(es[1..], s, p + ks[0], ks[1..]);
      DropTwice(es, 1, j);
      DropTwice(es, 1 + j, 1);
      assert es[1..][j] == es[1 + j];
      EarliestHead(es, s, p, ks);
      hide Earliest, Closes, At, Index, Splits;
    }
  }

  lemma EarliestHead(es: seq<Elem>, s: string, p: nat, ks: seq<nat>)
    requires es != [] && es[0].Any? && ks != []
    requires var j := Closes(es[1..]); 1 + j < |es| && es[1 + j].Lit?
    ensures var j := Closes(es[1..]); var t := es[1 + j].t;
      Earliest(es, s, p, ks) <==> (forall q :: p <= q < p + ks[0] ==> !At(s, q, t)) && Earliest(es[1 + j..], s, p + ks[0], ks[1..])
    ensures var j := Closes(es[1..]); var t := es[1 + j].t;
      Earliest(es[1 + j..], s, p + ks[0], ks[1..]) <==> Earliest(es[2 + j..], s, p + ks[0] + |t|, ks[1..])
  {
    var j := Closes(es[1..]);
    ClosesBehind(es[1..], s, p + ks[0], ks[1..]);
    DropTwice(es, 1, j);
    DropTwice(es, 1 + j, 1);
    assert es[1..][j] == es[1 + j];
    hide At, Closes;
  }

  lemma FirstMet(s: string, p: nat, t: string)
    requires p <= |s|
    ensures var i := Index(s[p..], t);
      && (i >= 0 ==> At(s, p + i, t) && forall q :: p <= q < p + i ==> !At(s, q, t))
      && (i < 0 ==> forall q :: p <= q ==> !At(s, q, t))
  {
    var i := Index(s[p..], t);
    hide Index, At;
    if i >= 0 {
      AtShift(s, p, i, t);
    }
    forall q | p <= q && (i < 0 || q < p + i)
      ensures !At(s, q, t)
    {
      AtShift(s, p, q - p, t);
    }
  }

  /** A run that reaches the end of the line has followed an eager split, and there is at most one. */
  ghost predicate Follows(es: seq<Elem>, s: string, rp: nat, events: seq<Event>)
    requires rp <= |s|
  {
    var r := Exec(Ops(es), s, rp, events);
    && (forall ks :: Eager(es, s, rp, ks) ==> r == Some(Out(|s|, events + Events(es, rp, ks))))
    && (r.Some? && r.value.rp == |s| ==> exists ks :: Eager(es, s, rp, ks))
  }

  lemma FollowsOpen(es: seq<Elem>, s: string, rp: nat, events: seq<Event>)
    requires es != [] && es[0].Open? && rp <= |s|
    requires Follows(es[1..], s, rp, events + [Started(es[0].name, rp)])
    ensures Follows(es, s, rp, events)
  {
    assert Ops(es)[1..] == Ops(es[1..]);
    forall ks
      ensures Eager(es, s, rp, ks) <==> Eager(es[1..], s, rp, ks)
      ensures events + Events(es, rp, ks) == events + [Started(es[0].name, rp)] + Events(es[1..], rp, ks)
    {
    }
    var r := Exec(Ops(es), s, rp, events);
    hide Exec, Ops, Eager, Events;
    if r.Some? && r.value.rp == |s| {
      var ks :| Eager(es[1..], s, rp, ks);
      assert Eager(es, s, rp, ks);
    }
  }

  lemma FollowsNothing(s: string, rp: nat, events: seq<Event>)
    requires rp <= |s|
    ensures Follows([], s, rp, events)
  {
    assert Exec(Ops([]), s, rp, events) == Some(Out(rp, events));
    assert events + [] == events;
    if rp == |s| {
      assert Eager([], s, rp, []);
    }
  }

  lemma {:induction false} NoLiteralBehind(es: seq<Elem>, s: string, p: nat, ks: seq<nat>)
    requires Closes(es) == |es|
    ensures Earliest(es, s, p, ks)
  {
    if es != [] {
      NoLiteralBehind(es[1..], s, p, ks);
    }
  }

  lemma FollowsLast(es: seq<Elem>, s: string, rp: nat, events: seq<Event>)
    requires es != [] && es[0].Any? && Closes(es[1..]) == |es| - 1 && rp <= |s|
    ensures Follows(es, s, rp, events)
  {
    ExecLast(es, s, rp, events);
    LastOnly(es, s, rp);
    hide Exec, Ops, Events, Splits, Earliest;
    forall ks | Eager(es, s, rp, ks)
      ensures ks == [|s| - rp]
    {
      LastStretch(es, s, rp, ks);
    }
    assert Eager(es, s, rp, [|s| - rp]);
  }

  lemma LastOnly(es: seq<Elem>, s: string, rp: nat)
    requires es != [] && es[0].Any? && Closes(es[1..]) == |es| - 1 && rp <= |s|
    ensures Eager(es, s, rp, [|s| - rp])
  {
    LastStretch(es, s, rp, [|s| - rp]);
    NoLiteralBehind(es[1..], s, |s|, [|s| - rp][1..]);
  }

  lemma FollowsScan(es: seq<Elem>, s: string, rp: nat, events: seq<Event>)
    requires es != [] && es[0].Any? && rp <= |s|
    requires var j := Closes(es[1..]); 1 + j < |es| && es[1 + j].Lit?
    requires var j := Closes(es[1..]); var t := es[1 + j].t; var i := Index(s[rp..], t);
      i >= 0 ==> rp + i + |t| <= |s| && Follows(es[2 + j..], s, rp + i + |t|, events + Ends(j, rp + i))
    ensures Follows(es, s, rp, events)
  {
    hide Exec, Ops, Events, Splits, Eager, Index, Closes, Ends;
    var j := Closes(es[1..]);
    var t, rest := es[1 + j].t, es[2 + j..];
    var i := Index(s[rp..], t);
    ExecScan(es, s, rp, events);
    forall ks | Eager(es, s, rp, ks)
      ensures Exec(Ops(es), s, rp, events) == Some(Out(|s|, events + Events(es, rp, ks)))
    {
      EagerScan(es, s, rp, ks);
      StretchEvents(es, rp, ks);
      EventsAssoc(events, Ends(j, rp + i), Events(rest, rp + i + |t|, ks[1..]));
    }
    var r := Exec(Ops(es), s, rp, events);
    if r.Some? && r.value.rp == |s| {
      var ks :| Eager(rest, s, rp + i + |t|, ks);
      ConsTail(i, ks);
      EagerScan(es, s, rp, [i] + ks);
    }
  }

  lemma EventsAssoc(a: seq<Event>, b: seq<Event>, c: seq<Event>)
    ensures a + b + c == a + (b + c)
  {
  }

  lemma {:induction false} ExecFollows(es: seq<Elem>, s: string, rp: nat, events: seq<Event>)
    requires Stretches(es) && rp <= |s|
    ensures Follows(es, s, rp, events)
    decreases |es|
  {
    hide Follows, Exec, Ops;
    if es[0].Open? {
      ExecFollows(es[1..], s, rp, events + [Started(es[0].name, rp)]);
      FollowsOpen(es, s, rp, events);
    } else {
      StretchShape(es);
      var j := Closes(es[1..]);
      if j == |es| - 1 {
        FollowsLast(es, s, rp, events);
      } else {
        var t, rest := es[1 + j].t, es[2 + j..];
        var i := Index(s[rp..], t);
        ExecScan(es, s, rp, events);
        if i >= 0 {
          if rest == [] {
            FollowsNothing(s, rp + i + |t|, events + Ends(j, rp + i));
          } else {
            ExecFollows(rest, s, rp + i + |t|, events + Ends(j, rp + i));
          }
        }
        FollowsScan(es, s, rp, events);
      }
    }
  }

  // ---------------------------------------------------------------- whole patterns

  /** At most one literal first, then stretches. */
  predicate Pattern(es: seq<Elem>)
  {
    Stretches(es) || (es != [] && es[0].Lit? && es[0].t != "" && (es[1..] == [] || Stretches(es[1..])))
  }

  lemma {:induction false} StretchesOf(es: seq<Elem>)
    ensures BeforeAny(es) ==> Stretches(es)
    ensures AfterAny(es) ==> Behind(es)
    decreases |es|
  {
    if es != [] {
      StretchesOf(es[1..]);
    }
  }

  lemma {:induction false} StretchesAnd(es: seq<Elem>, t: string)
    requires t != ""
    ensures BeforeAny(es) ==> Stretches(es + [Lit(t)])
    ensures AfterAny(es) ==> Behind(es + [Lit(t)])
    decreases |es|
  {
    var all := es + [Lit(t)];
    if es == [] {
      assert all[1..] == [];
    } else {
      StretchesAnd(es[1..], t);
      assert all[1..] == es[1..] + [Lit(t)];
    }
  }

  lemma PatternOf(es: seq<Elem>)
    requires EndsInStretch(es) || EndsInLiteral(es) || OneLiteral(es)
    ensures Pattern(es)
  {
    if EndsInStretch(es) {
      StretchesOf(es);
      if !BeforeAny(es) {
        StretchesOf(es[1..]);
      }
    } else if EndsInLiteral(es) {
      var body, t := es[..|es| - 1], es[|es| - 1].t;
      assert es == body + [Lit(t)];
      if BeforeAny(body) {
        StretchesAnd(body, t);
      } else {
        StretchesAnd(body[1..], t);
        SnocTail(es, body, Lit(t));
      }
    } else {
      assert es[1..] == [];
    }
  }

  /** A line is accepted if and only if it splits with every literal where it is met first; the captures
      are those of that split, which is the only one. */
  lemma AcceptsEager(es: seq<Elem>, s: string)
    requires Pattern(es)
    ensures Accepts(Ops(es), s) <==> exists ks :: Eager(es, s, 0, ks)
    ensures forall ks :: Eager(es, s, 0, ks) ==> Exec(Ops(es), s, 0, []) == Some(Out(|s|, Events(es, 0, ks)))
  {
    if es[0].Lit? {
      HeadFollows(es, s);
    } else {
      ExecFollows(es, s, 0, []);
    }
    hide Exec, Ops, Eager, Events;
    FollowsAccepts(es, s);
  }

  lemma FollowsAccepts(es: seq<Elem>, s: string)
    requires Follows(es, s, 0, [])
    ensures Accepts(Ops(es), s) <==> exists ks :: Eager(es, s, 0, ks)
    ensures forall ks :: Eager(es, s, 0, ks) ==> Exec(Ops(es), s, 0, []) == Some(Out(|s|, Events(es, 0, ks)))
  {
    hide Exec, Ops, Eager, Events;
    assert forall e: seq<Event> :: [] + e == e;
  }

  lemma HeadFollows(es: seq<Elem>, s: string)
    requires es != [] && es[0].Lit? && (es[1..] == [] || Stretches(es[1..]))
    ensures Follows(es, s, 0, [])
  {
    var t, rest := es[0].t, es[1..];
    ExecRanges(t, Ops(rest), s, 0, []);
    forall ks
      ensures Eager(es, s, 0, ks) <==> At(s, 0, t) && Eager(rest, s, |t|, ks)
      ensures Events(es, 0, ks) == Events(rest, |t|, ks)
    {
    }
    if At(s, 0, t) {
      if rest == [] {
        FollowsNothing(s, |t|, []);
      } else {
        ExecFollows(rest, s, |t|, []);
      }
    }
    hide Exec, Eager, Events, Ranges;
    var r := Exec(Ops(es), s, 0, []);
    assert r == if At(s, 0, t) then Exec(Ops(rest), s, |t|, []) else None;
    if r.Some? && r.value.rp == |s| {
      var ks :| Eager(rest, s, |t|, ks);
      assert Eager(es, s, 0, ks);
    }
  }

  // ---------------------------------------------------------------- patterns that end in a stretch

  /** Where a stretch is last, no split is before the eager one. */
  lemma {:induction false} EagerLeast(es: seq<Elem>, s: string, p: nat, ks: seq<nat>, ls: seq<nat>)
    requires BeforeAny(es) && p <= |s| && Eager(es, s, p, ks) && Splits(es, s, p, ls)
    ensures NotAfter(ks, ls)
    decreases |es|
  {
    if es[0].Open? {
      EagerLeast(es[1..], s, p, ks, ls);
    } else {
      AfterCloses(es);
      var j := Closes(es[1..]);
      if j == |es| - 1 {
        LastStretch(es, s, p, ks);
        LastStretch(es, s, p, ls);
      } else {
        var t, rest := es[1 + j].t, es[2 + j..];
        EagerScan(es, s, p, ks);
        StretchLiteral(es, s, p, ls);
        FirstMet(s, p, t);
        if ls[0] == ks[0] {
          SplitIn(rest, s, p + ks[0] + |t|, ks[1..]);
          EagerLeast(rest, s, p + ks[0] + |t|, ks[1..], ls[1..]);
        }
      }
    }
  }

  lemma SplitIn(es: seq<Elem>, s: string, p: nat, ks: seq<nat>)
    requires Eager(es, s, p, ks)
    ensures p <= |s|
  {
    SplitWithin(es, s, p, ks);
  }

  lemma EagerIsLeftmost(es: seq<Elem>, s: string, ks: seq<nat>)
    requires EndsInStretch(es) && Eager(es, s, 0, ks)
    ensures Leftmost(es, s, 0, ks)
  {
    forall ls | Splits(es, s, 0, ls)
      ensures NotAfter(ks, ls)
    {
      if BeforeAny(es) {
        EagerLeast(es, s, 0, ks, ls);
      } else {
        SplitIn(es[1..], s, |es[0].t|, ks);
        EagerLeast(es[1..], s, |es[0].t|, ks, ls);
      }
    }
  }
}
