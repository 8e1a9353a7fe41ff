/** A line pattern from text to record: CompilePattern, CompileGrammar and backtrack together. */
module PatternMatch {
  import opened Wrappers
  import opened Strings
  import opened PatternSplit
  import opened PatternEager
  import opened PatternGrammar
  import opened PatternMeaning
  import opened PatternCompile
  import opened PatternShapes
  import opened PatternMachine
  import opened PatternPieces
  import opened PatternCaptures
  import opened PatternBacktrack

  // ---------------------------------------------------------------- splits and filled patterns

  function Anys(es: seq<Elem>): nat
  {
    if es == [] then 0 else (if es[0].Any? then 1 else 0) + Anys(es[1..])
  }

  /** The line with these texts for the stretches. */
  function Fill(es: seq<Elem>, ts: seq<string>): string
  {
    if es == [] then ""
    else
      match es[0]
      case Lit(t) => t + Fill(es[1..], ts)
      case Any => if ts == [] then "" else ts[0] + Fill(es[1..], ts[1..])
      case _ => Fill(es[1..], ts)
  }

  /** A line splits if and only if it is the pattern with some text for every stretch. */
  lemma SplitIsFill(es: seq<Elem>, s: string)
    ensures CanSplit(es, s, 0) <==> exists ts: seq<string> :: |ts| == Anys(es) && Fill(es, ts) == s
  {
    if CanSplit(es, s, 0) {
      var ks :| Splits(es, s, 0, ks);
      var ts := SplitFills(es, s, 0, ks);
      assert s[0..] == s;
    }
    forall ts: seq<string> | |ts| == Anys(es) && Fill(es, ts) == s
      ensures CanSplit(es, s, 0)
    {
      assert s[0..] == s;
      var ks := FillSplits(es, s, 0, ts);
    }
  }

  lemma {:induction false} SplitFills(es: seq<Elem>, s: string, p: nat, ks: seq<nat>) returns (ts: seq<string>)
    requires Splits(es, s, p, ks)
    ensures p <= |s| && |ts| == Anys(es) && s[p..] == Fill(es, ts)
  {
    if es == [] {
      ts := [];
    } else {
      match es[0]
      case Lit(t) =>
        ts := SplitFills(es[1..], s, p + |t|, ks);
        assert s[p..] == s[p..p + |t|] + s[p + |t|..];
      case Any =>
        var more := SplitFills(es[1..], s, p + ks[0], ks[1..]);
        ts := [s[p..p + ks[0]]] + more;
        assert ts[1..] == more && s[p..] == ts[0] + s[p + ks[0]..];
      case _ =>
        ts := SplitFills(es[1..], s, p, ks);
    }
  }

  lemma {:induction false} FillSplits(es: seq<Elem>, s: string, p: nat, ts: seq<string>) returns (ks: seq<nat>)
    requires p <= |s| && |ts| == Anys(es) && s[p..] == Fill(es, ts)
    ensures Splits(es, s, p, ks)
  {
    if es == [] {
      ks := [];
    } else {
      match es[0]
      case Lit(t) =>
        PrefixSlices(s, p, t, Fill(es[1..], ts));
        ks := FillSplits(es[1..], s, p + |t|, ts);
      case Any =>
        PrefixSlices(s, p, ts[0], Fill(es[1..], ts[1..]));
        var more := FillSplits(es[1..], s, p + |ts[0]|, ts[1..]);
        ks := [|ts[0]|] + more;
        assert ks[1..] == more;
      case _ =>
        ks := FillSplits(es[1..], s, p, ts);
    }
  }

  // ---------------------------------------------------------------- compiled programs are safe

  lemma {:induction false} SafeRanges(t: string, ops: seq<Op>, s: string, rp: nat)
    requires rp <= |s|
    requires rp + |t| <= |s| ==> Safe(ops, s, rp + |t|)
    ensures Safe(Ranges(t) + ops, s, rp)
    decreases |t|
  {
    var all := Ranges(t) + ops;
    if t == "" {
      assert all == ops;
    } else {
      if rp < |s| {
        SafeRanges(t[1..], ops, s, rp + 1);
      }
      assert all[0] == Range(t[0]) && all[1..] == Ranges(t[1..]) + ops;
    }
  }

  lemma {:induction false} SafeTerms(j: nat, ops: seq<Op>, s: string, rp: nat)
    requires rp <= |s| && Safe(ops, s, rp)
    ensures Safe(Terms(j) + ops, s, rp)
  {
    var all := Terms(j) + ops;
    if j == 0 {
      assert all == ops;
    } else {
      SafeTerms(j - 1, ops, s, rp);
      assert all[0] == Term && all[1..] == Terms(j - 1) + ops;
    }
  }

  lemma SafeCons(o: Op, ops: seq<Op>, s: string, rp: nat)
    requires rp <= |s|
    ensures (o.Save? || o.Term?) && Safe(ops, s, rp) ==> Safe([o] + ops, s, rp)
    ensures o.End? && Safe(ops, s, |s|) ==> Safe([o] + ops, s, rp)
    ensures o.Skip? && rp + |o.st| <= |s| && Safe(ops, s, rp + |o.st|) ==> Safe([o] + ops, s, rp)
    ensures o.Scan? && (Index(s[rp..], o.st) >= 0 ==> Safe(ops, s, rp + Index(s[rp..], o.st))) ==> Safe([o] + ops, s, rp)
  {
    assert ([o] + ops)[1..] == ops;
  }

  /** A compiled program never skips past the end of the line. */
  lemma {:induction false} SafeOps(es: seq<Elem>, s: string, rp: nat)
    requires Compilable(es) && rp <= |s|
    ensures Safe(Ops(es), s, rp)
    decreases |es|
  {
    hide Safe, Ops, Closes;
    if es == [] {
      SafeNothing(s, rp);
    } else {
      CompilableTail(es, 1);
      var tail := es[1..];
      assert es == [es[0]] + tail;
      match es[0]
      case Lit(t) =>
        if rp + |t| <= |s| {
          SafeOps(tail, s, rp + |t|);
        }
        SafeRanges(t, Ops(tail), s, rp);
        OpsToken(t, tail);
      case Open(n) =>
        SafeOps(tail, s, rp);
        SafeCons(Save(n), Ops(tail), s, rp);
        OpsOpen(n, tail);
      case Close =>
        SafeOps(tail, s, rp);
        SafeCons(Term, Ops(tail), s, rp);
        OpsClose(tail);
      case Any =>
        var j := Closes(tail);
        if j == |tail| {
          SafeNothing(s, |s|);
          SafeTerms(|tail|, [], s, |s|);
          SafeCons(End, Terms(|tail|), s, rp);
          OpsLast(tail);
          assert Terms(|tail|) + [] == Terms(|tail|);
        } else {
          OpsBehind(tail);
          var t, more := tail[j].t, tail[j + 1..];
          var i := Index(s[rp..], t);
          if i >= 0 {
            CompilableTail(tail, j + 1);
            SafeOps(more, s, rp + i + |t|);
            SafeCons(Skip(t), Ops(more), s, rp + i);
            SafeTerms(j, [Skip(t)] + Ops(more), s, rp + i);
          }
          SafeCons(Scan(t), Terms(j) + ([Skip(t)] + Ops(more)), s, rp);
        }
    }
  }

  lemma SafeNothing(s: string, rp: nat)
    requires rp <= |s|
    ensures Safe([], s, rp) && Safe(Ops([]), s, rp)
  {
  }

  lemma OpsOpen(n: string, rest: seq<Elem>)
    ensures Ops([Open(n)] + rest) == [Save(n)] + Ops(rest)
  {
    assert ([Open(n)] + rest)[1..] == rest;
  }

  // ---------------------------------------------------------------- captures come in pairs

  /** Captures are not nested, and each one ends. */
  predicate Flat(es: seq<Elem>, open: bool)
  {
    if es == [] then !open
    else
      match es[0]
      case Open(_) => !open && Flat(es[1..], true)
      case Close => open && Flat(es[1..], false)
      case _ => Flat(es[1..], open)
  }

  ghost predicate PairedFrom(open: bool, evs: seq<Event>)
  {
    if open then evs != [] && evs[0].Ended? && Paired(evs[1..]) else Paired(evs)
  }

  lemma PairedCons(e: Event, evs: seq<Event>)
    ensures e.Started? && PairedFrom(true, evs) ==> PairedFrom(false, [e] + evs)
    ensures e.Ended? && PairedFrom(false, evs) ==> PairedFrom(true, [e] + evs)
  {
    var all := [e] + evs;
    assert all[1..] == evs;
    if |evs| > 0 {
      assert all[2..] == evs[1..];
    }
  }

  /** The ends of captures behind a stretch: one if a capture is open, or none. */
  lemma FlatCloses(es: seq<Elem>, open: bool)
    requires Flat(es, open)
    ensures Closes(es) <= (if open then 1 else 0)
    ensures Flat(es[Closes(es)..], open && Closes(es) == 0)
  {
    if es != [] && es[0].Close? {
      assert Closes(es[1..]) == 0;
    } else {
      assert es[0..] == es;
    }
  }

  ghost predicate Adds(ops: seq<Op>, s: string, rp: nat, events: seq<Event>, open: bool)
    requires rp <= |s|
  {
    var r := Exec(ops, s, rp, events);
    r.Some? ==> events <= r.value.events && PairedFrom(open, r.value.events[|events|..])
  }

  /** After one more event. */
  lemma AddsMore(ops: seq<Op>, s: string, rp: nat, events: seq<Event>, e: Event)
    requires rp <= |s|
    ensures e.Started? && Adds(ops, s, rp, events + [e], true) ==> Exec(ops, s, rp, events + [e]).Some? ==>
      events <= Exec(ops, s, rp, events + [e]).value.events && PairedFrom(false, Exec(ops, s, rp, events + [e]).value.events[|events|..])
    ensures e.Ended? && Adds(ops, s, rp, events + [e], false) ==> Exec(ops, s, rp, events + [e]).Some? ==>
      events <= Exec(ops, s, rp, events + [e]).value.events && PairedFrom(true, Exec(ops, s, rp, events + [e]).value.events[|events|..])
  {
    var r := Exec(ops, s, rp, events + [e]);
    if r.Some? && events + [e] <= r.value.events {
      var out := r.value.events;
      PairedCons(e, out[|events| + 1..]);
      assert out[|events|..] == [e] + out[|events| + 1..];
    }
  }

  /** A thread of a compiled program records captures in pairs. */
  lemma {:induction false} ExecPairs(es: seq<Elem>, open: bool, s: string, rp: nat, events: seq<Event>)
    requires Compilable(es) && Flat(es, open) && rp <= |s|
    ensures Adds(Ops(es), s, rp, events, open)
    decreases |es|
  {
    hide Ops, Closes, Exec, PairedFrom;
    if es == [] {
      PairsDone(s, rp, events);
    } else {
      CompilableTail(es, 1);
      var tail := es[1..];
      assert es == [es[0]] + tail;
      match es[0]
      case Lit(t) =>
        ExecRanges(t, Ops(tail), s, rp, events);
        OpsToken(t, tail);
        if At(s, rp, t) {
          ExecPairs(tail, open, s, rp + |t|, events);
        }
      case Open(n) =>
        OpsOpen(n, tail);
        ExecOne(Save(n), Ops(tail), s, rp, events);
        ExecPairs(tail, true, s, rp, events + [Started(n, rp)]);
        AddsMore(Ops(tail), s, rp, events, Started(n, rp));
      case Close =>
        OpsClose(tail);
        ExecOne(Term, Ops(tail), s, rp, events);
        ExecPairs(tail, false, s, rp, events + [Ended(rp)]);
        AddsMore(Ops(tail), s, rp, events, Ended(rp));
      case Any =>
        ExecPairsAny(tail, open, s, rp, events);
    }
  }

  lemma PairsDone(s: string, rp: nat, events: seq<Event>)
    requires rp <= |s|
    ensures Adds(Ops([]), s, rp, events, false)
  {
    assert events[|events|..] == [];
  }

  lemma ExecOne(o: Op, ops: seq<Op>, s: string, rp: nat, events: seq<Event>)
    requires rp <= |s|
    ensures o.Save? ==> Exec([o] + ops, s, rp, events) == Exec(ops, s, rp, events + [Started(o.name, rp)])
    ensures o.Term? ==> Exec([o] + ops, s, rp, events) == Exec(ops, s, rp, events + [Ended(rp)])
    ensures o.End? ==> Exec([o] + ops, s, rp, events) == Exec(ops, s, |s|, events)
    ensures o.Skip? ==> Exec([o] + ops, s, rp, events) == if rp + |o.st| <= |s| then Exec(ops, s, rp + |o.st|, events) else None
    ensures o.Scan? ==> Exec([o] + ops, s, rp, events) == if Index(s[rp..], o.st) < 0 then None else Exec(ops, s, rp + Index(s[rp..], o.st), events)
  {
    assert ([o] + ops)[1..] == ops;
  }

  /** Behind a stretch, the capture it stands in may end, before the next literal is skipped. */
  lemma {:induction false} ExecPairsAny(tail: seq<Elem>, open: bool, s: string, rp: nat, events: seq<Event>)
    requires Compilable([Any] + tail) && Flat(tail, open) && rp <= |s|
    ensures Adds(Ops([Any] + tail), s, rp, events, open)
    decreases |tail| + 1, 0
  {
    hide Ops, Closes, Exec, PairedFrom, Compilable, Flat;
    var j := Closes(tail);
    FlatCloses(tail, open);
    var all := [Any] + tail;
    assert all[1..] == tail;
    CompilableTail(all, 1);
    if j == |tail| {
      OpsLast(tail);
      ExecOne(End, Terms(j), s, rp, events);
      ClosesThen([], j, open, s, |s|, events, tail[j..]);
      assert Terms(j) + [] == Terms(j);
    } else {
      OpsBehind(tail);
      var t, more := tail[j].t, tail[j + 1..];
      var i := Index(s[rp..], t);
      ExecOne(Scan(t), Terms(j) + ([Skip(t)] + Ops(more)), s, rp, events);
      if i >= 0 {
        CompilableTail(tail, j + 1);
        FlatLit(tail[j..], open && j == 0);
        assert tail[j..][1..] == more;
        ExecOne(Skip(t), Ops(more), s, rp + i, events + Ends(j, rp + i));
        ExecPairs(more, open && j == 0, s, rp + i + |t|, events + Ends(j, rp + i));
        ClosesThen([Skip(t)] + Ops(more), j, open, s, rp + i, events, tail[j..]);
      }
    }
  }

  lemma FlatLit(es: seq<Elem>, open: bool)
    requires Flat(es, open) && es != [] && es[0].Lit?
    ensures Flat(es[1..], open)
  {
  }

  /** At most one end, then instructions that add pairs. */
  lemma ClosesThen(ops: seq<Op>, j: nat, open: bool, s: string, rp: nat, events: seq<Event>, rest: seq<Elem>)
    requires rp <= |s| && j <= (if open then 1 else 0) && (ops == [] ==> Flat([], open && j == 0))
    requires ops != [] ==> Adds(ops, s, rp, events + Ends(j, rp), open && j == 0)
    ensures Adds(Terms(j) + ops, s, rp, events, open)
  {
    ExecTerms(j, ops, s, rp, events);
    assert events + Ends(0, rp) == events;
    if ops == [] {
      assert Exec(ops, s, rp, events + Ends(j, rp)) == Some(Out(rp, events + Ends(j, rp)));
      assert (events + Ends(j, rp))[|events|..] == Ends(j, rp);
    } else if j == 1 {
      assert Ends(1, rp) == [Ended(rp)];
      hide Exec, PairedFrom;
      AddsMore(ops, s, rp, events, Ended(rp));
    }
  }

  // ---------------------------------------------------------------- counting captures

  lemma {:induction false} SavesAdd(a: seq<Op>, b: seq<Op>)
    ensures Saves(a + b) == Saves(a) + Saves(b)
  {
    if a == [] {
      assert a + b == b;
    } else {
      SavesAdd(a[1..], b);
      assert (a + b)[1..] == a[1..] + b;
    }
  }

  lemma {:induction false} NoSaves(a: seq<Op>)
    requires forall i :: 0 <= i < |a| ==> !a[i].Save?
    ensures Saves(a) == 0
  {
    if a != [] {
      NoSaves(a[1..]);
    }
  }

  lemma {:induction false} NoOpens(es: seq<Elem>)
    requires forall i :: 0 <= i < |es| ==> !es[i].Open?
    ensures Opens(es) == 0
  {
    if es != [] {
      NoOpens(es[..|es| - 1]);
    }
  }

  lemma OneOpen(n: string)
    ensures Opens([Open(n)]) == 1
  {
    assert [Open(n)][..0] == [];
  }

  /** As many starts of captures are compiled as the elements have. */
  lemma {:induction false} SavesOps(es: seq<Elem>)
    requires Compilable(es)
    ensures Saves(Ops(es)) == Opens(es)
    decreases |es|
  {
    hide Ops, Closes, Saves, Opens;
    if es == [] {
      NothingSaved();
    } else {
      CompilableTail(es, 1);
      var tail := es[1..];
      assert es == [es[0]] + tail;
      OpensAdd([es[0]], tail);
      match es[0]
      case Lit(t) =>
        OpsToken(t, tail);
        SavesAdd(Ranges(t), Ops(tail));
        NoSaves(Ranges(t));
        NoOpens([es[0]]);
        SavesOps(tail);
      case Open(n) =>
        OpsOpen(n, tail);
        SavesAdd([Save(n)], Ops(tail));
        OneSave(n);
        OneOpen(n);
        SavesOps(tail);
      case Close =>
        OpsClose(tail);
        SavesAdd([Term], Ops(tail));
        NoSaves([Term]);
        NoOpens([es[0]]);
        SavesOps(tail);
      case Any =>
        NoOpens([es[0]]);
        SavesAny(tail);
    }
  }

  lemma NothingSaved()
    ensures Saves(Ops([])) == Opens([]) == 0
  {
  }

  lemma OneSave(n: string)
    ensures Saves([Save(n)]) == 1
  {
    assert [Save(n)][1..] == [];
  }

  lemma {:induction false} SavesAny(tail: seq<Elem>)
    requires Compilable([Any] + tail)
    ensures Saves(Ops([Any] + tail)) == Opens(tail)
    decreases |tail| + 1, 0
  {
    hide Ops, Closes, Saves, Opens, Compilable;
    var j := Closes(tail);
    var all := [Any] + tail;
    assert all[1..] == tail;
    CompilableTail(all, 1);
    ClosesAreCloses(tail);
    if j == |tail| {
      OpsLast(tail);
      NoSaves([End] + Terms(j));
      NoOpens(tail);
    } else {
      OpsBehind(tail);
      var t, more := tail[j].t, tail[j + 1..];
      CompilableTail(tail, j + 1);
      SavesOps(more);
      SavesBehind(t, j, Ops(more));
      NoOpens(tail[..j + 1]);
      OpensPast(tail, j + 1);
    }
  }

  lemma SavesBehind(t: string, j: nat, ops: seq<Op>)
    ensures Saves([Scan(t)] + (Terms(j) + ([Skip(t)] + ops))) == Saves(ops)
  {
    NoSaves([Skip(t)]);
    NoSaves(Terms(j));
    NoSaves([Scan(t)]);
    hide *;
    SavesAdd([Skip(t)], ops);
    SavesAdd(Terms(j), [Skip(t)] + ops);
    SavesAdd([Scan(t)], Terms(j) + ([Skip(t)] + ops));
  }

  lemma OpensPast(es: seq<Elem>, k: nat)
    requires k <= |es|
    ensures Opens(es) == Opens(es[..k]) + Opens(es[k..])
  {
    OpensAdd(es[..k], es[k..]);
    assert es == es[..k] + es[k..];
  }

  // ---------------------------------------------------------------- elements of regular grammars

  ghost predicate Bodily(es: seq<Elem>)
  {
    forall i :: 0 <= i < |es| ==> es[i].Lit? || es[i].Any?
  }

  lemma {:induction false} FlatAfter(es: seq<Elem>, rest: seq<Elem>, open: bool)
    requires Bodily(es)
    ensures Flat(es + rest, open) <==> Flat(rest, open)
  {
    if es == [] {
      assert es + rest == rest;
    } else {
      FlatAfter(es[1..], rest, open);
      assert (es + rest)[1..] == es[1..] + rest;
    }
  }

  lemma {:induction false} BodilySeq(es: seq<Expr>)
    ensures Bodily(FlatBody(es))
  {
    if es != [] {
      BodilySeq(es[..|es| - 1]);
    }
  }

  lemma FlatName(n: string, body: seq<Elem>, rest: seq<Elem>)
    requires Bodily(body) && Flat(rest, false)
    ensures Flat([Open(n)] + body + [Close] + rest, false)
  {
    var all := [Open(n)] + body + [Close] + rest;
    assert all[1..] == body + ([Close] + rest);
    FlatAfter(body, [Close] + rest, true);
    assert ([Close] + rest)[1..] == rest;
  }

  lemma {:induction false} FlatElems(es: seq<Expr>, g: Grammar)
    requires Alternates(es) && NamesOk(es, g)
    ensures Flat(ElemsSeq(es, g, 1), false)
    decreases |es|
  {
    hide BodyOk, Flat, Bodily;
    if es == [] {
      FlatNothing();
    } else {
      var e, tail := es[0], es[1..];
      AlternatesFrom(es, 1);
      FlatElems(tail, g);
      if e.Name? {
        var body := g[e.name].expr;
        BodyElems(body, g, 0);
        BodilyBody(body);
        FlatName(e.name, ElemsOf(body, g, 0), ElemsSeq(tail, g, 1));
      } else {
        BodilyOne(e);
        FlatAfter(ElemsOf(e, g, 1), ElemsSeq(tail, g, 1), false);
      }
    }
  }

  lemma FlatNothing()
    ensures Flat([], false)
  {
  }

  lemma BodilyBody(e: Expr)
    requires BodyOk(e)
    ensures Bodily(Body(e))
  {
    if e.Sequence? {
      BodilySeq(e.es);
    }
  }

  lemma BodilyOne(e: Expr)
    requires e.Token? || e.AnyText?
    ensures forall g, d :: Bodily(ElemsOf(e, g, d))
  {
  }

  /** What running a regular grammar needs. */
  lemma RegularRuns(g: Grammar, s: string)
    requires Regular(g) && Names(g["root"].expr.es) < EndMark
    ensures Safe(Ops(Elements(g)), s, 0) && PairsUp(Ops(Elements(g)), s) && Saves(Ops(Elements(g))) < EndMark
  {
    var es := g["root"].expr.es;
    hide Shaped, Alternates, NamesOk, Safe, Saves, Ops, Opens, Compilable, Exec, Flat;
    RegularCompiles(g);
    assert Elements(g) + [] == Elements(g);
    assert Alternates(es) && NamesOk(es, g);
    FlatElems(es, g);
    SafeOps(Elements(g), s, 0);
    SavesOps(Elements(g));
    FlatOpens(es, g);
    ExecPairs(Elements(g), false, s, 0, []);
    PairsFollow(Ops(Elements(g)), s);
  }

  lemma PairsFollow(ops: seq<Op>, s: string)
    requires Adds(ops, s, 0, [], false)
    ensures PairsUp(ops, s)
  {
    hide Exec;
    var r := Exec(ops, s, 0, []);
    if r.Some? {
      assert r.value.events[0..] == r.value.events;
    }
  }

  // ---------------------------------------------------------------- main results

  /** The nodes are the record of the split ks, in which every literal stands where it is met first: the
      root spans the line, and its children are the captures, as clean leaves them.  When the pattern ends
      in a stretch this is the leftmost split. */
  ghost predicate RecordOf(ns: seq<Node>, kids: seq<int>, es: seq<Elem>, s: string, ks: seq<nat>)
  {
    && Eager(es, s, 0, ks) && (EndsInStretch(es) ==> Leftmost(es, s, 0, ks)) && Paired(Events(es, 0, ks))
    && Tree(ns, Root.(hi := |s|), kids, Cleaned(Spans(Events(es, 0, ks))))
  }

  ghost predicate CanFollow(es: seq<Elem>, s: string) { exists ks :: Eager(es, s, 0, ks) }

  /** CompileGrammar and backtrack: the lines accepted are those with a split in which every literal stands
      where it is met first, and the record is that of this split.  When the pattern ends in a stretch
      these are all lines that split. */
  method ReadLine(g: Grammar, s: string) returns (ok: bool, nds: array<Node>, root: int, ghost kids: seq<int>, ghost ks: seq<nat>)
    requires Regular(g) && Names(g["root"].expr.es) < EndMark && |s| <= 0xFFFF && Ascii(s)
    ensures root == 0 && (ok <==> CanFollow(Elements(g), s))
    ensures EndsInStretch(Elements(g)) ==> (ok <==> CanSplit(Elements(g), s, 0))
    ensures ok ==> RecordOf(nds[..], kids, Elements(g), s, ks)
    ensures !ok ==> Tree(nds[..], Root.(hi := |s|), [], [])
  {
    assert "root" in g && g["root"].expr.Sequence?;
    hide Regular, Linked, Safe, Saves, Exec, Tree, Elements, Ops, EndsInStretch, Leftmost, Cleaned, Spans, Paired, Accepts, CanFollow, CanSplit, Eager, Pattern;
    var mem, start;
    ghost var path;
    mem, start, path := CompileGrammar(g);
    RegularRuns(g, s);
    RegularPattern(g);
    ok, nds, root, kids := Backtrack(mem, start, s, path, Ops(Elements(g)));
    ks := EagerRecord(Elements(g), s);
    if !ok {
      NoKids(nds[..], Root.(hi := |s|), kids);
    }
  }

  lemma RegularPattern(g: Grammar)
    requires Regular(g)
    ensures Pattern(Elements(g))
  {
    hide Elements, Compilable, Alternates, NamesOk, Distinct, Pattern;
    RegularCompiles(g);
    PatternOf(Elements(g));
  }

  lemma NoKids(ns: seq<Node>, root: Node, kids: seq<int>)
    requires Tree(ns, root, kids, [])
    ensures kids == []
  {
  }

  lemma EagerRecord(es: seq<Elem>, s: string) returns (ks: seq<nat>)
    requires Pattern(es) && PairsUp(Ops(es), s)
    ensures Accepts(Ops(es), s) <==> CanFollow(es, s)
    ensures EndsInStretch(es) ==> (Accepts(Ops(es), s) <==> CanSplit(es, s, 0))
    ensures Accepts(Ops(es), s) ==>
      && Eager(es, s, 0, ks) && (EndsInStretch(es) ==> Leftmost(es, s, 0, ks))
      && Paired(Events(es, 0, ks)) && Captured(Ops(es), s) == Spans(Events(es, 0, ks))
  {
    hide EndsInStretch, Leftmost, Ops, Exec, Paired, Spans, CanSplit, Events, Eager, Pattern;
    AcceptsEager(es, s);
    if EndsInStretch(es) {
      var _ := MachineIsLeftmost(es, s);
    }
    ks := [];
    if CanFollow(es, s) {
      ks :| Eager(es, s, 0, ks);
      if EndsInStretch(es) {
        EagerIsLeftmost(es, s, ks);
      }
    }
  }

  /** A compiled pattern accepts exactly the lines that split, if and only if it does not end in a
      literal behind a hole. */
  lemma PatternExact(g: Grammar)
    requires Regular(g)
    ensures var es := g["root"].expr.es;
      (forall s :: Accepts(Ops(Elements(g)), s) <==> CanSplit(Elements(g), s, 0)) <==> |es| == 1 || !es[|es| - 1].Token?
  {
    hide Ops, Elements, CanSplit, Accepts, Compilable, Alternates, NamesOk, Distinct;
    var es := g["root"].expr.es;
    RegularCompiles(g);
    AcceptsExactly(Elements(g));
    ShapesApart(Elements(g));
  }

  lemma ShapesApart(es: seq<Elem>)
    ensures EndsInStretch(es) ==> !EndsInLiteral(es)
    ensures OneLiteral(es) ==> !EndsInLiteral(es)
  {
    if EndsInStretch(es) {
      StartCompiles(es);
    }
  }

  lemma {:induction false} NoneCleaned(ss: seq<Span>)
    requires forall i :: 0 <= i < |ss| ==> !Empty(ss[i])
    ensures CleanRest(ss) == ss && Cleaned(ss) == ss
  {
    if ss != [] {
      NoneCleaned(ss[1..]);
    }
  }

  predicate HasRoot(g: Grammar) { "root" in g && g["root"].expr.Sequence? }

  /** The record is the whole line, with the captures where the holes are, as clean leaves them. */
  ghost predicate RecordHolds(ns: seq<Node>, kids: seq<int>, ps: seq<Piece>, s: string)
  {
    exists xs, cs ::
      Reads(ps, xs, s) && MetFirst(ps, xs) && CapturesOf(ps, xs, cs) && Tree(ns, Root.(hi := |s|), kids, Cleaned(cs))
  }

  /** From the text of a pattern to the record of a line.  The text is accepted if it is whole and all its
      pieces are fine.  The lines accepted are those that split into the elements of the grammar with every
      literal where it is met first, and the record is that of this split.  If no name comes again behind
      another hole, these are the lines made of one string for each piece, a literal standing for itself and
      none held by the string for the hole before it; if the text ends in a hole, any strings do.  The
      captures are where the holes are. */
  method MatchPattern(pattern: string, s: string)
    returns (r: Result<bool>, nds: array<Node>, ghost kids: seq<int>, ghost ks: seq<nat>)
    requires pattern != "" && NoRoot(Read(pattern).ps) && Opens(Asked(pattern)) < EndMark
    requires |s| <= 0xFFFF && Ascii(s)
    ensures r.Err? <==> Compiled(pattern).Err?
    ensures r.Err? ==> r.error == Compiled(pattern).error
    ensures r.Ok? <==> Accepted(pattern)
    ensures r.Err? ==> Blames(Read(pattern).ps, Read(pattern).whole, r.error)
    ensures r.Ok? && NoResume(Read(pattern).ps, None, {}) ==>
      && (r.value <==> exists xs :: Reads(Read(pattern).ps, xs, s) && MetFirst(Read(pattern).ps, xs))
      && (r.value ==> RecordHolds(nds[..], kids, Read(pattern).ps, s))
    ensures r.Ok? && NoResume(Read(pattern).ps, None, {}) && EndsInHole(Read(pattern).ps) ==>
      (r.value <==> exists xs :: Reads(Read(pattern).ps, xs, s))
    ensures r.Ok? ==>
      && Compiled(pattern).Ok? && HasRoot(Compiled(pattern).value)
      && (r.value <==> CanFollow(Elements(Compiled(pattern).value), s))
      && (r.value ==> RecordOf(nds[..], kids, Elements(Compiled(pattern).value), s, ks))
    ensures r.Ok? && !r.value ==> Tree(nds[..], Root.(hi := |s|), [], [])
    ensures r.Ok? && NoResume(Read(pattern).ps, None, {}) ==> (r.value <==> CanFollow(Asked(pattern), s))
    ensures r.Ok? && NoResume(Read(pattern).ps, None, {}) && EndsInHole(Read(pattern).ps) ==>
      (r.value <==> exists ts: seq<string> :: |ts| == Anys(Asked(pattern)) && Fill(Asked(pattern), ts) == s)
    ensures r.Ok? && NoResume(Read(pattern).ps, None, {}) && r.value ==> RecordOf(nds[..], kids, Asked(pattern), s, ks)
  {
    hide Compiled, Read, NoRoot, NoResume, Asked, Elements, Regular, RecordOf, EndsInStretch, EndsInHole, Names, Opens, CanSplit, CanFollow, Tree, Ops, Accepted, Fill, Anys, Reads, MetFirst, RecordHolds, Blames, NamesKept;
    var c := CompilePattern(pattern);
    if c.Err? {
      nds := new Node[0];
      return Err(c.error), nds, [], [];
    }
    var g := c.value;
    CountedNames(pattern, g);
    var ok, root;
    ok, nds, root, kids, ks := ReadLine(g, s);
    SplitIsFill(Asked(pattern), s);
    PiecesMatch(pattern, s);
    if ok && Elements(g) == Asked(pattern) && NoResume(Read(pattern).ps, None, {}) {
      PiecesRecord(pattern, s, nds[..], kids, ks);
    }
    r := Ok(ok);
  }

  lemma PiecesMatch(pattern: string, s: string)
    requires Compiled(pattern).Ok?
    ensures CanSplit(Asked(pattern), s, 0) <==> exists xs :: Reads(Read(pattern).ps, xs, s)
    ensures CanFollow(Asked(pattern), s) <==> exists xs :: Reads(Read(pattern).ps, xs, s) && MetFirst(Read(pattern).ps, xs)
  {
    PatternAssembles(pattern);
    ReadWhole(pattern);
    hide Read, Compiled, Meaning, Reads, MetFirst, CanSplit, Eager, PiecesOk;
    SplitsAsPieces(Read(pattern).ps, s);
  }

  lemma PiecesRecord(pattern: string, s: string, ns: seq<Node>, kids: seq<int>, ks: seq<nat>)
    requires Compiled(pattern).Ok? && NoResume(Read(pattern).ps, None, {}) && RecordOf(ns, kids, Asked(pattern), s, ks)
    ensures RecordHolds(ns, kids, Read(pattern).ps, s)
  {
    PatternAssembles(pattern);
    ReadWhole(pattern);
    hide Read, Compiled, Meaning, MetFirst, CanSplit, Splits, Earliest, Leftmost, Events, PiecesOk, CapturesOf, Tree, Cleaned, NoResume, Reads;
    var ps := Read(pattern).ps;
    var xs := SplitReads(ps, s, ks);
    ReadsSplit(ps, xs, s);
    SplitCaptures(ps, xs, s);
  }

  lemma CountedNames(pattern: string, g: Grammar)
    requires pattern != "" && NoRoot(Read(pattern).ps) && Compiled(pattern) == Ok(g)
    ensures Regular(g) && HasRoot(g) && Names(g["root"].expr.es) <= Opens(Asked(pattern))
    ensures NoResume(Read(pattern).ps, None, {}) ==> Elements(g) == Asked(pattern)
    ensures EndsInHole(Read(pattern).ps) ==> EndsInStretch(Asked(pattern))
  {
    PatternAssembles(pattern);
    hide Assemble, BuiltOk, NoRoot, NoResume, Meaning, EndsInStretch, EndsInHole, Names, Opens, Run, Read, Compiled;
    PatternRegular(pattern, g);
    hide Regular;
    NothingBuilt();
    CountMeans(Read(pattern).ps, "", true, Nothing, g);
    GrammarMeansPieces(pattern, g);
    if EndsInHole(Read(pattern).ps) {
      MeaningEndsInStretch(pattern, g);
    }
  }
}
