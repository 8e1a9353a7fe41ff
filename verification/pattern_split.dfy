/** What a line pattern means, and what the matching machine of internal/mdt does with it.

    A pattern is a list of elements: literals, stretches of any text, and the start and end of a
    named capture.  A split of a line gives every stretch its length.  The machine program scans for
    the literal after each stretch; its result is the least split. */
module PatternSplit {
  import opened Wrappers
  import opened Strings

  datatype Elem = Lit(t: string) | Any | Open(name: string) | Close

  /** The start or end of a capture, with its position in the line. */
  datatype Event = Started(name: string, pos: nat) | Ended(pos: nat)

  // ---------------------------------------------------------------- splits

  /** From position p on, the line is the elements, with stretch lengths ks. */
  predicate Splits(es: seq<Elem>, s: string, p: nat, ks: seq<nat>)
  {
    if es == [] then p == |s| && ks == []
    else
      match es[0]
      case Lit(t) => At(s, p, t) && Splits(es[1..], s, p + |t|, ks)
      case Any => ks != [] && p + ks[0] <= |s| && Splits(es[1..], s, p + ks[0], ks[1..])
      case Open(_) => Splits(es[1..], s, p, ks)
      case Close => Splits(es[1..], s, p, ks)
  }

  ghost predicate CanSplit(es: seq<Elem>, s: string, p: nat)
  {
    exists ks :: Splits(es, s, p, ks)
  }

  /** The captures of a split, as the machine records them. */
  function Events(es: seq<Elem>, p: nat, ks: seq<nat>): seq<Event>
  {
    if es == [] then []
    else
      match es[0]
      case Lit(t) => Events(es[1..], p + |t|, ks)
      case Any => if ks == [] then [] else Events(es[1..], p + ks[0], ks[1..])
      case Open(n) => [Started(n, p)] + Events(es[1..], p, ks)
      case Close => [Ended(p)] + Events(es[1..], p, ks)
  }

  /** ks is not after ls in the order that compares the leftmost stretch first. */
  predicate NotAfter(ks: seq<nat>, ls: seq<nat>)
  {
    ks == [] || (ls != [] && (ks[0] < ls[0] || (ks[0] == ls[0] && NotAfter(ks[1..], ls[1..]))))
  }

  /** The split whose first stretch is shortest, then its second, and so on. */
  ghost predicate Leftmost(es: seq<Elem>, s: string, p: nat, ks: seq<nat>)
  {
    Splits(es, s, p, ks) && forall ls :: Splits(es, s, p, ls) ==> NotAfter(ks, ls)
  }

  // ---------------------------------------------------------------- shapes

  /** A stretch comes next, perhaps after the start of its capture. */
  predicate BeforeAny(es: seq<Elem>)
  {
    es != [] && ((es[0].Open? && BeforeAny(es[1..])) || (es[0].Any? && AfterAny(es[1..])))
  }

  /** The pattern ends here, or a literal and another stretch follow. */
  predicate AfterAny(es: seq<Elem>)
  {
    es == [] || (es[0].Close? && AfterAny(es[1..])) || (es[0].Lit? && es[0].t != "" && BeforeAny(es[1..]))
  }

  /** Stretches separated by literals, with at most one literal before them and none after. */
  predicate EndsInStretch(es: seq<Elem>)
  {
    BeforeAny(es) || (es != [] && es[0].Lit? && es[0].t != "" && BeforeAny(es[1..]))
  }

  // ---------------------------------------------------------------- machine programs

  datatype Op = Range(c: char) | Skip(st: string) | Scan(st: string) | Save(name: string) | Term | End | Stuck

  function Closes(es: seq<Elem>): (j: nat)
    ensures j <= |es|
    ensures j < |es| ==> !es[j].Close?
  {
    if es == [] || !es[0].Close? then 0 else 1 + Closes(es[1..])
  }

  function Ranges(t: string): (r: seq<Op>)
    ensures |r| == |t|
  {
    seq(|t|, i requires 0 <= i < |t| => Range(t[i]))
  }

  function Terms(j: nat): (r: seq<Op>)
    ensures |r| == j
  {
    seq(j, _ => Term)
  }

  /** The instructions of a list of elements, in order. */
  function Ops(es: seq<Elem>): seq<Op>
    decreases |es|
  {
    if es == [] then []
    else
      match es[0]
      case Lit(t) => Ranges(t) + Ops(es[1..])
      case Open(n) => [Save(n)] + Ops(es[1..])
      case Close => [Term] + Ops(es[1..])
      case Any =>
        var j := Closes(es[1..]);
        var rest := es[1 + j..];
        if rest == [] then [End] + Terms(j)
        else if rest[0].Lit? then [Scan(rest[0].t)] + Terms(j) + [Skip(rest[0].t)] + Ops(rest[1..])
        else [Stuck]
  }

  datatype Out = Out(rp: nat, events: seq<Event>)

  /** One thread of the machine: where it stops, or nothing when it fails. */
  function Exec(ops: seq<Op>, s: string, rp: nat, events: seq<Event>): Option<Out>
    requires rp <= |s|
    decreases |ops|
  {
    if ops == [] then Some(Out(rp, events))
    else
      match ops[0]
      case Range(c) => if rp < |s| && s[rp] == c then Exec(ops[1..], s, rp + 1, events) else None
      case Skip(st) => if rp + |st| <= |s| then Exec(ops[1..], s, rp + |st|, events) else None
      case Scan(st) =>
        var i := Index(s[rp..], st);
        if i < 0 then None else Exec(ops[1..], s, rp + i, events)
      case Save(n) => Exec(ops[1..], s, rp, events + [Started(n, rp)])
      case Term => Exec(ops[1..], s, rp, events + [Ended(rp)])
      case End => Exec(ops[1..], s, |s|, events)
      case Stuck => None
  }

  predicate Accepts(ops: seq<Op>, s: string)
  {
    var r := Exec(ops, s, 0, []);
    r.Some? && r.value.rp == |s|
  }

  // ---------------------------------------------------------------- single runs of instructions

  lemma {:induction false} ExecRanges(t: string, ops: seq<Op>, s: string, rp: nat, events: seq<Event>)
    requires rp <= |s|
    ensures Exec(Ranges(t) + ops, s, rp, events) == if At(s, rp, t) then Exec(ops, s, rp + |t|, events) else None
    decreases |t|
  {
    if t == "" {
      assert Ranges(t) + ops == ops;
    } else {
      assert (Ranges(t) + ops)[1..] == Ranges(t[1..]) + ops;
      AtCons(s, rp, t);
      if rp < |s| && s[rp] == t[0] {
        ExecRanges(t[1..], ops, s, rp + 1, events);
      }
    }
  }

  lemma AtCons(s: string, p: nat, t: string)
    requires t != ""
    ensures At(s, p, t) <==> p < |s| && s[p] == t[0] && At(s, p + 1, t[1..])
  {
    if p + |t| <= |s| {
      assert s[p..p + |t|] == [s[p]] + s[p + 1..p + |t|];
      assert t == [t[0]] + t[1..];
    }
  }

  function Ends(j: nat, p: nat): seq<Event> { seq(j, _ => Ended(p)) }

  lemma {:induction false} ExecTerms(j: nat, ops: seq<Op>, s: string, rp: nat, events: seq<Event>)
    requires rp <= |s|
    ensures Exec(Terms(j) + ops, s, rp, events) == Exec(ops, s, rp, events + Ends(j, rp))
    decreases j
  {
    if j == 0 {
      assert Terms(j) + ops == ops && events + Ends(j, rp) == events;
    } else {
      assert (Terms(j) + ops)[1..] == Terms(j - 1) + ops;
      ExecTerms(j - 1, ops, s, rp, events + [Ended(rp)]);
      assert events + [Ended(rp)] + Ends(j - 1, rp) == events + Ends(j, rp);
    }
  }

  lemma {:induction false} ClosesSplit(es: seq<Elem>, s: string, p: nat, ks: seq<nat>)
    ensures Splits(es, s, p, ks) <==> Splits(es[Closes(es)..], s, p, ks)
    ensures Events(es, p, ks) == Ends(Closes(es), p) + Events(es[Closes(es)..], p, ks)
    ensures AfterAny(es) <==> AfterAny(es[Closes(es)..])
    decreases |es|
  {
    if es != [] && es[0].Close? {
      ClosesSplit(es[1..], s, p, ks);
      assert es[1..][Closes(es[1..])..] == es[Closes(es)..];
      assert [Ended(p)] + Ends(Closes(es[1..]), p) == Ends(Closes(es), p);
    } else {
      assert es[0..] == es && Ends(0, p) == [];
    }
  }

  // ---------------------------------------------------------------- the least split

  /** What comes before a stretch may start further left: the stretch takes the difference. */
  lemma {:induction false} Absorb(es: seq<Elem>, s: string, p: nat, q: nat, ks: seq<nat>) returns (ls: seq<nat>)
    requires BeforeAny(es) && p <= q && Splits(es, s, q, ks)
    ensures Splits(es, s, p, ls)
    decreases |es|
  {
    if es[0].Any? {
      ls := [ks[0] + (q - p)] + ks[1..];
    } else {
      ls := Absorb(es[1..], s, p, q, ks);
    }
  }

  lemma {:induction false} SplitWithin(es: seq<Elem>, s: string, p: nat, ks: seq<nat>)
    requires Splits(es, s, p, ks)
    ensures p <= |s|
    decreases |es|
  {
    if es != [] && (es[0].Open? || es[0].Close?) {
      SplitWithin(es[1..], s, p, ks);
    }
  }

  /** A last stretch takes the rest of the line. */
  lemma {:induction false} LastStretch(es: seq<Elem>, s: string, p: nat, ks: seq<nat>)
    requires es != [] && es[0].Any? && Closes(es[1..]) == |es| - 1 && p <= |s|
    ensures Splits(es, s, p, ks) <==> ks == [|s| - p]
  {
    var j := Closes(es[1..]);
    if ks != [] {
      ClosesSplit(es[1..], s, p + ks[0], ks[1..]);
      assert es[1..][j..] == [];
      if ks[1..] == [] {
        assert ks == [ks[0]];
      }
    }
  }

  /** A stretch and the literal behind it: the literal stands where the stretch ends. */
  lemma StretchLiteral(es: seq<Elem>, s: string, p: nat, ks: seq<nat>)
    requires es != [] && es[0].Any? && p <= |s|
    requires var j := Closes(es[1..]); 1 + j < |es| && es[1 + j].Lit?
    ensures var j := Closes(es[1..]); var t := es[1 + j].t;
      Splits(es, s, p, ks) <==> ks != [] && At(s, p + ks[0], t) && Splits(es[2 + j..], s, p + ks[0] + |t|, ks[1..])
  {
    if ks != [] {
      var j := Closes(es[1..]);
      ClosesSplit(es[1..], s, p + ks[0], ks[1..]);
      assert es[1..][j..] == es[1 + j..] && es[1 + j..][1..] == es[2 + j..];
    }
  }

  lemma StretchEvents(es: seq<Elem>, p: nat, ks: seq<nat>)
    requires es != [] && es[0].Any? && ks != []
    requires var j := Closes(es[1..]); 1 + j < |es| && es[1 + j].Lit?
    ensures var j := Closes(es[1..]); var t := es[1 + j].t;
      Events(es, p, ks) == Ends(j, p + ks[0]) + Events(es[2 + j..], p + ks[0] + |t|, ks[1..])
  {
    var j := Closes(es[1..]);
    ClosesSplit(es[1..], "", p + ks[0], ks[1..]);
    assert es[1..][j..] == es[1 + j..] && es[1 + j..][1..] == es[2 + j..];
  }

  /** The machine, from rp on, finds the least split, or there is none. */
  ghost predicate Finds(es: seq<Elem>, s: string, rp: nat, events: seq<Event>, ks: seq<nat>)
    requires rp <= |s|
  {
    var r := Exec(Ops(es), s, rp, events);
    if r.None? then !CanSplit(es, s, rp)
    else Leftmost(es, s, rp, ks) && r == Some(Out(|s|, events + Events(es, rp, ks)))
  }

  lemma LastLeftmost(es: seq<Elem>, s: string, rp: nat)
    requires es != [] && es[0].Any? && Closes(es[1..]) == |es| - 1 && rp <= |s|
    ensures Leftmost(es, s, rp, [|s| - rp])
  {
    LastStretch(es, s, rp, [|s| - rp]);
    forall ls | Splits(es, s, rp, ls)
      ensures NotAfter([|s| - rp], ls)
    {
      LastStretch(es, s, rp, ls);
    }
  }

  lemma LastEvents(es: seq<Elem>, s: string, rp: nat)
    requires es != [] && es[0].Any? && Closes(es[1..]) == |es| - 1 && rp <= |s|
    ensures Events(es, rp, [|s| - rp]) == Ends(|es| - 1, |s|)
  {
    var j := |es| - 1;
    ClosesSplit(es[1..], s, |s|, []);
    assert es[1..][j..] == [] && [|s| - rp][1..] == [];
    assert Ends(j, |s|) + [] == Ends(j, |s|);
  }

  lemma ExecLast(es: seq<Elem>, s: string, rp: nat, events: seq<Event>)
    requires es != [] && es[0].Any? && Closes(es[1..]) == |es| - 1 && rp <= |s|
    ensures Finds(es, s, rp, events, [|s| - rp])
  {
    var j := |es| - 1;
    hide Leftmost, Events;
    LastLeftmost(es, s, rp);
    LastEvents(es, s, rp);
    assert es[1 + j..] == [];
    assert Ops(es) == [End] + Terms(j);
    assert ([End] + Terms(j))[1..] == Terms(j) + [];
    ExecTerms(j, [], s, |s|, events);
  }

  lemma ScanOps(es: seq<Elem>)
    requires es != [] && es[0].Any?
    requires var j := Closes(es[1..]); 1 + j < |es| && es[1 + j].Lit?
    ensures var j := Closes(es[1..]); var t := es[1 + j].t;
      Ops(es) == [Scan(t)] + (Terms(j) + ([Skip(t)] + Ops(es[2 + j..])))
  {
    assert es[1 + Closes(es[1..])..][1..] == es[2 + Closes(es[1..])..];
  }

  lemma ExecScanOps(t: string, j: nat, tail: seq<Op>, s: string, rp: nat, events: seq<Event>)
    requires rp <= |s|
    ensures var i := Index(s[rp..], t);
      && (i >= 0 ==> rp + i + |t| <= |s|)
      && Exec([Scan(t)] + (Terms(j) + ([Skip(t)] + tail)), s, rp, events)
         == if i < 0 then None else Exec(tail, s, rp + i + |t|, events + Ends(j, rp + i))
  {
    var more := [Skip(t)] + tail;
    assert ([Scan(t)] + (Terms(j) + more))[1..] == Terms(j) + more && more[1..] == tail;
    var i := Index(s[rp..], t);
    if i >= 0 {
      assert At(s[rp..], i, t);
      ExecTerms(j, more, s, rp + i, events);
    }
  }

  lemma ExecScan(es: seq<Elem>, s: string, rp: nat, events: seq<Event>)
    requires es != [] && es[0].Any? && rp <= |s|
    requires var j := Closes(es[1..]); 1 + j < |es| && es[1 + j].Lit?
    ensures var j := Closes(es[1..]); var t := es[1 + j].t; var i := Index(s[rp..], t);
      && (i >= 0 ==> rp + i + |t| <= |s|)
      && Exec(Ops(es), s, rp, events)
         == if i < 0 then None else Exec(Ops(es[2 + j..]), s, rp + i + |t|, events + Ends(j, rp + i))
  {
    hide Exec, Ops, Index, Terms;
    var j := Closes(es[1..]);
    ScanOps(es);
    ExecScanOps(es[1 + j].t, j, Ops(es[2 + j..]), s, rp, events);
  }

  lemma AtShift(s: string, p: nat, i: nat, t: string)
    requires p <= |s|
    ensures At(s[p..], i, t) <==> At(s, p + i, t)
  {
    if p + i + |t| <= |s| {
      assert s[p..][i..i + |t|] == s[p + i..p + i + |t|];
    }
  }

  lemma AfterCloses(es: seq<Elem>)
    requires es != [] && es[0].Any? && BeforeAny(es)
    ensures var j := Closes(es[1..]);
      j == |es| - 1 || (1 + j < |es| && es[1 + j].Lit? && es[1 + j].t != "" && BeforeAny(es[2 + j..]))
  {
    var j := Closes(es[1..]);
    ClosesSplit(es[1..], "", 0, []);
    assert es[1..][j..] == es[1 + j..];
    if j < |es| - 1 {
      assert es[1 + j..][1..] == es[2 + j..];
    }
  }

  lemma OpenFinds(es: seq<Elem>, s: string, rp: nat, events: seq<Event>, ks: seq<nat>)
    requires es != [] && es[0].Open? && rp <= |s|
    requires Finds(es[1..], s, rp, events + [Started(es[0].name, rp)], ks)
    ensures Finds(es, s, rp, events, ks)
  {
    assert Ops(es)[1..] == Ops(es[1..]);
    assert events + [Started(es[0].name, rp)] + Events(es[1..], rp, ks) == events + Events(es, rp, ks);
    forall ls
      ensures Splits(es, s, rp, ls) <==> Splits(es[1..], s, rp, ls)
    {
    }
  }

  lemma ScanFinds(es: seq<Elem>, s: string, rp: nat, events: seq<Event>, ks: seq<nat>)
    requires es != [] && es[0].Any? && rp <= |s|
    requires var j := Closes(es[1..]); 1 + j < |es| && es[1 + j].Lit? && BeforeAny(es[2 + j..])
    requires var j := Closes(es[1..]); var i := Index(s[rp..], es[1 + j].t);
      i >= 0 ==> rp + i + |es[1 + j].t| <= |s| && Finds(es[2 + j..], s, rp + i + |es[1 + j].t|, events + Ends(j, rp + i), ks)
    ensures Finds(es, s, rp, events, [Max0(Index(s[rp..], es[1 + Closes(es[1..])].t))] + ks)
  {
    hide Exec, Ops, Splits, Events, Leftmost, BeforeAny;
    var j := Closes(es[1..]);
    var i := Index(s[rp..], es[1 + j].t);
    ExecScan(es, s, rp, events);
    if i < 0 {
      NoLiteral(es, s, rp);
    } else {
      var all := [i] + ks;
      assert all[0] == i && all[1..] == ks;
      FirstLiteral(es, s, rp, ks);
      StretchEvents(es, rp, all);
      assert events + Ends(j, rp + i) + Events(es[2 + j..], rp + i + |es[1 + j].t|, ks) == events + Events(es, rp, all);
    }
  }

  function Max0(i: int): nat { if i < 0 then 0 else i }

  /** The machine finds the least split from rp on, or there is none. */
  lemma {:induction false} ExecFindsLeast(es: seq<Elem>, s: string, rp: nat, events: seq<Event>) returns (ks: seq<nat>)
    requires BeforeAny(es) && rp <= |s|
    ensures Finds(es, s, rp, events, ks)
    decreases |es|
  {
    hide Finds;
    if es[0].Open? {
      ks := ExecFindsLeast(es[1..], s, rp, events + [Started(es[0].name, rp)]);
      OpenFinds(es, s, rp, events, ks);
    } else {
      AfterCloses(es);
      var j := Closes(es[1..]);
      if j == |es| - 1 {
        ks := [|s| - rp];
        ExecLast(es, s, rp, events);
      } else {
        var i := Index(s[rp..], es[1 + j].t);
        ExecScan(es, s, rp, events);
        var ks' := [];
        if i >= 0 {
          ks' := ExecFindsLeast(es[2 + j..], s, rp + i + |es[1 + j].t|, events + Ends(j, rp + i));
        }
        ScanFinds(es, s, rp, events, ks');
        ks := [Max0(i)] + ks';
      }
    }
  }

  lemma NoLiteral(es: seq<Elem>, s: string, rp: nat)
    requires es != [] && es[0].Any? && rp <= |s|
    requires var j := Closes(es[1..]); 1 + j < |es| && es[1 + j].Lit? && Index(s[rp..], es[1 + j].t) < 0
    ensures !CanSplit(es, s, rp)
  {
    forall ls
      ensures !Splits(es, s, rp, ls)
    {
      StretchLiteral(es, s, rp, ls);
      if ls != [] {
        AtShift(s, rp, ls[0], es[1 + Closes(es[1..])].t);
      }
    }
  }

  /** The leftmost literal belongs to the least split: a later one could have been this one. */
  lemma FirstLiteral(es: seq<Elem>, s: string, rp: nat, ks': seq<nat>)
    requires es != [] && es[0].Any? && rp <= |s|
    requires var j := Closes(es[1..]); 1 + j < |es| && es[1 + j].Lit? && BeforeAny(es[2 + j..]) && Index(s[rp..], es[1 + j].t) >= 0
    ensures var j := Closes(es[1..]); var t := es[1 + j].t; var i := Index(s[rp..], t);
      && (CanSplit(es, s, rp) ==> CanSplit(es[2 + j..], s, rp + i + |t|))
      && (Leftmost(es[2 + j..], s, rp + i + |t|, ks') ==> Leftmost(es, s, rp, [i] + ks'))
  {
    var j := Closes(es[1..]);
    var t, rest := es[1 + j].t, es[2 + j..];
    var i := Index(s[rp..], t);
    AtShift(s, rp, i, t);
    ConsTail(i, ks');
    hide Splits, Closes, BeforeAny, Index, At, NotAfter;
    forall ls | Splits(es, s, rp, ls)
      ensures CanSplit(rest, s, rp + i + |t|)
      ensures Leftmost(rest, s, rp + i + |t|, ks') ==> NotAfter([i] + ks', ls)
    {
      StretchLiteral(es, s, rp, ls);
      AtShift(s, rp, ls[0], t);
      assert ls[0] >= i;
      var ms := Absorb(rest, s, rp + i + |t|, rp + ls[0] + |t|, ls[1..]);
      if Leftmost(rest, s, rp + i + |t|, ks') {
        LeastFirst(i, ks', ls);
      }
    }
    StretchLiteral(es, s, rp, [i] + ks');
  }

  lemma ConsTail(i: nat, ks: seq<nat>)
    ensures ([i] + ks)[0] == i && ([i] + ks)[1..] == ks
  {
  }

  lemma LeastFirst(i: nat, ks: seq<nat>, ls: seq<nat>)
    requires ls != [] && (i < ls[0] || (i == ls[0] && NotAfter(ks, ls[1..])))
    ensures NotAfter([i] + ks, ls)
  {
    ConsTail(i, ks);
  }

  /** A line is accepted exactly when it splits along the pattern; the captures are then those of
      the least split. */
  lemma MachineIsLeftmost(es: seq<Elem>, s: string) returns (ks: seq<nat>)
    requires EndsInStretch(es)
    ensures Accepts(Ops(es), s) <==> CanSplit(es, s, 0)
    ensures Accepts(Ops(es), s) ==> Leftmost(es, s, 0, ks) && Exec(Ops(es), s, 0, []) == Some(Out(|s|, Events(es, 0, ks)))
  {
    if es[0].Lit? {
      var t := es[0].t;
      ExecRanges(t, Ops(es[1..]), s, 0, []);
      forall ls
        ensures Splits(es, s, 0, ls) <==> At(s, 0, t) && Splits(es[1..], s, |t|, ls)
      {
      }
      if At(s, 0, t) {
        ks := ExecFindsLeast(es[1..], s, |t|, []);
        assert [] + Events(es[1..], |t|, ks) == Events(es, 0, ks);
      } else {
        ks := [];
      }
    } else {
      ks := ExecFindsLeast(es, s, 0, []);
      assert [] + Events(es, 0, ks) == Events(es, 0, ks);
    }
  }

  // ---------------------------------------------------------------- patterns that end in a literal

  predicate EndsInLiteral(es: seq<Elem>)
  {
    es != [] && es[|es| - 1].Lit? && es[|es| - 1].t != "" && EndsInStretch(es[..|es| - 1])
  }

  predicate OneLiteral(es: seq<Elem>)
  {
    |es| == 1 && es[0].Lit? && es[0].t != ""
  }

  /** The literals alone: the line whose stretches are empty. */
  function Bare(es: seq<Elem>): string
  {
    if es == [] then "" else (if es[0].Lit? then es[0].t else "") + Bare(es[1..])
  }

  lemma {:induction false} BareCloses(es: seq<Elem>)
    ensures Bare(es) == Bare(es[Closes(es)..])
  {
    if es != [] && es[0].Close? {
      BareCloses(es[1..]);
      assert es[1..][Closes(es[1..])..] == es[Closes(es)..];
    } else {
      assert es[0..] == es;
    }
  }

  lemma {:induction false} ClosesAppend(es: seq<Elem>, e: Elem)
    requires !e.Close?
    ensures Closes(es + [e]) == Closes(es)
  {
    if es != [] {
      assert (es + [e])[1..] == es[1..] + [e];
      ClosesAppend(es[1..], e);
    }
  }

  /** A pattern and a literal after it, seen from its first stretch. */
  lemma PeelStretch(es: seq<Elem>, e: Elem)
    requires es != [] && es[0].Any? && BeforeAny(es) && e.Lit?
    ensures var j := Closes(es[1..]); var all := es + [e];
      && Closes(all[1..]) == j && 1 + j < |all| && all[1 + j].Lit?
      && if j == |es| - 1 then all[1 + j] == e && all[2 + j..] == []
         else all[1 + j] == es[1 + j] && all[2 + j..] == es[2 + j..] + [e] && BeforeAny(es[2 + j..])
  {
    AfterCloses(es);
    ClosesAppend(es[1..], e);
    hide BeforeAny, Closes;
    assert (es + [e])[1..] == es[1..] + [e];
  }

  lemma PeelBare(es: seq<Elem>)
    requires es != [] && es[0].Any? && BeforeAny(es)
    ensures var j := Closes(es[1..]); j < |es| - 1 ==> es[1 + j].Lit?
    ensures var j := Closes(es[1..]); Bare(es) == if j == |es| - 1 then "" else es[1 + j].t + Bare(es[2 + j..])
  {
    hide BeforeAny, Closes, Bare;
    var j := Closes(es[1..]);
    AfterCloses(es);
    BareCloses(es[1..]);
    DropTwice(es, 1, j);
    BareFirst(es);
    if j < |es| - 1 {
      DropTwice(es, 1 + j, 1);
      BareFirst(es[1 + j..]);
    } else {
      BareNothing(es[1 + j..]);
    }
  }

  lemma DropTwice(es: seq<Elem>, i: nat, j: nat)
    requires i + j <= |es|
    ensures es[i..][j..] == es[i + j..]
  {
  }

  lemma BareFirst(es: seq<Elem>)
    requires es != []
    ensures Bare(es) == if es[0].Lit? then es[0].t + Bare(es[1..]) else Bare(es[1..])
  {
  }

  lemma BareNothing(es: seq<Elem>)
    requires es == []
    ensures Bare(es) == ""
  {
  }

  lemma PrefixAt(s: string, p: nat, a: string, b: string)
    requires p <= |s| && s[p..] == a + b
    ensures At(s, p, a) && s[p + |a|..] == b
  {
    assert s[p..p + |a|] == s[p..][..|a|];
    assert s[p + |a|..] == s[p..][|a|..];
  }

  /** What is left of the bare line with its last literal doubled. */
  ghost predicate Doubled(es: seq<Elem>, t: string, s: string, rp: nat)
  {
    rp <= |s| && s[rp..] == Bare(es) + (t + t)
  }

  lemma DoubledIn(es: seq<Elem>, t: string, s: string, rp: nat)
    requires Doubled(es, t, s, rp)
    ensures rp <= |s|
  {
  }

  lemma DoubledNext(es: seq<Elem>, t: string, s: string, rp: nat)
    requires es != [] && es[0].Any? && BeforeAny(es) && Doubled(es, t, s, rp)
    ensures var j := Closes(es[1..]); j < |es| - 1 ==> es[1 + j].Lit?
    ensures var j := Closes(es[1..]);
      if j == |es| - 1 then At(s, rp, t) && At(s, rp + |t|, t) && rp + |t| + |t| == |s|
      else At(s, rp, es[1 + j].t) && Doubled(es[2 + j..], t, s, rp + |es[1 + j].t|)
  {
    hide Bare, BeforeAny, AfterAny, Closes, At, Doubled;
    PeelBare(es);
    DoubledIn(es, t, s, rp);
    var j := Closes(es[1..]);
    if j == |es| - 1 {
      DoubledLast(es, t, s, rp);
    } else {
      DoubledLiteral(es, es[1 + j].t, es[2 + j..], t, s, rp);
    }
  }

  lemma DoubledLast(es: seq<Elem>, t: string, s: string, rp: nat)
    requires Doubled(es, t, s, rp) && Bare(es) == ""
    ensures At(s, rp, t) && At(s, rp + |t|, t) && rp + |t| + |t| == |s|
  {
    hide At;
    assert "" + (t + t) == t + t && t + "" == t;
    PrefixAt(s, rp, t, t);
    PrefixAt(s, rp + |t|, t, "");
  }

  lemma DoubledLiteral(es: seq<Elem>, lit: string, rest: seq<Elem>, t: string, s: string, rp: nat)
    requires Doubled(es, t, s, rp) && Bare(es) == lit + Bare(rest)
    ensures At(s, rp, lit) && Doubled(rest, t, s, rp + |lit|)
  {
    hide Bare;
    assert lit + Bare(rest) + (t + t) == lit + (Bare(rest) + (t + t));
    PrefixAt(s, rp, lit, Bare(rest) + (t + t));
  }

  /** A literal that stands where the scan starts is found there. */
  lemma ScanAtOnce(es: seq<Elem>, s: string, rp: nat, events: seq<Event>)
    requires es != [] && es[0].Any? && rp <= |s|
    requires var j := Closes(es[1..]); 1 + j < |es| && es[1 + j].Lit? && At(s, rp, es[1 + j].t)
    ensures var j := Closes(es[1..]); var t := es[1 + j].t;
      Exec(Ops(es), s, rp, events) == Exec(Ops(es[2 + j..]), s, rp + |t|, events + Ends(j, rp))
  {
    var t := es[1 + Closes(es[1..])].t;
    AtShift(s, rp, 0, t);
    var i := Index(s[rp..], t);
    assert i == 0;
    hide Exec, Ops, Index;
    ExecScan(es, s, rp, events);
  }

  ghost predicate Early(ops: seq<Op>, s: string, rp: nat, events: seq<Event>, k: nat)
    requires rp <= |s|
  {
    var r := Exec(ops, s, rp, events);
    r.Some? && r.value.rp + k == |s|
  }

  lemma EarlyOpen(all: seq<Elem>, s: string, rp: nat, events: seq<Event>, k: nat)
    requires all != [] && all[0].Open? && rp <= |s|
    requires Early(Ops(all[1..]), s, rp, events + [Started(all[0].name, rp)], k)
    ensures Early(Ops(all), s, rp, events, k)
  {
    assert Ops(all)[1..] == Ops(all[1..]);
  }

  lemma DoubledOpen(es: seq<Elem>, t: string, s: string, rp: nat)
    requires es != [] && es[0].Open? && Doubled(es, t, s, rp)
    ensures Doubled(es[1..], t, s, rp)
  {
    assert "" + Bare(es[1..]) == Bare(es[1..]);
  }

  lemma EarlyScan(es: seq<Elem>, t: string, s: string, rp: nat, events: seq<Event>)
    requires es != [] && es[0].Any? && BeforeAny(es) && t != "" && Doubled(es, t, s, rp)
    requires var j := Closes(es[1..]);
      j < |es| - 1 ==> (es[1 + j].Lit? && rp + |es[1 + j].t| <= |s|
                        && Early(Ops(es[2 + j..] + [Lit(t)]), s, rp + |es[1 + j].t|, events + Ends(j, rp), |t|))
    ensures Early(Ops(es + [Lit(t)]), s, rp, events, |t|)
  {
    hide Exec, Bare, Ops, BeforeAny, Closes, Doubled;
    var all := es + [Lit(t)];
    var j := Closes(es[1..]);
    PeelStretch(es, Lit(t));
    DoubledNext(es, t, s, rp);
    ScanAtOnce(all, s, rp, events);
    EmptyExec(s, rp + |all[1 + j].t|, events + Ends(j, rp));
  }

  /** On the bare line with its last literal doubled, the scan for that literal stops one too early. */
  lemma {:induction false} StopsEarly(es: seq<Elem>, t: string, s: string, rp: nat, events: seq<Event>)
    requires BeforeAny(es) && t != "" && Doubled(es, t, s, rp)
    ensures Early(Ops(es + [Lit(t)]), s, rp, events, |t|)
    decreases |es|
  {
    hide Early, Ops, Doubled;
    var all := es + [Lit(t)];
    if es[0].Open? {
      assert all[1..] == es[1..] + [Lit(t)];
      DoubledOpen(es, t, s, rp);
      StopsEarly(es[1..], t, s, rp, events + [Started(es[0].name, rp)]);
      EarlyOpen(all, s, rp, events, |t|);
    } else {
      var j := Closes(es[1..]);
      AfterCloses(es);
      DoubledNext(es, t, s, rp);
      if j < |es| - 1 {
        StopsEarly(es[2 + j..], t, s, rp + |es[1 + j].t|, events + Ends(j, rp));
      }
      EarlyScan(es, t, s, rp, events);
    }
  }

  lemma EmptyExec(s: string, rp: nat, events: seq<Event>)
    requires rp <= |s|
    ensures Exec(Ops([]), s, rp, events) == Some(Out(rp, events))
  {
  }

  lemma SplitScan(es: seq<Elem>, t: string, s: string, rp: nat, ks': seq<nat>) returns (ks: seq<nat>)
    requires es != [] && es[0].Any? && BeforeAny(es) && Doubled(es, t, s, rp)
    requires var j := Closes(es[1..]);
      j < |es| - 1 ==> es[1 + j].Lit? && Splits(es[2 + j..] + [Lit(t)], s, rp + |es[1 + j].t|, ks')
    ensures Splits(es + [Lit(t)], s, rp, ks)
  {
    EmptySplits(s);
    hide Splits, Bare, BeforeAny, Closes, Doubled;
    var j := Closes(es[1..]);
    PeelStretch(es, Lit(t));
    DoubledNext(es, t, s, rp);
    ks := if j < |es| - 1 then [0] + ks' else [|t|];
    assert ks[1..] == if j < |es| - 1 then ks' else [];
    StretchLiteral(es + [Lit(t)], s, rp, ks);
  }

  lemma {:induction false} DoubledSplits(es: seq<Elem>, t: string, s: string, rp: nat) returns (ks: seq<nat>)
    requires BeforeAny(es) && Doubled(es, t, s, rp)
    ensures Splits(es + [Lit(t)], s, rp, ks)
    decreases |es|
  {
    hide Doubled;
    if es[0].Open? {
      assert (es + [Lit(t)])[1..] == es[1..] + [Lit(t)];
      DoubledOpen(es, t, s, rp);
      ks := DoubledSplits(es[1..], t, s, rp);
    } else {
      var j := Closes(es[1..]);
      AfterCloses(es);
      DoubledNext(es, t, s, rp);
      var ks' := [];
      if j < |es| - 1 {
        ks' := DoubledSplits(es[2 + j..], t, s, rp + |es[1 + j].t|);
      }
      ks := SplitScan(es, t, s, rp, ks');
    }
  }

  lemma EmptySplits(s: string)
    ensures Splits([], s, |s|, [])
  {
  }

  lemma SnocTail(es: seq<Elem>, body: seq<Elem>, e: Elem)
    requires es == body + [e] && body != []
    ensures es[0] == body[0] && es[1..] == body[1..] + [e]
  {
  }

  /** A pattern that ends in a literal refuses a line that has a split. */
  lemma LiteralEndFails(es: seq<Elem>) returns (s: string)
    requires EndsInLiteral(es)
    ensures CanSplit(es, s, 0) && !Accepts(Ops(es), s)
  {
    var body, t := es[..|es| - 1], es[|es| - 1].t;
    assert es == body + [Lit(t)];
    if BeforeAny(body) {
      s := Bare(body) + (t + t);
      hide *;
      DoubledAt("", Bare(body) + (t + t));
      DoubledFrom(body, t, s, 0);
      StopsEarly(body, t, s, 0, []);
      var ks := DoubledSplits(body, t, s, 0);
      RefusedAt(es, s, 0, t, ks);
    } else {
      var head, rest := body[0].t, body[1..];
      s := head + (Bare(rest) + (t + t));
      SnocTail(es, body, Lit(t));
      hide BeforeAny, AfterAny, Bare, Exec, Ops, Splits, At;
      DoubledAt(head, Bare(rest) + (t + t));
      DoubledFrom(rest, t, s, |head|);
      ExecRanges(head, Ops(es[1..]), s, 0, []);
      StopsEarly(rest, t, s, |head|, []);
      var ks := DoubledSplits(rest, t, s, |head|);
      HeadRefused(es, head, s, t, ks);
    }
  }

  lemma DoubledAt(head: string, tail: string)
    ensures var s := head + tail; s[0..] == s && s[|head|..] == tail && At(s, 0, head)
  {
  }

  lemma DoubledFrom(es: seq<Elem>, t: string, s: string, rp: nat)
    requires rp <= |s| && s[rp..] == Bare(es) + (t + t)
    ensures Doubled(es, t, s, rp)
  {
  }

  lemma RefusedAt(es: seq<Elem>, s: string, rp: nat, t: string, ks: seq<nat>)
    requires rp == 0 && t != "" && Early(Ops(es), s, rp, [], |t|) && Splits(es, s, rp, ks)
    ensures CanSplit(es, s, 0) && !Accepts(Ops(es), s)
  {
    hide Exec, Ops, Splits;
  }

  lemma HeadRefused(es: seq<Elem>, head: string, s: string, t: string, ks: seq<nat>)
    requires es != [] && es[0] == Lit(head) && At(s, 0, head) && t != ""
    requires Exec(Ranges(head) + Ops(es[1..]), s, 0, []) == Exec(Ops(es[1..]), s, |head|, [])
    requires Early(Ops(es[1..]), s, |head|, [], |t|) && Splits(es[1..], s, |head|, ks)
    ensures CanSplit(es, s, 0) && !Accepts(Ops(es), s)
  {
    assert Splits(es, s, 0, ks);
    assert Ops(es) == Ranges(head) + Ops(es[1..]);
    hide Exec, Splits, Ranges;
  }

  lemma LiteralOnly(es: seq<Elem>, s: string)
    requires OneLiteral(es)
    ensures Accepts(Ops(es), s) <==> CanSplit(es, s, 0)
  {
    var t := es[0].t;
    assert es[1..] == [];
    assert Ops(es) == Ranges(t) + [];
    ExecRanges(t, [], s, 0, []);
    forall ks
      ensures Splits(es, s, 0, ks) <==> At(s, 0, t) && |t| == |s| && ks == []
    {
    }
    if At(s, 0, t) && |t| == |s| {
      assert Splits(es, s, 0, []);
    }
  }

  /** A pattern accepts exactly the lines that have a split if and only if it does not end in a
      literal behind a stretch. */
  lemma AcceptsExactly(es: seq<Elem>)
    requires EndsInStretch(es) || EndsInLiteral(es) || OneLiteral(es)
    ensures (forall s :: Accepts(Ops(es), s) <==> CanSplit(es, s, 0)) <==> !EndsInLiteral(es)
  {
    if EndsInLiteral(es) {
      var s := LiteralEndFails(es);
      assert !(Accepts(Ops(es), s) <==> CanSplit(es, s, 0));
    } else {
      forall s
        ensures Accepts(Ops(es), s) <==> CanSplit(es, s, 0)
      {
        if OneLiteral(es) {
          LiteralOnly(es, s);
        } else {
          var _ := MachineIsLeftmost(es, s);
        }
      }
    }
  }
}
