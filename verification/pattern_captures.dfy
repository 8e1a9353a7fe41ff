/** Where the captures of a line pattern are: one for each name, from its first hole to its last. */
module PatternCaptures {
  import opened Wrappers
  import opened PatternSplit
  import opened PatternGrammar
  import opened PatternMeaning
  import opened PatternMachine
  import opened PatternPieces

  // ---------------------------------------------------------------- places

  /** Where the string for piece k begins. */
  function Place(xs: seq<string>, k: nat): nat
    requires k <= |xs|
  {
    if k == 0 then 0 else Place(xs, k - 1) + |xs[k - 1]|
  }

  /** The first holes of names, from k on. */
  ghost function Firsts(ps: seq<Piece>, k: nat): seq<nat>
    decreases |ps| - k
  {
    if k >= |ps| then [] else (if Begins(ps, k) then [k] else []) + Firsts(ps, k + 1)
  }

  ghost predicate Ascending(ks: seq<nat>)
  {
    forall i, j :: 0 <= i < j < |ks| ==> ks[i] < ks[j]
  }

  lemma {:induction false} FirstsExact(ps: seq<Piece>, k: nat)
    ensures forall i: nat :: i in Firsts(ps, k) <==> k <= i && Begins(ps, i)
    ensures Ascending(Firsts(ps, k))
    decreases |ps| - k
  {
    FirstsStep(ps, k);
    hide *;
    if k < |ps| {
      FirstsExact(ps, k + 1);
      AscendingCons(k, Firsts(ps, k + 1));
    } else {
      AscendingCons(k, []);
    }
  }

  lemma FirstsStep(ps: seq<Piece>, k: nat)
    ensures Firsts(ps, k) == if k >= |ps| then [] else if Begins(ps, k) then [k] + Firsts(ps, k + 1) else Firsts(ps, k + 1)
    ensures k >= |ps| ==> forall i: nat :: k <= i ==> !Begins(ps, i)
  {
    hide Stood;
    if k < |ps| {
      assert [] + Firsts(ps, k + 1) == Firsts(ps, k + 1);
    }
  }

  lemma AscendingCons(k: nat, more: seq<nat>)
    requires more == [] || Ascending(more)
    ensures Ascending([]) && ((forall i :: i in more ==> k < i) ==> Ascending([k] + more))
    ensures forall i: nat :: i in [k] + more <==> i == k || i in more
  {
    assert forall i :: 0 <= i < |more| ==> more[i] in more;
  }

  /** Behind the last hole of a name before k. */
  ghost function EndOf(ps: seq<Piece>, k: nat, n: string): (e: nat)
    ensures e <= k
  {
    if k == 0 then 0 else if Holds(ps, k - 1, n) then k else EndOf(ps, k - 1, n)
  }

  lemma {:induction false} EndOfExact(ps: seq<Piece>, k: nat, n: string)
    ensures var e := EndOf(ps, k, n);
      e <= k && (e > 0 ==> Holds(ps, e - 1, n)) && forall j :: e <= j < k ==> !Holds(ps, j, n)
  {
    if k > 0 {
      EndOfExact(ps, k - 1, n);
    }
  }

  /** The capture of a name: from the place of its first hole to the end of its last one. */
  ghost predicate CaptureOf(ps: seq<Piece>, xs: seq<string>, k: nat, c: Span)
    requires |xs| == |ps| && k < |ps| && ps[k].Hole?
  {
    var e := EndOf(ps, |ps|, ps[k].name);
    e <= |ps| && c == Span(ps[k].name, Place(xs, k), Place(xs, e))
  }

  /** The captures are those of the names, in the order of their first holes. */
  ghost predicate CapturesOf(ps: seq<Piece>, xs: seq<string>, cs: seq<Span>)
  {
    |xs| == |ps| && CapturesFrom(ps, xs, 0, cs)
  }

  ghost predicate CapturesFrom(ps: seq<Piece>, xs: seq<string>, k: nat, cs: seq<Span>)
    requires |xs| == |ps|
  {
    var fs := Firsts(ps, k);
    |cs| == |fs| && forall i :: 0 <= i < |fs| ==> fs[i] < |ps| && ps[fs[i]].Hole? && CaptureOf(ps, xs, fs[i], cs[i])
  }

  // ---------------------------------------------------------------- the events of a split

  function Opt(run: Option<Span>): seq<Span> { if run.Some? then [run.value] else [] }

  function NameOf(run: Option<Span>): Option<string> { if run.Some? then Some(run.value.name) else None }

  /** The captures from p on, behind one that is open. */
  function Caught(ps: seq<Piece>, xs: seq<string>, p: nat, run: Option<Span>): seq<Span>
    requires |xs| == |ps|
  {
    if ps == [] then Opt(run)
    else
      var q := p + |xs[0]|;
      if ps[0].Text? then Caught(ps[1..], xs[1..], q, run)
      else if NameOf(run) == Some(ps[0].name) then Caught(ps[1..], xs[1..], q, Some(run.value.(hi := q)))
      else Opt(run) + Caught(ps[1..], xs[1..], q, if ps[0].name == "_" then None else Some(Span(ps[0].name, p, q)))
  }

  function Begun(run: Option<Span>): seq<Event> { if run.Some? then [Started(run.value.name, run.value.lo)] else [] }

  ghost predicate Spell(evs: seq<Event>, cs: seq<Span>) { Paired(evs) && Spans(evs) == cs }

  lemma SpellCons(c: Span, evs: seq<Event>, cs: seq<Span>)
    requires Spell(evs, cs)
    ensures Spell([Started(c.name, c.lo), Ended(c.hi)] + evs, [c] + cs)
  {
    var all := [Started(c.name, c.lo), Ended(c.hi)] + evs;
    assert all[2..] == evs;
  }

  lemma SpellNone()
    ensures Spell([], [])
  {
  }

  /** The events of the split are the captures. */
  lemma {:induction false} EventsCaught(ps: seq<Piece>, xs: seq<string>, text: string, s: string, p: nat, run: Option<Span>)
    requires Stands(ps, xs) && p <= |s| && s[p..] == text + Line(xs) && (run.Some? ==> run.value.hi == p)
    ensures |xs| == |ps|
    ensures Spell(Begun(run) + Events(Meaning(ps, text, NameOf(run)), p, Lens(ps, xs)), Caught(ps, xs, p + |text|, run))
    decreases |ps|
  {
    hide Lens, Events, Meaning, Spell, Stands, Line, HeadEvents;
    StandsAll(ps, xs);
    if ps == [] {
      NoLens();
      EndSplits(text, NameOf(run), s, p, []);
      EndCaught(run, p);
    } else {
      PieceCuts(ps, xs, text, s, p);
      var rest, ys := ps[1..], xs[1..];
      if ps[0].Text? {
        EventsCaught(rest, ys, text + ps[0].t, s, p, run);
        MeaningText(ps, text, NameOf(run));
        TextAs(ps, xs);
      } else {
        var n, ks, lo := ps[0].name, Lens(ps, xs), p + |text|;
        var q := lo + |xs[0]|;
        HoleSplits(ps, text, NameOf(run), s, p, ks);
        var run' := if NameOf(run) == Some(n) then Some(run.value.(hi := q)) else if n == "_" then None else Some(Span(n, lo, q));
        assert NameOf(run') == RunAfter(NameOf(run), n);
        EventsCaught(rest, ys, "", s, q, run');
        HeadCaught(text, run, n, p, q, run', Events(Meaning(rest, "", NameOf(run')), q, Lens(rest, ys)), Caught(rest, ys, q, run'));
      }
    }
  }

  lemma StandsAll(ps: seq<Piece>, xs: seq<string>)
    requires Stands(ps, xs)
    ensures |xs| == |ps|
  {
  }

  lemma TextAs(ps: seq<Piece>, xs: seq<string>)
    requires Stands(ps, xs) && ps != [] && ps[0].Text?
    ensures xs[0] == ps[0].t
  {
  }

  lemma EndCaught(run: Option<Span>, p: nat)
    requires run.Some? ==> run.value.hi == p
    ensures Spell(Begun(run) + if run.Some? then [Ended(p)] else [], Opt(run))
  {
    SpellNone();
    if run.Some? {
      SpellCons(run.value, [], []);
      assert [Started(run.value.name, run.value.lo), Ended(p)] + [] == Begun(run) + [Ended(p)];
      assert [run.value] + [] == Opt(run);
    }
  }

  lemma HeadCaught(text: string, run: Option<Span>, n: string, p: nat, q: nat, run': Option<Span>, evs: seq<Event>, cs: seq<Span>)
    requires run.Some? ==> run.value.hi == p
    requires run' == if NameOf(run) == Some(n) then Some(run.value.(hi := q)) else if n == "_" then None else Some(Span(n, p + |text|, q))
    requires Spell(Begun(run') + evs, cs)
    ensures Spell(Begun(run) + (HeadEvents(text, NameOf(run), n, p) + evs), if NameOf(run) == Some(n) then cs else Opt(run) + cs)
  {
    var head := HeadEvents(text, NameOf(run), n, p);
    if NameOf(run) == Some(n) {
      assert head + evs == evs;
    } else if run.Some? {
      SpellCons(run.value, Begun(run') + evs, cs);
      assert Begun(run) + (head + evs) == [Started(run.value.name, run.value.lo), Ended(run.value.hi)] + (Begun(run') + evs);
    } else {
      assert Begun(run) + (head + evs) == Begun(run') + evs;
      assert Opt(run) + cs == cs;
    }
  }

  // ---------------------------------------------------------------- captures are where the holes are

  ghost predicate Unseen(ps: seq<Piece>, k: nat, n: string)
  {
    forall j :: k <= j < |ps| ==> !Holds(ps, j, n)
  }

  /** A name that was left does not come again. */
  lemma {:induction false} LeftBehind(ps: seq<Piece>, k: nat, run: Option<string>, seen: set<string>, n: string)
    requires k <= |ps| && NoResume(ps[k..], run, seen) && n in seen && run != Some(n)
    ensures Unseen(ps, k, n)
    decreases |ps| - k
  {
    if k < |ps| {
      assert ps[k..][0] == ps[k] && ps[k..][1..] == ps[k + 1..];
      match ps[k]
      case Text(_) => LeftBehind(ps, k + 1, run, seen, n);
      case Hole(m, _) =>
        if m == "_" {
          LeftBehind(ps, k + 1, None, seen, n);
        } else {
          LeftBehind(ps, k + 1, Some(m), seen + {m}, n);
        }
    }
  }

  /** The capture that is open started at the first hole of its name, and goes up to the last one so far. */
  ghost predicate OpenAt(ps: seq<Piece>, xs: seq<string>, k: nat, run: Option<Span>, seen: set<string>)
    requires |xs| == |ps|
  {
    && k <= |ps| && NoResume(ps[k..], NameOf(run), seen)
    && (forall n :: n in seen <==> n != "_" && Stood(ps, k, n))
    && (run.Some? ==> run.value.name in seen && run.value.hi == Place(xs, EndOf(ps, k, run.value.name)))
  }

  ghost predicate RunEnds(ps: seq<Piece>, xs: seq<string>, run: Option<Span>, c: Span)
    requires |xs| == |ps| && run.Some?
  {
    var e := EndOf(ps, |ps|, run.value.name);
    e <= |ps| && c == run.value.(hi := Place(xs, e))
  }

  /** The captures from piece k on: the open one, and those that begin there. */
  ghost predicate Follow(ps: seq<Piece>, xs: seq<string>, k: nat, run: Option<Span>, cs: seq<Span>)
    requires |xs| == |ps|
  {
    if run.Some? then cs != [] && RunEnds(ps, xs, run, cs[0]) && CapturesFrom(ps, xs, k, cs[1..]) else CapturesFrom(ps, xs, k, cs)
  }

  lemma {:induction false} EndUnseen(ps: seq<Piece>, k: nat, m: nat, n: string)
    requires k <= m && forall j :: k <= j < m ==> !Holds(ps, j, n)
    ensures EndOf(ps, m, n) == EndOf(ps, k, n)
  {
    if k < m {
      EndUnseen(ps, k, m - 1, n);
    }
  }

  lemma {:induction false} CaughtFollow(ps: seq<Piece>, xs: seq<string>, k: nat, run: Option<Span>, seen: set<string>)
    requires |xs| == |ps| && OpenAt(ps, xs, k, run, seen)
    ensures Follow(ps, xs, k, run, Caught(ps[k..], xs[k..], Place(xs, k), run))
    decreases |ps| - k
  {
    hide OpenAt, Follow, Stood;
    OpenPlace(ps, xs, k, run, seen);
    if k == |ps| {
      FollowEnd(ps, xs, run, seen);
    } else {
      assert ps[k..][0] == ps[k] && ps[k..][1..] == ps[k + 1..] && xs[k..][0] == xs[k] && xs[k..][1..] == xs[k + 1..];
      var q := Place(xs, k + 1);
      var cs := Caught(ps[k..], xs[k..], Place(xs, k), run);
      if ps[k].Text? {
        OpenText(ps, xs, k, run, seen);
        CaughtFollow(ps, xs, k + 1, run, seen);
        FollowText(ps, xs, k, run, cs);
      } else {
        var n := ps[k].name;
        var run' := if NameOf(run) == Some(n) then Some(run.value.(hi := q)) else if n == "_" then None else Some(Span(n, Place(xs, k), q));
        var seen' := if n == "_" then seen else seen + {n};
        OpenHole(ps, xs, k, run, seen, run', seen');
        CaughtFollow(ps, xs, k + 1, run', seen');
        var cs' := Caught(ps[k + 1..], xs[k + 1..], q, run');
        FollowHole(ps, xs, k, run, seen, run', cs');
      }
    }
  }

  lemma OpenPlace(ps: seq<Piece>, xs: seq<string>, k: nat, run: Option<Span>, seen: set<string>)
    requires |xs| == |ps| && OpenAt(ps, xs, k, run, seen)
    ensures k <= |ps|
  {
  }

  lemma FollowEnd(ps: seq<Piece>, xs: seq<string>, run: Option<Span>, seen: set<string>)
    requires |xs| == |ps| && OpenAt(ps, xs, |ps|, run, seen)
    ensures Follow(ps, xs, |ps|, run, Opt(run))
  {
    if run.Some? {
      EndOfExact(ps, |ps|, run.value.name);
      assert Opt(run)[1..] == [];
    }
  }

  lemma OpenText(ps: seq<Piece>, xs: seq<string>, k: nat, run: Option<Span>, seen: set<string>)
    requires |xs| == |ps| && k < |ps| && ps[k].Text? && OpenAt(ps, xs, k, run, seen)
    ensures OpenAt(ps, xs, k + 1, run, seen)
  {
    assert ps[k..][0] == ps[k] && ps[k..][1..] == ps[k + 1..];
    forall n
      ensures Stood(ps, k + 1, n) <==> Stood(ps, k, n)
    {
      StoodStep(ps, k, n);
    }
    hide Stood;
  }

  lemma FollowText(ps: seq<Piece>, xs: seq<string>, k: nat, run: Option<Span>, cs: seq<Span>)
    requires |xs| == |ps| && k < |ps| && ps[k].Text? && Follow(ps, xs, k + 1, run, cs)
    ensures Follow(ps, xs, k, run, cs)
  {
    assert Firsts(ps, k) == Firsts(ps, k + 1);
  }

  lemma OpenHole(ps: seq<Piece>, xs: seq<string>, k: nat, run: Option<Span>, seen: set<string>, run': Option<Span>, seen': set<string>)
    requires |xs| == |ps| && k < |ps| && ps[k].Hole? && OpenAt(ps, xs, k, run, seen)
    requires var n := ps[k].name; var q := Place(xs, k + 1);
      && run' == (if NameOf(run) == Some(n) then Some(run.value.(hi := q)) else if n == "_" then None else Some(Span(n, Place(xs, k), q)))
      && seen' == if n == "_" then seen else seen + {n}
    ensures OpenAt(ps, xs, k + 1, run', seen')
  {
    assert ps[k..][0] == ps[k] && ps[k..][1..] == ps[k + 1..];
    forall n
      ensures Stood(ps, k + 1, n) <==> Stood(ps, k, n) || n == ps[k].name
    {
      StoodStep(ps, k, n);
    }
    hide Stood;
  }

  lemma FollowHole(ps: seq<Piece>, xs: seq<string>, k: nat, run: Option<Span>, seen: set<string>, run': Option<Span>, cs: seq<Span>)
    requires |xs| == |ps| && k < |ps| && ps[k].Hole? && OpenAt(ps, xs, k, run, seen)
    requires var n := ps[k].name; var q := Place(xs, k + 1);
      run' == if NameOf(run) == Some(n) then Some(run.value.(hi := q)) else if n == "_" then None else Some(Span(n, Place(xs, k), q))
    requires Follow(ps, xs, k + 1, run', cs)
    ensures Follow(ps, xs, k, run, if NameOf(run) == Some(ps[k].name) then cs else Opt(run) + cs)
  {
    if NameOf(run) == Some(ps[k].name) {
      SameCapture(ps, xs, k, run, seen);
      hide OpenAt, Firsts;
    } else {
      NewCaptures(ps, xs, k, run, seen, run', cs);
      hide Follow, OpenAt, CapturesFrom;
      if run.Some? {
        RunLeft(ps, xs, k, run, seen);
      }
      LeftAndNew(ps, xs, k, run, cs);
    }
  }

  lemma LeftAndNew(ps: seq<Piece>, xs: seq<string>, k: nat, run: Option<Span>, cs: seq<Span>)
    requires |xs| == |ps| && (run.Some? ==> RunEnds(ps, xs, run, run.value)) && CapturesFrom(ps, xs, k, cs)
    ensures Follow(ps, xs, k, run, Opt(run) + cs)
  {
    hide CapturesFrom, RunEnds;
    var all := Opt(run) + cs;
    if run.Some? {
      assert all[1..] == cs;
    } else {
      assert all == cs;
    }
  }

  lemma SameCapture(ps: seq<Piece>, xs: seq<string>, k: nat, run: Option<Span>, seen: set<string>)
    requires |xs| == |ps| && k < |ps| && ps[k].Hole? && OpenAt(ps, xs, k, run, seen) && NameOf(run) == Some(ps[k].name)
    ensures Firsts(ps, k) == Firsts(ps, k + 1)
  {
    hide NoResume;
    assert Stood(ps, k, ps[k].name);
  }

  lemma RunLeft(ps: seq<Piece>, xs: seq<string>, k: nat, run: Option<Span>, seen: set<string>)
    requires |xs| == |ps| && k < |ps| && ps[k].Hole? && OpenAt(ps, xs, k, run, seen)
    requires run.Some? && run.value.name != ps[k].name
    ensures RunEnds(ps, xs, run, run.value)
  {
    assert ps[k..][0] == ps[k] && ps[k..][1..] == ps[k + 1..];
    var n, m := run.value.name, ps[k].name;
    LeftBehind(ps, k + 1, if m == "_" then None else Some(m), if m == "_" then seen else seen + {m}, n);
    EndUnseen(ps, k, |ps|, n);
    EndOfExact(ps, k, n);
  }

  lemma NewCaptures(ps: seq<Piece>, xs: seq<string>, k: nat, run: Option<Span>, seen: set<string>, run': Option<Span>, cs: seq<Span>)
    requires |xs| == |ps| && k < |ps| && ps[k].Hole? && OpenAt(ps, xs, k, run, seen)
    requires NameOf(run) != Some(ps[k].name)
    requires run' == if ps[k].name == "_" then None else Some(Span(ps[k].name, Place(xs, k), Place(xs, k + 1)))
    requires Follow(ps, xs, k + 1, run', cs)
    ensures CapturesFrom(ps, xs, k, cs)
  {
    var n := ps[k].name;
    assert ps[k..][0] == ps[k];
    var more := Firsts(ps, k + 1);
    if n == "_" {
      assert Firsts(ps, k) == more;
    } else {
      assert n !in seen;
      assert !Stood(ps, k, n);
      hide Stood, NoResume;
      assert Firsts(ps, k) == [k] + more;
      assert CaptureOf(ps, xs, k, cs[0]);
      assert forall i :: 0 < i < |cs| ==> cs[i] == cs[1..][i - 1];
    }
  }

  /** The captures of a split are where the holes of the pieces are. */
  lemma SplitCaptures(ps: seq<Piece>, xs: seq<string>, s: string)
    requires Reads(ps, xs, s) && NoResume(ps, None, {})
    ensures var evs := Events(Meaning(ps, "", None), 0, LensOf(ps, xs)); Paired(evs) && CapturesOf(ps, xs, Spans(evs))
  {
    assert s[0..] == s && "" + Line(xs) == Line(xs) && ps[0..] == ps && xs[0..] == xs;
    var evs := Events(Meaning(ps, "", None), 0, LensOf(ps, xs));
    assert [] + evs == evs;
    hide Line, Events, Caught, Meaning, Lens, NoResume, CapturesFrom;
    EventsCaught(ps, xs, "", s, 0, None);
    assert OpenAt(ps, xs, 0, None, {});
    CaughtFollow(ps, xs, 0, None, {});
  }
}
