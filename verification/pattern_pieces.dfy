/** What a line pattern of internal/mdt/pattern.go asks of a line, said of its pieces: the line is one string
    for each piece, a literal standing for itself, and the captures are where the holes are. */
module PatternPieces {
  import opened Wrappers
  import opened Strings
  import opened PatternSplit
  import opened PatternEager
  import opened PatternGrammar
  import opened PatternMeaning

  /** One string for each piece; a literal stands for itself. */
  ghost predicate Stands(ps: seq<Piece>, xs: seq<string>)
  {
    |xs| == |ps| && forall k :: 0 <= k < |ps| && ps[k].Text? ==> xs[k] == ps[k].t
  }

  function Line(xs: seq<string>): string { if xs == [] then "" else xs[0] + Line(xs[1..]) }

  /** The literal t is not met in x, nor across its end. */
  ghost predicate NotMet(x: string, t: string)
  {
    forall q :: 0 <= q < |x| ==> !At(x + t, q, t)
  }

  /** No string for a hole holds the literal behind it. */
  ghost predicate MetFirst(ps: seq<Piece>, xs: seq<string>)
  {
    forall k, m :: 0 <= k && m == k + 1 && m < |ps| && m < |xs| && ps[k].Hole? && ps[m].Text? ==> NotMet(xs[k], ps[m].t)
  }

  /** The line is the pieces with these strings. */
  ghost predicate Reads(ps: seq<Piece>, xs: seq<string>, s: string)
  {
    Stands(ps, xs) && Line(xs) == s
  }

  // ---------------------------------------------------------------- splits are strings for the pieces

  function Lens(ps: seq<Piece>, xs: seq<string>): seq<nat>
    requires |xs| == |ps|
  {
    if ps == [] then [] else (if ps[0].Hole? then [|xs[0]|] else []) + Lens(ps[1..], xs[1..])
  }

  /** What stands before the stretch of a hole. */
  function Head(text: string, run: Option<string>, n: string): seq<Elem>
  {
    if run == Some(n) then LitIf(text) else CloseIf(run) + (LitIf(text) + OpenIf(n))
  }

  function RunAfter(run: Option<string>, n: string): Option<string> { if n == "_" && run != Some(n) then None else Some(n) }

  lemma MeaningHole(ps: seq<Piece>, text: string, run: Option<string>)
    requires ps != [] && ps[0].Hole?
    ensures Meaning(ps, text, run) == Head(text, run, ps[0].name) + ([Any] + Meaning(ps[1..], "", RunAfter(run, ps[0].name)))
  {
    var n := ps[0].name;
    var more := Meaning(ps[1..], "", RunAfter(run, n));
    HeadOf(text, run, n, [Any] + more);
    hide LitIf, CloseIf, Head;
    if run == Some(n) {
      Joins(LitIf(text), [Any], more);
    } else {
      Joins(OpenIf(n), [Any], more);
      Joins(CloseIf(run), LitIf(text), OpenIf(n) + [Any]);
      Joins(CloseIf(run), LitIf(text) + (OpenIf(n) + [Any]), more);
      Joins(LitIf(text), OpenIf(n) + [Any], more);
      OpenAny(n);
    }
  }

  lemma OpenAny(n: string)
    ensures OpenIf(n) + [Any] == if n == "_" then [Any] else [Open(n), Any]
  {
  }

  lemma SplitsCons(e: Elem, es: seq<Elem>, s: string, p: nat, ks: seq<nat>)
    ensures e.Open? || e.Close? ==> (Splits([e] + es, s, p, ks) <==> Splits(es, s, p, ks)) && (Earliest([e] + es, s, p, ks) <==> Earliest(es, s, p, ks))
    ensures e.Lit? ==> (Splits([e] + es, s, p, ks) <==> At(s, p, e.t) && Splits(es, s, p + |e.t|, ks))
    ensures e.Lit? ==> (Earliest([e] + es, s, p, ks) <==> Earliest(es, s, p + |e.t|, ks))
    ensures e.Any? ==> (Splits([e] + es, s, p, ks) <==> ks != [] && p + ks[0] <= |s| && Splits(es, s, p + ks[0], ks[1..]))
    ensures e.Any? && ks != [] ==>
      (Earliest([e] + es, s, p, ks) <==> NotBefore(es, s, p, ks[0]) && Earliest(es, s, p + ks[0], ks[1..]))
    ensures e.Open? ==> Events([e] + es, p, ks) == [Started(e.name, p)] + Events(es, p, ks)
    ensures e.Close? ==> Events([e] + es, p, ks) == [Ended(p)] + Events(es, p, ks)
    ensures e.Lit? ==> Events([e] + es, p, ks) == Events(es, p + |e.t|, ks)
    ensures e.Any? && ks != [] ==> Events([e] + es, p, ks) == Events(es, p + ks[0], ks[1..])
  {
    assert ([e] + es)[1..] == es;
  }

  lemma SplitsClose(run: Option<string>, es: seq<Elem>, s: string, p: nat, ks: seq<nat>)
    ensures Splits(CloseIf(run) + es, s, p, ks) <==> Splits(es, s, p, ks)
    ensures Earliest(CloseIf(run) + es, s, p, ks) <==> Earliest(es, s, p, ks)
    ensures Events(CloseIf(run) + es, p, ks) == (if run.Some? then [Ended(p)] else []) + Events(es, p, ks)
  {
    SplitsCons(Close, es, s, p, ks);
    assert [] + es == es;
    hide Splits, Earliest, Events;
  }

  lemma SplitsLit(text: string, es: seq<Elem>, s: string, p: nat, ks: seq<nat>)
    requires p <= |s|
    ensures Splits(LitIf(text) + es, s, p, ks) <==> At(s, p, text) && Splits(es, s, p + |text|, ks)
    ensures Earliest(LitIf(text) + es, s, p, ks) <==> Earliest(es, s, p + |text|, ks)
    ensures Events(LitIf(text) + es, p, ks) == Events(es, p + |text|, ks)
  {
    SplitsCons(Lit(text), es, s, p, ks);
    assert [] + es == es;
    hide Splits, Earliest, Events;
  }

  function HeadEvents(text: string, run: Option<string>, n: string, p: nat): seq<Event>
  {
    if run == Some(n) then []
    else (if run.Some? then [Ended(p)] else []) + if n == "_" then [] else [Started(n, p + |text|)]
  }

  lemma Joins<T>(a: seq<T>, b: seq<T>, c: seq<T>)
    ensures (a + b) + c == a + (b + c) && [] + c == c
  {
  }

  function OpenIf(n: string): seq<Elem> { if n == "_" then [] else [Open(n)] }

  lemma SplitsOpen(n: string, es: seq<Elem>, s: string, p: nat, ks: seq<nat>)
    ensures Splits(OpenIf(n) + es, s, p, ks) <==> Splits(es, s, p, ks)
    ensures Earliest(OpenIf(n) + es, s, p, ks) <==> Earliest(es, s, p, ks)
    ensures Events(OpenIf(n) + es, p, ks) == (if n == "_" then [] else [Started(n, p)]) + Events(es, p, ks)
  {
    SplitsCons(Open(n), es, s, p, ks);
    Joins([], [], es);
    hide Splits, Earliest, Events;
  }

  lemma HeadOf(text: string, run: Option<string>, n: string, es: seq<Elem>)
    ensures Head(text, run, n) + es == if run == Some(n) then LitIf(text) + es else CloseIf(run) + (LitIf(text) + (OpenIf(n) + es))
  {
    hide LitIf, CloseIf;
    Joins(LitIf(text), OpenIf(n), es);
    Joins(CloseIf(run), LitIf(text), OpenIf(n));
    Joins(CloseIf(run), LitIf(text) + OpenIf(n), es);
  }

  lemma SplitsHead(text: string, run: Option<string>, n: string, es: seq<Elem>, s: string, p: nat, ks: seq<nat>)
    requires p <= |s|
    ensures Splits(Head(text, run, n) + es, s, p, ks) <==> At(s, p, text) && Splits(es, s, p + |text|, ks)
    ensures Earliest(Head(text, run, n) + es, s, p, ks) <==> Earliest(es, s, p + |text|, ks)
    ensures Events(Head(text, run, n) + es, p, ks) == HeadEvents(text, run, n, p) + Events(es, p + |text|, ks)
  {
    hide Splits, Earliest, Events, CloseIf, LitIf, At, Head, OpenIf;
    HeadOf(text, run, n, es);
    if run == Some(n) {
      SplitsLit(text, es, s, p, ks);
      Joins<Event>([], [], Events(es, p + |text|, ks));
    } else {
      var rest := OpenIf(n) + es;
      SplitsOpen(n, es, s, p + |text|, ks);
      SplitsLit(text, rest, s, p, ks);
      SplitsClose(run, LitIf(text) + rest, s, p, ks);
      Joins(if run.Some? then [Ended(p)] else [], if n == "_" then [] else [Started(n, p + |text|)], Events(es, p + |text|, ks));
    }
  }

  /** A hole: the literal stands before its stretch, and the rest behind it. */
  lemma HoleSplits(ps: seq<Piece>, text: string, run: Option<string>, s: string, p: nat, ks: seq<nat>)
    requires ps != [] && ps[0].Hole? && p <= |s|
    ensures var more := Meaning(ps[1..], "", RunAfter(run, ps[0].name));
      && (Splits(Meaning(ps, text, run), s, p, ks) <==>
          At(s, p, text) && ks != [] && p + |text| + ks[0] <= |s| && Splits(more, s, p + |text| + ks[0], ks[1..]))
      && (ks == [] || (Earliest(Meaning(ps, text, run), s, p, ks) <==>
          NotBefore(more, s, p + |text|, ks[0]) && Earliest(more, s, p + |text| + ks[0], ks[1..])))
      && (ks == [] || Events(Meaning(ps, text, run), p, ks) == HeadEvents(text, run, ps[0].name, p) + Events(more, p + |text| + ks[0], ks[1..]))
  {
    hide Splits, Earliest, Events, Meaning, Head, HeadEvents, NotBefore, At;
    var more := Meaning(ps[1..], "", RunAfter(run, ps[0].name));
    MeaningHole(ps, text, run);
    SplitsHead(text, run, ps[0].name, [Any] + more, s, p, ks);
    SplitsCons(Any, more, s, p + |text|, ks);
  }

  lemma EndSplits(text: string, run: Option<string>, s: string, p: nat, ks: seq<nat>)
    requires p <= |s|
    ensures Splits(Meaning([], text, run), s, p, ks) <==> s[p..] == text && ks == []
    ensures Earliest(Meaning([], text, run), s, p, ks)
    ensures Events(Meaning([], text, run), p, ks) == if run.Some? then [Ended(p)] else []
  {
    SplitsLit(text, [], s, p, ks);
    SplitsClose(run, LitIf(text), s, p, ks);
    assert LitIf(text) + [] == LitIf(text);
  }

  lemma Cutting(s: string, p: nat, a: string, b: string)
    requires p <= |s|
    ensures s[p..] == a + b <==> At(s, p, a) && p + |a| <= |s| && s[p + |a|..] == b
  {
    if s[p..] == a + b {
      assert s[p..][..|a|] == a && s[p..][|a|..] == b;
    }
  }

  lemma Line0(ps: seq<Piece>, xs: seq<string>)
    requires Stands(ps, xs) && ps != []
    ensures Stands(ps[1..], xs[1..]) && Line(xs) == xs[0] + Line(xs[1..])
    ensures ps[0].Text? ==> xs[0] == ps[0].t && Lens(ps, xs) == Lens(ps[1..], xs[1..])
    ensures ps[0].Hole? ==> Lens(ps, xs) == [|xs[0]|] + Lens(ps[1..], xs[1..])
  {
    assert [] + Lens(ps[1..], xs[1..]) == Lens(ps[1..], xs[1..]);
  }

  /** The lengths of the strings for the holes split the line. */
  lemma {:induction false} StringsSplit(ps: seq<Piece>, xs: seq<string>, text: string, run: Option<string>, s: string, p: nat)
    requires Stands(ps, xs) && p <= |s| && s[p..] == text + Line(xs)
    ensures Splits(Meaning(ps, text, run), s, p, Lens(ps, xs))
    decreases |ps|
  {
    hide Splits, Lens, At;
    if ps == [] {
      assert text + "" == text && Lens([], []) == [] by { NoLens(); }
      EndSplits(text, run, s, p, []);
    } else {
      PieceCuts(ps, xs, text, s, p);
      hide Stands, Meaning, Line;
      if ps[0].Text? {
        StringsSplit(ps[1..], xs[1..], text + ps[0].t, run, s, p);
        MeaningText(ps, text, run);
      } else {
        var ks := Lens(ps, xs);
        StringsSplit(ps[1..], xs[1..], "", RunAfter(run, ps[0].name), s, p + |text| + ks[0]);
        HoleSplits(ps, text, run, s, p, ks);
      }
    }
  }

  lemma MeaningText(ps: seq<Piece>, text: string, run: Option<string>)
    requires ps != [] && ps[0].Text?
    ensures Meaning(ps, text, run) == Meaning(ps[1..], text + ps[0].t, run)
  {
  }

  /** Where the string for the first piece is. */
  lemma PieceCuts(ps: seq<Piece>, xs: seq<string>, text: string, s: string, p: nat)
    requires Stands(ps, xs) && ps != [] && p <= |s| && s[p..] == text + Line(xs)
    ensures |xs| == |ps| && Stands(ps[1..], xs[1..])
    ensures ps[0].Text? ==> s[p..] == (text + ps[0].t) + Line(xs[1..]) && Lens(ps, xs) == Lens(ps[1..], xs[1..])
    ensures ps[0].Hole? ==>
      var q := p + |text|;
      && At(s, p, text) && q + |xs[0]| <= |s| && s[q..] == xs[0] + Line(xs[1..])
      && s[q + |xs[0]|..] == "" + Line(xs[1..]) && Lens(ps, xs) == [|xs[0]|] + Lens(ps[1..], xs[1..])
  {
    Line0(ps, xs);
    hide Lens, Line, At;
    var rest := Line(xs[1..]);
    Joins(text, xs[0], rest);
    Joins([], [], rest);
    Cutting(s, p, text, xs[0] + rest);
    if ps[0].Hole? {
      Cutting(s, p + |text|, xs[0], rest);
    }
  }

  lemma NoLens()
    ensures Lens([], []) == []
  {
  }

  /** A split gives every piece its string. */
  lemma {:induction false} SplitStrings(ps: seq<Piece>, text: string, run: Option<string>, s: string, p: nat, ks: seq<nat>) returns (xs: seq<string>)
    requires p <= |s| && Splits(Meaning(ps, text, run), s, p, ks)
    ensures Stands(ps, xs) && s[p..] == text + Line(xs) && Lens(ps, xs) == ks
    decreases |ps|
  {
    hide Splits, Lens, At;
    if ps == [] {
      xs := [];
      EndSplits(text, run, s, p, ks);
      NoLens();
      assert text + "" == text;
    } else if ps[0].Text? {
      var more := SplitStrings(ps[1..], text + ps[0].t, run, s, p, ks);
      xs := [ps[0].t] + more;
      assert xs[1..] == more;
      assert (text + ps[0].t) + Line(more) == text + (ps[0].t + Line(more));
      Line0(ps, xs);
    } else {
      HoleSplits(ps, text, run, s, p, ks);
      var q := p + |text|;
      var more := SplitStrings(ps[1..], "", RunAfter(run, ps[0].name), s, q + ks[0], ks[1..]);
      xs := OneString(ps, text, s, p, ks, more);
    }
  }

  lemma OneString(ps: seq<Piece>, text: string, s: string, p: nat, ks: seq<nat>, more: seq<string>) returns (xs: seq<string>)
    requires ps != [] && ps[0].Hole? && At(s, p, text) && ks != [] && p + |text| + ks[0] <= |s|
    requires Stands(ps[1..], more) && s[p + |text| + ks[0]..] == "" + Line(more) && Lens(ps[1..], more) == ks[1..]
    ensures Stands(ps, xs) && s[p..] == text + Line(xs) && Lens(ps, xs) == ks
  {
    hide Lens, At, Line;
    var q := p + |text|;
    var x := s[q..q + ks[0]];
    xs := [x] + more;
    assert xs[1..] == more && "" + Line(more) == Line(more);
    assert Stands(ps, xs) by { hide *; StandsCons(ps, x, more); }
    Line0(ps, xs);
    Sliced(s, q, ks[0]);
    Cutting(s, q, x, Line(more));
    Cutting(s, p, text, x + Line(more));
  }

  lemma StandsCons(ps: seq<Piece>, x: string, more: seq<string>)
    requires ps != [] && Stands(ps[1..], more) && (ps[0].Text? ==> x == ps[0].t)
    ensures Stands(ps, [x] + more)
  {
  }

  lemma Sliced(s: string, q: nat, k: nat)
    requires q + k <= |s|
    ensures At(s, q, s[q..q + k]) && |s[q..q + k]| == k
  {
  }

  // ---------------------------------------------------------------- literals met first

  /** The literal that comes next, behind the end of a capture, is t. */
  ghost predicate Nearest(es: seq<Elem>, t: Option<string>)
  {
    var j := Closes(es);
    (j < |es| && es[j].Lit? <==> t.Some?) && (j < |es| && es[j].Lit? ==> t == Some(es[j].t))
  }

  lemma NearestIs(run: Option<string>, es: seq<Elem>)
    requires es != [] ==> !es[0].Close?
    ensures Nearest(CloseIf(run) + es, if es != [] && es[0].Lit? then Some(es[0].t) else None)
  {
    ClosesOf(run, es);
  }

  lemma NearestHole(ps: seq<Piece>, text: string, run: Option<string>)
    requires ps != [] && ps[0].Hole?
    ensures Nearest(Meaning(ps, text, run), if text == "" then None else Some(text))
  {
    var n := ps[0].name;
    var tail := [Any] + Meaning(ps[1..], "", RunAfter(run, n));
    MeaningHole(ps, text, run);
    HeadOf(text, run, n, tail);
    hide Nearest, Meaning, Head, CloseIf;
    Joins([], [], tail);
    if run == Some(n) {
      NearestIs(None, LitIf(text) + tail);
      NotRunning(LitIf(text) + tail);
    } else {
      NearestIs(run, LitIf(text) + (OpenIf(n) + tail));
    }
  }

  lemma NotRunning(es: seq<Elem>)
    ensures CloseIf(None) + es == es
  {
  }

  lemma NextLiteral(ps: seq<Piece>, run: Option<string>)
    requires PiecesOk(ps)
    ensures Nearest(Meaning(ps, "", run), if ps != [] && ps[0].Text? then Some(ps[0].t) else None)
  {
    if ps == [] {
      NearestIs(run, []);
    } else if ps[0].Hole? {
      NearestHole(ps, "", run);
    } else {
      var t := ps[0].t;
      assert "" + t == t;
      if |ps| == 1 {
        NearestIs(run, [Lit(t)]);
        assert Meaning(ps[1..], t, run) == CloseIf(run) + [Lit(t)];
      } else {
        NearestHole(ps[1..], t, run);
      }
    }
  }

  lemma ClosesOf(run: Option<string>, es: seq<Elem>)
    requires es != [] ==> !es[0].Close?
    ensures var all := CloseIf(run) + es; var j := Closes(all);
      j == |CloseIf(run)| && (j < |all| <==> es != []) && (es != [] ==> all[j] == es[0])
  {
    if run.Some? {
      assert ([Close] + es)[1..] == es;
    } else {
      assert [] + es == es;
    }
  }

  lemma MetInside(s: string, p: nat, x: string, t: string, rest: string)
    requires p <= |s| && s[p..] == x + (t + rest)
    ensures NotMet(x, t) <==> forall q :: p <= q < p + |x| ==> !At(s, q, t)
  {
    forall q | 0 <= q < |x|
      ensures At(x + t, q, t) <==> At(s, p + q, t)
    {
      assert s[p..] == (x + t) + rest;
      assert (x + t)[q..q + |t|] == s[p..][q..q + |t|] == s[p + q..p + q + |t|];
    }
    if NotMet(x, t) {
      forall q | p <= q < p + |x|
        ensures !At(s, q, t)
      {
        assert !At(x + t, q - p, t);
      }
    }
  }

  lemma MetFirstCons(ps: seq<Piece>, xs: seq<string>)
    requires |ps| == |xs| && ps != []
    ensures MetFirst(ps, xs) <==>
      MetFirst(ps[1..], xs[1..]) && (|ps| > 1 && ps[0].Hole? && ps[1].Text? ==> NotMet(xs[0], ps[1].t))
  {
    var a, b := ps[1..], xs[1..];
    hide NotMet;
    if MetFirst(ps, xs) {
      forall k, m | 0 <= k && m == k + 1 && m < |a| && m < |b| && a[k].Hole? && a[m].Text?
        ensures NotMet(b[k], a[m].t)
      {
        assert ps[k + 1].Hole? && ps[m + 1].Text?;
      }
    }
    if MetFirst(a, b) && (|ps| > 1 && ps[0].Hole? && ps[1].Text? ==> NotMet(xs[0], ps[1].t)) {
      forall k, m | 0 <= k && m == k + 1 && m < |ps| && m < |xs| && ps[k].Hole? && ps[m].Text?
        ensures NotMet(xs[k], ps[m].t)
      {
        if k > 0 {
          assert a[k - 1].Hole? && a[m - 1].Text?;
        }
      }
    }
  }

  /** The split is one that meets every literal first, if and only if the strings are. */
  lemma {:induction false} EarliestIs(ps: seq<Piece>, xs: seq<string>, text: string, run: Option<string>, s: string, p: nat)
    requires PiecesOk(ps) && Stands(ps, xs) && p <= |s| && s[p..] == text + Line(xs)
    ensures Earliest(Meaning(ps, text, run), s, p, Lens(ps, xs)) <==> MetFirst(ps, xs)
    decreases |ps|
  {
    hide Splits, Earliest, Lens, At, MetFirst, NotMet, NotBefore;
    if ps == [] {
      NoLens();
      EndSplits(text, run, s, p, []);
      NoneMet();
    } else {
      PieceCuts(ps, xs, text, s, p);
      MetFirstCons(ps, xs);
      hide Stands, Meaning, Line;
      if ps[0].Text? {
        EarliestIs(ps[1..], xs[1..], text + ps[0].t, run, s, p);
        MeaningText(ps, text, run);
      } else {
        var ks := Lens(ps, xs);
        var q := p + |text|;
        var run' := RunAfter(run, ps[0].name);
        EarliestIs(ps[1..], xs[1..], "", run', s, q + ks[0]);
        HoleSplits(ps, text, run, s, p, ks);
        NextMet(ps[1..], xs[1..], run', s, q, xs[0]);
      }
    }
  }

  lemma NoneMet()
    ensures MetFirst([], [])
  {
  }

  lemma NextMet(ps: seq<Piece>, xs: seq<string>, run: Option<string>, s: string, q: nat, x: string)
    requires PiecesOk(ps) && Stands(ps, xs) && q <= |s| && s[q..] == x + Line(xs)
    ensures NotBefore(Meaning(ps, "", run), s, q, |x|) <==> (ps != [] && ps[0].Text? ==> NotMet(x, ps[0].t))
  {
    NextLiteral(ps, run);
    hide NotMet, At, Meaning, PiecesOk;
    if ps != [] && ps[0].Text? {
      Line0(ps, xs);
      MetInside(s, q, x, ps[0].t, Line(xs[1..]));
    }
  }

  /** A line splits as a pattern asks if and only if it is the pieces with some strings, and meets every
      literal first if and only if these do. */
  lemma SplitsAsPieces(ps: seq<Piece>, s: string)
    requires PiecesOk(ps)
    ensures var es := Meaning(ps, "", None);
      && (CanSplit(es, s, 0) <==> exists xs :: Reads(ps, xs, s))
      && ((exists ks :: Eager(es, s, 0, ks)) <==> exists xs :: Reads(ps, xs, s) && MetFirst(ps, xs))
  {
    var es := Meaning(ps, "", None);
    hide Splits, Earliest, Meaning, MetFirst, Stands, PiecesOk, Line, Lens;
    assert s[0..] == s;
    forall xs | Reads(ps, xs, s)
      ensures Splits(es, s, 0, LensOf(ps, xs)) && (MetFirst(ps, xs) <==> Earliest(es, s, 0, LensOf(ps, xs)))
    {
      ReadsSplit(ps, xs, s);
    }
    forall ks | Splits(es, s, 0, ks)
      ensures exists xs :: Reads(ps, xs, s) && LensOf(ps, xs) == ks
    {
      var xs := SplitReads(ps, s, ks);
    }
    if exists xs :: Reads(ps, xs, s) && MetFirst(ps, xs) {
      var xs :| Reads(ps, xs, s) && MetFirst(ps, xs);
      assert Eager(es, s, 0, LensOf(ps, xs));
    }
  }

  function LensOf(ps: seq<Piece>, xs: seq<string>): seq<nat> { if |xs| == |ps| then Lens(ps, xs) else [] }

  lemma ReadsSplit(ps: seq<Piece>, xs: seq<string>, s: string)
    requires PiecesOk(ps) && Reads(ps, xs, s)
    ensures var es := Meaning(ps, "", None);
      Splits(es, s, 0, LensOf(ps, xs)) && (MetFirst(ps, xs) <==> Earliest(es, s, 0, LensOf(ps, xs)))
  {
    assert s[0..] == s && "" + Line(xs) == Line(xs);
    StringsSplit(ps, xs, "", None, s, 0);
    EarliestIs(ps, xs, "", None, s, 0);
  }

  lemma SplitReads(ps: seq<Piece>, s: string, ks: seq<nat>) returns (xs: seq<string>)
    requires Splits(Meaning(ps, "", None), s, 0, ks)
    ensures Reads(ps, xs, s) && LensOf(ps, xs) == ks
  {
    assert s[0..] == s;
    xs := SplitStrings(ps, "", None, s, 0, ks);
    assert "" + Line(xs) == Line(xs);
  }
}
