/** The runes an expression can start with, and the choices compileExpr of internal/mdt/compile.go makes
    from them: one rune ahead, the machine follows one branch and drops the other. */
module RuneLookahead {
  import opened Wrappers
  import opened Ebnf
  import opened RuneRanges

  // ---------------------------------------------------------------- the language

  /** Every name in e is defined, and by a production of rank below level. */
  ghost predicate Below(g: Grammar, rank: map<string, nat>, level: nat, e: Expr)
    decreases e
  {
    match e
    case Name(n) => n in g && n in rank && rank[n] < level
    case Group(b) => Below(g, rank, level, b)
    case Optional(b) => Below(g, rank, level, b)
    case Repetition(b) => Below(g, rank, level, b)
    case Sequence(es) => forall i :: 0 <= i < |es| ==> Below(g, rank, level, es[i])
    case Alternative(es) => forall i :: 0 <= i < |es| ==> Below(g, rank, level, es[i])
    case _ => true
  }

  /** No production uses itself, directly or through others. */
  ghost predicate Acyclic(g: Grammar, rank: map<string, nat>)
  {
    forall n :: n in g && n in rank ==> g[n].expr.Some? && Below(g, rank, rank[n], g[n].expr.value) && Sound(g[n].expr.value)
  }

  /** Expressions the compiler takes: tokens of one-byte characters, no empty sequence, no empty range. */
  predicate Sound(e: Expr)
    decreases e
  {
    match e
    case Token(t) => t != "" && forall i :: 0 <= i < |t| ==> t[i] as int < 0x80
    case Range(lo, hi) => lo <= hi
    case Any => true
    case Name(_) => true
    case Bad => false
    case Group(b) => Sound(b)
    case Optional(b) => Sound(b)
    case Repetition(b) => Sound(b)
    case Sequence(es) => es != [] && forall i :: 0 <= i < |es| ==> Sound(es[i])
    case Alternative(es) => es != [] && forall i :: 0 <= i < |es| ==> Sound(es[i])
  }

  /** An expression the compiler takes. */
  ghost predicate Takes(g: Grammar, rank: map<string, nat>, level: nat, e: Expr)
  {
    Acyclic(g, rank) && Below(g, rank, level, e) && Sound(e)
  }

  ghost predicate TakesAll(g: Grammar, rank: map<string, nat>, level: nat, es: seq<Expr>)
  {
    Acyclic(g, rank) && forall i :: 0 <= i < |es| ==> Below(g, rank, level, es[i]) && Sound(es[i])
  }

  /** e derives the string w. */
  ghost predicate Derives(g: Grammar, rank: map<string, nat>, level: nat, e: Expr, w: string)
    requires Acyclic(g, rank) && Below(g, rank, level, e)
    decreases level, e, 1, |w|
  {
    match e
    case Token(t) => w == t
    case Range(lo, hi) => |w| == 1 && lo <= w[0] <= hi
    case Any => true
    case Name(n) => Derives(g, rank, rank[n], g[n].expr.value, w)
    case Bad => false
    case Group(b) => Derives(g, rank, level, b, w)
    case Optional(b) => w == "" || Derives(g, rank, level, b, w)
    case Repetition(b) => Repeats(g, rank, level, b, w)
    case Sequence(es) => DerivesAll(g, rank, level, es, w)
    case Alternative(es) => exists i :: 0 <= i < |es| && Derives(g, rank, level, es[i], w)
  }

  /** w is any number of strings of b; empty ones add nothing. */
  ghost predicate Repeats(g: Grammar, rank: map<string, nat>, level: nat, b: Expr, w: string)
    requires Acyclic(g, rank) && Below(g, rank, level, b)
    decreases level, b, 2, |w|
  {
    w == "" || exists k :: 0 < k <= |w| && Derives(g, rank, level, b, w[..k]) && Repeats(g, rank, level, b, w[k..])
  }

  ghost predicate DerivesAll(g: Grammar, rank: map<string, nat>, level: nat, es: seq<Expr>, w: string)
    requires Acyclic(g, rank) && forall i :: 0 <= i < |es| ==> Below(g, rank, level, es[i])
    decreases level, es, 0, |w|
  {
    if es == [] then w == ""
    else
      exists k :: 0 <= k <= |w| && Derives(g, rank, level, es[0], w[..k]) && DerivesAll(g, rank, level, es[1..], w[k..])
  }

  /** Every expression the compiler takes derives some string that is not empty. */
  lemma {:induction false} DerivesSome(g: Grammar, rank: map<string, nat>, level: nat, e: Expr) returns (w: string)
    requires Takes(g, rank, level, e)
    ensures w != "" && Derives(g, rank, level, e, w)
    decreases level, e, 1
  {
    match e
    case Token(t) => w := t;
    case Range(lo, hi) => w := [lo];
    case Any => w := "y";
    case Name(n) => w := DerivesSome(g, rank, rank[n], g[n].expr.value);
    case Group(b) => w := DerivesSome(g, rank, level, b);
    case Optional(b) => w := DerivesSome(g, rank, level, b);
    case Repetition(b) =>
      w := DerivesSome(g, rank, level, b);
      assert w[..|w|] == w && w[|w|..] == "";
      assert Repeats(g, rank, level, b, "");
    case Sequence(es) => w := AllDeriveSome(g, rank, level, es);
    case Alternative(es) => w := DerivesSome(g, rank, level, es[0]);
  }

  lemma {:induction false} AllDeriveSome(g: Grammar, rank: map<string, nat>, level: nat, es: seq<Expr>) returns (w: string)
    requires TakesAll(g, rank, level, es)
    ensures (es != [] ==> w != "") && DerivesAll(g, rank, level, es, w)
    decreases level, es, 0
  {
    if es == [] {
      w := "";
    } else {
      var first := DerivesSome(g, rank, level, es[0]);
      var more := AllDeriveSome(g, rank, level, es[1..]);
      w := first + more;
      assert w[..|first|] == first && w[|first|..] == more;
    }
  }

  // ---------------------------------------------------------------- runesIn

  function RunesIn(g: Grammar, rank: map<string, nat>, level: nat, e: Expr): seq<Rng>
    requires Acyclic(g, rank) && Below(g, rank, level, e) && Sound(e)
    decreases level, e, 1
  {
    match e
    case Token(t) => [Rng(t[0] as int, t[0] as int)]
    case Range(lo, hi) => [Rng(lo as int, hi as int)]
    case Any => AnyRune
    case Name(n) => RunesIn(g, rank, rank[n], g[n].expr.value)
    case Group(b) => RunesIn(g, rank, level, b)
    case Optional(b) => RunesIn(g, rank, level, b)
    case Repetition(b) => RunesIn(g, rank, level, b)
    case Sequence(es) => MinRanges(RunesOf(g, rank, level, es, true))
    case Alternative(es) => MinRanges(RunesOf(g, rank, level, es, false))
  }

  /** The runes of one expression after the other; of a sequence, up to the first token. */
  function RunesOf(g: Grammar, rank: map<string, nat>, level: nat, es: seq<Expr>, stop: bool): seq<Rng>
    requires Acyclic(g, rank) && forall i :: 0 <= i < |es| ==> Below(g, rank, level, es[i]) && Sound(es[i])
    decreases level, es, 0
  {
    if es == [] then []
    else
      RunesIn(g, rank, level, es[0])
      + if stop && es[0].Token? then [] else RunesOf(g, rank, level, es[1..], stop)
  }

  lemma RuneOf(c: char)
    ensures 0 <= c as int <= MaxRune
  {
  }

  /** The runes of an expression are in order, apart, and at least one. */
  lemma {:induction false} RunesListed(g: Grammar, rank: map<string, nat>, level: nat, e: Expr)
    requires Acyclic(g, rank) && Below(g, rank, level, e) && Sound(e)
    ensures Listed(RunesIn(g, rank, level, e)) && RunesIn(g, rank, level, e) != []
    decreases level, e, 1
  {
    match e
    case Token(t) => RuneOf(t[0]);
    case Range(lo, hi) => RuneOf(lo); RuneOf(hi);
    case Any =>
    case Name(n) => RunesListed(g, rank, rank[n], g[n].expr.value);
    case Group(b) => RunesListed(g, rank, level, b);
    case Optional(b) => RunesListed(g, rank, level, b);
    case Repetition(b) => RunesListed(g, rank, level, b);
    case Sequence(es) =>
      RunesOfProper(g, rank, level, es, true);
      MinRangesListed(RunesOf(g, rank, level, es, true));
    case Alternative(es) =>
      RunesOfProper(g, rank, level, es, false);
      MinRangesListed(RunesOf(g, rank, level, es, false));
  }

  /** Runes that reach the largest one are all runes: only free text has it. */
  lemma {:induction false} MaxIsAny(g: Grammar, rank: map<string, nat>, level: nat, e: Expr)
    requires Takes(g, rank, level, e)
    ensures In(MaxRune, RunesIn(g, rank, level, e)) ==> RunesIn(g, rank, level, e) == AnyRune
    decreases level, e, 1
  {
    match e
    case Token(t) => InOne(MaxRune, Rng(t[0] as int, t[0] as int));
    case Range(lo, hi) => InOne(MaxRune, Rng(lo as int, hi as int));
    case Any =>
    case Name(n) => MaxIsAny(g, rank, rank[n], g[n].expr.value);
    case Group(b) => MaxIsAny(g, rank, level, b);
    case Optional(b) => MaxIsAny(g, rank, level, b);
    case Repetition(b) => MaxIsAny(g, rank, level, b);
    case Sequence(es) => MaxOfIsAny(g, rank, level, es, true);
    case Alternative(es) => MaxOfIsAny(g, rank, level, es, false);
  }

  lemma {:induction false} MaxOfIsAny(g: Grammar, rank: map<string, nat>, level: nat, es: seq<Expr>, stop: bool)
    requires TakesAll(g, rank, level, es)
    ensures In(MaxRune, MinRanges(RunesOf(g, rank, level, es, stop))) ==> MinRanges(RunesOf(g, rank, level, es, stop)) == AnyRune
    decreases level, es, 1
  {
    var rs := RunesOf(g, rank, level, es, stop);
    MinRangesExact(rs);
    RunesOfProper(g, rank, level, es, stop);
    MaxHeldIsAny(g, rank, level, es, stop);
    if In(MaxRune, rs) {
      MinRangesAny(rs);
    }
  }

  lemma {:induction false} MaxHeldIsAny(g: Grammar, rank: map<string, nat>, level: nat, es: seq<Expr>, stop: bool)
    requires TakesAll(g, rank, level, es)
    ensures In(MaxRune, RunesOf(g, rank, level, es, stop)) ==> Rng(0, MaxRune) in RunesOf(g, rank, level, es, stop)
    decreases level, es, 0
  {
    if es == [] {
      InOne(MaxRune, Rng(0, 0));
    } else {
      var first := RunesIn(g, rank, level, es[0]);
      var rest := if stop && es[0].Token? then [] else RunesOf(g, rank, level, es[1..], stop);
      InAppend(MaxRune, first, rest);
      MaxIsAny(g, rank, level, es[0]);
      if In(MaxRune, first) {
        assert first[0] == Rng(0, MaxRune);
      }
      InOne(MaxRune, Rng(0, 0));
      if !(stop && es[0].Token?) {
        MaxHeldIsAny(g, rank, level, es[1..], stop);
      }
    }
  }

  lemma MinRangesListed(rs: seq<Rng>)
    requires Proper(rs) && rs != []
    ensures Listed(MinRanges(rs)) && MinRanges(rs) != []
  {
    MinRangesExact(rs);
  }

  lemma {:induction false} RunesOfProper(g: Grammar, rank: map<string, nat>, level: nat, es: seq<Expr>, stop: bool)
    requires Acyclic(g, rank) && forall i :: 0 <= i < |es| ==> Below(g, rank, level, es[i]) && Sound(es[i])
    ensures Proper(RunesOf(g, rank, level, es, stop)) && (es != [] ==> RunesOf(g, rank, level, es, stop) != [])
    decreases level, es, 0
  {
    if es != [] {
      RunesListed(g, rank, level, es[0]);
      if !(stop && es[0].Token?) {
        RunesOfProper(g, rank, level, es[1..], stop);
      }
    }
  }

  // ---------------------------------------------------------------- every string starts in runesIn

  ghost predicate StartsIn(w: string, rs: seq<Rng>) { w != "" ==> In(w[0] as int, rs) }

  /** Every string that e derives is empty or starts with a rune of RunesIn. */
  lemma {:induction false} FirstRune(g: Grammar, rank: map<string, nat>, level: nat, e: Expr, w: string)
    requires Acyclic(g, rank) && Below(g, rank, level, e) && Sound(e) && Derives(g, rank, level, e, w)
    ensures StartsIn(w, RunesIn(g, rank, level, e))
    decreases level, e, 1, |w|
  {
    if w != "" {
      RuneOf(w[0]);
    }
    match e
    case Token(t) => InOne(t[0] as int, Rng(t[0] as int, t[0] as int));
    case Range(lo, hi) => InOne(w[0] as int, Rng(lo as int, hi as int));
    case Any =>
      if w != "" {
        InOne(w[0] as int, Rng(0, MaxRune));
      }
    case Name(n) => FirstRune(g, rank, rank[n], g[n].expr.value, w);
    case Group(b) => FirstRune(g, rank, level, b, w);
    case Optional(b) =>
      if w != "" {
        FirstRune(g, rank, level, b, w);
      }
    case Repetition(b) =>
      if w != "" {
        var k :| 0 < k <= |w| && Derives(g, rank, level, b, w[..k]) && Repeats(g, rank, level, b, w[k..]);
        FirstRune(g, rank, level, b, w[..k]);
        assert w[..k][0] == w[0];
      }
    case Sequence(es) =>
      FirstOfAll(g, rank, level, es, w);
      StartsMin(w, RunesOf(g, rank, level, es, true));
    case Alternative(es) =>
      var i :| 0 <= i < |es| && Derives(g, rank, level, es[i], w);
      FirstRune(g, rank, level, es[i], w);
      FirstOfOne(g, rank, level, es, i, w);
      StartsMin(w, RunesOf(g, rank, level, es, false));
  }

  lemma StartsMin(w: string, rs: seq<Rng>)
    requires StartsIn(w, rs)
    ensures StartsIn(w, MinRanges(rs))
  {
    MinRangesExact(rs);
  }

  lemma StartsMore(w: string, a: seq<Rng>, b: seq<Rng>)
    requires StartsIn(w, a) || StartsIn(w, b)
    ensures StartsIn(w, a + b)
  {
    if w != "" {
      InAppend(w[0] as int, a, b);
    }
  }

  lemma {:induction false} FirstOfOne(g: Grammar, rank: map<string, nat>, level: nat, es: seq<Expr>, i: nat, w: string)
    requires Acyclic(g, rank) && i < |es| && forall j :: 0 <= j < |es| ==> Below(g, rank, level, es[j]) && Sound(es[j])
    requires StartsIn(w, RunesIn(g, rank, level, es[i]))
    ensures StartsIn(w, RunesOf(g, rank, level, es, false))
    decreases i
  {
    hide StartsIn;
    if i > 0 {
      assert es[1..][i - 1] == es[i];
      FirstOfOne(g, rank, level, es[1..], i - 1, w);
    }
    StartsMore(w, RunesIn(g, rank, level, es[0]), RunesOf(g, rank, level, es[1..], false));
  }

  lemma {:induction false} FirstOfAll(g: Grammar, rank: map<string, nat>, level: nat, es: seq<Expr>, w: string)
    requires Acyclic(g, rank) && forall i :: 0 <= i < |es| ==> Below(g, rank, level, es[i]) && Sound(es[i])
    requires DerivesAll(g, rank, level, es, w)
    ensures StartsIn(w, RunesOf(g, rank, level, es, true))
    decreases level, es, 0, |w|
  {
    if w != "" && es != [] {
      var k :| 0 <= k <= |w| && Derives(g, rank, level, es[0], w[..k]) && DerivesAll(g, rank, level, es[1..], w[k..]);
      FirstRune(g, rank, level, es[0], w[..k]);
      var first := RunesIn(g, rank, level, es[0]);
      var rest := if es[0].Token? then [] else RunesOf(g, rank, level, es[1..], true);
      if k > 0 {
        assert w[..k][0] == w[0];
        StartsMore(w, first, rest);
      } else {
        assert w[k..] == w;
        FirstOfAll(g, rank, level, es[1..], w);
        StartsMore(w, first, rest);
      }
    }
  }

  // ---------------------------------------------------------------- choices

  /** What a choice compiles to: tests of the next rune, down to one branch or to both. */
  datatype Look = First | Second | Split | Ahead(rn: seq<Rng>, x: Look, y: Look)

  /** The branches the machine takes; nothing is the end of the line. */
  function Reached(c: Look, next: Option<int>): Look
  {
    if !c.Ahead? then c
    else if next.Some? && In(next.value, c.rn) then Reached(c.x, next)
    else Reached(c.y, next)
  }

  /** No branch is dropped on a rune it can start with. */
  ghost predicate Keeps(c: Look, ra: seq<Rng>, rb: seq<Rng>)
  {
    forall x: int ::
      (In(x, ra) ==> Reached(c, Some(x)) != Second) && (In(x, rb) ==> Reached(c, Some(x)) != First)
  }

  /** A branch is followed alone exactly when the other one cannot start with the rune. */
  ghost predicate Decides(c: Look, ra: seq<Rng>, rb: seq<Rng>)
  {
    && (forall x: int :: In(x, ra) && In(x, rb) ==> Reached(c, Some(x)) == Split)
    && (forall x: int :: In(x, ra) && !In(x, rb) ==> Reached(c, Some(x)) == First)
    && (forall x: int :: !In(x, ra) && In(x, rb) ==> Reached(c, Some(x)) == Second)
  }

  ghost predicate Disjoint(ra: seq<Rng>, rb: seq<Rng>) { forall x: int :: !(In(x, ra) && In(x, rb)) }

  predicate Ready(rs: seq<Rng>) { rs != [] && rs[|rs| - 1].hi < MaxRune }

  lemma EmptyOf(rs: seq<Rng>)
    requires Proper(rs)
    ensures rs == [] <==> forall x: int :: !In(x, rs)
  {
    if rs != [] {
      assert rs[0].lo <= rs[0].lo <= rs[0].hi;
      assert In(rs[0].lo, rs);
    }
  }

  lemma MaxLast(rs: seq<Rng>)
    requires Listed(rs)
    ensures In(MaxRune, rs) <==> rs != [] && rs[|rs| - 1].hi == MaxRune
  {
    if rs != [] && rs[|rs| - 1].hi == MaxRune {
      LastIn(rs);
    }
    forall i | 0 <= i && i + 1 < |rs|
      ensures rs[i].hi < MaxRune
    {
      NotLast(rs, i);
    }
  }

  /** Excluding twice leaves what both have. */
  lemma TwiceIsBoth(ra: seq<Rng>, rb: seq<Rng>, xa: seq<Rng>, ab: seq<Rng>)
    requires Listed(ra) && ra != [] && Listed(rb)
    requires Difference(ra, rb, xa) <==> !BothMax(ra, rb)
    requires Listed(xa) ==> (Difference(ra, xa, ab) <==> !BothMax(ra, xa))
    requires BothMax(ra, rb) ==> Proper(xa) && KeepsLast(ra, xa)
    requires BothMax(ra, xa) ==> ab != []
    ensures ab == [] <==> Disjoint(ra, rb) && Ready(ra)
    ensures ab == [] ==> Difference(ra, rb, xa)
  {
    hide In;
    MaxLast(ra);
    MaxLast(rb);
    if !BothMax(ra, rb) {
      MaxLast(xa);
      if !BothMax(ra, xa) {
        EmptyOf(ab);
      }
    }
  }

  /** The tests built from what only one of the branches starts with. */
  function Tests(xa: seq<Rng>, xb: seq<Rng>): Look
  {
    var c := if xa == [] then Split else Ahead(xa, First, Split);
    if xb == [] then c else Ahead(xb, Second, c)
  }

  /** The runes of the last range. */
  predicate InLast(x: int, rs: seq<Rng>) { rs != [] && rs[|rs| - 1].lo <= x <= rs[|rs| - 1].hi }

  /** A last range that is left in answers for all its runes. */
  lemma LastAnswers(a: seq<Rng>, out: seq<Rng>, x: Look, y: Look)
    requires KeepsLast(a, out) && !x.Ahead?
    ensures forall r: int :: InLast(r, a) ==> Reached(Ahead(out, x, y), Some(r)) == x
  {
    forall r: int | InLast(r, a)
      ensures In(r, out)
    {
      var k := |out| - 1;
      assert out[k].lo <= r <= out[k].hi;
    }
  }

  lemma TestsDecide(ra: seq<Rng>, rb: seq<Rng>, xa: seq<Rng>, xb: seq<Rng>)
    requires Listed(ra) && ra != [] && Listed(rb) && Proper(xb)
    requires Difference(ra, rb, xa) <==> !BothMax(ra, rb)
    requires Difference(rb, ra, xb) <==> !BothMax(rb, ra)
    requires BothMax(rb, ra) ==> KeepsLast(rb, xb)
    ensures Keeps(Tests(xa, xb), ra, rb) <==> !BothMax(ra, rb)
    ensures BothMax(ra, rb) ==> forall x: int :: InLast(x, rb) ==> Reached(Tests(xa, xb), Some(x)) == Second
    ensures Decides(Tests(xa, xb), ra, rb) <==> !BothMax(ra, rb)
    ensures Reached(Tests(xa, xb), None) == Split
  {
    var c := Tests(xa, xb);
    var d := if xa == [] then Split else Ahead(xa, First, Split);
    assert Reached(d, None) == Split;
    if BothMax(ra, rb) {
      LastIn(ra);
      LastAnswers(rb, xb, Second, d);
      assert InLast(MaxRune, rb);
    } else {
      InOne(0, Rng(0, 0));
      forall x: int
        ensures !In(x, xa) && !In(x, xb) ==> Reached(c, Some(x)) == Split
        ensures In(x, xb) ==> Reached(c, Some(x)) == Second
        ensures In(x, xa) && !In(x, xb) ==> Reached(c, Some(x)) == First
      {
        InOne(x, Rng(0, 0));
        assert Reached(d, Some(x)) == if In(x, xa) then First else Split;
      }
    }
  }

  lemma LoneDecides(ra: seq<Rng>, rb: seq<Rng>, xa: seq<Rng>)
    requires Difference(ra, rb, xa) && Disjoint(ra, rb)
    ensures forall x: int :: Reached(Ahead(xa, First, Second), Some(x)) == if In(x, ra) then First else Second
    ensures Reached(Ahead(xa, First, Second), None) == Second
    ensures Keeps(Ahead(xa, First, Second), ra, rb) && Decides(Ahead(xa, First, Second), ra, rb)
  {
    var c := Ahead(xa, First, Second);
    assert forall x: int :: Reached(c, Some(x)) == if In(x, ra) then First else Second;
  }

  lemma ReadyBelow(ra: seq<Rng>, rb: seq<Rng>)
    requires Ready(ra)
    ensures !BothMax(ra, rb)
  {
  }

  /** The choice between two branches that start with runes of ra and rb. */
  method ChooseAlternative(ra: seq<Rng>, rb: seq<Rng>) returns (c: Look)
    requires Listed(ra) && ra != [] && Listed(rb) && rb != []
    ensures Keeps(c, ra, rb) <==> !BothMax(ra, rb)
    ensures Decides(c, ra, rb) <==> !BothMax(ra, rb)
    ensures BothMax(ra, rb) ==> forall x: int :: InLast(x, rb) ==> Reached(c, Some(x)) == Second
    ensures Reached(c, None) == if Disjoint(ra, rb) && Ready(ra) then Second else Split
    ensures Disjoint(ra, rb) && Ready(ra) ==> forall x: int :: Reached(c, Some(x)) == if In(x, ra) then First else Second
  {
    hide In, Proper, Apart, Difference, Keeps, Decides, Disjoint, Reached, Ready, InLast;
    var xa := RangeExcl(ra, rb);
    var ab := RangeExcl(ra, xa);
    TwiceIsBoth(ra, rb, xa, ab);
    if |ab| == 0 {
      LoneDecides(ra, rb, xa);
      ReadyBelow(ra, rb);
      return Ahead(xa, First, Second);
    }
    c := Split;
    if |xa| > 0 {
      c := Ahead(xa, First, c);
    }
    var xb := RangeExcl(rb, ra);
    TestsDecide(ra, rb, xa, xb);
    if |xb| > 0 {
      c := Ahead(xb, Second, c);
    }
  }

  lemma RepeatDecides(rs: seq<Rng>, la1: seq<Rng>, rn: seq<Rng>)
    requires Listed(rs) && rs != [] && Listed(la1) && Proper(rn)
    requires Difference(rs, la1, rn) <==> !BothMax(rs, la1)
    requires BothMax(rs, la1) ==> KeepsLast(rs, rn)
    ensures Keeps(Tests(rn, []), rs, la1) <==> !BothMax(rs, la1)
    ensures !BothMax(rs, la1) ==> forall x: int :: Reached(Tests(rn, []), Some(x)) == First <==> In(x, rs) && !In(x, la1)
    ensures BothMax(rs, la1) ==> forall x: int :: InLast(x, rs) ==> Reached(Tests(rn, []), Some(x)) == First
    ensures Reached(Tests(rn, []), None) == Split
  {
    var c := Tests(rn, []);
    if BothMax(rs, la1) {
      LastIn(la1);
      LastAnswers(rs, rn, First, Split);
      assert InLast(MaxRune, rs);
    } else {
      forall x: int
        ensures Reached(c, Some(x)) == if In(x, rn) then First else Split
      {
        InOne(x, Rng(0, 0));
      }
    }
  }

  lemma GreedyDecides(rs: seq<Rng>, la1: seq<Rng>)
    requires Disjoint(rs, la1)
    ensures Keeps(Ahead(rs, First, Second), rs, la1)
    ensures forall x: int :: Reached(Ahead(rs, First, Second), Some(x)) == First <==> In(x, rs) && !In(x, la1)
    ensures Reached(Ahead(rs, First, Second), None) == Second
  {
  }

  /** The choice between another turn of a repetition and what follows it, which starts with runes of la1.
      At the end of the line the repetition can always be left. */
  method ChooseRepetition(rs: seq<Rng>, la1: seq<Rng>) returns (c: Look)
    requires Listed(rs) && rs != [] && Listed(la1)
    ensures Keeps(c, rs, la1) <==> !BothMax(rs, la1)
    ensures !BothMax(rs, la1) ==> forall x: int :: Reached(c, Some(x)) == First <==> In(x, rs) && !In(x, la1)
    ensures BothMax(rs, la1) ==> forall x: int :: InLast(x, rs) ==> Reached(c, Some(x)) == First
    ensures Reached(c, None) == if Disjoint(rs, la1) && Ready(rs) then Second else Split
  {
    hide In, Proper, Apart, Difference, Keeps, Decides, Disjoint, Reached, Ready, InLast;
    var xa := RangeExcl(rs, la1);
    var ab := RangeExcl(rs, xa);
    TwiceIsBoth(rs, la1, xa, ab);
    if |ab| == 0 {
      GreedyDecides(rs, la1);
      ReadyBelow(rs, la1);
      return Ahead(rs, First, Second);
    }
    c := Split;
    var rn := RangeExcl(rs, la1);
    RepeatDecides(rs, la1, rn);
    if |rn| > 0 {
      c := Ahead(rn, First, c);
    }
  }

  // ---------------------------------------------------------------- choices and the language

  function Next(s: string): Option<int> { if s == "" then None else Some(s[0] as int) }

  /** A branch that can go on with a string w, not empty, is not dropped. */
  lemma NoBranchDropped(g: Grammar, rank: map<string, nat>, level: nat, a: Expr, b: Expr, c: Look, w: string, rest: string)
    requires Takes(g, rank, level, a) && Takes(g, rank, level, b)
    requires Keeps(c, RunesIn(g, rank, level, a), RunesIn(g, rank, level, b)) && w != ""
    ensures Derives(g, rank, level, a, w) ==> Reached(c, Next(w + rest)) != Second
    ensures Derives(g, rank, level, b, w) ==> Reached(c, Next(w + rest)) != First
  {
    assert (w + rest)[0] == w[0];
    if Derives(g, rank, level, a, w) {
      FirstRune(g, rank, level, a, w);
    }
    if Derives(g, rank, level, b, w) {
      FirstRune(g, rank, level, b, w);
    }
  }

  /** Between branches that share no first rune only one is followed.  A branch that derives w is dropped
      just when w is empty and what comes behind it belongs to the other one. */
  lemma DroppedExactly(g: Grammar, rank: map<string, nat>, level: nat, a: Expr, b: Expr, c: Look, w: string, rest: string)
    requires Takes(g, rank, level, a) && Takes(g, rank, level, b)
    requires Alone(c, RunesIn(g, rank, level, a), RunesIn(g, rank, level, b))
    ensures Derives(g, rank, level, a, w) ==>
      (Reached(c, Next(w + rest)) == Second <==> w == "" && !Starts(rest, RunesIn(g, rank, level, a)))
    ensures Derives(g, rank, level, b, w) ==>
      (Reached(c, Next(w + rest)) == First <==> w == "" && Starts(rest, RunesIn(g, rank, level, a)))
  {
    if w == "" {
      assert w + rest == rest;
    } else {
      assert (w + rest)[0] == w[0];
      if Derives(g, rank, level, a, w) {
        FirstRune(g, rank, level, a, w);
      }
      if Derives(g, rank, level, b, w) {
        FirstRune(g, rank, level, b, w);
      }
    }
  }

  predicate Starts(s: string, rs: seq<Rng>) { s != "" && In(s[0] as int, rs) }

  /** The first rune alone decides, and the end of the line leads to the second branch. */
  ghost predicate Alone(c: Look, ra: seq<Rng>, rb: seq<Rng>)
  {
    Disjoint(ra, rb) && Reached(c, None) == Second && forall x: int :: Reached(c, Some(x)) == if In(x, ra) then First else Second
  }

  /** The alternative of a and b, unless both are ranges, which become one instruction: every branch is
      followed that derives what comes next, if and only if not both can start with any rune at all; else the
      first one is dropped on every rune.  Branches are told apart by the next rune alone exactly when they
      share none, and the first one not the largest. */
  method CompileAlternative(g: Grammar, rank: map<string, nat>, level: nat, a: Expr, b: Expr) returns (c: Look)
    requires Takes(g, rank, level, a) && Takes(g, rank, level, b) && !(a.Range? && b.Range?)
    ensures var ra, rb := RunesIn(g, rank, level, a), RunesIn(g, rank, level, b);
      && (KeepsDerived(g, rank, level, a, b, c) <==> !(ra == AnyRune == rb))
      && (Keeps(c, ra, rb) <==> !(ra == AnyRune == rb))
      && (ra == AnyRune == rb ==> Drops(c))
      && (Disjoint(ra, rb) && Ready(ra) <==> Alone(c, ra, rb))
  {
    RunesListed(g, rank, level, a);
    RunesListed(g, rank, level, b);
    var ra, rb := RunesIn(g, rank, level, a), RunesIn(g, rank, level, b);
    BothMaxAny(g, rank, level, a, b);
    hide RunesIn, Keeps, Takes, Decides, Disjoint, Alone, Reached, In, Ready, BothMax, InLast;
    c := ChooseAlternative(ra, rb);
    AloneWhen(c, ra, rb);
    if ra == AnyRune == rb {
      AnyDrops(c);
      DroppedDerived(g, rank, level, a, b, c);
    } else {
      KeptDerived(g, rank, level, a, b, c);
    }
  }

  lemma BothMaxAny(g: Grammar, rank: map<string, nat>, level: nat, a: Expr, b: Expr)
    requires Takes(g, rank, level, a) && Takes(g, rank, level, b)
    ensures var ra, rb := RunesIn(g, rank, level, a), RunesIn(g, rank, level, b);
      BothMax(ra, rb) <==> ra == AnyRune == rb
  {
    RunesListed(g, rank, level, a);
    RunesListed(g, rank, level, b);
    var ra, rb := RunesIn(g, rank, level, a), RunesIn(g, rank, level, b);
    hide RunesIn;
    if BothMax(ra, rb) {
      LastIn(ra);
      LastIn(rb);
      MaxIsAny(g, rank, level, a);
      MaxIsAny(g, rank, level, b);
    }
  }

  /** Whatever rune comes next, the first branch is not followed. */
  ghost predicate Drops(c: Look)
  {
    forall x: int :: 0 <= x <= MaxRune ==> Reached(c, Some(x)) == Second
  }

  lemma AnyDrops(c: Look)
    requires forall x: int :: InLast(x, AnyRune) ==> Reached(c, Some(x)) == Second
    ensures Drops(c)
  {
    hide Reached;
    assert forall x: int :: InLast(x, AnyRune) <==> 0 <= x <= MaxRune;
  }

  lemma DroppedDerived(g: Grammar, rank: map<string, nat>, level: nat, a: Expr, b: Expr, c: Look)
    requires Takes(g, rank, level, a) && Takes(g, rank, level, b) && Drops(c)
    ensures !KeepsDerived(g, rank, level, a, b, c)
  {
    var w := DerivesSome(g, rank, level, a);
    hide Reached, Derives;
    RuneOf(w[0]);
    assert w + "" == w;
    assert Reached(c, Next(w + "")) == Second;
  }

  /** Every branch that derives a string that is not empty is followed where that string comes next. */
  ghost predicate KeepsDerived(g: Grammar, rank: map<string, nat>, level: nat, a: Expr, b: Expr, c: Look)
    requires Takes(g, rank, level, a) && Takes(g, rank, level, b)
  {
    forall w, rest :: w != "" ==>
      && (Derives(g, rank, level, a, w) ==> Reached(c, Next(w + rest)) != Second)
      && (Derives(g, rank, level, b, w) ==> Reached(c, Next(w + rest)) != First)
  }

  lemma KeptDerived(g: Grammar, rank: map<string, nat>, level: nat, a: Expr, b: Expr, c: Look)
    requires Takes(g, rank, level, a) && Takes(g, rank, level, b)
    requires Keeps(c, RunesIn(g, rank, level, a), RunesIn(g, rank, level, b))
    ensures KeepsDerived(g, rank, level, a, b, c)
  {
    forall w, rest | w != ""
      ensures Derives(g, rank, level, a, w) ==> Reached(c, Next(w + rest)) != Second
      ensures Derives(g, rank, level, b, w) ==> Reached(c, Next(w + rest)) != First
    {
      NoBranchDropped(g, rank, level, a, b, c, w, rest);
    }
  }

  lemma AloneWhen(c: Look, ra: seq<Rng>, rb: seq<Rng>)
    requires Reached(c, None) == if Disjoint(ra, rb) && Ready(ra) then Second else Split
    requires Disjoint(ra, rb) && Ready(ra) ==> forall x: int :: Reached(c, Some(x)) == if In(x, ra) then First else Second
    ensures Disjoint(ra, rb) && Ready(ra) <==> Alone(c, ra, rb)
  {
  }

  /** The alternative of free text and of free text before an "x", in front of "y": the first branch derives
      it and is dropped, and the second one does not derive it. */
  method FreeTextsClash() returns (c: Look)
    ensures var a, b := Any, Sequence([Any, Token("x")]);
      && Takes(map[], map[], 0, a) && Takes(map[], map[], 0, b)
      && Derives(map[], map[], 0, a, "y") && !Derives(map[], map[], 0, b, "y") && Reached(c, Next("y")) == Second
  {
    hide Reached, KeepsDerived, Alone;
    var es := [Any, Token("x")];
    FreeTextRunes(es);
    c := CompileAlternative(map[], map[], 0, Any, Sequence(es));
    RuneOf('y');
    NotEndedByX(es);
  }

  lemma FreeTextRunes(es: seq<Expr>)
    requires es == [Any, Token("x")]
    ensures Takes(map[], map[], 0, Sequence(es)) && RunesIn(map[], map[], 0, Sequence(es)) == AnyRune
  {
    var rs := RunesOf(map[], map[], 0, es, true);
    RunesOfProper(map[], map[], 0, es, true);
    assert rs == AnyRune + RunesOf(map[], map[], 0, es[1..], true);
    assert rs[0] == Rng(0, MaxRune);
    MinRangesAny(rs);
  }

  lemma NotEndedByX(es: seq<Expr>)
    requires es == [Any, Token("x")]
    ensures !DerivesAll(map[], map[], 0, es, "y")
  {
    if DerivesAll(map[], map[], 0, es, "y") {
      var k :| 0 <= k <= 1 && DerivesAll(map[], map[], 0, es[1..], "y"[k..]);
      assert es[1..] == [Token("x")];
      OneToken("x", "y"[k..]);
    }
  }

  lemma OneToken(t: string, w: string)
    requires Sound(Token(t)) && DerivesAll(map[], map[], 0, [Token(t)], w)
    ensures w == t
  {
    assert [Token(t)][1..] == [];
    var k :| 0 <= k <= |w| && Derives(map[], map[], 0, Token(t), w[..k]) && DerivesAll(map[], map[], 0, [], w[k..]);
    assert w == w[..k] + w[k..];
  }

  // ---------------------------------------------------------------- what can follow

  /** carry: what follows a free text, an option or a repetition can also follow what is before it. */
  predicate Carry(g: Grammar, rank: map<string, nat>, level: nat, e: Expr)
    requires Takes(g, rank, level, e)
    decreases level, e
  {
    match e
    case Any => true
    case Optional(_) => true
    case Repetition(_) => true
    case Name(n) => Carry(g, rank, rank[n], g[n].expr.value)
    case _ => false
  }

  /** The runes that compileExpr takes for those in front of es, when la1 is for those behind. */
  function Follow(g: Grammar, rank: map<string, nat>, level: nat, es: seq<Expr>, la1: seq<Rng>): seq<Rng>
    requires TakesAll(g, rank, level, es)
    decreases |es|
  {
    if es == [] then la1
    else
      var rs := RunesIn(g, rank, level, es[0]);
      if Carry(g, rank, level, es[0]) then MinRanges(Follow(g, rank, level, es[1..], la1) + rs) else rs
  }

  /** The loop over a sequence: what is in front of its elements from k on. */
  method FollowSequence(g: Grammar, rank: map<string, nat>, level: nat, es: seq<Expr>, la1: seq<Rng>) returns (l: seq<Rng>)
    requires TakesAll(g, rank, level, es) && es != []
    ensures l == Follow(g, rank, level, es[1..], la1)
  {
    l := la1;
    assert es[|es|..] == [];
    for i := |es| downto 1
      invariant l == Follow(g, rank, level, es[i..], la1)
    {
      ghost var more := es[i..];
      assert more[0] == es[i] && more[1..] == es[i + 1..];
      if Carry(g, rank, level, es[i]) {
        l := MinRanges(l + RunesIn(g, rank, level, es[i]));
      } else {
        l := RunesIn(g, rank, level, es[i]);
      }
    }
  }

  /** Whatever es derives can be followed as la1 says, if every element that can be empty carries. */
  lemma {:induction false} FollowCovers(g: Grammar, rank: map<string, nat>, level: nat, es: seq<Expr>, la1: seq<Rng>, w: string, rest: string)
    requires TakesAll(g, rank, level, es) && DerivesAll(g, rank, level, es, w) && StartsIn(rest, la1)
    requires forall i :: 0 <= i < |es| && Derives(g, rank, level, es[i], "") ==> Carry(g, rank, level, es[i])
    ensures StartsIn(w + rest, Follow(g, rank, level, es, la1))
    decreases |es|
  {
    if es == [] {
      assert w + rest == rest;
    } else {
      var k :| 0 <= k <= |w| && Derives(g, rank, level, es[0], w[..k]) && DerivesAll(g, rank, level, es[1..], w[k..]);
      var first, more := es[0], es[1..];
      assert forall i :: 0 <= i < |more| ==> more[i] == es[i + 1];
      FollowCovers(g, rank, level, more, la1, w[k..], rest);
      FirstRune(g, rank, level, first, w[..k]);
      FollowStep(g, rank, level, es, la1, w, k, rest);
    }
  }

  lemma FollowStep(g: Grammar, rank: map<string, nat>, level: nat, es: seq<Expr>, la1: seq<Rng>, w: string, k: nat, rest: string)
    requires TakesAll(g, rank, level, es) && es != [] && k <= |w|
    requires StartsIn(w[k..] + rest, Follow(g, rank, level, es[1..], la1)) && StartsIn(w[..k], RunesIn(g, rank, level, es[0]))
    requires k == 0 ==> Carry(g, rank, level, es[0])
    ensures StartsIn(w + rest, Follow(g, rank, level, es, la1))
  {
    var rs, more := RunesIn(g, rank, level, es[0]), Follow(g, rank, level, es[1..], la1);
    if k == 0 {
      assert w[0..] == w;
    } else {
      assert (w + rest)[0] == w[..k][0];
    }
    if Carry(g, rank, level, es[0]) {
      StartsMore(w + rest, more, rs);
      StartsMin(w + rest, more + rs);
    }
  }

  /** An expression that can be empty and does not carry hides what follows it: a group around an
      option, in front of anything that starts otherwise. */
  lemma FollowMisses(g: Grammar, rank: map<string, nat>, level: nat, e: Expr, la1: seq<Rng>, rest: string)
    requires Takes(g, rank, level, e) && Derives(g, rank, level, e, "") && !Carry(g, rank, level, e)
    requires Starts(rest, la1) && !Starts(rest, RunesIn(g, rank, level, e))
    ensures DerivesAll(g, rank, level, [e], "") && StartsIn(rest, la1) && !StartsIn("" + rest, Follow(g, rank, level, [e], la1))
  {
    assert [e][1..] == [] && "" + rest == rest && ""[0..] == "" && ""[..0] == "";
    assert DerivesAll(g, rank, level, [], "");
  }

  lemma GroupHidesFollow()
    ensures var e, la1 := Group(Optional(Token("a"))), [Rng('b' as int, 'b' as int)];
      && Takes(map[], map[], 0, e) && DerivesAll(map[], map[], 0, [e], "") && StartsIn("b", la1)
      && !StartsIn("b", Follow(map[], map[], 0, [e], la1))
  {
    var e, la1 := Group(Optional(Token("a"))), [Rng('b' as int, 'b' as int)];
    assert la1[0].lo <= 'b' as int <= la1[0].hi;
    assert Derives(map[], map[], 0, Optional(Token("a")), "");
    assert RunesIn(map[], map[], 0, Optional(Token("a"))) == [Rng('a' as int, 'a' as int)];
    FollowMisses(map[], map[], 0, e, la1, "b");
    assert "" + "b" == "b";
  }

  // ---------------------------------------------------------------- every rune starts a string

  /** In a sequence, what is looked at behind the first element can come first: all before it can be empty. */
  ghost predicate Tight(g: Grammar, rank: map<string, nat>, level: nat, e: Expr)
    requires Takes(g, rank, level, e)
    decreases level, e, 1
  {
    match e
    case Name(n) => Tight(g, rank, rank[n], g[n].expr.value)
    case Group(b) => Tight(g, rank, level, b)
    case Optional(b) => Tight(g, rank, level, b)
    case Repetition(b) => Tight(g, rank, level, b)
    case Sequence(es) => TightAll(g, rank, level, es)
    case Alternative(es) => forall i :: 0 <= i < |es| ==> Tight(g, rank, level, es[i])
    case _ => true
  }

  ghost predicate TightAll(g: Grammar, rank: map<string, nat>, level: nat, es: seq<Expr>)
    requires TakesAll(g, rank, level, es)
    decreases level, es, 0
  {
    es == [] || (Tight(g, rank, level, es[0])
      && (es[0].Token? || |es| == 1 || (Derives(g, rank, level, es[0], "") && TightAll(g, rank, level, es[1..]))))
  }

  /** Characters of the language are runes that strings can hold. */
  predicate IsChar(x: int) { 0 <= x < 0xD800 || 0xE000 <= x < 0x11_0000 }

  ghost predicate Begins(w: string, x: int) { w != "" && w[0] as int == x }

  /** Every character among the runes of a tight expression starts a string that it derives. */
  lemma {:induction false} RunesStart(g: Grammar, rank: map<string, nat>, level: nat, e: Expr, x: int) returns (w: string)
    requires Takes(g, rank, level, e) && Tight(g, rank, level, e) && IsChar(x) && In(x, RunesIn(g, rank, level, e))
    ensures Derives(g, rank, level, e, w) && Begins(w, x)
    decreases level, e, 1
  {
    match e
    case Token(t) =>
      InOne(x, Rng(t[0] as int, t[0] as int));
      w := t;
    case Range(lo, hi) =>
      InOne(x, Rng(lo as int, hi as int));
      w := [x as char];
    case Any => w := [x as char];
    case Name(n) => w := RunesStart(g, rank, rank[n], g[n].expr.value, x);
    case Group(b) => w := RunesStart(g, rank, level, b, x);
    case Optional(b) => w := RunesStart(g, rank, level, b, x);
    case Repetition(b) =>
      w := RunesStart(g, rank, level, b, x);
      assert w[..|w|] == w && w[|w|..] == "";
      assert Repeats(g, rank, level, b, "");
    case Sequence(es) =>
      MinRangesExact(RunesOf(g, rank, level, es, true));
      w := RunesStartAll(g, rank, level, es, x);
    case Alternative(es) =>
      MinRangesExact(RunesOf(g, rank, level, es, false));
      w := RunesStartOne(g, rank, level, es, x);
  }

  lemma {:induction false} RunesStartAll(g: Grammar, rank: map<string, nat>, level: nat, es: seq<Expr>, x: int) returns (w: string)
    requires TakesAll(g, rank, level, es) && TightAll(g, rank, level, es) && IsChar(x) && In(x, RunesOf(g, rank, level, es, true))
    ensures DerivesAll(g, rank, level, es, w) && Begins(w, x)
    decreases level, es, 0
  {
    w := "";
    if es == [] {
      InOne(x, Rng(0, 0));
    } else {
      var first := RunesIn(g, rank, level, es[0]);
      var rest := if es[0].Token? then [] else RunesOf(g, rank, level, es[1..], true);
      assert |es| == 1 ==> es[1..] == [];
      InOne(x, Rng(0, 0));
      InAppend(x, first, rest);
      if In(x, first) {
        var a := RunesStart(g, rank, level, es[0], x);
        var b := AllDeriveSome(g, rank, level, es[1..]);
        w := a + b;
        assert w[..|a|] == a && w[|a|..] == b;
      } else {
        InOne(x, Rng(0, 0));
        w := RunesStartAll(g, rank, level, es[1..], x);
        assert w[..0] == "" && w[0..] == w;
      }
    }
  }

  lemma {:induction false} RunesStartOne(g: Grammar, rank: map<string, nat>, level: nat, es: seq<Expr>, x: int) returns (w: string)
    requires TakesAll(g, rank, level, es) && (forall i :: 0 <= i < |es| ==> Tight(g, rank, level, es[i]))
    requires IsChar(x) && In(x, RunesOf(g, rank, level, es, false))
    ensures (exists i :: 0 <= i < |es| && Derives(g, rank, level, es[i], w)) && Begins(w, x)
    decreases level, es, 0
  {
    w := "";
    if es == [] {
      InOne(x, Rng(0, 0));
    } else {
      InAppend(x, RunesIn(g, rank, level, es[0]), RunesOf(g, rank, level, es[1..], false));
      if In(x, RunesIn(g, rank, level, es[0])) {
        w := RunesStart(g, rank, level, es[0], x);
      } else {
        var more := es[1..];
        assert forall i :: 0 <= i < |more| ==> more[i] == es[i + 1];
        w := RunesStartOne(g, rank, level, more, x);
        var i :| 0 <= i < |more| && Derives(g, rank, level, more[i], w);
        assert Derives(g, rank, level, es[i + 1], w);
      }
    }
  }

  /** Runes of later elements are counted although they cannot come first. */
  lemma LaterCounted()
    ensures var e := Sequence([Range('a', 'a'), Range('b', 'b')]);
      Takes(map[], map[], 0, e) && In('b' as int, RunesIn(map[], map[], 0, e)) && !Tight(map[], map[], 0, e)
  {
    var es := [Range('a', 'a'), Range('b', 'b')];
    assert es[1..] == [Range('b', 'b')];
    var rs := RunesOf(map[], map[], 0, es, true);
    assert RunesOf(map[], map[], 0, es[1..], true)[0] == Rng('b' as int, 'b' as int);
    assert In('b' as int, RunesOf(map[], map[], 0, es[1..], true));
    InAppend('b' as int, RunesIn(map[], map[], 0, es[0]), RunesOf(map[], map[], 0, es[1..], true));
    MinRangesExact(rs);
  }

  /** What carries can be empty. */
  lemma {:induction false} CarryEmpty(g: Grammar, rank: map<string, nat>, level: nat, e: Expr)
    requires Takes(g, rank, level, e) && Carry(g, rank, level, e)
    ensures Derives(g, rank, level, e, "")
    decreases level, e
  {
    if e.Name? {
      CarryEmpty(g, rank, rank[e.n], g[e.n].expr.value);
    }
  }

  /** What is taken for the runes behind an element is no more than can follow: a string of the elements there
      starts with it, or they can all be empty and it is what comes behind them. */
  lemma {:induction false} FollowReached(g: Grammar, rank: map<string, nat>, level: nat, es: seq<Expr>, la1: seq<Rng>, x: int) returns (w: string)
    requires TakesAll(g, rank, level, es) && (forall i :: 0 <= i < |es| ==> Tight(g, rank, level, es[i]))
    requires IsChar(x) && In(x, Follow(g, rank, level, es, la1))
    ensures DerivesAll(g, rank, level, es, w) && (Begins(w, x) || (w == "" && In(x, la1)))
    decreases |es|
  {
    if es == [] {
      w := "";
    } else {
      var rs, more := RunesIn(g, rank, level, es[0]), Follow(g, rank, level, es[1..], la1);
      assert forall i :: 0 <= i < |es| - 1 ==> es[1..][i] == es[i + 1];
      MinRangesExact(more + rs);
      InAppend(x, more, rs);
      if In(x, rs) {
        var a := RunesStart(g, rank, level, es[0], x);
        var b := AllDeriveSome(g, rank, level, es[1..]);
        w := a + b;
        assert w[..|a|] == a && w[|a|..] == b;
      } else {
        w := FollowReached(g, rank, level, es[1..], la1, x);
        CarryEmpty(g, rank, level, es[0]);
        assert w[..0] == "" && w[0..] == w;
      }
    }
  }
}
