/** The grammars that CompilePattern builds, and CompileGrammar of internal/mdt/compile.go on them:
    every one compiles to the instructions of its elements. */
module PatternShapes {
  import opened Wrappers
  import opened PatternSplit
  import opened PatternGrammar
  import opened PatternMeaning
  import opened PatternCompile

  // ---------------------------------------------------------------- regular grammars

  /** Tokens and holes in turn, and no token empty. */
  ghost predicate Alternates(es: seq<Expr>)
  {
    && (forall i :: 0 <= i < |es| ==> !es[i].Sequence? && (es[i].Token? ==> es[i].t != ""))
    && (forall i, j :: 0 <= i && j == i + 1 && j < |es| ==> es[i].Token? != es[j].Token?)
  }

  ghost predicate HoleEnds(es: seq<Expr>)
  {
    es != [] && Alternates(es) && !es[0].Token? && !es[|es| - 1].Token?
  }

  ghost predicate NoNames(es: seq<Expr>)
  {
    forall i :: 0 <= i < |es| ==> !es[i].Name?
  }

  ghost predicate BodyOk(e: Expr)
  {
    e.AnyText? || (e.Sequence? && HoleEnds(e.es) && NoNames(e.es))
  }

  ghost predicate NamesOk(es: seq<Expr>, g: Grammar)
  {
    && (forall i :: 0 <= i < |es| && es[i].Name? ==> es[i].name in g && BodyOk(g[es[i].name].expr))
    && (forall i, j :: 0 <= i < j < |es| && es[i].Name? && es[j].Name? ==> es[i].name != es[j].name)
  }

  ghost predicate Regular(g: Grammar)
  {
    && "root" in g && g["root"].expr.Sequence?
    && g["root"].expr.es != [] && Alternates(g["root"].expr.es) && NamesOk(g["root"].expr.es, g)
  }

  ghost predicate RegularSoFar(b: Built)
  {
    && BuiltOk(b) && Alternates(b.es) && (b.es != [] ==> !b.es[|b.es| - 1].Token?)
    && forall n :: n in b.grm ==> b.es != [] && BodyOk(b.grm[n].expr)
  }

  lemma AlternatesSnoc(es: seq<Expr>, e: Expr)
    requires Alternates(es) && !e.Sequence? && (e.Token? ==> e.t != "")
    requires es != [] ==> es[|es| - 1].Token? != e.Token?
    ensures Alternates(es + [e])
  {
    var all := es + [e];
    forall i, j | 0 <= i && j == i + 1 && j < |all|
      ensures all[i].Token? != all[j].Token?
    {
      if j < |es| {
        assert es[i].Token? != es[j].Token?;
      }
    }
  }

  lemma BodyGrows(e: Expr, text: string)
    requires BodyOk(e) && text != ""
    ensures BodyOk(Sequence(Parts(e) + [Token(text), AnyText]))
  {
    var es := Parts(e);
    assert HoleEnds(es) && NoNames(es);
    AlternatesSnoc(es, Token(text));
    AlternatesSnoc(es + [Token(text)], AnyText);
    assert es + [Token(text)] + [AnyText] == es + [Token(text), AnyText];
  }

  lemma HoleRegular(b: Built, text: string, first: bool, n: string, meta: string, b': Built)
    requires RegularSoFar(b) && (first ==> text == "" && b == Nothing) && n != "root"
    requires AddHole(b, text, first, n, meta) == Ok(b')
    ensures RegularSoFar(b') && b'.es != []
  {
    if n in b.grm {
      AddedAgain(b, text, n, meta, b');
      BodyGrows(b.grm[n].expr, text);
    } else {
      AddedFresh(b, text, first, n, meta, b');
      FreshOk(b, text, n, meta, b');
      HoleAlternates(b, text, if n == "_" then AnyText else Name(n));
      hide AddHole, BuiltOk;
    }
  }

  lemma HoleAlternates(b: Built, text: string, e: Expr)
    requires RegularSoFar(b) && (b.es != [] ==> text != "") && !e.Token? && !e.Sequence?
    ensures Alternates((if text != "" then b.es + [Token(text)] else b.es) + [e])
  {
    if text != "" {
      AlternatesSnoc(b.es, Token(text));
      AlternatesSnoc(b.es + [Token(text)], e);
    } else {
      AlternatesSnoc(b.es, e);
    }
  }

  lemma FinishRegular(b: Built, text: string)
    requires RegularSoFar(b) && (b.es != [] || text != "")
    ensures Regular(Finish(b, text))
  {
    var es := if text != "" then b.es + [Token(text)] else b.es;
    if text != "" {
      AlternatesSnoc(b.es, Token(text));
    }
    forall i | 0 <= i < |es| && es[i].Name?
      ensures es[i].name in b.grm && es[i].name != "root"
    {
      assert es[i] == b.es[i];
    }
  }

  ghost predicate NoBlank(ps: seq<Piece>)
  {
    forall i :: 0 <= i < |ps| && ps[i].Text? ==> ps[i].t != ""
  }

  lemma {:induction false} PiecesSolid(ps: seq<Piece>)
    requires PiecesOk(ps)
    ensures NoBlank(ps)
  {
    if ps != [] {
      PiecesSolid(ps[1..]);
      assert forall i :: 0 < i < |ps| ==> ps[i] == ps[1..][i - 1];
    }
  }

  /** Whatever pieces are assembled, the grammar is regular. */
  lemma {:induction false} AssembleRegular(ps: seq<Piece>, text: string, first: bool, b: Built, g: Grammar)
    requires RegularSoFar(b) && NoRoot(ps) && (first ==> text == "" && b == Nothing)
    requires NoBlank(ps)
    requires ps != [] || b.es != [] || text != ""
    requires Assemble(ps, text, first, b) == Ok(g)
    ensures Regular(g)
    decreases |ps|
  {
    hide RegularSoFar, AddHole, Regular;
    if ps == [] {
      FinishRegular(b, text);
    } else {
      assert forall i :: 0 <= i < |ps[1..]| ==> ps[1..][i] == ps[i + 1];
      match ps[0]
      case Text(t) =>
        AssembleRegular(ps[1..], text + t, false, b, g);
      case Hole(n, m) =>
        var meta := if m.Some? then m.value else "";
        var b' := AddHole(b, text, first, n, meta).value;
        HoleRegular(b, text, first, n, meta, b');
        AssembleRegular(ps[1..], "", false, b', g);
    }
  }

  /** A hole named root stays in the root sequence. */
  lemma {:induction false} RootStays(ps: seq<Piece>, text: string, first: bool, b: Built, g: Grammar)
    requires Assemble(ps, text, first, b) == Ok(g) && ("root" in b.grm ==> Name("root") in b.es)
    ensures "root" in g && g["root"].expr.Sequence?
    ensures Name("root") in b.es || !NoRoot(ps) ==> Name("root") in g["root"].expr.es
    decreases |ps|
  {
    hide AddHole;
    if ps != [] {
      assert forall i :: 0 < i < |ps| ==> ps[i] == ps[1..][i - 1];
      match ps[0]
      case Text(t) =>
        RootStays(ps[1..], text + t, false, b, g);
      case Hole(n, m) =>
        var meta := if m.Some? then m.value else "";
        var b' := AddHole(b, text, first, n, meta).value;
        HoleKeeps(b, text, first, n, meta, b');
        RootStays(ps[1..], "", false, b', g);
    }
  }

  lemma HoleKeeps(b: Built, text: string, first: bool, n: string, meta: string, b': Built)
    requires AddHole(b, text, first, n, meta) == Ok(b')
    ensures Name("root") in b.es ==> Name("root") in b'.es
    ensures n == "root" && n !in b.grm ==> Name("root") in b'.es
    ensures "root" in b'.grm <==> n == "root" || "root" in b.grm
  {
  }

  lemma NoPieces(g: Grammar)
    requires Assemble([], "", true, Nothing) == Ok(g)
    ensures !Regular(g)
  {
  }

  /** The grammar of an accepted pattern is regular if and only if the text is not empty and no hole
      is named root: the root of "" is an empty sequence, on which the compiler panics, and the
      root of "<root>" is made of itself. */
  lemma PatternRegular(pattern: string, g: Grammar)
    requires Compiled(pattern) == Ok(g)
    ensures Regular(g) <==> pattern != "" && NoRoot(Read(pattern).ps)
  {
    PatternAssembles(pattern);
    ReadWhole(pattern);
    var ps := Read(pattern).ps;
    hide Read, Compiled, PiecesOk, Assemble;
    PiecesSolid(ps);
    RenderBlank(ps);
    if ps == [] {
      NoPieces(g);
    } else if NoRoot(ps) {
      hide Regular;
      AssembleRegular(ps, "", true, Nothing, g);
    } else {
      RootStays(ps, "", true, Nothing, g);
      RootInRoot(g);
    }
  }

  lemma RenderBlank(ps: seq<Piece>)
    requires NoBlank(ps)
    ensures Render(ps) == "" <==> ps == []
  {
    if ps != [] {
      assert RenderPiece(ps[0]) != "";
    }
  }

  lemma RootInRoot(g: Grammar)
    requires "root" in g && g["root"].expr.Sequence? && Name("root") in g["root"].expr.es
    ensures !Regular(g)
  {
  }

  /** The empty pattern, and one whose hole is named root: accepted, but not regular. */
  lemma IrregularPatterns()
    ensures Compiled("").Ok? && !Regular(Compiled("").value)
    ensures Compiled("<root>").Ok? && !Regular(Compiled("<root>").value)
  {
    assert Read("").ps == [];
    PatternRegular("", Compiled("").value);
    var p := "<root>";
    RenderRoot();
    ReadExact(p, [Hole("root", None)]);
    PatternAssembles(p);
    assert Identifier("root");
    var b := Built([Name("root")], map["root" := Production(AnyText, "")], "root");
    assert [] + [Name("root")] == b.es && map[]["root" := Production(AnyText, "")] == b.grm;
    assert AddHole(Nothing, "", true, "root", "") == Ok(b);
    assert [Hole("root", None)][1..] == [];
    assert Compiled(p) == Ok(Finish(b, ""));
    PatternRegular(p, Compiled(p).value);
    assert !NoRoot([Hole("root", None)]) by {
      assert [Hole("root", None)][0].name == "root";
    }
  }

  lemma RenderRoot()
    ensures PiecesOk([Hole("root", None)]) && Render([Hole("root", None)]) == "<root>"
  {
    assert [Hole("root", None)][1..] == [];
    assert PiecesOk([]) && Render([]) == "";
    assert "<" + ("root" + ">") == "<root>";
  }

  // ---------------------------------------------------------------- elements

  lemma {:induction false} ElemsSnoc(es: seq<Expr>, e: Expr, g: Grammar, d: nat)
    ensures ElemsSeq(es + [e], g, d) == ElemsSeq(es, g, d) + ElemsOf(e, g, d)
    decreases |es|
  {
    hide ElemsOf;
    if es != [] {
      ElemsSnoc(es[1..], e, g, d);
      assert (es + [e])[1..] == es[1..] + [e];
      Concat3(ElemsOf(es[0], g, d), ElemsSeq(es[1..], g, d), ElemsOf(e, g, d));
    }
  }

  lemma {:induction false} FlatBodyElems(es: seq<Expr>, g: Grammar, d: nat)
    requires NoNames(es) && forall i :: 0 <= i < |es| ==> !es[i].Sequence?
    ensures ElemsSeq(es, g, d) == FlatBody(es)
    decreases |es|
  {
    if es != [] {
      FlatBodyElems(es[..|es| - 1], g, d);
      ElemsSnoc(es[..|es| - 1], es[|es| - 1], g, d);
      assert es[..|es| - 1] + [es[|es| - 1]] == es;
    }
  }

  lemma BodyElems(e: Expr, g: Grammar, d: nat)
    requires BodyOk(e)
    ensures ElemsOf(e, g, d) == Body(e)
  {
    if e.Sequence? {
      FlatBodyElems(e.es, g, d);
    }
  }

  lemma {:induction false} FlatRootElems(es: seq<Expr>, g: Grammar)
    requires forall i :: 0 <= i < |es| ==> !es[i].Sequence? && (es[i].Name? ==> es[i].name in g && BodyOk(g[es[i].name].expr))
    ensures ElemsSeq(es, g, 1) == FlatRoot(es, g)
    decreases |es|
  {
    hide ElemsSeq, BodyOk;
    if es != [] {
      var init, e := es[..|es| - 1], es[|es| - 1];
      FlatRootElems(init, g);
      ElemsSnoc(init, e, g, 1);
      assert init + [e] == es;
      if e.Name? {
        BodyElems(g[e.name].expr, g, 0);
      }
    } else {
      NoElems(g);
    }
  }

  lemma NoElems(g: Grammar)
    ensures ElemsSeq([], g, 1) == []
  {
  }

  /** The compiler goes through exactly the elements of the grammar. */
  lemma ElementsAgree(g: Grammar)
    requires Regular(g)
    ensures ElemsOf(g["root"].expr, g, 1) == Elements(g)
  {
    FlatRootElems(g["root"].expr.es, g);
  }

  // ---------------------------------------------------------------- shapes

  ghost predicate HoleOk(e: Expr, g: Grammar, d: nat)
  {
    e.AnyText? || (e.Name? && d > 0 && e.name in g && BodyOk(g[e.name].expr))
  }

  ghost predicate HolesOk(es: seq<Expr>, g: Grammar, d: nat)
  {
    forall i :: 0 <= i < |es| && !es[i].Token? ==> HoleOk(es[i], g, d)
  }

  lemma BeforeCons(e: Elem, rest: seq<Elem>)
    ensures BeforeAny([e] + rest) <==> (e.Open? && BeforeAny(rest)) || (e.Any? && AfterAny(rest))
    ensures AfterAny([e] + rest) <==> (e.Close? && AfterAny(rest)) || (e.Lit? && e.t != "" && BeforeAny(rest))
  {
    assert ([e] + rest)[1..] == rest;
  }

  lemma {:induction false} HoleShape(e: Expr, g: Grammar, d: nat, rest: seq<Elem>)
    requires HoleOk(e, g, d) && AfterAny(rest)
    ensures BeforeAny(ElemsOf(e, g, d) + rest)
    decreases d, 0, 1
  {
    hide BeforeAny, AfterAny, BodyOk, ElemsSeq;
    if e.AnyText? {
      BeforeCons(Any, rest);
    } else {
      var body := g[e.name].expr;
      BeforeCons(Close, rest);
      BodyShape(body, g, d - 1, [Close] + rest);
      BeforeCons(Open(e.name), ElemsOf(body, g, d - 1) + ([Close] + rest));
      assert ElemsOf(e, g, d) + rest == [Open(e.name)] + (ElemsOf(body, g, d - 1) + ([Close] + rest));
    }
  }

  lemma {:induction false} BodyShape(e: Expr, g: Grammar, d: nat, rest: seq<Elem>)
    requires BodyOk(e) && AfterAny(rest)
    ensures BeforeAny(ElemsOf(e, g, d) + rest)
    decreases d, 1, if e.Sequence? then |e.es| + 1 else 0
  {
    if e.AnyText? {
      hide BeforeAny, AfterAny;
      BeforeCons(Any, rest);
    } else {
      StretchShape(e.es, g, d, rest);
    }
  }

  /** Holes with tokens between them are stretches with literals between them. */
  lemma {:induction false} StretchShape(es: seq<Expr>, g: Grammar, d: nat, rest: seq<Elem>)
    requires HoleEnds(es) && HolesOk(es, g, d) && AfterAny(rest)
    ensures BeforeAny(ElemsSeq(es, g, d) + rest)
    decreases d, 1, |es|
  {
    hide BeforeAny, AfterAny, BodyOk, ElemsOf;
    var first := ElemsOf(es[0], g, d);
    var more := ElemsSeq(es[1..], g, d);
    Concat3(first, more, rest);
    if |es| == 1 {
      assert more + rest == rest;
    } else {
      TwoOn(es);
      StretchShape(es[2..], g, d, rest);
      BeforeCons(Lit(es[1].t), ElemsSeq(es[2..], g, d) + rest);
      TokenFirst(es[1..], g, d);
      assert es[1..][1..] == es[2..];
      Concat3([Lit(es[1].t)], ElemsSeq(es[2..], g, d), rest);
    }
    HoleShape(es[0], g, d, more + rest);
  }

  lemma TokenFirst(es: seq<Expr>, g: Grammar, d: nat)
    requires es != [] && es[0].Token?
    ensures ElemsSeq(es, g, d) == [Lit(es[0].t)] + ElemsSeq(es[1..], g, d)
  {
  }

  lemma TwoOn(es: seq<Expr>)
    requires HoleEnds(es) && |es| > 1
    ensures es[1].Token? && es[1].t != "" && |es| > 2 && HoleEnds(es[2..])
  {
    assert es[0].Token? != es[1].Token?;
    AlternatesFrom(es, 2);
    assert es[1].Token? != es[2].Token?;
  }

  lemma AlternatesFrom(es: seq<Expr>, k: nat)
    requires Alternates(es) && k <= |es|
    ensures Alternates(es[k..])
  {
    var tail := es[k..];
    forall i, j | 0 <= i && j == i + 1 && j < |tail|
      ensures tail[i].Token? != tail[j].Token?
    {
      assert es[k + i].Token? != es[k + j].Token?;
    }
  }

  lemma AlternatesTo(es: seq<Expr>, k: nat)
    requires Alternates(es) && k <= |es|
    ensures Alternates(es[..k])
  {
    var init := es[..k];
    forall i, j | 0 <= i && j == i + 1 && j < |init|
      ensures init[i].Token? != init[j].Token?
    {
      assert es[i].Token? != es[j].Token?;
    }
  }

  /** The root with a hole last: at most one literal, then stretches. */
  lemma RootStretch(es: seq<Expr>, g: Grammar)
    requires es != [] && Alternates(es) && NamesOk(es, g) && !es[|es| - 1].Token?
    ensures EndsInStretch(ElemsSeq(es, g, 1))
  {
    hide BodyOk, BeforeAny, AfterAny;
    assert AfterAny([]) by {
      NothingAfter();
    }
    if es[0].Token? {
      var tail := es[1..];
      AlternatesFrom(es, 1);
      assert es[0].Token? != es[1].Token?;
      assert HolesOk(tail, g, 1);
      StretchShape(tail, g, 1, []);
      TokenFirst(es, g, 1);
      var all := ElemsSeq(tail, g, 1);
      assert all + [] == all && ([Lit(es[0].t)] + all)[1..] == all;
    } else {
      StretchShape(es, g, 1, []);
      assert ElemsSeq(es, g, 1) + [] == ElemsSeq(es, g, 1);
    }
  }

  lemma NothingAfter()
    ensures AfterAny([])
  {
  }

  ghost predicate Shaped(es: seq<Expr>, all: seq<Elem>)
  {
    && es != []
    && (!es[|es| - 1].Token? ==> EndsInStretch(all))
    && (es[|es| - 1].Token? ==> if |es| == 1 then OneLiteral(all) else EndsInLiteral(all))
  }

  /** What the pattern ends in decides the shape of its elements. */
  lemma RootShape(es: seq<Expr>, g: Grammar)
    requires es != [] && Alternates(es) && NamesOk(es, g)
    ensures Shaped(es, ElemsSeq(es, g, 1))
  {
    var last := |es| - 1;
    if es[last].Token? {
      var init := es[..last];
      ElemsSnoc(init, es[last], g, 1);
      assert init + [es[last]] == es;
      if last == 0 {
        assert ElemsSeq(init, g, 1) == [];
      } else {
        AlternatesTo(es, last);
        assert es[last - 1].Token? != es[last].Token?;
        hide EndsInStretch, BodyOk;
        RootStretch(init, g);
        assert (ElemsSeq(init, g, 1) + [Lit(es[last].t)])[..|ElemsSeq(init, g, 1)|] == ElemsSeq(init, g, 1);
      }
    } else {
      hide EndsInStretch, BodyOk;
      RootStretch(es, g);
    }
  }

  // ---------------------------------------------------------------- shaped elements compile

  lemma CompilableCons(e: Elem, es: seq<Elem>)
    requires Compilable(es) && (e.Lit? ==> e.t != "") && (es != [] ==> NextOk(e, es[0]))
    ensures Compilable([e] + es)
  {
    var all := [e] + es;
    forall i | 0 < i < |all|
      ensures NextOk(all[i - 1], all[i])
    {
      if i > 1 {
        var k := i - 1;
        assert NextOk(es[k - 1], es[k]);
      }
    }
  }

  lemma CompilableSnoc(es: seq<Elem>, e: Elem)
    requires Compilable(es) && (e.Lit? ==> e.t != "") && (es != [] ==> NextOk(es[|es| - 1], e))
    ensures Compilable(es + [e])
  {
    var all := es + [e];
    forall i | 0 < i < |all|
      ensures NextOk(all[i - 1], all[i])
    {
      if i < |es| {
        assert NextOk(es[i - 1], es[i]);
      }
    }
  }

  ghost predicate LastOk(es: seq<Elem>)
  {
    es != [] ==> es[|es| - 1].Any? || es[|es| - 1].Close?
  }

  lemma {:induction false} StretchCompiles(es: seq<Elem>)
    ensures BeforeAny(es) ==> Compilable(es) && (es[0].Any? || es[0].Open?) && LastOk(es)
    ensures AfterAny(es) ==> Compilable(es) && (es != [] ==> es[0].Close? || es[0].Lit?) && LastOk(es)
    decreases |es|
  {
    if es != [] {
      StretchCompiles(es[1..]);
      assert es == [es[0]] + es[1..];
      assert es[1..] != [] ==> LastOk(es) == LastOk(es[1..]);
      if BeforeAny(es) || AfterAny(es) {
        hide Compilable;
        CompilableCons(es[0], es[1..]);
      }
    }
  }

  lemma ShapedCompiles(es: seq<Elem>)
    requires EndsInStretch(es) || EndsInLiteral(es) || OneLiteral(es)
    ensures Compilable(es)
  {
    if EndsInStretch(es) {
      StartCompiles(es);
    } else if EndsInLiteral(es) {
      var init := es[..|es| - 1];
      StartCompiles(init);
      CompilableSnoc(init, es[|es| - 1]);
      assert init + [es[|es| - 1]] == es;
    }
  }

  lemma StartCompiles(es: seq<Elem>)
    requires EndsInStretch(es)
    ensures Compilable(es) && LastOk(es)
  {
    StretchCompiles(es);
    if !BeforeAny(es) {
      StretchCompiles(es[1..]);
      CompilableCons(es[0], es[1..]);
      assert es == [es[0]] + es[1..];
    }
  }

  // ---------------------------------------------------------------- soundness and names

  lemma {:induction false} PlainSound(es: seq<Expr>, g: Grammar, d: nat)
    requires Alternates(es) && NoNames(es)
    ensures SoundSeq(es, g, d) && NamesSeq(es, g, d) == []
    decreases |es|
  {
    if es != [] {
      AlternatesFrom(es, 1);
      PlainSound(es[1..], g, d);
    }
  }

  lemma BodySound(e: Expr, g: Grammar, d: nat)
    requires BodyOk(e)
    ensures Sound(e, g, d) && NamesOf(e, g, d) == []
  {
    if e.Sequence? {
      PlainSound(e.es, g, d);
    }
  }

  lemma {:induction false} RootSound(es: seq<Expr>, g: Grammar)
    requires Alternates(es) && NamesOk(es, g)
    ensures SoundSeq(es, g, 1)
    ensures Distinct(NamesSeq(es, g, 1))
    ensures forall n :: n in NamesSeq(es, g, 1) ==> Name(n) in es
    decreases |es|
  {
    hide BodyOk;
    if es != [] {
      AlternatesFrom(es, 1);
      var e, tail := es[0], es[1..];
      RootSound(tail, g);
      if e.Name? {
        BodySound(g[e.name].expr, g, 0);
        assert NamesOf(e, g, 1) == [e.name];
        assert Name(e.name) !in tail;
      } else {
        assert NamesOf(e, g, 1) == [];
        assert [] + NamesSeq(tail, g, 1) == NamesSeq(tail, g, 1);
      }
    }
  }

  // ---------------------------------------------------------------- CompileGrammar

  /** What compiling the root production needs, and the shape of the elements. */
  lemma RegularCompiles(g: Grammar)
    requires Regular(g)
    ensures Elements(g) == ElemsSeq(g["root"].expr.es, g, 1)
    ensures SoundSeq(g["root"].expr.es, g, 1) && Distinct(NamesSeq(g["root"].expr.es, g, 1))
    ensures Compilable(Elements(g) + [])
    ensures Shaped(g["root"].expr.es, Elements(g))
  {
    var es := g["root"].expr.es;
    hide NamesOk, Alternates;
    assert NamesOk(es, g) && Alternates(es);
    hide Compilable, EndsInStretch, EndsInLiteral, OneLiteral;
    ElementsAgree(g);
    RootShape(es, g);
    RootSound(es, g);
    ShapedCompiles(Elements(g));
    assert Elements(g) + [] == Elements(g);
  }

  /** The start instruction and the memory of the compiled root production: the instructions of its
      elements, then the end of the match. */
  method CompileGrammar(g: Grammar) returns (mem: seq<Instr>, start: int, ghost path: seq<int>)
    requires Regular(g)
    ensures Linked(mem, path, Ops(Elements(g))) && path != [] && path[0] == start
  {
    RegularCompiles(g);
    hide Regular, Linked, Elements, Compilable, Shaped, Distinct;
    var c := new Compiler(g);
    assert Linked([MatchEnd], [], Ops([])) by {
      NothingLinked();
    }
    ghost var mem0 := c.mem;
    start := c.New(Blank);
    LinkedLater(mem0, c.mem, [], Ops([]));
    path := c.CompileSequence(g["root"].expr.es, start, 0, 1, [], []);
    mem := c.mem;
    assert Elements(g) + [] == Elements(g);
  }

  lemma NothingLinked()
    ensures Linked([MatchEnd], [], Ops([]))
  {
  }
}
