/** The grammar of a line pattern on its way through the store: hub/notebook.go prints what CompilePattern
    returns, and parses it again before the lines are matched. */
module PatternPrinted {
  import opened Wrappers
  import opened PatternGrammar
  import opened PatternMeaning
  import opened PatternCompile
  import opened PatternShapes
  import Ebnf
  import EbnfParser
  import EbnfRound
  import EbnfPrinter
  import EbnfDots

  // ---------------------------------------------------------------- one grammar in both forms

  function Wider(e: Expr): Ebnf.Expr
  {
    match e
    case Token(t) => Ebnf.Token(t)
    case AnyText => Ebnf.Any
    case Name(n) => Ebnf.Name(n)
    case Sequence(es) => Ebnf.Sequence(seq(|es|, i requires 0 <= i < |es| => Wider(es[i])))
  }

  function Written(g: Grammar): Ebnf.Grammar
  {
    map n | n in g :: Ebnf.Production(n, g[n].metadata, Some(Wider(g[n].expr)))
  }

  // ---------------------------------------------------------------- names

  /** Every name that has been given a production stands in the root sequence. */
  ghost predicate Standing(b: Built)
  {
    forall n :: n in b.grm ==> n != "_" && Identifier(n) && Name(n) in b.es
  }

  lemma HoleStanding(b: Built, text: string, first: bool, n: string, meta: string, b': Built)
    requires Standing(b) && AddHole(b, text, first, n, meta) == Ok(b')
    ensures Standing(b')
    ensures forall m :: m in b'.grm <==> m in b.grm || (m == n && n != "_")
  {
    hide Identifier;
  }

  lemma {:induction false} AssembleStanding(ps: seq<Piece>, text: string, first: bool, b: Built, g: Grammar)
    requires Standing(b) && NoRoot(ps) && "root" !in b.grm && Assemble(ps, text, first, b) == Ok(g)
    ensures "root" in g && g["root"].expr.Sequence?
    ensures forall n :: n in g && n != "root" ==> n != "_" && Identifier(n) && Name(n) in g["root"].expr.es
    ensures "" in g <==> "" in b.grm || !Named(ps)
    decreases |ps|
  {
    hide AddHole, Identifier;
    if ps != [] {
      assert forall i :: 0 < i < |ps| ==> ps[i] == ps[1..][i - 1];
      match ps[0]
      case Text(t) =>
        AssembleStanding(ps[1..], text + t, false, b, g);
      case Hole(n, m) =>
        var meta := if m.Some? then m.value else "";
        var b' := AddHole(b, text, first, n, meta).value;
        HoleStanding(b, text, first, n, meta, b');
        HoleKeeps(b, text, first, n, meta, b');
        AssembleStanding(ps[1..], "", false, b', g);
    }
  }

  /** Every hole has a name. */
  ghost predicate Named(ps: seq<Piece>) { forall i :: 0 <= i < |ps| && ps[i].Hole? ==> ps[i].name != "" }

  lemma {:induction false} NamesWider(es: seq<Expr>)
    requires forall i :: 0 <= i < |es| ==> !es[i].Sequence?
    ensures forall n :: n in EbnfPrinter.NamesInAll(Wider(Sequence(es)).es) <==> Name(n) in es
  {
    var ws := Wider(Sequence(es)).es;
    if es != [] {
      var init, last := es[..|es| - 1], es[|es| - 1];
      NamesWider(init);
      assert ws[..|ws| - 1] == Wider(Sequence(init)).es;
      assert es == init + [last];
    }
  }

  // ---------------------------------------------------------------- the round trip

  /** The grammar of an accepted pattern, written down. */
  ghost predicate Stored(g: Grammar)
  {
    && Regular(g)
    && (forall n :: n in g && n != "root" ==> n != "_" && Identifier(n) && Name(n) in g["root"].expr.es)
    && Name("root") !in g["root"].expr.es
  }

  lemma PatternStored(pattern: string, g: Grammar)
    requires pattern != "" && NoRoot(Read(pattern).ps) && Compiled(pattern) == Ok(g)
    ensures Stored(g) && ("" in g <==> !Named(Read(pattern).ps))
  {
    PatternAssembles(pattern);
    PatternRegular(pattern, g);
    AssembleStanding(Read(pattern).ps, "", true, Nothing, g);
    hide Compiled, Read, Assemble, NoRoot, Named, Identifier;
    if Name("root") in g["root"].expr.es {
      RootInRoot(g);
    }
  }

  lemma TermsWider(es: seq<Expr>)
    requires es != [] && forall i :: 0 <= i < |es| ==> !es[i].Sequence? && (es[i].Name? ==> es[i].name != "_" && Ebnf.IsIdent(es[i].name))
    ensures var e := Wider(Sequence(es)); Ebnf.Normal(e) || Ebnf.Lone(e)
  {
    var e := Wider(Sequence(es));
    forall i | 0 <= i < |es|
      ensures Ebnf.IsTerm(e.es[i])
    {
    }
    if |es| > 1 {
      assert Ebnf.IsSequence(e);
    }
  }

  /** One production: the root alone uses names. */
  lemma ProductionStored(g: Grammar, n: string)
    requires Stored(g) && n in g
    ensures EbnfPrinter.Defined(Written(g), Written(g)[n])
    ensures forall m :: m in EbnfPrinter.NamesIn(Wider(g[n].expr)) <==> n == "root" && m != "root" && m in g
  {
    var root := g["root"].expr.es;
    hide Identifier;
    if n == "root" {
      assert forall i :: 0 <= i < |root| && root[i].Name? ==> root[i].name in g;
      NamesWider(root);
    } else {
      var i :| 0 <= i < |root| && root[i] == Name(n);
      assert BodyOk(g[n].expr);
      if g[n].expr.Sequence? {
        NamesWider(g[n].expr.es);
      }
    }
  }

  /** It is in parser normal form if all names are names. */
  lemma ProductionNormal(g: Grammar, n: string)
    requires Stored(g) && n in g && "" !in g
    ensures EbnfRound.Printable(Written(g)[n])
  {
    var root := g["root"].expr.es;
    if n == "root" {
      forall i | 0 <= i < |root| && root[i].Name?
        ensures root[i].name != "_" && Ebnf.IsIdent(root[i].name)
      {
        assert Name(root[i].name) in root;
        IdentifierWords(root[i].name);
      }
      TermsWider(root);
    } else {
      IdentifierWords(n);
      var i :| 0 <= i < |root| && root[i] == Name(n);
      assert BodyOk(g[n].expr);
      if g[n].expr.Sequence? {
        TermsWider(g[n].expr.es);
      } else {
        assert Ebnf.Normal(Wider(g[n].expr));
      }
    }
  }

  lemma IdentifierWords(n: string)
    requires Identifier(n) && n != ""
    ensures Ebnf.IsIdent(n)
  {
  }

  lemma WrittenClosed(g: Grammar)
    requires Stored(g)
    ensures EbnfPrinter.Closed(Written(g)) && "root" in Written(g)
    ensures "" !in g ==> EbnfPrinter.AllNormal(Written(g))
  {
    forall n | n in Written(g)
      ensures EbnfPrinter.Defined(Written(g), Written(g)[n])
      ensures "" !in g ==> EbnfRound.Printable(Written(g)[n])
    {
      ProductionStored(g, n);
      if "" !in g {
        ProductionNormal(g, n);
      }
    }
  }

  lemma ReachNormal(w: Ebnf.Grammar)
    requires EbnfPrinter.AllNormal(w) && EbnfPrinter.ClosedFrom(w, "root")
    ensures EbnfPrinter.AllNormal(EbnfPrinter.Reach(w, "root"))
  {
    EbnfPrinter.ReachIs(w, "root");
  }

  lemma ClosedAll(w: Ebnf.Grammar)
    requires EbnfPrinter.Closed(w) && "root" in w
    ensures EbnfPrinter.ClosedFrom(w, "root")
  {
    EbnfPrinter.ClosedReaches(w, "root");
  }

  lemma AllMet(g: Grammar, n: string)
    requires Stored(g)
    ensures EbnfPrinter.Met(Written(g), "root", n) <==> n in g && n != "root"
  {
    var w := Written(g);
    if n in g && n != "root" {
      ProductionStored(g, "root");
      assert EbnfPrinter.Uses(w, "root", n);
      assert EbnfPrinter.Path(w, "root", ["root"], n);
    }
    if EbnfPrinter.Met(w, "root", n) {
      var path :| EbnfPrinter.Path(w, "root", path, n);
      PathUses(g, "root", path, n);
    }
  }

  lemma PathUses(g: Grammar, start: string, path: seq<string>, n: string)
    requires Stored(g) && EbnfPrinter.Path(Written(g), start, path, n)
    ensures n in g && n != "root"
  {
    ProductionStored(g, path[|path| - 1]);
  }

  /** The grammar of g comes back as h: the same productions, but for a root of one expression, which loses
      its sequence. */
  ghost predicate Loaded(g: Grammar, h: Ebnf.Grammar, errors: nat)
  {
    errors == 0 && h.Keys == g.Keys && forall n :: n in g ==> h[n] == Ebnf.Trimmed(Written(g)[n])
  }

  /** The grammar of an accepted pattern that the server prints and parses again comes back without an error
      if and only if the pattern is not empty and every hole has a name. */
  method StoreAndLoad(pattern: string) returns (g: Result<Grammar>, h: Ebnf.Grammar, errors: nat)
    requires NoRoot(Read(pattern).ps)
    ensures g == Compiled(pattern)
    ensures g.Ok? ==> (Loaded(g.value, h, errors) <==> pattern != "" && Named(Read(pattern).ps))
    ensures g.Ok? ==> (errors == 0 <==> Named(Read(pattern).ps))
  {
    hide *;
    g := CompilePattern(pattern);
    if g.Err? {
      return g, map[], 0;
    }
    var w := Written(g.value);
    if |pattern| == 0 {
      EmptyText(pattern);
      h, errors := EbnfPrinter.RoundTrip(w, "root");
      return;
    }
    PatternStored(pattern, g.value);
    WrittenClosed(g.value);
    ClosedAll(w);
    h, errors := EbnfPrinter.RoundTrip(w, "root");
    forall n
      ensures EbnfPrinter.Met(w, "root", n) <==> n in g.value && n != "root"
    {
      AllMet(g.value, n);
    }
    if "" in g.value {
      EbnfDots.NamelessReported(w, "root");
      NotLoaded(g.value, h, errors);
    } else {
      ReachNormal(w);
      SameProductions(g.value, h);
      LoadedWhen(g.value, h, errors);
    }
  }

  lemma NotLoaded(g: Grammar, h: Ebnf.Grammar, errors: nat)
    requires errors > 0
    ensures !Loaded(g, h, errors)
  {
  }

  lemma LoadedWhen(g: Grammar, h: Ebnf.Grammar, errors: nat)
    requires errors == 0 && h.Keys == g.Keys && forall n :: n in g ==> h[n] == Ebnf.Trimmed(Written(g)[n])
    ensures Loaded(g, h, errors)
  {
  }

  /** The root of the empty text is printed without an expression, and comes back as none. */
  lemma EmptyText(pattern: string)
    requires pattern == ""
    ensures Compiled(pattern) == Ok(map["root" := Production(Sequence([]), "")]) && Named(Read(pattern).ps)
    ensures var w := Written(Compiled(pattern).value);
      && EbnfPrinter.ClosedFrom(w, "root")
      && var r := EbnfParser.FileAt(EbnfPrinter.PrintedToks(w, "root"), 0, map[], 0);
        r.errors == 0 && !Loaded(Compiled(pattern).value, r.value, r.errors)
  {
    assert Read("").ps == [];
    var g: Grammar := map["root" := Production(Sequence([]), "")];
    assert map[]["root" := Production(Sequence([]), "")] == g;
    var w := Written(g);
    assert Wider(Sequence([])) == Ebnf.Sequence([]);
    assert w == map["root" := Ebnf.Production("root", "", Some(Ebnf.Sequence([])))];
    EmptyRoot(w);
  }

  lemma EmptyRoot(w: Ebnf.Grammar)
    requires w == map["root" := Ebnf.Production("root", "", Some(Ebnf.Sequence([])))]
    ensures EbnfPrinter.ClosedFrom(w, "root")
    ensures EbnfParser.FileAt(EbnfPrinter.PrintedToks(w, "root"), 0, map[], 0)
      == EbnfParser.R(map["root" := Ebnf.Production("root", "", None)], 3, 0)
  {
    ClosedAll(w);
    EbnfPrinter.ReachIs(w, "root");
    EbnfPrinter.PrintedToksAre(w, "root");
    var r := EbnfPrinter.Reach(w, "root");
    assert r == w;
    EmptyPrinted(w);
    EmptyParsed();
  }

  lemma EmptyPrinted(w: Ebnf.Grammar)
    requires w == map["root" := Ebnf.Production("root", "", Some(Ebnf.Sequence([])))]
    requires EbnfPrinter.Listed(w, [w["root"]], {})
    ensures var ps := EbnfPrinter.Printed(w, [w["root"]], {});
      EbnfRound.AllWritten(ps) && EbnfRound.ToksAll(ps) == [Ebnf.Ident("root"), Ebnf.Punct('='), Ebnf.Punct('.')]
  {
    var p := w["root"];
    assert [p][1..] == [];
    assert EbnfPrinter.NamesIn(p.expr.value) == [];
    assert EbnfPrinter.Printed(w, [], {}) == [];
    assert EbnfPrinter.Printed(w, [p], {}) == [p];
    assert EbnfRound.ToksAll([]) == [];
    assert Ebnf.ToksSeq([]) == [];
  }

  lemma EmptyParsed()
    ensures EbnfParser.FileAt([Ebnf.Ident("root"), Ebnf.Punct('='), Ebnf.Punct('.')], 0, map[], 0)
      == EbnfParser.R(map["root" := Ebnf.Production("root", "", None)], 3, 0)
  {
    var ts := [Ebnf.Ident("root"), Ebnf.Punct('='), Ebnf.Punct('.')];
    assert EbnfParser.ProductionAt(ts, 0) == EbnfParser.R(Ebnf.Production("root", "", None), 3, 0);
    assert EbnfParser.FileAt(ts, 3, map["root" := Ebnf.Production("root", "", None)], 0).errors == 0;
  }

  lemma SameProductions(g: Grammar, h: Ebnf.Grammar)
    requires "root" in Written(g) && EbnfPrinter.Within(h, Written(g))
    requires forall n :: n in h <==> n == "root" || (n in g && n != "root")
    ensures h.Keys == g.Keys && forall n :: n in g ==> h[n] == Ebnf.Trimmed(Written(g)[n])
  {
  }

  /** A root that loses its sequence has the same elements, and so the same program. */
  lemma TrimmedElements(g: Grammar)
    requires Stored(g) && |g["root"].expr.es| == 1
    ensures ElemsOf(g["root"].expr.es[0], g, 1) == Elements(g)
    ensures "" !in g ==> Ebnf.Trim(Wider(g["root"].expr)) == Wider(g["root"].expr.es[0])
  {
    ElementsAgree(g);
    var es := g["root"].expr.es;
    if es[0].Name? {
      assert Name(es[0].name) in es;
      if es[0].name != "" {
        IdentifierWords(es[0].name);
      }
    }
    assert es[1..] == [];
    assert ElemsSeq(es[1..], g, 1) == [];
    assert ElemsSeq(es, g, 1) == ElemsOf(es[0], g, 1) + [];
  }

  /** The text "<>" is accepted, and does not come back. */
  method NamelessText() returns (g: Result<Grammar>, h: Ebnf.Grammar, errors: nat)
    ensures g.Ok? && g == Compiled("<>") && errors > 0
  {
    NamelessPieces();
    hide *;
    g, h, errors := StoreAndLoad("<>");
  }

  lemma NamelessPieces()
    ensures Compiled("<>").Ok? && NoRoot(Read("<>").ps) && !Named(Read("<>").ps)
  {
    var ps := [Hole("", None)];
    RenderBare("");
    RenderNone();
    RenderCons(Hole("", None), []);
    assert ps + [] == ps && "<" + ("" + ">") + "" == "<>";
    ReadExact("<>", ps);
    PatternAssembles("<>");
    assert ps[1..] == [] && ps[0].name == "";
    assert AddHole(Nothing, "", true, "", "").Ok?;
  }

  /** What is printed for the root of `<foo> <bar>` and for a name that comes twice. */
  lemma WrittenTokens()
    ensures
      var g: Grammar := map[
        "foo" := Production(Sequence([AnyText, Token(" "), AnyText]), "m"),
        "root" := Production(Sequence([Name("foo"), Token(" >")]), "")];
      && Ebnf.ProdToks(Written(g)["root"]) ==
        [Ebnf.Ident("root"), Ebnf.Punct('='), Ebnf.Ident("foo"), Ebnf.Str(" >"), Ebnf.Punct('.')]
      && Ebnf.ProdToks(Written(g)["foo"]) ==
        [Ebnf.Ident("foo"), Ebnf.Punct(':'), Ebnf.Str("m"), Ebnf.Punct('='), Ebnf.Ident("_"), Ebnf.Str(" "), Ebnf.Ident("_"), Ebnf.Punct('.')]
  {
    TwoWritten(Name("foo"), Token(" >"));
    ThreeWritten(AnyText, Token(" "), AnyText);
    assert Ebnf.Toks(Wider(Name("foo"))) == [Ebnf.Ident("foo")] && Ebnf.Toks(Wider(Token(" >"))) == [Ebnf.Str(" >")];
    assert Ebnf.Toks(Wider(AnyText)) == [Ebnf.Ident("_")] && Ebnf.Toks(Wider(Token(" "))) == [Ebnf.Str(" ")];
    hide Ebnf.Toks, Wider;
  }

  lemma TwoWritten(a: Expr, b: Expr)
    ensures Ebnf.Toks(Wider(Sequence([a, b]))) == Ebnf.Toks(Wider(a)) + Ebnf.Toks(Wider(b))
  {
    var es := [Wider(a), Wider(b)];
    assert Wider(Sequence([a, b])) == Ebnf.Sequence(es);
    hide Wider;
    Ebnf.TwoToks(es[0], es[1]);
  }

  lemma ThreeWritten(a: Expr, b: Expr, c: Expr)
    ensures Ebnf.Toks(Wider(Sequence([a, b, c]))) == Ebnf.Toks(Wider(a)) + (Ebnf.Toks(Wider(b)) + Ebnf.Toks(Wider(c)))
  {
    var es := [Wider(a), Wider(b), Wider(c)];
    assert Wider(Sequence([a, b, c])) == Ebnf.Sequence(es);
    hide Wider;
    Ebnf.TwoToks(es[1], es[2]);
    assert es[1..] == [es[1], es[2]];
    assert Ebnf.ToksSeq(es) == Ebnf.Toks(es[0]) + Ebnf.ToksSeq(es[1..]);
  }
}
