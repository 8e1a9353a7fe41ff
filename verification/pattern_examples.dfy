/** Patterns of internal/mdt/pattern_test.go, compiled. */
module PatternExamples {
  import opened Wrappers
  import opened PatternGrammar

  const Blank: Piece := Text(" ")

  function Bare(n: string): Piece { Hole(n, None) }

  lemma BareOk(n: string, ps: seq<Piece>)
    requires Without(n, {'<', '>', ':'}) && PiecesOk(ps)
    ensures PiecesOk([Bare(n)] + ps) && Render([Bare(n)] + ps) == ("<" + (n + ">")) + Render(ps)
  {
    RenderCons(Bare(n), ps);
    RenderBare(n);
    assert HoleOk(n, None);
    hide *;
  }

  lemma TextFirst(t: string, ps: seq<Piece>)
    requires TextOk(t, true) && ps != [] && ps[0].Hole? && PiecesOk(ps)
    ensures PiecesOk([Text(t)] + ps) && Render([Text(t)] + ps) == t + Render(ps)
  {
    RenderCons(Text(t), ps);
    RenderedText(t);
    hide *;
  }

  lemma AssembleHole(n: string, m: Option<string>, ps: seq<Piece>, text: string, first: bool, b: Built)
    ensures var r := AddHole(b, text, first, n, if m.Some? then m.value else "");
      Assemble([Hole(n, m)] + ps, text, first, b) == if r.Err? then Err(r.error) else Assemble(ps, "", false, r.value)
  {
    assert ([Hole(n, m)] + ps)[1..] == ps;
    hide AddHole;
  }

  lemma AssembleLit(t: string, ps: seq<Piece>, first: bool, b: Built)
    ensures Assemble([Text(t)] + ps, "", first, b) == Assemble(ps, t, false, b)
  {
    assert ([Text(t)] + ps)[1..] == ps && "" + t == t;
    hide AddHole;
  }

  // ---------------------------------------------------------------- three names

  /** The first pattern of the tests. */
  method ThreeNames() returns (r: Result<Grammar>)
    ensures r == Ok(map[
      "foo" := Production(AnyText, ""), "helloworld" := Production(AnyText, ""), "hello_world" := Production(AnyText, ""),
      "root" := Production(Sequence([Name("foo"), Token(" "), Name("helloworld"), Token(" "), Name("hello_world")]), "")])
  {
    ThreePieces();
    ThreeAssemble();
    PatternAssembles("<foo> <helloworld> <hello_world>");
    hide *;
    r := CompilePattern("<foo> <helloworld> <hello_world>");
  }

  function Three(): seq<Piece> { [Bare("foo"), Blank, Bare("helloworld"), Blank, Bare("hello_world")] }

  lemma ThreeParts()
    ensures Three() == [Bare("foo")] + ([Blank] + ([Bare("helloworld")] + ([Blank] + ([Bare("hello_world")] + []))))
  {
  }

  lemma ThreePieces()
    ensures Read("<foo> <helloworld> <hello_world>") == Reading(Three(), true)
  {
    ThreeParts();
    assert TextOk(" ", true);
    hide Three, PiecesOk, Render, TextOk;
    RenderNone();
    BareOk("hello_world", []);
    TextFirst(" ", [Bare("hello_world")] + []);
    BareOk("helloworld", [Blank] + ([Bare("hello_world")] + []));
    TextFirst(" ", [Bare("helloworld")] + ([Blank] + ([Bare("hello_world")] + [])));
    BareOk("foo", [Blank] + ([Bare("helloworld")] + ([Blank] + ([Bare("hello_world")] + []))));
    ThreeSpelled();
    ReadExact("<foo> <helloworld> <hello_world>", Three());
  }

  lemma ThreeSpelled()
    ensures ("<" + ("foo" + ">")) + (" " + (("<" + ("helloworld" + ">")) + (" " + (("<" + ("hello_world" + ">")) + ""))))
      == "<foo> <helloworld> <hello_world>"
  {
  }

  lemma ThreeAssemble()
    ensures Assemble(Three(), "", true, Nothing) == Ok(map[
      "foo" := Production(AnyText, ""), "helloworld" := Production(AnyText, ""), "hello_world" := Production(AnyText, ""),
      "root" := Production(Sequence([Name("foo"), Token(" "), Name("helloworld"), Token(" "), Name("hello_world")]), "")])
  {
    ThreeParts();
    var any := Production(AnyText, "");
    assert Identifier("foo") && Identifier("helloworld") && Identifier("hello_world");
    var g1: Grammar := map["foo" := any];
    var g2: Grammar := map["foo" := any, "helloworld" := any];
    var g3: Grammar := map["foo" := any, "helloworld" := any, "hello_world" := any];
    var b1 := Built([Name("foo")], g1, "foo");
    var b2 := Built([Name("foo"), Token(" "), Name("helloworld")], g2, "helloworld");
    var b3 := Built([Name("foo"), Token(" "), Name("helloworld"), Token(" "), Name("hello_world")], g3, "hello_world");
    Added(Nothing, "", true, "foo", b1);
    Added(b1, " ", false, "helloworld", b2);
    Added(b2, " ", false, "hello_world", b3);
    var p3 := [Bare("hello_world")] + [];
    var p2 := [Bare("helloworld")] + ([Blank] + p3);
    assert Assemble([], "", false, b3) == Ok(Finish(b3, ""));
    hide Three, AddHole, Assemble, Identifier;
    AssembleHole("hello_world", None, [], " ", false, b2);
    AssembleLit(" ", p3, false, b2);
    AssembleHole("helloworld", None, [Blank] + p3, " ", false, b1);
    AssembleLit(" ", p2, false, b1);
    AssembleHole("foo", None, [Blank] + p2, "", true, Nothing);
  }

  /** A new name: behind the literal comes the name, and its production is free text. */
  lemma Added(b: Built, text: string, first: bool, n: string, b': Built)
    requires (first || text != "") && Identifier(n) && n !in b.grm && n != "_"
    requires b'.es == (if text == "" then b.es else b.es + [Token(text)]) + [Name(n)]
    requires b'.grm == b.grm[n := Production(AnyText, "")] && b'.last == n
    ensures AddHole(b, text, first, n, "") == Ok(b')
  {
  }

  // ---------------------------------------------------------------- one name twice

  /** A name with metadata that comes again, and a '>' at the end. */
  method NameTwice() returns (r: Result<Grammar>)
    ensures r == Ok(map[
      "foo" := Production(Sequence([AnyText, Token(" "), AnyText]), "2012-01-02"), "bar" := Production(AnyText, ""),
      "root" := Production(Sequence([Name("foo"), Token(" "), Name("bar"), Token(" >")]), "")])
  {
    TwicePieces();
    TwiceAssemble();
    PatternAssembles("<foo:2012-01-02> <foo> <bar> >");
    hide *;
    r := CompilePattern("<foo:2012-01-02> <foo> <bar> >");
  }

  const Dated: Piece := Hole("foo", Some("2012-01-02"))

  function Twice(): seq<Piece> { [Dated, Blank, Bare("foo"), Blank, Bare("bar"), Text(" >")] }

  lemma TwiceParts()
    ensures Twice() == [Dated] + ([Blank] + ([Bare("foo")] + ([Blank] + ([Bare("bar")] + [Text(" >")]))))
  {
  }

  lemma TwicePieces()
    ensures Read("<foo:2012-01-02> <foo> <bar> >") == Reading(Twice(), true)
  {
    TwiceParts();
    assert TextOk(" ", true);
    LastText();
    DatedOk();
    hide Three, PiecesOk, Render, TextOk, RenderPiece, HoleOk;
    var p4 := [Bare("bar")] + [Text(" >")];
    var p2 := [Bare("foo")] + ([Blank] + p4);
    BareOk("bar", [Text(" >")]);
    TextFirst(" ", p4);
    BareOk("foo", [Blank] + p4);
    TextFirst(" ", p2);
    RenderCons(Dated, [Blank] + p2);
    TwiceSpelled();
    ReadExact("<foo:2012-01-02> <foo> <bar> >", Twice());
  }

  lemma LastText()
    ensures PiecesOk([Text(" >")]) && Render([Text(" >")]) == " >"
  {
    assert [Text(" >")][1..] == [] && " >" + "" == " >";
  }

  lemma DatedOk()
    ensures HoleOk("foo", Some("2012-01-02")) && RenderPiece(Dated) == "<foo:2012-01-02>"
  {
    assert "<" + ("foo" + (":" + ("2012-01-02" + ">"))) == "<foo:2012-01-02>";
  }

  lemma TwiceSpelled()
    ensures "<foo:2012-01-02>" + (" " + (("<" + ("foo" + ">")) + (" " + (("<" + ("bar" + ">")) + " >")))) == "<foo:2012-01-02> <foo> <bar> >"
  {
  }

  lemma TwiceAssemble()
    ensures Assemble(Twice(), "", true, Nothing) == Ok(map[
      "foo" := Production(Sequence([AnyText, Token(" "), AnyText]), "2012-01-02"), "bar" := Production(AnyText, ""),
      "root" := Production(Sequence([Name("foo"), Token(" "), Name("bar"), Token(" >")]), "")])
  {
    TwiceParts();
    assert Identifier("foo") && Identifier("bar");
    var g1: Grammar := map["foo" := Production(AnyText, "2012-01-02")];
    var g2: Grammar := map["foo" := Production(Sequence([AnyText, Token(" "), AnyText]), "2012-01-02")];
    var g3: Grammar := g2["bar" := Production(AnyText, "")];
    var b1 := Built([Name("foo")], g1, "foo");
    var b2 := Built([Name("foo")], g2, "foo");
    var b3 := Built([Name("foo"), Token(" "), Name("bar")], g3, "bar");
    assert AddHole(Nothing, "", true, "foo", "2012-01-02") == Ok(b1) by {
      assert [] + [Name("foo")] == b1.es && map[]["foo" := Production(AnyText, "2012-01-02")] == g1;
    }
    assert AddHole(b1, " ", false, "foo", "") == Ok(b2) by {
      assert [AnyText] + [Token(" "), AnyText] == [AnyText, Token(" "), AnyText];
      assert g1["foo" := Production(Sequence([AnyText, Token(" "), AnyText]), "2012-01-02")] == g2;
    }
    Added(b2, " ", false, "bar", b3);
    var p4 := [Bare("bar")] + [Text(" >")];
    var p2 := [Bare("foo")] + ([Blank] + p4);
    EndsWith(" >", b3);
    hide Three, AddHole, Assemble, Identifier;
    AssembleHole("bar", None, [Text(" >")], " ", false, b2);
    AssembleLit(" ", p4, false, b2);
    AssembleHole("foo", None, [Blank] + p4, " ", false, b1);
    AssembleLit(" ", p2, false, b1);
    AssembleHole("foo", Some("2012-01-02"), [Blank] + p2, "", true, Nothing);
    assert b3.es + [Token(" >")] == [Name("foo"), Token(" "), Name("bar"), Token(" >")];
  }

  lemma EndsWith(t: string, b: Built)
    ensures Assemble([Text(t)], "", false, b) == Ok(Finish(b, t))
  {
    assert [Text(t)][1..] == [] && "" + t == t;
  }
}
