/** What the parser of internal/mdt/ebnf_parser.go takes without an error: behind every dot a name begins.
    A production that is printed without its name is therefore reported. */
module EbnfDots {
  import opened Ebnf
  import opened EbnfParser
  import opened EbnfRound
  import opened EbnfPrinter

  const Dot: Tok := Punct('.')

  ghost predicate NoDot(ts: seq<Tok>, i: nat, j: nat)
    requires j <= |ts|
  {
    forall k :: i <= k < j ==> ts[k] != Dot
  }

  // ---------------------------------------------------------------- no dot within an expression

  lemma LiteralDots(ts: seq<Tok>, i: nat)
    requires i < |ts| && Literal(ts[i]) && LiteralAt(ts, i).errors == 0
    ensures NoDot(ts, i, LiteralAt(ts, i).pos)
  {
  }

  lemma {:induction false} TermDots(ts: seq<Tok>, i: nat)
    requires i <= |ts| && TermAt(ts, i).errors == 0
    ensures NoDot(ts, i, TermAt(ts, i).pos)
    decreases |ts| - i, 0
  {
    match At(ts, i)
    case Str(s) => LiteralDots(ts, i);
    case Chr(s) => LiteralDots(ts, i);
    case Punct(c) =>
      if c in {'(', '[', '{'} {
        ExpressionDots(ts, i + 1);
        hide ExpressionAt;
      }
    case _ =>
  }

  lemma {:induction false} TermsDots(ts: seq<Tok>, i: nat)
    requires i <= |ts| && TermsAt(ts, i).errors == 0
    ensures NoDot(ts, i, TermsAt(ts, i).pos)
    decreases |ts| - i, 1
  {
    var x := TermAt(ts, i);
    if x.value.Some? {
      TermDots(ts, i);
      TermsDots(ts, x.pos);
      hide TermAt;
    }
  }

  lemma {:induction false} SequenceDots(ts: seq<Tok>, i: nat)
    requires i <= |ts| && SequenceAt(ts, i).errors == 0
    ensures NoDot(ts, i, SequenceAt(ts, i).pos)
    decreases |ts| - i, 2
  {
    TermsDots(ts, i);
    hide TermsAt;
  }

  lemma {:induction false} AlternativesDots(ts: seq<Tok>, i: nat)
    requires i <= |ts| && AlternativesAt(ts, i).errors == 0
    ensures NoDot(ts, i, AlternativesAt(ts, i).pos)
    decreases |ts| - i, 3
  {
    var x := SequenceAt(ts, i);
    SequenceDots(ts, i);
    if At(ts, x.pos) == Punct('|') {
      AlternativesDots(ts, x.pos + 1);
    }
    hide SequenceAt;
  }

  lemma {:induction false} ExpressionDots(ts: seq<Tok>, i: nat)
    requires i <= |ts| && ExpressionAt(ts, i).errors == 0
    ensures NoDot(ts, i, ExpressionAt(ts, i).pos)
    decreases |ts| - i, 4
  {
    AlternativesDots(ts, i);
    hide AlternativesAt;
  }

  // ---------------------------------------------------------------- a name behind every dot

  lemma ProductionDots(ts: seq<Tok>, i: nat)
    requires i < |ts| && ProductionAt(ts, i).errors == 0
    ensures ts[i].Ident? && NoDot(ts, i, ProductionAt(ts, i).pos - 1)
  {
    var i1 := i + 1;
    var m := At(ts, i1) == Punct(':');
    var i2 := if m then Adv(ts, i1) else i1;
    var i3 := if m then Adv(ts, i2) else i2;
    var i4 := Adv(ts, i3);
    if At(ts, i4) != Dot {
      ExpressionDots(ts, i4);
    }
    hide ExpressionAt;
  }

  lemma {:induction false} ErrorsStay(ts: seq<Tok>, i: nat, g: Grammar, errors: nat)
    requires i <= |ts|
    ensures FileAt(ts, i, g, errors).errors >= errors
    decreases |ts| - i
  {
    hide ProductionAt;
    if i < |ts| {
      var p := ProductionAt(ts, i);
      if p.value.name in g {
        ErrorsStay(ts, p.pos, g, errors + p.errors + 1);
      } else {
        ErrorsStay(ts, p.pos, g[p.value.name := p.value], errors + p.errors);
      }
    }
  }

  ghost predicate NamesFollow(ts: seq<Tok>, i: nat)
  {
    forall k, n :: i <= k < |ts| && n == k + 1 < |ts| && ts[k] == Dot ==> ts[n].Ident?
  }

  lemma {:induction false} FileDots(ts: seq<Tok>, i: nat, g: Grammar, errors: nat)
    requires i <= |ts| && FileAt(ts, i, g, errors).errors == 0
    ensures NamesFollow(ts, i) && (i < |ts| ==> ts[i].Ident?)
    decreases |ts| - i
  {
    if i < |ts| {
      var p := ProductionAt(ts, i);
      var g' := g[p.value.name := p.value];
      FileStepDots(ts, i, g, errors);
      ProductionDots(ts, i);
      FileDots(ts, p.pos, g', 0);
      hide ProductionAt, FileAt;
      forall k, n | i <= k < |ts| && n == k + 1 < |ts| && ts[k] == Dot
        ensures ts[n].Ident?
      {
        if k < p.pos {
          assert k == p.pos - 1;
        }
      }
    }
  }

  lemma FileStepDots(ts: seq<Tok>, i: nat, g: Grammar, errors: nat)
    requires i < |ts| && FileAt(ts, i, g, errors).errors == 0
    ensures errors == 0 && ProductionAt(ts, i).errors == 0
    ensures var p := ProductionAt(ts, i); FileAt(ts, p.pos, g[p.value.name := p.value], 0).errors == 0
  {
    ErrorsStay(ts, i, g, errors);
    var p := ProductionAt(ts, i);
    hide ProductionAt;
    if p.value.name in g {
      ErrorsStay(ts, p.pos, g, errors + p.errors + 1);
    } else {
      ErrorsStay(ts, p.pos, g[p.value.name := p.value], errors + p.errors);
    }
  }

  // ---------------------------------------------------------------- productions without a name

  lemma ProdEnds(p: Production)
    requires p.expr.Some?
    ensures var ts := ProdToks(p); ts != [] && ts[|ts| - 1] == Dot && (p.name == "" ==> !ts[0].Ident?)
  {
    hide Toks;
    var head := Word(p.name) + MetaToks(p.metadata) + [Punct('=')];
    assert ProdToks(p) == head + (Toks(p.expr.value) + [Dot]);
    assert p.name == "" ==> head[0] == if p.metadata == "" then Punct('=') else Punct(':');
  }

  /** Behind the dot of the production before it, one without a name begins with something else. */
  lemma {:induction false} NamelessAfter(ps: seq<Production>, k: nat) returns (at: nat)
    requires AllWritten(ps) && 0 < k < |ps| && ps[k].name == ""
    ensures at + 1 < |ToksAll(ps)| && ToksAll(ps)[at] == Dot && !ToksAll(ps)[at + 1].Ident?
    decreases k
  {
    FileParts(ps);
    FileParts(ps[1..]);
    var a, b := ProdToks(ps[0]), ToksAll(ps[1..]);
    ProdEnds(ps[0]);
    if k == 1 {
      ProdEnds(ps[1]);
      at := |a| - 1;
      hide ProdToks, ToksAll;
      assert b[0] == ProdToks(ps[1..][0])[0];
    } else {
      var rest := NamelessAfter(ps[1..], k - 1);
      at := |a| + rest;
      hide ProdToks, ToksAll;
    }
  }

  /** A grammar in which a production without a name is reached is printed, but not parsed without an error. */
  lemma NamelessReported(g: Grammar, start: string)
    requires ClosedFrom(g, start) && start != "" && Met(g, start, "")
    ensures FileAt(PrintedToks(g, start), 0, map[], 0).errors > 0
  {
    var r := Reach(g, start);
    PrintedToksAre(g, start);
    ReachIs(g, start);
    var ps := Printed(r, [g[start]], {});
    var k := NamelessPrinted(g, start);
    hide Printed, Reach, Met, ToksAll, FileAt, AllWritten, Closed, Listed;
    var at := NamelessAfter(ps, k);
    var ts := ToksAll(ps);
    if FileAt(ts, 0, map[], 0).errors == 0 {
      FileDots(ts, 0, map[], 0);
    }
  }

  lemma NamelessPrinted(g: Grammar, start: string) returns (k: nat)
    requires ClosedFrom(g, start) && start != "" && Met(g, start, "")
    ensures Listed(Reach(g, start), [g[start]], {})
    ensures var ps := Printed(Reach(g, start), [g[start]], {}); 0 < k < |ps| && ps[k].name == ""
  {
    var r := Reach(g, start);
    ReachIs(g, start);
    StartListed(r, start);
    MetReached(g, start, "");
    var ps := Printed(r, [r[start]], {});
    PrintedMet(r, start);
    k :| 0 <= k < |ps| && ps[k].name == "";
    assert ps[0] == r[start];
  }
}
