/** Parsing what Grammar.PrettyPrint prints (internal/mdt/pprint.go and ebnf_parser.go). */
module EbnfRound {
  import opened Wrappers
  import opened Ebnf
  import opened EbnfParser

  // ---------------------------------------------------------------- where expressions stop

  predicate StartsTerm(t: Tok)
  {
    t.Ident? || Literal(t) || t == Punct('(') || t == Punct('[') || t == Punct('{')
  }

  /** What may follow a term. */
  predicate AfterTerm(t: Tok) { t != Ellipsis }

  /** What may follow a sequence. */
  predicate AfterSequence(t: Tok) { AfterTerm(t) && !StartsTerm(t) }

  /** What may follow an expression. */
  predicate AfterExpression(t: Tok) { AfterSequence(t) && t != Punct('|') }

  function First(rest: seq<Tok>): Tok { if rest == [] then EOF else rest[0] }

  /** The tokens from i on are a, and then rest. */
  ghost predicate Stands(ts: seq<Tok>, i: nat, a: seq<Tok>, rest: seq<Tok>)
  {
    i <= |ts| && ts[i..] == a + rest
  }

  lemma StandsPast(ts: seq<Tok>, i: nat, a: seq<Tok>, rest: seq<Tok>)
    requires Stands(ts, i, a, rest)
    ensures i + |a| <= |ts| && ts[i + |a|..] == rest && At(ts, i + |a|) == First(rest)
    ensures forall k :: 0 <= k < |a| ==> ts[i + k] == a[k]
  {
    assert ts[i + |a|..] == ts[i..][|a|..];
    forall k | 0 <= k < |a|
      ensures ts[i + k] == a[k]
    {
      assert ts[i..][k] == ts[i + k];
    }
    assert rest != [] ==> ts[i + |a|..][0] == ts[i + |a|];
  }

  lemma StandsSplit(ts: seq<Tok>, i: nat, a: seq<Tok>, b: seq<Tok>, rest: seq<Tok>)
    requires Stands(ts, i, a + b, rest)
    ensures Stands(ts, i, a, b + rest) && Stands(ts, i + |a|, b, rest)
  {
    assert (a + b) + rest == a + (b + rest);
    StandsPast(ts, i, a, b + rest);
  }

  // ---------------------------------------------------------------- expressions

  /** The tokens of a term start with one that starts a term. */
  lemma {:induction false} TermStarts(e: Expr)
    requires IsTerm(e)
    ensures Toks(e) != [] && StartsTerm(Toks(e)[0])
  {
  }

  lemma {:induction false} SequenceStarts(e: Expr)
    requires IsSequence(e)
    ensures Toks(e) != [] && StartsTerm(Toks(e)[0])
  {
    if IsTerm(e) {
      TermStarts(e);
    } else {
      assert IsTerm(e.es[0]);
      TermStarts(e.es[0]);
    }
  }

  /** A bracketed expression. */
  lemma {:induction false} ParsesBracket(b: Expr, open: char, close: char, ts: seq<Tok>, i: nat, rest: seq<Tok>)
    requires Normal(b) && Stands(ts, i, [Punct(open)] + Toks(b) + [Punct(close)], rest)
    requires close == ')' || close == ']' || close == '}'
    ensures i + 1 <= |ts| && At(ts, i) == Punct(open)
    ensures ExpressionAt(ts, i + 1) == R(b, i + 1 + |Toks(b)|, 0)
    ensures At(ts, i + 1 + |Toks(b)|) == Punct(close) && i + 1 + |Toks(b)| < |ts|
    decreases b, 4
  {
    hide Toks, ExpressionAt, Normal, Stands;
    assert AfterExpression(Punct(close));
    assert [Punct(open)] + Toks(b) + [Punct(close)] == [Punct(open)] + (Toks(b) + [Punct(close)]);
    StandsSplit(ts, i, [Punct(open)], Toks(b) + [Punct(close)], rest);
    StandsSplit(ts, i + 1, Toks(b), [Punct(close)], rest);
    StandsPast(ts, i, [Punct(open)], Toks(b) + [Punct(close)] + rest);
    StandsPast(ts, i + 1 + |Toks(b)|, [Punct(close)], rest);
    assert ts[i + 0] == Punct(open) && ts[i + 1 + |Toks(b)| + 0] == Punct(close);
    ParsesExpression(b, ts, i + 1, [Punct(close)] + rest);
  }

  lemma {:induction false} ParsesTerm(e: Expr, ts: seq<Tok>, i: nat, rest: seq<Tok>)
    requires IsTerm(e) && Stands(ts, i, Toks(e), rest) && AfterTerm(First(rest))
    ensures TermAt(ts, i) == R(Some(e), i + |Toks(e)|, 0)
    decreases e, 0
  {
    StandsPast(ts, i, Toks(e), rest);
    match e
    case Group(b) => ParsesBracket(b, '(', ')', ts, i, rest);
    case Optional(b) => ParsesBracket(b, '[', ']', ts, i, rest);
    case Repetition(b) => ParsesBracket(b, '{', '}', ts, i, rest);
    case Range(lo, hi) =>
      assert ts[i + 0] == Chr([lo]) && ts[i + 1] == Ellipsis && ts[i + 2] == Chr([hi]);
    case Token(_) => assert ts[i + 0] == Toks(e)[0];
    case Any => assert ts[i + 0] == Toks(e)[0];
    case Name(_) => assert ts[i + 0] == Toks(e)[0];
    case _ =>
  }

  ghost predicate AllTerms(es: seq<Expr>) { forall i :: 0 <= i < |es| ==> IsTerm(es[i]) }

  lemma {:induction false} ParsesTerms(es: seq<Expr>, ts: seq<Tok>, i: nat, rest: seq<Tok>)
    requires AllTerms(es) && Stands(ts, i, ToksSeq(es), rest) && AfterSequence(First(rest))
    ensures TermsAt(ts, i) == R(es, i + |ToksSeq(es)|, 0)
    decreases es, 1
  {
    hide *;
    ListParts(es);
    if es == [] {
      StandsPast(ts, i, [], rest);
      NoTerm(ts, i);
    } else {
      var e, tail := es[0], es[1..];
      StandsSplit(ts, i, Toks(e), ToksSeq(tail), rest);
      NextTerm(tail, rest);
      StandsPast(ts, i, Toks(e), ToksSeq(tail) + rest);
      ParsesTerm(e, ts, i, ToksSeq(tail) + rest);
      ParsesTerms(tail, ts, i + |Toks(e)|, rest);
      TermsStep(ts, i, e, i + |Toks(e)|, tail, i + |ToksSeq(es)|);
      assert [e] + tail == es;
    }
  }

  /** Lists of expressions, and their tokens, part by part. */
  lemma ListParts(es: seq<Expr>)
    ensures es == [] ==> ToksSeq(es) == []
    ensures es != [] ==> ToksSeq(es) == Toks(es[0]) + ToksSeq(es[1..])
    ensures es != [] && AllTerms(es) ==> IsTerm(es[0]) && AllTerms(es[1..])
    ensures es != [] && AllSequences(es) ==> IsSequence(es[0]) && AllSequences(es[1..])
    ensures |es| == 1 ==> ToksAlt(es) == Toks(es[0])
    ensures |es| > 1 ==> ToksAlt(es) == Toks(es[0]) + ([Punct('|')] + ToksAlt(es[1..]))
  {
  }

  lemma TermsStep(ts: seq<Tok>, i: nat, e: Expr, j: nat, more: seq<Expr>, k: nat)
    requires i <= |ts| && j <= |ts| && TermAt(ts, i) == R(Some(e), j, 0) && TermsAt(ts, j) == R(more, k, 0)
    ensures TermsAt(ts, i) == R([e] + more, k, 0)
  {
    hide TermAt;
  }

  lemma AlternativesStep(ts: seq<Tok>, i: nat, e: Expr, j: nat)
    requires i <= |ts| && j <= |ts| && SequenceAt(ts, i) == R(e, j, 0)
    ensures At(ts, j) != Punct('|') ==> AlternativesAt(ts, i) == R([e], j, 0)
    ensures At(ts, j) == Punct('|') ==> j + 1 <= |ts|
    ensures At(ts, j) == Punct('|') ==>
      var more := AlternativesAt(ts, j + 1);
      AlternativesAt(ts, i) == R([e] + more.value, more.pos, more.errors)
  {
    hide SequenceAt;
  }

  lemma NextTerm(es: seq<Expr>, rest: seq<Tok>)
    requires AllTerms(es) && AfterSequence(First(rest))
    ensures AfterTerm(First(ToksSeq(es) + rest))
  {
    if es != [] {
      assert IsTerm(es[0]);
      TermStarts(es[0]);
    }
  }

  lemma {:induction false} ParsesSequence(e: Expr, ts: seq<Tok>, i: nat, rest: seq<Tok>)
    requires IsSequence(e) && Stands(ts, i, Toks(e), rest) && AfterSequence(First(rest))
    ensures SequenceAt(ts, i) == R(e, i + |Toks(e)|, 0)
    decreases e, 2
  {
    hide *;
    SequenceKinds(e);
    if IsTerm(e) {
      SequenceTokens(First(rest));
      ParsesTerm(e, ts, i, rest);
      StandsPast(ts, i, Toks(e), rest);
      NoTerm(ts, i + |Toks(e)|);
      TermsStep(ts, i, e, i + |Toks(e)|, [], i + |Toks(e)|);
      assert [e] + [] == [e];
      SequenceStep(ts, i, [e], i + |Toks(e)|);
    } else {
      ParsesTerms(e.es, ts, i, rest);
      SequenceStep(ts, i, e.es, i + |ToksSeq(e.es)|);
    }
  }

  lemma SequenceKinds(e: Expr)
    requires IsSequence(e)
    ensures !IsTerm(e) ==> e.Sequence? && |e.es| >= 2 && AllTerms(e.es) && Toks(e) == ToksSeq(e.es)
  {
  }

  lemma SequenceTokens(t: Tok)
    requires AfterSequence(t)
    ensures AfterTerm(t)
  {
  }

  lemma SequenceStep(ts: seq<Tok>, i: nat, es: seq<Expr>, j: nat)
    requires i <= |ts| && es != [] && TermsAt(ts, i) == R(es, j, 0)
    ensures SequenceAt(ts, i) == R(if |es| == 1 then es[0] else Sequence(es), j, 0)
  {
    hide TermsAt;
  }

  lemma NoTerm(ts: seq<Tok>, i: nat)
    requires i <= |ts| && AfterSequence(At(ts, i))
    ensures TermsAt(ts, i) == R([], i, 0)
  {
  }

  ghost predicate AllSequences(es: seq<Expr>) { forall i :: 0 <= i < |es| ==> IsSequence(es[i]) }

  lemma {:induction false} ParsesAlternatives(es: seq<Expr>, ts: seq<Tok>, i: nat, rest: seq<Tok>)
    requires es != [] && AllSequences(es) && Stands(ts, i, ToksAlt(es), rest) && AfterExpression(First(rest))
    ensures AlternativesAt(ts, i) == R(es, i + |ToksAlt(es)|, 0)
    decreases es, 3
  {
    hide *;
    ListParts(es);
    Bar(rest);
    var e, tail := es[0], es[1..];
    if |es| == 1 {
      StandsPast(ts, i, Toks(e), rest);
      ParsesSequence(e, ts, i, rest);
      AlternativesStep(ts, i, e, i + |Toks(e)|);
      assert es == [e];
    } else {
      var more := [Punct('|')] + ToksAlt(tail);
      StandsSplit(ts, i, Toks(e), more, rest);
      StandsSplit(ts, i + |Toks(e)|, [Punct('|')], ToksAlt(tail), rest);
      StandsPast(ts, i, Toks(e), more + rest);
      BarFirst(ToksAlt(tail), rest);
      ParsesSequence(e, ts, i, more + rest);
      ParsesAlternatives(tail, ts, i + |Toks(e)| + 1, rest);
      AlternativesStep(ts, i, e, i + |Toks(e)|);
      assert [e] + tail == es;
    }
  }

  lemma Bar(rest: seq<Tok>)
    ensures AfterSequence(Punct('|'))
    ensures AfterExpression(First(rest)) ==> AfterSequence(First(rest)) && First(rest) != Punct('|')
  {
  }

  lemma BarFirst(more: seq<Tok>, rest: seq<Tok>)
    ensures First([Punct('|')] + more + rest) == Punct('|')
  {
  }

  /** Parsing the tokens of an expression in normal form gives the expression, and no error. */
  lemma {:induction false} ParsesExpression(e: Expr, ts: seq<Tok>, i: nat, rest: seq<Tok>)
    requires Normal(e) && Stands(ts, i, Toks(e), rest) && AfterExpression(First(rest))
    ensures ExpressionAt(ts, i) == R(e, i + |Toks(e)|, 0)
    decreases e, 3
  {
    if IsSequence(e) {
      ParsesSequence(e, ts, i, rest);
      StandsPast(ts, i, Toks(e), rest);
    } else {
      ParsesAlternatives(e.es, ts, i, rest);
    }
  }

  // ---------------------------------------------------------------- productions

  /** In parser normal form, but that one term may stand in a sequence of its own. */
  ghost predicate Printable(p: Production)
  {
    p.expr.Some? && IsIdent(p.name) && (Normal(p.expr.value) || Lone(p.expr.value))
  }

  lemma {:induction false} NormalStarts(e: Expr)
    requires Normal(e)
    ensures Toks(e) != [] && StartsTerm(Toks(e)[0])
  {
    if IsSequence(e) {
      SequenceStarts(e);
    } else {
      assert IsSequence(e.es[0]);
      SequenceStarts(e.es[0]);
    }
  }

  /** Where the parts of a printed production stand. */
  lemma ProductionParts(p: Production, ts: seq<Tok>, i: nat, rest: seq<Tok>)
    requires p.expr.Some? && p.name != "" && Stands(ts, i, ProdToks(p), rest)
    ensures var m := if p.metadata == "" then 0 else 2; var k := i + 1 + m; var j := k + 1 + |Toks(p.expr.value)|;
      && j + 1 == i + |ProdToks(p)| <= |ts| && ts[i] == Ident(p.name)
      && (m == 2 ==> ts[i + 1] == Punct(':') && ts[i + 2] == Str(p.metadata))
      && ts[k] == Punct('=') && ts[j] == Punct('.') && Stands(ts, k + 1, Toks(p.expr.value), [Punct('.')] + rest)
  {
    var e := Toks(p.expr.value);
    hide Toks;
    var head := [Ident(p.name)] + MetaToks(p.metadata) + [Punct('=')];
    hide Stands;
    assert ProdToks(p) == head + (e + [Punct('.')]);
    StandsSplit(ts, i, head, e + [Punct('.')], rest);
    StandsPast(ts, i, head, e + [Punct('.')] + rest);
    StandsSplit(ts, i + |head|, e, [Punct('.')], rest);
    StandsPast(ts, i + |head| + |e|, [Punct('.')], rest);
    assert ts[i + 0] == head[0] && ts[i + (|head| - 1)] == head[|head| - 1] && ts[i + |head| + |e| + 0] == Punct('.');
    assert p.metadata != "" ==> ts[i + 1] == head[1] && ts[i + 2] == head[2];
  }

  lemma ParsesProduction(p: Production, ts: seq<Tok>, i: nat, rest: seq<Tok>)
    requires Printable(p) && Stands(ts, i, ProdToks(p), rest)
    ensures i < |ts| && ProductionAt(ts, i) == R(Trimmed(p), i + |ProdToks(p)|, 0)
  {
    ProductionParts(p, ts, i, rest);
    TrimSame(p.expr.value);
    var e := Trim(p.expr.value);
    var k := i + 1 + if p.metadata == "" then 0 else 2;
    NormalStarts(e);
    StandsPast(ts, k + 1, Toks(e), [Punct('.')] + rest);
    assert ts[k + 1 + 0] == Toks(e)[0];
    ParsesExpression(e, ts, k + 1, [Punct('.')] + rest);
    var q := Trimmed(p);
    assert q.expr == Some(e) && q.name == p.name && q.metadata == p.metadata;
    hide *;
    PartsParse(q, ts, i, k);
  }

  lemma PartsParse(p: Production, ts: seq<Tok>, i: nat, k: nat)
    requires p.expr.Some? && k == i + 1 + (if p.metadata == "" then 0 else 2) && k + 1 + |Toks(p.expr.value)| < |ts|
    requires ts[i] == Ident(p.name) && ts[k] == Punct('=') && ts[k + 1 + |Toks(p.expr.value)|] == Punct('.')
    requires p.metadata != "" ==> ts[i + 1] == Punct(':') && ts[i + 2] == Str(p.metadata)
    requires ts[k + 1] != Punct('.') && ExpressionAt(ts, k + 1) == R(p.expr.value, k + 1 + |Toks(p.expr.value)|, 0)
    ensures ProductionAt(ts, i) == R(p, k + 2 + |Toks(p.expr.value)|, 0)
  {
    hide ExpressionAt, Toks;
  }

  // ---------------------------------------------------------------- files

  ghost predicate AllPrintable(ps: seq<Production>) { forall i :: 0 <= i < |ps| ==> Printable(ps[i]) }

  ghost predicate AllWritten(ps: seq<Production>) { forall i :: 0 <= i < |ps| ==> ps[i].expr.Some? }

  ghost function ToksAll(ps: seq<Production>): seq<Tok>
    requires AllWritten(ps)
  {
    if ps == [] then [] else ProdToks(ps[0]) + ToksAll(ps[1..])
  }

  /** The first production of each name, and how many came again. */
  function AddAll(g: Grammar, ps: seq<Production>): (Grammar, nat)
    decreases ps
  {
    if ps == [] then (g, 0)
    else if ps[0].name in g then
      var r := AddAll(g, ps[1..]);
      (r.0, r.1 + 1)
    else AddAll(g[ps[0].name := Trimmed(ps[0])], ps[1..])
  }

  lemma {:induction false} ParsesFile(ps: seq<Production>, ts: seq<Tok>, i: nat, g: Grammar, errors: nat)
    requires AllPrintable(ps) && AllWritten(ps)
    requires Stands(ts, i, ToksAll(ps), [])
    ensures FileAt(ts, i, g, errors) == R(AddAll(g, ps).0, |ts|, errors + AddAll(g, ps).1)
    decreases ps
  {
    hide *;
    FileParts(ps);
    if ps == [] {
      StandsPast(ts, i, [], []);
      assert ts[i..] == [];
      FileEnd(ts, i, g, errors);
    } else {
      var p, tail := ps[0], ps[1..];
      StandsSplit(ts, i, ProdToks(p), ToksAll(tail), []);
      StandsPast(ts, i, ProdToks(p), ToksAll(tail) + []);
      ParsesProduction(p, ts, i, ToksAll(tail) + []);
      FileStep(ts, i, g, errors, p, i + |ProdToks(p)|);
      AddStep(g, ps);
      if p.name in g {
        ParsesFile(tail, ts, i + |ProdToks(p)|, g, errors + 1);
      } else {
        ParsesFile(tail, ts, i + |ProdToks(p)|, g[p.name := Trimmed(p)], errors);
      }
    }
  }

  lemma FileParts(ps: seq<Production>)
    requires AllWritten(ps)
    ensures ps == [] ==> ToksAll(ps) == []
    ensures ps != [] ==> ps[0].expr.Some? && AllWritten(ps[1..]) && ToksAll(ps) == ProdToks(ps[0]) + ToksAll(ps[1..])
    ensures AllPrintable(ps) && ps != [] ==> Printable(ps[0]) && AllPrintable(ps[1..])
  {
  }

  lemma FileEnd(ts: seq<Tok>, i: nat, g: Grammar, errors: nat)
    requires i == |ts|
    ensures FileAt(ts, i, g, errors) == R(g, i, errors) && AddAll(g, []) == (g, 0)
  {
  }

  lemma FileStep(ts: seq<Tok>, i: nat, g: Grammar, errors: nat, p: Production, j: nat)
    requires i < |ts| && j <= |ts| && ProductionAt(ts, i) == R(Trimmed(p), j, 0)
    ensures FileAt(ts, i, g, errors)
      == if p.name in g then FileAt(ts, j, g, errors + 1) else FileAt(ts, j, g[p.name := Trimmed(p)], errors)
  {
    hide ProductionAt;
  }

  lemma AddStep(g: Grammar, ps: seq<Production>)
    requires ps != []
    ensures AddAll(g, ps) == if ps[0].name in g then (AddAll(g, ps[1..]).0, AddAll(g, ps[1..]).1 + 1) else AddAll(g[ps[0].name := Trimmed(ps[0])], ps[1..])
  {
  }
}
