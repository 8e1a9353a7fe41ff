/** The language that the comment on ParseFile of internal/mdt/ebnf_parser.go defines, over tokens: the parser
    reports no error exactly on its texts, and returns what they say. */
module EbnfLanguage {
  import opened Wrappers
  import opened Ebnf
  import opened EbnfParser

  // ---------------------------------------------------------------- the language

  /** Term = name | token [ "…" token ] | Group | Option | Repetition .  The tokens from i to j are the term e;
      the bounds of a range are single characters. */
  ghost predicate Term(ts: seq<Tok>, i: nat, j: nat, e: Expr)
    decreases j, 0
  {
    && i < j <= |ts|
    && match e
       case Any => j == i + 1 && ts[i] == Ident("_")
       case Name(n) => j == i + 1 && ts[i] == Ident(n) && n != "_"
       case Token(t) => j == i + 1 && Literal(ts[i]) && ts[i].s == t
       case Range(lo, hi) =>
         && j == i + 3 && Bound(ts[i], lo) && ts[i + 1] == Ellipsis && Bound(ts[i + 2], hi)
       case Group(b) => Enclosed(ts, i, j, '(', ')') && Expression(ts, i + 1, j - 1, b)
       case Optional(b) => Enclosed(ts, i, j, '[', ']') && Expression(ts, i + 1, j - 1, b)
       case Repetition(b) => Enclosed(ts, i, j, '{', '}') && Expression(ts, i + 1, j - 1, b)
       case _ => false
  }

  predicate Bound(t: Tok, c: char) { Literal(t) && |t.s| <= 1 && c == Rune(t.s) }

  predicate Enclosed(ts: seq<Tok>, i: nat, j: nat, open: char, close: char)
    requires i < j <= |ts|
  {
    i + 1 < j && ts[i] == Punct(open) && ts[j - 1] == Punct(close)
  }

  /** Alternative = Term { Term } . */
  ghost predicate Terms(ts: seq<Tok>, i: nat, j: nat, es: seq<Expr>)
    decreases j, 1, |es|
  {
    es != [] && exists k :: i <= k <= j && TermThen(ts, i, k, j, es)
  }

  ghost predicate TermThen(ts: seq<Tok>, i: nat, k: nat, j: nat, es: seq<Expr>)
    requires es != [] && k <= j
    decreases j, 1, |es|, 0
  {
    Term(ts, i, k, es[0]) && if |es| == 1 then k == j else Terms(ts, k, j, es[1..])
  }

  /** One element stands for itself. */
  function InSequence(es: seq<Expr>): Expr { if |es| == 1 then es[0] else Sequence(es) }

  function InAlternative(es: seq<Expr>): Expr { if |es| == 1 then es[0] else Alternative(es) }

  ghost predicate Branch(ts: seq<Tok>, i: nat, j: nat, e: Expr)
    decreases j, 2
  {
    exists es :: Terms(ts, i, j, es) && e == InSequence(es)
  }

  /** Expression = Alternative { "|" Alternative } . */
  ghost predicate Branches(ts: seq<Tok>, i: nat, j: nat, es: seq<Expr>)
    decreases j, 3, |es|
  {
    es != [] && exists k :: i <= k <= j && BranchThen(ts, i, k, j, es)
  }

  ghost predicate BranchThen(ts: seq<Tok>, i: nat, k: nat, j: nat, es: seq<Expr>)
    requires es != [] && k <= j
    decreases j, 3, |es|, 0
  {
    Branch(ts, i, k, es[0])
      && if |es| == 1 then k == j else k < j && k < |ts| && ts[k] == Punct('|') && Branches(ts, k + 1, j, es[1..])
  }

  ghost predicate Expression(ts: seq<Tok>, i: nat, j: nat, e: Expr)
    decreases j, 4
  {
    exists es :: Branches(ts, i, j, es) && e == InAlternative(es)
  }

  /** Production = name [":" Metadata] "=" [ Expression ] "." .  Metadata is a string. */
  ghost predicate Rule(ts: seq<Tok>, i: nat, j: nat, p: Production)
  {
    && i < j <= |ts| && ts[i] == Ident(p.name)
    && exists k :: i < k < j && Heads(ts, i, k, p.metadata) && Ends(ts, k, j, p.expr)
  }

  /** The metadata, and the "=" at k. */
  predicate Heads(ts: seq<Tok>, i: nat, k: nat, m: string)
  {
    i < k < |ts| && ts[k] == Punct('=')
    && ((k == i + 1 && m == "") || (k == i + 3 && ts[i + 1] == Punct(':') && ts[i + 2] == Str(m)))
  }

  ghost predicate Ends(ts: seq<Tok>, k: nat, j: nat, x: Option<Expr>)
  {
    k + 1 < j <= |ts| && ts[j - 1] == Punct('.')
    && if x.None? then j == k + 2 else Expression(ts, k + 1, j - 1, x.value)
  }

  /** A text of productions. */
  ghost predicate File(ts: seq<Tok>, i: nat, ps: seq<Production>)
    decreases |ps|
  {
    if ps == [] then i == |ts|
    else exists j :: i < j <= |ts| && Rule(ts, i, j, ps[0]) && File(ts, j, ps[1..])
  }

  // ---------------------------------------------------------------- without an error: in the language

  lemma {:induction false} TermSays(ts: seq<Tok>, i: nat)
    requires i <= |ts| && TermAt(ts, i).value.Some? && TermAt(ts, i).errors == 0
    ensures Term(ts, i, TermAt(ts, i).pos, TermAt(ts, i).value.value)
    decreases |ts| - i, 0
  {
    match At(ts, i)
    case Ident(s) =>
    case Str(s) => LiteralSays(ts, i);
    case Chr(s) => LiteralSays(ts, i);
    case Punct(c) =>
      if c in {'(', '[', '{'} {
        ExpressionSays(ts, i + 1);
        hide ExpressionAt, Expression;
      }
    case _ =>
  }

  lemma LiteralSays(ts: seq<Tok>, i: nat)
    requires i < |ts| && Literal(ts[i]) && LiteralAt(ts, i).errors == 0
    ensures Term(ts, i, LiteralAt(ts, i).pos, LiteralAt(ts, i).value.value)
  {
  }

  lemma {:induction false} TermsSay(ts: seq<Tok>, i: nat)
    requires i <= |ts| && TermsAt(ts, i).errors == 0
    ensures TermsAt(ts, i).value != [] ==> Terms(ts, i, TermsAt(ts, i).pos, TermsAt(ts, i).value)
    decreases |ts| - i, 1
  {
    var x := TermAt(ts, i);
    if x.value.Some? {
      var r, more := TermsAt(ts, i), TermsAt(ts, x.pos);
      TermSays(ts, i);
      TermsSay(ts, x.pos);
      NoTermStays(ts, x.pos);
      hide TermAt, Term;
      assert r.value == [x.value.value] + more.value && r.value[1..] == more.value;
      assert TermThen(ts, i, x.pos, r.pos, r.value);
    }
  }

  lemma NoTermStays(ts: seq<Tok>, i: nat)
    requires i <= |ts|
    ensures TermsAt(ts, i).value == [] ==> TermsAt(ts, i).pos == i
  {
    hide TermAt;
  }

  lemma {:induction false} SequenceSays(ts: seq<Tok>, i: nat)
    requires i <= |ts| && SequenceAt(ts, i).errors == 0
    ensures Branch(ts, i, SequenceAt(ts, i).pos, SequenceAt(ts, i).value)
    decreases |ts| - i, 2
  {
    TermsSay(ts, i);
    hide TermsAt, Terms;
  }

  lemma {:induction false} AlternativesSay(ts: seq<Tok>, i: nat)
    requires i <= |ts| && AlternativesAt(ts, i).errors == 0
    ensures Branches(ts, i, AlternativesAt(ts, i).pos, AlternativesAt(ts, i).value)
    decreases |ts| - i, 3
  {
    var x, r := SequenceAt(ts, i), AlternativesAt(ts, i);
    SequenceSays(ts, i);
    if At(ts, x.pos) == Punct('|') {
      var more := AlternativesAt(ts, x.pos + 1);
      AlternativesSay(ts, x.pos + 1);
      hide SequenceAt, Branch;
      assert r.value == [x.value] + more.value && r.value[1..] == more.value;
    } else {
      hide SequenceAt, Branch;
    }
    assert BranchThen(ts, i, x.pos, r.pos, r.value);
  }

  lemma {:induction false} ExpressionSays(ts: seq<Tok>, i: nat)
    requires i <= |ts| && ExpressionAt(ts, i).errors == 0
    ensures Expression(ts, i, ExpressionAt(ts, i).pos, ExpressionAt(ts, i).value)
    decreases |ts| - i, 4
  {
    AlternativesSay(ts, i);
    hide AlternativesAt, Branches;
  }

  lemma ProductionSays(ts: seq<Tok>, i: nat)
    requires i < |ts| && ProductionAt(ts, i).errors == 0
    ensures Rule(ts, i, ProductionAt(ts, i).pos, ProductionAt(ts, i).value)
  {
    var i1 := i + 1;
    var m := At(ts, i1) == Punct(':');
    var i3 := if m then Adv(ts, Adv(ts, i1)) else i1;
    var i4 := Adv(ts, i3);
    if At(ts, i4) != Punct('.') {
      ExpressionSays(ts, i4);
    }
    hide ExpressionAt, Expression;
    var r := ProductionAt(ts, i);
    assert Heads(ts, i, i3, r.value.metadata);
    assert Ends(ts, i3, r.pos, r.value.expr);
  }

  // ---------------------------------------------------------------- in the language: without an error

  /** What can stand behind an expression: nothing that goes on with it. */
  predicate Stops(t: Tok)
  {
    t == EOF || (t.Punct? && t.c !in {'(', '[', '{', '|'})
  }

  /** The start of a term. */
  predicate Opens(t: Tok)
  {
    t.Ident? || Literal(t) || (t.Punct? && t.c in {'(', '[', '{'})
  }

  lemma TermOpens(ts: seq<Tok>, i: nat, j: nat, e: Expr)
    requires Term(ts, i, j, e)
    ensures i < j <= |ts| && Opens(ts[i])
  {
    hide Expression;
  }

  lemma {:induction false} TermParses(ts: seq<Tok>, i: nat, j: nat, e: Expr)
    requires Term(ts, i, j, e) && At(ts, j) != Ellipsis
    ensures i < j <= |ts| && TermAt(ts, i) == R(Some(e), j, 0)
    decreases j, 0
  {
    if e.Group? || e.Optional? || e.Repetition? {
      ExpressionParses(ts, i + 1, j - 1, e.body);
      hide ExpressionAt, Expression;
    }
  }

  lemma {:induction false} TermsParse(ts: seq<Tok>, i: nat, j: nat, es: seq<Expr>)
    requires Terms(ts, i, j, es) && At(ts, j) != Ellipsis && !Opens(At(ts, j))
    ensures i < j <= |ts| && TermsAt(ts, i) == R(es, j, 0)
    decreases j, 1, |es|
  {
    var k :| i <= k <= j && TermThen(ts, i, k, j, es);
    TermOpens(ts, i, k, es[0]);
    if |es| > 1 {
      TermsParse(ts, k, j, es[1..]);
      TermsOpen(ts, k, j, es[1..]);
      TermParses(ts, i, k, es[0]);
      hide Term, TermAt;
      assert [es[0]] + es[1..] == es;
    } else {
      TermParses(ts, i, k, es[0]);
      NothingOpens(ts, j);
      hide Term, TermAt;
      assert [es[0]] + [] == es;
    }
  }

  lemma NothingOpens(ts: seq<Tok>, j: nat)
    requires j <= |ts| && !Opens(At(ts, j))
    ensures TermAt(ts, j).value.None? && TermsAt(ts, j) == R([], j, 0)
  {
  }

  lemma {:induction false} TermsOpen(ts: seq<Tok>, i: nat, j: nat, es: seq<Expr>)
    requires Terms(ts, i, j, es)
    ensures i < j <= |ts| && Opens(ts[i])
    decreases |es|
  {
    hide Term;
    var k :| i <= k <= j && TermThen(ts, i, k, j, es);
    TermOpens(ts, i, k, es[0]);
    if |es| > 1 {
      TermsOpen(ts, k, j, es[1..]);
    }
  }

  lemma {:induction false} BranchParses(ts: seq<Tok>, i: nat, j: nat, e: Expr)
    requires Branch(ts, i, j, e) && At(ts, j) != Ellipsis && !Opens(At(ts, j))
    ensures i < j <= |ts| && SequenceAt(ts, i) == R(e, j, 0)
    decreases j, 2
  {
    var es :| Terms(ts, i, j, es) && e == InSequence(es);
    TermsParse(ts, i, j, es);
    hide Terms, TermsAt;
  }

  lemma {:induction false} BranchesParse(ts: seq<Tok>, i: nat, j: nat, es: seq<Expr>)
    requires Branches(ts, i, j, es) && Stops(At(ts, j))
    ensures i < j <= |ts| && AlternativesAt(ts, i) == R(es, j, 0)
    decreases j, 3, |es|
  {
    var k :| i <= k <= j && BranchThen(ts, i, k, j, es);
    BranchParses(ts, i, k, es[0]);
    if |es| > 1 {
      BranchesParse(ts, k + 1, j, es[1..]);
      hide Branch, SequenceAt;
      assert [es[0]] + es[1..] == es;
    } else {
      hide Branch, SequenceAt;
      assert [es[0]] == es;
    }
  }

  lemma {:induction false} ExpressionParses(ts: seq<Tok>, i: nat, j: nat, e: Expr)
    requires Expression(ts, i, j, e) && Stops(At(ts, j))
    ensures i < j <= |ts| && ExpressionAt(ts, i) == R(e, j, 0)
    decreases j, 4
  {
    var es :| Branches(ts, i, j, es) && e == InAlternative(es);
    BranchesParse(ts, i, j, es);
    hide Branches, AlternativesAt;
  }

  lemma RuleParses(ts: seq<Tok>, i: nat, j: nat, p: Production)
    requires Rule(ts, i, j, p)
    ensures i < j <= |ts| && ProductionAt(ts, i) == R(p, j, 0)
  {
    var k :| i < k < j && Heads(ts, i, k, p.metadata) && Ends(ts, k, j, p.expr);
    if p.expr.Some? {
      ExpressionParses(ts, k + 1, j - 1, p.expr.value);
      ExpressionOpens(ts, k + 1, j - 1, p.expr.value);
    }
    hide Expression, ExpressionAt;
  }

  lemma ExpressionOpens(ts: seq<Tok>, i: nat, j: nat, e: Expr)
    requires Expression(ts, i, j, e)
    ensures i < j <= |ts| && Opens(ts[i])
  {
    var es :| Branches(ts, i, j, es) && e == InAlternative(es);
    BranchesOpen(ts, i, j, es);
  }

  lemma BranchOpens(ts: seq<Tok>, i: nat, j: nat, e: Expr)
    requires Branch(ts, i, j, e)
    ensures i < j <= |ts| && Opens(ts[i])
  {
    var es :| Terms(ts, i, j, es) && e == InSequence(es);
    TermsOpen(ts, i, j, es);
    hide Terms;
  }

  lemma {:induction false} BranchesOpen(ts: seq<Tok>, i: nat, j: nat, es: seq<Expr>)
    requires Branches(ts, i, j, es)
    ensures i < j <= |ts| && Opens(ts[i])
    decreases |es|
  {
    var k :| i <= k <= j && BranchThen(ts, i, k, j, es);
    BranchOpens(ts, i, k, es[0]);
    hide Branch;
    if |es| > 1 {
      BranchesOpen(ts, k + 1, j, es[1..]);
    }
  }

  // ---------------------------------------------------------------- files

  ghost predicate NamesApart(ps: seq<Production>)
  {
    forall i, j :: 0 <= i < j < |ps| ==> ps[i].name != ps[j].name
  }

  /** The grammar g and these productions. */
  function With(g: Grammar, ps: seq<Production>): Grammar
    decreases |ps|
  {
    if ps == [] then g else With(g[ps[0].name := ps[0]], ps[1..])
  }

  ghost predicate Unknown(ps: seq<Production>, g: Grammar) { forall i :: 0 <= i < |ps| ==> ps[i].name !in g }

  lemma {:induction false} FileSays(ts: seq<Tok>, i: nat, g: Grammar) returns (ps: seq<Production>)
    requires i <= |ts| && FileAt(ts, i, g, 0).errors == 0
    ensures File(ts, i, ps) && NamesApart(ps) && Unknown(ps, g) && FileAt(ts, i, g, 0).value == With(g, ps)
    decreases |ts| - i
  {
    ps := [];
    if i < |ts| {
      var p := ProductionAt(ts, i);
      FileFirst(ts, i, g);
      ProductionSays(ts, i);
      var g' := g[p.value.name := p.value];
      var more := FileSays(ts, p.pos, g');
      hide ProductionAt, Rule;
      ps := [p.value] + more;
      assert ps[1..] == more;
      forall k | 0 <= k < |more|
        ensures more[k].name !in g && more[k].name != p.value.name
      {
        assert more[k].name !in g';
      }
    }
  }

  lemma {:induction false} ErrorsGrow(ts: seq<Tok>, i: nat, g: Grammar, errors: nat)
    requires i <= |ts|
    ensures FileAt(ts, i, g, errors).errors >= errors
    decreases |ts| - i
  {
    hide ProductionAt;
    if i < |ts| {
      var p := ProductionAt(ts, i);
      if p.value.name in g {
        ErrorsGrow(ts, p.pos, g, errors + p.errors + 1);
      } else {
        ErrorsGrow(ts, p.pos, g[p.value.name := p.value], errors + p.errors);
      }
    }
  }

  lemma FileFirst(ts: seq<Tok>, i: nat, g: Grammar)
    requires i < |ts| && FileAt(ts, i, g, 0).errors == 0
    ensures var p := ProductionAt(ts, i);
      p.errors == 0 && p.value.name !in g && FileAt(ts, i, g, 0) == FileAt(ts, p.pos, g[p.value.name := p.value], 0)
  {
    var p := ProductionAt(ts, i);
    hide ProductionAt;
    if p.value.name in g {
      ErrorsGrow(ts, p.pos, g, p.errors + 1);
    } else {
      ErrorsGrow(ts, p.pos, g[p.value.name := p.value], p.errors);
    }
  }

  lemma {:induction false} TextParses(ts: seq<Tok>, i: nat, ps: seq<Production>, g: Grammar)
    requires i <= |ts| && File(ts, i, ps) && NamesApart(ps) && Unknown(ps, g)
    ensures FileAt(ts, i, g, 0) == R(With(g, ps), |ts|, 0)
    decreases |ps|
  {
    if ps != [] {
      var j :| i < j <= |ts| && Rule(ts, i, j, ps[0]) && File(ts, j, ps[1..]);
      RuleParses(ts, i, j, ps[0]);
      var more, g' := ps[1..], g[ps[0].name := ps[0]];
      forall k | 0 <= k < |more|
        ensures more[k].name !in g'
      {
        assert more[k] == ps[k + 1];
      }
      assert forall a, b :: 0 <= a < b < |more| ==> more[a] == ps[a + 1] && more[b] == ps[b + 1];
      hide Rule, ProductionAt;
      TextParses(ts, j, more, g');
    }
  }

  /** The parser reports no error if and only if the tokens are a text of productions with different names;
      and then the grammar holds exactly these. */
  lemma ParsesExactly(ts: seq<Tok>, h: Grammar)
    ensures FileAt(ts, 0, map[], 0).errors == 0 && FileAt(ts, 0, map[], 0).value == h <==>
      exists ps :: File(ts, 0, ps) && NamesApart(ps) && h == With(map[], ps)
  {
    var r := FileAt(ts, 0, map[], 0);
    if r.errors == 0 {
      var ps := FileSays(ts, 0, map[]);
    }
    hide FileAt, File;
    forall ps | File(ts, 0, ps) && NamesApart(ps)
      ensures r.errors == 0 && r.value == With(map[], ps)
    {
      TextParses(ts, 0, ps, map[]);
    }
  }
}
