/** Grammar expressions of internal/mdt/ebnf.go, and their tokens as Grammar.PrettyPrint writes them.
    White space and quoting belong to the scanner, which is not part of this model. */
module Ebnf {
  import opened Wrappers

  datatype Expr =
    | Token(t: string) | Range(lo: char, hi: char) | Any | Name(n: string) | Bad
    | Group(body: Expr) | Optional(body: Expr) | Repetition(body: Expr)
    | Sequence(es: seq<Expr>) | Alternative(es: seq<Expr>)

  /** expr is nothing for a production without an expression. */
  datatype Production = Production(name: string, metadata: string, expr: Option<Expr>)

  type Grammar = map<string, Production>

  /** Str and Chr are literals in double and in single quotes, by value. */
  datatype Tok = Ident(s: string) | Str(s: string) | Chr(s: string) | Ellipsis | Punct(c: char) | EOF

  // ---------------------------------------------------------------- printing

  /** What the scanner finds where a name was written: nothing, if the name is empty. */
  function Word(n: string): seq<Tok> { if n == "" then [] else [Ident(n)] }

  function Toks(e: Expr): seq<Tok>
  {
    match e
    case Token(t) => [Str(t)]
    case Range(lo, hi) => [Chr([lo]), Ellipsis, Chr([hi])]
    case Any => [Ident("_")]
    case Name(n) => Word(n)
    case Bad => [Punct('<'), Ident("ERROR"), Punct('>')]
    case Group(b) => [Punct('(')] + Toks(b) + [Punct(')')]
    case Optional(b) => [Punct('[')] + Toks(b) + [Punct(']')]
    case Repetition(b) => [Punct('{')] + Toks(b) + [Punct('}')]
    case Sequence(es) => ToksSeq(es)
    case Alternative(es) => ToksAlt(es)
  }

  function ToksSeq(es: seq<Expr>): seq<Tok>
  {
    if es == [] then [] else Toks(es[0]) + ToksSeq(es[1..])
  }

  function ToksAlt(es: seq<Expr>): seq<Tok>
  {
    if es == [] then [] else if |es| == 1 then Toks(es[0]) else Toks(es[0]) + ([Punct('|')] + ToksAlt(es[1..]))
  }

  function MetaToks(m: string): seq<Tok> { if m == "" then [] else [Punct(':'), Str(m)] }

  function ProdToks(p: Production): seq<Tok>
    requires p.expr.Some?
  {
    Word(p.name) + MetaToks(p.metadata) + [Punct('=')] + Toks(p.expr.value) + [Punct('.')]
  }

  // ---------------------------------------------------------------- parser normal form

  /** A name that the scanner returns: letters, digits and underscores, no digit first. */
  predicate IsIdent(n: string)
  {
    n != "" && forall i :: 0 <= i < |n| ==> 'a' <= n[i] <= 'z' || 'A' <= n[i] <= 'Z' || n[i] == '_' || (i > 0 && '0' <= n[i] <= '9')
  }

  /** One term, as the parser builds it. */
  predicate IsTerm(e: Expr)
    decreases e, 0
  {
    match e
    case Token(_) => true
    case Range(_, _) => true
    case Any => true
    case Name(n) => n != "_" && IsIdent(n)
    case Group(b) => Normal(b)
    case Optional(b) => Normal(b)
    case Repetition(b) => Normal(b)
    case _ => false
  }

  /** A term, or a sequence of more than one. */
  predicate IsSequence(e: Expr)
    decreases e, 1
  {
    IsTerm(e) || (e.Sequence? && |e.es| >= 2 && forall i :: 0 <= i < |e.es| ==> IsTerm(e.es[i]))
  }

  /** What parseExpression can return without an error. */
  predicate Normal(e: Expr)
    decreases e, 2
  {
    IsSequence(e) || (e.Alternative? && |e.es| >= 2 && forall i :: 0 <= i < |e.es| ==> IsSequence(e.es[i]))
  }

  /** A sequence of one term, as CompilePattern builds it; it is written as the term. */
  predicate Lone(e: Expr) { e.Sequence? && |e.es| == 1 && IsTerm(e.es[0]) }

  function Trim(e: Expr): Expr { if Lone(e) then e.es[0] else e }

  /** The production that the parser makes of a printed one. */
  function Trimmed(p: Production): Production
  {
    if p.expr.Some? then p.(expr := Some(Trim(p.expr.value))) else p
  }

  lemma TrimSame(e: Expr)
    ensures Toks(Trim(e)) == Toks(e)
    ensures Normal(e) ==> Trim(e) == e
    ensures Normal(e) || Lone(e) ==> Normal(Trim(e))
  {
    if Lone(e) {
      var rest := e.es[1..];
      assert ToksSeq(rest) == [];
      assert ToksSeq(e.es) == Toks(e.es[0]) + [];
      assert !IsSequence(e);
      assert !Normal(e);
    }
  }

  // ---------------------------------------------------------------- one production

  /** root:"m" = "GET" a | ( 'x' … 'z' ) { _ } | [ b ] . */
  lemma TokensAre()
    ensures
      var e := Alternative([
        Sequence([Token("GET"), Name("a")]),
        Sequence([Group(Range('x', 'z')), Repetition(Any)]),
        Optional(Name("b"))]);
      ProdToks(Production("root", "m", Some(e))) ==
        [Ident("root"), Punct(':'), Str("m"), Punct('='), Str("GET"), Ident("a"), Punct('|'),
         Punct('('), Chr("x"), Ellipsis, Chr("z"), Punct(')'), Punct('{'), Ident("_"), Punct('}'), Punct('|'),
         Punct('['), Ident("b"), Punct(']'), Punct('.')]
  {
    var a, b, c := Sequence([Token("GET"), Name("a")]), Sequence([Group(Range('x', 'z')), Repetition(Any)]), Optional(Name("b"));
    TwoToks(Token("GET"), Name("a"));
    TwoToks(Group(Range('x', 'z')), Repetition(Any));
    ThreeToks(a, b, c);
    assert Toks(Group(Range('x', 'z'))) == [Punct('('), Chr("x"), Ellipsis, Chr("z"), Punct(')')];
    assert Toks(Repetition(Any)) == [Punct('{'), Ident("_"), Punct('}')];
    assert Toks(c) == [Punct('['), Ident("b"), Punct(']')];
    assert Toks(Token("GET")) == [Str("GET")] && Toks(Name("a")) == [Ident("a")];
    hide Toks;
    assert Toks(a) == [Str("GET"), Ident("a")];
    assert Toks(b) == [Punct('('), Chr("x"), Ellipsis, Chr("z"), Punct(')'), Punct('{'), Ident("_"), Punct('}')];
  }

  lemma TwoToks(a: Expr, b: Expr)
    ensures Toks(Sequence([a, b])) == Toks(a) + Toks(b)
  {
    assert [a, b][1..] == [b] && [b][1..] == [];
    assert ToksSeq([]) == [] && ToksSeq([b]) == Toks(b) + ToksSeq([]);
    assert ToksSeq([a, b]) == Toks(a) + ToksSeq([b]);
  }

  lemma ThreeToks(a: Expr, b: Expr, c: Expr)
    ensures Toks(Alternative([a, b, c])) == Toks(a) + ([Punct('|')] + (Toks(b) + ([Punct('|')] + Toks(c))))
  {
    assert [a, b, c][1..] == [b, c] && [b, c][1..] == [c];
    assert ToksAlt([c]) == Toks(c);
    assert ToksAlt([b, c]) == Toks(b) + ([Punct('|')] + ToksAlt([c]));
    assert ToksAlt([a, b, c]) == Toks(a) + ([Punct('|')] + ToksAlt([b, c]));
  }
}
