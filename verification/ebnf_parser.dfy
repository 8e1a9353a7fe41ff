/** The recursive-descent parser of internal/mdt/ebnf_parser.go, on tokens. */
module EbnfParser {
  import opened Wrappers
  import opened Ebnf

  /** What was parsed, the next token, and how many errors were reported. */
  datatype R<T> = R(value: T, pos: nat, errors: nat)

  function At(ts: seq<Tok>, i: nat): Tok { if i < |ts| then ts[i] else EOF }

  function Adv(ts: seq<Tok>, i: nat): nat { if i < |ts| then i + 1 else i }

  function Miss(ts: seq<Tok>, i: nat, t: Tok): nat { if At(ts, i) == t then 0 else 1 }

  /** The text of a token; of a literal, its value. */
  function Text(t: Tok): string
  {
    match t
    case Ident(s) => s
    case Str(s) => s
    case Chr(s) => s
    case Ellipsis => [0x2026 as char]
    case Punct(c) => [c]
    case EOF => ""
  }

  predicate Literal(t: Tok) { t.Str? || t.Chr? }

  function TokenAt(ts: seq<Tok>, i: nat): R<string>
  {
    if Literal(At(ts, i)) then R(At(ts, i).s, Adv(ts, i), 0) else R("", Adv(ts, i), 1)
  }

  /** assertRune; an empty literal gives the replacement character. */
  function Rune(s: string): char { if s == "" then 0xFFFD as char else s[0] }

  function NotOne(s: string): nat { if |s| > 1 then 1 else 0 }

  function TermAt(ts: seq<Tok>, i: nat): (r: R<Option<Expr>>)
    requires i <= |ts|
    ensures i <= r.pos <= |ts| && (r.value.Some? ==> r.pos > i) && (r.value.None? ==> r.pos == i && r.errors == 0)
    decreases |ts| - i, 0
  {
    match At(ts, i)
    case Ident(s) => R(Some(if s == "_" then Any else Name(s)), i + 1, 0)
    case Str(s) => LiteralAt(ts, i)
    case Chr(s) => LiteralAt(ts, i)
    case Punct(c) =>
      if c == '(' then
        var b := ExpressionAt(ts, i + 1);
        R(Some(Group(b.value)), Adv(ts, b.pos), b.errors + Miss(ts, b.pos, Punct(')')))
      else if c == '[' then
        var b := ExpressionAt(ts, i + 1);
        R(Some(Optional(b.value)), Adv(ts, b.pos), b.errors + Miss(ts, b.pos, Punct(']')))
      else if c == '{' then
        var b := ExpressionAt(ts, i + 1);
        R(Some(Repetition(b.value)), Adv(ts, b.pos), b.errors + Miss(ts, b.pos, Punct('}')))
      else R(None, i, 0)
    case _ => R(None, i, 0)
  }

  function LiteralAt(ts: seq<Tok>, i: nat): (r: R<Option<Expr>>)
    requires i < |ts| && Literal(ts[i])
    ensures i < r.pos <= |ts| && r.value.Some?
  {
    var t := TokenAt(ts, i);
    if At(ts, t.pos) == Ellipsis then
      var u := TokenAt(ts, Adv(ts, t.pos));
      R(Some(Range(Rune(t.value), Rune(u.value))), u.pos, NotOne(t.value) + u.errors + NotOne(u.value))
    else R(Some(Token(t.value)), t.pos, 0)
  }

  function TermsAt(ts: seq<Tok>, i: nat): (r: R<seq<Expr>>)
    requires i <= |ts|
    ensures i <= r.pos <= |ts|
    decreases |ts| - i, 1
  {
    var x := TermAt(ts, i);
    if x.value.None? then R([], i, 0)
    else
      var more := TermsAt(ts, x.pos);
      R([x.value.value] + more.value, more.pos, x.errors + more.errors)
  }

  function SequenceAt(ts: seq<Tok>, i: nat): (r: R<Expr>)
    requires i <= |ts|
    ensures i <= r.pos <= |ts|
    decreases |ts| - i, 2
  {
    var l := TermsAt(ts, i);
    if l.value == [] then R(Bad, l.pos, l.errors + 1)
    else if |l.value| == 1 then R(l.value[0], l.pos, l.errors)
    else R(Sequence(l.value), l.pos, l.errors)
  }

  function AlternativesAt(ts: seq<Tok>, i: nat): (r: R<seq<Expr>>)
    requires i <= |ts|
    ensures i <= r.pos <= |ts| && r.value != []
    decreases |ts| - i, 3
  {
    var x := SequenceAt(ts, i);
    if At(ts, x.pos) != Punct('|') then R([x.value], x.pos, x.errors)
    else
      var more := AlternativesAt(ts, x.pos + 1);
      R([x.value] + more.value, more.pos, x.errors + more.errors)
  }

  function ExpressionAt(ts: seq<Tok>, i: nat): (r: R<Expr>)
    requires i <= |ts|
    ensures i <= r.pos <= |ts|
    decreases |ts| - i, 4
  {
    var l := AlternativesAt(ts, i);
    if |l.value| == 1 then R(l.value[0], l.pos, l.errors) else R(Alternative(l.value), l.pos, l.errors)
  }

  function ProductionAt(ts: seq<Tok>, i: nat): (r: R<Production>)
    requires i < |ts|
    ensures i < r.pos <= |ts|
  {
    var name := Text(ts[i]);
    var e0 := if ts[i].Ident? then 0 else 1;
    var i1 := i + 1;
    var m := At(ts, i1) == Punct(':');
    var i2 := if m then Adv(ts, i1) else i1;
    var meta := if m && Literal(At(ts, i2)) then At(ts, i2).s else "";
    var e2 := if m && !At(ts, i2).Str? then 1 else 0;
    var i3 := if m then Adv(ts, i2) else i2;
    var i4 := Adv(ts, i3);
    var none := At(ts, i4) == Punct('.');
    var x := if none then R(Bad, i4, 0) else ExpressionAt(ts, i4);
    R(Production(name, meta, if none then None else Some(x.value)), Adv(ts, x.pos),
      e0 + e2 + Miss(ts, i3, Punct('=')) + x.errors + Miss(ts, x.pos, Punct('.')))
  }

  function FileAt(ts: seq<Tok>, i: nat, g: Grammar, errors: nat): (r: R<Grammar>)
    requires i <= |ts|
    decreases |ts| - i
  {
    if i == |ts| then R(g, i, errors)
    else
      var p := ProductionAt(ts, i);
      var name := p.value.name;
      if name in g then FileAt(ts, p.pos, g, errors + p.errors + 1)
      else FileAt(ts, p.pos, g[name := p.value], errors + p.errors)
  }

  // ---------------------------------------------------------------- the parser object

  class Parser {
    const ts: seq<Tok>
    var pos: nat
    var tok: Tok
    var errors: nat

    ghost predicate Valid()
      reads this
    {
      pos <= |ts| && tok == At(ts, pos)
    }

    constructor (tokens: seq<Tok>)
      ensures Valid() && ts == tokens && pos == 0 && errors == 0
    {
      ts := tokens;
      pos := 0;
      tok := if |tokens| > 0 then tokens[0] else EOF;
      errors := 0;
    }

    method Next()
      requires Valid()
      modifies this`pos, this`tok
      ensures Valid() && pos == Adv(ts, old(pos))
    {
      if pos < |ts| {
        pos := pos + 1;
      }
      tok := At(ts, pos);
    }

    method Error()
      modifies this`errors
      ensures errors == old(errors) + 1
    {
      errors := errors + 1;
    }

    method Expect(t: Tok)
      requires Valid()
      modifies this
      ensures Valid() && pos == Adv(ts, old(pos)) && errors == old(errors) + Miss(ts, old(pos), t)
    {
      if tok != t {
        Error();
      }
      Next();
    }

    method ParseToken() returns (value: string)
      requires Valid()
      modifies this
      ensures Valid() && errors >= old(errors) && R(value, pos, errors - old(errors)) == TokenAt(ts, old(pos))
    {
      value := "";
      if Literal(tok) {
        value := tok.s;
        Next();
      } else {
        Error();
        Next();
      }
    }

    method AssertRune(t: string) returns (c: char)
      modifies this`errors
      ensures c == Rune(t) && errors == old(errors) + NotOne(t)
    {
      if |t| > 1 {
        Error();
      }
      c := Rune(t);
    }

    method ParseTerm() returns (x: Option<Expr>)
      requires Valid()
      modifies this
      ensures Valid() && errors >= old(errors)
      ensures R(x, pos, errors - old(errors)) == TermAt(ts, old(pos))
      decreases |ts| - pos, 0
    {
      hide ExpressionAt;
      x := None;
      match tok
      case Ident(s) =>
        x := Some(if s == "_" then Any else Name(s));
        Next();
      case Str(_) => x := ParseLiteral();
      case Chr(_) => x := ParseLiteral();
      case Punct(c) =>
        if c == '(' {
          Next();
          var b := ParseExpression();
          x := Some(Group(b));
          Expect(Punct(')'));
        } else if c == '[' {
          Next();
          var b := ParseExpression();
          x := Some(Optional(b));
          Expect(Punct(']'));
        } else if c == '{' {
          Next();
          var b := ParseExpression();
          x := Some(Repetition(b));
          Expect(Punct('}'));
        }
      case _ =>
    }

    /** A literal, or the range that it starts. */
    method ParseLiteral() returns (x: Option<Expr>)
      requires Valid() && Literal(tok)
      modifies this
      ensures Valid() && errors >= old(errors)
      ensures R(x, pos, errors - old(errors)) == LiteralAt(ts, old(pos))
    {
      var t := ParseToken();
      if tok == Ellipsis {
        Next();
        var lo := AssertRune(t);
        var u := ParseToken();
        var hi := AssertRune(u);
        x := Some(Range(lo, hi));
      } else {
        x := Some(Token(t));
      }
    }

    method ParseSequence() returns (e: Expr)
      requires Valid()
      modifies this
      ensures Valid() && errors >= old(errors)
      ensures R(e, pos, errors - old(errors)) == SequenceAt(ts, old(pos))
      decreases |ts| - pos, 1
    {
      hide TermAt;
      ghost var start, errors0 := pos, errors;
      var list := [];
      var x := ParseTerm();
      ReadsStart(ts, start, errors0, x, pos, errors);
      while x.Some?
        invariant Valid() && errors >= errors0 && start <= pos
        invariant x.Some? ==> pos > start
        invariant Reads(ts, start, errors0, list, x, pos, errors)
        decreases |ts| - pos, if x.Some? then 1 else 0
      {
        ghost var list0, x0, pos0, errors1 := list, x, pos, errors;
        list := list + [x.value];
        x := ParseTerm();
        ReadsMore(ts, start, errors0, list0, x0, pos0, errors1, x, pos, errors);
      }
      if |list| == 0 {
        Error();
        return Bad;
      } else if |list| == 1 {
        return list[0];
      }
      return Sequence(list);
    }

    method ParseExpression() returns (e: Expr)
      requires Valid()
      modifies this
      ensures Valid() && errors >= old(errors)
      ensures R(e, pos, errors - old(errors)) == ExpressionAt(ts, old(pos))
      decreases |ts| - pos, 2
    {
      hide SequenceAt;
      ghost var start, errors0 := pos, errors;
      var list := [];
      var more := true;
      SplitsStart(ts, start, errors0);
      while more
        invariant Valid() && errors >= errors0 && start <= pos
        invariant Splits(ts, start, errors0, list, more, pos, errors)
        decreases |ts| - pos, if more then 1 else 0
      {
        ghost var list0, pos0, errors1 := list, pos, errors;
        var x := ParseSequence();
        list := list + [x];
        SplitsMore(ts, start, errors0, list0, pos0, errors1, x, pos, errors);
        if tok != Punct('|') {
          more := false;
        } else {
          Next();
        }
      }
      if |list| == 1 {
        return list[0];
      }
      return Alternative(list);
    }

    method ParseProduction() returns (p: Production)
      requires Valid() && pos < |ts|
      modifies this
      ensures Valid() && errors >= old(errors)
      ensures R(p, pos, errors - old(errors)) == ProductionAt(ts, old(pos))
    {
      assert Adv(ts, pos) == pos + 1 && tok == ts[pos];
      hide ExpressionAt, Adv, Miss, At, Literal, Text;
      var name := Text(tok);
      if !tok.Ident? {
        Error();
      }
      Next();
      var metadata := "";
      if tok == Punct(':') {
        Next();
        metadata := if Literal(tok) then tok.s else "";
        if !tok.Str? {
          Error();
        }
        Next();
      }
      Expect(Punct('='));
      var expr: Option<Expr> := None;
      if tok != Punct('.') {
        var e := ParseExpression();
        expr := Some(e);
      }
      Expect(Punct('.'));
      p := Production(name, metadata, expr);
    }

    /** ParseFile: productions up to the end; a name that was there already is an error. */
    method ParseFile() returns (g: Grammar)
      requires Valid() && pos == 0 && errors == 0 && EOF !in ts
      modifies this
      ensures R(g, pos, errors) == FileAt(ts, 0, map[], 0)
    {
      hide ProductionAt;
      g := map[];
      while tok != EOF
        invariant Valid() && FileAt(ts, pos, g, errors) == FileAt(ts, 0, map[], 0)
        decreases |ts| - pos
      {
        var p := ParseProduction();
        if p.name !in g {
          g := g[p.name := p];
        } else {
          Error();
        }
      }
    }
  }

  /** The terms read so far, with one more to add, and those that follow. */
  ghost predicate Reads(ts: seq<Tok>, start: nat, errors0: nat, list: seq<Expr>, x: Option<Expr>, pos: nat, errors: nat)
  {
    && start <= pos <= |ts| && errors0 <= errors
    && var all := TermsAt(ts, start);
       if x.None? then all == R(list, pos, errors - errors0)
       else
         var more := TermsAt(ts, pos);
         all == R(list + [x.value] + more.value, more.pos, errors - errors0 + more.errors)
  }

  /** The alternatives read so far, and those that follow. */
  ghost predicate Splits(ts: seq<Tok>, start: nat, errors0: nat, list: seq<Expr>, goes: bool, pos: nat, errors: nat)
  {
    && start <= pos <= |ts| && errors0 <= errors
    && var all := AlternativesAt(ts, start);
       if !goes then all == R(list, pos, errors - errors0)
       else
         var more := AlternativesAt(ts, pos);
         all == R(list + more.value, more.pos, errors - errors0 + more.errors)
  }

  lemma ReadsStart(ts: seq<Tok>, start: nat, errors0: nat, x: Option<Expr>, pos: nat, errors: nat)
    requires start <= |ts| && errors0 <= errors && R(x, pos, errors - errors0) == TermAt(ts, start)
    ensures Reads(ts, start, errors0, [], x, pos, errors)
  {
    hide TermAt;
    if x.Some? {
      assert [] + [x.value] + TermsAt(ts, pos).value == [x.value] + TermsAt(ts, pos).value;
    }
  }

  lemma ReadsMore(ts: seq<Tok>, start: nat, errors0: nat, list: seq<Expr>, x: Option<Expr>, pos: nat, errors: nat, y: Option<Expr>, pos': nat, errors': nat)
    requires Reads(ts, start, errors0, list, x, pos, errors) && x.Some? && errors <= errors'
    requires R(y, pos', errors' - errors) == TermAt(ts, pos)
    ensures Reads(ts, start, errors0, list + [x.value], y, pos', errors')
  {
    hide TermAt;
    if y.Some? {
      var more := TermsAt(ts, pos').value;
      assert list + [x.value] + ([y.value] + more) == list + [x.value] + [y.value] + more;
    } else {
      assert list + [x.value] + [] == list + [x.value];
    }
  }

  lemma SplitsStart(ts: seq<Tok>, start: nat, errors0: nat)
    requires start <= |ts|
    ensures Splits(ts, start, errors0, [], true, start, errors0)
  {
    var all := AlternativesAt(ts, start);
    assert [] + all.value == all.value;
  }

  lemma SplitsMore(ts: seq<Tok>, start: nat, errors0: nat, list: seq<Expr>, pos: nat, errors: nat, x: Expr, pos': nat, errors': nat)
    requires Splits(ts, start, errors0, list, true, pos, errors) && errors <= errors'
    requires R(x, pos', errors' - errors) == SequenceAt(ts, pos)
    ensures if At(ts, pos') == Punct('|') then Splits(ts, start, errors0, list + [x], true, Adv(ts, pos'), errors')
      else Splits(ts, start, errors0, list + [x], false, pos', errors')
  {
    hide SequenceAt;
    if At(ts, pos') == Punct('|') {
      var more := AlternativesAt(ts, pos' + 1).value;
      assert list + ([x] + more) == list + [x] + more;
    }
  }
}
