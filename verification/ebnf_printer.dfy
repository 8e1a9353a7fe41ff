/** Grammar.PrettyPrint of internal/mdt/pprint.go, and the round trip through the parser. */
module EbnfPrinter {
  import opened Ebnf
  import opened EbnfParser
  import opened EbnfRound

  /** The names in an expression, from left to right. */
  function NamesIn(e: Expr): seq<string>
  {
    match e
    case Name(n) => [n]
    case Group(b) => NamesIn(b)
    case Optional(b) => NamesIn(b)
    case Repetition(b) => NamesIn(b)
    case Sequence(es) => NamesInAll(es)
    case Alternative(es) => NamesInAll(es)
    case _ => []
  }

  function NamesInAll(es: seq<Expr>): seq<string>
  {
    if es == [] then [] else NamesInAll(es[..|es| - 1]) + NamesIn(es[|es| - 1])
  }

  /** Every production has an expression and its own name, and uses defined names only. */
  ghost predicate Closed(g: Grammar)
  {
    forall n :: n in g ==> Defined(g, g[n]) && g[n].name == n
  }

  ghost predicate Defined(g: Grammar, p: Production)
  {
    p.expr.Some? && forall n :: n in NamesIn(p.expr.value) ==> n in g
  }

  // ---------------------------------------------------------------- the worklist

  /** Names seen for the first time go to the end of the list. */
  function Visit(g: Grammar, todo: seq<Production>, seen: set<string>, ns: seq<string>): (r: (seq<Production>, set<string>))
    requires forall n :: n in ns ==> n in g
    ensures |r.0| + |seen| == |todo| + |r.1| && seen <= r.1
  {
    if ns == [] then (todo, seen)
    else
      var init, n := ns[..|ns| - 1], ns[|ns| - 1];
      var v := Visit(g, todo, seen, init);
      if n in v.1 then v else (v.0 + [g[n]], v.1 + {n})
  }

  class Printer {
    const g: Grammar
    var buf: seq<Tok>
    var todo: seq<Production>
    var seen: set<string>

    constructor (grammar: Grammar)
      ensures g == grammar && buf == [] && todo == [] && seen == {}
    {
      g := grammar;
      buf, todo, seen := [], [], {};
    }

    /** ppe: one expression. */
    method Print(e: Expr)
      requires forall n :: n in NamesIn(e) ==> n in g
      modifies this
      ensures buf == old(buf) + Toks(e)
      ensures (todo, seen) == Visit(g, old(todo), old(seen), NamesIn(e))
      decreases e, 0
    {
      hide Visit, NamesInAll, NamesIn, Toks, ToksSeq, ToksAlt;
      VisitFew(g, todo, seen, if e.Name? then e.n else "");
      WrittenAs(buf, e);
      match e
      case Sequence(es) => PrintAll(es, false);
      case Alternative(es) => PrintAll(es, true);
      case Group(b) =>
        buf := buf + [Punct('(')];
        Print(b);
        buf := buf + [Punct(')')];
      case Optional(b) =>
        buf := buf + [Punct('[')];
        Print(b);
        buf := buf + [Punct(']')];
      case Repetition(b) =>
        buf := buf + [Punct('{')];
        Print(b);
        buf := buf + [Punct('}')];
      case Name(n) =>
        buf := buf + Word(n);
        if n !in seen {
          todo := todo + [g[n]];
          seen := seen + {n};
        }
      case Range(lo, hi) => buf := buf + [Chr([lo]), Ellipsis, Chr([hi])];
      case Token(t) => buf := buf + [Str(t)];
      case Any => buf := buf + [Ident("_")];
      case Bad => buf := buf + [Punct('<'), Ident("ERROR"), Punct('>')];
    }

    /** The loops of ppe: expressions one after the other, or with bars between them. */
    method PrintAll(es: seq<Expr>, bars: bool)
      requires forall n :: n in NamesInAll(es) ==> n in g
      modifies this
      ensures buf == old(buf) + if bars then ToksAlt(es) else ToksSeq(es)
      ensures (todo, seen) == Visit(g, old(todo), old(seen), NamesInAll(es))
      decreases es, 1
    {
      hide Toks, ToksAlt, ToksSeq, NamesIn, NamesInAll, Visit;
      NothingPrinted(g, old(todo), old(seen));
      assert es[..0] == [];
      for i := 0 to |es|
        invariant NamesInAll(es[..i]) <= NamesInAll(es)
        invariant buf == old(buf) + if bars then ToksAlt(es[..i]) else ToksSeq(es[..i])
        invariant (todo, seen) == Visit(g, old(todo), old(seen), NamesInAll(es[..i]))
      {
        MorePrinted(g, es, i, old(todo), old(seen));
        if bars && i > 0 {
          buf := buf + [Punct('|')];
        }
        Print(es[i]);
      }
      assert es[..|es|] == es;
    }

    /** A production, with its metadata if it has any. */
    method PrintProduction(p: Production)
      requires p.expr.Some? && forall n :: n in NamesIn(p.expr.value) ==> n in g
      modifies this
      ensures buf == old(buf) + ProdToks(p)
      ensures (todo, seen) == Visit(g, old(todo), old(seen), NamesIn(p.expr.value))
    {
      hide Toks, NamesIn, Visit;
      buf := buf + Word(p.name);
      if p.metadata != "" {
        buf := buf + [Punct(':'), Str(p.metadata)];
      }
      buf := buf + [Punct('=')];
      Print(p.expr.value);
      buf := buf + [Punct('.')];
    }

    /** PrettyPrint: productions in the order in which they were met first. */
    method PrettyPrint(start: string)
      requires ClosedFrom(g, start) && buf == [] && todo == [] && seen == {}
      modifies this
      ensures Listed(Reach(g, start), [g[start]], {})
      ensures var ps := Printed(Reach(g, start), [g[start]], {}); AllWritten(ps) && buf == ToksAll(ps)
    {
      hide ProdToks, Visit, NamesIn, Printed, ToksAll, AllWritten, Defined, Reach, Met;
      ghost var r := Reach(g, start);
      ReachIs(g, start);
      StartListed(r, start);
      todo := [g[start]];
      ghost var all := Printed(r, todo, {});
      PrintedWritten(r, todo, {});
      while |todo| > 0
        invariant Listed(r, todo, seen) && AllWritten(Printed(r, todo, seen))
        invariant AllWritten(all) && ToksAll(all) == buf + ToksAll(Printed(r, todo, seen))
        decreases r.Keys - seen, |todo|
      {
        var p := todo[0];
        ghost var todo0, seen0 := todo, seen;
        todo := todo[1..];
        PrintedStep(r, todo0, seen0);
        VisitWithin(g, r, todo, seen, NamesIn(p.expr.value));
        PrintProduction(p);
      }
      PrintedEnd(r, seen);
    }
  }

  /** How an expression is written, one level deep. */
  lemma WrittenAs(buf: seq<Tok>, e: Expr)
    ensures match e
      case Sequence(es) => Toks(e) == ToksSeq(es) && NamesIn(e) == NamesInAll(es)
      case Alternative(es) => Toks(e) == ToksAlt(es) && NamesIn(e) == NamesInAll(es)
      case Group(b) => buf + Toks(e) == buf + [Punct('(')] + Toks(b) + [Punct(')')] && NamesIn(e) == NamesIn(b)
      case Optional(b) => buf + Toks(e) == buf + [Punct('[')] + Toks(b) + [Punct(']')] && NamesIn(e) == NamesIn(b)
      case Repetition(b) => buf + Toks(e) == buf + [Punct('{')] + Toks(b) + [Punct('}')] && NamesIn(e) == NamesIn(b)
      case Name(n) => Toks(e) == Word(n) && NamesIn(e) == [n]
      case Range(lo, hi) => Toks(e) == [Chr([lo]), Ellipsis, Chr([hi])] && NamesIn(e) == []
      case Token(t) => Toks(e) == [Str(t)] && NamesIn(e) == []
      case Any => Toks(e) == [Ident("_")] && NamesIn(e) == []
      case Bad => Toks(e) == [Punct('<'), Ident("ERROR"), Punct('>')] && NamesIn(e) == []
  {
    hide Visit, NamesInAll, ToksSeq, ToksAlt;
  }

  lemma VisitFew(g: Grammar, todo: seq<Production>, seen: set<string>, n: string)
    ensures Visit(g, todo, seen, []) == (todo, seen)
    ensures n in g ==> Visit(g, todo, seen, [n]) == if n in seen then (todo, seen) else (todo + [g[n]], seen + {n})
  {
    assert [n][..0] == [];
  }

  lemma {:induction false} VisitSees(g: Grammar, todo: seq<Production>, seen: set<string>, ns: seq<string>)
    requires forall n :: n in ns ==> n in g
    ensures forall n :: n in Visit(g, todo, seen, ns).1 <==> n in seen || n in ns
  {
    if ns != [] {
      VisitSees(g, todo, seen, ns[..|ns| - 1]);
    }
  }

  /** Everything to print is in the grammar, and so is everything that was seen. */
  ghost predicate Listed(g: Grammar, todo: seq<Production>, seen: set<string>)
  {
    Closed(g) && seen <= g.Keys && forall i :: 0 <= i < |todo| ==> todo[i].name in g && todo[i] == g[todo[i].name]
  }

  lemma {:induction false} VisitLists(g: Grammar, todo: seq<Production>, seen: set<string>, ns: seq<string>)
    requires Listed(g, todo, seen) && forall n :: n in ns ==> n in g
    ensures Listed(g, Visit(g, todo, seen, ns).0, Visit(g, todo, seen, ns).1)
    ensures todo <= Visit(g, todo, seen, ns).0
  {
    hide Defined;
    if ns != [] {
      VisitLists(g, todo, seen, ns[..|ns| - 1]);
      assert g[ns[|ns| - 1]].name == ns[|ns| - 1];
    }
  }

  /** The productions printed, in order. */
  ghost function Printed(g: Grammar, todo: seq<Production>, seen: set<string>): seq<Production>
    requires Listed(g, todo, seen)
    decreases g.Keys - seen, |todo|
  {
    if todo == [] then []
    else
      assert Defined(g, todo[0]);
      var v := Visit(g, todo[1..], seen, NamesIn(todo[0].expr.value));
      VisitLists(g, todo[1..], seen, NamesIn(todo[0].expr.value));
      VisitShrinks(g, todo, seen, v.0, v.1);
      [todo[0]] + Printed(g, v.0, v.1)
  }

  /** The list gets shorter, or fewer names are left. */
  lemma VisitShrinks(g: Grammar, todo: seq<Production>, seen: set<string>, todo': seq<Production>, seen': set<string>)
    requires todo != [] && seen <= seen' <= g.Keys && |todo'| + |seen| == |todo| - 1 + |seen'|
    ensures g.Keys - seen' < g.Keys - seen || (seen' == seen && |todo'| < |todo|)
  {
    if seen' != seen {
      var n :| n in seen' && n !in seen;
      assert n in g.Keys - seen && n !in g.Keys - seen';
      assert g.Keys - seen' <= g.Keys - seen;
    }
  }

  lemma NothingPrinted(g: Grammar, todo: seq<Production>, seen: set<string>)
    ensures NamesInAll([]) == [] && ToksAlt([]) == [] && ToksSeq([]) == [] && Visit(g, todo, seen, []) == (todo, seen)
  {
  }

  lemma {:induction false} ToksSeqSnoc(es: seq<Expr>, e: Expr)
    ensures ToksSeq(es + [e]) == ToksSeq(es) + Toks(e)
    decreases |es|
  {
    hide Toks;
    if es != [] {
      ToksSeqSnoc(es[1..], e);
      assert (es + [e])[1..] == es[1..] + [e];
    }
  }

  lemma {:induction false} ToksAltSnoc(es: seq<Expr>, e: Expr)
    ensures ToksAlt(es + [e]) == if es == [] then Toks(e) else ToksAlt(es) + [Punct('|')] + Toks(e)
    decreases |es|
  {
    hide Toks;
    if es != [] {
      ToksAltSnoc(es[1..], e);
      assert (es + [e])[1..] == es[1..] + [e];
    }
  }

  lemma VisitLast(g: Grammar, todo: seq<Production>, seen: set<string>, ns: seq<string>, n: string)
    requires n in g && forall m :: m in ns ==> m in g
    ensures forall m :: m in ns + [n] ==> m in g
    ensures var v := Visit(g, todo, seen, ns);
      Visit(g, todo, seen, ns + [n]) == if n in v.1 then v else (v.0 + [g[n]], v.1 + {n})
  {
    assert (ns + [n])[..|ns|] == ns;
  }

  lemma {:induction false} VisitConcat(g: Grammar, todo: seq<Production>, seen: set<string>, a: seq<string>, b: seq<string>)
    requires forall n :: n in a || n in b ==> n in g
    ensures forall n :: n in a + b ==> n in g
    ensures var v := Visit(g, todo, seen, a); Visit(g, todo, seen, a + b) == Visit(g, v.0, v.1, b)
    decreases |b|
  {
    hide Visit;
    if b == [] {
      assert a + b == a;
      var v := Visit(g, todo, seen, a);
      VisitFew(g, v.0, v.1, "");
    } else {
      var init, n := b[..|b| - 1], b[|b| - 1];
      VisitConcat(g, todo, seen, a, init);
      assert b == init + [n] && a + b == (a + init) + [n];
      var v := Visit(g, todo, seen, a);
      VisitLast(g, todo, seen, a + init, n);
      VisitLast(g, v.0, v.1, init, n);
    }
  }

  lemma {:induction false} NamesPrefix(es: seq<Expr>, i: nat)
    requires i <= |es|
    ensures NamesInAll(es[..i]) <= NamesInAll(es)
    decreases |es| - i
  {
    if i == |es| {
      assert es[..i] == es;
    } else {
      NamesPrefix(es, i + 1);
      assert es[..i + 1][..i] == es[..i];
    }
  }

  lemma MorePrinted(g: Grammar, es: seq<Expr>, i: nat, todo: seq<Production>, seen: set<string>)
    requires i < |es| && forall n :: n in NamesInAll(es) ==> n in g
    ensures NamesInAll(es[..i]) <= NamesInAll(es) && NamesInAll(es[..i + 1]) <= NamesInAll(es)
    ensures forall n :: n in NamesIn(es[i]) ==> n in g
    ensures ToksSeq(es[..i + 1]) == ToksSeq(es[..i]) + Toks(es[i])
    ensures ToksAlt(es[..i + 1]) == if i == 0 then Toks(es[i]) else ToksAlt(es[..i]) + [Punct('|')] + Toks(es[i])
    ensures i == 0 ==> ToksAlt(es[..i]) == []
    ensures var v := Visit(g, todo, seen, NamesInAll(es[..i]));
      Visit(g, todo, seen, NamesInAll(es[..i + 1])) == Visit(g, v.0, v.1, NamesIn(es[i]))
  {
    NamesPrefix(es, i);
    NamesPrefix(es, i + 1);
    assert es[..i + 1] == es[..i] + [es[i]] && es[..i + 1][..i] == es[..i];
    ToksSeqSnoc(es[..i], es[i]);
    ToksAltSnoc(es[..i], es[i]);
    var a, b := NamesInAll(es[..i]), NamesIn(es[i]);
    assert NamesInAll(es[..i + 1]) == a + b;
    hide Toks, ToksSeq, ToksAlt, NamesIn, NamesInAll, Visit;
    assert forall n :: n in a || n in b ==> n in a + b;
    VisitConcat(g, todo, seen, a, b);
    AltNone();
  }

  lemma AltNone()
    ensures ToksAlt([]) == []
  {
  }

  lemma {:induction false} PrintedWritten(g: Grammar, todo: seq<Production>, seen: set<string>)
    requires Listed(g, todo, seen)
    ensures AllWritten(Printed(g, todo, seen))
    decreases g.Keys - seen, |todo|
  {
    if todo != [] {
      assert Defined(g, todo[0]);
      var v := Visit(g, todo[1..], seen, NamesIn(todo[0].expr.value));
      VisitLists(g, todo[1..], seen, NamesIn(todo[0].expr.value));
      VisitShrinks(g, todo, seen, v.0, v.1);
      PrintedWritten(g, v.0, v.1);
    }
  }

  /** One production is printed, and the names it meets first are listed. */
  lemma PrintedStep(g: Grammar, todo: seq<Production>, seen: set<string>)
    requires Listed(g, todo, seen) && todo != [] && AllWritten(Printed(g, todo, seen))
    ensures Defined(g, todo[0]) && todo[0].expr.Some? && forall n :: n in NamesIn(todo[0].expr.value) ==> n in g
    ensures var v := Visit(g, todo[1..], seen, NamesIn(todo[0].expr.value));
      && Listed(g, v.0, v.1) && AllWritten(Printed(g, v.0, v.1))
      && ToksAll(Printed(g, todo, seen)) == ProdToks(todo[0]) + ToksAll(Printed(g, v.0, v.1))
      && (g.Keys - v.1 < g.Keys - seen || (v.1 == seen && |v.0| < |todo|))
  {
    assert Defined(g, todo[0]);
    var v := Visit(g, todo[1..], seen, NamesIn(todo[0].expr.value));
    VisitLists(g, todo[1..], seen, NamesIn(todo[0].expr.value));
    VisitShrinks(g, todo, seen, v.0, v.1);
    var all := Printed(g, todo, seen);
    assert all[1..] == Printed(g, v.0, v.1);
    FileParts(all);
  }

  lemma PrintedEnd(g: Grammar, seen: set<string>)
    requires Listed(g, [], seen)
    ensures Printed(g, [], seen) == [] && AllWritten([]) && ToksAll([]) == []
  {
  }

  // ---------------------------------------------------------------- what is printed

  /** n is reached from start by following names, at least one. */
  ghost predicate Met(g: Grammar, start: string, n: string)
  {
    exists path :: Path(g, start, path, n)
  }

  ghost predicate Path(g: Grammar, start: string, path: seq<string>, n: string)
  {
    if path == [] then false
    else
      var m := path[|path| - 1];
      Uses(g, m, n) && if |path| == 1 then m == start else Path(g, start, path[..|path| - 1], m)
  }

  ghost predicate Uses(g: Grammar, m: string, n: string)
  {
    m in g && g[m].expr.Some? && n in NamesIn(g[m].expr.value)
  }

  lemma MetOn(g: Grammar, start: string, m: string, n: string)
    requires Uses(g, m, n) && (m == start || Met(g, start, m))
    ensures Met(g, start, n)
  {
    if m == start {
      assert Path(g, start, [m], n);
    } else {
      var path :| Path(g, start, path, m);
      var longer := path + [m];
      assert longer[..|longer| - 1] == path;
      assert Path(g, start, longer, n);
    }
  }

  /** The names seen once all is printed. */
  ghost function Finally(g: Grammar, todo: seq<Production>, seen: set<string>): set<string>
    requires Listed(g, todo, seen)
    decreases g.Keys - seen, |todo|
  {
    if todo == [] then seen
    else
      assert Defined(g, todo[0]);
      var v := Visit(g, todo[1..], seen, NamesIn(todo[0].expr.value));
      VisitLists(g, todo[1..], seen, NamesIn(todo[0].expr.value));
      VisitShrinks(g, todo, seen, v.0, v.1);
      Finally(g, v.0, v.1)
  }

  ghost function NamesOf(ps: seq<Production>): set<string>
  {
    set i | 0 <= i < |ps| :: ps[i].name
  }

  lemma {:induction false} VisitNames(g: Grammar, todo: seq<Production>, seen: set<string>, ns: seq<string>)
    requires Listed(g, todo, seen) && forall n :: n in ns ==> n in g
    ensures NamesOf(Visit(g, todo, seen, ns).0) + seen == NamesOf(todo) + Visit(g, todo, seen, ns).1
  {
    if ns != [] {
      var init, n := ns[..|ns| - 1], ns[|ns| - 1];
      VisitNames(g, todo, seen, init);
      var v := Visit(g, todo, seen, init);
      hide Defined;
      NamesSnoc(v.0, g[n]);
    }
  }

  lemma NamesSnoc(ps: seq<Production>, p: Production)
    ensures NamesOf(ps + [p]) == NamesOf(ps) + {p.name}
  {
    var all := ps + [p];
    assert forall i :: 0 <= i < |ps| ==> all[i] == ps[i];
    assert all[|ps|] == p;
  }

  lemma NamesCons(p: Production, ps: seq<Production>)
    ensures NamesOf([p] + ps) == {p.name} + NamesOf(ps)
  {
    var all := [p] + ps;
    assert all[0] == p && forall i :: 0 <= i < |ps| ==> all[i + 1] == ps[i];
    forall n | n in NamesOf(ps)
      ensures n in NamesOf(all)
    {
      var i :| 0 <= i < |ps| && ps[i].name == n;
      assert all[i + 1].name == n;
    }
  }

  /** What one turn of the worklist does. */
  lemma Turn(g: Grammar, todo: seq<Production>, seen: set<string>) returns (todo': seq<Production>, seen': set<string>)
    requires Listed(g, todo, seen) && todo != []
    ensures Listed(g, todo', seen') && todo[0].name in g && todo[0] == g[todo[0].name] && todo[0].expr.Some?
    ensures Printed(g, todo, seen) == [todo[0]] + Printed(g, todo', seen') && Finally(g, todo, seen) == Finally(g, todo', seen')
    ensures forall n :: n in seen' <==> n in seen || Uses(g, todo[0].name, n)
    ensures todo[1..] <= todo' && NamesOf(todo') + seen == NamesOf(todo[1..]) + seen' && |todo'| + |seen| == |todo| - 1 + |seen'| && seen <= seen'
    ensures g.Keys - seen' < g.Keys - seen || (seen' == seen && |todo'| < |todo|)
  {
    assert Defined(g, todo[0]);
    var ns := NamesIn(todo[0].expr.value);
    var v := Visit(g, todo[1..], seen, ns);
    VisitLists(g, todo[1..], seen, ns);
    VisitShrinks(g, todo, seen, v.0, v.1);
    VisitSees(g, todo[1..], seen, ns);
    VisitNames(g, todo[1..], seen, ns);
    todo', seen' := v.0, v.1;
  }

  /** What is printed: as many productions as were listed and seen. */
  ghost predicate Counts(l: seq<Production>, todo: seq<Production>, seen: set<string>, f: set<string>)
  {
    |l| + |seen| == |todo| + |f| && seen <= f
  }

  lemma {:induction false} PrintedCounts(g: Grammar, todo: seq<Production>, seen: set<string>)
    requires Listed(g, todo, seen)
    ensures Counts(Printed(g, todo, seen), todo, seen, Finally(g, todo, seen))
    decreases g.Keys - seen, |todo|
  {
    if todo != [] {
      var todo', seen' := Turn(g, todo, seen);
      hide Printed, Finally, Listed, NamesOf, Uses;
      PrintedCounts(g, todo', seen');
    }
  }

  /** Printed are the productions listed, and those of the names seen first since. */
  lemma {:induction false} PrintedNames(g: Grammar, todo: seq<Production>, seen: set<string>)
    requires Listed(g, todo, seen)
    ensures NamesOf(todo) <= NamesOf(Printed(g, todo, seen))
    ensures NamesOf(Printed(g, todo, seen)) + seen == NamesOf(todo) + Finally(g, todo, seen)
    decreases g.Keys - seen, |todo|
  {
    if todo != [] {
      var todo', seen' := Turn(g, todo, seen);
      PrintedCounts(g, todo', seen');
      NamesPrefixes(todo[1..], todo');
      hide *;
      PrintedNames(g, todo', seen');
      var l, f := Printed(g, todo', seen'), Finally(g, todo', seen');
      NamesCons(todo[0], l);
      NamesCons(todo[0], todo[1..]);
      assert todo == [todo[0]] + todo[1..];
      CountsWithin(l, todo', seen', f);
      SetStep(todo[0].name, NamesOf(l), NamesOf(todo[1..]), NamesOf(todo'), seen, seen', f);
    } else {
      assert Printed(g, todo, seen) == [];
    }
  }

  lemma CountsWithin(l: seq<Production>, todo: seq<Production>, seen: set<string>, f: set<string>)
    requires Counts(l, todo, seen, f)
    ensures seen <= f
  {
  }

  lemma NamesPrefixes(a: seq<Production>, b: seq<Production>)
    requires a <= b
    ensures NamesOf(a) <= NamesOf(b)
  {
    forall n | n in NamesOf(a)
      ensures n in NamesOf(b)
    {
      var i :| 0 <= i < |a| && a[i].name == n;
      assert b[i].name == n;
    }
  }

  lemma SetStep(p: string, l: set<string>, t: set<string>, t': set<string>, s: set<string>, s': set<string>, f: set<string>)
    requires t' + s == t + s' && l + s' == t' + f && t <= t' <= l && s <= s' <= f
    ensures {p} + t <= {p} + l && ({p} + l) + s == ({p} + t) + f
  {
  }

  /** Names are seen only when they are used by what is printed. */
  lemma {:induction false} FinallyMet(g: Grammar, todo: seq<Production>, seen: set<string>, start: string)
    requires Listed(g, todo, seen)
    requires forall n :: n in seen ==> Met(g, start, n)
    requires forall n :: n in NamesOf(todo) ==> n == start || Met(g, start, n)
    ensures forall n :: n in Finally(g, todo, seen) ==> Met(g, start, n)
    decreases g.Keys - seen, |todo|
  {
    if todo != [] {
      var p := todo[0];
      var todo', seen' := Turn(g, todo, seen);
      hide *;
      assert todo == [p] + todo[1..];
      NamesCons(p, todo[1..]);
      forall n | n in seen'
        ensures Met(g, start, n)
      {
        if n !in seen {
          MetOn(g, start, p.name, n);
        }
      }
      forall n | n in NamesOf(todo')
        ensures n == start || Met(g, start, n)
      {
        assert n in NamesOf(todo[1..]) + seen';
      }
      FinallyMet(g, todo', seen', start);
    }
  }

  /** What is printed comes from the grammar, and every name it uses was seen. */
  ghost predicate Faithful(g: Grammar, l: seq<Production>, f: set<string>)
  {
    forall i :: 0 <= i < |l| ==> l[i].name in g && l[i] == g[l[i].name] && forall n :: Uses(g, l[i].name, n) ==> n in f
  }

  lemma {:induction false} PrintedFaithful(g: Grammar, todo: seq<Production>, seen: set<string>)
    requires Listed(g, todo, seen)
    ensures Faithful(g, Printed(g, todo, seen), Finally(g, todo, seen))
    decreases g.Keys - seen, |todo|
  {
    if todo != [] {
      var todo', seen' := Turn(g, todo, seen);
      PrintedCounts(g, todo', seen');
      PrintedFaithful(g, todo', seen');
      hide Printed, Finally, Listed, NamesOf, Uses;
    }
  }

  // ---------------------------------------------------------------- what is parsed

  lemma {:induction false} AddAllIs(g: Grammar, h: Grammar, ps: seq<Production>)
    requires Within(h, g) && Taken(ps, g)
    ensures AddAll(h, ps).0.Keys == h.Keys + NamesOf(ps) && Within(AddAll(h, ps).0, g)
    ensures |h.Keys| + |ps| == |AddAll(h, ps).0.Keys| + AddAll(h, ps).1
    decreases |ps|
  {
    if ps == [] {
      assert NamesOf(ps) == {};
    } else {
      var p, tail := ps[0], ps[1..];
      assert ps == [p] + tail;
      TakenParts(ps, g);
      NamesCons(p, tail);
      AddStep(h, ps);
      hide *;
      if p.name in h {
        AddAllIs(g, h, tail);
        AddedBefore(AddAll(h, tail).0.Keys, h.Keys, NamesOf(tail), p.name);
      } else {
        var h' := h[p.name := Trimmed(p)];
        WithinMore(h, g, p);
        assert h'.Keys == h.Keys + {p.name};
        AddAllIs(g, h', tail);
        AddedNow(h.Keys, NamesOf(tail), p.name);
      }
    }
  }

  lemma AddedBefore(keys: set<string>, h: set<string>, names: set<string>, n: string)
    requires keys == h + names && n in h
    ensures keys == h + ({n} + names)
  {
  }

  lemma AddedNow(h: set<string>, names: set<string>, n: string)
    ensures h + {n} + names == h + ({n} + names)
    ensures n !in h ==> |h + {n}| == |h| + 1
  {
  }

  /** Productions of g, under their own names. */
  ghost predicate Taken(ps: seq<Production>, g: Grammar)
  {
    forall i :: 0 <= i < |ps| ==> ps[i].name in g && ps[i] == g[ps[i].name]
  }

  lemma TakenParts(ps: seq<Production>, g: Grammar)
    requires Taken(ps, g) && ps != []
    ensures ps[0].name in g && ps[0] == g[ps[0].name] && Taken(ps[1..], g)
  {
  }

  /** All productions are in parser normal form. */
  ghost predicate AllNormal(g: Grammar) { forall n :: n in g ==> Printable(g[n]) }

  lemma {:induction false} PrintedNormal(g: Grammar, todo: seq<Production>, seen: set<string>)
    requires Listed(g, todo, seen) && AllNormal(g)
    ensures AllPrintable(Printed(g, todo, seen))
    decreases g.Keys - seen, |todo|
  {
    if todo != [] {
      hide Printed, Printable, AllPrintable, Listed, Finally, Visit, Defined, Closed;
      var todo', seen' := Turn(g, todo, seen);
      TurnShrinks(g, todo, seen, todo', seen');
      PrintedNormal(g, todo', seen');
      PrintableCons(todo[0], Printed(g, todo', seen'));
    } else {
      PrintedEnd(g, seen);
    }
  }

  lemma TurnShrinks(g: Grammar, todo: seq<Production>, seen: set<string>, todo': seq<Production>, seen': set<string>)
    requires Listed(g, todo', seen') && todo != [] && seen <= seen' && |todo'| + |seen| == |todo| - 1 + |seen'|
    ensures g.Keys - seen' < g.Keys - seen || (seen' == seen && |todo'| < |todo|)
  {
    VisitShrinks(g, todo, seen, todo', seen');
  }

  lemma PrintableCons(p: Production, ps: seq<Production>)
    requires Printable(p) && AllPrintable(ps)
    ensures AllPrintable([p] + ps)
  {
  }

  /** What is reached from the start is printed. */
  lemma PrintedMet(g: Grammar, start: string)
    requires Closed(g) && start in g
    ensures Listed(g, [g[start]], {})
    ensures forall n :: Met(g, start, n) ==> n in NamesOf(Printed(g, [g[start]], {}))
  {
    var todo := [g[start]];
    StartListed(g, start);
    var l, f := Printed(g, todo, {}), Finally(g, todo, {});
    PrintedNames(g, todo, {});
    FinallyMet(g, todo, {}, start);
    PrintedFaithful(g, todo, {});
    FaithfulNames(g, l, f);
    hide *;
    NamesAre(g, start, NamesOf(l), f);
  }

  lemma PrintParseAll(g: Grammar, start: string)
    requires Closed(g) && start in g && AllNormal(g)
    ensures AllWritten(Printed(g, [g[start]], {}))
    ensures var ts := ToksAll(Printed(g, [g[start]], {})); var r := FileAt(ts, 0, map[], 0);
      && (forall n :: n in r.value <==> n == start || Met(g, start, n))
      && Within(r.value, g)
      && r.errors == if Met(g, start, start) then 1 else 0
  {
    var todo := [g[start]];
    StartListed(g, start);
    PrintedWritten(g, todo, {});
    PrintedNormal(g, todo, {});
    var l, f := Printed(g, todo, {}), Finally(g, todo, {});
    PrintedCounts(g, todo, {});
    PrintedNames(g, todo, {});
    FinallyMet(g, todo, {}, start);
    PrintedFaithful(g, todo, {});
    FaithfulNames(g, l, f);
    StartCounts(l, todo, f);
    hide *;
    ParsedBack(g, start, l, f);
  }

  // ---------------------------------------------------------------- what is not reached does not matter

  /** The productions that are reached. */
  ghost function Reach(g: Grammar, start: string): Grammar
  {
    map n | n in g && (n == start || Met(g, start, n)) :: g[n]
  }

  /** What is reached has an expression and its own name, and uses defined names only. */
  ghost predicate ClosedFrom(g: Grammar, start: string) { start in g && Closed(Reach(g, start)) }

  lemma ReachIs(g: Grammar, start: string)
    requires ClosedFrom(g, start)
    ensures var r := Reach(g, start);
      Closed(r) && start in r && r[start] == g[start] && forall n :: n in r ==> n in g && r[n] == g[n]
  {
    hide Met, Defined;
  }

  /** In a grammar that is closed everything is, whatever the start. */
  lemma ClosedReaches(g: Grammar, start: string)
    requires Closed(g) && start in g
    ensures ClosedFrom(g, start)
  {
    var r := Reach(g, start);
    forall m | m in r
      ensures Defined(r, r[m])
    {
      assert Defined(g, g[m]);
      forall n | n in NamesIn(g[m].expr.value)
        ensures n in r
      {
        assert Uses(g, m, n);
        MetOn(g, start, m, n);
      }
    }
  }

  lemma {:induction false} VisitWithin(g: Grammar, r: Grammar, todo: seq<Production>, seen: set<string>, ns: seq<string>)
    requires (forall n :: n in r ==> n in g && r[n] == g[n]) && forall n :: n in ns ==> n in r
    ensures (forall n :: n in ns ==> n in g) && Visit(g, todo, seen, ns) == Visit(r, todo, seen, ns)
    decreases |ns|
  {
    if ns != [] {
      VisitWithin(g, r, todo, seen, ns[..|ns| - 1]);
    }
  }

  lemma {:induction false} PathReached(g: Grammar, start: string, path: seq<string>, n: string)
    requires ClosedFrom(g, start)
    ensures Path(g, start, path, n) <==> Path(Reach(g, start), start, path, n)
    ensures Path(g, start, path, n) ==> n in Reach(g, start)
    decreases |path|
  {
    var r := Reach(g, start);
    if path != [] {
      var m, init := path[|path| - 1], path[..|path| - 1];
      if |path| > 1 {
        PathReached(g, start, init, m);
      }
      if Path(g, start, path, n) {
        assert m in r;
        assert Defined(r, r[m]);
      }
    }
  }

  lemma MetReached(g: Grammar, start: string, n: string)
    requires ClosedFrom(g, start)
    ensures Met(Reach(g, start), start, n) <==> Met(g, start, n)
  {
    hide Path, Reach;
    if Met(g, start, n) {
      var path :| Path(g, start, path, n);
      PathReached(g, start, path, n);
    }
    if Met(Reach(g, start), start, n) {
      var path :| Path(Reach(g, start), start, path, n);
      PathReached(g, start, path, n);
    }
  }

  /** h holds some of the productions of g, as the parser gives them back. */
  ghost predicate Within(h: Grammar, g: Grammar)
  {
    forall n :: n in h ==> n in g && h[n] == Trimmed(g[n])
  }

  lemma WithinMore(h: Grammar, g: Grammar, p: Production)
    requires Within(h, g) && p.name in g && p == g[p.name]
    ensures Within(h[p.name := Trimmed(p)], g)
  {
  }

  lemma PrintParse(g: Grammar, start: string)
    requires ClosedFrom(g, start) && AllNormal(Reach(g, start))
    ensures Listed(Reach(g, start), [g[start]], {})
    ensures var ps := Printed(Reach(g, start), [g[start]], {});
      && AllWritten(ps)
      && var r := FileAt(ToksAll(ps), 0, map[], 0);
        && (forall n :: n in r.value <==> n == start || Met(g, start, n))
        && Within(r.value, g)
        && r.errors == if Met(g, start, start) then 1 else 0
  {
    var r := Reach(g, start);
    ReachIs(g, start);
    StartListed(r, start);
    PrintParseAll(r, start);
    hide Met, Reach, Closed, Printed, FileAt, ToksAll, AllPrintable, Listed, Trimmed;
    forall n
      ensures Met(r, start, n) <==> Met(g, start, n)
    {
      MetReached(g, start, n);
    }
  }

  lemma StandsWhole(ts: seq<Tok>, g: Grammar)
    ensures Stands(ts, 0, ts, []) && Within(map[], g)
  {
  }

  lemma ParsedBack(g: Grammar, start: string, l: seq<Production>, f: set<string>)
    requires AllPrintable(l) && AllWritten(l) && Taken(l, g) && UsesWithin(g, NamesOf(l), f) && |l| == 1 + |f|
    requires NamesOf(l) + {} == {start} + f && forall n :: n in f ==> Met(g, start, n)
    ensures var r := FileAt(ToksAll(l), 0, map[], 0);
      && (forall n :: n in r.value <==> n == start || Met(g, start, n))
      && Within(r.value, g)
      && r.errors == if Met(g, start, start) then 1 else 0
  {
    hide *;
    var ts := ToksAll(l);
    var none: Grammar := map[];
    StandsWhole(ts, g);
    ParsesFile(l, ts, 0, none, 0);
    AddAllIs(g, none, l);
    NamesAre(g, start, NamesOf(l), f);
    CountedOnce(AddAll(none, l).0.Keys, NamesOf(l), f, start, |l|, AddAll(none, l).1);
  }

  lemma {:induction false} NoEOF(e: Expr)
    ensures EOF !in Toks(e)
    decreases e, 0
  {
    match e
    case Sequence(es) => NoEOFs(es);
    case Alternative(es) => NoEOFs(es);
    case Group(b) => NoEOF(b);
    case Optional(b) => NoEOF(b);
    case Repetition(b) => NoEOF(b);
    case _ =>
  }

  lemma {:induction false} NoEOFs(es: seq<Expr>)
    ensures EOF !in ToksSeq(es) && EOF !in ToksAlt(es)
    decreases es, 1
  {
    if es != [] {
      NoEOF(es[0]);
      NoEOFs(es[1..]);
    }
  }

  lemma {:induction false} NoEOFAll(ps: seq<Production>)
    requires AllWritten(ps)
    ensures EOF !in ToksAll(ps)
  {
    if ps != [] {
      FileParts(ps);
      NoEOF(ps[0].expr.value);
      NoEOFAll(ps[1..]);
    }
  }

  /** The tokens that are printed from the start. */
  ghost function PrintedToks(g: Grammar, start: string): seq<Tok>
    requires ClosedFrom(g, start)
  {
    ReachIs(g, start);
    StartListed(Reach(g, start), start);
    PrintedWritten(Reach(g, start), [g[start]], {});
    ToksAll(Printed(Reach(g, start), [g[start]], {}))
  }

  /** Printing a grammar and parsing it back: what is parsed from the tokens that are printed; if all that is
      reached is in parser normal form, it comes back. */
  method RoundTrip(g: Grammar, start: string) returns (h: Grammar, errors: nat)
    requires ClosedFrom(g, start)
    ensures var r := FileAt(PrintedToks(g, start), 0, map[], 0); h == r.value && errors == r.errors
    ensures AllNormal(Reach(g, start)) ==>
      && (forall n :: n in h <==> n == start || Met(g, start, n))
      && Within(h, g)
      && (errors == 0 <==> !Met(g, start, start))
  {
    var printer := new Printer(g);
    printer.PrettyPrint(start);
    NoEOFAll(Printed(Reach(g, start), [g[start]], {}));
    var parser := new Parser(printer.buf);
    h := parser.ParseFile();
    errors := parser.errors;
    PrintedToksAre(g, start);
    if AllNormal(Reach(g, start)) {
      PrintParse(g, start);
    }
    hide *;
  }

  lemma PrintedToksAre(g: Grammar, start: string)
    requires ClosedFrom(g, start)
    ensures Listed(Reach(g, start), [g[start]], {}) && AllWritten(Printed(Reach(g, start), [g[start]], {}))
    ensures PrintedToks(g, start) == ToksAll(Printed(Reach(g, start), [g[start]], {}))
  {
    ReachIs(g, start);
    StartListed(Reach(g, start), start);
    PrintedWritten(Reach(g, start), [g[start]], {});
  }

  lemma NamesAre(g: Grammar, start: string, names: set<string>, f: set<string>)
    requires names + {} == {start} + f && UsesWithin(g, names, f)
    requires forall n :: n in f ==> Met(g, start, n)
    ensures forall n :: n in f <==> Met(g, start, n)
    ensures forall n :: n in names <==> n == start || Met(g, start, n)
  {
    hide Met, UsesWithin;
    forall n | Met(g, start, n)
      ensures n in f
    {
      MetSeen(g, start, n, names, f);
    }
  }

  lemma CountedOnce(keys: set<string>, names: set<string>, f: set<string>, start: string, l: nat, errors: nat)
    requires keys == {} + names && names + {} == {start} + f && l == 1 + |f| && l == |keys| + errors
    ensures errors == if start in f then 1 else 0
    ensures keys == names
  {
    assert {start} + f == if start in f then f else f + {start};
  }

  lemma StartListed(g: Grammar, start: string)
    requires Closed(g) && start in g
    ensures Listed(g, [g[start]], {}) && NamesOf([g[start]]) == {start}
  {
    var todo := [g[start]];
    assert todo[0].name == start;
  }

  lemma StartCounts(l: seq<Production>, todo: seq<Production>, f: set<string>)
    requires Counts(l, todo, {}, f)
    ensures |l| == |todo| + |f|
  {
  }

  lemma FaithfulNames(g: Grammar, l: seq<Production>, f: set<string>)
    requires Faithful(g, l, f)
    ensures Taken(l, g) && UsesWithin(g, NamesOf(l), f)
  {
    hide Uses;
  }

  ghost predicate UsesWithin(g: Grammar, names: set<string>, f: set<string>)
  {
    forall m, n :: m in names && Uses(g, m, n) ==> n in f
  }

  lemma MetSeen(g: Grammar, start: string, n: string, names: set<string>, f: set<string>)
    requires Met(g, start, n) && start in names && f <= names
    requires UsesWithin(g, names, f)
    ensures n in f
  {
    var path :| Path(g, start, path, n);
    PathSeen(g, start, path, n, names, f);
  }

  lemma {:induction false} PathSeen(g: Grammar, start: string, path: seq<string>, n: string, names: set<string>, f: set<string>)
    requires Path(g, start, path, n) && start in names && f <= names
    requires UsesWithin(g, names, f)
    ensures n in f
  {
    var m := path[|path| - 1];
    if |path| > 1 {
      PathSeen(g, start, path[..|path| - 1], m, names, f);
    }
    assert Uses(g, m, n);
  }
}
