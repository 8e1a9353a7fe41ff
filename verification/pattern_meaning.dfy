/** The grammar that CompilePattern builds means what the pattern says: its elements, read from the
    root sequence and the productions, are those of the pieces of the pattern text. */
module PatternMeaning {
  import opened Wrappers
  import opened PatternSplit
  import opened PatternGrammar

  // ---------------------------------------------------------------- the elements of a grammar

  function BodyElem(e: Expr): seq<Elem>
  {
    match e
    case Token(t) => [Lit(t)]
    case AnyText => [Any]
    case _ => []
  }

  function FlatBody(es: seq<Expr>): seq<Elem>
  {
    if es == [] then [] else FlatBody(es[..|es| - 1]) + BodyElem(es[|es| - 1])
  }

  function Body(e: Expr): seq<Elem>
  {
    if e.Sequence? then FlatBody(e.es) else BodyElem(e)
  }

  function Capture(n: string, grm: Grammar): seq<Elem>
  {
    [Open(n)] + (if n in grm then Body(grm[n].expr) else [])
  }

  function RootElem(e: Expr, grm: Grammar): seq<Elem>
  {
    if e.Name? then Capture(e.name, grm) + [Close] else BodyElem(e)
  }

  function FlatRoot(es: seq<Expr>, grm: Grammar): seq<Elem>
  {
    if es == [] then [] else FlatRoot(es[..|es| - 1], grm) + RootElem(es[|es| - 1], grm)
  }

  /** The elements of a grammar, as compileExpr goes through them from the root production. */
  function Elements(g: Grammar): seq<Elem>
    requires "root" in g && g["root"].expr.Sequence?
  {
    FlatRoot(g["root"].expr.es, g)
  }

  // ---------------------------------------------------------------- the elements of the pieces

  function LitIf(t: string): seq<Elem> { if t == "" then [] else [Lit(t)] }

  function CloseIf(run: Option<string>): seq<Elem> { if run.Some? then [Close] else [] }

  /** The elements of pieces behind the literal text, when the capture run is still open: the same
      name right after it carries it on, and any other hole ends it. */
  function Meaning(ps: seq<Piece>, text: string, run: Option<string>): seq<Elem>
  {
    if ps == [] then CloseIf(run) + LitIf(text)
    else
      match ps[0]
      case Text(t) => Meaning(ps[1..], text + t, run)
      case Hole(n, _) =>
        if run == Some(n) then LitIf(text) + [Any] + Meaning(ps[1..], "", run)
        else if n == "_" then CloseIf(run) + LitIf(text) + [Any] + Meaning(ps[1..], "", None)
        else CloseIf(run) + LitIf(text) + [Open(n), Any] + Meaning(ps[1..], "", Some(n))
  }

  /** No name comes again after another hole. */
  predicate NoResume(ps: seq<Piece>, run: Option<string>, seen: set<string>)
  {
    if ps == [] then true
    else
      match ps[0]
      case Text(_) => NoResume(ps[1..], run, seen)
      case Hole(n, _) =>
        && (n in seen ==> run == Some(n))
        && (if n == "_" then NoResume(ps[1..], None, seen) else NoResume(ps[1..], Some(n), seen + {n}))
  }

  ghost predicate NoRoot(ps: seq<Piece>)
  {
    forall i :: 0 <= i < |ps| && ps[i].Hole? ==> ps[i].name != "root"
  }

  // ---------------------------------------------------------------- the building state

  function Run(b: Built): Option<string>
  {
    if b.es != [] && b.es[|b.es| - 1].Name? then Some(b.es[|b.es| - 1].name) else None
  }

  ghost predicate BuiltOk(b: Built)
  {
    && (forall i :: 0 <= i < |b.es| && b.es[i].Name? ==> b.es[i].name in b.grm)
    && (forall i, j :: 0 <= i < j < |b.es| && b.es[i].Name? && b.es[j].Name? ==> b.es[i].name != b.es[j].name)
    && (forall n :: n in b.grm ==> n != "_" && n != "root" && (b.grm[n].expr.AnyText? || b.grm[n].expr.Sequence?))
    && (Run(b).Some? ==> b.last == Run(b).value)
  }

  /** What has been built so far, with the end of an open capture left out. */
  function Prefix(b: Built): seq<Elem>
  {
    if Run(b).Some? then FlatRoot(b.es[..|b.es| - 1], b.grm) + Capture(Run(b).value, b.grm) else FlatRoot(b.es, b.grm)
  }

  lemma {:induction false} FlatFrame(es: seq<Expr>, g: Grammar, h: Grammar)
    requires forall i :: 0 <= i < |es| && es[i].Name? ==> es[i].name in g && es[i].name in h && g[es[i].name] == h[es[i].name]
    ensures FlatRoot(es, g) == FlatRoot(es, h)
  {
    if es != [] {
      FlatFrame(es[..|es| - 1], g, h);
      var e := es[|es| - 1];
      assert e.Name? ==> g[e.name] == h[e.name];
    }
  }

  lemma FlatSnoc(es: seq<Expr>, e: Expr, g: Grammar)
    ensures FlatRoot(es + [e], g) == FlatRoot(es, g) + RootElem(e, g)
  {
    assert (es + [e])[..|es|] == es;
  }

  lemma BodySnoc(es: seq<Expr>, e: Expr)
    ensures FlatBody(es + [e]) == FlatBody(es) + BodyElem(e)
  {
    assert (es + [e])[..|es|] == es;
  }

  /** The sequence built so far, with its last capture closed. */
  lemma PrefixCloses(b: Built)
    ensures FlatRoot(b.es, b.grm) == Prefix(b) + CloseIf(Run(b))
  {
  }

  lemma AddText(b: Built, text: string)
    ensures var es := if text != "" then b.es + [Token(text)] else b.es;
      FlatRoot(es, b.grm) == Prefix(b) + (CloseIf(Run(b)) + LitIf(text))
  {
    PrefixCloses(b);
    FlatSnoc(b.es, Token(text), b.grm);
  }

  function Parts(e: Expr): seq<Expr>
  {
    match e
    case Sequence(es) => es
    case _ => [e]
  }

  lemma BodyParts(e: Expr)
    ensures FlatBody(Parts(e)) == Body(e)
  {
    BodySnoc([], e);
    assert [] + [e] == [e];
    assert FlatBody([]) == [];
  }

  lemma BodyExtends(e: Expr, text: string)
    ensures Body(Sequence(Parts(e) + [Token(text), AnyText])) == Body(e) + [Lit(text), Any]
  {
    hide FlatBody, Parts;
    var es := Parts(e);
    BodyParts(e);
    BodySnoc(es, Token(text));
    BodySnoc(es + [Token(text)], AnyText);
    assert es + [Token(text)] + [AnyText] == es + [Token(text), AnyText];
  }

  lemma AddedAgain(b: Built, text: string, n: string, meta: string, b': Built)
    requires AddHole(b, text, false, n, meta) == Ok(b') && n in b.grm
    ensures text != "" && b' == b.(grm := b.grm[n := b.grm[n].(expr := Sequence(Parts(b.grm[n].expr) + [Token(text), AnyText]))])
  {
  }

  lemma AddedFresh(b: Built, text: string, first: bool, n: string, meta: string, b': Built)
    requires AddHole(b, text, first, n, meta) == Ok(b') && n !in b.grm
    ensures var es := if text != "" then b.es + [Token(text)] else b.es;
      b' == if n == "_" then b.(es := es + [AnyText]) else Built(es + [Name(n)], b.grm[n := Production(AnyText, meta)], n)
  {
  }

  /** A hole that carries on the open capture. */
  lemma AddAgain(b: Built, text: string, n: string, meta: string, b': Built)
    requires BuiltOk(b) && AddHole(b, text, false, n, meta) == Ok(b') && n in b.grm && Run(b) == Some(n)
    ensures BuiltOk(b') && Run(b') == Some(n) && b'.grm.Keys == b.grm.Keys
    ensures Prefix(b') == Prefix(b) + (LitIf(text) + [Any])
  {
    hide AddHole, Body, Parts, FlatRoot, LitIf;
    AddedAgain(b, text, n, meta, b');
    BodyExtends(b.grm[n].expr, text);
    var init := b.es[..|b.es| - 1];
    forall i | 0 <= i < |init| && init[i].Name?
      ensures init[i].name in b.grm && init[i].name in b'.grm && b.grm[init[i].name] == b'.grm[init[i].name]
    {
      assert init[i] == b.es[i];
    }
    FlatFrame(init, b.grm, b'.grm);
    LitThenAny(text);
    assert Capture(n, b'.grm) == Capture(n, b.grm) + [Lit(text), Any];
    Concat3(FlatRoot(init, b.grm), Capture(n, b.grm), [Lit(text), Any]);
  }

  lemma LitThenAny(text: string)
    requires text != ""
    ensures LitIf(text) + [Any] == [Lit(text), Any]
  {
  }

  lemma FreshOk(b: Built, text: string, n: string, meta: string, b': Built)
    requires BuiltOk(b) && n !in b.grm && n != "root"
    requires var es := if text != "" then b.es + [Token(text)] else b.es;
      b' == if n == "_" then b.(es := es + [AnyText]) else Built(es + [Name(n)], b.grm[n := Production(AnyText, meta)], n)
    ensures BuiltOk(b') && Run(b') == (if n == "_" then None else Some(n))
    ensures b'.grm.Keys == if n == "_" then b.grm.Keys else b.grm.Keys + {n}
  {
  }

  /** A hole with a new name, or without one. */
  lemma AddFresh(b: Built, text: string, first: bool, n: string, meta: string, b': Built)
    requires BuiltOk(b) && AddHole(b, text, first, n, meta) == Ok(b') && n !in b.grm && n != "root"
    ensures BuiltOk(b') && Run(b') == (if n == "_" then None else Some(n))
    ensures b'.grm.Keys == if n == "_" then b.grm.Keys else b.grm.Keys + {n}
    ensures Prefix(b') == Prefix(b) + (CloseIf(Run(b)) + LitIf(text) + (if n == "_" then [Any] else [Open(n), Any]))
  {
    AddedFresh(b, text, first, n, meta, b');
    FreshOk(b, text, n, meta, b');
    hide AddHole;
    if n == "_" {
      FreshAny(b, text, b');
    } else {
      FreshName(b, text, n, meta, b');
    }
  }

  lemma FreshAny(b: Built, text: string, b': Built)
    requires b' == b.(es := (if text != "" then b.es + [Token(text)] else b.es) + [AnyText])
    ensures Prefix(b') == Prefix(b) + (CloseIf(Run(b)) + LitIf(text) + [Any])
  {
    AddText(b, text);
    var es := if text != "" then b.es + [Token(text)] else b.es;
    FlatSnoc(es, AnyText, b.grm);
    hide Prefix, FlatRoot;
    assert b'.es[|b'.es| - 1] == AnyText;
    PrefixCloses(b');
    var more := CloseIf(Run(b)) + LitIf(text);
    assert Prefix(b) + more + [Any] == Prefix(b) + (more + [Any]);
    assert Prefix(b') + [] == Prefix(b');
  }

  lemma FreshName(b: Built, text: string, n: string, meta: string, b': Built)
    requires BuiltOk(b) && n !in b.grm
    requires b' == Built((if text != "" then b.es + [Token(text)] else b.es) + [Name(n)], b.grm[n := Production(AnyText, meta)], n)
    ensures Prefix(b') == Prefix(b) + (CloseIf(Run(b)) + LitIf(text) + [Open(n), Any])
  {
    var es := if text != "" then b.es + [Token(text)] else b.es;
    FreshFrame(b, es, b'.grm);
    AddText(b, text);
    PrefixOpen(es, n, b'.grm, n);
    hide FlatRoot, BuiltOk, Prefix;
    var more := CloseIf(Run(b)) + LitIf(text);
    assert Capture(n, b'.grm) == [Open(n), Any];
    assert Prefix(b) + more + [Open(n), Any] == Prefix(b) + (more + [Open(n), Any]);
  }

  lemma PrefixOpen(es: seq<Expr>, n: string, grm: Grammar, last: string)
    ensures Prefix(Built(es + [Name(n)], grm, last)) == FlatRoot(es, grm) + Capture(n, grm)
  {
    var all := es + [Name(n)];
    assert all[..|all| - 1] == es && all[|all| - 1] == Name(n);
  }

  lemma FreshFrame(b: Built, es: seq<Expr>, grm: Grammar)
    requires BuiltOk(b) && b.es <= es && |es| <= |b.es| + 1 && (|es| > |b.es| ==> es[|b.es|].Token?)
    requires forall m :: m in b.grm ==> m in grm && grm[m] == b.grm[m]
    ensures FlatRoot(es, b.grm) == FlatRoot(es, grm)
  {
    forall i | 0 <= i < |es| && es[i].Name?
      ensures es[i].name in b.grm && b.grm[es[i].name] == grm[es[i].name]
    {
      assert es[i] == b.es[i];
    }
    FlatFrame(es, b.grm, grm);
  }

  // ---------------------------------------------------------------- the grammar means its pieces

  ghost predicate Starts(first: bool, b: Built)
  {
    first ==> b.grm == map[]
  }

  lemma FinishMeans(b: Built, text: string)
    requires BuiltOk(b)
    ensures Elements(Finish(b, text)) == Prefix(b) + Meaning([], text, Run(b))
  {
    var es := if text != "" then b.es + [Token(text)] else b.es;
    FreshFrame(b, es, Finish(b, text));
    AddText(b, text);
  }

  lemma {:induction false} AssembleMeans(ps: seq<Piece>, text: string, first: bool, b: Built, g: Grammar)
    requires BuiltOk(b) && NoRoot(ps) && Starts(first, b)
    requires Assemble(ps, text, first, b) == Ok(g)
    requires NoResume(ps, Run(b), b.grm.Keys)
    ensures "root" in g && g["root"].expr.Sequence?
    ensures Elements(g) == Prefix(b) + Meaning(ps, text, Run(b))
    decreases |ps|
  {
    hide BuiltOk, Prefix, Run, AddHole, Elements;
    if ps == [] {
      FinishMeans(b, text);
      FinishRoot(b, text);
    } else {
      assert forall i :: 0 <= i < |ps[1..]| ==> ps[1..][i] == ps[i + 1];
      match ps[0]
      case Text(t) =>
        AssembleMeans(ps[1..], text + t, false, b, g);
      case Hole(n, m) =>
        var meta := if m.Some? then m.value else "";
        var b' := AddHole(b, text, first, n, meta).value;
        if n in b.grm {
          AddAgain(b, text, n, meta, b');
          NameIsReal(b, n);
          assert b.grm.Keys + {n} == b.grm.Keys;
          AssembleMeans(ps[1..], "", false, b', g);
          Concat3(Prefix(b), LitIf(text) + [Any], Meaning(ps[1..], "", Run(b')));
        } else {
          AddFresh(b, text, first, n, meta, b');
          RunKnown(b);
          AssembleMeans(ps[1..], "", false, b', g);
          Concat3(Prefix(b), CloseIf(Run(b)) + LitIf(text) + (if n == "_" then [Any] else [Open(n), Any]), Meaning(ps[1..], "", Run(b')));
        }
    }
  }

  lemma FinishRoot(b: Built, text: string)
    ensures var g := Finish(b, text); "root" in g && g["root"].expr.Sequence?
  {
  }

  lemma NameIsReal(b: Built, n: string)
    requires BuiltOk(b) && n in b.grm
    ensures n != "_"
  {
  }

  lemma RunKnown(b: Built)
    requires BuiltOk(b)
    ensures Run(b).Some? ==> Run(b).value in b.grm
  {
  }

  lemma Concat3(a: seq<Elem>, b: seq<Elem>, c: seq<Elem>)
    ensures (a + b) + c == a + (b + c)
  {
  }

  // ---------------------------------------------------------------- exactly when

  function Opens(es: seq<Elem>): nat
  {
    if es == [] then 0 else Opens(es[..|es| - 1]) + (if es[|es| - 1].Open? then 1 else 0)
  }

  function Names(es: seq<Expr>): nat
  {
    if es == [] then 0 else Names(es[..|es| - 1]) + (if es[|es| - 1].Name? then 1 else 0)
  }

  lemma {:induction false} OpensAdd(a: seq<Elem>, b: seq<Elem>)
    ensures Opens(a + b) == Opens(a) + Opens(b)
    decreases |b|
  {
    if b == [] {
      assert a + b == a;
    } else {
      assert (a + b)[..|a + b| - 1] == a + b[..|b| - 1];
      OpensAdd(a, b[..|b| - 1]);
    }
  }

  lemma OpensFew(text: string, run: Option<string>, n: string)
    ensures Opens(LitIf(text)) == 0 && Opens(CloseIf(run)) == 0 && Opens([Any]) == 0 && Opens([Open(n), Any]) == 1
  {
    assert [Open(n), Any][..1] == [Open(n)] && [Open(n)][..0] == [] && [Any][..0] == [] && [Close][..0] == [] && [Lit(text)][..0] == [];
  }

  lemma {:induction false} BodyOpens(es: seq<Expr>)
    ensures Opens(FlatBody(es)) == 0
  {
    if es != [] {
      var e := es[|es| - 1];
      BodyOpens(es[..|es| - 1]);
      assert BodyElem(e) == [] || BodyElem(e)[..0] == [];
      OpensAdd(FlatBody(es[..|es| - 1]), BodyElem(e));
    }
  }

  lemma CaptureOpens(n: string, grm: Grammar)
    ensures Opens(Capture(n, grm) + [Close]) == 1
  {
    var body := if n in grm then Body(grm[n].expr) else [];
    if n in grm && grm[n].expr.Sequence? {
      BodyOpens(grm[n].expr.es);
    } else {
      assert body == [] || body[..0] == [];
    }
    assert [Open(n)][..0] == [] && [Close][..0] == [];
    OpensAdd([Open(n)], body);
    OpensAdd([Open(n)] + body, [Close]);
  }

  lemma {:induction false} FlatOpens(es: seq<Expr>, grm: Grammar)
    ensures Opens(FlatRoot(es, grm)) == Names(es)
  {
    if es != [] {
      hide Opens, RootElem;
      var e := es[|es| - 1];
      FlatOpens(es[..|es| - 1], grm);
      OpensAdd(FlatRoot(es[..|es| - 1], grm), RootElem(e, grm));
      RootOpens(e, grm);
    }
  }

  lemma RootOpens(e: Expr, grm: Grammar)
    ensures Opens(RootElem(e, grm)) == if e.Name? then 1 else 0
  {
    if e.Name? {
      hide Capture;
      CaptureOpens(e.name, grm);
    } else {
      assert BodyElem(e) == [] || BodyElem(e)[..0] == [];
    }
  }

  lemma NamesSnoc(es: seq<Expr>, e: Expr)
    ensures Names(es + [e]) == Names(es) + (if e.Name? then 1 else 0)
  {
    assert (es + [e])[..|es|] == es;
  }

  /** Opening a run costs at most one start, and only when the name comes straight again. */
  lemma {:induction false} RunSaves(ps: seq<Piece>, text: string, n: string, seen: set<string>)
    requires n != "_"
    ensures Opens(Meaning(ps, text, Some(n))) + 1 >= Opens(Meaning(ps, text, None))
    ensures Opens(Meaning(ps, text, Some(n))) + 1 == Opens(Meaning(ps, text, None)) && n in seen ==> !NoResume(ps, None, seen)
    ensures Opens(Meaning(ps, text, Some(n))) <= Opens(Meaning(ps, text, None))
    decreases |ps|
  {
    OpensFew(text, None, n);
    OpensFew(text, Some(n), n);
    OpensAdd(CloseIf(None), LitIf(text));
    OpensAdd(CloseIf(Some(n)), LitIf(text));
    if ps != [] {
      match ps[0]
      case Text(t) =>
        RunSaves(ps[1..], text + t, n, seen);
      case Hole(m, _) =>
        if m == n {
          OpensAdd(LitIf(text) + [Any], Meaning(ps[1..], "", Some(n)));
          OpensAdd(LitIf(text), [Any]);
          OpensAdd(CloseIf(None) + LitIf(text) + [Open(n), Any], Meaning(ps[1..], "", Some(n)));
          OpensAdd(CloseIf(None) + LitIf(text), [Open(n), Any]);
        } else {
          var more := if m == "_" then [Any] else [Open(m), Any];
          var rest := Meaning(ps[1..], "", if m == "_" then None else Some(m));
          OpensAdd(CloseIf(None) + LitIf(text) + more, rest);
          OpensAdd(CloseIf(Some(n)) + LitIf(text) + more, rest);
          OpensAdd(CloseIf(None) + LitIf(text), more);
          OpensAdd(CloseIf(Some(n)) + LitIf(text), more);
        }
    }
  }

  /** A hole adds a name to the root sequence exactly when its name is new. */
  lemma HoleNames(b: Built, text: string, first: bool, n: string, meta: string, b': Built)
    requires BuiltOk(b) && Starts(first, b) && AddHole(b, text, first, n, meta) == Ok(b') && n != "root"
    ensures BuiltOk(b') && !first ==> text != ""
    ensures n in b.grm ==> Names(b'.es) == Names(b.es) && Run(b') == Run(b) && b'.grm.Keys == b.grm.Keys && (Run(b).Some? ==> Run(b) == Some(n))
    ensures n !in b.grm ==> Names(b'.es) == Names(b.es) + (if n == "_" then 0 else 1)
    ensures n !in b.grm ==> Run(b') == (if n == "_" then None else Some(n)) && b'.grm.Keys == if n == "_" then b.grm.Keys else b.grm.Keys + {n}
    ensures BuiltOk(b')
  {
    if n in b.grm {
      AddedAgain(b, text, n, meta, b');
    } else {
      AddedFresh(b, text, first, n, meta, b');
      FreshOk(b, text, n, meta, b');
      hide AddHole, BuiltOk;
      NamesSnoc(b.es, Token(text));
      var es := if text != "" then b.es + [Token(text)] else b.es;
      NamesSnoc(es, AnyText);
      NamesSnoc(es, Name(n));
    }
  }

  lemma MeaningOpens(ps: seq<Piece>, text: string, run: Option<string>, n: string, m: Option<string>, more: seq<Piece>)
    requires ps == [Hole(n, m)] + more
    ensures Opens(Meaning(ps, text, run)) ==
      if run == Some(n) then Opens(Meaning(more, "", run))
      else if n == "_" then Opens(Meaning(more, "", None))
      else 1 + Opens(Meaning(more, "", Some(n)))
  {
    assert ps[1..] == more;
    OpensFew(text, run, n);
    OpensAdd(LitIf(text), [Any]);
    OpensAdd(LitIf(text) + [Any], Meaning(more, "", run));
    OpensAdd(CloseIf(run), LitIf(text));
    OpensAdd(CloseIf(run) + LitIf(text), [Any]);
    OpensAdd(CloseIf(run) + LitIf(text), [Open(n), Any]);
    OpensAdd(CloseIf(run) + LitIf(text) + [Any], Meaning(more, "", None));
    OpensAdd(CloseIf(run) + LitIf(text) + [Open(n), Any], Meaning(more, "", Some(n)));
  }

  /** A name that comes again after another hole starts a capture in the pieces but not in the grammar. */
  lemma {:induction false} CountMeans(ps: seq<Piece>, text: string, first: bool, b: Built, g: Grammar)
    requires BuiltOk(b) && NoRoot(ps) && Starts(first, b)
    requires Assemble(ps, text, first, b) == Ok(g)
    ensures "root" in g && g["root"].expr.Sequence?
    ensures Names(g["root"].expr.es) <= Names(b.es) + Opens(Meaning(ps, text, Run(b)))
    ensures !NoResume(ps, Run(b), b.grm.Keys) ==> Names(g["root"].expr.es) < Names(b.es) + Opens(Meaning(ps, text, Run(b)))
    decreases |ps|
  {
    hide BuiltOk, Run, AddHole;
    if ps == [] {
      NamesSnoc(b.es, Token(text));
    } else {
      assert forall i :: 0 <= i < |ps[1..]| ==> ps[1..][i] == ps[i + 1];
      match ps[0]
      case Text(t) =>
        CountMeans(ps[1..], text + t, false, b, g);
      case Hole(n, m) =>
        var meta := if m.Some? then m.value else "";
        var b' := AddHole(b, text, first, n, meta).value;
        HoleNames(b, text, first, n, meta, b');
        CountMeans(ps[1..], "", false, b', g);
        assert ps == [Hole(n, m)] + ps[1..];
        MeaningOpens(ps, text, Run(b), n, m, ps[1..]);
        RunKnown(b);
        if n in b.grm {
          NameIsReal(b, n);
          assert b.grm.Keys + {n} == b.grm.Keys;
          RunSaves(ps[1..], "", n, b.grm.Keys);
        }
    }
  }

  lemma AssembledMeans(ps: seq<Piece>, g: Grammar)
    requires NoRoot(ps)
    requires Assemble(ps, "", true, Nothing) == Ok(g)
    ensures "root" in g && g["root"].expr.Sequence?
    ensures Elements(g) == Meaning(ps, "", None) <==> NoResume(ps, None, {})
  {
    NothingBuilt();
    CountMeans(ps, "", true, Nothing, g);
    FlatOpens(g["root"].expr.es, g);
    hide Assemble, BuiltOk, Names, Opens, Run, Prefix, Meaning, NoResume, FlatRoot, NoRoot;
    if NoResume(ps, None, {}) {
      AssembleMeans(ps, "", true, Nothing, g);
      assert [] + Meaning(ps, "", None) == Meaning(ps, "", None);
    }
  }

  /** The elements a pattern text asks for. */
  function Asked(pattern: string): seq<Elem> { Meaning(Read(pattern).ps, "", None) }

  /** The grammar of an accepted pattern has the elements of its pieces if and only if no name comes
      again after another hole. */
  lemma GrammarMeansPieces(pattern: string, g: Grammar)
    requires Compiled(pattern) == Ok(g) && NoRoot(Read(pattern).ps)
    ensures "root" in g && g["root"].expr.Sequence?
    ensures Elements(g) == Asked(pattern) <==> NoResume(Read(pattern).ps, None, {})
  {
    PatternAssembles(pattern);
    AssembledMeans(Read(pattern).ps, g);
  }

  /** The pattern "<a>,<_>;<a>" is accepted, and takes its last literal into the first capture. */
  lemma ResumedName()
    ensures Compiled("<a>,<_>;<a>").Ok?
    ensures Elements(Compiled("<a>,<_>;<a>").value) != Asked("<a>,<_>;<a>")
  {
    var p := "<a>,<_>;<a>";
    var a, x := Hole("a", None), Hole("_", None);
    var ps := [a, Text(","), x, Text(";"), a];
    ResumedPieces();
    ReadExact(p, ps);
    ResumedAssembles();
    PatternAssembles(p);
    ResumedIs();
    assert NoRoot(ps);
    hide *;
    GrammarMeansPieces(p, Compiled(p).value);
  }

  lemma ResumedIs()
    ensures !NoResume([Hole("a", None), Text(","), Hole("_", None), Text(";"), Hole("a", None)], None, {})
  {
    var a, c, x, s := Hole("a", None), Text(","), Hole("_", None), Text(";");
    Tails(a, c, x, s);
    assert !NoResume([a], None, {"a"});
    assert !NoResume([s, a], None, {"a"});
    assert !NoResume([x, s, a], Some("a"), {"a"});
    assert !NoResume([c, x, s, a], Some("a"), {"a"});
    assert {} + {"a"} == {"a"};
  }

  lemma Tails(a: Piece, c: Piece, x: Piece, s: Piece)
    ensures [a, c, x, s, a][1..] == [c, x, s, a] && [c, x, s, a][1..] == [x, s, a]
    ensures [x, s, a][1..] == [s, a] && [s, a][1..] == [a] && [a][1..] == []
  {
  }

  lemma ResumedPieces()
    ensures var ps := [Hole("a", None), Text(","), Hole("_", None), Text(";"), Hole("a", None)];
      PiecesOk(ps) && Render(ps) == "<a>,<_>;<a>"
  {
    var a, c, x, s := Hole("a", None), Text(","), Hole("_", None), Text(";");
    assert HoleOk("a", None) && HoleOk("_", None) && TextOk(",", true) && TextOk(";", true);
    hide HoleOk, TextOk, Render, RenderPiece;
    RenderBare("a");
    RenderBare("_");
    RenderedText(",");
    RenderedText(";");
    RenderNone();
    RenderCons(a, []);
    RenderCons(s, [a]);
    RenderCons(x, [s, a]);
    RenderCons(c, [x, s, a]);
    RenderCons(a, [c, x, s, a]);
    assert [a] + [] == [a] && [s] + [a] == [s, a] && [x] + [s, a] == [x, s, a];
    assert [c] + [x, s, a] == [c, x, s, a] && [a] + [c, x, s, a] == [a, c, x, s, a];
    ResumedSpelled();
  }

  lemma ResumedSpelled()
    ensures
      var a, x := "<" + ("a" + ">"), "<" + ("_" + ">");
      a + ("," + (x + (";" + (a + "")))) == "<a>,<_>;<a>"
  {
  }

  lemma ResumedAssembles()
    ensures Assemble([Hole("a", None), Text(","), Hole("_", None), Text(";"), Hole("a", None)], "", true, Nothing).Ok?
  {
    var a, c, x, s := Hole("a", None), Text(","), Hole("_", None), Text(";");
    Tails(a, c, x, s);
    assert Identifier("a") && Identifier("_");
    var b := AddHole(Nothing, "", true, "a", "").value;
    var b' := AddHole(b, ",", false, "_", "").value;
    assert "a" in b'.grm && b'.last == "a";
    var b'' := AddHole(b', ";", false, "a", "").value;
    hide AddHole, Finish;
    assert Assemble([a], ";", false, b').Ok?;
    assert "" + ";" == ";";
    assert Assemble([s, a], "", false, b').Ok?;
    assert Assemble([x, s, a], ",", false, b).Ok?;
    assert "" + "," == ",";
    assert Assemble([c, x, s, a], "", false, b).Ok?;
  }

  lemma NothingBuilt()
    ensures BuiltOk(Nothing) && Run(Nothing) == None && Prefix(Nothing) == [] && Names(Nothing.es) == 0 && Nothing.grm.Keys == {}
  {
  }

  // ---------------------------------------------------------------- shapes

  ghost predicate EndsInHole(ps: seq<Piece>)
  {
    ps != [] && ps[|ps| - 1].Hole?
  }

  /** Behind a hole, the pieces mean literals and stretches in turn, and a stretch last. */
  lemma {:induction false} MeaningAfterHole(ps: seq<Piece>, text: string, run: Option<string>, b: Built, g: Grammar)
    requires Assemble(ps, text, false, b) == Ok(g)
    requires EndsInHole(ps) || (ps == [] && text == "")
    ensures AfterAny(Meaning(ps, text, run))
    decreases |ps|
  {
    if ps == [] {
      assert Meaning(ps, text, run) == CloseIf(run);
    } else {
      match ps[0]
      case Text(t) =>
        MeaningAfterHole(ps[1..], text + t, run, b, g);
      case Hole(n, m) =>
        var added := AddHole(b, text, false, n, if m.Some? then m.value else "");
        assert text != "";
        var run' := if run == Some(n) then run else if n == "_" then None else Some(n);
        MeaningAfterHole(ps[1..], "", run', added.value, g);
        hide AddHole, Assemble;
        var rest := Meaning(ps[1..], "", run');
        if run == Some(n) {
          StretchAfter([Lit(text)], [Any], rest);
          assert LitIf(text) + [Any] + rest == [Lit(text)] + [Any] + rest;
        } else {
          var head := if n == "_" then [Any] else [Open(n), Any];
          StretchAfter(CloseIf(run) + [Lit(text)], head, rest);
        }
    }
  }

  lemma StretchAfter(pre: seq<Elem>, head: seq<Elem>, rest: seq<Elem>)
    requires AfterAny(rest) && (head == [Any] || (|head| == 2 && head[0].Open? && head[1] == Any))
    requires (|pre| == 1 && pre[0].Lit? && pre[0].t != "") || (|pre| == 2 && pre[0].Close? && pre[1].Lit? && pre[1].t != "")
    ensures AfterAny(pre + head + rest)
  {
    StretchBefore(head, rest);
    var all := pre + head + rest;
    if |pre| == 1 {
      assert all[1..] == head + rest;
    } else {
      assert all[1..][1..] == head + rest && all[1..][0] == pre[1];
    }
  }

  lemma StretchBefore(head: seq<Elem>, rest: seq<Elem>)
    requires AfterAny(rest) && (head == [Any] || (|head| == 2 && head[0].Open? && head[1] == Any))
    ensures BeforeAny(head + rest)
  {
    var all := head + rest;
    if |head| == 1 {
      assert all[1..] == rest;
    } else {
      assert all[1..][1..] == rest && all[1..][0] == Any;
    }
  }

  lemma FirstHole(ps: seq<Piece>, text: string, first: bool, g: Grammar) returns (rest: seq<Elem>)
    requires ps != [] && ps[0].Hole? && EndsInHole(ps)
    requires Assemble(ps, text, first, Nothing) == Ok(g)
    ensures Meaning(ps, text, None) == LitIf(text) + rest && BeforeAny(rest)
  {
    var n, m := ps[0].name, ps[0].meta;
    var b' := AddHole(Nothing, text, first, n, if m.Some? then m.value else "").value;
    var run := if n == "_" then None else Some(n);
    MeaningAfterHole(ps[1..], "", run, b', g);
    hide AddHole, Assemble, AfterAny, BeforeAny;
    var head := if n == "_" then [Any] else [Open(n), Any];
    rest := head + Meaning(ps[1..], "", run);
    StretchBefore(head, Meaning(ps[1..], "", run));
    assert CloseIf(None) + LitIf(text) == LitIf(text);
    Concat3(LitIf(text), head, Meaning(ps[1..], "", run));
  }

  /** A compiled pattern that ends in a hole ends in a stretch. */
  lemma MeaningEndsInStretch(pattern: string, g: Grammar)
    requires Compiled(pattern) == Ok(g) && EndsInHole(Read(pattern).ps)
    ensures EndsInStretch(Asked(pattern))
  {
    PatternAssembles(pattern);
    ReadWhole(pattern);
    var ps := Read(pattern).ps;
    hide Read;
    if ps[0].Text? {
      var t := ps[0].t;
      assert "" + t == t && ps[1..][0] == ps[1];
      var rest := FirstHole(ps[1..], t, false, g);
      assert Meaning(ps, "", None) == [Lit(t)] + rest;
      hide BeforeAny, Meaning, Assemble;
      assert ([Lit(t)] + rest)[1..] == rest;
    } else {
      var rest := FirstHole(ps, "", true, g);
      assert LitIf("") + rest == rest;
    }
  }
}
