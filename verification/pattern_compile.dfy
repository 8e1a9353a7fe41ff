/** compileExpr of internal/mdt/compile.go, for the expressions a line pattern compiles to: tokens,
    free text, names and sequences.

    Instructions live in one memory and refer to each other by address; address 0 is the instruction
    that ends every match, and -1 is no instruction. */
module PatternCompile {
  import opened PatternSplit
  import opened PatternGrammar

  datatype Opcode = OpInvalid | OpRange | OpSkip | OpScan | OpSplit | OpSave | OpEnd | OpTerm

  /** lo and hi are the one rune range of an OpRange; st is a literal or a capture name. */
  datatype Instr = Instr(op: Opcode, lo: int, hi: int, st: string, x: int, y: int)

  const MaxRune: int := 0x7fff_ffff

  function One(op: Opcode, st: string, x: int): Instr { Instr(op, 0, 0, st, x, -1) }

  function RangeOf(c: char, x: int): Instr { Instr(OpRange, c as int, c as int, "", x, -1) }

  const MatchEnd: Instr := One(OpTerm, "", -1)

  predicate SingleChar(i: Instr)
  {
    i.op == OpRange && i.lo == i.hi
  }

  // ---------------------------------------------------------------- linked programs

  predicate Does(i: Instr, o: Op)
  {
    match o
    case Range(c) => i.op == OpRange && i.lo == i.hi == c as int
    case Skip(st) => i.op == OpSkip && i.st == st
    case Scan(st) => i.op == OpScan && i.st == st
    case Save(n) => i.op == OpSave && i.st == n
    case Term => i.op == OpTerm
    case End => i.op == OpEnd
    case Stuck => i.op == OpSplit
  }

  /** The address an instruction list starts at. */
  function Head(path: seq<int>): int { if path == [] then 0 else path[0] }

  /** The instructions at the addresses of path do ops, one after the other, and then end the match. */
  ghost predicate Linked(mem: seq<Instr>, path: seq<int>, ops: seq<Op>)
  {
    && |path| == |ops|
    && |mem| > 0 && mem[0] == MatchEnd
    && (forall i :: 0 <= i < |path| ==> 0 < path[i] < |mem| && Does(mem[path[i]], ops[i]))
    && (forall i :: 0 <= i < |path| ==> mem[path[i]].x == Head(path[i + 1..]))
    && (forall i, j :: 0 <= i < j < |path| ==> path[i] != path[j])
  }

  lemma LinkedTail(mem: seq<Instr>, path: seq<int>, ops: seq<Op>, k: nat)
    requires Linked(mem, path, ops) && k <= |path|
    ensures Linked(mem, path[k..], ops[k..])
  {
    forall i | 0 <= i < |path[k..]|
      ensures mem[path[k..][i]].x == Head(path[k..][i + 1..])
    {
      assert path[k..][i + 1..] == path[k + i + 1..];
    }
  }

  /** One instruction before a linked program. */
  lemma LinkedCons(mem: seq<Instr>, a: int, o: Op, path: seq<int>, ops: seq<Op>)
    requires Linked(mem, path, ops)
    requires 0 < a < |mem| && a !in path && Does(mem[a], o) && mem[a].x == Head(path)
    ensures Linked(mem, [a] + path, [o] + ops)
  {
    var p, os := [a] + path, [o] + ops;
    assert p[1..] == path;
    forall i | 0 <= i < |p|
      ensures 0 < p[i] < |mem| && Does(mem[p[i]], os[i]) && mem[p[i]].x == Head(p[i + 1..])
    {
      if i > 0 {
        var k := i - 1;
        assert p[i] == path[k] && os[i] == ops[k] && p[i + 1..] == path[k + 1..];
      }
    }
    forall i, j | 0 <= i < j < |p|
      ensures p[i] != p[j]
    {
      assert p[j] == path[j - 1];
    }
  }

  /** Writes elsewhere leave a linked program alone. */
  lemma LinkedFrame(mem: seq<Instr>, mem': seq<Instr>, path: seq<int>, ops: seq<Op>)
    requires Linked(mem, path, ops) && |mem| <= |mem'| && mem'[0] == mem[0]
    requires forall i :: 0 <= i < |path| ==> path[i] < |mem| && mem'[path[i]] == mem[path[i]]
    ensures Linked(mem', path, ops)
  {
  }

  /** A new instruction before a linked program. */
  lemma LinkedNew(mem: seq<Instr>, i: Instr, o: Op, path: seq<int>, ops: seq<Op>)
    requires Linked(mem, path, ops) && Does(i, o) && i.x == Head(path)
    ensures Linked(mem + [i], [|mem|] + path, [o] + ops)
  {
    LinkedFrame(mem, mem + [i], path, ops);
    LinkedCons(mem + [i], |mem|, o, path, ops);
  }

  /** An instruction written before a linked program. */
  lemma LinkedSet(mem: seq<Instr>, pc: int, i: Instr, o: Op, path: seq<int>, ops: seq<Op>)
    requires Linked(mem, path, ops) && Does(i, o) && i.x == Head(path)
    requires 0 < pc < |mem| && pc !in path
    ensures Linked(mem[pc := i], [pc] + path, [o] + ops)
  {
    LinkedFrame(mem, mem[pc := i], path, ops);
    LinkedCons(mem[pc := i], pc, o, path, ops);
  }

  lemma LinkedBasics(mem: seq<Instr>, path: seq<int>, ops: seq<Op>)
    requires Linked(mem, path, ops)
    ensures |mem| > 0 && mem[0] == MatchEnd && |path| == |ops| && 0 !in path
    ensures forall a :: a in path ==> 0 < a < |mem|
  {
  }

  lemma LinkedApart(mem: seq<Instr>, path: seq<int>, ops: seq<Op>)
    requires Linked(mem, path, ops)
    ensures forall i, j :: 0 <= i < j < |path| ==> path[i] != path[j]
  {
  }

  lemma RangesCons(t: string, i: nat, rest: seq<Op>)
    requires i < |t|
    ensures Ranges(t[i..]) + rest == [Range(t[i])] + (Ranges(t[i + 1..]) + rest)
  {
  }

  lemma RangesEmpty(t: string, rest: seq<Op>)
    ensures Ranges(t[|t|..]) + rest == rest && t[0..] == t
  {
  }

  // ---------------------------------------------------------------- shapes that compile without a split

  predicate NextOk(e: Elem, f: Elem)
  {
    match e
    case Lit(_) => f.Any? || f.Open?
    case Any => f.Lit? || f.Close?
    case Open(_) => f.Any? || f.Open?
    case Close => f.Lit? || f.Close?
  }

  /** Literals are not empty and stand apart, and free text is followed by a literal or the end. */
  predicate Compilable(es: seq<Elem>)
  {
    && (forall i :: 0 <= i < |es| && es[i].Lit? ==> es[i].t != "")
    && (forall i :: 0 < i < |es| ==> NextOk(es[i - 1], es[i]))
  }

  lemma CompilableTail(es: seq<Elem>, k: nat)
    requires Compilable(es) && k <= |es|
    ensures Compilable(es[k..])
  {
    forall i | 0 < i < |es[k..]|
      ensures NextOk(es[k..][i - 1], es[k..][i])
    {
      assert NextOk(es[k + i - 1], es[k + i]);
    }
  }

  /** What follows free text: the ends of its captures, then a literal or nothing. */
  lemma AfterText(es: seq<Elem>)
    requires Compilable([Any] + es)
    ensures var j := Closes(es); j == |es| || es[j].Lit?
    ensures forall i :: 0 <= i < Closes(es) ==> es[i].Close?
  {
    var all := [Any] + es;
    var j := Closes(es);
    ClosesAreCloses(es);
    if j < |es| {
      assert NextOk(all[j], all[j + 1]);
    }
  }

  lemma {:induction false} ClosesAreCloses(es: seq<Elem>)
    ensures forall i :: 0 <= i < Closes(es) ==> es[i].Close?
  {
    if es != [] && es[0].Close? {
      ClosesAreCloses(es[1..]);
      forall i | 0 <= i < Closes(es)
        ensures es[i].Close?
      {
        if i > 0 {
          assert es[1..][i - 1] == es[i];
        }
      }
    }
  }

  /** The instructions behind a literal do not start with a character. */
  lemma AfterLiteral(es: seq<Elem>, k: nat)
    requires Compilable(es) && 0 < k <= |es| && es[k - 1].Lit?
    ensures Ops(es[k..]) == [] || !Ops(es[k..])[0].Range?
  {
    if k < |es| {
      assert NextOk(es[k - 1], es[k]);
    }
  }

  // ---------------------------------------------------------------- expressions and their elements

  /** The elements of an expression, following names d levels deep. */
  function ElemsOf(e: Expr, grm: Grammar, d: nat): seq<Elem>
    decreases d, e, 1
  {
    match e
    case Token(t) => [Lit(t)]
    case AnyText => [Any]
    case Name(n) => if d == 0 || n !in grm then [] else [Open(n)] + ElemsOf(grm[n].expr, grm, d - 1) + [Close]
    case Sequence(es) => ElemsSeq(es, grm, d)
  }

  function ElemsSeq(es: seq<Expr>, grm: Grammar, d: nat): seq<Elem>
    decreases d, es, 0
  {
    if es == [] then [] else ElemsOf(es[0], grm, d) + ElemsSeq(es[1..], grm, d)
  }

  /** The names in the order the compiler meets them. */
  function NamesOf(e: Expr, grm: Grammar, d: nat): seq<string>
    decreases d, e, 1
  {
    match e
    case Name(n) => [n] + (if d == 0 || n !in grm then [] else NamesOf(grm[n].expr, grm, d - 1))
    case Sequence(es) => NamesSeq(es, grm, d)
    case _ => []
  }

  function NamesSeq(es: seq<Expr>, grm: Grammar, d: nat): seq<string>
    decreases d, es, 0
  {
    if es == [] then [] else NamesOf(es[0], grm, d) + NamesSeq(es[1..], grm, d)
  }

  /** Names are defined no more than d deep, sequences and tokens are not empty. */
  ghost predicate Sound(e: Expr, grm: Grammar, d: nat)
    decreases d, e, 1
  {
    match e
    case Token(t) => t != ""
    case AnyText => true
    case Name(n) => d > 0 && n in grm && Sound(grm[n].expr, grm, d - 1)
    case Sequence(es) => es != [] && SoundSeq(es, grm, d)
  }

  ghost predicate SoundSeq(es: seq<Expr>, grm: Grammar, d: nat)
    decreases d, es, 0
  {
    es == [] || (Sound(es[0], grm, d) && SoundSeq(es[1..], grm, d))
  }

  ghost predicate Distinct(ns: seq<string>)
  {
    forall i, j :: 0 <= i < j < |ns| ==> ns[i] != ns[j]
  }

  lemma DistinctParts(a: seq<string>, b: seq<string>)
    requires Distinct(a + b)
    ensures Distinct(a) && Distinct(b) && forall n :: n in a ==> n !in b
  {
    var all := a + b;
    forall i, j | 0 <= i < j < |a|
      ensures a[i] != a[j]
    {
      assert all[i] != all[j];
    }
    forall i, j | 0 <= i < j < |b|
      ensures b[i] != b[j]
    {
      assert all[|a| + i] != all[|a| + j];
    }
    forall i, j | 0 <= i < |a| && 0 <= j < |b|
      ensures a[i] != b[j]
    {
      assert all[i] != all[|a| + j];
    }
  }

  // ---------------------------------------------------------------- the compiler

  /** The compiled list starts at pc and uses pc, the old list and new memory only. */
  ghost predicate Reaches(pc: int, path: seq<int>, limit: nat, path': seq<int>)
  {
    path' != [] && path'[0] == pc && forall a :: a in path' ==> a == pc || a in path || a >= limit
  }

  /** Nothing else was written. */
  ghost predicate Kept(mem0: seq<Instr>, mem: seq<Instr>, pc: int, path: seq<int>)
  {
    |mem0| <= |mem| && forall a :: 0 <= a < |mem0| && a != pc && a !in path ==> mem[a] == mem0[a]
  }

  const Blank: Instr := One(OpInvalid, "", -1)

  ghost predicate Unseen(ns: seq<string>, cache: map<string, int>)
  {
    forall n :: n in ns ==> n !in cache
  }

  ghost function SetOf(ns: seq<string>): set<string>
  {
    set n | n in ns
  }

  /** The list and the memory grew out of path and mem0. */
  ghost predicate Within(mem0: seq<Instr>, mem: seq<Instr>, path: seq<int>, path': seq<int>)
  {
    && |mem0| <= |mem|
    && (forall a :: a in path' ==> a in path || a >= |mem0|)
    && (forall a :: 0 <= a < |mem0| && a !in path ==> mem[a] == mem0[a])
  }

  class Compiler {
    var mem: seq<Instr>
    var cache: map<string, int>
    const grm: Grammar

    constructor (g: Grammar)
      ensures mem == [MatchEnd] && cache == map[] && grm == g
    {
      mem := [MatchEnd];
      cache := map[];
      grm := g;
    }

    method New(i: Instr) returns (a: int)
      modifies this`mem
      ensures a == |old(mem)| && mem == old(mem) + [i]
    {
      a := |mem|;
      mem := mem + [i];
    }

    /** A token: one instruction a character, the last one first. */
    method CompileToken(t: string, pc: int, pn0: int, ghost rest: seq<Op>, ghost path: seq<int>) returns (ghost path': seq<int>)
      requires t != "" && Linked(mem, path, rest) && pn0 == Head(path)
      requires 0 < pc < |mem| && pc !in path
      modifies this`mem
      ensures Linked(mem, path', Ranges(t) + rest)
      ensures Reaches(pc, path, |old(mem)|, path') && Kept(old(mem), mem, pc, [])
    {
      hide Linked, Does, Ranges;
      var pn := pn0;
      path' := path;
      var i := |t| - 1;
      RangesEmpty(t, rest);
      while i > 0
        invariant 0 <= i < |t|
        invariant Linked(mem, path', Ranges(t[i + 1..]) + rest) && pn == Head(path')
        invariant old(mem) <= mem
        invariant forall a :: a in path' ==> a in path || a >= |old(mem)|
      {
        RangesCons(t, i, rest);
        RangeDoes(t[i], pn);
        LinkedNew(mem, RangeOf(t[i], pn), Range(t[i]), path', Ranges(t[i + 1..]) + rest);
        pn := New(RangeOf(t[i], pn));
        path' := [pn] + path';
        i := i - 1;
      }
      RangesCons(t, 0, rest);
      RangeDoes(t[0], pn);
      LinkedSet(mem, pc, RangeOf(t[0], pn), Range(t[0]), path', Ranges(t[1..]) + rest);
      mem := mem[pc := RangeOf(t[0], pn)];
      path' := [pc] + path';
    }

    /** Free text: with nothing but ends of captures behind it, it takes the rest of the line; a
        literal behind it is scanned for, and skipped after those ends. */
    method CompileAny(pc: int, pn0: int, ghost es: seq<Elem>, ghost path: seq<int>) returns (ghost path': seq<int>)
      requires Compilable([Any] + es) && Linked(mem, path, Ops(es)) && pn0 == Head(path)
      requires 0 < pc < |mem| && pc !in path
      modifies this`mem
      ensures Linked(mem, path', Ops([Any] + es))
      ensures Reaches(pc, path, |old(mem)|, path') && Kept(old(mem), mem, pc, path)
    {
      hide Linked, Does, Ops, Closes, Terms, Ranges, Compilable;
      ghost var ops, j := Ops(es), Closes(es);
      LinkedBasics(mem, path, ops);
      AfterText(es);
      Step(mem, path, ops, 0);
      assert path[0..] == path;
      var pn, pop, endpop := pn0, -1, -1;
      ghost var k := 0;
      while mem[pn].op == OpTerm
        invariant k <= j && k <= |path| && pn == Head(path[k..]) && 0 <= pn < |mem|
        invariant mem == old(mem)
        invariant pop == (if k > 0 then path[0] else -1) && (k > 0 ==> endpop == path[k - 1] && 0 < endpop < |mem|)
        decreases |path| - k
      {
        TermOps(mem, path, es, k);
        if pop == -1 {
          pop := pn;
        }
        endpop := pn;
        if pn == 0 {
          EndHere(mem, path, es, k, pc, pop);
          mem := mem[pc := One(OpEnd, "", pop)];
          path' := [pc] + path;
          return;
        }
        pn := mem[pn].x;
        k := k + 1;
      }
      TermsDone(mem, path, es, k);
      ghost var t := es[j].t;
      var tk := "";
      ghost var m := 0;
      while pn != -1 && SingleChar(mem[pn])
        invariant m <= |t| && tk == t[..m] && j + m <= |path| && pn == Head(path[j + m..]) && 0 <= pn < |mem|
        invariant mem == old(mem)
        decreases |path| - m
      {
        CharOps(mem, path, es, m);
        tk := tk + [mem[pn].lo as char];
        pn := mem[pn].x;
        m := m + 1;
      }
      CharsDone(mem, path, es, m);
      assert tk == t;
      var px := New(One(OpSkip, tk, pn));
      ghost var skip := px;
      if pop != -1 {
        mem := mem[endpop := mem[endpop].(x := px)];
        px := pop;
      }
      mem := mem[pc := One(OpScan, tk, px)];
      LinkScan(old(mem), mem, path, es, j, t, pc, skip);
      path' := [pc] + (path[..j] + ([skip] + path[j + |t|..]));
    }

    function Cached(n: string): int
      reads this
    {
      if n in cache then cache[n] else -1
    }

    /** Any expression, in front of the program for rest. */
    method CompileExpr(e: Expr, pc: int, pn0: int, ghost d: nat, ghost rest: seq<Elem>, ghost path: seq<int>)
      returns (ghost path': seq<int>)
      requires Sound(e, grm, d) && Distinct(NamesOf(e, grm, d)) && Unseen(NamesOf(e, grm, d), cache)
      requires Compilable(ElemsOf(e, grm, d) + rest)
      requires Linked(mem, path, Ops(rest)) && pn0 == Head(path)
      requires 0 < pc < |mem| && pc !in path
      modifies this
      ensures Linked(mem, path', Ops(ElemsOf(e, grm, d) + rest))
      ensures Reaches(pc, path, |old(mem)|, path') && Kept(old(mem), mem, pc, path)
      ensures cache.Keys == old(cache.Keys) + SetOf(NamesOf(e, grm, d))
      decreases d, e, 1
    {
      hide Linked, Ops, Compilable, Distinct, ElemsSeq, NamesSeq, SoundSeq;
      match e
      case Token(t) =>
        OpsToken(t, rest);
        path' := CompileToken(t, pc, pn0, Ops(rest), path);
      case AnyText =>
        path' := CompileAny(pc, pn0, rest, path);
      case Name(n) =>
        path' := CompileName(n, pc, pn0, d, rest, path);
      case Sequence(es) =>
        path' := CompileSequence(es, pc, pn0, d, rest, path);
    }

    /** A name: the start of its capture, its body and the end of the capture. */
    method CompileName(n: string, pc: int, pn0: int, ghost d: nat, ghost rest: seq<Elem>, ghost path: seq<int>)
      returns (ghost path': seq<int>)
      requires Sound(Name(n), grm, d) && Distinct(NamesOf(Name(n), grm, d)) && Unseen(NamesOf(Name(n), grm, d), cache)
      requires Compilable(ElemsOf(Name(n), grm, d) + rest)
      requires Linked(mem, path, Ops(rest)) && pn0 == Head(path)
      requires 0 < pc < |mem| && pc !in path
      modifies this
      ensures Linked(mem, path', Ops(ElemsOf(Name(n), grm, d) + rest))
      ensures Reaches(pc, path, |old(mem)|, path') && Kept(old(mem), mem, pc, path)
      ensures cache.Keys == old(cache.Keys) + SetOf(NamesOf(Name(n), grm, d))
      decreases d, Name(n), 0
    {
      hide Linked, Ops, Compilable, Distinct, ElemsOf, ElemsSeq, NamesSeq, SoundSeq;
      var pm := Cached(n);
      if pm == -1 {
        NameParts(n, grm, d, rest, cache);
        ghost var mem0 := mem;
        pm := New(Blank);
        cache := cache[n := pm];
        var pop := New(One(OpTerm, "", pn0));
        LinkedLater(mem0, mem0 + [Blank], path, Ops(rest));
        LinkedNew(mem0 + [Blank], One(OpTerm, "", pn0), Term, path, Ops(rest));
        OpsClose(rest);
        path' := CompileExpr(grm[n].expr, pm, pop, d - 1, [Close] + rest, [pop] + path);
      }
      SaveParts(n, grm, d, rest);
      LinkedBasics(mem, path', Ops(ElemsOf(grm[n].expr, grm, d - 1) + ([Close] + rest)));
      LinkedSet(mem, pc, One(OpSave, n, pm), Save(n), path', Ops(ElemsOf(grm[n].expr, grm, d - 1) + ([Close] + rest)));
      mem := mem[pc := One(OpSave, n, pm)];
      path' := [pc] + path';
    }

    /** A sequence, its last expression first. */
    method CompileSequence(es: seq<Expr>, pc: int, pn0: int, ghost d: nat, ghost rest: seq<Elem>, ghost path: seq<int>)
      returns (ghost path': seq<int>)
      requires es != [] && SoundSeq(es, grm, d) && Distinct(NamesSeq(es, grm, d)) && Unseen(NamesSeq(es, grm, d), cache)
      requires Compilable(ElemsSeq(es, grm, d) + rest)
      requires Linked(mem, path, Ops(rest)) && pn0 == Head(path)
      requires 0 < pc < |mem| && pc !in path
      modifies this
      ensures Linked(mem, path', Ops(ElemsSeq(es, grm, d) + rest))
      ensures Reaches(pc, path, |old(mem)|, path') && Kept(old(mem), mem, pc, path)
      ensures cache.Keys == old(cache.Keys) + SetOf(NamesSeq(es, grm, d))
      decreases d, es, 0
    {
      hide Linked, Ops, Compilable, Distinct, ElemsOf, NamesOf, Sound, ElemsSeq, NamesSeq, SoundSeq, Unseen, SetOf, Within;
      var pn := pn0;
      path' := path;
      var i := |es| - 1;
      SeqDone(es, grm, d, rest, mem, path, cache.Keys);
      while i > 0
        invariant 0 <= i < |es|
        invariant Linked(mem, path', Ops(ElemsSeq(es[i + 1..], grm, d) + rest)) && pn == Head(path')
        invariant Within(old(mem), mem, path, path')
        invariant cache.Keys == old(cache.Keys) + SetOf(NamesSeq(es[i + 1..], grm, d))
      {
        SeqAt(es, i, grm, d, rest, old(cache), cache);
        ghost var rest', mem0, path0 := ElemsSeq(es[i + 1..], grm, d) + rest, mem, path';
        var p := New(Blank);
        LinkedLater(mem0, mem, path0, Ops(rest'));
        path' := CompileExpr(es[i], p, pn, d, rest', path0);
        WithinStep(old(mem), mem0, mem, path, path0, path', p);
        pn := p;
        i := i - 1;
      }
      SeqAt(es, 0, grm, d, rest, old(cache), cache);
      ghost var mem0, path0 := mem, path';
      PcFree(old(mem), mem, path, path0, pc);
      path' := CompileExpr(es[0], pc, pn, d, ElemsSeq(es[1..], grm, d) + rest, path0);
      WithinLast(old(mem), mem0, mem, path, path0, path', pc);
      assert es[0..] == es;
    }
  }

  // ---------------------------------------------------------------- free text

  lemma {:induction false} OpsCloses(es: seq<Elem>)
    ensures Ops(es) == Terms(Closes(es)) + Ops(es[Closes(es)..])
    decreases |es|
  {
    if es != [] && es[0].Close? {
      OpsCloses(es[1..]);
      assert es[1..][Closes(es[1..])..] == es[Closes(es)..];
      assert [Term] + Terms(Closes(es[1..])) == Terms(Closes(es));
    } else {
      assert es[0..] == es && Terms(0) + Ops(es) == Ops(es);
    }
  }

  lemma OpsAssoc(a: seq<Op>, b: seq<Op>, c: seq<Op>, d: seq<Op>)
    ensures a + b + c + d == a + (b + (c + d))
  {
  }

  lemma AllAt(es: seq<Elem>, j: nat)
    requires j < |es| && es[j].Lit?
    ensures var all := [Any] + es;
      all[1..] == es && all[1 + j] == es[j] && all[2 + j..] == es[j + 1..] && es[j..] == [Lit(es[j].t)] + es[j + 1..]
  {
  }

  /** The program behind free text that a literal follows: ends of captures, the literal, the rest. */
  lemma OpsBehind(es: seq<Elem>)
    requires Compilable([Any] + es) && Closes(es) < |es|
    ensures var j := Closes(es); es[j].Lit? && es[j].t != ""
    ensures var j := Closes(es); var t := es[j].t;
      && Ops(es) == Terms(j) + (Ranges(t) + Ops(es[j + 1..]))
      && (Ops(es[j + 1..]) == [] || !Ops(es[j + 1..])[0].Range?)
      && Ops([Any] + es) == [Scan(t)] + (Terms(j) + ([Skip(t)] + Ops(es[j + 1..])))
  {
    hide Ops, Closes, Compilable;
    var j := Closes(es);
    var all := [Any] + es;
    AfterText(es);
    OpsCloses(es);
    NotBlank(all, j + 1);
    AllAt(es, j);
    OpsToken(es[j].t, es[j + 1..]);
    AfterLiteral(all, j + 2);
    ScanOps(all);
    OpsAssoc([Scan(es[j].t)], Terms(j), [Skip(es[j].t)], Ops(es[j + 1..]));
  }

  lemma NotBlank(es: seq<Elem>, k: nat)
    requires Compilable(es) && k < |es| && es[k].Lit?
    ensures es[k].t != ""
  {
  }

  lemma OpsLast(es: seq<Elem>)
    requires Closes(es) == |es|
    ensures Ops(es) == Terms(|es|) && Ops([Any] + es) == [End] + Terms(|es|)
  {
    OpsCloses(es);
    var all := [Any] + es;
    assert es[|es|..] == [] && all[1..] == es && all[1 + |es|..] == [];
  }

  lemma ThreeParts(a: seq<Op>, b: seq<Op>, c: seq<Op>, i: nat)
    ensures var all := a + (b + c);
      && (i < |a| ==> all[i] == a[i])
      && (|a| <= i < |a| + |b| ==> all[i] == b[i - |a|])
      && (i == |a| + |b| < |all| ==> all[i] == c[0])
  {
  }

  /** The literal of the element j, as the instructions from j on. */
  ghost predicate LiteralAt(es: seq<Elem>, j: nat, i: nat)
    requires j < |es|
  {
    && es[j].Lit? && es[j].t != "" && j + |es[j].t| <= |Ops(es)|
    && (j <= i < j + |es[j].t| ==> Ops(es)[i] == Range(es[j].t[i - j]))
    && (i == j + |es[j].t| < |Ops(es)| ==> !Ops(es)[i].Range?)
  }

  /** The instructions behind free text, one by one. */
  lemma OpAt(es: seq<Elem>, i: nat)
    requires Compilable([Any] + es)
    ensures var j := Closes(es); j <= |Ops(es)| && (i < j ==> Ops(es)[i] == Term) && (j == |es| ==> |Ops(es)| == j)
    ensures var j := Closes(es); j < |es| ==> LiteralAt(es, j, i)
  {
    hide Ops, Closes, Compilable;
    var j := Closes(es);
    if j < |es| {
      OpsBehind(es);
      ThreeParts(Terms(j), Ranges(es[j].t), Ops(es[j + 1..]), i);
    } else {
      OpsLast(es);
    }
  }

  /** The instruction k steps on: it does ops[k], or the match ends. */
  lemma Step(mem: seq<Instr>, path: seq<int>, ops: seq<Op>, k: nat)
    requires Linked(mem, path, ops) && k <= |path|
    ensures |path| == |ops| && 0 <= Head(path[k..]) < |mem|
    ensures if k < |path| then Head(path[k..]) == path[k] > 0 && Does(mem[path[k]], ops[k])
              && mem[path[k]].x == Head(path[k + 1..]) && 0 <= Head(path[k + 1..]) < |mem|
            else Head(path[k..]) == 0 && mem[0] == MatchEnd
  {
  }

  /** While ends of captures are passed, the next one is there, or the match ends. */
  lemma TermOps(mem: seq<Instr>, path: seq<int>, es: seq<Elem>, k: nat)
    requires Compilable([Any] + es) && Linked(mem, path, Ops(es))
    requires k <= Closes(es) && k <= |path| && 0 <= Head(path[k..]) < |mem| && mem[Head(path[k..])].op == OpTerm
    ensures if k < |path| then k < Closes(es) && Head(path[k..]) == path[k] > 0 && mem[path[k]].x == Head(path[k + 1..]) && 0 <= Head(path[k + 1..]) < |mem|
            else Head(path[k..]) == 0
  {
    hide Linked, Ops, Closes, Compilable;
    OpAt(es, k);
    Step(mem, path, Ops(es), k);
  }

  lemma EndHere(mem: seq<Instr>, path: seq<int>, es: seq<Elem>, k: nat, pc: int, pop: int)
    requires Compilable([Any] + es) && Linked(mem, path, Ops(es)) && 0 < pc < |mem| && pc !in path
    requires k <= Closes(es) && k <= |path| && Head(path[k..]) == 0 && pop == Head(path)
    ensures Linked(mem[pc := One(OpEnd, "", pop)], [pc] + path, Ops([Any] + es))
  {
    hide Linked, Ops, Closes, Compilable;
    OpAt(es, k);
    Step(mem, path, Ops(es), k);
    OpsLast(es);
    LinkedSet(mem, pc, One(OpEnd, "", pop), End, path, Ops(es));
  }

  lemma TermsDone(mem: seq<Instr>, path: seq<int>, es: seq<Elem>, k: nat)
    requires Compilable([Any] + es) && Linked(mem, path, Ops(es))
    requires k <= Closes(es) && k <= |path| && 0 <= Head(path[k..]) < |mem| && mem[Head(path[k..])].op != OpTerm
    ensures k == Closes(es) < |es| && es[k].Lit? && k + |es[k].t| <= |path|
  {
    hide Linked, Ops, Closes, Compilable;
    OpAt(es, k);
    Step(mem, path, Ops(es), k);
  }

  /** While the characters of the literal are passed, the next one is there. */
  lemma CharOps(mem: seq<Instr>, path: seq<int>, es: seq<Elem>, m: nat)
    requires Compilable([Any] + es) && Linked(mem, path, Ops(es)) && Closes(es) < |es| && es[Closes(es)].Lit?
    requires var j := Closes(es);
      m <= |es[j].t| && j + m <= |path| && 0 <= Head(path[j + m..]) < |mem| && SingleChar(mem[Head(path[j + m..])])
    ensures var j := Closes(es); var t := es[j].t;
      && m < |t| && j + m < |path| && Head(path[j + m..]) == path[j + m] && 0 < path[j + m] < |mem|
      && mem[path[j + m]].lo == t[m] as int && t[..m] + [t[m]] == t[..m + 1]
      && mem[path[j + m]].x == Head(path[j + m + 1..]) && 0 <= Head(path[j + m + 1..]) < |mem|
  {
    hide Linked, Ops, Closes, Compilable;
    OpAt(es, Closes(es) + m);
    Step(mem, path, Ops(es), Closes(es) + m);
  }

  lemma CharsDone(mem: seq<Instr>, path: seq<int>, es: seq<Elem>, m: nat)
    requires Compilable([Any] + es) && Linked(mem, path, Ops(es)) && Closes(es) < |es| && es[Closes(es)].Lit?
    requires var j := Closes(es);
      m <= |es[j].t| && j + m <= |path| && 0 <= Head(path[j + m..]) < |mem| && !SingleChar(mem[Head(path[j + m..])])
    ensures m == |es[Closes(es)].t| > 0
  {
    hide Linked, Ops, Closes, Compilable;
    OpAt(es, Closes(es) + m);
    Step(mem, path, Ops(es), Closes(es) + m);
  }

  /** What a scan for t writes: itself at pc, the skip behind the j ends of captures, nothing else. */
  ghost predicate Scanned(mem0: seq<Instr>, mem: seq<Instr>, path: seq<int>, j: nat, t: string, pc: int, px: int)
    requires 0 < pc < |mem0| && j + |t| <= |path|
  {
    && px == |mem0| && |mem| == |mem0| + 1
    && mem[px] == One(OpSkip, t, Head(path[j + |t|..]))
    && mem[pc] == One(OpScan, t, if j > 0 then path[0] else px)
    && (j > 0 ==> 0 < path[j - 1] < |mem0| && mem[path[j - 1]] == mem0[path[j - 1]].(x := px))
    && forall a :: 0 <= a < |mem0| && a != pc && !(j > 0 && a == path[j - 1]) ==> mem[a] == mem0[a]
  }

  /** The scan, the ends of captures and the skip, in place of the literal. */
  lemma LinkScan(mem0: seq<Instr>, mem: seq<Instr>, path: seq<int>, es: seq<Elem>, j: nat, t: string, pc: int, px: int)
    requires Compilable([Any] + es) && j == Closes(es) < |es| && es[j] == Lit(t)
    requires Linked(mem0, path, Ops(es)) && 0 < pc < |mem0| && pc !in path && j + |t| <= |path|
    requires Scanned(mem0, mem, path, j, t, pc, px)
    ensures Linked(mem, [pc] + (path[..j] + ([px] + path[j + |t|..])), Ops([Any] + es))
  {
    hide Linked, Ops, Closes, Compilable, Does, Scanned;
    OpsBehind(es);
    var more := Ops(es[j + 1..]);
    LinkSkip(mem0, mem, path, j, Ranges(t), more, t, pc, px);
    LinkEnds(mem0, mem, path, j, Ranges(t), more, t, pc, px);
    ScannedStart(mem0, mem, path, j, t, pc, px, Ops(es));
    ScanDoes(t, mem[pc].x);
    LinkedCons(mem, pc, Scan(t), path[..j] + ([px] + path[j + |t|..]), Terms(j) + ([Skip(t)] + more));
  }

  /** The skip leads to what is behind the literal. */
  lemma LinkSkip(mem0: seq<Instr>, mem: seq<Instr>, path: seq<int>, j: nat, lit: seq<Op>, more: seq<Op>, t: string, pc: int, px: int)
    requires 0 < pc < |mem0| && pc !in path && j + |t| <= |path| && |lit| == |t| > 0
    requires Linked(mem0, path, Terms(j) + (lit + more)) && Scanned(mem0, mem, path, j, t, pc, px)
    ensures Linked(mem, [px] + path[j + |t|..], [Skip(t)] + more)
  {
    hide Linked, Scanned;
    var ops := Terms(j) + (lit + more);
    LinkedTail(mem0, path, ops, j + |t|);
    SecondTail(Terms(j), lit, more);
    LinkedApart(mem0, path, ops);
    LinkedBasics(mem0, path, ops);
    ScannedTail(mem0, mem, path, j, t, pc, px, j + |t|);
    SkipLinked(mem0, mem, path[j + |t|..], more, t, px);
  }

  /** The ends of captures lead to the skip. */
  lemma LinkEnds(mem0: seq<Instr>, mem: seq<Instr>, path: seq<int>, j: nat, lit: seq<Op>, more: seq<Op>, t: string, pc: int, px: int)
    requires 0 < pc < |mem0| && pc !in path && j + |t| <= |path| && |lit| == |t| > 0
    requires Linked(mem0, path, Terms(j) + (lit + more)) && Scanned(mem0, mem, path, j, t, pc, px)
    requires Linked(mem, [px] + path[j + |t|..], [Skip(t)] + more)
    ensures Linked(mem, path[..j] + ([px] + path[j + |t|..]), Terms(j) + ([Skip(t)] + more))
  {
    hide Linked, Scanned, Does;
    var ops := Terms(j) + (lit + more);
    LinkedApart(mem0, path, ops);
    LinkedBasics(mem0, path, ops);
    ScannedTerms(mem0, mem, path, j, t, pc, px);
    FirstTerms(Terms(j), lit + more);
    TermsLinked(mem0, mem, path, ops, j, px, path[j + |t|..]);
    assert Head([px] + path[j + |t|..]) == px;
    LinkTerms(mem, path, 0, j, [px] + path[j + |t|..], [Skip(t)] + more);
    assert path[0..j] == path[..j];
  }

  lemma ScannedStart(mem0: seq<Instr>, mem: seq<Instr>, path: seq<int>, j: nat, t: string, pc: int, px: int, ops: seq<Op>)
    requires 0 < pc < |mem0| && pc !in path && j + |t| <= |path|
    requires Linked(mem0, path, ops) && Scanned(mem0, mem, path, j, t, pc, px)
    ensures pc < |mem| && mem[pc] == One(OpScan, t, Head(path[..j] + ([px] + path[j + |t|..])))
    ensures pc !in path[..j] + ([px] + path[j + |t|..])
  {
  }

  lemma FirstTerms(a: seq<Op>, b: seq<Op>)
    requires forall i :: 0 <= i < |a| ==> a[i] == Term
    ensures forall i :: 0 <= i < |a| ==> (a + b)[i] == Term
  {
  }

  /** Ends of captures that lead from one to the next and then to a linked program. */
  lemma {:induction false} LinkTerms(mem: seq<Instr>, path: seq<int>, i: nat, j: nat, q: seq<int>, ops: seq<Op>)
    requires i <= j <= |path| && Linked(mem, q, ops)
    requires forall k :: 0 <= k < j ==> 0 < path[k] < |mem| && Does(mem[path[k]], Term) && path[k] !in q
    requires forall k :: 0 <= k < j ==> mem[path[k]].x == if k + 1 < j then path[k + 1] else Head(q)
    requires forall h, k :: 0 <= h < k < j ==> path[h] != path[k]
    ensures Linked(mem, path[i..j] + q, Terms(j - i) + ops)
    decreases j - i
  {
    hide Linked, Does;
    if i == j {
      assert path[i..j] + q == q && Terms(j - i) + ops == ops;
    } else {
      LinkTerms(mem, path, i + 1, j, q, ops);
      var more := path[i + 1..j];
      assert path[i] !in more;
      assert Head(more + q) == if i + 1 < j then path[i + 1] else Head(q);
      LinkedCons(mem, path[i], Term, more + q, Terms(j - i - 1) + ops);
      assert [path[i]] + (more + q) == path[i..j] + q && [Term] + (Terms(j - i - 1) + ops) == Terms(j - i) + ops;
    }
  }

  /** The scan leaves what is behind the literal. */
  lemma ScannedTail(mem0: seq<Instr>, mem: seq<Instr>, path: seq<int>, j: nat, t: string, pc: int, px: int, k: nat)
    requires 0 < pc < |mem0| && pc !in path && j + |t| == k <= |path| && t != ""
    requires forall i, k :: 0 <= i < k < |path| ==> path[i] != path[k]
    requires forall a :: a in path ==> 0 < a < |mem0|
    requires Scanned(mem0, mem, path, j, t, pc, px)
    ensures px == |mem0| && |mem| == |mem0| + 1 && mem[0] == mem0[0]
    ensures forall a :: a in path[k..] ==> 0 <= a < |mem0| && mem[a] == mem0[a]
    ensures mem[px] == One(OpSkip, t, Head(path[k..]))
  {
    forall a | a in path[k..]
      ensures 0 <= a < |mem0| && mem[a] == mem0[a]
    {
      var i :| k <= i < |path| && path[i] == a;
      assert a in path;
      if j > 0 {
        var h := j - 1;
        assert path[h] != path[i];
      }
    }
  }

  lemma ScannedTerms(mem0: seq<Instr>, mem: seq<Instr>, path: seq<int>, j: nat, t: string, pc: int, px: int)
    requires 0 < pc < |mem0| && pc !in path && j + |t| <= |path|
    requires forall i, k :: 0 <= i < k < |path| ==> path[i] != path[k]
    requires forall a :: a in path ==> 0 < a < |mem0|
    requires Scanned(mem0, mem, path, j, t, pc, px)
    ensures px == |mem0| && |mem| == px + 1
    ensures forall i :: 0 <= i < j - 1 ==> 0 < path[i] < |mem0| && mem[path[i]] == mem0[path[i]]
    ensures j > 0 ==> 0 < path[j - 1] < |mem0| && mem[path[j - 1]] == mem0[path[j - 1]].(x := px)
  {
    assert forall i :: 0 <= i < |path| ==> path[i] in path;
  }

  lemma SecondTail(a: seq<Op>, b: seq<Op>, c: seq<Op>)
    ensures (a + (b + c))[|a| + |b|..] == c
  {
  }

  lemma ScanDoes(t: string, x: int)
    ensures Does(One(OpScan, t, x), Scan(t)) && Does(One(OpSkip, t, x), Skip(t))
  {
  }

  lemma SkipLinked(mem0: seq<Instr>, mem: seq<Instr>, tail: seq<int>, more: seq<Op>, t: string, px: int)
    requires Linked(mem0, tail, more) && |mem0| < |mem| && mem[0] == mem0[0]
    requires forall a :: a in tail ==> mem[a] == mem0[a]
    requires px == |mem0| && mem[px] == One(OpSkip, t, Head(tail))
    ensures Linked(mem, [px] + tail, [Skip(t)] + more)
  {
    LinkedFrame(mem0, mem, tail, more);
    LinkedCons(mem, px, Skip(t), tail, more);
  }

  /** The ends of captures lead to the skip. */
  lemma TermsLinked(mem0: seq<Instr>, mem: seq<Instr>, path: seq<int>, ops: seq<Op>, j: nat, px: int, tail: seq<int>)
    requires Linked(mem0, path, ops) && j <= |path| && px == |mem0| < |mem|
    requires forall i :: 0 <= i < j ==> ops[i] == Term
    requires forall a :: a in tail ==> a in path[j..]
    requires forall i :: 0 <= i < j - 1 ==> 0 < path[i] < |mem0| && mem[path[i]] == mem0[path[i]]
    requires j > 0 ==> 0 < path[j - 1] < |mem0| && mem[path[j - 1]] == mem0[path[j - 1]].(x := px)
    ensures forall i :: 0 <= i < j ==> 0 < path[i] < |mem| && Does(mem[path[i]], Term) && path[i] !in [px] + tail
    ensures forall i :: 0 <= i < j ==> mem[path[i]].x == if i + 1 < j then path[i + 1] else px
    ensures forall i, k :: 0 <= i < k < j ==> path[i] != path[k]
  {
    hide Linked;
    LinkedApart(mem0, path, ops);
    forall i | 0 <= i < j
      ensures 0 < path[i] < |mem| && Does(mem[path[i]], Term) && path[i] !in [px] + tail
      ensures mem[path[i]].x == if i + 1 < j then path[i + 1] else px
    {
      Step(mem0, path, ops, i);
      assert path[i + 1..] != [] ==> Head(path[i + 1..]) == path[i + 1];
      assert path[i] !in path[j..];
    }
  }

  // ---------------------------------------------------------------- expressions

  lemma OpsToken(t: string, rest: seq<Elem>)
    ensures Ops([Lit(t)] + rest) == Ranges(t) + Ops(rest)
  {
    assert ([Lit(t)] + rest)[1..] == rest;
  }

  lemma OpsClose(rest: seq<Elem>)
    ensures Ops([Close] + rest) == [Term] + Ops(rest)
  {
    assert ([Close] + rest)[1..] == rest;
  }

  lemma LinkedLater(mem: seq<Instr>, mem': seq<Instr>, path: seq<int>, ops: seq<Op>)
    requires Linked(mem, path, ops) && mem <= mem'
    ensures Linked(mem', path, ops) && |mem| > 0 && |mem| !in path && forall a :: a in path ==> 0 < a < |mem|
  {
  }

  /** What compiling the body of a name needs. */
  lemma NameParts(n: string, grm: Grammar, d: nat, rest: seq<Elem>, cache: map<string, int>)
    requires Sound(Name(n), grm, d) && Distinct(NamesOf(Name(n), grm, d)) && Unseen(NamesOf(Name(n), grm, d), cache)
    requires Compilable(ElemsOf(Name(n), grm, d) + rest)
    ensures d > 0 && n in grm && Sound(grm[n].expr, grm, d - 1)
    ensures var ns := NamesOf(grm[n].expr, grm, d - 1);
      Distinct(ns) && Unseen(ns, cache) && n !in ns && NamesOf(Name(n), grm, d) == [n] + ns
    ensures Compilable(ElemsOf(grm[n].expr, grm, d - 1) + ([Close] + rest))
  {
    var ns, es := NamesOf(grm[n].expr, grm, d - 1), ElemsOf(grm[n].expr, grm, d - 1);
    assert NamesOf(Name(n), grm, d) == [n] + ns;
    DistinctParts([n], ns);
    hide Sound, Compilable, Distinct;
    assert n in [n];
    assert forall m :: m in ns ==> m in [n] + ns;
    CompilableTail([Open(n)] + es + [Close] + rest, 1);
    assert ([Open(n)] + es + [Close] + rest)[1..] == es + ([Close] + rest);
  }

  lemma SaveParts(n: string, grm: Grammar, d: nat, rest: seq<Elem>)
    requires d > 0 && n in grm
    ensures var es := ElemsOf(grm[n].expr, grm, d - 1);
      Ops(ElemsOf(Name(n), grm, d) + rest) == [Save(n)] + Ops(es + ([Close] + rest))
  {
    var es := ElemsOf(grm[n].expr, grm, d - 1);
    var all := ElemsOf(Name(n), grm, d) + rest;
    assert all == [Open(n)] + (es + ([Close] + rest));
    assert all[1..] == es + ([Close] + rest);
  }

  lemma SeqDone(es: seq<Expr>, grm: Grammar, d: nat, rest: seq<Elem>, mem: seq<Instr>, path: seq<int>, keys: set<string>)
    ensures ElemsSeq(es[|es|..], grm, d) + rest == rest && keys + SetOf(NamesSeq(es[|es|..], grm, d)) == keys
    ensures Within(mem, mem, path, path)
  {
  }

  /** What compiling the expression i of a sequence needs. */
  lemma SeqAt(es: seq<Expr>, i: nat, grm: Grammar, d: nat, rest: seq<Elem>, cache0: map<string, int>, cache: map<string, int>)
    requires i < |es| && SoundSeq(es, grm, d) && Distinct(NamesSeq(es, grm, d)) && Unseen(NamesSeq(es, grm, d), cache0)
    requires Compilable(ElemsSeq(es, grm, d) + rest)
    requires cache.Keys == cache0.Keys + SetOf(NamesSeq(es[i + 1..], grm, d))
    ensures Sound(es[i], grm, d) && Distinct(NamesOf(es[i], grm, d)) && Unseen(NamesOf(es[i], grm, d), cache)
    ensures Compilable(ElemsOf(es[i], grm, d) + (ElemsSeq(es[i + 1..], grm, d) + rest))
    ensures ElemsSeq(es[i..], grm, d) + rest == ElemsOf(es[i], grm, d) + (ElemsSeq(es[i + 1..], grm, d) + rest)
    ensures cache0.Keys + SetOf(NamesSeq(es[i..], grm, d)) == cache.Keys + SetOf(NamesOf(es[i], grm, d))
  {
    hide Compilable, Distinct, Sound, ElemsOf, NamesOf;
    SeqSuffix(es, i, grm, d, rest);
    assert es[i..][1..] == es[i + 1..];
    assert ElemsSeq(es[i..], grm, d) + rest == ElemsOf(es[i], grm, d) + (ElemsSeq(es[i + 1..], grm, d) + rest);
    var a, b := NamesOf(es[i], grm, d), NamesSeq(es[i + 1..], grm, d);
    DistinctParts(a, b);
    forall n | n in a
      ensures n !in cache
    {
      assert n in NamesSeq(es[i..], grm, d);
    }
  }

  lemma {:induction false} SeqSuffix(es: seq<Expr>, i: nat, grm: Grammar, d: nat, rest: seq<Elem>)
    requires i < |es| && SoundSeq(es, grm, d) && Distinct(NamesSeq(es, grm, d))
    requires Compilable(ElemsSeq(es, grm, d) + rest)
    ensures SoundSeq(es[i..], grm, d) && Distinct(NamesSeq(es[i..], grm, d)) && Compilable(ElemsSeq(es[i..], grm, d) + rest)
    ensures forall n :: n in NamesSeq(es[i..], grm, d) ==> n in NamesSeq(es, grm, d)
  {
    hide Compilable, Distinct, Sound, ElemsOf, NamesOf;
    if i == 0 {
      assert es[0..] == es;
    } else {
      var a, b := ElemsOf(es[0], grm, d), ElemsSeq(es[1..], grm, d);
      CompilableTail(a + b + rest, |a|);
      assert (a + b + rest)[|a|..] == b + rest;
      DistinctParts(NamesOf(es[0], grm, d), NamesSeq(es[1..], grm, d));
      SeqSuffix(es[1..], i - 1, grm, d, rest);
      assert es[1..][i - 1..] == es[i..];
    }
  }

  lemma WithinStep(mem0: seq<Instr>, mem1: seq<Instr>, mem2: seq<Instr>, path: seq<int>, path1: seq<int>, path2: seq<int>, p: int)
    requires Within(mem0, mem1, path, path1) && p == |mem1|
    requires Reaches(p, path1, |mem1| + 1, path2) && Kept(mem1 + [Blank], mem2, p, path1)
    ensures Within(mem0, mem2, path, path2) && Head(path2) == p
  {
    forall a | 0 <= a < |mem0| && a !in path
      ensures mem2[a] == mem0[a]
    {
      assert (mem1 + [Blank])[a] == mem1[a];
    }
  }

  lemma PcFree(mem0: seq<Instr>, mem: seq<Instr>, path: seq<int>, path1: seq<int>, pc: int)
    requires Within(mem0, mem, path, path1) && 0 < pc < |mem0| && pc !in path
    ensures pc < |mem| && pc !in path1
  {
  }

  lemma WithinLast(mem0: seq<Instr>, mem1: seq<Instr>, mem2: seq<Instr>, path: seq<int>, path1: seq<int>, path2: seq<int>, pc: int)
    requires Within(mem0, mem1, path, path1)
    requires Reaches(pc, path1, |mem1|, path2) && Kept(mem1, mem2, pc, path1)
    ensures Reaches(pc, path, |mem0|, path2) && Kept(mem0, mem2, pc, path)
  {
  }

  lemma RangeDoes(c: char, x: int)
    ensures Does(RangeOf(c, x), Range(c)) && RangeOf(c, x).x == x
  {
  }
}
