/** CompilePattern of internal/mdt/pattern.go: from the text of a line pattern to a grammar.

    Every pattern text reads as one list of pieces, literal texts and holes such as <name> or
    <name:metadata>, unless a ':' stands before the '<' of a hole.  Characters are ASCII. */
module PatternGrammar {
  import opened Wrappers

  datatype Expr = Token(t: string) | AnyText | Name(name: string) | Sequence(es: seq<Expr>)

  datatype Production = Production(expr: Expr, metadata: string)

  type Grammar = map<string, Production>

  /** BadSlice stands for the panic on a slice that ends before it starts. */
  datatype Error = EmptySeparator | InvalidName | Repeated | BadSlice

  type Result<T> = Outcome<T, Error>

  datatype Piece = Text(t: string) | Hole(name: string, meta: Option<string>)

  predicate Identifier(s: string)
  {
    forall i :: 0 <= i < |s| ==> 'a' <= s[i] <= 'z' || (i > 0 && '0' <= s[i] <= '9') || s[i] == '_'
  }

  // ---------------------------------------------------------------- building the grammar

  /** What has been built: the sequence of the root, the productions and the last name. */
  datatype Built = Built(es: seq<Expr>, grm: Grammar, last: string)

  /** One hole, with the literal text before it; first says that it starts the pattern. */
  function AddHole(b: Built, text: string, first: bool, name: string, meta: string): Result<Built>
  {
    if !first && text == "" then Err(EmptySeparator)
    else if !Identifier(name) then Err(InvalidName)
    else if name in b.grm then
      if name != b.last then Err(Repeated)
      else
        var old_ := match b.grm[name].expr case Sequence(es) => es case e => [e];
        var es := if text != "" then old_ + [Token(text), AnyText] else old_;
        Ok(b.(grm := b.grm[name := b.grm[name].(expr := Sequence(es))]))
    else
      var es := if text != "" then b.es + [Token(text)] else b.es;
      if name == "_" then Ok(b.(es := es + [AnyText]))
      else Ok(Built(es + [Name(name)], b.grm[name := Production(AnyText, meta)], name))
  }

  function Finish(b: Built, text: string): Grammar
  {
    var es := if text != "" then b.es + [Token(text)] else b.es;
    b.grm["root" := Production(Sequence(es), "")]
  }

  const Nothing: Built := Built([], map[], "")

  // ---------------------------------------------------------------- one scan over the text

  /** tk is where the pending literal starts, chev the last '<' and cln the first ':' behind a '<', or -1. */
  datatype Lex = Lex(tk: int, chev: int, cln: int)

  ghost predicate LexOk(l: Lex, idx: nat)
  {
    && 0 <= l.tk <= idx
    && (l.chev == -1 || l.tk <= l.chev < idx)
    && (l.cln == -1 || (l.tk < l.cln < idx && l.chev != -1))
  }

  predicate Closing(c: char, l: Lex) { c == '>' && l.chev != -1 }

  /** A '<' behind the ':' of the open hole: its name would end before it starts. */
  predicate Broken(l: Lex) { l.cln != -1 && l.cln <= l.chev }

  function Move(c: char, l: Lex, idx: nat): Lex
  {
    if c == '<' then l.(chev := idx)
    else if c == ':' && l.chev != -1 && l.cln == -1 then l.(cln := idx)
    else l
  }

  function Fresh(tk: nat): Lex { Lex(tk, -1, -1) }

  /** The hole that a '>' at idx closes. */
  function HoleAt(pattern: string, idx: nat, l: Lex): (p: Piece)
    requires idx < |pattern| && LexOk(l, idx) && l.chev != -1 && !Broken(l)
    ensures p.Hole?
  {
    if l.cln != -1 then Hole(pattern[l.chev + 1..l.cln], Some(pattern[l.cln + 1..idx]))
    else Hole(pattern[l.chev + 1..idx], None)
  }

  function AddPiece(b: Built, text: string, first: bool, p: Piece): Result<Built>
    requires p.Hole?
  {
    AddHole(b, text, first, p.name, if p.meta.Some? then p.meta.value else "")
  }

  function Scan(pattern: string, idx: nat, l: Lex, b: Built): Result<Grammar>
    requires idx <= |pattern| && LexOk(l, idx)
    decreases |pattern| - idx
  {
    if idx == |pattern| then Ok(Finish(b, pattern[l.tk..]))
    else if !Closing(pattern[idx], l) then Scan(pattern, idx + 1, Move(pattern[idx], l, idx), b)
    else if Broken(l) then Err(BadSlice)
    else
      var added := AddPiece(b, pattern[l.tk..l.chev], l.chev == 0, HoleAt(pattern, idx, l));
      if added.Err? then Err(added.error) else Scan(pattern, idx + 1, Fresh(idx + 1), added.value)
  }

  /** What CompilePattern returns. */
  function Compiled(pattern: string): Result<Grammar> { Scan(pattern, 0, Fresh(0), Nothing) }

  method CompilePattern(pattern: string) returns (r: Result<Grammar>)
    ensures r == Compiled(pattern)
    ensures Settled(pattern, r)
  {
    Acceptance(pattern);
    hide *;
    GoingFirst(pattern);
    var tk, chev, cln := 0, -1, -1;
    var b := Built([], map[], "");
    for idx := 0 to |pattern|
      invariant Going(pattern, idx, Lex(tk, chev, cln), b, Compiled(pattern))
    {
      GoingOn(pattern, idx, Lex(tk, chev, cln), b, Compiled(pattern));
      if pattern[idx] == '<' {
        chev := idx;
      } else if pattern[idx] == ':' {
        if chev == -1 || cln != -1 {
          continue;
        }
        cln := idx;
      } else if pattern[idx] == '>' {
        if chev == -1 {
          continue;
        }
        GoingClose(pattern, idx, Lex(tk, chev, cln), b, Compiled(pattern));
        if chev > 0 && chev == tk {
          return Err(EmptySeparator);
        }
        var name := pattern[chev + 1..idx];
        if cln != -1 {
          if cln < chev + 1 {
            return Err(BadSlice);
          }
          name := pattern[chev + 1..cln];
        }
        var meta := if cln != -1 then pattern[cln + 1..idx] else "";
        var added := AddHole(b, pattern[tk..chev], chev == 0, name, meta);
        if added.Err? {
          return Err(added.error);
        }
        b := added.value;
        tk := idx + 1;
        chev := -1;
        cln := -1;
      }
    }
    GoingLast(pattern, Lex(tk, chev, cln), b, Compiled(pattern));
    return Ok(Finish(b, pattern[tk..]));
  }

  /** The rest of the scan gives r. */
  ghost predicate Going(pattern: string, idx: nat, l: Lex, b: Built, r: Result<Grammar>)
  {
    idx <= |pattern| && LexOk(l, idx) && Scan(pattern, idx, l, b) == r
  }

  lemma GoingFirst(pattern: string)
    ensures Going(pattern, 0, Lex(0, -1, -1), Built([], map[], ""), Compiled(pattern))
  {
    hide Scan;
  }

  lemma GoingOn(pattern: string, idx: nat, l: Lex, b: Built, r: Result<Grammar>)
    requires idx < |pattern| && Going(pattern, idx, l, b, r)
    ensures pattern[idx] == '<' ==> Going(pattern, idx + 1, l.(chev := idx), b, r)
    ensures pattern[idx] == ':' ==> Going(pattern, idx + 1, if l.chev == -1 || l.cln != -1 then l else l.(cln := idx), b, r)
    ensures pattern[idx] == '>' && l.chev == -1 ==> Going(pattern, idx + 1, l, b, r)
    ensures pattern[idx] !in {'<', ':', '>'} ==> Going(pattern, idx + 1, l, b, r)
  {
    hide AddPiece, Finish;
  }

  lemma GoingClose(pattern: string, idx: nat, l: Lex, b: Built, r: Result<Grammar>)
    requires idx < |pattern| && Going(pattern, idx, l, b, r) && pattern[idx] == '>' && l.chev != -1
    ensures 0 <= l.tk <= l.chev < idx && (l.cln != -1 ==> l.tk < l.cln < idx)
    ensures l.chev > 0 && l.chev == l.tk ==> r == Err(EmptySeparator)
    ensures l.cln != -1 && l.cln <= l.chev ==> r == Err(BadSlice)
    ensures l.cln == -1 || l.chev < l.cln ==>
      var name := pattern[l.chev + 1..if l.cln != -1 then l.cln else idx];
      var meta := if l.cln != -1 then pattern[l.cln + 1..idx] else "";
      var added := AddHole(b, pattern[l.tk..l.chev], l.chev == 0, name, meta);
      if added.Err? then r == Err(added.error) else Going(pattern, idx + 1, Lex(idx + 1, -1, -1), added.value, r)
  {
    NoSeparator(b);
    hide AddHole, Finish;
    assert l.chev == l.tk ==> pattern[l.tk..l.chev] == "";
  }

  lemma GoingLast(pattern: string, l: Lex, b: Built, r: Result<Grammar>)
    requires Going(pattern, |pattern|, l, b, r)
    ensures 0 <= l.tk <= |pattern| && r == Ok(Finish(b, pattern[l.tk..]))
  {
    hide Finish, AddHole;
  }

  lemma NoSeparator(b: Built)
    ensures forall name, meta :: AddHole(b, "", false, name, meta) == Err(EmptySeparator)
  {
  }

  // ---------------------------------------------------------------- reading a text as pieces

  /** The pieces of a text; not whole if a ':' stands before the '<' of a hole. */
  datatype Reading = Reading(ps: seq<Piece>, whole: bool)

  function TextIf(t: string): seq<Piece> { if t == "" then [] else [Text(t)] }

  function ReadFrom(pattern: string, idx: nat, l: Lex): Reading
    requires idx <= |pattern| && LexOk(l, idx)
    decreases |pattern| - idx
  {
    if idx == |pattern| then Reading(TextIf(pattern[l.tk..]), true)
    else if !Closing(pattern[idx], l) then ReadFrom(pattern, idx + 1, Move(pattern[idx], l, idx))
    else if Broken(l) then Reading([], false)
    else
      var r := ReadFrom(pattern, idx + 1, Fresh(idx + 1));
      Reading(TextIf(pattern[l.tk..l.chev]) + ([HoleAt(pattern, idx, l)] + r.ps), r.whole)
  }

  function Read(pattern: string): Reading { ReadFrom(pattern, 0, Fresh(0)) }

  function Render(ps: seq<Piece>): string
  {
    if ps == [] then "" else RenderPiece(ps[0]) + Render(ps[1..])
  }

  function RenderPiece(p: Piece): (r: string)
    ensures p.Hole? ==> |r| >= 2
  {
    match p
    case Text(t) => t
    case Hole(n, None) => "<" + (n + ">")
    case Hole(n, Some(m)) => "<" + (n + (":" + (m + ">")))
  }

  /** The grammar of a list of pieces; text is the literal before them, first that nothing else is. */
  function Assemble(ps: seq<Piece>, text: string, first: bool, b: Built): Result<Grammar>
  {
    if ps == [] then Ok(Finish(b, text))
    else
      match ps[0]
      case Text(t) => Assemble(ps[1..], text + t, false, b)
      case Hole(n, m) =>
        var added := AddHole(b, text, first, n, if m.Some? then m.value else "");
        if added.Err? then Err(added.error) else Assemble(ps[1..], "", false, added.value)
  }

  lemma AssembleText(t: string, p: Piece, ps: seq<Piece>, first: bool, b: Built)
    requires p.Hole?
    ensures
      var added := AddPiece(b, t, first && t == "", p);
      Assemble(TextIf(t) + ([p] + ps), "", first, b) == if added.Err? then Err(added.error) else Assemble(ps, "", false, added.value)
  {
    var all := [p] + ps;
    assert all[1..] == ps && (TextIf(t) + all)[|TextIf(t)|..] == all && "" + t == t;
    hide AddHole, Finish;
  }

  /** The panic comes behind the errors of the pieces before it. */
  function BadSliceLast(r: Result<Grammar>): Result<Grammar> { if r.Err? then r else Err(BadSlice) }

  lemma NothingAssembled(first: bool, b: Built)
    ensures Assemble([], "", first, b).Ok?
  {
  }

  /** The scan assembles the grammar from the pieces it reads, one by one. */
  lemma {:induction false} ScanAssembles(pattern: string, idx: nat, l: Lex, b: Built)
    requires idx <= |pattern| && LexOk(l, idx)
    ensures ReadFrom(pattern, idx, l).whole ==> Scan(pattern, idx, l, b) == Assemble(ReadFrom(pattern, idx, l).ps, "", l.tk == 0, b)
    ensures !ReadFrom(pattern, idx, l).whole ==>
      Scan(pattern, idx, l, b) == BadSliceLast(Assemble(ReadFrom(pattern, idx, l).ps, "", l.tk == 0, b))
    decreases |pattern| - idx
  {
    hide AddPiece, Finish, Assemble, HoleAt;
    if idx == |pattern| {
      LastText(pattern[l.tk..], l.tk == 0, b);
    } else if !Closing(pattern[idx], l) {
      ScanAssembles(pattern, idx + 1, Move(pattern[idx], l, idx), b);
    } else if Broken(l) {
      NothingAssembled(l.tk == 0, b);
    } else {
      var text, p := pattern[l.tk..l.chev], HoleAt(pattern, idx, l);
      AssembleText(text, p, ReadFrom(pattern, idx + 1, Fresh(idx + 1)).ps, l.tk == 0, b);
      var added := AddPiece(b, text, l.chev == 0, p);
      if added.Ok? {
        ScanAssembles(pattern, idx + 1, Fresh(idx + 1), added.value);
      }
    }
  }

  lemma LastText(t: string, first: bool, b: Built)
    ensures Assemble(TextIf(t), "", first, b) == Ok(Finish(b, t))
  {
    assert "" + t == t;
  }

  /** CompilePattern assembles the pieces of its text, and fails on a text that is not whole. */
  lemma PatternAssembles(pattern: string)
    ensures Read(pattern).whole ==> Compiled(pattern) == Assemble(Read(pattern).ps, "", true, Nothing)
    ensures !Read(pattern).whole ==> Compiled(pattern) == BadSliceLast(Assemble(Read(pattern).ps, "", true, Nothing))
    ensures Compiled(pattern).Ok? ==> Read(pattern).whole
  {
    ScanAssembles(pattern, 0, Fresh(0), Nothing);
  }

  // ---------------------------------------------------------------- nothing is lost

  lemma Joined(a: string, b: string, c: string)
    ensures (a + b) + c == a + (b + c)
  {
  }

  lemma RenderText(t: string, p: Piece, ps: seq<Piece>)
    ensures Render(TextIf(t) + ([p] + ps)) == t + (RenderPiece(p) + Render(ps))
  {
    var all := [p] + ps;
    assert all[1..] == ps && (TextIf(t) + all)[|TextIf(t)|..] == all && "" + Render(all) == Render(all);
    hide RenderPiece;
  }

  lemma RenderLast(t: string)
    ensures Render(TextIf(t)) == t
  {
    assert t + "" == t;
    assert Render([]) == "";
  }

  lemma Cut(s: string, i: nat, j: nat)
    requires i <= j <= |s|
    ensures s[i..] == s[i..j] + s[j..]
  {
  }

  lemma CutOne(s: string, i: nat)
    requires i < |s|
    ensures s[i..] == [s[i]] + s[i + 1..]
  {
  }

  /** The characters that the state of the scan stands on. */
  ghost predicate Marks(pattern: string, l: Lex, idx: nat)
  {
    && LexOk(l, idx) && idx <= |pattern|
    && (l.chev != -1 ==> pattern[l.chev] == '<') && (l.cln != -1 ==> pattern[l.cln] == ':')
  }

  lemma BareText(s: string, c: nat, j: nat)
    requires c < j < |s| && s[c] == '<' && s[j] == '>'
    ensures s[c..] == ("<" + (s[c + 1..j] + ">")) + s[j + 1..]
  {
    CutOne(s, c);
    Cut(s, c + 1, j);
    CutOne(s, j);
    Joined(s[c + 1..j], ">", s[j + 1..]);
    Joined("<", s[c + 1..j] + ">", s[j + 1..]);
  }

  lemma MetaText(s: string, c: nat, k: nat, j: nat)
    requires c < k < j < |s| && s[c] == '<' && s[k] == ':' && s[j] == '>'
    ensures s[c..] == ("<" + (s[c + 1..k] + (":" + (s[k + 1..j] + ">")))) + s[j + 1..]
  {
    var n, m, rest := s[c + 1..k], s[k + 1..j], s[j + 1..];
    CutOne(s, c);
    Cut(s, c + 1, k);
    CutOne(s, k);
    Cut(s, k + 1, j);
    CutOne(s, j);
    hide *;
    Joined(m, ">", rest);
    Joined(":", m + ">", rest);
    Joined(n, ":" + (m + ">"), rest);
    Joined("<", n + (":" + (m + ">")), rest);
  }

  lemma HoleText(pattern: string, idx: nat, l: Lex)
    requires idx < |pattern| && Marks(pattern, l, idx) && Closing(pattern[idx], l) && !Broken(l)
    ensures pattern[l.tk..] == pattern[l.tk..l.chev] + (RenderPiece(HoleAt(pattern, idx, l)) + pattern[idx + 1..])
  {
    hide RenderPiece;
    var h, rest := HoleAt(pattern, idx, l), pattern[idx + 1..];
    assert pattern[l.chev..] == RenderPiece(h) + rest by {
      if l.cln == -1 {
        BareText(pattern, l.chev, idx);
        RenderBare(pattern[l.chev + 1..idx]);
      } else {
        MetaText(pattern, l.chev, l.cln, idx);
        RenderMeta(pattern[l.chev + 1..l.cln], pattern[l.cln + 1..idx]);
      }
    }
    hide HoleAt;
    Cut(pattern, l.tk, l.chev);
  }

  lemma RenderBare(n: string)
    ensures RenderPiece(Hole(n, None)) == "<" + (n + ">")
    ensures |RenderPiece(Hole(n, None))| == |n| + 2
  {
  }

  lemma RenderMeta(n: string, m: string)
    ensures RenderPiece(Hole(n, Some(m))) == "<" + (n + (":" + (m + ">")))
    ensures |RenderPiece(Hole(n, Some(m)))| == |n| + |m| + 3
  {
  }

  /** The pieces that are read make up the text. */
  lemma {:induction false} ReadRenders(pattern: string, idx: nat, l: Lex)
    requires idx <= |pattern| && Marks(pattern, l, idx) && ReadFrom(pattern, idx, l).whole
    ensures Render(ReadFrom(pattern, idx, l).ps) == pattern[l.tk..]
    decreases |pattern| - idx
  {
    hide Render, RenderPiece, HoleAt;
    if idx == |pattern| {
      RenderLast(pattern[l.tk..]);
    } else if !Closing(pattern[idx], l) {
      ReadRenders(pattern, idx + 1, Move(pattern[idx], l, idx));
    } else {
      ReadRenders(pattern, idx + 1, Fresh(idx + 1));
      HoleText(pattern, idx, l);
      RenderText(pattern[l.tk..l.chev], HoleAt(pattern, idx, l), ReadFrom(pattern, idx + 1, Fresh(idx + 1)).ps);
    }
  }

  // ---------------------------------------------------------------- which pieces are read

  /** A literal: no '>' after a '<', and before a hole no ':' after a '<' either. */
  ghost predicate TextOk(t: string, open: bool)
  {
    && t != ""
    && forall i, j :: 0 <= i < j < |t| && t[i] == '<' ==> t[j] != '>' && (open ==> t[j] != ':')
  }

  ghost predicate Without(t: string, cs: set<char>)
  {
    forall i :: 0 <= i < |t| ==> t[i] !in cs
  }

  ghost predicate HoleOk(n: string, m: Option<string>)
  {
    Without(n, {'<', '>', ':'}) && (m.Some? ==> Without(m.value, {'<', '>'}))
  }

  /** Literals and holes as a text reads: no empty literal, and no two in a row. */
  ghost predicate PiecesOk(ps: seq<Piece>)
  {
    ps == [] ||
      match ps[0]
      case Text(t) => TextOk(t, |ps| > 1) && (|ps| > 1 ==> ps[1].Hole?) && PiecesOk(ps[1..])
      case Hole(n, m) => HoleOk(n, m) && PiecesOk(ps[1..])
  }

  /** What the state of the scan tells about the literal that is pending. */
  ghost predicate Sees(pattern: string, l: Lex, idx: nat)
  {
    && Marks(pattern, l, idx)
    && (forall i :: l.tk <= i < idx && l.chev < i ==> pattern[i] != '<')
    && (forall i, j :: l.tk <= i < j < idx && pattern[i] == '<' ==> pattern[j] != '>')
    && (forall i, j :: l.tk <= i < j < idx && pattern[i] == '<' && (l.cln == -1 || j < l.cln) ==> pattern[j] != ':')
    && (l.cln != -1 ==> exists i :: l.tk <= i < l.cln && pattern[i] == '<')
  }

  lemma SeesMore(pattern: string, l: Lex, idx: nat)
    requires Sees(pattern, l, idx) && idx < |pattern| && !Closing(pattern[idx], l)
    ensures Sees(pattern, Move(pattern[idx], l, idx), idx + 1)
  {
    var l' := Move(pattern[idx], l, idx);
    if l.chev == -1 {
      assert forall i :: l.tk <= i < idx ==> pattern[i] != '<';
    }
    if l'.cln != -1 && l.cln == -1 {
      assert pattern[l.chev] == '<' && l.tk <= l.chev < l'.cln;
    }
  }

  lemma SeesFresh(pattern: string, idx: nat)
    requires idx <= |pattern|
    ensures Sees(pattern, Fresh(idx), idx)
  {
  }

  lemma SeesHole(pattern: string, idx: nat, l: Lex)
    requires idx < |pattern| && Sees(pattern, l, idx) && Closing(pattern[idx], l) && !Broken(l)
    ensures l.tk < l.chev ==> TextOk(pattern[l.tk..l.chev], true)
    ensures HoleAt(pattern, idx, l).Hole? && HoleOk(HoleAt(pattern, idx, l).name, HoleAt(pattern, idx, l).meta)
  {
    var t := pattern[l.tk..l.chev];
    forall i, j | 0 <= i < j < |t| && t[i] == '<'
      ensures t[j] != '>' && t[j] != ':'
    {
      assert pattern[l.tk + i] == '<' && pattern[l.tk + j] == t[j];
    }
    var h := HoleAt(pattern, idx, l);
    forall i | 0 <= i < |h.name|
      ensures h.name[i] !in {'<', '>', ':'}
    {
      assert h.name[i] == pattern[l.chev + 1 + i];
    }
    if h.meta.Some? {
      forall i | 0 <= i < |h.meta.value|
        ensures h.meta.value[i] !in {'<', '>'}
      {
        assert h.meta.value[i] == pattern[l.cln + 1 + i];
      }
    }
  }

  lemma SeesEnd(pattern: string, l: Lex)
    requires Sees(pattern, l, |pattern|)
    ensures l.tk < |pattern| ==> TextOk(pattern[l.tk..], false)
  {
    var t := pattern[l.tk..];
    forall i, j | 0 <= i < j < |t| && t[i] == '<'
      ensures t[j] != '>'
    {
      assert pattern[l.tk + i] == '<' && pattern[l.tk + j] == t[j];
    }
  }

  lemma PiecesText(t: string, p: Piece, ps: seq<Piece>)
    requires (t != "" ==> TextOk(t, true)) && p.Hole? && HoleOk(p.name, p.meta) && PiecesOk(ps)
    ensures PiecesOk(TextIf(t) + ([p] + ps))
  {
    var all := [p] + ps;
    assert all[1..] == ps && (TextIf(t) + all)[|TextIf(t)|..] == all;
    hide TextOk, HoleOk;
    assert PiecesOk(all);
  }

  lemma {:induction false} ReadOk(pattern: string, idx: nat, l: Lex)
    requires idx <= |pattern| && Sees(pattern, l, idx)
    ensures PiecesOk(ReadFrom(pattern, idx, l).ps)
    decreases |pattern| - idx
  {
    hide Sees, HoleAt, TextOk, HoleOk;
    SeesMarks(pattern, l, idx);
    if idx == |pattern| {
      SeesEnd(pattern, l);
    } else if !Closing(pattern[idx], l) {
      SeesMore(pattern, l, idx);
      ReadOk(pattern, idx + 1, Move(pattern[idx], l, idx));
    } else if !Broken(l) {
      SeesFresh(pattern, idx + 1);
      ReadOk(pattern, idx + 1, Fresh(idx + 1));
      SeesHole(pattern, idx, l);
      PiecesText(pattern[l.tk..l.chev], HoleAt(pattern, idx, l), ReadFrom(pattern, idx + 1, Fresh(idx + 1)).ps);
    }
  }

  lemma SeesMarks(pattern: string, l: Lex, idx: nat)
    requires Sees(pattern, l, idx)
    ensures Marks(pattern, l, idx)
  {
  }

  // ---------------------------------------------------------------- the pieces of a rendered text

  /** Without a '>' behind a '<' the scan moves on. */
  lemma {:induction false} ReadOn(pattern: string, tk: nat, j: nat) returns (l: Lex)
    requires tk <= j <= |pattern|
    requires forall h, i :: tk <= h < i < j && pattern[h] == '<' ==> pattern[i] != '>'
    ensures Sees(pattern, l, j) && l.tk == tk && ReadFrom(pattern, tk, Fresh(tk)) == ReadFrom(pattern, j, l)
    decreases j - tk
  {
    hide Sees, HoleAt;
    if j == tk {
      l := Fresh(tk);
      SeesFresh(pattern, tk);
    } else {
      var l' := ReadOn(pattern, tk, j - 1);
      SeesMarks(pattern, l', j - 1);
      SeesMore(pattern, l', j - 1);
      l := Move(pattern[j - 1], l', j - 1);
    }
  }

  /** The text from i on starts with a hole, whose '<' stands there, its ':' at k and its '>' at j. */
  ghost predicate HoleStands(pattern: string, i: nat, k: int, j: nat)
  {
    && i < j < |pattern| && pattern[i] == '<' && pattern[j] == '>'
    && (forall h :: i < h < j ==> pattern[h] != '<' && pattern[h] != '>')
    && (if k == -1 then forall h :: i < h < j ==> pattern[h] != ':'
        else i < k < j && pattern[k] == ':' && forall h :: i < h < k ==> pattern[h] != ':')
  }

  lemma ReadHole(pattern: string, tk: nat, i: nat, k: int, j: nat)
    requires HoleStands(pattern, i, k, j) && tk <= i
    requires forall g, h :: tk <= g < h < i && pattern[g] == '<' ==> pattern[h] != '>' && pattern[h] != ':'
    ensures LexOk(Lex(tk, i, k), j)
    ensures var r := ReadFrom(pattern, j + 1, Fresh(j + 1));
      ReadFrom(pattern, tk, Fresh(tk)) == Reading(TextIf(pattern[tk..i]) + ([HoleAt(pattern, j, Lex(tk, i, k))] + r.ps), r.whole)
  {
    var l := ReadOn(pattern, tk, j);
    assert l.chev == i;
    if k != -1 {
      assert l.cln != -1;
    }
    if l.cln != -1 {
      var g :| tk <= g < l.cln && pattern[g] == '<';
      assert l.cln >= i;
    }
    assert l == Lex(tk, i, k);
  }

  lemma PrefixSlices(s: string, i: nat, a: string, b: string)
    requires i <= |s| && s[i..] == a + b
    ensures i + |a| <= |s| && s[i..i + |a|] == a && s[i + |a|..] == b
    ensures forall k :: 0 <= k < |a| ==> s[i + k] == a[k]
  {
    assert s[i..i + |a|] == s[i..][..|a|];
    assert s[i + |a|..] == s[i..][|a|..];
    forall k | 0 <= k < |a|
      ensures s[i + k] == a[k]
    {
      assert s[i..][k] == s[i + k];
    }
  }

  lemma WithoutSlice(s: string, i: nat, a: string, cs: set<char>)
    requires i + |a| <= |s| && Without(a, cs) && forall k :: 0 <= k < |a| ==> s[i + k] == a[k]
    ensures forall h :: i <= h < i + |a| ==> s[h] !in cs
  {
    forall h | i <= h < i + |a|
      ensures s[h] !in cs
    {
      assert s[i + (h - i)] == a[h - i];
    }
  }

  lemma NamePlaced(s: string, i: nat, n: string, end: string, rest: string)
    requires i <= |s| && Without(n, {'<', '>', ':'}) && s[i..] == ("<" + (n + end)) + rest
    ensures var k := i + 1 + |n|;
      && k <= |s| && s[i] == '<' && s[i + 1..k] == n && s[k..] == end + rest
      && forall h :: i < h < k ==> s[h] !in {'<', '>', ':'}
  {
    Joined("<", n + end, rest);
    Joined(n, end, rest);
    PrefixSlices(s, i, "<", n + (end + rest));
    PrefixSlices(s, i + 1, n, end + rest);
    assert s[i + 0] == "<"[0];
    WithoutSlice(s, i + 1, n, {'<', '>', ':'});
    hide *;
  }

  lemma EndPlaced(s: string, j: nat, c: char, rest: string)
    requires j <= |s| && s[j..] == [c] + rest
    ensures j < |s| && s[j] == c && s[j + 1..] == rest
  {
    PrefixSlices(s, j, [c], rest);
    assert s[j + 0] == [c][0];
  }

  lemma MetaPlaced(s: string, k: nat, m: string, rest: string)
    requires k <= |s| && Without(m, {'<', '>'}) && s[k..] == (":" + (m + ">")) + rest
    ensures var j := k + 1 + |m|;
      && j < |s| && s[k] == ':' && s[k + 1..j] == m && s[j] == '>' && s[j + 1..] == rest
      && forall h :: k < h < j ==> s[h] !in {'<', '>'}
  {
    Joined(":", m + ">", rest);
    Joined(m, ">", rest);
    EndPlaced(s, k, ':', m + (">" + rest));
    PrefixSlices(s, k + 1, m, ">" + rest);
    EndPlaced(s, k + 1 + |m|, '>', rest);
    WithoutSlice(s, k + 1, m, {'<', '>'});
    hide *;
  }

  /** A rendered hole stands where it was rendered. */
  lemma HoleRendered(s: string, i: nat, n: string, m: Option<string>, rest: string)
    requires i <= |s| && HoleOk(n, m) && s[i..] == RenderPiece(Hole(n, m)) + rest
    ensures var k := if m.Some? then i + 1 + |n| else -1; var j := i + |RenderPiece(Hole(n, m))| - 1;
      && HoleStands(s, i, k, j) && s[j + 1..] == rest
      && forall tk :: 0 <= tk <= i ==> HoleAt(s, j, Lex(tk, i, k)) == Hole(n, m)
  {
    hide RenderPiece, HoleStands, Without;
    match m
    case Some(v) =>
      RenderMeta(n, v);
      MetaRendered(s, i, n, v, rest);
    case None =>
      RenderBare(n);
      BareRendered(s, i, n, rest);
  }

  lemma BareRendered(s: string, i: nat, n: string, rest: string)
    requires i <= |s| && Without(n, {'<', '>', ':'}) && s[i..] == ("<" + (n + ">")) + rest
    ensures var j := i + 1 + |n|; HoleStands(s, i, -1, j) && s[j + 1..] == rest && s[i + 1..j] == n
  {
    NamePlaced(s, i, n, ">", rest);
    EndPlaced(s, i + 1 + |n|, '>', rest);
    hide Without;
  }

  lemma MetaRendered(s: string, i: nat, n: string, m: string, rest: string)
    requires i <= |s| && Without(n, {'<', '>', ':'}) && Without(m, {'<', '>'}) && s[i..] == ("<" + (n + (":" + (m + ">")))) + rest
    ensures var k := i + 1 + |n|; var j := k + 1 + |m|;
      HoleStands(s, i, k, j) && s[j + 1..] == rest && s[i + 1..k] == n && s[k + 1..j] == m
  {
    var k := i + 1 + |n|;
    NamePlaced(s, i, n, ":" + (m + ">"), rest);
    MetaPlaced(s, k, m, rest);
    hide Without;
    MetaStands(s, i, k, k + 1 + |m|);
  }

  lemma MetaStands(s: string, i: nat, k: nat, j: nat)
    requires i < k < j < |s| && s[i] == '<' && s[k] == ':' && s[j] == '>'
    requires forall h :: i < h < k ==> s[h] !in {'<', '>', ':'}
    requires forall h :: k < h < j ==> s[h] !in {'<', '>'}
    ensures HoleStands(s, i, k, j)
  {
  }

  /** A literal before it is read as such. */
  lemma TextRendered(s: string, tk: nat, t: string, rest: string)
    requires tk <= |s| && (t != "" ==> TextOk(t, true)) && s[tk..] == t + rest
    ensures var i := tk + |t|;
      && i <= |s| && s[i..] == rest && s[tk..i] == t
      && forall g, h :: tk <= g < h < i && s[g] == '<' ==> s[h] != '>' && s[h] != ':'
  {
    PrefixSlices(s, tk, t, rest);
    forall g, h | tk <= g < h < tk + |t| && s[g] == '<'
      ensures s[h] != '>' && s[h] != ':'
    {
      assert s[tk + (g - tk)] == t[g - tk] && s[tk + (h - tk)] == t[h - tk];
    }
  }

  lemma ReadText(s: string, tk: nat, t: string, n: string, m: Option<string>, rest: string)
    requires tk <= |s| && (t != "" ==> TextOk(t, true)) && HoleOk(n, m) && s[tk..] == t + (RenderPiece(Hole(n, m)) + rest)
    ensures var j := tk + |t| + |RenderPiece(Hole(n, m))|;
      && j <= |s| && s[j..] == rest
      && ReadFrom(s, tk, Fresh(tk)) == Reading(TextIf(t) + ([Hole(n, m)] + ReadFrom(s, j, Fresh(j)).ps), ReadFrom(s, j, Fresh(j)).whole)
  {
    hide RenderPiece, HoleAt, TextOk, HoleOk, HoleStands, ReadFrom;
    TextRendered(s, tk, t, RenderPiece(Hole(n, m)) + rest);
    var i := tk + |t|;
    HoleRendered(s, i, n, m, rest);
    hide TextIf;
    var k := if m.Some? then i + 1 + |n| else -1;
    var j := i + |RenderPiece(Hole(n, m))| - 1;
    StandsWithin(s, i, k, j);
    ReadHole(s, tk, i, k, j);
  }

  lemma StandsWithin(s: string, i: nat, k: int, j: nat)
    requires HoleStands(s, i, k, j)
    ensures i < j < |s|
  {
  }

  /** Reading the text of pieces gives these pieces. */
  lemma {:induction false} ReadPieces(s: string, tk: nat, ps: seq<Piece>)
    requires tk <= |s| && PiecesOk(ps) && s[tk..] == Render(ps)
    ensures ReadFrom(s, tk, Fresh(tk)) == Reading(ps, true)
    decreases |ps|
  {
    hide ReadFrom, TextOk, HoleOk, RenderPiece;
    if ps == [] {
      ReadNothing(s, tk);
    } else if ps[0].Hole? {
      var n, m, rest := ps[0].name, ps[0].meta, ps[1..];
      NoText(RenderPiece(ps[0]) + Render(rest));
      ReadText(s, tk, "", n, m, Render(rest));
      ReadPieces(s, tk + |RenderPiece(ps[0])|, rest);
      NoPiece([ps[0]] + rest);
    } else if |ps| == 1 {
      ReadLast(s, tk, ps);
    } else {
      var t, n, m, rest := ps[0].t, ps[1].name, ps[1].meta, ps[1..][1..];
      RenderTwo(ps);
      ReadText(s, tk, t, n, m, Render(rest));
      ReadPieces(s, tk + |t| + |RenderPiece(ps[1])|, rest);
      SplitTwo(ps);
      TextThere(t);
    }
  }

  lemma NoText(s: string)
    ensures "" + s == s
  {
  }

  lemma NoPiece(ps: seq<Piece>)
    ensures TextIf("") + ps == ps
  {
  }

  lemma TextThere(t: string)
    requires TextOk(t, true)
    ensures TextIf(t) == [Text(t)]
  {
  }

  lemma SplitTwo(ps: seq<Piece>)
    requires |ps| > 1
    ensures ps == [ps[0]] + ([ps[1]] + ps[1..][1..])
  {
  }

  lemma RenderTwo(ps: seq<Piece>)
    requires |ps| > 1 && ps[0].Text?
    ensures Render(ps) == ps[0].t + (RenderPiece(ps[1]) + Render(ps[1..][1..]))
  {
  }

  lemma ReadNothing(s: string, tk: nat)
    requires tk <= |s| && s[tk..] == ""
    ensures ReadFrom(s, tk, Fresh(tk)) == Reading([], true)
  {
  }

  lemma ReadLast(s: string, tk: nat, ps: seq<Piece>)
    requires tk <= |s| && |ps| == 1 && ps[0].Text? && TextOk(ps[0].t, false) && s[tk..] == Render(ps)
    ensures ReadFrom(s, tk, Fresh(tk)) == Reading(ps, true)
  {
    var t := ps[0].t;
    assert t + "" == t && Render(ps[1..]) == "";
    forall g, h | tk <= g < h < |s| && s[g] == '<'
      ensures s[h] != '>'
    {
      assert s[tk..][g - tk] == s[g] && s[tk..][h - tk] == s[h];
    }
    var l := ReadOn(s, tk, |s|);
  }

  /** Texts read as pieces and pieces rendered as texts are inverse: every text that is whole is the
      rendering of the pieces it reads as, and of no others. */
  lemma ReadExact(pattern: string, ps: seq<Piece>)
    requires PiecesOk(ps)
    ensures Render(ps) == pattern <==> Read(pattern) == Reading(ps, true)
  {
    assert pattern[0..] == pattern;
    if Render(ps) == pattern {
      ReadPieces(pattern, 0, ps);
    }
    SeesFresh(pattern, 0);
    if Read(pattern) == Reading(ps, true) {
      ReadRenders(pattern, 0, Fresh(0));
    }
  }

  lemma RenderCons(p: Piece, ps: seq<Piece>)
    ensures Render([p] + ps) == RenderPiece(p) + Render(ps)
    ensures p.Hole? && HoleOk(p.name, p.meta) && PiecesOk(ps) ==> PiecesOk([p] + ps)
    ensures p.Text? && ps != [] && ps[0].Hole? && TextOk(p.t, true) && PiecesOk(ps) ==> PiecesOk([p] + ps)
  {
    assert ([p] + ps)[1..] == ps;
    hide RenderPiece, TextOk, HoleOk;
  }

  /** A '<' that no '>' closes is part of a literal. */
  lemma BracketInText()
    ensures Read("<foo> < <bar>") == Reading([Hole("foo", None), Text(" < "), Hole("bar", None)], true)
  {
    BracketPieces();
    hide *;
    ReadExact("<foo> < <bar>", [Hole("foo", None), Text(" < "), Hole("bar", None)]);
  }

  lemma BracketPieces()
    ensures var ps := [Hole("foo", None), Text(" < "), Hole("bar", None)]; PiecesOk(ps) && Render(ps) == "<foo> < <bar>"
  {
    var foo, lt, bar := Hole("foo", None), Text(" < "), Hole("bar", None);
    assert HoleOk("foo", None) && HoleOk("bar", None) && TextOk(" < ", true);
    hide HoleOk, TextOk, Render, RenderPiece;
    RenderBare("foo");
    RenderBare("bar");
    RenderedText(" < ");
    RenderNone();
    RenderCons(bar, []);
    RenderCons(lt, [bar]);
    RenderCons(foo, [lt, bar]);
    assert [bar] + [] == [bar] && [lt] + [bar] == [lt, bar] && [foo] + [lt, bar] == [foo, lt, bar];
    Spelled();
  }

  lemma Spelled()
    ensures "<" + ("foo" + ">") + (" < " + ("<" + ("bar" + ">") + "")) == "<foo> < <bar>"
  {
  }

  lemma RenderedText(t: string)
    ensures RenderPiece(Text(t)) == t
  {
  }

  lemma RenderNone()
    ensures Render([]) == "" && PiecesOk([])
  {
  }

  /** The pieces of a text are in normal form, and rendered they are the text. */
  lemma ReadWhole(pattern: string)
    requires Read(pattern).whole
    ensures PiecesOk(Read(pattern).ps) && Render(Read(pattern).ps) == pattern
  {
    assert pattern[0..] == pattern;
    SeesFresh(pattern, 0);
    ReadOk(pattern, 0, Fresh(0));
    ReadRenders(pattern, 0, Fresh(0));
  }

  // ---------------------------------------------------------------- which texts are accepted

  const Lower: set<char> :=
    {'a', 'b', 'c', 'd', 'e', 'f', 'g', 'h', 'i', 'j', 'k', 'l', 'm', 'n', 'o', 'p', 'q', 'r', 's', 't', 'u', 'v', 'w', 'x', 'y', 'z', '_'}

  const Digits: set<char> := {'0', '1', '2', '3', '4', '5', '6', '7', '8', '9'}

  /** A name of small letters, underscores, and digits that are not first. */
  predicate NameOk(n: string)
  {
    forall i :: 0 <= i < |n| ==> n[i] in Lower || (i > 0 && n[i] in Digits)
  }

  /** Piece k is a hole of this name. */
  predicate Holds(ps: seq<Piece>, k: nat, n: string) { k < |ps| && ps[k].Hole? && ps[k].name == n }

  /** A hole of another name, which is not "_", is between j and k. */
  ghost predicate Interrupted(ps: seq<Piece>, j: nat, k: nat, n: string)
  {
    exists m :: j < m < k <= |ps| && ps[m].Hole? && ps[m].name != n && ps[m].name != "_"
  }

  ghost predicate Stood(ps: seq<Piece>, k: nat, n: string)
  {
    exists j :: 0 <= j < k && Holds(ps, j, n)
  }

  /** The name stands before piece k, and another one between. */
  ghost predicate Parted(ps: seq<Piece>, k: nat, n: string)
  {
    exists j :: 0 <= j < k && Holds(ps, j, n) && Interrupted(ps, j, k, n)
  }

  /** Nothing is wrong with piece k: a hole stands first or behind a literal, has a name, and shares it only
      with holes that no other name parts from it. */
  ghost predicate Fine(ps: seq<Piece>, k: nat)
  {
    k < |ps| && ps[k].Hole? ==> (k > 0 ==> ps[k - 1].Text?) && NameOk(ps[k].name) && (ps[k].name == "_" || !Parted(ps, k, ps[k].name))
  }

  ghost predicate AllFine(ps: seq<Piece>, k: nat)
  {
    forall h :: 0 <= h < k ==> Fine(ps, h)
  }

  /** What is wrong with a piece that is not fine. */
  ghost function Fault(ps: seq<Piece>, k: nat): Error
    requires k < |ps| && ps[k].Hole?
  {
    if k > 0 && ps[k - 1].Hole? then EmptySeparator else if !NameOk(ps[k].name) then InvalidName else Repeated
  }

  /** The error of r is that of the first piece that is not fine, or comes behind fine pieces only. */
  ghost predicate Blames(ps: seq<Piece>, whole: bool, e: Error)
  {
    if AllFine(ps, |ps|) then !whole && e == BadSlice
    else exists k :: 0 <= k < |ps| && ps[k].Hole? && !Fine(ps, k) && AllFine(ps, k) && e == Fault(ps, k)
  }

  lemma LetterIs(c: char)
    ensures 'a' <= c <= 'z' || c == '_' <==> c in Lower
    ensures '0' <= c <= '9' <==> c in Digits
  {
  }

  lemma NameIs(n: string)
    ensures Identifier(n) <==> NameOk(n)
  {
    hide Lower, Digits;
    forall i | 0 <= i < |n|
      ensures 'a' <= n[i] <= 'z' || (i > 0 && '0' <= n[i] <= '9') || n[i] == '_' <==> n[i] in Lower || (i > 0 && n[i] in Digits)
    {
      LetterIs(n[i]);
    }
  }

  /** What has been built tells which names stood before piece k, and which of them are parted from it. */
  ghost predicate Knows(ps: seq<Piece>, k: nat, text: string, b: Built)
  {
    && k <= |ps| && (text == "" <==> k == 0 || ps[k - 1].Hole?)
    && (forall n :: n in b.grm <==> n != "_" && Stood(ps, k, n))
    && (forall n :: n in b.grm ==> (n != b.last <==> Parted(ps, k, n)))
  }

  lemma StoodStep(ps: seq<Piece>, k: nat, n: string)
    requires k < |ps|
    ensures Stood(ps, k + 1, n) <==> Stood(ps, k, n) || Holds(ps, k, n)
  {
  }

  lemma PartedStep(ps: seq<Piece>, k: nat, n: string)
    requires k < |ps|
    ensures Parted(ps, k + 1, n) <==>
      Parted(ps, k, n) || (Stood(ps, k, n) && ps[k].Hole? && ps[k].name != n && ps[k].name != "_")
  {
    if ps[k].Hole? && ps[k].name != n && ps[k].name != "_" && Stood(ps, k, n) {
      var j :| 0 <= j < k && Holds(ps, j, n);
      assert Interrupted(ps, j, k + 1, n);
    }
    if Parted(ps, k, n) {
      var j :| 0 <= j < k && Holds(ps, j, n) && Interrupted(ps, j, k, n);
      assert Interrupted(ps, j, k + 1, n);
    }
    if Parted(ps, k + 1, n) {
      var j :| 0 <= j < k + 1 && Holds(ps, j, n) && Interrupted(ps, j, k + 1, n);
      assert j < k;
      assert Interrupted(ps, j, k, n) || (ps[k].Hole? && ps[k].name != n && ps[k].name != "_");
    }
  }

  lemma KnowsText(ps: seq<Piece>, k: nat, text: string, b: Built)
    requires k < |ps| && ps[k].Text? && ps[k].t != "" && Knows(ps, k, text, b)
    ensures Knows(ps, k + 1, text + ps[k].t, b)
  {
    hide Stood, Parted;
    forall n
      ensures Stood(ps, k + 1, n) <==> Stood(ps, k, n)
      ensures Parted(ps, k + 1, n) <==> Parted(ps, k, n)
    {
      StoodStep(ps, k, n);
      PartedStep(ps, k, n);
    }
  }

  /** A hole is added if and only if it is fine. */
  lemma KnowsHole(ps: seq<Piece>, k: nat, text: string, b: Built, meta: string)
    requires k < |ps| && ps[k].Hole? && Knows(ps, k, text, b)
    ensures var r := AddHole(b, text, k == 0, ps[k].name, meta);
      if Fine(ps, k) then r.Ok? && Knows(ps, k + 1, "", r.value) else r == Err(Fault(ps, k))
  {
    hide Stood, Parted, NameOk, Identifier;
    var n := ps[k].name;
    NameIs(n);
    forall x
      ensures Stood(ps, k + 1, x) <==> Stood(ps, k, x) || x == n
      ensures Parted(ps, k + 1, x) <==> Parted(ps, k, x) || (Stood(ps, k, x) && n != x && n != "_")
    {
      StoodStep(ps, k, x);
      PartedStep(ps, k, x);
    }
    if Parted(ps, k, n) {
      PartedStood(ps, k, n);
    }
  }

  lemma PartedStood(ps: seq<Piece>, k: nat, n: string)
    requires Parted(ps, k, n)
    ensures Stood(ps, k, n)
  {
  }

  ghost predicate Texts(ps: seq<Piece>)
  {
    forall k :: 0 <= k < |ps| && ps[k].Text? ==> ps[k].t != ""
  }

  lemma {:induction false} PiecesTexts(ps: seq<Piece>)
    requires PiecesOk(ps)
    ensures Texts(ps)
  {
    if ps != [] {
      PiecesTexts(ps[1..]);
      assert forall k :: 0 < k < |ps| ==> ps[k] == ps[1..][k - 1];
    }
  }

  /** From piece k on: a grammar if all pieces are fine, and otherwise the fault of the first that is not. */
  ghost predicate Judged(ps: seq<Piece>, r: Result<Grammar>)
  {
    if AllFine(ps, |ps|) then r.Ok? else r.Err? && Blames(ps, true, r.error)
  }

  lemma {:induction false} AssembleJudged(ps: seq<Piece>, k: nat, text: string, b: Built)
    requires Texts(ps) && Knows(ps, k, text, b) && AllFine(ps, k)
    ensures Judged(ps, Assemble(ps[k..], text, k == 0, b))
    decreases |ps| - k
  {
    hide Knows, Fine, AddHole, Fault, Finish;
    KnowsPlace(ps, k, text, b);
    if k < |ps| {
      assert ps[k..][0] == ps[k] && ps[k..][1..] == ps[k + 1..];
      if ps[k].Text? {
        KnowsText(ps, k, text, b);
        TextFine(ps, k);
        AssembleJudged(ps, k + 1, text + ps[k].t, b);
      } else {
        var meta := if ps[k].meta.Some? then ps[k].meta.value else "";
        KnowsHole(ps, k, text, b, meta);
        if Fine(ps, k) {
          AssembleJudged(ps, k + 1, "", AddHole(b, text, k == 0, ps[k].name, meta).value);
        }
      }
    }
  }

  lemma KnowsPlace(ps: seq<Piece>, k: nat, text: string, b: Built)
    requires Knows(ps, k, text, b)
    ensures k <= |ps|
  {
  }

  lemma TextFine(ps: seq<Piece>, k: nat)
    requires k < |ps| && ps[k].Text?
    ensures Fine(ps, k)
  {
  }

  lemma KnowsNothing(ps: seq<Piece>)
    ensures Knows(ps, 0, "", Nothing)
  {
  }

  /** Piece k is the first hole of its name, which is not "_". */
  ghost predicate Begins(ps: seq<Piece>, k: nat)
  {
    k < |ps| && ps[k].Hole? && ps[k].name != "_" && !Stood(ps, k, ps[k].name)
  }

  function MetaOf(p: Piece): string
    requires p.Hole?
  {
    if p.meta.Some? then p.meta.value else ""
  }

  /** The productions of what has been built keep what their first holes say. */
  ghost predicate Keeps(ps: seq<Piece>, k: nat, b: Built)
  {
    k <= |ps| && forall j :: 0 <= j < k && Begins(ps, j) ==> ps[j].name in b.grm && b.grm[ps[j].name].metadata == MetaOf(ps[j])
  }

  /** The grammar has the root and the names of the holes, with the metadata of their first holes. */
  ghost predicate NamesKept(ps: seq<Piece>, g: Grammar)
  {
    && (forall n :: n in g <==> n == "root" || (n != "_" && Stood(ps, |ps|, n)))
    && (forall j :: 0 <= j < |ps| && Begins(ps, j) && ps[j].name != "root" ==>
        ps[j].name in g && g[ps[j].name].metadata == MetaOf(ps[j]))
    && "root" in g && g["root"].expr.Sequence? && g["root"].metadata == ""
  }

  lemma KeepsHole(ps: seq<Piece>, k: nat, text: string, b: Built, b': Built)
    requires k < |ps| && ps[k].Hole? && Knows(ps, k, text, b) && Keeps(ps, k, b)
    requires AddHole(b, text, k == 0, ps[k].name, MetaOf(ps[k])) == Ok(b')
    ensures Keeps(ps, k + 1, b')
  {
    hide Parted, Identifier;
    forall j | 0 <= j < k && Begins(ps, j)
      ensures Stood(ps, k, ps[j].name)
    {
      assert Holds(ps, j, ps[j].name);
    }
    hide Stood;
  }

  lemma {:induction false} AssembleKeeps(ps: seq<Piece>, k: nat, text: string, b: Built, g: Grammar)
    requires Texts(ps) && Knows(ps, k, text, b) && Keeps(ps, k, b) && AllFine(ps, k)
    requires Assemble(ps[k..], text, k == 0, b) == Ok(g)
    ensures NamesKept(ps, g)
    decreases |ps| - k
  {
    hide Knows, Keeps, Fine, AddHole, Fault, NamesKept;
    KnowsPlace(ps, k, text, b);
    if k < |ps| {
      assert ps[k..][0] == ps[k] && ps[k..][1..] == ps[k + 1..];
      if ps[k].Text? {
        KnowsText(ps, k, text, b);
        TextFine(ps, k);
        KeepsText(ps, k, b);
        AssembleKeeps(ps, k + 1, text + ps[k].t, b, g);
      } else {
        KnowsHole(ps, k, text, b, MetaOf(ps[k]));
        var b' := AddHole(b, text, k == 0, ps[k].name, MetaOf(ps[k])).value;
        KeepsHole(ps, k, text, b, b');
        AssembleKeeps(ps, k + 1, "", b', g);
      }
    } else {
      FinishKeeps(ps, text, b, g);
    }
  }

  lemma KeepsText(ps: seq<Piece>, k: nat, b: Built)
    requires k < |ps| && ps[k].Text? && Keeps(ps, k, b)
    ensures Keeps(ps, k + 1, b)
  {
  }

  lemma FinishKeeps(ps: seq<Piece>, text: string, b: Built, g: Grammar)
    requires Knows(ps, |ps|, text, b) && Keeps(ps, |ps|, b) && g == Finish(b, text)
    ensures NamesKept(ps, g)
  {
    hide Parted, Stood;
  }

  /** The productions of an accepted text. */
  lemma PatternNames(pattern: string)
    requires Compiled(pattern).Ok?
    ensures NamesKept(Read(pattern).ps, Compiled(pattern).value)
  {
    var ps := Read(pattern).ps;
    PatternAssembles(pattern);
    SeesFresh(pattern, 0);
    ReadOk(pattern, 0, Fresh(0));
    PiecesTexts(ps);
    KnowsNothing(ps);
    assert ps[0..] == ps;
    hide Read, Compiled, PiecesOk, Knows, Assemble, Fine, Sees, ReadFrom;
    AssembleKeeps(ps, 0, "", Nothing, Compiled(pattern).value);
  }

  /** A text is accepted if and only if it is whole and all its pieces are fine; otherwise the error is that
      of the first piece that is not, and the panic comes behind them all. */
  ghost predicate Accepted(pattern: string)
  {
    Read(pattern).whole && AllFine(Read(pattern).ps, |Read(pattern).ps|)
  }

  /** What the pieces of the text say about the result. */
  ghost predicate Settled(pattern: string, r: Result<Grammar>)
  {
    && (r.Ok? <==> Accepted(pattern))
    && (r.Err? ==> Blames(Read(pattern).ps, Read(pattern).whole, r.error))
    && (r.Ok? ==> NamesKept(Read(pattern).ps, r.value))
  }

  lemma Acceptance(pattern: string)
    ensures Settled(pattern, Compiled(pattern))
  {
    if Compiled(pattern).Ok? {
      PatternNames(pattern);
    }
    var ps := Read(pattern).ps;
    PatternAssembles(pattern);
    SeesFresh(pattern, 0);
    ReadOk(pattern, 0, Fresh(0));
    PiecesTexts(ps);
    KnowsNothing(ps);
    assert ps[0..] == ps;
    hide Read, Compiled, PiecesOk, Knows, Assemble, Fine, Sees, ReadFrom;
    AssembleJudged(ps, 0, "", Nothing);
  }

  /** A text that is not whole: behind the pieces that are read a ':' stands between two '<', before a '>'. */
  lemma BrokenText(pattern: string)
    requires !Read(pattern).whole
    ensures exists t: string :: Render(Read(pattern).ps) + t == pattern && Tangled(t)
  {
    assert pattern[0..] == pattern;
    SeesFresh(pattern, 0);
    var t := ReadTangled(pattern, 0, Fresh(0));
  }

  ghost predicate Tangled(t: string)
  {
    exists i, h, k, j :: 0 <= i < h < k < j < |t| && t[i] == '<' && t[h] == ':' && t[k] == '<' && t[j] == '>'
  }

  lemma {:induction false} ReadTangled(pattern: string, idx: nat, l: Lex) returns (t: string)
    requires idx <= |pattern| && Sees(pattern, l, idx) && !ReadFrom(pattern, idx, l).whole
    ensures Render(ReadFrom(pattern, idx, l).ps) + t == pattern[l.tk..] && Tangled(t)
    decreases |pattern| - idx
  {
    hide Sees, Render, RenderPiece, HoleAt, Tangled;
    SeesMarks(pattern, l, idx);
    if !Closing(pattern[idx], l) {
      SeesMore(pattern, l, idx);
      t := ReadTangled(pattern, idx + 1, Move(pattern[idx], l, idx));
    } else if Broken(l) {
      t := pattern[l.tk..];
      RenderNone();
      NoText(t);
      SeesTangle(pattern, idx, l);
    } else {
      SeesFresh(pattern, idx + 1);
      t := ReadTangled(pattern, idx + 1, Fresh(idx + 1));
      HoleText(pattern, idx, l);
      var ps, p, text := ReadFrom(pattern, idx + 1, Fresh(idx + 1)).ps, HoleAt(pattern, idx, l), pattern[l.tk..l.chev];
      RenderText(text, p, ps);
      Joined(RenderPiece(p), Render(ps), t);
      Joined(text, RenderPiece(p) + Render(ps), t);
    }
  }

  lemma SeesTangle(pattern: string, idx: nat, l: Lex)
    requires idx < |pattern| && Sees(pattern, l, idx) && Closing(pattern[idx], l) && Broken(l)
    ensures Tangled(pattern[l.tk..])
  {
    hide Tangled;
    var t := pattern[l.tk..];
    var i :| l.tk <= i < l.cln && pattern[i] == '<';
    assert l.cln != l.chev;
    Tangle(t, i - l.tk, l.cln - l.tk, l.chev - l.tk, idx - l.tk);
  }

  lemma Tangle(t: string, i: nat, h: nat, k: nat, j: nat)
    requires i < h < k < j < |t| && t[i] == '<' && t[h] == ':' && t[k] == '<' && t[j] == '>'
    ensures Tangled(t)
  {
  }
}
