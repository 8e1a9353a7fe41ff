/** backtrack of internal/mdt/backtrack.go on linked programs, and what a compiled line pattern does
    with a line: it accepts exactly the lines that split, and its record holds the captures of the
    leftmost split. */
module PatternBacktrack {
  import opened Wrappers
  import opened Strings
  import opened PatternSplit
  import opened PatternCompile
  import opened PatternMachine

  const RuneError := 0xFFFD

  datatype Thread = Thread(pc: int, rp: nat, cp: nat)

  ghost predicate Ascii(s: string)
  {
    forall i :: 0 <= i < |s| ==> s[i] as int < 0x80
  }

  function Saves(ops: seq<Op>): nat
  {
    if ops == [] then 0 else (if ops[0].Save? then 1 else 0) + Saves(ops[1..])
  }

  /** No skip past the end of the line, and no split, is ever reached. */
  ghost predicate Safe(ops: seq<Op>, s: string, rp: nat)
    requires rp <= |s|
    decreases |ops|
  {
    ops == [] ||
    match ops[0]
    case Range(c) => rp < |s| && s[rp] == c ==> Safe(ops[1..], s, rp + 1)
    case Skip(st) => rp + |st| <= |s| && Safe(ops[1..], s, rp + |st|)
    case Scan(st) => Index(s[rp..], st) >= 0 ==> Safe(ops[1..], s, rp + Index(s[rp..], st))
    case Save(_) => Safe(ops[1..], s, rp)
    case Term => Safe(ops[1..], s, rp)
    case End => Safe(ops[1..], s, |s|)
    case Stuck => false
  }

  /** The thread at pc stands before instruction k, and its result is that of the whole program. */
  ghost predicate Running(mem: seq<Instr>, path: seq<int>, ops: seq<Op>, s: string, k: nat, pc: int, rp: nat, events: seq<Event>)
  {
    && Linked(mem, path, ops) && k <= |path| && pc == Head(path[k..]) && rp <= |s| && Safe(ops[k..], s, rp)
    && Exec(ops[k..], s, rp, events) == Exec(ops, s, 0, [])
  }

  /** What one instruction does to a thread. */
  ghost predicate Steps(mem: seq<Instr>, path: seq<int>, ops: seq<Op>, s: string, k: nat, pc: int, rp: nat, events: seq<Event>)
  {
    && 0 < pc < |mem| && k < |ops| && rp <= |s|
    && var i := mem[pc];
       match i.op
       case OpSkip => rp + |i.st| <= |s| && Running(mem, path, ops, s, k + 1, i.x, rp + |i.st|, events)
       case OpScan =>
         var a := Index(s[rp..], i.st);
         if a < 0 then Exec(ops, s, 0, []) == None else Running(mem, path, ops, s, k + 1, i.x, rp + a, events)
       case OpRange =>
         if rp < |s| && i.lo <= s[rp] as int <= i.hi then Running(mem, path, ops, s, k + 1, i.x, rp + 1, events)
         else Exec(ops, s, 0, []) == None
       case OpSave => ops[k].Save? && Running(mem, path, ops, s, k + 1, i.x, rp, events + [Started(i.st, rp)])
       case OpTerm => Running(mem, path, ops, s, k + 1, i.x, rp, events + [Ended(rp)])
       case OpEnd => Running(mem, path, ops, s, k + 1, i.x, |s|, events)
       case _ => false
  }

  lemma Next(mem: seq<Instr>, path: seq<int>, ops: seq<Op>, s: string, k: nat, pc: int, rp: nat, events: seq<Event>)
    requires Running(mem, path, ops, s, k, pc, rp, events) && pc != 0
    ensures Steps(mem, path, ops, s, k, pc, rp, events)
  {
    hide Linked;
    Step(mem, path, ops, k);
    var rest := ops[k..];
    assert rest[0] == ops[k] && rest[1..] == ops[k + 1..];
  }

  lemma Start(mem: seq<Instr>, path: seq<int>, ops: seq<Op>, s: string)
    requires Linked(mem, path, ops) && Safe(ops, s, 0)
    ensures Running(mem, path, ops, s, 0, Head(path), 0, [])
  {
    assert path[0..] == path && ops[0..] == ops;
  }

  lemma Stop(mem: seq<Instr>, path: seq<int>, ops: seq<Op>, s: string, k: nat, rp: nat, events: seq<Event>)
    requires Running(mem, path, ops, s, k, 0, rp, events)
    ensures Exec(ops, s, 0, []) == Some(Out(rp, events))
  {
    Step(mem, path, ops, k);
  }

  lemma SavesAt(ops: seq<Op>, k: nat)
    requires k < |ops|
    ensures Saves(ops[k..]) == (if ops[k].Save? then 1 else 0) + Saves(ops[k + 1..])
  {
    assert ops[k..][1..] == ops[k + 1..];
  }

  ghost predicate PairsUp(ops: seq<Op>, s: string)
  {
    Accepts(ops, s) ==> Paired(Exec(ops, s, 0, []).value.events)
  }

  /** The captures of the thread, with room for those to come. */
  ghost predicate Noted(refs: seq<string>, caps: seq<Capture>, ops: seq<Op>, k: nat, events: seq<Event>)
  {
    && CapsOk(refs, caps) && View(refs, caps) == [Started("root", 0)] + events
    && k <= |ops| && |refs| + Saves(ops[k..]) <= EndMark
  }

  lemma Room(refs: seq<string>, caps: seq<Capture>, ops: seq<Op>, k: nat, events: seq<Event>)
    requires Noted(refs, caps, ops, k, events) && k < |ops| && ops[k].Save?
    ensures CapsOk(refs, caps) && |refs| < EndMark
  {
    SavesAt(ops, k);
  }

  lemma Note(refs: seq<string>, caps: seq<Capture>, refs': seq<string>, caps': seq<Capture>, ops: seq<Op>, k: nat, events: seq<Event>, more: seq<Event>)
    requires Noted(refs, caps, ops, k, events) && k < |ops|
    requires CapsOk(refs', caps') && |refs'| <= |refs| + (if ops[k].Save? then 1 else 0)
    requires View(refs', caps') == View(refs, caps) + more
    ensures Noted(refs', caps', ops, k + 1, events + more)
  {
    SavesAt(ops, k);
    assert [Started("root", 0)] + events + more == [Started("root", 0)] + (events + more);
  }

  lemma NoNote(refs: seq<string>, caps: seq<Capture>, ops: seq<Op>, k: nat, events: seq<Event>)
    requires Noted(refs, caps, ops, k, events) && k < |ops|
    ensures CapsOk(refs, caps) && Noted(refs, caps, ops, k + 1, events)
  {
    SavesAt(ops, k);
  }

  lemma FirstNote(refs: seq<string>, caps: seq<Capture>, ops: seq<Op>)
    requires CapsOk(refs, caps) && |refs| <= 1 && View(refs, caps) == [Started("root", 0)] && Saves(ops) < EndMark
    ensures Noted(refs, caps, ops, 0, []) && |caps| == 1
  {
    assert ops[0..] == ops && View(refs, caps) == [Started("root", 0)] + [];
    assert |View(refs, caps)| == |caps|;
  }

  ghost function Captured(ops: seq<Op>, s: string): seq<Span>
    requires Accepts(ops, s) && PairsUp(ops, s)
  {
    Spans(Exec(ops, s, 0, []).value.events)
  }

  /** The machine, on a line within its length limit. */
  method Backtrack(mem: seq<Instr>, start: int, s: string, ghost path: seq<int>, ghost ops: seq<Op>)
    returns (ok: bool, nds: array<Node>, root: int, ghost kids: seq<int>)
    requires Linked(mem, path, ops) && start == Head(path)
    requires |s| <= 0xFFFF && Ascii(s) && Safe(ops, s, 0) && Saves(ops) < EndMark && PairsUp(ops, s)
    ensures ok <==> Accepts(ops, s)
    ensures fresh(nds) && root == 0
    ensures Tree(nds[..], Root.(hi := |s|), kids, if ok then Cleaned(Captured(ops, s)) else [])
  {
    hide Linked, Safe, Running, Exec, Tree, CapsOk, View, Noted, Saves, Paired, Spans, Cleaned;
    var ready := [Thread(start, 0, 1)];
    var caps := new Captures();
    Start(mem, path, ops, s);
    NoCaps();
    caps.StartCap("root", 0);
    FirstNote(caps.refs, caps.caps, ops);
    var lastrune := RuneError;
    while |ready| > 0
      invariant fresh(caps) && lastrune == RuneError
      invariant if |ready| == 0 then !Accepts(ops, s)
                else ready == [Thread(start, 0, 1)] && |caps.caps| == 1 && Noted(caps.refs, caps.caps, ops, 0, [])
    {
      var t := ready[|ready| - 1];
      ready := ready[..|ready| - 1];
      var pc := t.pc;
      var rp: nat := t.rp;
      assert caps.caps[..1] == caps.caps;
      caps.Rewind(t.cp);
      ghost var k: nat := 0;
      ghost var events := [];
      label THREADLOOP: while pc != 0
        invariant fresh(caps) && lastrune == RuneError
        invariant Running(mem, path, ops, s, k, pc, rp, events) && Noted(caps.refs, caps.caps, ops, k, events)
        decreases |ops| - k
      {
        Next(mem, path, ops, s, k, pc, rp, events);
        ghost var refs0, caps0 := caps.refs, caps.caps;
        NoNote(refs0, caps0, ops, k, events);
        match mem[pc].op {
        case OpSkip =>
          rp := rp + |mem[pc].st|;
          pc := mem[pc].x;
          lastrune := RuneError;
        case OpScan =>
          var advance := Index(s[rp..], mem[pc].st);
          if advance < 0 {
            break THREADLOOP;
          }
          rp := rp + advance;
          pc := mem[pc].x;
          lastrune := RuneError;
        case OpRange =>
          if rp == |s| {
            break THREADLOOP;
          }
          lastrune := s[rp] as int;
          if mem[pc].lo <= lastrune <= mem[pc].hi {
            lastrune := RuneError;
            rp := rp + 1;
            pc := mem[pc].x;
          } else {
            lastrune := RuneError;
            break THREADLOOP;
          }
        case OpSave =>
          Room(refs0, caps0, ops, k, events);
          caps.StartCap(mem[pc].st, rp);
          Note(refs0, caps0, caps.refs, caps.caps, ops, k, events, [Started(mem[pc].st, rp)]);
          events := events + [Started(mem[pc].st, rp)];
          pc := mem[pc].x;
        case OpTerm =>
          caps.EndCap(rp);
          Note(refs0, caps0, caps.refs, caps.caps, ops, k, events, [Ended(rp)]);
          events := events + [Ended(rp)];
          pc := mem[pc].x;
        case OpEnd =>
          rp := |s|;
          pc := mem[pc].x;
        case _ =>
          assert false;
        }
        k := k + 1;
      }
      if pc == 0 {
        Stop(mem, path, ops, s, k, rp, events);
        if rp == |s| {
          AllNoted(caps.refs, caps.caps, ops, k, events);
          nds, root, kids := BuildRecord(caps.refs, caps.caps, events);
          RootSets(nds[..], Root, Root.(hi := |s|), kids, Cleaned(Spans(events)));
          RootIs(nds[..], kids, Cleaned(Spans(events)));
          ghost var ns := nds[..];
          nds[root] := nds[root].(hi := |s|);
          assert nds[..] == ns[0 := ns[0].(hi := |s|)];
          return true, nds, root, kids;
        }
      }
    }
    nds := new Node[1](_ => Root.(hi := |s|));
    LoneRoot(nds[..], Root.(hi := |s|));
    return false, nds, 0, [];
  }

  lemma NoCaps()
    ensures CapsOk([], []) && View([], []) == []
  {
  }

  lemma AllNoted(refs: seq<string>, caps: seq<Capture>, ops: seq<Op>, k: nat, events: seq<Event>)
    requires Noted(refs, caps, ops, k, events) && Paired(events)
    ensures Saw(refs, caps, events)
  {
  }

  lemma RootIs(ns: seq<Node>, kids: seq<int>, spans: seq<Span>)
    requires Tree(ns, Root, kids, spans)
    ensures |ns| > 0 && ns[0] == Root.(parent := -1, next := -1, chil := ns[0].chil)
  {
  }

  lemma LoneRoot(ns: seq<Node>, root: Node)
    requires ns == [root] && root.parent == -1 && root.next == -1 && root.chil == -1
    ensures Tree(ns, root, [], [])
  {
  }
}
