/** What every step of the directory walk keeps. */
module WalkSafety {
  import opened Wrappers
  import opened WalkModel

  // ---------------------------------------------------------------- outstanding paths

  /** The path a worker still has to answer for. */
  function Own(k: Worker): multiset<string> { if k.task.Exiting? then multiset{} else multiset{k.path} }

  /** The paths of workers that have not answered. */
  function Unanswered(ws: seq<Worker>): multiset<string>
  {
    if ws == [] then multiset{} else Own(ws[0]) + Unanswered(ws[1..])
  }

  function Held(m: MainLoop): multiset<string> { if m.Going? then multiset{m.path} else multiset{} }

  /** Paths handed out and not answered yet. */
  function InFlight(m: MainLoop, ws: seq<Worker>): multiset<string>
  {
    Held(m) + Unanswered(ws)
  }

  /** Paths to hand out: the stack, the one at its top, and before the first step the start. */
  function Waitlist(nextup: seq<string>, l: string, coord: Coordinator, dir: string): multiset<string>
  {
    multiset(nextup) + (if l == "" then multiset{} else multiset{l}) + (if coord == Init then multiset{dir} else multiset{})
  }

  /** Every path met so far: waiting, in flight or answered. */
  function Met(s: State, dir: string): multiset<string>
  {
    Waitlist(s.nextup, s.l, s.coord, dir) + InFlight(s.main, s.workers) + multiset(s.answered)
  }

  lemma {:induction false} UnansweredSet(ws: seq<Worker>, i: nat, k: Worker)
    requires i < |ws|
    ensures Unanswered(ws[i := k]) + Own(ws[i]) == Unanswered(ws) + Own(k)
  {
    hide Own;
    var ws' := ws[i := k];
    if i == 0 {
      assert ws'[1..] == ws[1..];
    } else {
      UnansweredSet(ws[1..], i - 1, k);
      assert ws'[1..] == ws[1..][i - 1 := k];
      Rearranged(Own(ws[0]), Unanswered(ws'[1..]), Own(ws[i]), Unanswered(ws[1..]), Own(k));
    }
  }

  lemma Rearranged(a: multiset<string>, b: multiset<string>, c: multiset<string>, d: multiset<string>, e: multiset<string>)
    requires b + c == d + e
    ensures a + b + c == a + d + e
  {
    assert a + b + c == a + (b + c) && a + d + e == a + (d + e);
  }

  lemma {:induction false} UnansweredAdd(ws: seq<Worker>, k: Worker)
    ensures Unanswered(ws + [k]) == Unanswered(ws) + Own(k)
  {
    if ws == [] {
      assert [k][1..] == [] && ws + [k] == [k];
    } else {
      UnansweredAdd(ws[1..], k);
      assert (ws + [k])[1..] == ws[1..] + [k];
    }
  }

  lemma {:induction false} UnansweredDrop(ws: seq<Worker>, i: nat)
    requires i < |ws| && ws[i].task.Exiting?
    ensures Unanswered(Drop(ws, i)) == Unanswered(ws)
  {
    if i == 0 {
      assert Drop(ws, 0) == ws[1..];
    } else {
      UnansweredDrop(ws[1..], i - 1);
      assert Drop(ws, i)[1..] == Drop(ws[1..], i - 1);
    }
  }

  lemma {:induction false} UnansweredIn(ws: seq<Worker>, i: nat)
    requires i < |ws| && !ws[i].task.Exiting?
    ensures ws[i].path in Unanswered(ws)
  {
    if i > 0 {
      UnansweredIn(ws[1..], i - 1);
    }
  }

  /** Two workers that hold one path count twice. */
  lemma {:induction false} UnansweredTwice(ws: seq<Worker>, i: nat, j: nat)
    requires i < j < |ws| && !ws[i].task.Exiting? && !ws[j].task.Exiting? && ws[i].path == ws[j].path
    ensures Unanswered(ws)[ws[i].path] >= 2
  {
    if i == 0 {
      UnansweredIn(ws[1..], j - 1);
    } else {
      UnansweredTwice(ws[1..], i - 1, j - 1);
    }
  }

  // ---------------------------------------------------------------- the invariant

  /** No path is met twice, and each is the start or an answer of an answered path. */
  ghost predicate Once(w: World, dir: string, nodes: set<string>, s: State)
  {
    OnceOf(w, dir, nodes, Met(s, dir), s.answered)
  }

  ghost predicate Given(w: World, dir: string, answered: set<string>, p: string)
  {
    p == dir || exists u :: u in answered && p in Answer(w, u)
  }

  /** inflight counts the paths handed out and not answered; before the first one, it counts that. */
  ghost predicate Counted(s: State)
  {
    s.inflight == |InFlight(s.main, s.workers)| + if s.coord == Init then 1 else 0
  }

  /** Where each of the three goroutines can stand, and which channels are closed. */
  ghost predicate Phases(s: State)
  {
    && (s.coord == Init ==> s.main == Ranging && s.workers == [] && s.nextup == [] && s.l == "" && s.answered == {})
    && (s.coord == AtPull ==> s.inflight > 0 && s.nextup == [] && s.l == "")
    && (s.coord == AtSelect ==> s.l != "")
    && (s.coord == Head ==> true)
    && (s.coord.ClosePop? || s.coord.ClosePull? || s.coord.Gone? ==> s.inflight == 0 && s.nextup == [] && s.l == "")
    && (s.popClosed <==> s.coord.ClosePull? || s.coord.Gone?)
    && (s.pullClosed <==> s.coord.Gone?)
    && (!s.main.Ranging? && !s.main.Going? ==> s.popClosed)
    && (s.main.CloseCollect? || s.main.AwaitDone? || s.main.Returned? ==> s.workers == [])
    && (s.collectClosed <==> s.main.AwaitDone? || (s.main.Returned? && s.main.results.Some?))
    && (s.done ==> s.collectClosed)
    && |s.workers| <= LIMIT
  }

  /** What a worker knows about its path. */
  ghost predicate Knows(w: World, answered: set<string>, k: Worker)
  {
    match k.task
    case Stating => true
    case Scanning => w.stat(k.path).IsDir?
    case Collecting => w.stat(k.path).IsFile?
    case Sending(fs, failed) => fs == Answer(w, k.path) && failed == Fails(w, k.path)
    case Exiting(failed) => failed == Fails(w, k.path) && k.path in answered
  }

  ghost predicate Informed(w: World, s: State)
  {
    forall i :: 0 <= i < |s.workers| ==> Knows(w, s.answered, s.workers[i])
  }

  predicate Is(k: Worker, p: string, exits: bool)
  {
    k.path == p && if exits then k.task.Exiting? else k.task.Sending?
  }

  /** A worker, other than that at but, is about to answer for p, or about to exit. */
  ghost predicate Doing(ws: seq<Worker>, but: int, p: string, exits: bool)
  {
    exists i :: 0 <= i < |ws| && i != but && Is(ws[i], p, exits)
  }

  /** A file has been collected: it is answered, or its worker is about to answer. */
  ghost predicate Collected(w: World, s: State, p: string)
  {
    w.stat(p).IsFile? && (p in s.answered || Doing(s.workers, -1, p, false))
  }

  ghost predicate Gathered(w: World, s: State)
  {
    NoRepeat(s.results) && forall p :: p in s.results <==> Collected(w, s, p)
  }

  /** An error is recorded when the worker that met it exits. */
  ghost predicate Blamed(w: World, s: State)
  {
    && (s.failed ==> exists p :: p in s.answered && Fails(w, p))
    && (forall p :: p in s.answered && Fails(w, p) ==> s.failed || Doing(s.workers, -1, p, true))
  }

  /** What main returns. */
  ghost predicate Settled(s: State)
  {
    && (s.main.CloseCollect? || s.main.AwaitDone? ==> !s.failed)
    && (s.main.Returned? ==> s.main.results == if s.failed then None else Some(s.results))
  }

  ghost predicate Inv(w: World, dir: string, nodes: set<string>, s: State)
  {
    Once(w, dir, nodes, s) && Counted(s) && Phases(s) && Informed(w, s) && Gathered(w, s) && Blamed(w, s) && Settled(s)
  }

  // ---------------------------------------------------------------- one path, one worker

  lemma WorkerMet(w: World, dir: string, nodes: set<string>, s: State, i: nat)
    requires Once(w, dir, nodes, s) && i < |s.workers| && !s.workers[i].task.Exiting?
    ensures var p := s.workers[i].path;
      p in Met(s, dir) && p in nodes && p !in s.answered
    ensures forall j :: 0 <= j < |s.workers| && j != i && !s.workers[j].task.Exiting? ==> s.workers[j].path != s.workers[i].path
  {
    var p := s.workers[i].path;
    UnansweredIn(s.workers, i);
    assert MetWell(w, dir, nodes, Met(s, dir), s.answered, p);
    forall j | 0 <= j < |s.workers| && j != i && !s.workers[j].task.Exiting?
      ensures s.workers[j].path != p
    {
      if s.workers[j].path == p {
        UnansweredTwice(s.workers, if i < j then i else j, if i < j then j else i);
      }
    }
  }

  lemma Cancel(a: multiset<string>, b: multiset<string>, c: multiset<string>)
    requires a + c == b + c
    ensures a == b
  {
    forall x: string
      ensures a[x] == b[x]
    {
      assert (a + c)[x] == (b + c)[x];
    }
  }

  lemma SetTask(s: State, i: nat, k: Worker)
    requires i < |s.workers| && Own(k) == Own(s.workers[i])
    ensures Unanswered(s.workers[i := k]) == Unanswered(s.workers)
  {
    UnansweredSet(s.workers, i, k);
    Cancel(Unanswered(s.workers[i := k]), Unanswered(s.workers), Own(k));
  }

  // ---------------------------------------------------------------- phases

  /** What Phases needs to know beyond itself. */
  lemma PhasesKeep(w: World, dir: string, s: State, e: Step)
    requires Phases(s) && Enabled(s, e) && s.inflight >= 0
    requires (s.l == "" && s.nextup != [] ==> s.nextup[|s.nextup| - 1] != "")
    ensures Phases(Do(w, dir, s, e))
  {
    hide Phases, Do;
    if Closing(e) {
      ClosingPhases(w, dir, s, e);
    } else {
      OtherPhases(w, dir, s, e);
    }
  }

  lemma ClosingPhases(w: World, dir: string, s: State, e: Step)
    requires Phases(s) && Enabled(s, e) && Closing(e)
    ensures Phases(Do(w, dir, s, e))
  {
  }

  lemma OtherPhases(w: World, dir: string, s: State, e: Step)
    requires Phases(s) && Enabled(s, e) && !Closing(e) && s.inflight >= 0
    requires (s.l == "" && s.nextup != [] ==> s.nextup[|s.nextup| - 1] != "")
    ensures Phases(Do(w, dir, s, e))
  {
  }

  // ---------------------------------------------------------------- one worker among the others

  lemma DoingSplit(ws: seq<Worker>, i: nat, p: string, exits: bool)
    requires i < |ws|
    ensures Doing(ws, -1, p, exits) <==> Is(ws[i], p, exits) || Doing(ws, i, p, exits)
  {
  }

  lemma DoingSet(ws: seq<Worker>, i: nat, k: Worker, p: string, exits: bool)
    requires i < |ws|
    ensures Doing(ws[i := k], -1, p, exits) <==> Is(k, p, exits) || Doing(ws, i, p, exits)
  {
    DoingSplit(ws[i := k], i, p, exits);
    assert Doing(ws[i := k], i, p, exits) <==> Doing(ws, i, p, exits) by {
      assert forall j :: 0 <= j < |ws| && j != i ==> ws[i := k][j] == ws[j];
    }
  }

  lemma DoingAdd(ws: seq<Worker>, k: Worker, p: string, exits: bool)
    ensures Doing(ws + [k], -1, p, exits) <==> Is(k, p, exits) || Doing(ws, -1, p, exits)
  {
    DoingSplit(ws + [k], |ws|, p, exits);
    assert forall j :: 0 <= j < |ws| ==> (ws + [k])[j] == ws[j];
  }

  lemma DoingDrop(ws: seq<Worker>, i: nat, p: string, exits: bool)
    requires i < |ws|
    ensures Doing(Drop(ws, i), -1, p, exits) <==> Doing(ws, i, p, exits)
  {
    var ws' := Drop(ws, i);
    if Doing(ws', -1, p, exits) {
      var j :| 0 <= j < |ws'| && Is(ws'[j], p, exits);
      var h := if j < i then j else j + 1;
      assert ws'[j] == ws[h];
    }
    if Doing(ws, i, p, exits) {
      var j :| 0 <= j < |ws| && j != i && Is(ws[j], p, exits);
      var h := if j < i then j else j - 1;
      assert ws'[h] == ws[j];
    }
  }

  // ---------------------------------------------------------------- what workers know and leave behind

  ghost predicate Sound(w: World, s: State)
  {
    Informed(w, s) && Gathered(w, s) && Blamed(w, s)
  }

  lemma SameSound(w: World, s: State, s': State)
    requires Sound(w, s)
    requires s'.workers == s.workers && s'.answered == s.answered && s'.results == s.results && s'.failed == s.failed
    ensures Sound(w, s')
  {
    assert forall p :: Collected(w, s', p) == Collected(w, s, p);
  }

  lemma SpawnSound(w: World, s: State, p: string)
    requires Sound(w, s)
    ensures Sound(w, Spawned(s, p))
  {
    var k := Worker(p, Stating);
    var s' := Spawned(s, p);
    forall q, x
      ensures Doing(s'.workers, -1, q, x) == Doing(s.workers, -1, q, x)
    {
      DoingAdd(s.workers, k, q, x);
    }
    hide Doing;
    assert forall q :: Collected(w, s', q) == Collected(w, s, q);
  }

  /** A worker that neither collects, answers nor exits. */
  lemma TaskSound(w: World, s: State, i: nat, t: Task)
    requires Sound(w, s) && i < |s.workers|
    requires !s.workers[i].task.Sending? && !s.workers[i].task.Exiting? && !t.Exiting?
    requires Knows(w, s.answered, s.workers[i].(task := t)) && (t.Sending? ==> !w.stat(s.workers[i].path).IsFile?)
    ensures Sound(w, WithTask(s, i, t))
  {
    var k := s.workers[i].(task := t);
    var s' := WithTask(s, i, t);
    forall q, x
      ensures Doing(s'.workers, -1, q, x) <==> Is(k, q, x) || Doing(s.workers, -1, q, x)
    {
      DoingSet(s.workers, i, k, q, x);
      DoingSplit(s.workers, i, q, x);
    }
    hide Doing;
    assert forall q :: Collected(w, s', q) == Collected(w, s, q);
  }

  lemma CollectSound(w: World, s: State, i: nat)
    requires Sound(w, s) && i < |s.workers| && s.workers[i].task.Collecting?
    requires s.workers[i].path !in s.answered
    requires forall j :: 0 <= j < |s.workers| && j != i && !s.workers[j].task.Exiting? ==> s.workers[j].path != s.workers[i].path
    ensures Sound(w, Put(s, i))
  {
    var k := s.workers[i].(task := Sending([], false));
    var s' := Put(s, i);
    assert Knows(w, s.answered, s.workers[i]);
    assert !Doing(s.workers, -1, k.path, false);
    forall q, x
      ensures Doing(s'.workers, -1, q, x) <==> Is(k, q, x) || Doing(s.workers, -1, q, x)
    {
      DoingSet(s.workers, i, k, q, x);
      DoingSplit(s.workers, i, q, x);
    }
    hide Doing;
    assert forall q :: Collected(w, s', q) <==> q == k.path || Collected(w, s, q);
    assert k.path !in s.results;
  }

  lemma PullSound(w: World, s: State, i: nat, s': State)
    requires Sound(w, s) && i < |s.workers| && s.workers[i].task.Sending?
    requires var k := s.workers[i];
      && s'.workers == s.workers[i := k.(task := Exiting(k.task.failed))] && s'.answered == s.answered + {k.path}
      && s'.results == s.results && s'.failed == s.failed
    ensures Sound(w, s')
  {
    var k := s.workers[i].(task := Exiting(s.workers[i].task.failed));
    assert Knows(w, s.answered, s.workers[i]);
    forall q, x
      ensures Doing(s'.workers, -1, q, x) <==> Is(k, q, x) || Doing(s.workers, i, q, x)
      ensures Doing(s.workers, -1, q, x) <==> Is(s.workers[i], q, x) || Doing(s.workers, i, q, x)
    {
      DoingSet(s.workers, i, k, q, x);
      DoingSplit(s.workers, i, q, x);
    }
    hide Doing;
    assert forall q :: Collected(w, s', q) == Collected(w, s, q);
    forall j | 0 <= j < |s'.workers|
      ensures Knows(w, s'.answered, s'.workers[j])
    {
      assert Knows(w, s.answered, s.workers[j]);
    }
  }

  lemma ExitSound(w: World, s: State, i: nat)
    requires Sound(w, s) && i < |s.workers| && s.workers[i].task.Exiting?
    ensures Sound(w, Exited(s, i))
  {
    var k := s.workers[i];
    var s' := Exited(s, i);
    assert Knows(w, s.answered, k);
    forall q, x
      ensures Doing(s.workers, -1, q, x) <==> Is(k, q, x) || Doing(s'.workers, -1, q, x)
    {
      DoingDrop(s.workers, i, q, x);
      DoingSplit(s.workers, i, q, x);
    }
    hide Doing;
    assert forall q :: Collected(w, s', q) == Collected(w, s, q);
    forall j | 0 <= j < |s'.workers|
      ensures Knows(w, s'.answered, s'.workers[j])
    {
      assert s'.workers[j] == s.workers[if j < i then j else j + 1];
      assert Knows(w, s.answered, s.workers[if j < i then j else j + 1]);
    }
  }

  // ---------------------------------------------------------------- where the paths are

  ghost predicate Moved(s: State, s': State, dir: string)
  {
    Met(s', dir) == Met(s, dir) && Counted(s')
  }

  lemma FirstPopMoves(dir: string, s: State)
    requires Counted(s) && s.coord == Init && s.main == Ranging
    ensures Moved(s, FirstPopped(s, dir), dir)
  {
    hide Unanswered;
    assert InFlight(Going(dir), s.workers) == InFlight(Ranging, s.workers) + multiset{dir};
    assert Waitlist(s.nextup, s.l, Init, dir) == Waitlist(s.nextup, s.l, Head, dir) + multiset{dir};
    hide InFlight, Waitlist;
    Swap(Waitlist(s.nextup, s.l, Head, dir), multiset{dir}, InFlight(Ranging, s.workers), multiset(s.answered));
  }

  lemma Swap(a: multiset<string>, b: multiset<string>, c: multiset<string>, d: multiset<string>)
    ensures a + b + c + d == a + (c + b) + d
  {
  }

  /** Steps that leave the paths where they are. */
  lemma StayMoves(dir: string, s: State, s': State)
    requires Counted(s) && s'.nextup == s.nextup && s'.l == s.l && s'.workers == s.workers && s'.answered == s.answered
    requires s'.inflight == s.inflight && Held(s'.main) == Held(s.main) && (s'.coord == Init <==> s.coord == Init)
    ensures Moved(s, s', dir)
  {
    hide Unanswered, Held;
  }

  lemma ThinkMoves(dir: string, s: State)
    requires Counted(s) && s.coord == Head
    requires s.nextup != [] ==> s.nextup[|s.nextup| - 1] != ""
    ensures Moved(s, Thought(s), dir)
  {
    hide Moved, Counted;
    if s.l == "" && s.nextup != [] {
      TakeMoves(dir, s);
    } else {
      StayMoves(dir, s, Thought(s));
    }
  }

  lemma TakeMoves(dir: string, s: State)
    requires Counted(s) && s.coord == Head && s.l == "" && s.nextup != [] && s.nextup[|s.nextup| - 1] != ""
    ensures Moved(s, Thought(s), dir)
  {
    TopMoves(s.nextup, dir);
    hide Waitlist, InFlight;
    var s' := Thought(s);
    assert s'.main == s.main && s'.workers == s.workers && s'.answered == s.answered && s'.inflight == s.inflight;
  }

  lemma TopMoves(nextup: seq<string>, dir: string)
    requires nextup != [] && nextup[|nextup| - 1] != ""
    ensures Waitlist(nextup[..|nextup| - 1], nextup[|nextup| - 1], AtSelect, dir) == Waitlist(nextup, "", Head, dir)
  {
    assert nextup == nextup[..|nextup| - 1] + [nextup[|nextup| - 1]];
  }

  lemma PopMoves(dir: string, s: State)
    requires Counted(s) && s.coord == AtSelect && s.main == Ranging && s.l != ""
    ensures Moved(s, Popped(s), dir)
  {
    hide Unanswered;
    assert InFlight(Going(s.l), s.workers) == InFlight(Ranging, s.workers) + multiset{s.l};
    assert Waitlist(s.nextup, s.l, AtSelect, dir) == Waitlist(s.nextup, "", Head, dir) + multiset{s.l};
    hide InFlight, Waitlist;
    Swap(Waitlist(s.nextup, "", Head, dir), multiset{s.l}, InFlight(Ranging, s.workers), multiset(s.answered));
  }

  lemma SpawnMoves(dir: string, s: State)
    requires Counted(s) && s.main.Going?
    ensures Moved(s, Spawned(s, s.main.path), dir)
  {
    var p := s.main.path;
    UnansweredAdd(s.workers, Worker(p, Stating));
    hide Unanswered, Waitlist;
    assert InFlight(Ranging, s.workers + [Worker(p, Stating)]) == InFlight(Going(p), s.workers);
    hide InFlight;
  }

  lemma TaskMoves(dir: string, s: State, s': State, i: nat, t: Task)
    requires Counted(s) && i < |s.workers| && !s.workers[i].task.Exiting? && !t.Exiting?
    requires s' == s.(workers := s.workers[i := s.workers[i].(task := t)], results := s'.results)
    ensures Moved(s, s', dir)
  {
    SetTask(s, i, s.workers[i].(task := t));
    hide Unanswered, Waitlist;
  }

  lemma ExitMoves(dir: string, s: State, i: nat)
    requires Counted(s) && i < |s.workers| && s.workers[i].task.Exiting?
    ensures Moved(s, Exited(s, i), dir)
  {
    UnansweredDrop(s.workers, i);
    hide Unanswered, Waitlist;
  }

  predicate Closing(e: Step)
  {
    e.ClosingPop? || e.ClosingPull? || e.PopIsClosed? || e.AllExited? || e.ClosingCollect? || e.CollectorEnds? || e.DoneIsClosed?
  }

  lemma ClosingMoves(w: World, dir: string, s: State, e: Step)
    requires Counted(s) && Enabled(s, e) && Closing(e)
    ensures Moved(s, Do(w, dir, s, e), dir)
  {
    hide Moved, Counted, Do;
    var s' := Do(w, dir, s, e);
    ClosingStays(w, dir, s, e);
    StayMoves(dir, s, s');
  }

  lemma ClosingStays(w: World, dir: string, s: State, e: Step)
    requires Enabled(s, e) && Closing(e)
    ensures var s' := Do(w, dir, s, e);
      && s'.nextup == s.nextup && s'.l == s.l && s'.workers == s.workers && s'.answered == s.answered
      && s'.results == s.results && s'.failed == s.failed && s'.inflight == s.inflight
      && Held(s'.main) == Held(s.main) && (s'.coord == Init <==> s.coord == Init)
  {
  }

  /** An answer: its path stays met, and the paths it hands back are met for the first time. */
  lemma PullMeets(dir: string, s: State, i: nat)
    requires Counted(s) && s.coord != Init && i < |s.workers| && s.workers[i].task.Sending?
    requires s.workers[i].path !in s.answered
    ensures var s' := Pulled(s, i);
      Met(s', dir) == Met(s, dir) + multiset(s.workers[i].task.files) && Counted(s')
  {
    var k := s.workers[i];
    var k' := k.(task := Exiting(k.task.failed));
    var files, p := k.task.files, multiset{k.path};
    AnswerLeaves(s.main, s.workers, i, k');
    hide Unanswered;
    var now, was := InFlight(s.main, s.workers[i := k']), InFlight(s.main, s.workers);
    assert multiset(s.answered + {k.path}) == multiset(s.answered) + p;
    WaitlistGrows(s.nextup, files, s.l, s.coord, dir);
    hide InFlight, Waitlist;
    MeetsSum(Waitlist(s.nextup, s.l, s.coord, dir), multiset(files), now, p, multiset(s.answered));
    assert |now + p| == |now| + 1;
  }

  lemma AnswerLeaves(m: MainLoop, ws: seq<Worker>, i: nat, k: Worker)
    requires i < |ws| && !ws[i].task.Exiting? && k.task.Exiting?
    ensures InFlight(m, ws[i := k]) + multiset{ws[i].path} == InFlight(m, ws)
  {
    UnansweredSet(ws, i, k);
    hide Unanswered;
    assert Held(m) + Unanswered(ws[i := k]) + Own(ws[i]) == Held(m) + (Unanswered(ws[i := k]) + Own(ws[i]));
  }

  lemma WaitlistGrows(nextup: seq<string>, files: seq<string>, l: string, coord: Coordinator, dir: string)
    requires coord != Init
    ensures Waitlist(nextup + files, l, Head, dir) == Waitlist(nextup, l, coord, dir) + multiset(files)
  {
  }

  lemma MeetsSum(a: multiset<string>, b: multiset<string>, c: multiset<string>, d: multiset<string>, e: multiset<string>)
    ensures a + b + c + (e + d) == a + (c + d) + e + b
  {
  }

  lemma {:induction false} NoRepeatCount(fs: seq<string>)
    requires NoRepeat(fs)
    ensures forall p :: multiset(fs)[p] <= 1
  {
    if fs != [] {
      NoRepeatCount(fs[1..]);
      assert fs == [fs[0]] + fs[1..];
      assert fs[0] !in fs[1..];
      assert fs[0] !in multiset(fs[1..]);
    }
  }

  lemma RouteOn(w: World, dir: string, p: string, q: string)
    requires Reachable(w, dir, p) && q in Answer(w, p)
    ensures Reachable(w, dir, q)
  {
    var route :| Route(w, dir, route, p);
    var longer := route + [q];
    assert longer[..|longer| - 1] == route && longer[|longer| - 2] == p;
    assert Route(w, dir, longer, q);
  }

  /** What Once says of the paths met. */
  ghost predicate OnceOf(w: World, dir: string, nodes: set<string>, met: multiset<string>, answered: set<string>)
  {
    forall p :: MetWell(w, dir, nodes, met, answered, p)
  }

  ghost predicate MetWell(w: World, dir: string, nodes: set<string>, met: multiset<string>, answered: set<string>, p: string)
  {
    && met[p] <= 1 && (p in met ==> p in nodes && Reachable(w, dir, p))
    && (p in met <==> Given(w, dir, answered, p)) && (p in answered ==> p in met)
  }

  /** No path is met twice. */
  lemma PullOnce(w: World, dir: string, nodes: set<string>, met: multiset<string>, answered: set<string>, p: string)
    requires Tree(w, dir, nodes) && OnceOf(w, dir, nodes, met, answered)
    requires p in met && p !in answered
    ensures OnceOf(w, dir, nodes, met + multiset(Answer(w, p)), answered + {p})
  {
    var fs := Answer(w, p);
    assert MetWell(w, dir, nodes, met, answered, p);
    NoRepeatCount(fs);
    forall q
      ensures MetWell(w, dir, nodes, met + multiset(fs), answered + {p}, q)
    {
      assert MetWell(w, dir, nodes, met, answered, q);
      if q in fs {
        RouteOn(w, dir, p, q);
        FirstMet(w, dir, nodes, met, answered, p, q);
        GivenNow(w, dir, answered, p, q);
      } else {
        GivenSame(w, dir, answered, p, q);
      }
    }
  }

  lemma GivenNow(w: World, dir: string, answered: set<string>, p: string, q: string)
    requires q in Answer(w, p)
    ensures Given(w, dir, answered + {p}, q)
  {
    assert p in answered + {p};
  }

  lemma GivenSame(w: World, dir: string, answered: set<string>, p: string, q: string)
    requires q !in Answer(w, p)
    ensures Given(w, dir, answered + {p}, q) <==> Given(w, dir, answered, q)
  {
    if Given(w, dir, answered + {p}, q) && q != dir {
      var u :| u in answered + {p} && q in Answer(w, u);
      assert u in answered;
    }
    if Given(w, dir, answered, q) && q != dir {
      var u :| u in answered && q in Answer(w, u);
      assert u in answered + {p};
    }
  }

  lemma FirstMet(w: World, dir: string, nodes: set<string>, met: multiset<string>, answered: set<string>, p: string, q: string)
    requires Tree(w, dir, nodes) && OnceOf(w, dir, nodes, met, answered)
    requires p in met && p !in answered && q in Answer(w, p)
    ensures q !in met && q in nodes
  {
    OnceAt(w, dir, nodes, met, answered, p);
    OnceAt(w, dir, nodes, met, answered, q);
    AnswersFit(w, dir, nodes, p, q);
    hide Tree, OnceOf, MetWell;
    if q in met {
      var u :| u in answered && q in Answer(w, u);
      OnceAt(w, dir, nodes, met, answered, u);
      OneParent(w, dir, nodes, p, u, q);
    }
  }

  lemma OnceAt(w: World, dir: string, nodes: set<string>, met: multiset<string>, answered: set<string>, p: string)
    requires OnceOf(w, dir, nodes, met, answered)
    ensures met[p] <= 1 && (p in met ==> p in nodes && Reachable(w, dir, p))
    ensures p in met <==> Given(w, dir, answered, p)
    ensures p in answered ==> p in met
  {
    assert MetWell(w, dir, nodes, met, answered, p);
  }

  lemma AnswersFit(w: World, dir: string, nodes: set<string>, p: string, q: string)
    requires Tree(w, dir, nodes) && p in nodes && q in Answer(w, p)
    ensures q in nodes && q != dir
  {
  }

  lemma OneParent(w: World, dir: string, nodes: set<string>, p: string, u: string, q: string)
    requires Tree(w, dir, nodes) && p in nodes && u in nodes && q in Answer(w, p) && q in Answer(w, u)
    ensures p == u
  {
  }

  // ---------------------------------------------------------------- every step keeps the invariant

  lemma Opened(w: World, dir: string, nodes: set<string>, s: State)
    requires Inv(w, dir, nodes, s)
    ensures Once(w, dir, nodes, s) && Counted(s) && Phases(s) && Sound(w, s) && Settled(s) && s.inflight >= 0
    ensures s.coord == AtSelect ==> s.l != ""
    ensures s.coord == AtPull || s.coord == AtSelect ==> s.coord != Init
  {
  }

  lemma Closed(w: World, dir: string, nodes: set<string>, s: State)
    requires Once(w, dir, nodes, s) && Counted(s) && Phases(s) && Sound(w, s) && Settled(s)
    ensures Inv(w, dir, nodes, s)
  {
  }

  lemma SettledKeeps(w: World, dir: string, s: State, e: Step)
    requires Enabled(s, e) && Settled(s) && Phases(s)
    ensures Settled(Do(w, dir, s, e))
  {
  }

  lemma NotEmptyPath(w: World, dir: string, nodes: set<string>, s: State)
    requires Once(w, dir, nodes, s) && Tree(w, dir, nodes)
    ensures s.nextup != [] ==> s.nextup[|s.nextup| - 1] != ""
  {
    assert MetWell(w, dir, nodes, Met(s, dir), s.answered, "");
    if s.nextup != [] {
      assert s.nextup[|s.nextup| - 1] in multiset(s.nextup);
      assert s.nextup[|s.nextup| - 1] in Met(s, dir);
    }
  }

  ghost predicate Kept(w: World, dir: string, nodes: set<string>, s: State)
  {
    Once(w, dir, nodes, s) && Counted(s) && Sound(w, s)
  }

  /** Steps that answer no path only move paths. */
  lemma MovedKept(w: World, dir: string, nodes: set<string>, s: State, s': State)
    requires Once(w, dir, nodes, s) && Moved(s, s', dir) && s'.answered == s.answered && Sound(w, s')
    ensures Kept(w, dir, nodes, s')
  {
    hide Met, Counted, Sound;
  }

  lemma StepOnce(w: World, dir: string, nodes: set<string>, s: State, e: Step)
    requires Tree(w, dir, nodes) && Inv(w, dir, nodes, s) && Enabled(s, e)
    ensures Kept(w, dir, nodes, Do(w, dir, s, e))
  {
    Opened(w, dir, nodes, s);
    hide Inv, Phases, Settled, Once, Sound, Counted, Tree, Kept;
    match e
    case FirstPop => FirstPopKeeps(w, dir, nodes, s);
    case Think => ThinkKeeps(w, dir, nodes, s);
    case Pop => PopKeeps(w, dir, nodes, s);
    case Spawn => SpawnKeeps(w, dir, nodes, s);
    case Pull(i) => PullKeeps(w, dir, nodes, s, i);
    case DoStat(i) => StatKeeps(w, dir, nodes, s, i);
    case DoScan(i) => ScanKeeps(w, dir, nodes, s, i);
    case DoCollect(i) => CollectKeeps(w, dir, nodes, s, i);
    case DoExit(i) => ExitKeeps(w, dir, nodes, s, i);
    case _ => ClosingKeeps(w, dir, nodes, s, e);
  }

  lemma FirstPopKeeps(w: World, dir: string, nodes: set<string>, s: State)
    requires Once(w, dir, nodes, s) && Counted(s) && Sound(w, s) && s.coord == Init && s.main == Ranging
    ensures Kept(w, dir, nodes, FirstPopped(s, dir))
  {
    hide Sound, Counted, Moved, Once, Kept;
    FirstPopMoves(dir, s);
    SameSound(w, s, FirstPopped(s, dir));
    MovedKept(w, dir, nodes, s, FirstPopped(s, dir));
  }

  lemma ThinkKeeps(w: World, dir: string, nodes: set<string>, s: State)
    requires Tree(w, dir, nodes) && Once(w, dir, nodes, s) && Counted(s) && Sound(w, s) && s.coord == Head
    ensures Kept(w, dir, nodes, Thought(s))
  {
    hide Sound, Counted, Moved, Once, Kept, Tree;
    NotEmptyPath(w, dir, nodes, s);
    ThinkMoves(dir, s);
    SameSound(w, s, Thought(s));
    MovedKept(w, dir, nodes, s, Thought(s));
  }

  lemma PopKeeps(w: World, dir: string, nodes: set<string>, s: State)
    requires Once(w, dir, nodes, s) && Counted(s) && Sound(w, s) && s.coord == AtSelect && s.main == Ranging && s.l != ""
    ensures Kept(w, dir, nodes, Popped(s))
  {
    hide Sound, Counted, Moved, Once, Kept;
    PopMoves(dir, s);
    SameSound(w, s, Popped(s));
    MovedKept(w, dir, nodes, s, Popped(s));
  }

  lemma SpawnKeeps(w: World, dir: string, nodes: set<string>, s: State)
    requires Once(w, dir, nodes, s) && Counted(s) && Sound(w, s) && s.main.Going?
    ensures Kept(w, dir, nodes, Spawned(s, s.main.path))
  {
    hide Sound, Counted, Moved, Once, Kept;
    SpawnMoves(dir, s);
    SpawnSound(w, s, s.main.path);
    MovedKept(w, dir, nodes, s, Spawned(s, s.main.path));
  }

  lemma ExitKeeps(w: World, dir: string, nodes: set<string>, s: State, i: nat)
    requires Once(w, dir, nodes, s) && Counted(s) && Sound(w, s) && i < |s.workers| && s.workers[i].task.Exiting?
    ensures Kept(w, dir, nodes, Exited(s, i))
  {
    hide Sound, Counted, Moved, Once, Kept;
    ExitMoves(dir, s, i);
    ExitSound(w, s, i);
    MovedKept(w, dir, nodes, s, Exited(s, i));
  }

  lemma ClosingKeeps(w: World, dir: string, nodes: set<string>, s: State, e: Step)
    requires Once(w, dir, nodes, s) && Counted(s) && Sound(w, s) && Enabled(s, e) && Closing(e)
    ensures Kept(w, dir, nodes, Do(w, dir, s, e))
  {
    hide Sound, Counted, Moved, Once, Kept, Do;
    ClosingMoves(w, dir, s, e);
    ClosingStays(w, dir, s, e);
    SameSound(w, s, Do(w, dir, s, e));
    MovedKept(w, dir, nodes, s, Do(w, dir, s, e));
  }

  /** Every step of the walk keeps the invariant. */
  lemma StepKeeps(w: World, dir: string, nodes: set<string>, s: State, e: Step)
    requires Tree(w, dir, nodes) && Inv(w, dir, nodes, s) && Enabled(s, e)
    ensures Inv(w, dir, nodes, Do(w, dir, s, e))
  {
    hide Tree, Inv, Phases, Settled, Once, Sound, Counted, Do, Enabled;
    Opened(w, dir, nodes, s);
    StepOnce(w, dir, nodes, s, e);
    NotEmptyPath(w, dir, nodes, s);
    PhasesKeep(w, dir, s, e);
    SettledKeeps(w, dir, s, e);
    Closed(w, dir, nodes, Do(w, dir, s, e));
  }

  lemma PullKeeps(w: World, dir: string, nodes: set<string>, s: State, i: nat)
    requires Tree(w, dir, nodes) && Once(w, dir, nodes, s) && Counted(s) && Sound(w, s)
    requires s.coord != Init && i < |s.workers| && s.workers[i].task.Sending?
    ensures Kept(w, dir, nodes, Pulled(s, i))
  {
    var p := s.workers[i].path;
    WorkerMet(w, dir, nodes, s, i);
    AnswerSent(w, s, i);
    hide Sound, Met, Counted, Tree, OnceOf;
    PullMeets(dir, s, i);
    PullOnce(w, dir, nodes, Met(s, dir), s.answered, p);
    PullSound(w, s, i, Pulled(s, i));
  }

  lemma AnswerSent(w: World, s: State, i: nat)
    requires Sound(w, s) && i < |s.workers| && s.workers[i].task.Sending?
    ensures s.workers[i].task.files == Answer(w, s.workers[i].path)
  {
    assert Knows(w, s.answered, s.workers[i]);
  }

  lemma StatKeeps(w: World, dir: string, nodes: set<string>, s: State, i: nat)
    requires Once(w, dir, nodes, s) && Counted(s) && Sound(w, s) && i < |s.workers| && s.workers[i].task.Stating?
    ensures Kept(w, dir, nodes, WithTask(s, i, Stated(w, s.workers[i].path)))
  {
    var t := Stated(w, s.workers[i].path);
    StatedKnows(w, s.answered, s.workers[i]);
    hide Sound, Counted, Moved, Once, Kept, Knows, Stated;
    TaskMoves(dir, s, WithTask(s, i, t), i, t);
    TaskSound(w, s, i, t);
    MovedKept(w, dir, nodes, s, WithTask(s, i, t));
  }

  lemma StatedKnows(w: World, answered: set<string>, k: Worker)
    ensures var t := Stated(w, k.path);
      Knows(w, answered, k.(task := t)) && !t.Exiting? && (t.Sending? ==> !w.stat(k.path).IsFile?)
  {
  }

  lemma ScanKeeps(w: World, dir: string, nodes: set<string>, s: State, i: nat)
    requires Once(w, dir, nodes, s) && Counted(s) && Sound(w, s) && i < |s.workers| && s.workers[i].task.Scanning?
    ensures Kept(w, dir, nodes, WithTask(s, i, Scanned(w, s.workers[i].path)))
  {
    assert Knows(w, s.answered, s.workers[i]);
    var t := Scanned(w, s.workers[i].path);
    ScannedKnows(w, s.answered, s.workers[i]);
    hide Sound, Counted, Moved, Once, Kept, Knows, Scanned;
    TaskMoves(dir, s, WithTask(s, i, t), i, t);
    TaskSound(w, s, i, t);
    MovedKept(w, dir, nodes, s, WithTask(s, i, t));
  }

  lemma ScannedKnows(w: World, answered: set<string>, k: Worker)
    requires k.task.Scanning? && Knows(w, answered, k)
    ensures var t := Scanned(w, k.path);
      Knows(w, answered, k.(task := t)) && t.Sending? && !w.stat(k.path).IsFile?
  {
  }

  lemma CollectKeeps(w: World, dir: string, nodes: set<string>, s: State, i: nat)
    requires Once(w, dir, nodes, s) && Counted(s) && Sound(w, s) && i < |s.workers| && s.workers[i].task.Collecting?
    ensures Kept(w, dir, nodes, Put(s, i))
  {
    WorkerMet(w, dir, nodes, s, i);
    hide Sound, Counted, Moved, Once, Kept;
    TaskMoves(dir, s, Put(s, i), i, Sending([], false));
    CollectSound(w, s, i);
    MovedKept(w, dir, nodes, s, Put(s, i));
  }

  lemma StartHolds(w: World, dir: string, nodes: set<string>)
    requires Tree(w, dir, nodes)
    ensures Inv(w, dir, nodes, Start())
  {
    var s := Start();
    assert Met(s, dir) == multiset{dir};
    assert Route(w, dir, [dir], dir);
    assert forall p :: Given(w, dir, {}, p) <==> p == dir;
    assert forall p :: !Collected(w, s, p);
  }

  /** The invariant holds after any steps. */
  lemma {:induction false} RunKeeps(w: World, dir: string, nodes: set<string>, steps: seq<Step>)
    requires Tree(w, dir, nodes) && Replay(w, dir, steps).Some?
    ensures Inv(w, dir, nodes, Replay(w, dir, steps).value)
  {
    hide Inv, Tree;
    if steps == [] {
      StartHolds(w, dir, nodes);
    } else {
      RunKeeps(w, dir, nodes, steps[..|steps| - 1]);
      StepKeeps(w, dir, nodes, Replay(w, dir, steps[..|steps| - 1]).value, steps[|steps| - 1]);
    }
  }
}
