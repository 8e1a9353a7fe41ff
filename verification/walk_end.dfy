/** How the directory walk ends: it never gets stuck, it takes finitely many steps, and it returns
    every reachable matching file exactly once, or an error exactly when a reachable path has one. */
module WalkEnd {
  import opened Wrappers
  import opened WalkModel
  import opened WalkSafety

  // ---------------------------------------------------------------- safety

  /** A goroutine is about to send on a closed channel. */
  ghost predicate Panics(s: State)
  {
    || (s.popClosed && (s.coord == Init || s.coord == AtSelect))
    || (s.pullClosed && exists i :: 0 <= i < |s.workers| && s.workers[i].task.Sending?)
    || (s.collectClosed && exists i :: 0 <= i < |s.workers| && s.workers[i].task.Collecting?)
  }

  /** In every interleaving, inflight counts the paths handed out and not answered, pop and pull are
      closed only when no path is waiting or in flight, no goroutine sends on a closed channel and at
      most 16 workers are alive. */
  lemma WalkIsSafe(w: World, dir: string, nodes: set<string>, steps: seq<Step>)
    requires Tree(w, dir, nodes) && Replay(w, dir, steps).Some?
    ensures var s := Replay(w, dir, steps).value;
      && (s.coord != Init ==> s.inflight == |InFlight(s.main, s.workers)|)
      && (s.popClosed || s.pullClosed ==> s.inflight == 0 && s.nextup == [] && s.l == "" && InFlight(s.main, s.workers) == multiset{})
      && !Panics(s) && |s.workers| <= 16
  {
    RunKeeps(w, dir, nodes, steps);
    var s := Replay(w, dir, steps).value;
    hide Replay, Once;
    forall i | 0 <= i < |s.workers| && !s.workers[i].task.Exiting?
      ensures !s.popClosed
    {
      UnansweredIn(s.workers, i);
    }
  }

  // ---------------------------------------------------------------- progress

  /** Until main returns, some step can be taken. */
  lemma NeverStuck(w: World, dir: string, nodes: set<string>, s: State)
    requires Inv(w, dir, nodes, s) && !s.main.Returned?
    ensures exists e :: Enabled(s, e)
  {
    hide Once;
    if s.workers != [] && !s.coord.Head? && !s.coord.ClosePop? && !s.coord.ClosePull? {
      var e := WorkerStep(s);
    } else if s.coord.Head? {
      assert Enabled(s, Think);
    } else if s.coord.ClosePop? {
      assert Enabled(s, ClosingPop);
    } else if s.coord.ClosePull? {
      assert Enabled(s, ClosingPull);
    } else {
      var e := IdleStep(s);
    }
  }

  lemma WorkerStep(s: State) returns (e: Step)
    requires Counted(s) && Phases(s) && s.workers != []
    requires !s.coord.Head? && !s.coord.ClosePop? && !s.coord.ClosePull?
    ensures Enabled(s, e)
  {
    match s.workers[0].task
    case Stating => e := DoStat(0);
    case Scanning => e := DoScan(0);
    case Collecting => e := DoCollect(0);
    case Exiting(_) => e := DoExit(0);
    case Sending(_, _) =>
      UnansweredIn(s.workers, 0);
      e := Pull(0);
  }

  lemma IdleStep(s: State) returns (e: Step)
    requires Counted(s) && Phases(s) && s.workers == [] && !s.main.Returned?
    requires !s.coord.Head? && !s.coord.ClosePop? && !s.coord.ClosePull?
    ensures Enabled(s, e)
  {
    match s.main
    case Going(_) => e := Spawn;
    case Waiting => e := AllExited;
    case CloseCollect => e := ClosingCollect;
    case AwaitDone => e := if s.done then DoneIsClosed else CollectorEnds;
    case Ranging => e := if s.popClosed then PopIsClosed else if s.coord == Init then FirstPop else Pop;
  }

  // ---------------------------------------------------------------- termination

  function TaskWeight(t: Task): nat
  {
    match t
    case Stating => 12
    case Scanning => 10
    case Collecting => 10
    case Sending(_, _) => 8
    case Exiting(_) => 2
  }

  function WorkersWeight(ws: seq<Worker>): nat
  {
    if ws == [] then 0 else TaskWeight(ws[0].task) + WorkersWeight(ws[1..])
  }

  function CoordWeight(c: Coordinator): nat
  {
    match c
    case Init => 5
    case Head => 4
    case AtPull => 3
    case AtSelect => 3
    case ClosePop => 3
    case ClosePull => 2
    case Gone => 1
  }

  function MainWeight(m: MainLoop): nat
  {
    match m
    case Ranging => 4
    case Going(_) => 18
    case Waiting => 3
    case CloseCollect => 2
    case AwaitDone => 1
    case Returned(_) => 0
  }

  /** Each path not met yet counts 24, and less the further it has come. */
  function Weight(s: State, unmet: int): int
  {
    24 * unmet + 22 * |s.nextup| + (if s.l == "" then 0 else 20) + (if s.coord == Init then 20 else 0)
      + WorkersWeight(s.workers) + CoordWeight(s.coord) + MainWeight(s.main) + (if s.done then 0 else 1)
  }

  ghost function Unmet(dir: string, nodes: set<string>, s: State): int
  {
    |nodes| - |Met(s, dir)|
  }

  lemma {:induction false} WeightSet(ws: seq<Worker>, i: nat, k: Worker)
    requires i < |ws|
    ensures WorkersWeight(ws[i := k]) == WorkersWeight(ws) - TaskWeight(ws[i].task) + TaskWeight(k.task)
  {
    if i == 0 {
      assert ws[i := k][1..] == ws[1..];
    } else {
      WeightSet(ws[1..], i - 1, k);
      assert ws[i := k][1..] == ws[1..][i - 1 := k];
    }
  }

  lemma {:induction false} WeightAdd(ws: seq<Worker>, k: Worker)
    ensures WorkersWeight(ws + [k]) == WorkersWeight(ws) + TaskWeight(k.task)
  {
    if ws != [] {
      WeightAdd(ws[1..], k);
      assert (ws + [k])[1..] == ws[1..] + [k];
    }
  }

  lemma {:induction false} WeightDrop(ws: seq<Worker>, i: nat)
    requires i < |ws|
    ensures WorkersWeight(Drop(ws, i)) == WorkersWeight(ws) - TaskWeight(ws[i].task)
  {
    if i == 0 {
      assert Drop(ws, 0) == ws[1..];
    } else {
      WeightDrop(ws[1..], i - 1);
      assert Drop(ws, i)[1..] == Drop(ws[1..], i - 1);
    }
  }

  /** How many paths one step meets for the first time. */
  function Newly(s: State, e: Step): nat
    requires Enabled(s, e)
  {
    if e.Pull? then |s.workers[e.i].task.files| else 0
  }

  /** Every step weighs the state down. */
  lemma StepLightens(w: World, dir: string, s: State, e: Step, unmet: int)
    requires Phases(s) && Enabled(s, e) && s.inflight >= 0 && (s.nextup != [] ==> s.nextup[|s.nextup| - 1] != "")
    ensures Weight(Do(w, dir, s, e), unmet - Newly(s, e)) < Weight(s, unmet)
  {
    hide WorkersWeight, Phases;
    match e
    case Pull(i) => WeightSet(s.workers, i, s.workers[i].(task := Exiting(s.workers[i].task.failed)));
    case Spawn => WeightAdd(s.workers, Worker(s.main.path, Stating));
    case DoStat(i) => TaskLightens(w, s, i, Stated(w, s.workers[i].path), unmet);
    case DoScan(i) => TaskLightens(w, s, i, Scanned(w, s.workers[i].path), unmet);
    case DoCollect(i) => WeightSet(s.workers, i, s.workers[i].(task := Sending([], false)));
    case DoExit(i) => WeightDrop(s.workers, i);
    case _ => CoordLightens(w, dir, s, e, unmet);
  }

  lemma TaskLightens(w: World, s: State, i: nat, t: Task, unmet: int)
    requires i < |s.workers| && TaskWeight(t) < TaskWeight(s.workers[i].task)
    ensures Weight(WithTask(s, i, t), unmet) < Weight(s, unmet)
  {
    hide WorkersWeight;
    WeightSet(s.workers, i, s.workers[i].(task := t));
  }

  lemma CoordLightens(w: World, dir: string, s: State, e: Step, unmet: int)
    requires Phases(s) && Enabled(s, e) && s.inflight >= 0 && (s.nextup != [] ==> s.nextup[|s.nextup| - 1] != "")
    requires Closing(e) || e.FirstPop? || e.Think? || e.Pop?
    ensures Weight(Do(w, dir, s, e), unmet) < Weight(s, unmet)
  {
    hide WorkersWeight;
  }

  lemma {:induction false} FewMet(met: multiset<string>, nodes: set<string>)
    requires forall p :: met[p] <= 1 && (p in met ==> p in nodes)
    ensures |met| <= |nodes|
    decreases |nodes|
  {
    if met != multiset{} {
      var p :| p in met;
      var rest := met - multiset{p};
      forall q
        ensures rest[q] <= 1 && (q in rest ==> q in nodes - {p})
      {
        assert met[q] <= 1;
      }
      FewMet(rest, nodes - {p});
      assert |nodes - {p}| == |nodes| - 1;
      assert met == rest + multiset{p};
    }
  }

  lemma StepMeets(w: World, dir: string, nodes: set<string>, s: State, e: Step)
    requires Tree(w, dir, nodes) && Inv(w, dir, nodes, s) && Enabled(s, e)
    ensures |Met(Do(w, dir, s, e), dir)| == |Met(s, dir)| + Newly(s, e)
  {
    Opened(w, dir, nodes, s);
    hide Inv, Phases, Settled, Sound, Counted, Tree, Met, Once;
    if e.Pull? {
      var i := e.i;
      WorkerMet(w, dir, nodes, s, i);
      PullMeets(dir, s, i);
      assert |multiset(s.workers[i].task.files)| == |s.workers[i].task.files|;
    } else {
      MovesOnly(w, dir, nodes, s, e);
    }
  }

  lemma MovesOnly(w: World, dir: string, nodes: set<string>, s: State, e: Step)
    requires Tree(w, dir, nodes) && Once(w, dir, nodes, s) && Counted(s) && Enabled(s, e) && !e.Pull?
    requires s.coord == AtSelect ==> s.l != ""
    ensures Moved(s, Do(w, dir, s, e), dir)
  {
    NotEmptyPath(w, dir, nodes, s);
    hide Counted, Tree, Met, Once, Moved, Stated, Scanned;
    match e
    case FirstPop => FirstPopMoves(dir, s);
    case Think => ThinkMoves(dir, s);
    case Pop => PopMoves(dir, s);
    case Spawn => SpawnMoves(dir, s);
    case DoStat(i) =>
      NotExiting(w, s.workers[i].path);
      TaskMoves(dir, s, WithTask(s, i, Stated(w, s.workers[i].path)), i, Stated(w, s.workers[i].path));
    case DoScan(i) =>
      NotExiting(w, s.workers[i].path);
      TaskMoves(dir, s, WithTask(s, i, Scanned(w, s.workers[i].path)), i, Scanned(w, s.workers[i].path));
    case DoCollect(i) => TaskMoves(dir, s, Put(s, i), i, Sending([], false));
    case DoExit(i) => ExitMoves(dir, s, i);
    case _ => ClosingMoves(w, dir, s, e);
  }

  lemma NotExiting(w: World, p: string)
    ensures !Stated(w, p).Exiting? && !Scanned(w, p).Exiting?
  {
  }

  lemma InvOnce(w: World, dir: string, nodes: set<string>, s: State)
    requires Inv(w, dir, nodes, s)
    ensures |Met(s, dir)| <= |nodes|
  {
    forall p
      ensures Met(s, dir)[p] <= 1 && (p in Met(s, dir) ==> p in nodes)
    {
      OnceAt(w, dir, nodes, Met(s, dir), s.answered, p);
    }
    FewMet(Met(s, dir), nodes);
  }

  lemma {:induction false} StepsBounded(w: World, dir: string, nodes: set<string>, steps: seq<Step>)
    requires Tree(w, dir, nodes) && Replay(w, dir, steps).Some?
    ensures var s := Replay(w, dir, steps).value;
      |steps| + Weight(s, Unmet(dir, nodes, s)) <= Weight(Start(), |nodes|)
  {
    if steps == [] {
      StartMet(dir);
    } else {
      var before := steps[..|steps| - 1];
      var e := steps[|steps| - 1];
      StepsBounded(w, dir, nodes, before);
      RunKeeps(w, dir, nodes, before);
      var s := Replay(w, dir, before).value;
      hide Replay, Tree;
      StepMeets(w, dir, nodes, s, e);
      Opened(w, dir, nodes, s);
      NotEmptyPath(w, dir, nodes, s);
      hide Inv, Once, Counted, Phases, Sound, Settled, Met, Weight, Do;
      StepLightens(w, dir, s, e, Unmet(dir, nodes, s));
    }
  }

  lemma StartMet(dir: string)
    ensures Met(Start(), dir) == multiset{dir}
  {
  }

  /** No run is longer than its start weighs: with n paths, 24 n + 30 steps. */
  lemma WalkEnds(w: World, dir: string, nodes: set<string>, steps: seq<Step>)
    requires Tree(w, dir, nodes) && Replay(w, dir, steps).Some?
    ensures |steps| <= 24 * |nodes| + 30
  {
    hide Tree, Inv, Met, Replay;
    StepsBounded(w, dir, nodes, steps);
    RunKeeps(w, dir, nodes, steps);
    InvOnce(w, dir, nodes, Replay(w, dir, steps).value);
  }

  // ---------------------------------------------------------------- results

  /** Once nothing is waiting or in flight, the answered paths are the reachable ones. */
  lemma AllAnswered(w: World, dir: string, nodes: set<string>, s: State, p: string)
    requires Once(w, dir, nodes, s) && Met(s, dir) == multiset(s.answered)
    ensures p in s.answered <==> Reachable(w, dir, p)
  {
    OnceAt(w, dir, nodes, Met(s, dir), s.answered, p);
    if Reachable(w, dir, p) {
      var route :| Route(w, dir, route, p);
      RouteAnswered(w, dir, nodes, s, route, p);
    }
  }

  lemma {:induction false} RouteAnswered(w: World, dir: string, nodes: set<string>, s: State, route: seq<string>, p: string)
    requires Once(w, dir, nodes, s) && Met(s, dir) == multiset(s.answered) && Route(w, dir, route, p)
    ensures p in s.answered
  {
    OnceAt(w, dir, nodes, Met(s, dir), s.answered, p);
    if |route| > 1 {
      RouteAnswered(w, dir, nodes, s, route[..|route| - 1], route[|route| - 2]);
    }
    assert Given(w, dir, s.answered, p);
  }

  lemma ReturnedAll(w: World, dir: string, nodes: set<string>, s: State)
    requires Inv(w, dir, nodes, s) && s.main.Returned?
    ensures Met(s, dir) == multiset(s.answered) && s.workers == []
  {
  }

  /** What WalkDir returns: an error if and only if a reachable path has one, and otherwise every
      reachable matching file exactly once. */
  lemma WalkReturns(w: World, dir: string, nodes: set<string>, steps: seq<Step>)
    requires Tree(w, dir, nodes) && Replay(w, dir, steps).Some? && Replay(w, dir, steps).value.main.Returned?
    ensures var r := Replay(w, dir, steps).value.main.results;
      && (r.None? <==> exists p :: Reachable(w, dir, p) && Fails(w, p))
      && (r.Some? ==> NoRepeat(r.value) && forall p :: p in r.value <==> Reachable(w, dir, p) && w.stat(p).IsFile?)
  {
    RunKeeps(w, dir, nodes, steps);
    var s := Replay(w, dir, steps).value;
    ReturnedAll(w, dir, nodes, s);
    assert forall p, x :: !Doing(s.workers, -1, p, x);
    hide Met, Replay, Reachable, Doing;
    forall p
      ensures p in s.answered <==> Reachable(w, dir, p)
    {
      AllAnswered(w, dir, nodes, s, p);
    }
    hide Once;
    assert s.main.results == if s.failed then None else Some(s.results);
  }
}
