/** The concurrent directory walk of cells/logstream/sftp.go (WalkDir), step by step: a coordinator
    that hands out paths on one channel and takes answers on another, a main loop that starts up to
    16 workers, and a collector.  A send and its receive are one step, as the channels are unbuffered.
    The server is an oracle. */
module WalkModel {
  import opened Wrappers

  datatype Stat = StatError | NoMatch | IsDir | IsFile

  datatype Scan = ScanError | Files(files: seq<string>)

  /** What lStat and scanDir answer. */
  datatype World = World(stat: string -> Stat, scan: string -> Scan)

  datatype Task = Stating | Scanning | Collecting | Sending(files: seq<string>, failed: bool) | Exiting(failed: bool)

  datatype Worker = Worker(path: string, task: Task)

  datatype Coordinator = Init | Head | AtPull | AtSelect | ClosePop | ClosePull | Gone

  datatype MainLoop = Ranging | Going(path: string) | Waiting | CloseCollect | AwaitDone | Returned(results: Option<seq<string>>)

  /** answered is history: the paths whose answers the coordinator has taken. */
  datatype State = State(
    coord: Coordinator, nextup: seq<string>, l: string, inflight: int,
    main: MainLoop, workers: seq<Worker>, failed: bool,
    results: seq<string>, done: bool,
    popClosed: bool, pullClosed: bool, collectClosed: bool,
    answered: set<string>)

  const LIMIT := 16

  function Start(): State
  {
    State(Init, [], "", 1, Ranging, [], false, [], false, false, false, false, {})
  }

  // ---------------------------------------------------------------- steps

  datatype Step =
    | FirstPop | Think | Pop | Pull(i: nat) | ClosingPop | ClosingPull
    | Spawn | PopIsClosed | AllExited | ClosingCollect | CollectorEnds | DoneIsClosed
    | DoStat(i: nat) | DoScan(i: nat) | DoCollect(i: nat) | DoExit(i: nat)

  /** What the coordinator does between two communications. */
  function Thought(s: State): State
  {
    if s.inflight > 0 && s.nextup == [] && s.l == "" then s.(coord := AtPull)
    else if s.inflight == 0 && s.nextup == [] && s.l == "" then s.(coord := ClosePop)
    else if s.l == "" && s.nextup != [] then
      s.(coord := AtSelect, l := s.nextup[|s.nextup| - 1], nextup := s.nextup[..|s.nextup| - 1])
    else s.(coord := AtSelect)
  }

  function Drop(ws: seq<Worker>, i: nat): seq<Worker>
    requires i < |ws|
  {
    ws[..i] + ws[i + 1..]
  }

  function Stated(w: World, p: string): Task
  {
    match w.stat(p)
    case StatError => Sending([], true)
    case NoMatch => Sending([], false)
    case IsDir => Scanning
    case IsFile => Collecting
  }

  function Scanned(w: World, p: string): Task
  {
    match w.scan(p)
    case ScanError => Sending([], true)
    case Files(fs) => Sending(fs, false)
  }

  predicate Enabled(s: State, e: Step)
  {
    match e
    case FirstPop => s.coord == Init && s.main == Ranging
    case Think => s.coord == Head
    case Pop => s.coord == AtSelect && s.main == Ranging
    case Pull(i) => (s.coord == AtPull || s.coord == AtSelect) && i < |s.workers| && s.workers[i].task.Sending?
    case ClosingPop => s.coord == ClosePop
    case ClosingPull => s.coord == ClosePull
    case Spawn => s.main.Going? && |s.workers| < LIMIT
    case PopIsClosed => s.main == Ranging && s.popClosed
    case AllExited => s.main == Waiting && s.workers == []
    case ClosingCollect => s.main == CloseCollect
    case CollectorEnds => s.collectClosed && !s.done
    case DoneIsClosed => s.main == AwaitDone && s.done
    case DoStat(i) => i < |s.workers| && s.workers[i].task.Stating?
    case DoScan(i) => i < |s.workers| && s.workers[i].task.Scanning?
    case DoCollect(i) => i < |s.workers| && s.workers[i].task.Collecting? && !s.done
    case DoExit(i) => i < |s.workers| && s.workers[i].task.Exiting?
  }

  function FirstPopped(s: State, dir: string): State { s.(coord := Head, main := Going(dir)) }

  function Popped(s: State): State
  {
    s.(coord := Head, main := Going(s.l), l := "", inflight := s.inflight + 1)
  }

  function Pulled(s: State, i: nat): State
    requires i < |s.workers| && s.workers[i].task.Sending?
  {
    var k := s.workers[i];
    s.(coord := Head, nextup := s.nextup + k.task.files, inflight := s.inflight - 1,
       workers := s.workers[i := k.(task := Exiting(k.task.failed))], answered := s.answered + {k.path})
  }

  function Spawned(s: State, p: string): State
  {
    s.(main := Ranging, workers := s.workers + [Worker(p, Stating)])
  }

  function WithTask(s: State, i: nat, t: Task): State
    requires i < |s.workers|
  {
    s.(workers := s.workers[i := s.workers[i].(task := t)])
  }

  function Put(s: State, i: nat): State
    requires i < |s.workers|
  {
    s.(results := s.results + [s.workers[i].path], workers := s.workers[i := s.workers[i].(task := Sending([], false))])
  }

  function Exited(s: State, i: nat): State
    requires i < |s.workers| && s.workers[i].task.Exiting?
  {
    s.(failed := s.failed || s.workers[i].task.failed, workers := Drop(s.workers, i))
  }

  function Do(w: World, dir: string, s: State, e: Step): State
    requires Enabled(s, e)
  {
    match e
    case FirstPop => FirstPopped(s, dir)
    case Think => Thought(s)
    case Pop => Popped(s)
    case Pull(i) => Pulled(s, i)
    case ClosingPop => s.(coord := ClosePull, popClosed := true)
    case ClosingPull => s.(coord := Gone, pullClosed := true)
    case Spawn => Spawned(s, s.main.path)
    case PopIsClosed => s.(main := Waiting)
    case AllExited => if s.failed then s.(main := Returned(None)) else s.(main := CloseCollect)
    case ClosingCollect => s.(main := AwaitDone, collectClosed := true)
    case CollectorEnds => s.(done := true)
    case DoneIsClosed => s.(main := Returned(Some(s.results)))
    case DoStat(i) => WithTask(s, i, Stated(w, s.workers[i].path))
    case DoScan(i) => WithTask(s, i, Scanned(w, s.workers[i].path))
    case DoCollect(i) => Put(s, i)
    case DoExit(i) => Exited(s, i)
  }

  /** The state after these steps, if each was enabled when it was taken. */
  function Replay(w: World, dir: string, steps: seq<Step>): Option<State>
  {
    if steps == [] then Some(Start())
    else
      var before := Replay(w, dir, steps[..|steps| - 1]);
      var e := steps[|steps| - 1];
      if before.Some? && Enabled(before.value, e) then Some(Do(w, dir, before.value, e)) else None
  }

  // ---------------------------------------------------------------- the tree

  /** The paths that a visit to p hands back. */
  function Answer(w: World, p: string): seq<string>
  {
    if w.stat(p).IsDir? && w.scan(p).Files? then w.scan(p).files else []
  }

  predicate Fails(w: World, p: string)
  {
    w.stat(p).StatError? || (w.stat(p).IsDir? && w.scan(p).ScanError?)
  }

  /** A route from dir, each path among the answers of the one before. */
  ghost predicate Route(w: World, dir: string, route: seq<string>, p: string)
  {
    if |route| == 0 then false
    else if |route| == 1 then route[0] == p == dir
    else route[|route| - 1] == p && Route(w, dir, route[..|route| - 1], route[|route| - 2]) && p in Answer(w, route[|route| - 2])
  }

  ghost predicate Reachable(w: World, dir: string, p: string)
  {
    exists route :: Route(w, dir, route, p)
  }

  ghost predicate NoRepeat(fs: seq<string>)
  {
    forall i, j :: 0 <= i < j < |fs| ==> fs[i] != fs[j]
  }

  /** The paths form a tree: finitely many, none empty, each handed back by at most one other. */
  ghost predicate Tree(w: World, dir: string, nodes: set<string>)
  {
    && dir in nodes && "" !in nodes
    && (forall p :: p in nodes ==> NoRepeat(Answer(w, p)) && dir !in Answer(w, p) && forall q :: q in Answer(w, p) ==> q in nodes)
    && (forall p, q, r :: p in nodes && q in nodes && r in Answer(w, p) && r in Answer(w, q) ==> p == q)
  }
}
