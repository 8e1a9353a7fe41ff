/** The connection pool of internal/sqlite/pool.go: a linked free list, savepoints that nest on one
    connection, and rows that take a connection for themselves (Rows.Err in driver.go).  Every call is one
    step; a call that would wait for a connection is not taken. */
module SqlitePool {

  class Conn {
    var next: Conn?

    constructor ()
      ensures next == null
    {
      next := null;
    }
  }

  /** A savepoint: root is the one that took the connection.  The code does not note a rollback. */
  datatype Sp = Sp(conn: Conn, root: nat, top: bool, released: bool, rolled: bool)

  datatype Rows = Rows(conn: Conn, open: bool)

  datatype State = State(free: seq<Conn>, sps: seq<Sp>, rows: seq<Rows>)

  datatype Step = Open | Nest(i: nat) | Release(i: nat) | Rollback(i: nat) | Exec | Finish(j: nat)

  // ---------------------------------------------------------------- steps

  predicate Live(p: Sp) { !p.released && !p.rolled }

  /** The call does not wait and does not panic. */
  predicate Enabled(s: State, e: Step)
  {
    match e
    case Open => s.free != []
    case Exec => s.free != []
    case Nest(i) => i < |s.sps|
    case Release(i) => i < |s.sps| && !s.sps[i].released
    case Rollback(i) => i < |s.sps|
    case Finish(j) => j < |s.rows|
  }

  function Do(s: State, e: Step): State
    requires Enabled(s, e)
  {
    match e
    case Open => s.(free := s.free[1..], sps := s.sps + [Sp(s.free[0], |s.sps|, true, false, false)])
    case Nest(i) => s.(sps := s.sps + [Sp(s.sps[i].conn, s.sps[i].root, false, false, false)])
    case Release(i) =>
      var p := s.sps[i];
      s.(free := if p.top then [p.conn] + s.free else s.free, sps := s.sps[i := p.(released := true)])
    case Rollback(i) =>
      var p := s.sps[i];
      if p.released then s
      else s.(free := if p.top then [p.conn] + s.free else s.free, sps := s.sps[i := p.(rolled := true)])
    case Exec => s.(free := s.free[1..], rows := s.rows + [Rows(s.free[0], true)])
    case Finish(j) =>
      var r := s.rows[j];
      if !r.open then s else s.(free := [r.conn] + s.free, rows := s.rows[j := r.(open := false)])
  }

  /** The connection of a savepoint goes back once, and after all savepoints nested in it. */
  ghost predicate Allowed(s: State, e: Step)
    requires Enabled(s, e)
  {
    match e
    case Nest(i) => s.sps[i].root < |s.sps| && Live(s.sps[s.sps[i].root])
    case Release(i) => s.sps[i].top ==> Live(s.sps[i]) && Alone(s, i)
    case Rollback(i) => s.sps[i].top && !s.sps[i].released ==> Live(s.sps[i]) && Alone(s, i)
    case _ => true
  }

  ghost predicate Alone(s: State, i: nat)
  {
    forall j :: 0 <= j < |s.sps| && j != i && Live(s.sps[j]) ==> s.sps[j].root != i
  }

  // ---------------------------------------------------------------- the invariant

  function Holds(p: Sp): multiset<Conn> { if p.top && Live(p) then multiset{p.conn} else multiset{} }

  function Held(sps: seq<Sp>): multiset<Conn>
  {
    if sps == [] then multiset{} else Held(sps[..|sps| - 1]) + Holds(sps[|sps| - 1])
  }

  function Taken(r: Rows): multiset<Conn> { if r.open then multiset{r.conn} else multiset{} }

  function InRows(rs: seq<Rows>): multiset<Conn>
  {
    if rs == [] then multiset{} else InRows(rs[..|rs| - 1]) + Taken(rs[|rs| - 1])
  }

  function Where(s: State): multiset<Conn> { multiset(s.free) + Held(s.sps) + InRows(s.rows) }

  /** Every connection is in one place: the free list, a savepoint that took it, or rows that took it. */
  ghost predicate Once(s: State, conns: seq<Conn>) { Where(s) == multiset(conns) }

  /** Savepoints nest on the connection of their root, which is live as long as they are. */
  ghost predicate Rooted(s: State)
  {
    forall i :: 0 <= i < |s.sps| ==> RootOf(s, i)
  }

  ghost predicate RootOf(s: State, i: nat)
    requires i < |s.sps|
  {
    var p := s.sps[i];
    && p.root < |s.sps| && s.sps[p.root].top && s.sps[p.root].conn == p.conn
    && (p.top ==> p.root == i) && (Live(p) ==> Live(s.sps[p.root]))
  }

  ghost predicate Inv(s: State, conns: seq<Conn>) { Once(s, conns) && Rooted(s) }

  lemma HeldMore(sps: seq<Sp>, p: Sp)
    ensures Held(sps + [p]) == Held(sps) + Holds(p)
  {
    assert (sps + [p])[..|sps|] == sps;
  }

  lemma RowsMore(rs: seq<Rows>, r: Rows)
    ensures InRows(rs + [r]) == InRows(rs) + Taken(r)
  {
    assert (rs + [r])[..|rs|] == rs;
  }

  lemma Beside(a: multiset<Conn>, b: multiset<Conn>, x: multiset<Conn>, y: multiset<Conn>, z: multiset<Conn>)
    requires a + x == b + y
    ensures (a + z) + x == (b + z) + y
  {
    forall c
      ensures ((a + z) + x)[c] == ((b + z) + y)[c]
    {
      assert (a + x)[c] == (b + y)[c];
    }
  }

  lemma {:induction false} HeldSet(sps: seq<Sp>, i: nat, p: Sp)
    requires i < |sps|
    ensures Held(sps[i := p]) + Holds(sps[i]) == Held(sps) + Holds(p)
  {
    hide Holds;
    var n := |sps| - 1;
    var init := sps[..n];
    if i < n {
      HeldSet(init, i, p);
      assert sps[i := p][..n] == init[i := p];
      Beside(Held(init[i := p]), Held(init), Holds(init[i]), Holds(p), Holds(sps[n]));
    } else {
      assert sps[i := p][..n] == init;
    }
  }

  lemma {:induction false} RowsSet(rs: seq<Rows>, j: nat, r: Rows)
    requires j < |rs|
    ensures InRows(rs[j := r]) + Taken(rs[j]) == InRows(rs) + Taken(r)
  {
    hide Taken;
    var n := |rs| - 1;
    var init := rs[..n];
    if j < n {
      RowsSet(init, j, r);
      assert rs[j := r][..n] == init[j := r];
      Beside(InRows(init[j := r]), InRows(init), Taken(init[j]), Taken(r), Taken(rs[n]));
    } else {
      assert rs[j := r][..n] == init;
    }
  }

  lemma FirstFree(free: seq<Conn>)
    requires free != []
    ensures multiset(free) == multiset{free[0]} + multiset(free[1..])
  {
    assert free == [free[0]] + free[1..];
  }

  /** A savepoint puts back a connection that it gave back before. */
  ghost predicate Again(s: State, e: Step)
    requires Enabled(s, e)
  {
    match e
    case Release(i) => s.sps[i].top && s.sps[i].rolled
    case Rollback(i) => !s.sps[i].released && s.sps[i].top && s.sps[i].rolled
    case _ => false
  }

  function Owner(s: State, e: Step): multiset<Conn>
  {
    match e
    case Release(i) => if i < |s.sps| then multiset{s.sps[i].conn} else multiset{}
    case Rollback(i) => if i < |s.sps| then multiset{s.sps[i].conn} else multiset{}
    case _ => multiset{}
  }

  lemma EndMoves(s: State, i: nat, p: Sp)
    requires i < |s.sps| && !s.sps[i].released
    requires p == s.sps[i].(released := true) || p == s.sps[i].(rolled := true)
    ensures var t := s.(free := if s.sps[i].top then [s.sps[i].conn] + s.free else s.free, sps := s.sps[i := p]);
      Where(t) == Where(s) + if s.sps[i].top && s.sps[i].rolled then multiset{s.sps[i].conn} else multiset{}
  {
    HeldSet(s.sps, i, p);
    var c := s.sps[i].conn;
    var held, held', r := Held(s.sps), Held(s.sps[i := p]), InRows(s.rows);
    assert Holds(p) == multiset{};
    var mine := Holds(s.sps[i]);
    assert multiset([c] + s.free) == multiset{c} + multiset(s.free);
    assert mine == if s.sps[i].top && !s.sps[i].rolled then multiset{c} else multiset{};
    hide Held, Holds, InRows;
    assert held' + mine == held;
    if s.sps[i].top {
      PutBack(multiset(s.free), held, held', mine, r, c);
    }
  }

  lemma PutBack(f: multiset<Conn>, held: multiset<Conn>, held': multiset<Conn>, mine: multiset<Conn>, r: multiset<Conn>, c: Conn)
    requires held' + mine == held && (mine == multiset{c} || mine == multiset{})
    ensures (multiset{c} + f) + held' + r == (f + held + r) + if mine == multiset{c} then multiset{} else multiset{c}
  {
    assert mine != multiset{c} ==> held' == held;
  }

  lemma TakeMoves(s: State, p: Sp)
    requires s.free != [] && p.top && Live(p) && p.conn == s.free[0]
    ensures Where(s.(free := s.free[1..], sps := s.sps + [p])) == Where(s)
  {
    FirstFree(s.free);
    HeldMore(s.sps, p);
    assert Holds(p) == multiset{s.free[0]};
    hide Held, InRows;
  }

  lemma RowsMove(s: State, r: Rows)
    requires s.free != [] && r.open && r.conn == s.free[0]
    ensures Where(s.(free := s.free[1..], rows := s.rows + [r])) == Where(s)
  {
    FirstFree(s.free);
    RowsMore(s.rows, r);
    assert Taken(r) == multiset{s.free[0]};
    hide Held, InRows;
  }

  lemma FinishMoves(s: State, j: nat)
    requires j < |s.rows| && s.rows[j].open
    ensures Where(s.(free := [s.rows[j].conn] + s.free, rows := s.rows[j := s.rows[j].(open := false)])) == Where(s)
  {
    var r := s.rows[j].(open := false);
    RowsSet(s.rows, j, r);
    var c := s.rows[j].conn;
    assert Taken(r) == multiset{} && Taken(s.rows[j]) == multiset{c};
    assert multiset([c] + s.free) == multiset{c} + multiset(s.free);
    var a, b, h, g := InRows(s.rows[j := r]), InRows(s.rows), Held(s.sps), multiset(s.free);
    hide Held, InRows, Taken;
    assert a + multiset{c} == b;
    assert (multiset{c} + g) + h + a == g + h + b;
  }

  /** A step moves connections between places; only a savepoint that gave its connection back before puts
      it back again. */
  lemma WhereDo(s: State, e: Step)
    requires Enabled(s, e)
    ensures Where(Do(s, e)) == Where(s) + if Again(s, e) then Owner(s, e) else multiset{}
  {
    hide Where;
    match e
    case Open => TakeMoves(s, Sp(s.free[0], |s.sps|, true, false, false));
    case Nest(i) => NestStays(s, Sp(s.sps[i].conn, s.sps[i].root, false, false, false));
    case Release(i) => EndMoves(s, i, s.sps[i].(released := true));
    case Rollback(i) =>
      if !s.sps[i].released {
        EndMoves(s, i, s.sps[i].(rolled := true));
      }
    case Exec => RowsMove(s, Rows(s.free[0], true));
    case Finish(j) =>
      if s.rows[j].open {
        FinishMoves(s, j);
      }
  }

  lemma NestStays(s: State, p: Sp)
    requires !p.top
    ensures Where(s.(sps := s.sps + [p])) == Where(s)
  {
    HeldMore(s.sps, p);
    assert Holds(p) == multiset{};
    hide Held, InRows;
  }

  lemma OnceDo(s: State, e: Step, conns: seq<Conn>)
    requires Enabled(s, e) && Once(s, conns)
    ensures Once(Do(s, e), conns) <==> !Again(s, e)
  {
    WhereDo(s, e);
    OwnerIs(s, e);
    hide Do, Where, Again, Owner;
  }

  lemma OwnerIs(s: State, e: Step)
    requires Enabled(s, e)
    ensures Again(s, e) ==> |Owner(s, e)| == 1
  {
  }

  lemma RootedGrows(s: State, p: Sp)
    requires Rooted(s) && (p.top ==> p.root == |s.sps|) && (!p.top ==> p.root < |s.sps|)
    requires Live(p) && (!p.top ==> s.sps[p.root].top && s.sps[p.root].conn == p.conn)
    ensures Rooted(s.(sps := s.sps + [p])) <==> p.top || Live(s.sps[p.root])
  {
    var t := s.(sps := s.sps + [p]);
    forall i | 0 <= i < |s.sps|
      ensures RootOf(t, i)
    {
      assert RootOf(s, i);
    }
    assert RootOf(t, |s.sps|) <==> p.top || Live(s.sps[p.root]);
  }

  /** A savepoint that ends leaves the others rooted unless one of them is live on its connection. */
  lemma RootedEnds(s: State, i: nat, p: Sp)
    requires Rooted(s) && i < |s.sps| && !Live(p)
    requires p == s.sps[i].(released := true) || p == s.sps[i].(rolled := true)
    ensures Rooted(s.(sps := s.sps[i := p])) <==> (s.sps[i].top ==> Alone(s, i))
  {
    var t := s.(sps := s.sps[i := p]);
    assert RootOf(s, i);
    forall j | 0 <= j < |s.sps|
      ensures RootOf(t, j) <==> !(j != i && Live(s.sps[j]) && s.sps[j].root == i)
    {
      assert RootOf(s, j);
    }
    if !s.sps[i].top {
      forall j | 0 <= j < |s.sps|
        ensures s.sps[j].root != i
      {
        assert RootOf(s, j);
      }
    }
  }

  lemma RootedDo(s: State, e: Step)
    requires Enabled(s, e) && Rooted(s)
    ensures Rooted(Do(s, e)) <==>
      match e
      case Nest(i) => s.sps[i].root < |s.sps| && Live(s.sps[s.sps[i].root])
      case Release(i) => s.sps[i].top ==> Alone(s, i)
      case Rollback(i) => s.sps[i].top && !s.sps[i].released ==> Alone(s, i)
      case _ => true
  {
    match e
    case Open =>
      RootedGrows(s, Sp(s.free[0], |s.sps|, true, false, false));
      FreeApart(s, s.free[1..], s.sps + [Sp(s.free[0], |s.sps|, true, false, false)], s.rows);
    case Nest(i) =>
      assert RootOf(s, i);
      RootedGrows(s, Sp(s.sps[i].conn, s.sps[i].root, false, false, false));
    case Release(i) =>
      RootedEnds(s, i, s.sps[i].(released := true));
      FreeApart(s, Do(s, e).free, Do(s, e).sps, s.rows);
    case Rollback(i) =>
      RootedEnds(s, i, s.sps[i].(rolled := true));
      FreeApart(s, Do(s, e).free, Do(s, e).sps, s.rows);
    case Exec =>
      FreeApart(s, Do(s, e).free, s.sps, Do(s, e).rows);
    case Finish(j) =>
      FreeApart(s, Do(s, e).free, s.sps, Do(s, e).rows);
  }

  /** Roots do not depend on the free list and the rows. */
  lemma FreeApart(s: State, free: seq<Conn>, sps: seq<Sp>, rows: seq<Rows>)
    ensures Rooted(State(free, sps, rows)) <==> Rooted(s.(sps := sps))
  {
    forall i | 0 <= i < |sps|
      ensures RootOf(State(free, sps, rows), i) <==> RootOf(s.(sps := sps), i)
    {
    }
  }

  /** A step keeps the invariant if and only if it is allowed. */
  lemma StepExact(s: State, e: Step, conns: seq<Conn>)
    requires Inv(s, conns) && Enabled(s, e)
    ensures Inv(Do(s, e), conns) <==> Allowed(s, e)
  {
    OnceDo(s, e, conns);
    RootedDo(s, e);
    hide Once, Rooted, Do, Alone;
    RolledDead(s, e);
  }

  lemma RolledDead(s: State, e: Step)
    requires Enabled(s, e)
    ensures e.Release? ==> (Live(s.sps[e.i]) <==> !s.sps[e.i].rolled)
    ensures e.Rollback? && !s.sps[e.i].released ==> (Live(s.sps[e.i]) <==> !s.sps[e.i].rolled)
  {
  }

  // ---------------------------------------------------------------- runs

  ghost predicate Distinct(conns: seq<Conn>)
  {
    forall i, j :: 0 <= i < j < |conns| ==> conns[i] != conns[j]
  }

  /** The steps can be taken one after the other, and each one is allowed. */
  ghost predicate Disciplined(s: State, steps: seq<Step>)
    decreases |steps|
  {
    steps == [] || (Enabled(s, steps[0]) && Allowed(s, steps[0]) && Disciplined(Do(s, steps[0]), steps[1..]))
  }

  ghost function After(s: State, steps: seq<Step>): State
    requires Disciplined(s, steps)
    decreases |steps|
  {
    if steps == [] then s else After(Do(s, steps[0]), steps[1..])
  }

  function Fresh(conns: seq<Conn>): State { State(conns, [], []) }

  lemma FreshOnce(conns: seq<Conn>)
    ensures Inv(Fresh(conns), conns)
  {
  }

  lemma {:induction false} RunKeeps(s: State, steps: seq<Step>, conns: seq<Conn>)
    requires Inv(s, conns) && Disciplined(s, steps)
    ensures Inv(After(s, steps), conns)
    decreases |steps|
  {
    hide Inv, Do, Allowed;
    if steps != [] {
      StepExact(s, steps[0], conns);
      RunKeeps(Do(s, steps[0]), steps[1..], conns);
    }
  }

  lemma {:induction false} LiveHolds(sps: seq<Sp>, i: nat)
    requires i < |sps| && sps[i].top && Live(sps[i])
    ensures Held(sps)[sps[i].conn] >= 1
  {
    var n := |sps| - 1;
    if i < n {
      assert sps[..n][i] == sps[i];
      LiveHolds(sps[..n], i);
    }
  }

  lemma {:induction false} TwoHold(sps: seq<Sp>, i: nat, j: nat)
    requires i < j < |sps| && sps[i].top && Live(sps[i]) && sps[j].top && Live(sps[j]) && sps[i].conn == sps[j].conn
    ensures Held(sps)[sps[i].conn] >= 2
  {
    var n := |sps| - 1;
    var init := sps[..n];
    assert init[i] == sps[i];
    if j < n {
      assert init[j] == sps[j];
      TwoHold(init, i, j);
    } else {
      LiveHolds(init, i);
    }
  }

  lemma {:induction false} TwiceIn(free: seq<Conn>, i: nat, j: nat)
    requires i < j < |free| && free[i] == free[j]
    ensures multiset(free)[free[i]] >= 2
  {
    assert free == free[..j] + [free[j]] + free[j + 1..];
    assert free[..j][i] == free[j];
    assert free[j] in multiset(free[..j]);
  }

  lemma {:induction false} OnlyOne(conns: seq<Conn>, c: Conn)
    requires Distinct(conns)
    ensures multiset(conns)[c] <= 1
  {
    if conns != [] {
      var init, last := conns[..|conns| - 1], conns[|conns| - 1];
      assert conns == init + [last];
      OnlyOne(init, c);
      assert forall k :: 0 <= k < |init| ==> init[k] == conns[k];
      assert last !in init;
    }
  }

  /** What the invariant means: no connection is twice in the free list, none in it is in use, and live
      savepoints share a connection only when they are nested in the same one. */
  lemma InvMeans(s: State, conns: seq<Conn>)
    requires Inv(s, conns) && Distinct(conns)
    ensures Distinct(s.free)
    ensures forall i :: 0 <= i < |s.sps| && Live(s.sps[i]) ==> s.sps[i].conn !in s.free
    ensures SharedNested(s)
  {
    forall i, j | 0 <= i < j < |s.free|
      ensures s.free[i] != s.free[j]
    {
      OnlyOne(conns, s.free[i]);
      if s.free[i] == s.free[j] {
        TwiceIn(s.free, i, j);
      }
    }
    forall i | 0 <= i < |s.sps| && Live(s.sps[i])
      ensures s.sps[i].conn !in s.free
    {
      assert RootOf(s, i);
      LiveHolds(s.sps, s.sps[i].root);
      OnlyOne(conns, s.sps[i].conn);
      assert Where(s)[s.sps[i].conn] <= 1;
    }
    forall i, j | 0 <= i < |s.sps| && 0 <= j < |s.sps| && Live(s.sps[i]) && Live(s.sps[j]) && s.sps[i].conn == s.sps[j].conn
      ensures s.sps[i].root == s.sps[j].root
    {
      assert RootOf(s, i) && RootOf(s, j);
      SameRoot(s, conns, s.sps[i].root, s.sps[j].root);
    }
  }

  ghost predicate SharedNested(s: State)
  {
    forall i, j | 0 <= i < |s.sps| && 0 <= j < |s.sps| && Live(s.sps[i]) && Live(s.sps[j]) ::
      s.sps[i].conn == s.sps[j].conn ==> s.sps[i].root == s.sps[j].root
  }

  lemma SameRoot(s: State, conns: seq<Conn>, i: nat, j: nat)
    requires Once(s, conns) && Distinct(conns) && i < |s.sps| && j < |s.sps| && s.sps[i].conn == s.sps[j].conn
    requires s.sps[i].top && Live(s.sps[i]) && s.sps[j].top && Live(s.sps[j])
    ensures i == j
  {
    OnlyOne(conns, s.sps[i].conn);
    assert Where(s)[s.sps[i].conn] <= 1;
    if i < j {
      TwoHold(s.sps, i, j);
    } else if j < i {
      TwoHold(s.sps, j, i);
    }
  }

  /** In every disciplined run from a fresh pool each connection stays in one place; once every savepoint
      and all rows have ended, all of them are back. */
  lemma PoolIsSafe(conns: seq<Conn>, steps: seq<Step>)
    requires Distinct(conns) && Disciplined(Fresh(conns), steps)
    ensures var s := After(Fresh(conns), steps);
      && Distinct(s.free)
      && (forall i :: 0 <= i < |s.sps| && Live(s.sps[i]) ==> s.sps[i].conn !in s.free)
      && ((forall i :: 0 <= i < |s.sps| ==> !Live(s.sps[i])) && (forall j :: 0 <= j < |s.rows| ==> !s.rows[j].open)
          ==> multiset(s.free) == multiset(conns))
  {
    FreshOnce(conns);
    RunKeeps(Fresh(conns), steps, conns);
    var s := After(Fresh(conns), steps);
    InvMeans(s, conns);
    if (forall i :: 0 <= i < |s.sps| ==> !Live(s.sps[i])) && (forall j :: 0 <= j < |s.rows| ==> !s.rows[j].open) {
      NoneHeld(s.sps);
      NoneTaken(s.rows);
    }
    hide After, Disciplined, Held, InRows;
  }

  lemma {:induction false} NoneHeld(sps: seq<Sp>)
    requires forall i :: 0 <= i < |sps| ==> !Live(sps[i])
    ensures Held(sps) == multiset{}
  {
    if sps != [] {
      NoneHeld(sps[..|sps| - 1]);
    }
  }

  lemma {:induction false} NoneTaken(rs: seq<Rows>)
    requires forall j :: 0 <= j < |rs| ==> !rs[j].open
    ensures InRows(rs) == multiset{}
  {
    if rs != [] {
      NoneTaken(rs[..|rs| - 1]);
    }
  }

  /** A savepoint that is rolled back twice puts its connection back twice. */
  lemma RolledBackTwice(c: Conn)
    ensures
      var s := Do(Do(Fresh([c]), Open), Rollback(0));
      !Allowed(s, Rollback(0)) && Do(s, Rollback(0)).free == [c, c]
  {
    var s := Do(Fresh([c]), Open);
    assert s.sps == [Sp(c, 0, true, false, false)];
  }

  /** When the first statement of a new savepoint fails, the connection that was taken for it is lost. */
  lemma FailedOpenLoses(s: State, conns: seq<Conn>)
    requires Inv(s, conns) && s.free != []
    ensures !Once(s.(free := s.free[1..]), conns)
  {
    FirstFree(s.free);
    var t := s.(free := s.free[1..]);
    assert Where(t)[s.free[0]] + 1 == Where(s)[s.free[0]];
  }

  // ---------------------------------------------------------------- what callers have to do

  /** The steps can be taken one after the other. */
  ghost predicate Possible(s: State, steps: seq<Step>)
    decreases |steps|
  {
    steps == [] || (Enabled(s, steps[0]) && Possible(Do(s, steps[0]), steps[1..]))
  }

  function End(s: State, steps: seq<Step>): State
    requires Possible(s, steps)
    decreases |steps|
  {
    if steps == [] then s else End(Do(s, steps[0]), steps[1..])
  }

  /** Savepoint i does not end. */
  predicate Stays(steps: seq<Step>, i: nat) { Step.Release(i) !in steps && Step.Rollback(i) !in steps }

  /** Savepoint i ends with a release, which rollbacks may follow, or with one rollback and nothing behind. */
  predicate EndsOnce(steps: seq<Step>, i: nat)
    decreases |steps|
  {
    steps == [] || steps[0] == Step.Release(i)
    || (if steps[0] == Step.Rollback(i) then Stays(steps[1..], i) else EndsOnce(steps[1..], i))
  }

  /** What steps may still do with savepoint i. */
  predicate Remains(s: State, steps: seq<Step>, i: nat)
  {
    if i >= |s.sps| || Live(s.sps[i]) then EndsOnce(steps, i)
    else s.sps[i].released || Stays(steps, i)
  }

  predicate Top(s: State, i: nat) { i < |s.sps| && s.sps[i].top }

  /** Every savepoint that took a connection ends once. */
  ghost predicate Usage(s: State, steps: seq<Step>)
    requires Possible(s, steps)
  {
    forall i :: Top(End(s, steps), i) ==> Remains(s, steps, i)
  }

  /** Nothing is nested in what has ended, and a connection goes back after all that is nested on it. */
  ghost predicate Within(s: State, e: Step)
    requires Enabled(s, e)
  {
    match e
    case Nest(i) => s.sps[i].root < |s.sps| && Live(s.sps[s.sps[i].root])
    case Release(i) => s.sps[i].top ==> Alone(s, i)
    case Rollback(i) => s.sps[i].top && !s.sps[i].released ==> Alone(s, i)
    case _ => true
  }

  ghost predicate Scoped(s: State, steps: seq<Step>)
    requires Possible(s, steps)
    decreases |steps|
  {
    steps == [] || (Within(s, steps[0]) && Scoped(Do(s, steps[0]), steps[1..]))
  }

  lemma AllowedIs(s: State, e: Step)
    requires Enabled(s, e)
    ensures Allowed(s, e) <==> Within(s, e) && !Again(s, e)
  {
    hide Alone;
  }

  lemma TopStays(s: State, e: Step, i: nat)
    requires Enabled(s, e) && i < |s.sps|
    ensures i < |Do(s, e).sps| && (Top(Do(s, e), i) <==> Top(s, i))
  {
  }

  lemma {:induction false} TopInEnd(s: State, steps: seq<Step>, i: nat)
    requires Possible(s, steps) && i < |s.sps|
    ensures Top(End(s, steps), i) <==> Top(s, i)
    decreases |steps|
  {
    hide Do, Top;
    if steps != [] {
      TopStays(s, steps[0], i);
      TopInEnd(Do(s, steps[0]), steps[1..], i);
    }
  }

  /** A step that puts nothing back twice leaves the same to be asked of the others. */
  lemma RemainsMoves(s: State, steps: seq<Step>, i: nat)
    requires steps != [] && Enabled(s, steps[0]) && !Again(s, steps[0]) && (i < |s.sps| ==> s.sps[i].top)
    ensures Remains(s, steps, i) <==> Remains(Do(s, steps[0]), steps[1..], i)
  {
    assert steps == [steps[0]] + steps[1..];
  }

  lemma AgainBreaks(s: State, steps: seq<Step>) returns (i: nat)
    requires steps != [] && Enabled(s, steps[0]) && Again(s, steps[0])
    ensures Top(s, i) && !Remains(s, steps, i)
  {
    assert steps[0] in steps;
    i := steps[0].i;
  }

  lemma UsageMoves(s: State, steps: seq<Step>)
    requires Possible(s, steps) && steps != []
    ensures Usage(s, steps) <==> !Again(s, steps[0]) && Usage(Do(s, steps[0]), steps[1..])
  {
    hide Do, Again, Remains, Top, Possible;
    assert Possible(Do(s, steps[0]), steps[1..]) && End(s, steps) == End(Do(s, steps[0]), steps[1..]) by {
      OneStep(s, steps);
    }
    if Again(s, steps[0]) {
      var i := AgainBreaks(s, steps);
      TopMeans(s, i);
      TopInEnd(s, steps, i);
    } else {
      forall i: nat | Top(End(s, steps), i)
        ensures Remains(s, steps, i) <==> Remains(Do(s, steps[0]), steps[1..], i)
      {
        if i < |s.sps| {
          TopInEnd(s, steps, i);
          TopMeans(s, i);
        }
        RemainsMoves(s, steps, i);
      }
    }
  }

  lemma TopMeans(s: State, i: nat)
    requires Top(s, i)
    ensures i < |s.sps| && s.sps[i].top
  {
  }

  lemma OneStep(s: State, steps: seq<Step>)
    requires Possible(s, steps) && steps != []
    ensures Enabled(s, steps[0]) && Possible(Do(s, steps[0]), steps[1..])
    ensures End(s, steps) == End(Do(s, steps[0]), steps[1..])
  {
  }

  /** Connections never disappear. */
  lemma {:induction false} NoneGone(s: State, steps: seq<Step>)
    requires Possible(s, steps)
    ensures |Where(End(s, steps))| >= |Where(s)|
    decreases |steps|
  {
    hide Do, Where, Again, Owner;
    if steps != [] {
      WhereDo(s, steps[0]);
      NoneGone(Do(s, steps[0]), steps[1..]);
    }
  }

  /** In a run every connection stays in one place if and only if every savepoint that took one ends once. */
  lemma {:induction false} OnceExact(s: State, steps: seq<Step>, conns: seq<Conn>)
    requires Possible(s, steps) && Once(s, conns)
    ensures Once(End(s, steps), conns) <==> Usage(s, steps)
    decreases |steps|
  {
    if steps == [] {
      NothingLeft(s);
    } else {
      var s' := Do(s, steps[0]);
      hide Do, Where, Again, Owner, Usage;
      OneStep(s, steps);
      UsageMoves(s, steps);
      WhereDo(s, steps[0]);
      OnceDo(s, steps[0], conns);
      OwnerIs(s, steps[0]);
      if Again(s, steps[0]) {
        NoneGone(s', steps[1..]);
        assert |Where(s')| == |multiset(conns)| + 1;
      } else {
        OnceExact(s', steps[1..], conns);
      }
    }
  }

  lemma NothingLeft(s: State)
    ensures Usage(s, [])
  {
  }

  /** A run is disciplined if and only if every savepoint that took a connection ends once and scopes nest. */
  lemma {:induction false} DisciplineExact(s: State, steps: seq<Step>)
    ensures Disciplined(s, steps) <==> Possible(s, steps) && Usage(s, steps) && Scoped(s, steps)
    decreases |steps|
  {
    if steps == [] {
      NothingLeft(s);
    } else {
      hide Do, Again, Usage, Allowed, Within, Enabled;
      if Enabled(s, steps[0]) {
        AllowedIs(s, steps[0]);
        DisciplineExact(Do(s, steps[0]), steps[1..]);
        if Possible(s, steps) {
          UsageMoves(s, steps);
        }
      }
    }
  }

  // ---------------------------------------------------------------- the pool

  class Savepoint {
    const top: bool
    var released: bool

    constructor (t: bool)
      ensures top == t && !released
    {
      top, released := t, false;
    }
  }

  /** Rows that took a connection have still to put it back as long as final is set. */
  class Query {
    const conn: Conn
    var final: bool

    constructor (c: Conn)
      ensures conn == c && final
    {
      conn, final := c, true;
    }
  }

  /** What a context carries: nothing, or a connection and the innermost savepoint. */
  datatype Ctx = Bare | Within(conn: Conn, sp: Savepoint)

  /** The list from c on. */
  ghost predicate Linked(c: Conn?, list: seq<Conn>)
    reads list
  {
    if list == [] then c == null
    else c == list[0] && forall i :: 0 <= i < |list| ==> list[i].next == Behind(list, i)
  }

  function Behind(list: seq<Conn>, i: nat): Conn? { if i + 1 < |list| then list[i + 1] else null }

  lemma DistinctMore(list: seq<Conn>, c: Conn)
    requires Distinct(list) && c !in list
    ensures Distinct(list + [c])
  {
  }

  lemma DistinctLast(list: seq<Conn>)
    requires Distinct(list) && list != []
    ensures forall h :: 0 <= h < |list| - 1 ==> list[h] != list[|list| - 1]
  {
  }

  class Connections {
    var free: Conn?
    ghost var now: State
    ghost var marks: seq<Savepoint>
    ghost var queries: seq<Query>

    ghost predicate Valid()
      reads this, now.free, marks, queries
    {
      && Linked(free, now.free) && Distinct(now.free)
      && |marks| == |now.sps| && |queries| == |now.rows|
      && (forall i :: 0 <= i < |marks| ==> marks[i].top == now.sps[i].top && marks[i].released == now.sps[i].released)
      && (forall i, j :: 0 <= i < j < |marks| ==> marks[i] != marks[j])
      && (forall i :: 0 <= i < |queries| ==> queries[i].conn == now.rows[i].conn && queries[i].final == now.rows[i].open)
      && (forall i, j :: 0 <= i < j < |queries| ==> queries[i] != queries[j])
    }

    /** OpenPool: w connections. */
    constructor (w: nat)
      ensures Valid() && |now.free| == w && now == Fresh(now.free) && fresh(now.free)
    {
      var head: Conn?, last: Conn? := null, null;
      ghost var list: seq<Conn> := [];
      assert Distinct(list);
      hide Distinct;
      new;
      for i := 0 to w
        invariant |list| == i && Linked(head, list) && Distinct(list) && fresh(list)
        invariant last == if list == [] then null else list[|list| - 1]
      {
        var c := new Conn();
        if last == null {
          head := c;
        } else {
          DistinctLast(list);
          last.next := c;
        }
        last := c;
        DistinctMore(list, c);
        list := list + [c];
      }
      free := head;
      now, marks, queries := Fresh(list), [], [];
    }

    /** take, when there is a connection. */
    method Take() returns (c: Conn)
      requires free != null
      modifies this`free
      ensures c == old(free) && free == c.next
      ensures old(Linked(free, now.free)) ==> now.free != [] && c == now.free[0] && Linked(free, now.free[1..])
    {
      c := free;
      ghost var list := now.free;
      free := c.next;
      if old(Linked(free, now.free)) {
        assert list[0].next == Behind(list, 0);
        assert forall i :: 0 <= i < |list[1..]| ==> list[1..][i] == list[i + 1];
      }
    }

    /** put, which does not look whether the connection is in the list. */
    method Put(c: Conn)
      modifies this`free, c
      ensures free == c && c.next == old(free)
      ensures old(Linked(free, now.free)) && c !in now.free ==> Linked(free, [c] + now.free)
    {
      c.next := free;
      free := c;
      ghost var list := [c] + now.free;
      assert forall i :: 0 < i < |list| ==> list[i] == now.free[i - 1];
    }

    ghost predicate Names(ctx: Ctx, i: nat)
      reads this
    {
      ctx.Within? && i < |marks| == |now.sps| && ctx.sp == marks[i] && ctx.conn == now.sps[i].conn
    }

    /** Savepoint, when its statement succeeds: on the connection of the context, or on one from the list. */
    method Open(ctx: Ctx, ghost i: nat) returns (r: Ctx)
      requires Valid() && (ctx.Bare? ==> now.free != []) && (ctx.Within? ==> Names(ctx, i))
      modifies this
      ensures Valid() && now == Do(old(now), if ctx.Bare? then Step.Open else Nest(i))
      ensures Names(r, |old(now.sps)|) && fresh(r.sp) && marks == old(marks) + [r.sp] && queries == old(queries)
    {
      ghost var e := if ctx.Bare? then Step.Open else Nest(i);
      var ctn: Conn;
      var top := false;
      if ctx.Bare? {
        ctn := Take();
        top := true;
      } else {
        ctn := ctx.conn;
      }
      var sp := new Savepoint(top);
      now := Do(now, e);
      marks := marks + [sp];
      r := Within(ctn, sp);
    }

    /** The step, unless the connection is in the list already; in any case it becomes the head. */
    method Release(ctx: Ctx, ghost i: nat)
      requires Valid() && Names(ctx, i) && !ctx.sp.released
      modifies this`free, this`now, ctx.sp, ctx.conn
      ensures !old(ctx.sp.top && ctx.conn in now.free) ==> Valid() && now == Do(old(now), Step.Release(i))
      ensures ctx.sp.released && if ctx.sp.top then free == ctx.conn && ctx.conn.next == old(free) else free == old(free)
    {
      if ctx.sp.top {
        Put(ctx.conn);
      }
      now := Do(now, Step.Release(i));
      ctx.sp.released := true;
    }

    method Rollback(ctx: Ctx, ghost i: nat)
      requires Valid() && Names(ctx, i)
      modifies this`free, this`now, ctx.conn
      ensures !old(ctx.sp.top && !ctx.sp.released && ctx.conn in now.free) ==>
        Valid() && now == Do(old(now), Step.Rollback(i))
      ensures if ctx.sp.top && !ctx.sp.released then free == ctx.conn && ctx.conn.next == old(free) else free == old(free)
    {
      if ctx.sp.released {
        return;
      }
      if ctx.sp.top {
        Put(ctx.conn);
      }
      now := Do(now, Step.Rollback(i));
    }

    /** Exec without a savepoint. */
    method Exec() returns (q: Query)
      requires Valid() && now.free != []
      modifies this
      ensures Valid() && now == Do(old(now), Step.Exec)
      ensures queries == old(queries) + [q] && fresh(q) && marks == old(marks)
    {
      var ctn := Take();
      q := new Query(ctn);
      now := Do(now, Step.Exec);
      queries := queries + [q];
    }

    /** Rows.Err: the connection goes back once. */
    method Finish(q: Query, ghost j: nat)
      requires Valid() && j < |queries| && q == queries[j]
      modifies this`free, this`now, q, q.conn
      ensures !old(q.final && q.conn in now.free) ==> Valid() && now == Do(old(now), Step.Finish(j))
      ensures !q.final && if old(q.final) then free == q.conn && q.conn.next == old(free) else free == old(free)
    {
      if q.final {
        Put(q.conn);
        now := Do(now, Step.Finish(j));
        q.final := false;
      }
    }
  }

  lemma OpenedAndRolledBack(c: Conn)
    ensures var s := Do(Fresh([c]), Open);
      && s == State([], [Sp(c, 0, true, false, false)], [])
      && Do(s, Rollback(0)) == State([c], [Sp(c, 0, true, false, true)], [])
  {
  }

  /** After a savepoint was rolled back twice the list is a ring: everybody gets the same connection. */
  method SharedConnection() returns (a: Conn, b: Conn)
    ensures a == b
  {
    hide Do, Distinct;
    var pool := new Connections(1);
    OpenedAndRolledBack(pool.now.free[0]);
    assert pool.now.free == [pool.now.free[0]];
    var ctx := pool.Open(Bare, 0);
    pool.Rollback(ctx, 0);
    pool.Rollback(ctx, 0);
    a := pool.Take();
    b := pool.Take();
  }

  /** In an allowed step no connection is put back that is in the list. */
  lemma AllowedPuts(s: State, e: Step, conns: seq<Conn>)
    requires Inv(s, conns) && Distinct(conns) && Enabled(s, e) && Allowed(s, e)
    ensures e.Release? && s.sps[e.i].top ==> s.sps[e.i].conn !in s.free
    ensures e.Rollback? && s.sps[e.i].top && !s.sps[e.i].released ==> s.sps[e.i].conn !in s.free
    ensures e.Finish? && s.rows[e.j].open ==> s.rows[e.j].conn !in s.free
  {
    InvMeans(s, conns);
    if e.Finish? && s.rows[e.j].open {
      OpenTakes(s.rows, e.j);
      OnlyOne(conns, s.rows[e.j].conn);
      assert Where(s)[s.rows[e.j].conn] <= 1;
    }
  }

  lemma {:induction false} OpenTakes(rs: seq<Rows>, j: nat)
    requires j < |rs| && rs[j].open
    ensures InRows(rs)[rs[j].conn] >= 1
  {
    if j < |rs| - 1 {
      OpenTakes(rs[..|rs| - 1], j);
    }
  }
}
