/** The locks: which the allocator and the pool take in which order and what they do under them, as
    the lock operations and accesses of each function, and what that means for any number of threads
    running them together. */
module SpinLocks {
  import opened Options
  import opened Runs

  type Tid = nat

  datatype Lock = JobMutex | CentralLock | PageHeapLock

  function Rank(l: Lock): nat {
    match l
    case JobMutex => 0
    case CentralLock => 1
    case PageHeapLock => 2
  }

  /** What the threads share, and the lock that guards it. */
  datatype Shared = JobQueue | CentralCache | PageHeap

  function Guard(x: Shared): Lock {
    match x
    case JobQueue => JobMutex
    case CentralCache => CentralLock
    case PageHeap => PageHeapLock
  }

  /** What a function does with locks and with what they guard; conditions and loop counts are left
      open. */
  datatype Code =
    | Nothing
    | Acquire(lock: Lock)
    | Release(lock: Lock)
    | Touch(what: Shared)
    | Then(first: Code, second: Code)
    | Either(left: Code, right: Code)
    | Loop(body: Code)

  // ----- the functions ------------------------------------------------------

  function Between(l: Lock, body: Code): Code {
    Then(Acquire(l), Then(body, Release(l)))
  }

  const RETURN_SPAN := Between(PageHeapLock, Touch(PageHeap))
  const GET_SPAN_CENTRAL :=
    Then(Touch(CentralCache), Either(Nothing, Then(Between(PageHeapLock, Touch(PageHeap)), Touch(CentralCache))))
  const RETURN_OBJS := Between(CentralLock, Then(Touch(CentralCache), Either(RETURN_SPAN, Nothing)))
  const FETCH_FROM_CENTRAL := Between(CentralLock, Then(GET_SPAN_CENTRAL, Touch(CentralCache)))
  const ALLOCATE := Either(Nothing, FETCH_FROM_CENTRAL)
  const DEALLOCATE := Either(RETURN_OBJS, Nothing)
  const THREAD_INIT := Loop(FETCH_FROM_CENTRAL)
  const CENTRAL_INIT := Loop(Between(CentralLock, GET_SPAN_CENTRAL))
  const TC_MALLOC := Either(ALLOCATE, Between(PageHeapLock, Touch(PageHeap)))
  const TC_FREE := Either(DEALLOCATE, RETURN_SPAN)

  /** The node of the job is allocated with the mutex held. */
  const ADD_JOB := Between(JobMutex, Then(TC_MALLOC, Touch(JobQueue)))
  /** Waiting on the condition gives the mutex up and takes it again. */
  const WAIT := Then(Touch(JobQueue), Then(Release(JobMutex), Acquire(JobMutex)))
  const TAKE_JOB := Between(JobMutex, Then(Loop(WAIT), Touch(JobQueue)))

  const SERVER_LOOP := Loop(Either(Either(TC_MALLOC, TC_FREE), Either(ADD_JOB, TAKE_JOB)))
  const DISPATCHER := Then(CENTRAL_INIT, Then(THREAD_INIT, SERVER_LOOP))
  const WORKER := Then(THREAD_INIT, SERVER_LOOP)

  // ----- threads ------------------------------------------------------------

  /** What each thread has left to do, and who holds each lock. */
  datatype System = System(threads: map<Tid, seq<Code>>, owner: map<Lock, Tid>)

  function Start(code: map<Tid, Code>): System {
    System(map t | t in code :: [code[t]], map[])
  }

  function Held(s: System, t: Tid): set<Lock> {
    set l | l in s.owner && s.owner[l] == t
  }

  predicate Unfinished(s: System, t: Tid) {
    t in s.threads && s.threads[t] != []
  }

  /** A thread spins on a lock somebody holds; it moves on otherwise. */
  predicate CanMove(s: System, t: Tid) {
    Unfinished(s, t) && (s.threads[t][0].Acquire? ==> s.threads[t][0].lock !in s.owner)
  }

  /** One step of thread `t`; `again` settles conditions and loops. */
  function Move(s: System, t: Tid, again: bool): System
    requires CanMove(s, t)
  {
    var rest := s.threads[t][1..];
    match s.threads[t][0]
    case Nothing => s.(threads := s.threads[t := rest])
    case Touch(x) => s.(threads := s.threads[t := rest])
    case Acquire(l) => System(s.threads[t := rest], s.owner[l := t])
    case Release(l) => System(s.threads[t := rest], s.owner - {l})
    case Then(a, b) => s.(threads := s.threads[t := [a, b] + rest])
    case Either(a, b) => s.(threads := s.threads[t := [if again then a else b] + rest])
    case Loop(a) => s.(threads := s.threads[t := (if again then [a, Loop(a)] else []) + rest])
  }

  // ----- the discipline -----------------------------------------------------

  /** The locks held after `c`, if on every path through it locks are taken in rank order, each
      above all that are held, only held ones are released, and what is shared is touched only with
      its lock held. */
  function After(c: Code, held: set<Lock>): Option<set<Lock>> {
    match c
    case Nothing => Some(held)
    case Acquire(l) => if forall m :: m in held ==> Rank(m) < Rank(l) then Some(held + {l}) else None
    case Release(l) => if l in held then Some(held - {l}) else None
    case Touch(x) => if Guard(x) in held then Some(held) else None
    case Then(a, b) => if After(a, held).Some? then After(b, After(a, held).value) else None
    case Either(a, b) => if After(a, held) == After(b, held) then After(a, held) else None
    case Loop(a) => if After(a, held) == Some(held) then Some(held) else None
  }

  function AfterAll(cs: seq<Code>, held: set<Lock>): Option<set<Lock>> {
    if cs == [] then Some(held)
    else if After(cs[0], held).Some? then AfterAll(cs[1..], After(cs[0], held).value)
    else None
  }

  /** Keeps to the order, and gives back what it takes. */
  predicate Disciplined(c: Code, held: set<Lock>) {
    After(c, held) == Some(held)
  }

  lemma Balanced(l: Lock, body: Code, held: set<Lock>)
    requires (forall m :: m in held ==> Rank(m) < Rank(l)) && Disciplined(body, held + {l})
    ensures Disciplined(Between(l, body), held)
  {
    var with_ := held + {l};
    assert with_ - {l} == held;
    assert After(Release(l), with_) == Some(held);
    assert After(Then(body, Release(l)), with_) == Some(held);
  }

  lemma PageHeapDisciplined(held: set<Lock>)
    requires PageHeapLock !in held
    ensures Disciplined(RETURN_SPAN, held)
  {
    Balanced(PageHeapLock, Touch(PageHeap), held);
  }

  lemma CentralDisciplined(held: set<Lock>)
    requires CentralLock !in held && PageHeapLock !in held
    ensures Disciplined(FETCH_FROM_CENTRAL, held) && Disciplined(RETURN_OBJS, held)
    ensures Disciplined(Between(CentralLock, GET_SPAN_CENTRAL), held)
  {
    var with_ := held + {CentralLock};
    PageHeapDisciplined(with_);
    var touch := Touch(CentralCache);
    assert Disciplined(touch, with_);
    assert Disciplined(Then(RETURN_SPAN, touch), with_);
    assert Disciplined(Either(Nothing, Then(RETURN_SPAN, touch)), with_);
    assert Disciplined(GET_SPAN_CENTRAL, with_);
    assert Disciplined(Then(GET_SPAN_CENTRAL, touch), with_);
    assert Disciplined(Either(RETURN_SPAN, Nothing), with_);
    assert Disciplined(Then(touch, Either(RETURN_SPAN, Nothing)), with_);
    Balanced(CentralLock, GET_SPAN_CENTRAL, held);
    Balanced(CentralLock, Then(GET_SPAN_CENTRAL, touch), held);
    Balanced(CentralLock, Then(touch, Either(RETURN_SPAN, Nothing)), held);
  }

  lemma AllocatorDisciplined(held: set<Lock>)
    requires held <= {JobMutex}
    ensures Disciplined(TC_MALLOC, held) && Disciplined(TC_FREE, held)
    ensures Disciplined(CENTRAL_INIT, held) && Disciplined(THREAD_INIT, held)
  {
    PageHeapDisciplined(held);
    CentralDisciplined(held);
    assert Disciplined(ALLOCATE, held) && Disciplined(DEALLOCATE, held);
  }

  lemma PoolDisciplined()
    ensures Disciplined(ADD_JOB, {}) && Disciplined(TAKE_JOB, {})
  {
    var with_ := {JobMutex};
    assert {} + {JobMutex} == with_ && with_ - {JobMutex} == {};
    AllocatorDisciplined(with_);
    assert Disciplined(Then(TC_MALLOC, Touch(JobQueue)), with_);
    Balanced(JobMutex, Then(TC_MALLOC, Touch(JobQueue)), {});
    assert After(Release(JobMutex), with_) == Some({});
    assert After(Then(Release(JobMutex), Acquire(JobMutex)), with_) == Some(with_);
    assert Disciplined(WAIT, with_);
    assert Disciplined(Loop(WAIT), with_);
    assert Disciplined(Then(Loop(WAIT), Touch(JobQueue)), with_);
    Balanced(JobMutex, Then(Loop(WAIT), Touch(JobQueue)), {});
  }

  /** Every thread of the server keeps to the order and gives all locks back. */
  lemma ServerDisciplined()
    ensures Disciplined(DISPATCHER, {}) && Disciplined(WORKER, {})
  {
    AllocatorDisciplined({});
    PoolDisciplined();
    assert Disciplined(Either(TC_MALLOC, TC_FREE), {}) && Disciplined(Either(ADD_JOB, TAKE_JOB), {});
    assert Disciplined(Either(Either(TC_MALLOC, TC_FREE), Either(ADD_JOB, TAKE_JOB)), {});
    assert Disciplined(SERVER_LOOP, {});
    assert Disciplined(Then(THREAD_INIT, SERVER_LOOP), {});
  }

  // ----- all threads together -----------------------------------------------

  ghost predicate Inv(s: System) {
    && (forall l :: l in s.owner ==> s.owner[l] in s.threads)
    && (forall t :: t in s.threads ==> AfterAll(s.threads[t], Held(s, t)) == Some({}))
  }

  lemma StartOk(code: map<Tid, Code>)
    requires forall t :: t in code ==> Disciplined(code[t], {})
    ensures Inv(Start(code))
  {
    forall t | t in code
      ensures AfterAll([code[t]], Held(Start(code), t)) == Some({})
    {
      assert Held(Start(code), t) == {};
      assert [code[t]][1..] == [];
    }
  }

  lemma AfterCons(c: Code, rest: seq<Code>, held: set<Lock>)
    ensures AfterAll([c] + rest, held) == if After(c, held).Some? then AfterAll(rest, After(c, held).value) else None
  {
    assert ([c] + rest)[1..] == rest;
  }

  /** The locks the thread holds after its next instruction alone. */
  lemma MoveHeld(s: System, t: Tid, again: bool)
    requires CanMove(s, t) && After(s.threads[t][0], Held(s, t)).Some?
    ensures var c := s.threads[t][0];
      Held(Move(s, t, again), t) == if c.Acquire? || c.Release? then After(c, Held(s, t)).value else Held(s, t)
  {
  }

  /** A step leaves what the thread will hold at the end as it was. */
  lemma MoveChecks(s: System, t: Tid, again: bool)
    requires CanMove(s, t) && AfterAll(s.threads[t], Held(s, t)).Some?
    ensures AfterAll(Move(s, t, again).threads[t], Held(Move(s, t, again), t)) == AfterAll(s.threads[t], Held(s, t))
  {
    var held := Held(s, t);
    var rest := s.threads[t][1..];
    MoveHeld(s, t, again);
    match s.threads[t][0]
    case Then(a, b) =>
      AfterCons(a, [b] + rest, held);
      AfterCons(b, rest, After(a, held).value);
      assert [a] + ([b] + rest) == [a, b] + rest;
    case Either(a, b) =>
      AfterCons(if again then a else b, rest, held);
    case Loop(a) =>
      AfterCons(a, [Loop(a)] + rest, held);
      AfterCons(Loop(a), rest, held);
      assert [a] + ([Loop(a)] + rest) == [a, Loop(a)] + rest && [] + rest == rest;
    case _ =>
  }

  lemma OthersKeep(s: System, t: Tid, again: bool, u: Tid)
    requires CanMove(s, t) && AfterAll(s.threads[t], Held(s, t)).Some? && u != t
    ensures Held(Move(s, t, again), u) == Held(s, u)
  {
  }

  lemma MoveOk(s: System, t: Tid, again: bool)
    requires Inv(s) && CanMove(s, t)
    ensures Inv(Move(s, t, again)) && Move(s, t, again).threads.Keys == s.threads.Keys
  {
    var s' := Move(s, t, again);
    MoveChecks(s, t, again);
    forall u | u in s'.threads && u != t
      ensures AfterAll(s'.threads[u], Held(s', u)) == Some({})
    {
      OthersKeep(s, t, again, u);
    }
  }

  ghost predicate Goes(s: System, m: (Tid, bool), s': System) {
    CanMove(s, m.0) && s' == Move(s, m.0, m.1)
  }

  ghost function StepRelation(): (System, (Tid, bool), System) -> bool {
    (s, m, s') => Goes(s, m, s')
  }

  ghost predicate Run(s: System, moves: seq<(Tid, bool)>, s': System) {
    Path(StepRelation(), s, moves, s')
  }

  // ----- what follows -------------------------------------------------------

  /** `t` spins on a lock that `u` holds. */
  predicate WaitsFor(s: System, t: Tid, u: Tid) {
    Unfinished(s, t) && s.threads[t][0].Acquire? && s.threads[t][0].lock in s.owner && s.owner[s.threads[t][0].lock] == u
  }

  /** Whom a thread waits for holds a lock above all the waiting thread holds. */
  lemma WaitsUpwards(s: System, t: Tid, u: Tid)
    requires Inv(s) && WaitsFor(s, t, u)
    ensures var l := s.threads[t][0].lock;
      l in Held(s, u) && (forall m :: m in Held(s, t) ==> Rank(m) < Rank(l)) && u != t && Unfinished(s, u)
  {
    var l := s.threads[t][0].lock;
    assert l in Held(s, u);
  }

  function Last(circle: seq<Tid>): Tid
    requires circle != []
  {
    circle[|circle| - 1]
  }

  predicate Chain(s: System, ts: seq<Tid>) {
    ts != [] && forall i :: 0 <= i < |ts| - 1 ==> WaitsFor(s, ts[i], ts[i + 1])
  }

  /** Rank of the lock a thread is about to take. */
  function WantedRank(s: System, t: Tid): nat {
    if Unfinished(s, t) && s.threads[t][0].Acquire? then Rank(s.threads[t][0].lock) else 0
  }

  /** Along a chain of waiting threads the locks waited for rise in rank. */
  lemma {:induction false} RanksRise(s: System, ts: seq<Tid>, z: Tid)
    requires Inv(s) && Chain(s, ts) && WaitsFor(s, Last(ts), z)
    ensures WantedRank(s, ts[0]) <= WantedRank(s, Last(ts))
    decreases |ts|
  {
    if |ts| > 1 {
      var init := ts[..|ts| - 1];
      assert WaitsFor(s, Last(init), ts[|init| - 1 + 1]);
      RanksRise(s, init, Last(ts));
      WaitsUpwards(s, Last(init), Last(ts));
      WaitsUpwards(s, Last(ts), z);
    }
  }

  /** Nobody waits for itself, directly or round a circle of any length. */
  lemma NoCircularWait(s: System, ts: seq<Tid>)
    requires Inv(s) && Chain(s, ts)
    ensures !WaitsFor(s, Last(ts), ts[0])
  {
    if WaitsFor(s, Last(ts), ts[0]) {
      var next := if |ts| == 1 then ts[0] else ts[1];
      assert WaitsFor(s, ts[0], next);
      WaitsUpwards(s, ts[0], next);
      WaitsUpwards(s, Last(ts), ts[0]);
      RanksRise(s, ts, ts[0]);
    }
  }

  /** Whoever is unfinished, somebody can move: follow the waiting up the ranks. */
  lemma {:induction false} SomeoneMoves(s: System, t: Tid) returns (u: Tid)
    requires Inv(s) && Unfinished(s, t)
    ensures CanMove(s, u)
    decreases if s.threads[t][0].Acquire? then 3 - Rank(s.threads[t][0].lock) else 0
  {
    if CanMove(s, t) {
      u := t;
    } else {
      var v := s.owner[s.threads[t][0].lock];
      WaitsUpwards(s, t, v);
      if CanMove(s, v) {
        u := v;
      } else {
        WaitsUpwards(s, v, s.owner[s.threads[v][0].lock]);
        u := SomeoneMoves(s, v);
      }
    }
  }

  ghost predicate Reachable(code: map<Tid, Code>, moves: seq<(Tid, bool)>, s: System) {
    && (forall t :: t in code ==> code[t] == DISPATCHER || code[t] == WORKER)
    && Run(Start(code), moves, s)
  }

  lemma ReachableOk(code: map<Tid, Code>, moves: seq<(Tid, bool)>, s: System)
    requires Reachable(code, moves, s)
    ensures Inv(s)
  {
    ServerDisciplined();
    StartOk(code);
    forall a, m, b | Inv(a) && Goes(a, m, b)
      ensures Inv(b)
    {
      MoveOk(a, m.0, m.1);
    }
    PathKeeps(StepRelation(), a => Inv(a), Start(code), moves, s);
  }

  /** For any number of threads of the server, after any run: a thread about to take a lock holds
      only locks of lower rank, so never that lock itself; one about to release a lock holds it;
      and one that is finished holds none. */
  lemma OrderKept(code: map<Tid, Code>, moves: seq<(Tid, bool)>, s: System, t: Tid)
    requires Reachable(code, moves, s) && t in s.threads
    ensures s.threads[t] == [] ==> Held(s, t) == {}
    ensures s.threads[t] != [] && s.threads[t][0].Acquire? ==> forall m :: m in Held(s, t) ==> Rank(m) < Rank(s.threads[t][0].lock)
    ensures s.threads[t] != [] && s.threads[t][0].Release? ==> s.threads[t][0].lock in Held(s, t)
  {
    ReachableOk(code, moves, s);
  }

  /** A thread about to touch what is shared. */
  predicate Touches(s: System, t: Tid, x: Shared) {
    Unfinished(s, t) && s.threads[t][0] == Touch(x)
  }

  /** For any number of threads, after any run: who touches the job queue, the central cache or the
      page heap holds its lock, so that no two threads ever do so at once. */
  lemma TouchedUnderLock(code: map<Tid, Code>, moves: seq<(Tid, bool)>, s: System, x: Shared)
    requires Reachable(code, moves, s)
    ensures forall t :: Touches(s, t, x) ==> Guard(x) in Held(s, t)
    ensures forall t, u :: Touches(s, t, x) && Touches(s, u, x) ==> t == u
  {
    ReachableOk(code, moves, s);
    forall t | Touches(s, t, x)
      ensures Guard(x) in Held(s, t)
    {
      assert AfterAll(s.threads[t], Held(s, t)).Some?;
    }
  }

  /** No circle of waiting threads, and as long as anyone is unfinished someone can move. */
  lemma NoDeadlock(code: map<Tid, Code>, moves: seq<(Tid, bool)>, s: System)
    requires Reachable(code, moves, s)
    ensures forall ts :: Chain(s, ts) ==> !WaitsFor(s, Last(ts), ts[0])
    ensures (exists t :: Unfinished(s, t)) ==> exists u :: CanMove(s, u)
  {
    ReachableOk(code, moves, s);
    forall ts | Chain(s, ts)
      ensures !WaitsFor(s, Last(ts), ts[0])
    {
      NoCircularWait(s, ts);
    }
    if t :| Unfinished(s, t) {
      var u := SomeoneMoves(s, t);
    }
  }
}
