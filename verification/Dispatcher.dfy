/** The server's main loop, which accepts connections, watches them and hands each to the pool
    when it is readable, together with the workers that answer and close them. The kernel gives
    out the lowest descriptor that is not in use, so numbers of closed connections come back. */
module Dispatcher {
  import opened WorkerPool
  import opened Runs

  type Fd = nat
  type Conn = nat

  /** A job carries a descriptor number; which connection that was is recorded beside it. */
  datatype Job = Job(fd: Fd, conn: Conn)

  /** Where the dispatcher stands: at select, looking at descriptor `i`, in the accept loop, or
      between handing a job over and FD_CLR. `left` counts the ready descriptors not yet seen. */
  datatype Pc = AtSelect | Scan(i: nat, left: int) | Accepting(i: nat, left: int) | Handed(i: nat, left: int)

  datatype Server = Server(
    listen: Fd,
    reserved: set<Fd>,        // descriptors open for other reasons, the directory and the listening socket among them
    open: map<Fd, Conn>,      // the kernel's table of open connections
    nextConn: Conn,           // connections accepted so far
    current: set<Fd>, ready: set<Fd>, maxFd: nat,
    pc: Pc,
    pool: Pool<Job>)

  datatype Step =
    | Select(ready: set<Fd>)
    | Look(woken: set<Wid>)               // one pass of the scanning loop
    | AcceptOne(fd: Fd)
    | AcceptEnds
    | AcceptZero                          // accept returned descriptor 0, which ends its loop too
    | Clear
    | ScanEnds
    | PoolStep(a: Action<Job>)            // a worker takes a job, falls asleep or wakes up
    | Close(w: Wid)                       // a worker is done: it closes the descriptor of its job

  /** The lowest descriptor at or after `i` that is not in use. */
  function LowestFrom(used: set<Fd>, i: Fd): (n: Fd)
    ensures i <= n && n !in used && forall m :: i <= m < n ==> m in used
    decreases |Ahead(used, i)|
  {
    if i !in used then i
    else
      AheadStep(used, i);
      LowestFrom(used, i + 1)
  }

  function Lowest(used: set<Fd>): (n: Fd)
    ensures n !in used && forall m :: 0 <= m < n ==> m in used
  {
    LowestFrom(used, 0)
  }

  /** With some descriptors inherited, the directory is opened, which stays open, and then the
      listening socket. */
  function Start(inherited: set<Fd>, ids: set<Wid>): Server {
    var dir := Lowest(inherited);
    var listen := Lowest(inherited + {dir});
    Server(listen, inherited + {dir, listen}, map[], 0, {listen}, {}, listen, AtSelect, WorkerPool.Start(ids))
  }

  /** The descriptor the kernel gives out next. */
  function NextFd(s: Server): Fd {
    Lowest(s.reserved + s.open.Keys)
  }

  predicate CanStep(s: Server, x: Step) {
    match x
    case Select(ready) => s.pc.AtSelect? && ready != {} && ready <= s.current
    case Look(woken) => s.pc.Scan? && s.pc.i <= s.maxFd && s.pc.left > 0 &&
      (s.pc.i in s.ready && s.pc.i != s.listen ==> Enabled(s.pool, Add(JobOf(s, s.pc.i), woken)))
    case AcceptOne(fd) => s.pc.Accepting? && fd == NextFd(s) && fd != 0
    case AcceptEnds => s.pc.Accepting?
    case AcceptZero => s.pc.Accepting? && NextFd(s) == 0
    case Clear => s.pc.Handed?
    case ScanEnds => s.pc.Scan? && (s.pc.i > s.maxFd || s.pc.left <= 0)
    case PoolStep(a) => (a.Take? || a.Sleep? || a.Spurious?) && Enabled(s.pool, a)
    case Close(w) => Enabled(s.pool, Finish(w))
  }

  /** The job for descriptor `i`, tagged with the connection it denotes now. */
  function JobOf(s: Server, i: Fd): Job {
    Job(i, if i in s.open then s.open[i] else s.nextConn)
  }

  function Next(s: Server, x: Step): Server
    requires CanStep(s, x)
  {
    match x
    case Select(ready) => s.(ready := ready, pc := Scan(0, |ready|))
    case Look(woken) =>
      if s.pc.i !in s.ready then s.(pc := Scan(s.pc.i + 1, s.pc.left))
      else if s.pc.i == s.listen then s.(pc := Accepting(s.pc.i, s.pc.left - 1))
      else s.(pool := Apply(s.pool, Add(JobOf(s, s.pc.i), woken)), pc := Handed(s.pc.i, s.pc.left - 1))
    case AcceptOne(fd) =>
      s.(open := s.open[fd := s.nextConn], nextConn := s.nextConn + 1, current := s.current + {fd},
         maxFd := if fd > s.maxFd then fd else s.maxFd)
    case AcceptEnds => s.(pc := Scan(s.pc.i + 1, s.pc.left))
    case AcceptZero => s.(open := s.open[0 := s.nextConn], nextConn := s.nextConn + 1, pc := Scan(s.pc.i + 1, s.pc.left))
    case Clear => s.(current := s.current - {s.pc.i}, pc := Scan(s.pc.i + 1, s.pc.left))
    case ScanEnds => s.(pc := AtSelect)
    case PoolStep(a) => s.(pool := Apply(s.pool, a))
    case Close(w) => s.(open := s.open - {s.pool.workers[w].job.fd}, pool := Apply(s.pool, Finish(w)))
  }

  // ----- who owns a connection ----------------------------------------------

  datatype Owner = Watcher | Queued(k: nat) | Worker(w: Wid)

  /** Watched: in the set passed to select, and not handed over already. */
  predicate Watched(s: Server, fd: Fd) {
    fd in s.current && fd != s.listen && !(s.pc.Handed? && s.pc.i == fd)
  }

  predicate Owns(s: Server, o: Owner, fd: Fd) {
    match o
    case Watcher => Watched(s, fd)
    case Queued(k) => k < |s.pool.queue| && s.pool.queue[k].fd == fd
    case Worker(w) => w in s.pool.workers && s.pool.workers[w].Busy? && s.pool.workers[w].job.fd == fd
  }

  /** The connection the owner takes the descriptor for. */
  function ConnOf(s: Server, o: Owner, fd: Fd): Conn
    requires Owns(s, o, fd) && fd in s.open
  {
    match o
    case Watcher => s.open[fd]
    case Queued(k) => s.pool.queue[k].conn
    case Worker(w) => s.pool.workers[w].job.conn
  }

  ghost predicate OneOwner(s: Server) {
    forall fd, o, p :: Owns(s, o, fd) && Owns(s, p, fd) ==> o == p
  }

  /** Owned descriptors are open and mean the connection they were taken for; open ones are owned. */
  ghost predicate OwnersOk(s: Server) {
    && (forall fd, o :: Owns(s, o, fd) ==> fd in s.open && ConnOf(s, o, fd) == s.open[fd])
    && (forall fd :: fd in s.open ==> HasOwner(s, fd))
  }

  ghost predicate HasOwner(s: Server, fd: Fd) {
    exists o :: Owns(s, o, fd)
  }

  predicate WasHanded(s: Server, c: Conn) {
    exists k :: 0 <= k < |s.pool.added| && s.pool.added[k].conn == c
  }

  /** No two descriptors are one connection, and of those still open exactly the ones no longer
      watched have been handed to the pool. */
  ghost predicate OpenOk(s: Server) {
    && (forall f, g :: f in s.open && g in s.open && s.open[f] == s.open[g] ==> f == g)
    && (forall f :: f in s.open ==> s.open[f] < s.nextConn && (WasHanded(s, s.open[f]) <==> !Watched(s, f)))
  }

  /** A connection is handed to the pool at most once, and it is not closed before. */
  ghost predicate HandedOk(s: Server) {
    && (forall i, j :: 0 <= i < j < |s.pool.added| ==> s.pool.added[i].conn != s.pool.added[j].conn)
    && (forall i :: 0 <= i < |s.pool.added| ==> s.pool.added[i].conn < s.nextConn)
    && (forall c: Conn | c < s.nextConn :: c in s.open.Values || WasHanded(s, c))
  }

  /** First descriptor the scan has not dealt with. */
  function Position(pc: Pc): nat {
    match pc
    case AtSelect => 0
    case Scan(i, _) => i
    case Accepting(i, _) => i + 1
    case Handed(i, _) => i + 1
  }

  ghost predicate ScanOk(s: Server) {
    && (!s.pc.AtSelect? ==> forall f :: f in s.ready && f >= Position(s.pc) ==> f == s.listen || Watched(s, f))
    && (s.pc.Handed? ==> s.pc.i in s.current && s.pc.i != s.listen)
  }

  function Ahead(ready: set<Fd>, from: nat): set<Fd> {
    set f | f in ready && f >= from
  }

  /** `left` counts the ready descriptors still ahead of the scan. */
  ghost predicate CountOk(s: Server) {
    !s.pc.AtSelect? ==> s.pc.left == |Ahead(s.ready, Position(s.pc))|
  }

  ghost predicate FdsOk(s: Server) {
    && s.listen in s.current && s.listen in s.reserved && 0 in s.reserved
    && (forall f :: f in s.open ==> f !in s.reserved)
    && (forall f :: f in s.current ==> f <= s.maxFd)
  }

  ghost predicate Inv(s: Server) {
    FdsOk(s) && OneOwner(s) && OwnersOk(s) && OpenOk(s) && HandedOk(s) && ScanOk(s) && CountOk(s) && InOrder(s.pool)
  }

  // ----- every step keeps it ------------------------------------------------

  lemma AheadStep(ready: set<Fd>, i: nat)
    ensures |Ahead(ready, i)| == |Ahead(ready, i + 1)| + if i in ready then 1 else 0
  {
    if i in ready {
      assert Ahead(ready, i) == Ahead(ready, i + 1) + {i};
    } else {
      assert Ahead(ready, i) == Ahead(ready, i + 1);
    }
  }

  lemma CountKept(s: Server, x: Step)
    requires CountOk(s) && CanStep(s, x)
    ensures CountOk(Next(s, x))
  {
    var t := Next(s, x);
    if x.Select? {
      assert Ahead(x.ready, 0) == x.ready;
    } else if x.Look? {
      AheadStep(s.ready, s.pc.i);
    }
  }

  /** Nothing about connections, their owners and the jobs handed over changes. */
  ghost predicate SameOwners(s: Server, t: Server) {
    && t.listen == s.listen && t.reserved == s.reserved && t.open == s.open && t.nextConn == s.nextConn
    && t.pool.queue == s.pool.queue && t.pool.added == s.pool.added
    && (forall fd :: Watched(t, fd) <==> Watched(s, fd))
    && (forall w :: Working(t, w) <==> Working(s, w))
    && (forall w :: Working(s, w) ==> t.pool.workers[w] == s.pool.workers[w])
  }

  predicate Working(s: Server, w: Wid) {
    w in s.pool.workers && s.pool.workers[w].Busy?
  }

  lemma SameOwnersOk(s: Server, t: Server)
    requires SameOwners(s, t) && OneOwner(s) && OwnersOk(s) && OpenOk(s) && HandedOk(s)
    ensures OneOwner(t) && OwnersOk(t) && OpenOk(t) && HandedOk(t)
  {
    forall fd, o
      ensures Owns(t, o, fd) <==> Owns(s, o, fd)
    {
      if o.Worker? { assert Working(t, o.w) <==> Working(s, o.w); }
    }
    forall c
      ensures WasHanded(t, c) <==> WasHanded(s, c)
    {
    }
    forall fd | fd in t.open
      ensures HasOwner(t, fd)
    {
      assert HasOwner(s, fd);
      var o :| Owns(s, o, fd);
      assert Owns(t, o, fd);
    }
  }

  lemma QuietStepOk(s: Server, x: Step)
    requires Inv(s) && CanStep(s, x)
    requires x.Select? || x.AcceptEnds? || x.Clear? || x.ScanEnds? ||
      (x.Look? && (s.pc.i !in s.ready || s.pc.i == s.listen))
    ensures Inv(Next(s, x))
  {
    SameOwnersOk(s, Next(s, x));
    CountKept(s, x);
  }

  lemma WakeStepOk(s: Server, a: Action<Job>)
    requires Inv(s) && CanStep(s, PoolStep(a)) && !a.Take?
    ensures Inv(Next(s, PoolStep(a)))
  {
    SameOwnersOk(s, Next(s, PoolStep(a)));
    CountKept(s, PoolStep(a));
  }

  /** Handing the descriptor in turn over: its owner was the watcher and is now the queue. */
  lemma HandOwner(s: Server, woken: set<Wid>, fd: Fd, o: Owner)
    requires OneOwner(s) && OwnersOk(s) && ScanOk(s) && CanStep(s, Look(woken)) && s.pc.i in s.ready && s.pc.i != s.listen
    ensures Watched(s, s.pc.i) && s.pc.i in s.open
    ensures Owns(Next(s, Look(woken)), o, fd) <==> if fd == s.pc.i then o == Queued(|s.pool.queue|) else Owns(s, o, fd)
  {
    assert Owns(s, Watcher, s.pc.i);
    if Owns(s, o, s.pc.i) { assert o == Watcher; }
  }

  lemma HandOwners(s: Server, woken: set<Wid>)
    requires OneOwner(s) && OwnersOk(s) && ScanOk(s) && CanStep(s, Look(woken)) && s.pc.i in s.ready && s.pc.i != s.listen
    ensures OneOwner(Next(s, Look(woken))) && OwnersOk(Next(s, Look(woken)))
  {
    var t := Next(s, Look(woken));
    forall fd, o
      ensures Owns(t, o, fd) <==> if fd == s.pc.i then o == Queued(|s.pool.queue|) else Owns(s, o, fd)
    {
      HandOwner(s, woken, fd, o);
    }
    HandOwner(s, woken, s.pc.i, Watcher);
    forall fd | fd in t.open
      ensures HasOwner(t, fd)
    {
      assert HasOwner(s, fd);
      var o :| Owns(s, o, fd);
      assert Owns(t, if fd == s.pc.i then Queued(|s.pool.queue|) else o, fd);
    }
  }

  lemma HandHanded(s: Server, woken: set<Wid>)
    requires OpenOk(s) && HandedOk(s) && CanStep(s, Look(woken)) && s.pc.i in s.ready && s.pc.i != s.listen
    requires Watched(s, s.pc.i) && s.pc.i in s.open
    ensures OpenOk(Next(s, Look(woken))) && HandedOk(Next(s, Look(woken)))
  {
    var t := Next(s, Look(woken));
    var i := s.pc.i;
    assert t.pool.added == s.pool.added + [Job(i, s.open[i])];
    forall c
      ensures WasHanded(t, c) <==> WasHanded(s, c) || c == s.open[i]
    {
      if WasHanded(s, c) {
        var k :| 0 <= k < |s.pool.added| && s.pool.added[k].conn == c;
        assert t.pool.added[k].conn == c;
      }
      assert t.pool.added[|s.pool.added|].conn == s.open[i];
    }
    assert !WasHanded(s, s.open[i]);
  }

  lemma HandOk(s: Server, woken: set<Wid>)
    requires Inv(s) && CanStep(s, Look(woken)) && s.pc.i in s.ready && s.pc.i != s.listen
    ensures Inv(Next(s, Look(woken)))
  {
    var t := Next(s, Look(woken));
    HandOwner(s, woken, s.pc.i, Watcher);
    HandOwners(s, woken);
    HandHanded(s, woken);
    CountKept(s, Look(woken));
    assert t.pool.taken + t.pool.queue == s.pool.taken + s.pool.queue + [JobOf(s, s.pc.i)];
  }

  /** A new connection has a number nobody owns; it is the watcher's now. */
  lemma AcceptOwners(s: Server, fd: Fd)
    requires FdsOk(s) && OneOwner(s) && OwnersOk(s) && CanStep(s, AcceptOne(fd))
    ensures fd !in s.open && fd !in s.reserved
    ensures OneOwner(Next(s, AcceptOne(fd))) && OwnersOk(Next(s, AcceptOne(fd)))
  {
    var t := Next(s, AcceptOne(fd));
    forall f, o
      ensures Owns(t, o, f) <==> if f == fd then o == Watcher else Owns(s, o, f)
    {
      assert !Owns(s, o, fd);
    }
    forall f | f in t.open
      ensures HasOwner(t, f)
    {
      if f == fd {
        assert Owns(t, Watcher, f);
      } else {
        assert HasOwner(s, f);
        var o :| Owns(s, o, f);
        assert Owns(t, o, f);
      }
    }
  }

  lemma AcceptHanded(s: Server, fd: Fd)
    requires OpenOk(s) && HandedOk(s) && CanStep(s, AcceptOne(fd)) && fd !in s.open && fd != s.listen
    ensures OpenOk(Next(s, AcceptOne(fd))) && HandedOk(Next(s, AcceptOne(fd)))
  {
    var t := Next(s, AcceptOne(fd));
    assert t.open[fd] == s.nextConn;
    forall c
      ensures WasHanded(t, c) <==> WasHanded(s, c)
    {
    }
    forall c: Conn | c < t.nextConn
      ensures c in t.open.Values || WasHanded(t, c)
    {
      if c in s.open.Values {
        var f :| f in s.open && s.open[f] == c;
        assert t.open[f] == c;
      }
    }
  }

  lemma AcceptOneOk(s: Server, fd: Fd)
    requires Inv(s) && CanStep(s, AcceptOne(fd))
    ensures Inv(Next(s, AcceptOne(fd)))
  {
    AcceptOwners(s, fd);
    AcceptHanded(s, fd);
  }

  lemma TakeOwners(s: Server, w: Wid)
    requires OneOwner(s) && OwnersOk(s) && CanStep(s, PoolStep(Take(w)))
    ensures OneOwner(Next(s, PoolStep(Take(w)))) && OwnersOk(Next(s, PoolStep(Take(w))))
  {
    var t := Next(s, PoolStep(Take(w)));
    assert Owns(s, Queued(0), s.pool.queue[0].fd);
    forall f, o
      ensures Owns(t, o, f) <==> Owns(s, Before(o, w), f)
    {
    }
    forall f, o, p | Owns(t, o, f) && Owns(t, p, f)
      ensures o == p
    {
      assert Before(o, w) == Before(p, w);
    }
    forall f | f in t.open
      ensures HasOwner(t, f)
    {
      assert HasOwner(s, f);
      var o :| Owns(s, o, f);
      assert o == Before(After(o, w), w);
      assert Owns(t, After(o, w), f);
    }
  }

  lemma TakeJobOk(s: Server, w: Wid)
    requires Inv(s) && CanStep(s, PoolStep(Take(w)))
    ensures Inv(Next(s, PoolStep(Take(w))))
  {
    var t := Next(s, PoolStep(Take(w)));
    TakeOwners(s, w);
    forall c
      ensures WasHanded(t, c) <==> WasHanded(s, c)
    {
    }
    assert s.pool.queue == [s.pool.queue[0]] + t.pool.queue;
    assert t.pool.taken + t.pool.queue == s.pool.taken + s.pool.queue;
  }

  /** Who owned, before worker `w` took the first job, what `o` owns afterwards; and back. */
  function Before(o: Owner, w: Wid): Owner {
    match o
    case Watcher => Watcher
    case Queued(k) => Queued(k + 1)
    case Worker(v) => if v == w then Queued(0) else o
  }

  function After(o: Owner, w: Wid): Owner {
    match o
    case Watcher => Watcher
    case Queued(k) => if k == 0 then Worker(w) else Queued(k - 1)
    case Worker(v) => o
  }

  lemma CloseOwners(s: Server, w: Wid)
    requires OneOwner(s) && OwnersOk(s) && CanStep(s, Close(w))
    ensures OneOwner(Next(s, Close(w))) && OwnersOk(Next(s, Close(w)))
  {
    var t := Next(s, Close(w));
    var fd := s.pool.workers[w].job.fd;
    assert Owns(s, Worker(w), fd);
    forall f, o
      ensures Owns(t, o, f) <==> f != fd && Owns(s, o, f)
    {
      if Owns(s, o, fd) { assert o == Worker(w); }
    }
    forall f | f in t.open
      ensures HasOwner(t, f)
    {
      assert HasOwner(s, f);
      var o :| Owns(s, o, f);
      assert Owns(t, o, f);
    }
  }

  /** The connection a worker closes has been handed over. */
  lemma CloseHanded(s: Server, w: Wid)
    requires OneOwner(s) && OwnersOk(s) && OpenOk(s) && HandedOk(s) && CanStep(s, Close(w))
    ensures OpenOk(Next(s, Close(w))) && HandedOk(Next(s, Close(w)))
  {
    var t := Next(s, Close(w));
    var fd := s.pool.workers[w].job.fd;
    assert Owns(s, Worker(w), fd) && !Owns(s, Watcher, fd);
    forall c
      ensures WasHanded(t, c) <==> WasHanded(s, c)
    {
    }
    forall c: Conn | c < t.nextConn
      ensures c in t.open.Values || WasHanded(t, c)
    {
      if !WasHanded(s, c) {
        var f :| f in s.open && s.open[f] == c;
        assert t.open[f] == c;
      }
    }
  }

  lemma CloseOk(s: Server, w: Wid)
    requires Inv(s) && CanStep(s, Close(w))
    ensures Inv(Next(s, Close(w)))
  {
    CloseOwners(s, w);
    CloseHanded(s, w);
    assert Owns(s, Worker(w), s.pool.workers[w].job.fd);
  }

  lemma StepOk(s: Server, x: Step)
    requires Inv(s) && CanStep(s, x)
    ensures Inv(Next(s, x))
  {
    match x
    case Look(woken) => if s.pc.i in s.ready && s.pc.i != s.listen { HandOk(s, woken); } else { QuietStepOk(s, x); }
    case AcceptOne(fd) => AcceptOneOk(s, fd);
    case PoolStep(a) => if a.Take? { TakeJobOk(s, a.w); } else { WakeStepOk(s, a); }
    case Close(w) => CloseOk(s, w);
    case AcceptZero => assert false;
    case _ => QuietStepOk(s, x);
  }

  // ----- runs ---------------------------------------------------------------

  ghost predicate Goes(s: Server, x: Step, t: Server) {
    CanStep(s, x) && t == Next(s, x)
  }

  ghost function StepRelation(): (Server, Step, Server) -> bool {
    (s, x, t) => Goes(s, x, t)
  }

  ghost predicate Run(s: Server, steps: seq<Step>, t: Server) {
    Path(StepRelation(), s, steps, t)
  }

  ghost predicate Reachable(inherited: set<Fd>, ids: set<Wid>, steps: seq<Step>, s: Server) {
    Run(Start(inherited, ids), steps, s)
  }

  lemma StartOk(inherited: set<Fd>, ids: set<Wid>)
    ensures Inv(Start(inherited, ids))
  {
    var s := Start(inherited, ids);
    assert 0 in s.reserved;
    assert Ahead(s.ready, 0) == {};
  }

  lemma ReachableOk(inherited: set<Fd>, ids: set<Wid>, steps: seq<Step>, s: Server)
    requires Reachable(inherited, ids, steps, s)
    ensures Inv(s)
  {
    StartOk(inherited, ids);
    forall a, x, b | Inv(a) && Goes(a, x, b)
      ensures Inv(b)
    {
      StepOk(a, x);
    }
    PathKeeps(StepRelation(), a => Inv(a), Start(inherited, ids), steps, s);
  }

  // ----- what every run promises --------------------------------------------

  /** The accept loop is never ended by a descriptor 0: whether it was free at the start or not, it
      is in use whenever a connection is accepted, at the latest by the directory. */
  lemma ZeroInUse(inherited: set<Fd>, ids: set<Wid>, steps: seq<Step>, s: Server)
    requires Reachable(inherited, ids, steps, s)
    ensures 0 in s.reserved && NextFd(s) != 0 && !CanStep(s, AcceptZero)
  {
    ReachableOk(inherited, ids, steps, s);
  }

  /** At select, the watch set is the listening socket and exactly the connections accepted and
      not yet handed over, all of them open. */
  lemma WatchSetExact(inherited: set<Fd>, ids: set<Wid>, steps: seq<Step>, s: Server)
    requires Reachable(inherited, ids, steps, s) && s.pc.AtSelect?
    ensures s.current == {s.listen} + set f | f in s.open && !WasHanded(s, s.open[f])
    ensures forall c: Conn | c < s.nextConn && !WasHanded(s, c) :: exists f :: f in s.current && f != s.listen && f in s.open && s.open[f] == c
  {
    ReachableOk(inherited, ids, steps, s);
    forall f | f in s.current && f != s.listen
      ensures f in s.open && !WasHanded(s, s.open[f])
    {
      assert Owns(s, Watcher, f);
    }
    forall c: Conn | c < s.nextConn && !WasHanded(s, c)
      ensures exists f :: f in s.current && f != s.listen && f in s.open && s.open[f] == c
    {
      var f :| f in s.open && s.open[f] == c;
      assert Watched(s, f);
    }
  }

  /** An open connection has exactly one owner, who takes the descriptor for that connection and
      no other, although numbers come back and a worker may close before FD_CLR; what anyone owns
      is open. */
  lemma OwnedByOne(inherited: set<Fd>, ids: set<Wid>, steps: seq<Step>, s: Server)
    requires Reachable(inherited, ids, steps, s)
    ensures forall fd, o :: Owns(s, o, fd) ==> fd in s.open && ConnOf(s, o, fd) == s.open[fd]
    ensures forall fd, o, p :: Owns(s, o, fd) && Owns(s, p, fd) ==> o == p
    ensures forall fd :: fd in s.open ==> HasOwner(s, fd)
  {
    ReachableOk(inherited, ids, steps, s);
  }

  /** The count of ready descriptors never ends the scan early: when it stops, no ready descriptor
      is left ahead of it. */
  lemma NoneSkipped(inherited: set<Fd>, ids: set<Wid>, steps: seq<Step>, s: Server)
    requires Reachable(inherited, ids, steps, s) && CanStep(s, ScanEnds)
    ensures forall f :: f in s.ready ==> f < s.pc.i
  {
    ReachableOk(inherited, ids, steps, s);
    NoneAhead(s);
  }

  /** A connection is handed over at most once, and one that is closed has been handed to the pool
      and taken by a worker. */
  lemma HandedOnce(inherited: set<Fd>, ids: set<Wid>, steps: seq<Step>, s: Server)
    requires Reachable(inherited, ids, steps, s)
    ensures forall i, j :: 0 <= i < j < |s.pool.added| ==> s.pool.added[i].conn != s.pool.added[j].conn
    ensures forall c: Conn | c < s.nextConn && c !in s.open.Values :: exists k :: 0 <= k < |s.pool.taken| && s.pool.taken[k].conn == c
  {
    ReachableOk(inherited, ids, steps, s);
    forall c: Conn | c < s.nextConn && c !in s.open.Values
      ensures exists k :: 0 <= k < |s.pool.taken| && s.pool.taken[k].conn == c
    {
      assert WasHanded(s, c);
      var k :| 0 <= k < |s.pool.added| && s.pool.added[k].conn == c;
      assert s.pool.added[k] == (s.pool.taken + s.pool.queue)[k];
      if k >= |s.pool.taken| {
        var q := k - |s.pool.taken|;
        assert Owns(s, Queued(q), s.pool.queue[q].fd);
      }
    }
  }

  // ----- every ready connection is handed over ------------------------------

  /** Each of the connections `due` has been handed over, or is ready and still ahead of the scan. */
  ghost predicate Pending(s: Server, due: map<Fd, Conn>, f: Fd)
    requires f in due
  {
    || WasHanded(s, due[f])
    || (!s.pc.AtSelect? && f in s.ready && f != s.listen && f >= Position(s.pc) && f in s.open && s.open[f] == due[f])
  }

  ghost predicate AllPending(s: Server, due: map<Fd, Conn>) {
    forall f :: f in due ==> Pending(s, due, f)
  }

  lemma HandedStays(s: Server, x: Step, c: Conn)
    requires CanStep(s, x) && WasHanded(s, c)
    ensures WasHanded(Next(s, x), c)
  {
    var k :| 0 <= k < |s.pool.added| && s.pool.added[k].conn == c;
    assert Next(s, x).pool.added[k] == s.pool.added[k];
  }

  lemma NoneAhead(s: Server)
    requires CountOk(s) && CanStep(s, ScanEnds) && ScanOk(s) && FdsOk(s)
    ensures forall f :: f in s.ready ==> f < s.pc.i
  {
    var i := s.pc.i;
    assert forall f :: f in Ahead(s.ready, i) <==> f in s.ready && f >= i;
    assert Ahead(s.ready, i) == {};
  }

  lemma PendingStep(s: Server, x: Step, due: map<Fd, Conn>, f: Fd)
    requires Inv(s) && CanStep(s, x) && f in due && Pending(s, due, f)
    ensures Pending(Next(s, x), due, f)
  {
    if WasHanded(s, due[f]) {
      HandedStays(s, x, due[f]);
    } else if x.Look? {
      if f == s.pc.i {
        assert Next(s, x).pool.added[|s.pool.added|].conn == due[f];
      }
    } else if x.ScanEnds? {
      NoneAhead(s);
    } else if x.Close? {
      assert Watched(s, f);
      assert Owns(s, Watcher, f) && Owns(s, Worker(x.w), s.pool.workers[x.w].job.fd);
    }
  }

  ghost predicate Keeping(s: Server, due: map<Fd, Conn>) {
    Inv(s) && AllPending(s, due)
  }

  lemma KeepingStep(s: Server, x: Step, t: Server, due: map<Fd, Conn>)
    requires Keeping(s, due) && Goes(s, x, t)
    ensures Keeping(t, due)
  {
    StepOk(s, x);
    forall f | f in due
      ensures Pending(t, due, f)
    {
      PendingStep(s, x, due, f);
    }
  }

  /** From one select to a later one, whatever workers and clients do meanwhile: every connection
      that select reported readable has been handed to the pool, under the number it then had. */
  lemma ReadyServed(inherited: set<Fd>, ids: set<Wid>, before: seq<Step>, s: Server, ready: set<Fd>, steps: seq<Step>, t: Server)
    requires Reachable(inherited, ids, before, s) && CanStep(s, Select(ready))
    requires Run(Next(s, Select(ready)), steps, t) && t.pc.AtSelect?
    ensures forall f :: f in ready && f != s.listen ==> f in s.open && WasHanded(t, s.open[f])
  {
    ReachableOk(inherited, ids, before, s);
    var s1 := Next(s, Select(ready));
    StepOk(s, Select(ready));
    forall f | f in ready && f != s.listen
      ensures f in s.open
    {
      assert Owns(s, Watcher, f);
    }
    var due := map f | f in ready && f != s.listen :: s.open[f];
    assert Keeping(s1, due);
    forall a, x, b | Keeping(a, due) && Goes(a, x, b)
      ensures Keeping(b, due)
    {
      KeepingStep(a, x, b, due);
    }
    PathKeeps(StepRelation(), a => Keeping(a, due), s1, steps, t);
    forall f | f in ready && f != s.listen
      ensures WasHanded(t, s.open[f])
    {
      assert Pending(t, due, f);
    }
  }
}
