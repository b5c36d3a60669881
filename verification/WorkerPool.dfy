/** The pool of worker threads around the job queue, its mutex and its condition variable, as a
    transition system for any number of workers. A critical section is one step; waiting gives up
    the mutex and falls asleep in one step; a signal wakes at least one sleeper if there is one,
    and sleepers may also wake for no reason. */
module WorkerPool {
  import opened Sequences
  import opened Runs

  type Wid = nat

  /** Awake: about to take the mutex, at the top of its loop or after waking up. */
  datatype Worker<J> = Awake | Asleep | Busy(job: J)

  /** `added` and `taken` record all jobs ever put in and taken out. */
  datatype Pool<J> = Pool(workers: map<Wid, Worker<J>>, queue: seq<J>, added: seq<J>, taken: seq<J>)

  datatype Action<J> =
    | Add(job: J, woken: set<Wid>)
    | Take(w: Wid)
    | Sleep(w: Wid)
    | Spurious(w: Wid)
    | Finish(w: Wid)

  function AwakeOnes<J>(p: Pool<J>): set<Wid> {
    set w | w in p.workers && p.workers[w].Awake?
  }

  function Sleepers<J>(p: Pool<J>): set<Wid> {
    set w | w in p.workers && p.workers[w].Asleep?
  }

  function BusyOnes<J>(p: Pool<J>): set<Wid> {
    set w | w in p.workers && p.workers[w].Busy?
  }

  function Start<J>(ids: set<Wid>): Pool<J> {
    Pool(map w | w in ids :: Awake, [], [], [])
  }

  predicate Enabled<J>(p: Pool<J>, a: Action<J>) {
    match a
    case Add(_, woken) => woken <= Sleepers(p) && (Sleepers(p) != {} ==> woken != {})
    case Take(w) => w in p.workers && p.workers[w].Awake? && p.queue != []
    case Sleep(w) => w in p.workers && p.workers[w].Awake? && p.queue == []
    case Spurious(w) => w in p.workers && p.workers[w].Asleep?
    case Finish(w) => w in p.workers && p.workers[w].Busy?
  }

  function Apply<J>(p: Pool<J>, a: Action<J>): Pool<J>
    requires Enabled(p, a)
  {
    match a
    case Add(job, woken) =>
      p.(workers := map w | w in p.workers :: if w in woken then Awake else p.workers[w],
         queue := p.queue + [job], added := p.added + [job])
    case Take(w) =>
      p.(workers := p.workers[w := Busy(p.queue[0])], queue := p.queue[1..], taken := p.taken + [p.queue[0]])
    case Sleep(w) => p.(workers := p.workers[w := Asleep])
    case Spurious(w) => p.(workers := p.workers[w := Awake])
    case Finish(w) => p.(workers := p.workers[w := Awake])
  }

  /** If anyone sleeps, every queued job has a worker awake to take it. */
  ghost predicate NoLostWakeup<J>(p: Pool<J>) {
    Sleepers(p) != {} ==> |p.queue| <= |AwakeOnes(p)|
  }

  /** Jobs come out in the order they went in, each once. */
  ghost predicate InOrder<J>(p: Pool<J>) {
    p.taken + p.queue == p.added
  }

  ghost predicate Inv<J>(p: Pool<J>) {
    NoLostWakeup(p) && InOrder(p)
  }

  // ----- every step keeps it ------------------------------------------------

  lemma AddOk<J>(p: Pool<J>, job: J, woken: set<Wid>)
    requires Inv(p) && Enabled(p, Add(job, woken))
    ensures Inv(Apply(p, Add(job, woken)))
  {
    var p' := Apply(p, Add(job, woken));
    assert AwakeOnes(p') == AwakeOnes(p) + woken;
    assert p'.taken + p'.queue == (p.taken + p.queue) + [job];
    if Sleepers(p') != {} {
      var w :| w in Sleepers(p');
      assert w in Sleepers(p);
      var v :| v in woken;
      assert v in Sleepers(p) && v !in AwakeOnes(p);
      assert AwakeOnes(p) + {v} <= AwakeOnes(p');
      SubsetCard(AwakeOnes(p) + {v}, AwakeOnes(p'));
    }
  }

  lemma TakeOk<J>(p: Pool<J>, w: Wid)
    requires Inv(p) && Enabled(p, Take(w))
    ensures Inv(Apply(p, Take(w)))
  {
    var p' := Apply(p, Take(w));
    assert AwakeOnes(p') == AwakeOnes(p) - {w};
    assert Sleepers(p') == Sleepers(p);
    assert p.queue == [p.queue[0]] + p.queue[1..];
    assert p'.taken + p'.queue == p.taken + p.queue;
  }

  lemma WakesOk<J>(p: Pool<J>, a: Action<J>)
    requires Inv(p) && Enabled(p, a) && (a.Spurious? || a.Finish? || a.Sleep?)
    ensures Inv(Apply(p, a))
  {
    var p' := Apply(p, a);
    if !a.Sleep? {
      assert AwakeOnes(p') == AwakeOnes(p) + {a.w};
      assert Sleepers(p') <= Sleepers(p);
    }
  }

  lemma StepOk<J>(p: Pool<J>, a: Action<J>)
    requires Inv(p) && Enabled(p, a)
    ensures Inv(Apply(p, a)) && Apply(p, a).workers.Keys == p.workers.Keys
  {
    match a
    case Add(job, woken) => AddOk(p, job, woken);
    case Take(w) => TakeOk(p, w);
    case _ => WakesOk(p, a);
  }

  // ----- runs ---------------------------------------------------------------

  ghost predicate Goes<J>(p: Pool<J>, a: Action<J>, p': Pool<J>) {
    Enabled(p, a) && p' == Apply(p, a)
  }

  ghost function StepRelation<J>(): (Pool<J>, Action<J>, Pool<J>) -> bool {
    (p, a, p') => Goes(p, a, p')
  }

  ghost predicate Run<J(!new)>(p: Pool<J>, acts: seq<Action<J>>, p': Pool<J>) {
    Path(StepRelation(), p, acts, p')
  }

  ghost predicate InvFor<J>(ids: set<Wid>, p: Pool<J>) {
    Inv(p) && p.workers.Keys == ids
  }

  /** In every state any run reaches: no wakeup is lost, and jobs leave in the order they came. */
  lemma AlwaysServed<J(!new)>(ids: set<Wid>, acts: seq<Action<J>>, p: Pool<J>)
    requires Run(Start(ids), acts, p)
    ensures NoLostWakeup(p) && InOrder(p) && p.workers.Keys == ids
  {
    assert Sleepers<J>(Start(ids)) == {};
    forall a, x, b | InvFor<J>(ids, a) && Goes(a, x, b)
      ensures InvFor(ids, b)
    {
      StepOk(a, x);
    }
    PathKeeps(StepRelation(), p => InvFor(ids, p), Start(ids), acts, p);
  }

  // ----- nothing is left waiting --------------------------------------------

  /** A step a worker takes by itself. */
  predicate OwnStep<J>(a: Action<J>) {
    a.Take? || a.Sleep? || a.Finish?
  }

  /** With at least one worker: where no worker can take a step by itself, all of them sleep and
      every job ever added has been taken. */
  lemma QuietMeansDone<J(!new)>(ids: set<Wid>, acts: seq<Action<J>>, p: Pool<J>)
    requires ids != {} && Run(Start(ids), acts, p)
    requires forall w :: !Enabled(p, Take(w)) && !Enabled(p, Sleep(w)) && !Enabled(p, Finish(w))
    ensures Sleepers(p) == ids && p.queue == [] && p.taken == p.added
  {
    AlwaysServed(ids, acts, p);
    forall w | w in ids
      ensures w in Sleepers(p)
    {
      assert !Enabled(p, Take(w)) && !Enabled(p, Sleep(w)) && !Enabled(p, Finish(w));
    }
    assert AwakeOnes(p) == {};
    assert Sleepers(p) == ids;
  }

  /** What is left to do: it bounds the steps the workers take by themselves. */
  ghost function Work<J>(p: Pool<J>): nat {
    3 * |p.queue| + 2 * |BusyOnes(p)| + |AwakeOnes(p)|
  }

  lemma SetStep(a: set<Wid>, w: Wid)
    ensures w in a ==> |a - {w}| == |a| - 1
    ensures w !in a ==> |a + {w}| == |a| + 1
  {
  }

  lemma TakeShrinks<J>(p: Pool<J>, w: Wid)
    requires Enabled(p, Take(w))
    ensures Work(Apply(p, Take(w))) < Work(p)
  {
    var p' := Apply(p, Take(w));
    assert AwakeOnes(p') == AwakeOnes(p) - {w} && BusyOnes(p') == BusyOnes(p) + {w};
    SetStep(AwakeOnes(p), w);
    SetStep(BusyOnes(p), w);
  }

  lemma SleepShrinks<J>(p: Pool<J>, w: Wid)
    requires Enabled(p, Sleep(w))
    ensures Work(Apply(p, Sleep(w))) < Work(p)
  {
    var p' := Apply(p, Sleep(w));
    assert AwakeOnes(p') == AwakeOnes(p) - {w} && BusyOnes(p') == BusyOnes(p);
    SetStep(AwakeOnes(p), w);
  }

  lemma FinishShrinks<J>(p: Pool<J>, w: Wid)
    requires Enabled(p, Finish(w))
    ensures Work(Apply(p, Finish(w))) < Work(p)
  {
    var p' := Apply(p, Finish(w));
    assert AwakeOnes(p') == AwakeOnes(p) + {w} && BusyOnes(p') == BusyOnes(p) - {w};
    SetStep(AwakeOnes(p), w);
    SetStep(BusyOnes(p), w);
  }

  /** Left to themselves the workers stop after finitely many steps; by `QuietMeansDone` the
      queue is then empty, so no job waits for ever. */
  lemma {:induction false} OwnRunBounded<J(!new)>(p: Pool<J>, acts: seq<Action<J>>, p': Pool<J>)
    requires Run(p, acts, p') && forall k :: 0 <= k < |acts| ==> OwnStep(acts[k])
    ensures |acts| + Work(p') <= Work(p)
    decreases |acts|
  {
    if acts != [] {
      assert OwnStep(acts[0]);
      var p1 :| Goes(p, acts[0], p1) && Run(p1, acts[1..], p');
      match acts[0] {
        case Take(w) => TakeShrinks(p, w);
        case Sleep(w) => SleepShrinks(p, w);
        case Finish(w) => FinishShrinks(p, w);
      }
      OwnRunBounded(p1, acts[1..], p');
    }
  }
}
