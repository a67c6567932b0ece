/** A run of the runtime that destroys a task, and what becomes of a destroyed task. */
module LossRun {
  import opened Hive
  import opened LocalDeque
  import HiveProofs
  import HiveLosses
  import TaskDeque

  // ---- a destroyed task stays destroyed

  lemma {:induction false} ExecMore(s: State, a: seq<Event>, b: seq<Event>)
    ensures Exec(s, a + b) == Exec(Exec(s, a), b)
    decreases |b|
  {
    if b == [] {
      assert a + b == a;
    } else {
      assert (a + b)[..|a + b| - 1] == a + b[..|b| - 1];
      ExecMore(s, a, b[..|b| - 1]);
    }
  }

  /** Runs go on. */
  lemma ReachRun(s: State, evs: seq<Event>)
    requires HiveProofs.Reachable(s)
    ensures HiveProofs.Reachable(Exec(s, evs))
  {
    var opts: seq<Options>, batchSizes: seq<nat>, now: int, a: seq<Event> :| s == Exec(Init(opts, batchSizes, now), a);
    ExecMore(Init(opts, batchSizes, now), a, evs);
    assert Exec(s, evs) == Exec(Init(opts, batchSizes, now), a + evs);
  }

  lemma StepKeepsLost(s: State, e: Event)
    requires HiveProofs.Reachable(s)
    ensures s.sh.lost <= Apply(s, e).sh.lost
  {
    HiveLosses.ReachableCareful(s);
    if v: nat :| HiveLosses.PushesOn(s, e, v) {
      HiveLosses.PushLoses(s, e, v);
    } else {
      HiveLosses.OthersLoseNothing(s, e);
    }
  }

  lemma {:induction false} RunKeepsLost(s: State, evs: seq<Event>)
    requires HiveProofs.Reachable(s)
    ensures s.sh.lost <= Exec(s, evs).sh.lost
    decreases |evs|
  {
    if evs != [] {
      RunKeepsLost(s, evs[..|evs| - 1]);
      ReachRun(s, evs[..|evs| - 1]);
      StepKeepsLost(Exec(s, evs[..|evs| - 1]), evs[|evs| - 1]);
    }
  }

  /** A destroyed task was accepted, and is nowhere else. */
  lemma LostIsGone(s: State, j: Job)
    requires HiveProofs.Reachable(s) && j in s.sh.lost
    ensures j in s.accepted && j !in HiveProofs.Alive(s) && j !in s.sh.dropped
  {
    HiveProofs.TasksConserved(s);
    HiveProofs.ReachableInv(s);
    HiveProofs.NumberedOnce(s.accepted, j);
    HiveProofs.CountIsMultiplicity(s.accepted, j);
    assert multiset(s.sh.lost)[j] >= 1;
    assert HiveProofs.Everything(s)[j] == HiveProofs.Alive(s)[j] + multiset(s.sh.dropped)[j] + multiset(s.sh.lost)[j];
  }

  /** An accepted task that is destroyed has not begun and never will. */
  lemma LostNeverRuns(s: State, j: Job, evs: seq<Event>)
    requires HiveProofs.Reachable(s) && j in s.sh.lost
    ensures j in s.accepted && j !in Exec(s, evs).sh.started
  {
    LostIsGone(s, j);
    ReachRun(s, evs);
    RunKeepsLost(s, evs);
    LostIsGone(Exec(s, evs), j);
    assert j in multiset(Exec(s, evs).sh.started) ==> j in HiveProofs.Alive(Exec(s, evs));
  }

  // ---- three workers

  const Quiet: Shared := Shared([], [], false, 0, [], [], [], [])

  /** A worker with empty queues. */
  function Idle(opt: Options, pc: Pc, d: Deque<Job>): Worker { Worker(opt, pc, false, [], [], [], [], d, [], []) }

  function Start(opt: Options): State { Init([opt, opt, opt], [], 0) }

  /** Some run leads to the owner, worker 0, polling with deque d and n local posts accepted,
      and workers 1 and 2 with empty deques at p and q. */
  ghost predicate Staged(opt: Options, d: Deque<Job>, n: nat, p: Pc, q: Pc) {
    exists evs :: IsStage(Exec(Start(opt), evs), opt, d, n, p, q)
  }

  predicate IsStage(s: State, opt: Options, d: Deque<Job>, n: nat, p: Pc, q: Pc) {
    && s.workers == [Idle(opt, Poll, d), Idle(opt, p, Empty(opt.maxSize)), Idle(opt, q, Empty(opt.maxSize))]
    && s.computers == [] && s.sh == Quiet && |s.accepted| == n
  }

  lemma OneMore(opt: Options, evs: seq<Event>, e: Event)
    ensures Exec(Start(opt), evs + [e]) == Apply(Exec(Start(opt), evs), e)
  {
    HiveProofs.ExecOneMore(Start(opt), evs, e);
  }

  lemma Begun(opt: Options)
    ensures Staged(opt, Empty(opt.maxSize), 0, Check, Check)
  {
    var s := Exec(Start(opt), []);
    OneMore(opt, [], Turn(0, Choice(0, 0, false)));
    var evs := [] + [Turn(0, Choice(0, 0, false))];
    assert IsStage(Exec(Start(opt), evs), opt, Empty(opt.maxSize), 0, Check, Check);
  }

  /** A step of worker 1 or 2 that is not a claim and touches nothing shared. */
  lemma FirstGoesOn(opt: Options, d: Deque<Job>, n: nat, p: Pc, p': Pc, q: Pc, c: Choice)
    requires Staged(opt, d, n, p, q) && !p.StealFrom? && !p.Claim?
    requires OwnStep(Idle(opt, p, Empty(opt.maxSize)), Quiet, 1, 3, c) == Out(Idle(opt, p', Empty(opt.maxSize)), Quiet)
    ensures Staged(opt, d, n, p', q)
  {
    var evs :| IsStage(Exec(Start(opt), evs), opt, d, n, p, q);
    OneMore(opt, evs, Turn(1, c));
    assert IsStage(Exec(Start(opt), evs + [Turn(1, c)]), opt, d, n, p', q);
  }

  lemma SecondGoesOn(opt: Options, d: Deque<Job>, n: nat, p: Pc, q: Pc, q': Pc, c: Choice)
    requires Staged(opt, d, n, p, q) && !q.StealFrom? && !q.Claim?
    requires OwnStep(Idle(opt, q, Empty(opt.maxSize)), Quiet, 2, 3, c) == Out(Idle(opt, q', Empty(opt.maxSize)), Quiet)
    ensures Staged(opt, d, n, p, q')
  {
    var evs :| IsStage(Exec(Start(opt), evs), opt, d, n, p, q);
    OneMore(opt, evs, Turn(2, c));
    assert IsStage(Exec(Start(opt), evs + [Turn(2, c)]), opt, d, n, p, q');
  }

  /** What worker me does alone on its way to a steal of one task from worker 0. */
  function OnTheWay(k: nat): Pc
    requires k <= 9
  {
    [Check, Poll, Drain, Distribute, Privates, Timers(0), Gate, Batch(0), Harvest, Steal(0)][k]
  }

  lemma NextOnTheWay(opt: Options, k: nat, me: nat)
    requires k < 9 && opt.willSteal
    ensures OwnStep(Idle(opt, OnTheWay(k), Empty(opt.maxSize)), Quiet, me, 3, Choice(0, 1, false))
         == Out(Idle(opt, OnTheWay(k + 1), Empty(opt.maxSize)), Quiet)
  {}

  lemma DrawsOwner(opt: Options, me: nat)
    requires HiveLosses.CanSteal(opt) && me > 0
    ensures OwnStep(Idle(opt, Steal(0), Empty(opt.maxSize)), Quiet, me, 3, Choice(0, 1, false))
         == Out(Idle(opt, StealFrom(0, 1, 0, 0), Empty(opt.maxSize)), Quiet)
  {}

  lemma {:induction false} FirstOnTheWay(opt: Options, d: Deque<Job>, n: nat, q: Pc, k: nat)
    requires k <= 9 && opt.willSteal && Staged(opt, d, n, Check, q)
    ensures Staged(opt, d, n, OnTheWay(k), q)
  {
    if k > 0 {
      FirstOnTheWay(opt, d, n, q, k - 1);
      NextOnTheWay(opt, k - 1, 1);
      FirstGoesOn(opt, d, n, OnTheWay(k - 1), OnTheWay(k), q, Choice(0, 1, false));
    }
  }

  lemma {:induction false} SecondOnTheWay(opt: Options, d: Deque<Job>, n: nat, p: Pc, k: nat)
    requires k <= 9 && opt.willSteal && Staged(opt, d, n, p, Check)
    ensures Staged(opt, d, n, p, OnTheWay(k))
  {
    if k > 0 {
      SecondOnTheWay(opt, d, n, p, k - 1);
      NextOnTheWay(opt, k - 1, 2);
      SecondGoesOn(opt, d, n, p, OnTheWay(k - 1), OnTheWay(k), Choice(0, 1, false));
    }
  }

  // ---- the owner's deque

  function Posted(k: nat): Job { Job(k, Local(0)) }

  function Indices(t: nat): set<nat> { if t == 0 then {} else Indices(t - 1) + {t - 1} }

  /** The first n posts, the first t of them claimed and not read. */
  function Filled(m: nat, n: nat, t: nat): Deque<Job>
    requires t <= n <= m + 1 && n <= m + t
  {
    Raw(t, n, seq(m + 1, k requires 0 <= k => if k < n then TaskDeque.Some(Posted(k)) else TaskDeque.None), Indices(t))
  }

  lemma FillOne(m: nat, n: nat, t: nat)
    requires t <= n <= m && n < m + t
    ensures HasRoom(Filled(m, n, t)) && At(Filled(m, n, t), n).None?
    ensures Pushed(Filled(m, n, t), Posted(n)) == Filled(m, n + 1, t)
  {}

  lemma ClaimOne(m: nat, n: nat, t: nat)
    requires t < n <= m
    ensures Claimed(Filled(m, n, t)) == Filled(m, n, t + 1)
  {}

  lemma OwnerPosts(opt: Options, n: nat, t: nat, p: Pc, q: Pc)
    requires t <= n <= opt.maxSize && n < opt.maxSize + t && Staged(opt, Filled(opt.maxSize, n, t), n, p, q)
    ensures Staged(opt, Filled(opt.maxSize, n + 1, t), n + 1, p, q)
  {
    var m := opt.maxSize;
    var evs :| IsStage(Exec(Start(opt), evs), opt, Filled(m, n, t), n, p, q);
    OneMore(opt, evs, PostToLocal(0));
    FillOne(m, n, t);
    assert Losing(Quiet, Filled(m, n, t)) == Quiet;
    assert IsStage(Exec(Start(opt), evs + [PostToLocal(0)]), opt, Filled(m, n + 1, t), n + 1, p, q);
  }

  lemma {:induction false} OwnerFills(opt: Options, n: nat)
    requires n <= opt.maxSize
    ensures Staged(opt, Filled(opt.maxSize, n, 0), n, Check, Check)
  {
    if n == 0 {
      Begun(opt);
      assert Filled(opt.maxSize, 0, 0) == Empty(opt.maxSize);
    } else {
      OwnerFills(opt, n - 1);
      OwnerPosts(opt, n - 1, 0, Check, Check);
    }
  }

  lemma FirstClaims(opt: Options, n: nat, q: Pc)
    requires 0 < n <= opt.maxSize && Staged(opt, Filled(opt.maxSize, n, 0), n, StealFrom(0, 1, 0, 0), q)
    ensures Staged(opt, Filled(opt.maxSize, n, 1), n, Claim(0, 0, 0, 0, 0), q)
  {
    var m, e := opt.maxSize, Turn(1, Choice(0, 1, false));
    var evs :| IsStage(Exec(Start(opt), evs), opt, Filled(m, n, 0), n, StealFrom(0, 1, 0, 0), q);
    OneMore(opt, evs, e);
    ClaimOne(m, n, 0);
    assert IsStage(Exec(Start(opt), evs + [e]), opt, Filled(m, n, 1), n, Claim(0, 0, 0, 0, 0), q);
  }

  lemma SecondClaims(opt: Options, n: nat, p: Pc)
    requires 1 < n <= opt.maxSize && Staged(opt, Filled(opt.maxSize, n, 1), n, p, StealFrom(0, 1, 0, 0))
    ensures Staged(opt, Filled(opt.maxSize, n, 2), n, p, Claim(0, 1, 0, 0, 0))
  {
    var m, e := opt.maxSize, Turn(2, Choice(0, 1, false));
    var evs :| IsStage(Exec(Start(opt), evs), opt, Filled(m, n, 1), n, p, StealFrom(0, 1, 0, 0));
    OneMore(opt, evs, e);
    ClaimOne(m, n, 1);
    assert IsStage(Exec(Start(opt), evs + [e]), opt, Filled(m, n, 2), n, p, Claim(0, 1, 0, 0, 0));
  }

  /** The owner has filled its deque, both thieves have claimed, and the owner has posted once
      more: the index of the next post shares its slot with the first claim. */
  lemma OneSlotBack(opt: Options)
    requires HiveLosses.CanSteal(opt) && opt.maxSize >= 2
    ensures Staged(opt, Filled(opt.maxSize, opt.maxSize + 1, 2), opt.maxSize + 1, Claim(0, 0, 0, 0, 0), Claim(0, 1, 0, 0, 0))
  {
    var m, c := opt.maxSize, Choice(0, 1, false);
    OwnerFills(opt, m);
    FirstOnTheWay(opt, Filled(m, m, 0), m, Check, 9);
    DrawsOwner(opt, 1);
    FirstGoesOn(opt, Filled(m, m, 0), m, Steal(0), StealFrom(0, 1, 0, 0), Check, c);
    FirstClaims(opt, m, Check);
    SecondOnTheWay(opt, Filled(m, m, 1), m, Claim(0, 0, 0, 0, 0), 9);
    DrawsOwner(opt, 2);
    SecondGoesOn(opt, Filled(m, m, 1), m, Claim(0, 0, 0, 0, 0), Steal(0), StealFrom(0, 1, 0, 0), c);
    SecondClaims(opt, m, Claim(0, 0, 0, 0, 0));
    OwnerPosts(opt, m, 2, Claim(0, 0, 0, 0, 0), Claim(0, 1, 0, 0, 0));
  }

  // ---- the theorems

  /** Three workers with these options destroy the first task of all, with no stop requested.
      The victim's deque holds 15 tasks or more at the first steal and 14 at the second, so
      that the guard of 8 lets both pass. */
  lemma LossHappens(opt: Options)
    requires HiveLosses.CanSteal(opt) && opt.maxSize >= 15
    ensures exists evs :: var s := Exec(Start(opt), evs); s.sh.lost == [Posted(0)] && !HiveProofs.StopRequested(s)
  {
    var m := opt.maxSize;
    OneSlotBack(opt);
    FullSlot(m);
    var evs :| IsStage(Exec(Start(opt), evs), opt, Filled(m, m + 1, 2), m + 1, Claim(0, 0, 0, 0, 0), Claim(0, 1, 0, 0, 0));
    OneMore(opt, evs, PostToLocal(0));
    LastPost(Exec(Start(opt), evs), opt, Filled(m, m + 1, 2), m + 1, Claim(0, 0, 0, 0, 0), Claim(0, 1, 0, 0, 0), Posted(0));
    var more := evs + [PostToLocal(0)];
    assert Exec(Start(opt), more).sh.lost == [Posted(0)] && !HiveProofs.StopRequested(Exec(Start(opt), more));
  }

  /** Index m + 1 shares its slot with index 0. */
  lemma FullSlot(m: nat)
    requires m >= 2
    ensures HasRoom(Filled(m, m + 1, 2)) && At(Filled(m, m + 1, 2), m + 1) == TaskDeque.Some(Posted(0))
  {
    assert TaskDeque.Slot(m + 1, m + 1) == TaskDeque.Slot(0, m + 1);
  }

  lemma LastPost(s: State, opt: Options, d: Deque<Job>, n: nat, p: Pc, q: Pc, x: Job)
    requires IsStage(s, opt, d, n, p, q) && HasRoom(d) && At(d, d.bottom) == TaskDeque.Some(x)
    ensures var r := Apply(s, PostToLocal(0)); r.sh.lost == [x] && !HiveProofs.StopRequested(r)
  {}

  /** Some run of workers with these options destroys a task. */
  ghost predicate CanLose(opt: Options) { exists s :: HiveProofs.Reachable(s) && LostWith(s, opt) }

  predicate LostWith(s: State, opt: Options) {
    s.sh.lost != [] && forall i :: 0 <= i < |s.workers| ==> s.workers[i].opt == opt
  }

  lemma {:induction false} OptionsKept(s: State, evs: seq<Event>)
    ensures |Exec(s, evs).workers| == |s.workers|
    ensures forall i :: 0 <= i < |s.workers| ==> Exec(s, evs).workers[i].opt == s.workers[i].opt
    decreases |evs|
  {
    if evs != [] {
      OptionsKept(s, evs[..|evs| - 1]);
      StepKeepsOptions(Exec(s, evs[..|evs| - 1]), evs[|evs| - 1]);
    }
  }

  lemma StepKeepsOptions(s: State, e: Event)
    ensures |Apply(s, e).workers| == |s.workers|
    ensures forall i :: 0 <= i < |s.workers| ==> Apply(s, e).workers[i].opt == s.workers[i].opt
  {
    if e.Turn? && e.worker < |s.workers| { OwnKeepsOptions(s.workers[e.worker], s.sh, e.worker, |s.workers|, e.c); }
  }

  lemma OwnKeepsOptions(w: Worker, sh: Shared, me: nat, n: nat, c: Choice)
    ensures OwnStep(w, sh, me, n, c).w.opt == w.opt
  {}

  /** Workers lose tasks in some run if and only if they can steal, whatever the size of
      their deques beyond the guard. */
  lemma LossIffStealing(opt: Options)
    requires opt.maxSize >= 15
    ensures CanLose(opt) <==> HiveLosses.CanSteal(opt)
  {
    if HiveLosses.CanSteal(opt) {
      LossHappens(opt);
      var evs :| Exec(Start(opt), evs).sh.lost == [Posted(0)];
      OptionsKept(Start(opt), evs);
      assert HiveProofs.Reachable(Exec(Start(opt), evs)) && LostWith(Exec(Start(opt), evs), opt);
    } else if CanLose(opt) {
      var s :| HiveProofs.Reachable(s) && LostWith(s, opt);
      HiveLosses.NoStealNoLoss(s);
    }
  }
}
