/** No accepted task is stuck: a worker left alone runs its mail, its deque and the pool empty,
    and a compute worker the compute pool. */
module HiveProgress {
  import opened Hive
  import opened LocalDeque
  import opened HiveProofs
  import HiveLosses
  import HiveTurns
  import LossRun
  import TaskDeque

  // ---- a full slot always belongs to somebody

  ghost predicate Claimable<T>(d: Deque<T>) { forall k :: 0 <= k < |d.slots| && d.slots[k].Some? ==> SlotOwned(d, k) }

  lemma PushClaimable<T>(d: Deque<T>, x: T)
    requires Claimable(d) && HasRoom(d)
    ensures Claimable(Pushed(d, x))
  {
    var d' := Pushed(d, x);
    forall k | 0 <= k < |d'.slots| && d'.slots[k].Some? ensures SlotOwned(d', k) {
      if k == SlotOf(d, d.bottom) {
        assert Owned(d', d.bottom) && SlotOf(d', d.bottom) == k;
      } else {
        var i: nat :| Owned(d, i) && SlotOf(d, i) == k;
        assert Owned(d', i) && SlotOf(d', i) == k;
      }
    }
  }

  lemma LeaveClaimable<T>(d: Deque<T>, i: nat, d': Deque<T>)
    requires Claimable(d) && d'.slots == d.slots[SlotOf(d, i) := TaskDeque.None]
    requires forall j: nat :: Owned(d, j) && j != i ==> Owned(d', j)
    ensures Claimable(d')
  {
    forall k | 0 <= k < |d'.slots| && d'.slots[k].Some? ensures SlotOwned(d', k) {
      var j: nat :| Owned(d, j) && SlotOf(d, j) == k;
      assert Owned(d', j) && SlotOf(d', j) == k;
    }
  }

  lemma ClaimClaimable<T>(d: Deque<T>)
    requires Claimable(d) && Size(d) > 0
    ensures Claimable(Claimed(d))
  {
    var d' := Claimed(d);
    forall k | 0 <= k < |d'.slots| && d'.slots[k].Some? ensures SlotOwned(d', k) {
      var j: nat :| Owned(d, j) && SlotOf(d, j) == k;
      assert Owned(d', j) && SlotOf(d', j) == k;
    }
  }

  ghost predicate AllClaimable(ws: seq<Worker>) { forall v :: 0 <= v < |ws| ==> Claimable(ws[v].local) }

  lemma TurnClaimable(s: State, me: nat, c: Choice)
    requires me < |s.workers| && AllClaimable(s.workers) && Inv(s)
    ensures AllClaimable(WorkerStep(s, me, c).workers)
  {
    var w := s.workers[me];
    if WillSteal(s, me, c) {
      ClaimClaimable(s.workers[w.pc.victim].local);
    } else if Claiming(s, me) {
      var d := s.workers[w.pc.victim].local;
      LeaveClaimable(d, w.pc.t, Read(d, w.pc.t));
    } else if !w.pc.Claim? {
      HiveLosses.OwnDeque(w, s.sh, me, |s.workers|, c);
      if HiveLosses.Pushes(w) { PushClaimable(w.local, w.hand[0]); }
      else if HiveLosses.Pops(w) { LeaveClaimable(w.local, w.local.bottom - 1, Popped(w.local)); }
    }
  }

  lemma PostClaimable(s: State, e: Event)
    requires !e.Turn? && AllClaimable(s.workers)
    ensures AllClaimable(Apply(s, e).workers)
  {
    if HiveLosses.PostsLocally(s, e) && HasRoom(s.workers[e.worker].local) {
      PushClaimable(s.workers[e.worker].local, Accept(s, Local(e.worker)));
    }
  }

  lemma {:induction false} RunClaimable(s: State, evs: seq<Event>)
    requires Inv(s) && AllClaimable(s.workers)
    ensures Inv(Exec(s, evs)) && AllClaimable(Exec(s, evs).workers)
    decreases |evs|
  {
    if evs != [] {
      var n := |evs| - 1;
      RunClaimable(s, evs[..n]);
      var m := Exec(s, evs[..n]);
      StepInv(m, evs[n]);
      if !evs[n].Turn? { PostClaimable(m, evs[n]); } else if evs[n].worker < |m.workers| { TurnClaimable(m, evs[n].worker, evs[n].c); }
    }
  }

  lemma ReachableClaimable(s: State)
    requires Reachable(s)
    ensures AllClaimable(s.workers)
  {
    var opts: seq<Options>, batchSizes: seq<nat>, now: int, evs: seq<Event> :| s == Exec(Init(opts, batchSizes, now), evs);
    InitInv(opts, batchSizes, now);
    RunClaimable(Init(opts, batchSizes, now), evs);
  }

  /** With no claim pending the slot of the next push is free. */
  lemma FreeSlot<T>(d: Deque<T>)
    requires Claimable(d) && d.unread == {} && HasRoom(d)
    ensures At(d, d.bottom).None?
  {
    if At(d, d.bottom).Some? {
      var i: nat :| Owned(d, i) && SlotOf(d, i) == SlotOf(d, d.bottom);
      TaskDeque.SlotsDiffer(i, d.bottom, |d.slots|);
    }
  }

  // ---- a worker left alone

  /** How far the tasks within the worker's reach have still to go. */
  function Work(w: Worker, sh: Shared): nat {
    6 * |w.inbound| + 5 * |w.drained| + 4 * |w.privates| + |w.timers| + 4 * |sh.micro| + 3 * |w.batch| + 2 * |w.hand| + Size(w.local)
    + if w.pc.Claim? then 3 else 0
  }

  /** How far the worker is from the end of its pass. */
  function Phase(w: Worker): nat { PhaseAt(w.pc, w.opt) }

  function PhaseAt(p: Pc, opt: Options): nat {
    match p
    case Check => 0
    case Exited => 0
    case Claim(_, _, _, _, _) => 0
    case Offer(_) => 0
    case Enqueue => 1
    case Steal(try) => 2 + HiveTurns.TriesLeft(opt, try)
    case StealFrom(_, _, _, try) => 3 + HiveTurns.TriesLeft(opt, try)
    case Harvest => 4 + opt.tries
    case Batch(_) => 5 + opt.tries
    case Gate => 6 + opt.tries
    case Timers(_) => 7 + opt.tries
    case Privates => 8 + opt.tries
    case Distribute => 9 + opt.tries
    case Drain => 10 + opt.tries
    case Poll => 11 + opt.tries
    case Running(back) =>
      match back
      case InPrivates => 9 + opt.tries
      case InTimers(_) => 8 + opt.tries
      case InLocal(_) => 6 + opt.tries
      case InHarvest => 2
      case InSteal(_, _, _, try) => 4 + HiveTurns.TriesLeft(opt, try)
  }

  /** The worker can go on, and can take tasks from its deque and the pool. */
  ghost predicate Free(s: State, me: nat) {
    && Reachable(s) && me < |s.workers| && !Stopping(s.workers[me], s.sh)
    && s.workers[me].opt.localBatch > 0 && s.workers[me].opt.globalBatch > 0 && s.workers[me].local.unread == {}
  }

  /** It draws itself as a victim, and loses the races for others' tasks. */
  function Alone(w: Worker, me: nat): Choice {
    Choice(if w.pc.Timers? && w.timers != [] then HiveTurns.Soonest(w.timers) else me, 0, true)
  }

  predicate Down(w: Worker, sh: Shared, o: Out) {
    Work(o.w, o.sh) < Work(w, sh) || (Work(o.w, o.sh) == Work(w, sh) && Phase(o.w) < Phase(w))
  }

  lemma MailDown(w: Worker, sh: Shared)
    requires w.pc.Drain? || w.pc.Distribute? || w.pc.Privates?
    requires w.pc.Drain? ==> w.drained == []
    ensures Down(w, sh, MailStep(w, sh))
  {}

  lemma TimerDown(w: Worker, sh: Shared, me: nat)
    requires w.pc.Timers?
    ensures Down(w, sh, TimerStep(w, sh, Alone(w, me)))
  {}

  lemma BatchDown(w: Worker, sh: Shared)
    requires w.pc.Batch? && !Stopping(w, sh)
    ensures Down(w, sh, BatchStep(w, sh))
  {}

  lemma HarvestDown(w: Worker, sh: Shared)
    requires (w.pc.Harvest? || w.pc.Enqueue?) && (w.pc.Harvest? ==> w.batch == []) && w.hand == []
    ensures Down(w, sh, HarvestStep(w, sh))
  {}

  lemma OfferDown(w: Worker, sh: Shared)
    requires w.pc.Offer? && |w.hand| == 1
    ensures Down(w, sh, OfferStep(w, sh))
  {}

  lemma ReturnDown(w: Worker, sh: Shared)
    requires w.pc.Running? && !Stopping(w, sh)
    ensures Down(w, sh, ReturnStep(w, sh))
  {}

  lemma TransitDown(w: Worker, sh: Shared, me: nat, n: nat)
    requires InTransit(w.pc) && !w.pc.Check? && !w.pc.Exited? && !w.pc.Claim? && !Stopping(w, sh) && me < n
    ensures Down(w, sh, Out(w.(pc := Transit(w, sh, me, n, Alone(w, me))), sh))
  {}

  lemma OwnDown(w: Worker, sh: Shared, me: nat, n: nat)
    requires Tidy(w, me) && !Stopping(w, sh) && me < n && !w.pc.Check? && !w.pc.Exited? && !w.pc.Claim?
    ensures Down(w, sh, OwnStep(w, sh, me, n, Alone(w, me)))
  {
    if InTransit(w.pc) { TransitDown(w, sh, me, n); }
    else if w.pc.Drain? || w.pc.Distribute? || w.pc.Privates? { MailDown(w, sh); }
    else if w.pc.Timers? { TimerDown(w, sh, me); }
    else if w.pc.Batch? { BatchDown(w, sh); }
    else if w.pc.Offer? { OfferDown(w, sh); }
    else if w.pc.Running? { ReturnDown(w, sh); }
    else { HarvestDown(w, sh); }
  }

  /** What the pass so far has found empty, when nothing has moved since it began. */
  predicate Swept(w: Worker, sh: Shared) {
    match w.pc
    case Poll => true
    case Drain => true
    case Distribute => w.inbound == []
    case Privates => w.inbound == [] && w.drained == []
    case Timers(_) => w.inbound == [] && w.privates == []
    case Gate => w.inbound == [] && w.privates == []
    case Batch(ran) => ran == 0 && w.inbound == [] && w.privates == []
    case Harvest => w.inbound == [] && w.privates == [] && Size(w.local) == 0
    case Steal(_) => AllDone(w, sh)
    case StealFrom(_, _, got, _) => got == 0 && AllDone(w, sh)
    case Check => AllDone(w, sh)
    case _ => false
  }

  predicate AllDone(w: Worker, sh: Shared) { w.inbound == [] && w.privates == [] && Size(w.local) == 0 && sh.micro == [] }

  predicate SweepsOn(w: Worker, sh: Shared, o: Out) { Work(o.w, o.sh) == Work(w, sh) ==> Swept(o.w, o.sh) }

  lemma TransitSweeps(w: Worker, sh: Shared, me: nat, n: nat)
    requires InTransit(w.pc) && !w.pc.Check? && !Stopping(w, sh) && me < n && Swept(w, sh)
    ensures SweepsOn(w, sh, Out(w.(pc := Transit(w, sh, me, n, Alone(w, me))), sh))
  {}

  lemma MailSweeps(w: Worker, sh: Shared)
    requires (w.pc.Drain? || w.pc.Distribute? || w.pc.Privates?) && (w.pc.Drain? ==> w.drained == []) && Swept(w, sh)
    ensures SweepsOn(w, sh, MailStep(w, sh))
  {}

  lemma LoopSweeps(w: Worker, sh: Shared, me: nat)
    requires (w.pc.Timers? || w.pc.Batch?) && Swept(w, sh) && w.opt.localBatch > 0
    ensures SweepsOn(w, sh, if w.pc.Timers? then TimerStep(w, sh, Alone(w, me)) else BatchStep(w, sh))
  {}

  lemma HarvestSweeps(w: Worker, sh: Shared)
    requires w.pc.Harvest? && w.batch == [] && Swept(w, sh) && w.opt.globalBatch > 0
    ensures SweepsOn(w, sh, HarvestStep(w, sh))
  {}

  lemma OwnSweeps(w: Worker, sh: Shared, me: nat, n: nat)
    requires Tidy(w, me) && !Stopping(w, sh) && me < n && !w.pc.Check? && Swept(w, sh) && w.opt.localBatch > 0 && w.opt.globalBatch > 0
    ensures SweepsOn(w, sh, OwnStep(w, sh, me, n, Alone(w, me)))
  {
    if InTransit(w.pc) { TransitSweeps(w, sh, me, n); }
    else if w.pc.Timers? || w.pc.Batch? { LoopSweeps(w, sh, me); }
    else if w.pc.Harvest? { HarvestSweeps(w, sh); }
    else { MailSweeps(w, sh); }
  }

  /** Nothing is lost or dropped, the other workers have at most lost a task to this one, and
      its own settings are as they were. */
  ghost predicate Quiet(s: State, r: State, me: nat, j: Job) {
    && |r.workers| == |s.workers| && me < |s.workers|
    && r.computers == s.computers && r.accepted == s.accepted
    && r.sh.lost == s.sh.lost && r.sh.dropped == s.sh.dropped && r.sh.compute == s.sh.compute && r.sh.exit == s.sh.exit
    && r.workers[me].opt == s.workers[me].opt && r.workers[me].stop == s.workers[me].stop
    && r.workers[me].local.unread == s.workers[me].local.unread
    && HeldByAll(r.workers, j) - Held(r.workers[me], j) <= HeldByAll(s.workers, j) - Held(s.workers[me], j)
  }

  lemma ReadQuiet(s: State, me: nat, j: Job)
    requires me < |s.workers| && Claiming(s, me)
    ensures Quiet(s, ReadStep(s, me), me, j)
  {
    var w := s.workers[me];
    var v := s.workers[w.pc.victim];
    var v' := v.(local := Read(v.local, w.pc.t));
    ReadKeeps(v.local, w.pc.t, j);
    var r := ReadStep(s, me);
    HeldUpdate(s.workers, w.pc.victim, v', j);
    HeldUpdate(s.workers[w.pc.victim := v'], me, r.workers[me], j);
  }

  lemma OwnQuiet(w: Worker, sh: Shared, me: nat, n: nat)
    requires Tidy(w, me) && !Stopping(w, sh) && Claimable(w.local) && w.local.unread == {} && !w.pc.Claim?
    ensures var o := OwnStep(w, sh, me, n, Alone(w, me));
      && o.sh.lost == sh.lost && o.sh.dropped == sh.dropped && o.sh.compute == sh.compute && o.sh.exit == sh.exit
      && o.w.opt == w.opt && o.w.stop == w.stop && o.w.local.unread == {}
  {
    var c := Alone(w, me);
    HiveLosses.OwnDeque(w, sh, me, n, c);
    HiveTurns.FlagsStay(w, sh, me, n, c);
    if HiveLosses.Pushes(w) {
      FreeSlot(w.local);
      assert sh.lost + [] == sh.lost;
    }
    OwnKeepsPools(w, sh, me, n, c);
  }

  lemma OwnKeepsPools(w: Worker, sh: Shared, me: nat, n: nat, c: Choice)
    requires !Stopping(w, sh)
    ensures var o := OwnStep(w, sh, me, n, c); o.sh.dropped == sh.dropped && o.sh.compute == sh.compute && o.w.opt == w.opt
  {}

  lemma AloneQuiet(s: State, me: nat, j: Job)
    requires Free(s, me)
    ensures Quiet(s, Apply(s, Turn(me, Alone(s.workers[me], me))), me, j)
  {
    var w := s.workers[me];
    ReachableInv(s);
    ReachableClaimable(s);
    HiveLosses.ReachableCareful(s);
    assert HiveLosses.ClaimKnown(s.workers, me);
    if Claiming(s, me) {
      ReadQuiet(s, me, j);
    } else {
      OwnQuiet(w, s.sh, me, |s.workers|);
      StepQuiet(s, me, OwnStep(w, s.sh, me, |s.workers|, Alone(w, me)), j);
    }
  }

  lemma StepQuiet(s: State, me: nat, o: Out, j: Job)
    requires me < |s.workers|
    requires o.sh.lost == s.sh.lost && o.sh.dropped == s.sh.dropped && o.sh.compute == s.sh.compute && o.sh.exit == s.sh.exit
    requires o.w.opt == s.workers[me].opt && o.w.stop == s.workers[me].stop && o.w.local.unread == s.workers[me].local.unread
    ensures Quiet(s, s.(workers := s.workers[me := o.w], sh := o.sh), me, j)
  {
    HeldUpdate(s.workers, me, o.w, j);
  }

  lemma ClaimDown(s: State, me: nat)
    requires me < |s.workers| && Claiming(s, me) && s.workers[me].hand == []
    ensures var r := ReadStep(s, me); Work(r.workers[me], r.sh) < Work(s.workers[me], s.sh)
  {}

  /** One turn alone keeps the worker free. */
  lemma AloneFree(s: State, me: nat, j: Job)
    requires Free(s, me)
    ensures var r := Apply(s, Turn(me, Alone(s.workers[me], me))); Free(r, me) && Quiet(s, r, me, j)
  {
    var e := Turn(me, Alone(s.workers[me], me));
    AloneQuiet(s, me, j);
    LossRun.ReachRun(s, [e]);
    assert Exec(s, [e]) == Apply(s, e) by { assert [e][..0] == []; }
  }

  /** ... and brings it on. */
  lemma AloneGoesOn(s: State, me: nat)
    requires Free(s, me)
    ensures var w, r := s.workers[me], Apply(s, Turn(me, Alone(s.workers[me], me)));
      && |r.workers| == |s.workers|
      && (w.pc.Check? ==> r.workers[me].pc.Poll? && Work(r.workers[me], r.sh) == Work(w, s.sh))
      && (!w.pc.Check? ==> Down(w, s.sh, Out(r.workers[me], r.sh)))
      && (!w.pc.Check? && Swept(w, s.sh) && Work(r.workers[me], r.sh) == Work(w, s.sh) ==> Swept(r.workers[me], r.sh))
  {
    var w := s.workers[me];
    ReachableInv(s);
    HiveLosses.ReachableCareful(s);
    assert HiveLosses.ClaimKnown(s.workers, me);
    if Claiming(s, me) {
      ClaimDown(s, me);
    } else if !w.pc.Check? {
      OwnDown(w, s.sh, me, |s.workers|);
      if Swept(w, s.sh) { OwnSweeps(w, s.sh, me, |s.workers|); }
    }
  }

  predicate OnlyTurnsOf(evs: seq<Event>, me: nat) { forall k :: 0 <= k < |evs| ==> evs[k].Turn? && evs[k].worker == me }

  lemma QuietJoin(a: State, b: State, c: State, me: nat, j: Job)
    requires Quiet(a, b, me, j) && Quiet(b, c, me, j)
    ensures Quiet(a, c, me, j)
  {}

  /** Left alone, the worker comes to the end of a pass on which it found nothing to do. */
  lemma {:induction false} Drains(s: State, me: nat, sweeping: bool, j: Job) returns (evs: seq<Event>)
    requires Free(s, me) && (sweeping ==> Swept(s.workers[me], s.sh))
    ensures OnlyTurnsOf(evs, me) && Free(Exec(s, evs), me) && Quiet(s, Exec(s, evs), me, j)
    ensures Exec(s, evs).workers[me].pc.Check? && AllDone(Exec(s, evs).workers[me], Exec(s, evs).sh)
    decreases Work(s.workers[me], s.sh), if sweeping then 0 else 1, Phase(s.workers[me])
  {
    var w := s.workers[me];
    if sweeping && w.pc.Check? { return []; }
    var e := Turn(me, Alone(w, me));
    AloneFree(s, me, j);
    AloneGoesOn(s, me);
    var r := Apply(s, e);
    var rest := Drains(r, me, w.pc.Check? || (sweeping && Work(r.workers[me], r.sh) == Work(w, s.sh)), j);
    QuietJoin(s, r, Exec(r, rest), me, j);
    LossRun.ExecMore(s, [e], rest);
    assert Exec(s, [e]) == r by { assert [e][..0] == []; }
    evs := [e] + rest;
  }

  /** How often j is neither begun nor within the worker's reach. */
  function Elsewhere(s: State, me: nat, j: Job): int
    requires me < |s.workers|
  {
    Count(s.sh.compute, j) + Count(s.sh.dropped, j) + Count(s.sh.lost, j) + HeldByComputers(s.computers, j)
    + HeldByAll(s.workers, j) - Held(s.workers[me], j)
  }

  lemma TotalParts(s: State, me: nat, j: Job)
    requires me < |s.workers|
    ensures Total(s, j) == Elsewhere(s, me, j) + Count(s.sh.micro, j) + Count(s.sh.started, j) + Held(s.workers[me], j)
  {}

  lemma QuietElsewhere(s: State, r: State, me: nat, j: Job)
    requires Quiet(s, r, me, j)
    ensures Elsewhere(r, me, j) <= Elsewhere(s, me, j)
  {}

  /** j is in the pool, or with the worker: in its mail, its deque or its hands. */
  predicate WithinReach(s: State, me: nat, j: Job) {
    me < |s.workers| && Count(s.sh.micro, j) + Held(s.workers[me], j) > 0
  }

  lemma ReachableTotal(s: State, j: Job)
    requires Reachable(s)
    ensures Total(s, j) <= 1
  {
    ReachableInv(s);
    TasksConserved(s);
    NumberedOnce(s.accepted, j);
    CountIsMultiplicity(s.accepted, j);
    TotalIsMultiplicity(s, j);
  }

  lemma {:induction false} ElsewhereIsNot(ws: seq<Worker>, me: nat, j: Job)
    requires me < |ws|
    ensures HeldByAll(ws, j) >= Held(ws[me], j)
    decreases |ws|
  {
    if me < |ws| - 1 { ElsewhereIsNot(ws[..|ws| - 1], me, j); }
  }

  lemma {:induction false} NotATimer(timers: seq<Job>, me: nat, j: Job)
    requires !j.kind.Delayed? && forall k :: 0 <= k < |timers| ==> IsTimer(timers[k], me)
    ensures Count(timers, j) == 0
    decreases |timers|
  {
    if timers != [] { NotATimer(timers[..|timers| - 1], me, j); }
  }

  lemma NobodyOwns(d: Deque<Job>, k: nat)
    requires Size(d) == 0 && d.unread == {}
    ensures !SlotOwned(d, k)
  {}

  /** A deque without tasks and claims holds nothing. */
  lemma EmptyHolds(d: Deque<Job>, j: Job)
    requires Claimable(d) && Size(d) == 0 && d.unread == {}
    ensures InDeque(d, j) == 0
  {
    forall k: nat | k < |d.slots| ensures d.slots[k].None? { NobodyOwns(d, k); }
    NoneCounted(d.slots, |d.slots|, j);
  }

  lemma NothingHeld(s: State, me: nat, j: Job)
    requires Free(s, me) && s.workers[me].pc.Check? && AllDone(s.workers[me], s.sh) && !j.kind.Delayed?
    ensures Held(s.workers[me], j) == 0
  {
    ReachableInv(s);
    ReachableClaimable(s);
    EmptyHolds(s.workers[me].local, j);
    assert Sorted(s.workers[me], me);
    NotATimer(s.workers[me].timers, me, j);
  }

  /** From every reachable state every task within the reach of a worker that is not stopping
      can begin by that worker's turns alone, provided that its batches are not zero and no
      thief has a claim on its deque pending; timers follow when their time has come. */
  lemma EveryTaskCanBegin(s: State, me: nat, j: Job) returns (evs: seq<Event>)
    requires Free(s, me) && WithinReach(s, me, j) && !j.kind.Delayed?
    ensures OnlyTurnsOf(evs, me) && j in Exec(s, evs).sh.started
  {
    evs := Drains(s, me, false, j);
    var r := Exec(s, evs);
    NothingHeld(r, me, j);
    ReachableTotal(s, j);
    TotalParts(s, me, j);
    TotalParts(r, me, j);
    QuietElsewhere(s, r, me, j);
    ElsewhereIsNot(s.workers, me, j);
    RunTotals(s, r, j);
    CountIsMultiplicity(r.sh.started, j);
  }

  lemma RunTotals(s: State, r: State, j: Job)
    requires Reachable(s) && Reachable(r) && r.accepted == s.accepted
    ensures Total(r, j) == Total(s, j)
  {
    TasksConserved(s);
    TasksConserved(r);
    TotalIsMultiplicity(s, j);
    TotalIsMultiplicity(r, j);
  }

  // ---- compute workers

  function ComputeWork(w: Computer, sh: Shared): nat {
    8 * |sh.compute| + 4 * |w.batch| + match w.pc case CRunning => 3 case CLoop => 2 case CCheck => 1 case _ => 0
  }

  /** A compute worker left alone empties the pool. */
  lemma {:induction false} ComputeDrains(s: State, k: nat) returns (evs: seq<Event>)
    requires Inv(s) && k < |s.computers| && !s.sh.exit && !s.computers[k].stop && s.computers[k].batchSize > 0 && !s.computers[k].pc.CExited?
    ensures forall i :: 0 <= i < |evs| ==> evs[i] == ComputeTurn(k)
    ensures Exec(s, evs).sh.compute == [] && k < |Exec(s, evs).computers| && Exec(s, evs).computers[k].batch == []
    ensures Exec(s, evs).sh.dropped == s.sh.dropped
    ensures s.sh.started + s.computers[k].batch + s.sh.compute == Exec(s, evs).sh.started
    decreases ComputeWork(s.computers[k], s.sh)
  {
    var w := s.computers[k];
    if w.pc.CPop? && s.sh.compute == [] {
      assert w.batch == [];
      assert s.sh.started + [] + [] == s.sh.started;
      return [];
    }
    StepInv(s, ComputeTurn(k));
    ComputeGoesOn(w, s.sh);
    var r := Apply(s, ComputeTurn(k));
    var rest := ComputeDrains(r, k);
    LossRun.ExecMore(s, [ComputeTurn(k)], rest);
    assert Exec(s, [ComputeTurn(k)]) == r by { assert [ComputeTurn(k)][..0] == []; }
    evs := [ComputeTurn(k)] + rest;
  }

  lemma ComputeGoesOn(w: Computer, sh: Shared)
    requires !sh.exit && !w.stop && w.batchSize > 0 && !w.pc.CExited? && !(w.pc.CPop? && sh.compute == [])
    requires w.batch != [] ==> w.pc.CLoop? || w.pc.CRunning?
    ensures var o := ComputeStep(w, sh);
      && ComputeWork(o.w, o.sh) < ComputeWork(w, sh) && !o.sh.exit && !o.w.stop && o.w.batchSize == w.batchSize && !o.w.pc.CExited?
      && o.sh.dropped == sh.dropped && o.sh.started + o.w.batch + o.sh.compute == sh.started + w.batch + sh.compute
  {
    if w.pc.CPop? {
      assert w.batch == [] && sh.started + [] == sh.started;
      var n := Min(w.batchSize, |sh.compute|);
      assert sh.started + sh.compute[..n] + sh.compute[n..] == sh.started + (sh.compute[..n] + sh.compute[n..]);
      assert sh.compute[..n] + sh.compute[n..] == sh.compute;
    } else if w.pc.CLoop? && w.batch != [] {
      assert (sh.started + [w.batch[0]]) + w.batch[1..] == sh.started + w.batch;
    }
  }
}
