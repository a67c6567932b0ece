/** What single turns of the workers do, told by the queues and tasks alone: due timers run
    before the worker goes on, its loops end when their work is done, and workers that are told
    to stop do so. */
module HiveTurns {
  import opened Hive
  import opened LocalDeque
  import HiveProofs
  import HiveLosses
  import LossRun

  // ---- timers

  predicate DueAt(j: Job, t: int) { j.kind.Delayed? && j.kind.deadline <= t }

  /** No timer of the list is due at t. */
  predicate NoneDue(timers: seq<Job>, t: int) {
    forall k :: 0 <= k < |timers| ==> timers[k].kind.Delayed? && timers[k].kind.deadline > t
  }

  /** Job j was among the timers before, is due, and is due no later than any that is left. */
  predicate RanFirst(before: seq<Job>, after: seq<Job>, j: Job, t: int) {
    && j in before && DueAt(j, t) && |after| + 1 == |before|
    && forall k :: 0 <= k < |after| ==> after[k] in before && after[k].kind.Delayed? && j.kind.deadline <= after[k].kind.deadline
  }

  /** Without its k-th element. */
  lemma WithoutOne(timers: seq<Job>, k: nat, i: nat)
    requires k < |timers| && i < |timers| - 1
    ensures (timers[..k] + timers[k + 1..])[i] == timers[if i < k then i else i + 1]
  {}

  lemma PopsEarliest(w: Worker, sh: Shared, me: nat, c: Choice)
    requires HiveProofs.Sorted(w, me) && w.pc.Timers?
    ensures var o := TimerStep(w, sh, c);
      || (o.w == w && o.sh == sh)
      || (o.w.pc.Gate? && o.w.timers == w.timers && o.sh == sh && NoneDue(w.timers, w.pc.t0))
      || (o.w.pc.Running? && exists j :: RanFirst(w.timers, o.w.timers, j, w.pc.t0) && o.sh.started == sh.started + [j])
  {
    if Earliest(w.timers, c.k) {
      var j, left := w.timers[c.k], w.timers[..c.k] + w.timers[c.k + 1..];
      assert HiveProofs.IsTimer(j, me);
      forall k | 0 <= k < |w.timers| ensures w.timers[k].kind.Delayed? && j.kind.deadline <= w.timers[k].kind.deadline {
        assert HiveProofs.IsTimer(w.timers[k], me);
        assert Deadline(j) <= Deadline(w.timers[k]);
      }
      if j.kind.deadline <= w.pc.t0 {
        forall k | 0 <= k < |left| ensures left[k] in w.timers && left[k].kind.Delayed? && j.kind.deadline <= left[k].kind.deadline {
          WithoutOne(w.timers, c.k, k);
        }
        assert RanFirst(w.timers, left, j, w.pc.t0);
      }
    }
  }

  /** In every reachable state a turn at the timers either begins one that is due, and due no
      later than any that is left, or goes on because none is due at the time read on entry. */
  lemma DueTimersFirst(s: State, me: nat, c: Choice)
    requires HiveProofs.Reachable(s) && me < |s.workers| && s.workers[me].pc.Timers?
    ensures var w, r := s.workers[me], Apply(s, Turn(me, c));
      && |r.workers| == |s.workers|
      && var w' := r.workers[me];
      || r == s
      || (w'.pc.Gate? && w'.timers == w.timers && r.sh == s.sh && NoneDue(w'.timers, w.pc.t0))
      || (w'.pc.Running? && exists j :: RanFirst(w.timers, w'.timers, j, w.pc.t0) && r.sh.started == s.sh.started + [j])
  {
    HiveProofs.ReachableInv(s);
    PopsEarliest(s.workers[me], s.sh, me, c);
    if TimerStep(s.workers[me], s.sh, c) == Out(s.workers[me], s.sh) { assert Apply(s, Turn(me, c)) == s; }
  }

  /** The index of a timer that no other precedes. */
  function Soonest(timers: seq<Job>): (k: nat)
    requires timers != []
    ensures Earliest(timers, k)
  {
    if |timers| == 1 then 0
    else
      var k := Soonest(timers[..|timers| - 1]);
      if Deadline(timers[|timers| - 1]) < Deadline(timers[k]) then |timers| - 1 else k
  }

  /** Whatever the queue of timers is like, some timer is on top of it, and the worker goes on. */
  lemma TimersGoOn(s: State, me: nat)
    requires me < |s.workers| && s.workers[me].pc.Timers?
    ensures exists c :: Apply(s, Turn(me, c)).workers[me].pc != s.workers[me].pc
  {
    var ts := s.workers[me].timers;
    var c := Choice(if ts == [] then 0 else Soonest(ts), 0, true);
    assert Apply(s, Turn(me, c)).workers[me].pc != s.workers[me].pc;
  }

  /** The time that timers are held against is the one at which the worker comes to them. */
  lemma TimersReadClock(s: State, me: nat, c: Choice)
    requires me < |s.workers| && !s.workers[me].pc.Timers? && Apply(s, Turn(me, c)).workers[me].pc.Timers?
    ensures var p, q := s.workers[me].pc, Apply(s, Turn(me, c)).workers[me].pc;
      q.t0 == if p.Running? && p.back.InTimers? then p.back.t0 else s.sh.now
  {
    ClockRead(s.workers[me], s.sh, me, |s.workers|, c);
  }

  lemma ClockRead(w: Worker, sh: Shared, me: nat, n: nat, c: Choice)
    requires !w.pc.Timers? && OwnStep(w, sh, me, n, c).w.pc.Timers?
    ensures OwnStep(w, sh, me, n, c).w.pc.t0 == if w.pc.Running? && w.pc.back.InTimers? then w.pc.back.t0 else sh.now
  {}

  // ---- loops end when their work is done

  /** The loops of a pass are left only when they are done: all mail distributed, all private
      tasks run, the local batch used up or the deque empty, the harvest enqueued; and a harvest
      takes as much as the batch allows. */
  predicate Finishes(w: Worker, sh: Shared, w': Worker, sh': Shared) {
    && (w.pc.Drain? ==> w'.pc.Distribute? && w'.drained == w.inbound && w'.inbound == [])
    && (w.pc.Distribute? && !w'.pc.Distribute? ==> w.drained == [] && w'.pc.Privates?)
    && (w'.pc.Timers? && !w.pc.Timers? && !(w.pc.Running? && w.pc.back.InTimers?) ==> w'.privates == [])
    && (w.pc.Batch? && !w'.pc.Batch? && !w'.pc.Running? ==> w.pc.ran >= w.opt.localBatch || Size(w.local) == 0)
    && (w.pc.Batch? && w'.pc.Harvest? ==> w.pc.ran == 0)
    && (w.pc.Harvest? ==> w'.batch + sh'.micro == sh.micro && |w'.batch| == Min(w.opt.globalBatch, |sh.micro|))
    && (w'.pc.Check? && HiveProofs.FromHarvest(w.pc) ==> w'.batch == [])
  }

  /** In every reachable state the turns of a worker that is not stopping are such. */
  lemma LoopsFinish(s: State, me: nat, c: Choice)
    requires HiveProofs.Reachable(s) && me < |s.workers| && !Stopping(s.workers[me], s.sh)
    ensures me < |Apply(s, Turn(me, c)).workers|
    ensures Finishes(s.workers[me], s.sh, Apply(s, Turn(me, c)).workers[me], Apply(s, Turn(me, c)).sh)
  {
    HiveProofs.ReachableInv(s);
    TurnFinishes(s, me, c);
  }

  lemma TurnFinishes(s: State, me: nat, c: Choice)
    requires me < |s.workers| && HiveProofs.Tidy(s.workers[me], me) && !Stopping(s.workers[me], s.sh)
    ensures me < |WorkerStep(s, me, c).workers|
    ensures Finishes(s.workers[me], s.sh, WorkerStep(s, me, c).workers[me], WorkerStep(s, me, c).sh)
  {
    if !WillSteal(s, me, c) && !Claiming(s, me) { OwnFinishes(s.workers[me], s.sh, me, |s.workers|, c); }
  }

  lemma OwnFinishes(w: Worker, sh: Shared, me: nat, n: nat, c: Choice)
    requires HiveProofs.Tidy(w, me) && !Stopping(w, sh)
    ensures var o := OwnStep(w, sh, me, n, c); Finishes(w, sh, o.w, o.sh)
  {
    if w.pc.Harvest? { HarvestTakes(w, sh); }
    else if w.pc.Batch? { BatchFinishes(w, sh); }
    else if w.pc.Running? { ReturnFinishes(w, sh); }
    else if w.pc.Offer? { OfferFinishes(w, sh); }
  }

  lemma HarvestTakes(w: Worker, sh: Shared)
    requires w.pc.Harvest? && w.batch == []
    ensures var o := HarvestStep(w, sh);
      && o.w.batch + o.sh.micro == sh.micro && |o.w.batch| == Min(w.opt.globalBatch, |sh.micro|) && !o.w.pc.Timers?
  {}

  lemma BatchFinishes(w: Worker, sh: Shared)
    requires w.pc.Batch? && !Stopping(w, sh)
    ensures var o := BatchStep(w, sh);
      && !o.w.pc.Timers? && (!o.w.pc.Batch? && !o.w.pc.Running? ==> w.pc.ran >= w.opt.localBatch || Size(w.local) == 0)
      && (o.w.pc.Harvest? ==> w.pc.ran == 0)
  {}

  lemma ReturnFinishes(w: Worker, sh: Shared)
    requires w.pc.Running? && !Stopping(w, sh)
    ensures var o := ReturnStep(w, sh);
      (o.w.pc.Timers? ==> w.pc.back.InTimers?) && !(o.w.pc.Check? && w.pc.back.InHarvest?)
  {}

  lemma OfferFinishes(w: Worker, sh: Shared)
    requires w.pc.Offer?
    ensures !OfferStep(w, sh).w.pc.Timers? && !OfferStep(w, sh).w.pc.Check?
  {}

  // ---- what a run was asked for

  /** The post that an event makes: its kind, if it is accepted. */
  function Posted(s: State, e: Event): seq<Kind> {
    match e
    case PostIO => [Io]
    case PostCompute => [Compute]
    case PostTo(i) => if i < |s.workers| then [Private(i)] else []
    case AddTimer(i, deadline) => if i < |s.workers| then [Delayed(i, deadline)] else []
    case PostToLocal(i) => if i < |s.workers| && (s.workers[i].pc.Running? || s.workers[i].pc.Poll?) then [Local(i)] else []
    case _ => []
  }

  function Kinds(jobs: seq<Job>): seq<Kind> { seq(|jobs|, k requires 0 <= k < |jobs| => jobs[k].kind) }

  /** The kinds of the posts of a run, in order. */
  function PostsOf(s: State, evs: seq<Event>): seq<Kind>
    decreases |evs|
  {
    if evs == [] then [] else PostsOf(s, evs[..|evs| - 1]) + Posted(Exec(s, evs[..|evs| - 1]), evs[|evs| - 1])
  }

  function Clock(now: int, evs: seq<Event>): int {
    if evs == [] then now else Clock(now, evs[..|evs| - 1]) + if evs[|evs| - 1].Tick? then evs[|evs| - 1].d else 0
  }

  lemma StepTells(s: State, e: Event)
    ensures var r := Apply(s, e);
      && Kinds(r.accepted) == Kinds(s.accepted) + Posted(s, e) && |r.workers| == |s.workers| && |r.computers| == |s.computers|
      && r.sh.now == s.sh.now + (if e.Tick? then e.d else 0) && (r.sh.exit <==> s.sh.exit || e.RequestExit?)
      && (forall i: nat :: i < |s.workers| ==> (r.workers[i].stop <==> s.workers[i].stop || e == RequestStop(i)))
      && (forall i: nat :: i < |s.computers| ==> (r.computers[i].stop <==> s.computers[i].stop || e == StopComputer(i)))
  {
    if e.Turn? && e.worker < |s.workers| {
      FlagsStay(s.workers[e.worker], s.sh, e.worker, |s.workers|, e.c);
      ClockStays(s.workers[e.worker], s.sh, e.worker, |s.workers|, e.c);
    }
  }

  lemma ClockStays(w: Worker, sh: Shared, me: nat, n: nat, c: Choice)
    ensures OwnStep(w, sh, me, n, c).sh.now == sh.now
  {}

  /** Over every run the accepted tasks are the posts of the run in order, the clock is the sum
      of its ticks, and the flags are up exactly if a request was made. */
  lemma {:induction false} RunTells(opts: seq<Options>, batchSizes: seq<nat>, now: int, evs: seq<Event>)
    ensures var s := Exec(Init(opts, batchSizes, now), evs);
      && Kinds(s.accepted) == PostsOf(Init(opts, batchSizes, now), evs) && s.sh.now == Clock(now, evs)
      && |s.workers| == |opts| && |s.computers| == |batchSizes|
      && (s.sh.exit <==> RequestExit in evs)
      && (forall i: nat :: i < |opts| ==> (s.workers[i].stop <==> RequestStop(i) in evs))
      && (forall i: nat :: i < |batchSizes| ==> (s.computers[i].stop <==> StopComputer(i) in evs))
    decreases |evs|
  {
    if evs != [] {
      var n := |evs| - 1;
      RunTells(opts, batchSizes, now, evs[..n]);
      StepTells(Exec(Init(opts, batchSizes, now), evs[..n]), evs[n]);
      assert evs == evs[..n] + [evs[n]];
    }
  }

  // ---- a worker that is told to stop stops

  function TriesLeft(opt: Options, try: nat): nat { if try < opt.tries then opt.tries - try else 0 }

  /** How many of its own steps a stopping worker needs at most, but for the steals that it
      still decides to try. */
  function StopRank(w: Worker): nat {
    match w.pc
    case Exited => 0
    case Check => 1
    case Gate => 1
    case Timers(_) => 3
    case Privates => 5
    case Distribute => |w.drained| + 6
    case Drain => |w.inbound| + 7
    case Poll => |w.inbound| + 8
    case Enqueue => 3 * |w.batch| + 2
    case Harvest => 3 * w.opt.globalBatch + 2 * w.opt.tries + 6
    case Batch(_) => 3 * w.opt.globalBatch + 2 * w.opt.tries + 7
    case Steal(try) => 2 + 2 * TriesLeft(w.opt, try)
    case StealFrom(_, left, _, try) => 5 * left + 3 + 2 * TriesLeft(w.opt, try)
    case Claim(_, _, left, _, try) => 5 * left + 7 + 2 * TriesLeft(w.opt, try)
    case Offer(back) =>
      if back.InSteal? then 5 * back.left + 6 + 2 * TriesLeft(w.opt, back.try) else 3 * |w.batch| + 4
    case Running(back) =>
      match back
      case InPrivates => 4
      case InTimers(_) => 2
      case InLocal(_) => 2
      case InHarvest => 3 * |w.batch| + 3
      case InSteal(_, left, _, try) => 5 * left + 5 + 2 * TriesLeft(w.opt, try)
  }

  /** What an event can add: mail for the worker, or the steals it decides to try. */
  function Extra(e: Event, me: nat): nat {
    match e
    case PostTo(i) => if i == me then 1 else 0
    case AddTimer(i, _) => if i == me then 1 else 0
    case Turn(i, c) => if i == me then 5 * c.n + 2 else 0
    case _ => 0
  }

  function Extras(evs: seq<Event>, me: nat): nat {
    if evs == [] then 0 else Extras(evs[..|evs| - 1], me) + Extra(evs[|evs| - 1], me)
  }

  /** Turns of the worker on which it moves; chance can keep it where it is. */
  function Moves(s: State, evs: seq<Event>, me: nat): nat
    decreases |evs|
  {
    if evs == [] then 0 else
      var n := |evs| - 1;
      Moves(s, evs[..n], me) + if Moved(Exec(s, evs[..n]), evs[n], me) then 1 else 0
  }

  predicate Moved(s: State, e: Event, me: nat) {
    e.Turn? && e.worker == me < |s.workers| == |Apply(s, e).workers| && Apply(s, e).workers[me] != s.workers[me]
  }

  lemma OfferStops(w: Worker, sh: Shared, me: nat)
    requires HiveProofs.Tidy(w, me) && w.pc.Offer?
    ensures OfferStep(w, sh).w == w || StopRank(OfferStep(w, sh).w) < StopRank(w)
  {}

  lemma ReturnStops(w: Worker, sh: Shared)
    requires Stopping(w, sh) && w.pc.Running?
    ensures StopRank(ReturnStep(w, sh).w) < StopRank(w)
  {}

  lemma HarvestStops(w: Worker, sh: Shared)
    requires w.pc.Harvest? || w.pc.Enqueue?
    ensures StopRank(HarvestStep(w, sh).w) < StopRank(w)
  {}

  lemma BatchStops(w: Worker, sh: Shared)
    requires Stopping(w, sh) && w.pc.Batch?
    ensures StopRank(BatchStep(w, sh).w) < StopRank(w)
  {}

  lemma TransitStops(w: Worker, sh: Shared, me: nat, n: nat, c: Choice)
    requires Stopping(w, sh) && InTransit(w.pc)
    ensures var w' := w.(pc := Transit(w, sh, me, n, c)); w' == w || StopRank(w') < StopRank(w) + 5 * c.n + 2
  {}

  lemma OwnStops(w: Worker, sh: Shared, me: nat, n: nat, c: Choice)
    requires HiveProofs.Tidy(w, me) && Stopping(w, sh)
    ensures var o := OwnStep(w, sh, me, n, c); o.w == w || StopRank(o.w) < StopRank(w) + 5 * c.n + 2
  {
    if InTransit(w.pc) { TransitStops(w, sh, me, n, c); }
    else if w.pc.Offer? { OfferStops(w, sh, me); }
    else if w.pc.Running? { ReturnStops(w, sh); }
    else if w.pc.Batch? { BatchStops(w, sh); }
    else if w.pc.Harvest? || w.pc.Enqueue? { HarvestStops(w, sh); }
    else { EntryStops(w, sh, c); }
  }

  lemma EntryStops(w: Worker, sh: Shared, c: Choice)
    requires w.pc.Drain? || w.pc.Distribute? || w.pc.Privates? || w.pc.Timers?
    ensures var o := if w.pc.Timers? then TimerStep(w, sh, c) else MailStep(w, sh); o.w == w || StopRank(o.w) < StopRank(w)
  {}

  lemma TurnStops(s: State, me: nat, c: Choice)
    requires me < |s.workers| && HiveProofs.Tidy(s.workers[me], me) && Stopping(s.workers[me], s.sh)
    ensures var r := WorkerStep(s, me, c);
      |r.workers| == |s.workers| && (r.workers[me] == s.workers[me] || StopRank(r.workers[me]) < StopRank(s.workers[me]) + 5 * c.n + 2)
  {
    if !WillSteal(s, me, c) && !Claiming(s, me) { OwnStops(s.workers[me], s.sh, me, |s.workers|, c); }
  }

  /** The same worker but for its deque, its stop flag and at most k more letters. */
  predicate Visited(w: Worker, w': Worker, k: nat) {
    w'.pc == w.pc && w'.opt == w.opt && w'.drained == w.drained && w'.batch == w.batch && |w'.inbound| <= |w.inbound| + k
  }

  lemma VisitedRank(w: Worker, w': Worker, k: nat)
    requires Visited(w, w', k)
    ensures StopRank(w') <= StopRank(w) + k
  {}

  lemma TurnVisits(s: State, i: nat, c: Choice, me: nat)
    requires me < |s.workers| && i < |s.workers| && i != me
    ensures |WorkerStep(s, i, c).workers| == |s.workers| && Visited(s.workers[me], WorkerStep(s, i, c).workers[me], 0)
  {}

  lemma EventVisits(s: State, e: Event, me: nat)
    requires me < |s.workers| && !e.Turn?
    ensures |Apply(s, e).workers| == |s.workers| && Visited(s.workers[me], Apply(s, e).workers[me], Extra(e, me))
  {}

  /** What others do to a worker: mail, tasks taken from its deque, tasks posted there. */
  lemma OthersAdd(s: State, e: Event, me: nat)
    requires me < |s.workers| && !(e.Turn? && e.worker == me)
    ensures |Apply(s, e).workers| == |s.workers|
    ensures StopRank(Apply(s, e).workers[me]) <= StopRank(s.workers[me]) + Extra(e, me)
  {
    if e.Turn? {
      if e.worker < |s.workers| {
        TurnVisits(s, e.worker, e.c, me);
        VisitedRank(s.workers[me], Apply(s, e).workers[me], 0);
      }
    } else {
      EventVisits(s, e, me);
      VisitedRank(s.workers[me], Apply(s, e).workers[me], Extra(e, me));
    }
  }

  lemma StopsForGood(s: State, e: Event, me: nat)
    requires me < |s.workers| && Stopping(s.workers[me], s.sh)
    ensures me < |Apply(s, e).workers| && Stopping(Apply(s, e).workers[me], Apply(s, e).sh)
  {
    if e.Turn? && e.worker < |s.workers| {
      FlagsStay(s.workers[e.worker], s.sh, e.worker, |s.workers|, e.c);
    }
  }

  lemma FlagsStay(w: Worker, sh: Shared, me: nat, n: nat, c: Choice)
    ensures var o := OwnStep(w, sh, me, n, c); o.w.stop == w.stop && o.sh.exit == sh.exit
  {}

  lemma {:induction false} StoppingRun(s: State, evs: seq<Event>, me: nat)
    requires HiveProofs.Reachable(s) && me < |s.workers| && Stopping(s.workers[me], s.sh)
    ensures var r := Exec(s, evs);
      && HiveProofs.Reachable(r) && me < |r.workers| && Stopping(r.workers[me], r.sh)
      && StopRank(r.workers[me]) + Moves(s, evs, me) <= StopRank(s.workers[me]) + Extras(evs, me)
    decreases |evs|
  {
    LossRun.ReachRun(s, evs);
    if evs != [] {
      var n := |evs| - 1;
      StoppingRun(s, evs[..n], me);
      var m, e := Exec(s, evs[..n]), evs[n];
      StopsForGood(m, e, me);
      HiveProofs.ReachableInv(m);
      if e.Turn? && e.worker == me { TurnStops(m, me, e.c); } else { OthersAdd(m, e, me); }
    }
  }

  lemma OnlyExitedIsZero(w: Worker)
    ensures StopRank(w) == 0 <==> w.pc.Exited?
  {}

  /** From every reachable state in which a worker is told to stop, it has left its loop once it
      has moved as often as its rank says and events add. */
  lemma WorkerStops(s: State, evs: seq<Event>, me: nat)
    requires HiveProofs.Reachable(s) && me < |s.workers| && Stopping(s.workers[me], s.sh)
    requires Moves(s, evs, me) >= StopRank(s.workers[me]) + Extras(evs, me)
    ensures me < |Exec(s, evs).workers| && Exec(s, evs).workers[me].pc.Exited?
  {
    StoppingRun(s, evs, me);
    OnlyExitedIsZero(Exec(s, evs).workers[me]);
  }

  /** In every reachable state every worker that has not left its loop can move, and those that
      have were told to. */
  lemma NobodyIsStuck(s: State, me: nat)
    requires HiveProofs.Reachable(s) && me < |s.workers|
    ensures if s.workers[me].pc.Exited? then Stopping(s.workers[me], s.sh) else exists c :: Moved(s, Turn(me, c), me)
  {
    var w := s.workers[me];
    HiveProofs.ReachableInv(s);
    HiveLosses.ReachableCareful(s);
    if w.pc.Timers? {
      TimersGoOn(s, me);
      var c :| Apply(s, Turn(me, c)).workers[me].pc != w.pc;
      assert Moved(s, Turn(me, c), me);
    } else if !w.pc.Exited? {
      assert HiveLosses.ClaimKnown(s.workers, me);
      AloneMoves(s, me);
      assert Moved(s, Turn(me, Choice(me, 0, true)), me);
    }
  }

  lemma AloneMoves(s: State, me: nat)
    requires me < |s.workers| && HiveProofs.Tidy(s.workers[me], me) && HiveLosses.ClaimKnown(s.workers, me)
    requires !s.workers[me].pc.Timers? && !s.workers[me].pc.Exited?
    ensures Moved(s, Turn(me, Choice(me, 0, true)), me)
  {
    var w, c := s.workers[me], Choice(me, 0, true);
    if !Claiming(s, me) { OwnMoves(w, s.sh, me, |s.workers|); }
  }

  lemma OwnMoves(w: Worker, sh: Shared, me: nat, n: nat)
    requires HiveProofs.Tidy(w, me) && me < n && !w.pc.Timers? && !w.pc.Exited? && !w.pc.Claim?
    ensures OwnStep(w, sh, me, n, Choice(me, 0, true)).w != w
  {
    if w.pc.Offer? { OfferMoves(w, sh); }
    else if w.pc.Batch? { BatchMoves(w, sh); }
    else if w.pc.Running? { ReturnMoves(w, sh); }
    else if w.pc.Drain? || w.pc.Distribute? || w.pc.Privates? { MailMoves(w, sh); }
  }

  lemma OfferMoves(w: Worker, sh: Shared)
    requires w.pc.Offer? && w.hand != []
    ensures OfferStep(w, sh).w.hand == []
  {}

  lemma BatchMoves(w: Worker, sh: Shared)
    requires w.pc.Batch?
    ensures BatchStep(w, sh).w.pc != w.pc
  {}

  lemma ReturnMoves(w: Worker, sh: Shared)
    requires w.pc.Running?
    ensures !ReturnStep(w, sh).w.pc.Running?
  {}

  lemma MailMoves(w: Worker, sh: Shared)
    requires w.pc.Drain? || w.pc.Distribute? || w.pc.Privates?
    ensures MailStep(w, sh).w.pc != w.pc || |MailStep(w, sh).w.drained| < |w.drained|
  {}

  // ---- compute workers

  /** A compute worker that is told to exit needs no more than this many turns. */
  function ComputeRank(w: Computer): nat {
    match w.pc
    case CExited => 0
    case CCheck => 1
    case CLoop => 2
    case CRunning => 3
    case CPop => 3
  }

  /** Each of its turns brings it on, and nothing else concerns it. */
  lemma ComputerStops(s: State, k: nat)
    requires k < |s.computers| && s.sh.exit && !s.computers[k].pc.CExited?
    ensures var r := Apply(s, ComputeTurn(k));
      r.sh.exit && |r.computers| == |s.computers| && ComputeRank(r.computers[k]) < ComputeRank(s.computers[k])
  {}

  lemma ComputerExitsOnlyOnRequest(s: State, k: nat)
    requires k < |s.computers| && !s.computers[k].pc.CExited? && Apply(s, ComputeTurn(k)).computers[k].pc.CExited?
    ensures s.sh.exit || s.computers[k].stop
  {}
}
