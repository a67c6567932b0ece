/** What the runs of the event loop come to: it stops when it is told to and only then, every
    task runs, and every timer fires, in the order of the deadlines. */
module LoopRuns {
  import opened EventLoop

  // ---- what a run was asked for

  /** How many tasks were posted. */
  function Posts(evs: seq<Event>): nat {
    if evs == [] then 0 else Posts(evs[..|evs| - 1]) + if evs[|evs| - 1].Post? then 1 else 0
  }

  function Clock(now: int, evs: seq<Event>): int {
    if evs == [] then now else Clock(now, evs[..|evs| - 1]) + if evs[|evs| - 1].Tick? then evs[|evs| - 1].d else 0
  }

  /** The timers that were set, each due its delay after the time at which it was set. */
  function TimersSet(now: int, evs: seq<Event>): seq<Timer>
    decreases |evs|
  {
    if evs == [] then [] else
      var n := |evs| - 1;
      var before := TimersSet(now, evs[..n]);
      if evs[n].PostDelayed? && Enabled(Exec(Init(now), evs[..n]), evs[n])
      then before + [Timer(Clock(now, evs[..n]) + evs[n].delay * MS, |before|)] else before
  }

  ghost predicate ExitRequested(evs: seq<Event>) { exists k :: 0 <= k < |evs| && evs[k].RequestExit? }

  lemma ExitMore(evs: seq<Event>)
    requires evs != []
    ensures ExitRequested(evs) <==> ExitRequested(evs[..|evs| - 1]) || evs[|evs| - 1].RequestExit?
  {
    var n := |evs| - 1;
    if ExitRequested(evs[..n]) {
      var k :| 0 <= k < n && evs[..n][k].RequestExit?;
      assert evs[k].RequestExit?;
    }
    if ExitRequested(evs) && !evs[n].RequestExit? {
      var k :| 0 <= k < |evs| && evs[k].RequestExit?;
      assert evs[..n][k].RequestExit?;
    }
  }

  /** Tasks, timers, clock and exit flag are those of the events. */
  lemma {:induction false} RunTells(now: int, evs: seq<Event>)
    ensures var s := Exec(Init(now), evs);
      && s.posted == Posts(evs) && s.now == Clock(now, evs) && s.set_ == TimersSet(now, evs)
      && (s.exit <==> ExitRequested(evs))
    decreases |evs|
  {
    if evs != [] {
      var n := |evs| - 1;
      RunTells(now, evs[..n]);
      ExitMore(evs);
      var s, e := Exec(Init(now), evs[..n]), evs[n];
      if e.Step? { LoopKeepsHistory(s, e); } else { OthersTell(s, e); }
    }
  }

  lemma OthersTell(s: State, e: Event)
    requires !e.Step?
    ensures var r := Next(s, e);
      && r.posted == s.posted + (if e.Post? then 1 else 0) && r.now == s.now + (if e.Tick? then e.d else 0)
      && r.set_ == (if e.PostDelayed? && Enabled(s, e) then s.set_ + [Timer(s.now + e.delay * MS, |s.set_|)] else s.set_)
      && (r.exit <==> s.exit || e.RequestExit?)
  {}

  lemma LoopKeepsHistory(s: State, e: Event)
    requires e.Step?
    ensures var r := Next(s, e); r.posted == s.posted && r.now == s.now && r.set_ == s.set_ && r.exit == s.exit
  {}

  // ---- going on

  function Steps(evs: seq<Event>): nat {
    if evs == [] then 0 else Steps(evs[..|evs| - 1]) + if evs[|evs| - 1].Step? then 1 else 0
  }

  /** What others do meanwhile. */
  function Others(evs: seq<Event>): nat {
    if evs == [] then 0 else Others(evs[..|evs| - 1]) + if evs[|evs| - 1].Step? then 0 else 1
  }

  lemma {:induction false} ExecJoin(s: State, a: seq<Event>, b: seq<Event>)
    ensures Exec(s, a + b) == Exec(Exec(s, a), b)
    decreases |b|
  {
    if b == [] {
      assert a + b == a;
    } else {
      assert (a + b)[..|a + b| - 1] == a + b[..|b| - 1];
      ExecJoin(s, a, b[..|b| - 1]);
    }
  }

  /** The loop is waiting, or about to wait, for something to happen. */
  predicate Waiting(p: Pc) { (p.Enter? && p.ms != 0) || p.Blocked? }

  // ---- it stops

  /** The loop that has been told to stop will not wait again. */
  predicate Leaving(s: State) { s.exit && (s.pc.Compute? || Waiting(s.pc) ==> s.token > 0) }

  /** How many steps it takes at most. */
  function ExitRank(s: State): nat {
    var queued := |s.timers| + |s.tasks|;
    match s.pc
    case Stopped => 0
    case CheckExit => 1
    case RunTasks => |s.local| + 2
    case Take => |s.tasks| + 3
    case RunDue => |s.due| + |s.tasks| + 4
    case Pop(_) => queued + 5
    case Expire => queued + 6
    case Drain => queued + 7 + if s.token > 0 then 1 else 0
    case Blocked(_, _, _) => queued + 9
    case Enter(_, _) => queued + 10
    case Compute => queued + 11
    case PeekExit => queued + 11
  }

  lemma LeavingStep(s: State, c: Choice)
    requires Leaving(s) && !s.pc.Stopped?
    ensures Leaving(LoopStep(s, c)) && ExitRank(LoopStep(s, c)) < ExitRank(s)
  {}

  lemma LeavingOther(s: State, e: Event)
    requires Leaving(s) && !e.Step?
    ensures Leaving(Next(s, e)) && ExitRank(Next(s, e)) <= ExitRank(s) + 1 && (s.pc.Stopped? ==> Next(s, e).pc.Stopped?)
  {}

  lemma {:induction false} LeavingRun(s: State, evs: seq<Event>)
    requires Leaving(s)
    ensures var r := Exec(s, evs); Leaving(r) && (r.pc.Stopped? || ExitRank(r) + Steps(evs) <= ExitRank(s) + Others(evs))
    decreases |evs|
  {
    if evs != [] {
      var n := |evs| - 1;
      LeavingRun(s, evs[..n]);
      var m := Exec(s, evs[..n]);
      if !evs[n].Step? { LeavingOther(m, evs[n]); } else if !m.pc.Stopped? { LeavingStep(m, evs[n].c); }
    }
  }

  /** From every reachable state with an exit request whose wakeup has been written, the loop
      stops within as many steps as its rank says and others do things meanwhile. */
  lemma ExitEnds(s: State, evs: seq<Event>)
    requires Reachable(s) && s.exit && s.notifying == 0 && Steps(evs) >= ExitRank(s) + Others(evs)
    ensures Exec(s, evs).pc.Stopped?
  {
    ReachableInv(s, Timer(0, 0));
    LeavingRun(s, evs);
  }

  /** It stops only when told to. */
  lemma {:induction false} StopsOnlyOnRequest(now: int, evs: seq<Event>)
    requires Exec(Init(now), evs).pc.Stopped?
    ensures ExitRequested(evs)
    decreases |evs|
  {
    if evs != [] {
      var n := |evs| - 1;
      var s := Exec(Init(now), evs[..n]);
      if s.pc.Stopped? {
        StopsOnlyOnRequest(now, evs[..n]);
        var k :| 0 <= k < n && evs[..n][k].RequestExit?;
        assert evs[k].RequestExit?;
      } else {
        RunTells(now, evs[..n]);
        assert s.exit;
        var k :| 0 <= k < n && evs[..n][k].RequestExit?;
        assert evs[k].RequestExit?;
      }
    }
  }

  // ---- tasks run

  /** Of the first n tasks some are still queued. */
  predicate Queued(s: State, n: nat) { |s.ran| + |s.local| < n <= s.posted }

  predicate WillTake(s: State, n: nat) { n <= s.posted && (Queued(s, n) && Waiting(s.pc) ==> s.token > 0) }

  function TaskRank(s: State, n: nat): nat {
    var queued := |s.timers| + |s.tasks|;
    if |s.ran| >= n then 0
    else
      match s.pc
      case Stopped => 0
      case RunTasks => |s.local| + if |s.ran| + |s.local| >= n then 0 else queued + 12
      case Take => |s.tasks| + 1
      case RunDue => |s.due| + |s.tasks| + 2
      case Pop(_) => queued + 3
      case Expire => queued + 4
      case Drain => queued + 5 + if s.token > 0 then 1 else 0
      case Blocked(_, _, _) => queued + 7
      case Enter(_, _) => queued + 8
      case Compute => queued + 9
      case PeekExit => queued + 10
      case CheckExit => queued + 11
  }

  predicate TasksDone(s: State, n: nat) { s.pc.Stopped? || |s.ran| >= n }

  lemma TasksCounted(s: State)
    requires Tidy(s)
    ensures |s.ran| + |s.local| + |s.tasks| == s.posted && (!s.pc.RunTasks? ==> s.local == []) && (!s.pc.RunDue? ==> s.due == [])
  {
    assert |s.ran + s.local + s.tasks| == |Iota(s.posted)|;
  }

  lemma TaskStep(s: State, n: nat, c: Choice)
    requires Tidy(s) && WillTake(s, n) && !TasksDone(s, n)
    ensures var r := LoopStep(s, c); WillTake(r, n) && (TasksDone(r, n) || TaskRank(r, n) < TaskRank(s, n))
  {
    TasksCounted(s);
  }

  lemma TaskOther(s: State, n: nat, e: Event)
    requires Tidy(s) && WillTake(s, n) && !e.Step?
    ensures var r := Next(s, e); WillTake(r, n) && (TasksDone(s, n) ==> TasksDone(r, n)) && TaskRank(r, n) <= TaskRank(s, n) + 1
  {
    TasksCounted(s);
  }

  lemma DoneStays(s: State, n: nat, c: Choice)
    requires Tidy(s) && WillTake(s, n) && TasksDone(s, n)
    ensures WillTake(LoopStep(s, c), n) && TasksDone(LoopStep(s, c), n)
  {
    TasksCounted(s);
  }

  lemma {:induction false} TaskRun(s: State, n: nat, evs: seq<Event>)
    requires Inv(s) && WillTake(s, n)
    ensures var r := Exec(s, evs); Inv(r) && WillTake(r, n) && (TasksDone(r, n) || TaskRank(r, n) + Steps(evs) <= TaskRank(s, n) + Others(evs))
    decreases |evs|
  {
    if evs != [] {
      var k := |evs| - 1;
      TaskRun(s, n, evs[..k]);
      var m := Exec(s, evs[..k]);
      StepInv(m, evs[k]);
      if !evs[k].Step? { TaskOther(m, n, evs[k]); }
      else if TasksDone(m, n) { DoneStays(m, n, evs[k].c); }
      else { TaskStep(m, n, evs[k].c); }
    }
  }

  /** From every reachable state in which no poster has a wakeup to write, all tasks posted so
      far have run, in the order of the posts, within as many steps as the rank says and others
      do things meanwhile, or the loop has been told to stop. */
  lemma TasksGetRun(s: State, evs: seq<Event>)
    requires Reachable(s) && s.notifying == 0 && Steps(evs) >= TaskRank(s, s.posted) + Others(evs)
    ensures var r := Exec(s, evs); r.pc.Stopped? || (|r.ran| >= s.posted && r.ran[..s.posted] == Iota(s.posted))
  {
    ReachableInv(s, Timer(0, 0));
    TasksCounted(s);
    TaskRun(s, s.posted, evs);
    var r := Exec(s, evs);
    if !r.pc.Stopped? {
      assert TaskRank(r, s.posted) == 0;
      RanAll(r, s.posted);
    }
  }

  lemma RanAll(r: State, n: nat)
    requires Tidy(r) && (|r.ran| >= n || (!r.pc.Stopped? && TaskRank(r, n) == 0)) && n <= r.posted
    ensures |r.ran| >= n && r.ran[..n] == Iota(n)
  {
    TasksCounted(r);
    assert (r.ran + r.local + r.tasks)[..n] == Iota(n);
  }

  // ---- timers fire

  /** A timer set early enough is due by time t. */
  predicate Owed(ts: seq<Timer>, t: int, n: nat) { exists i :: 0 <= i < |ts| && ts[i].deadline <= t && ts[i].id < n }

  predicate WillFire(s: State, t: int, n: nat) {
    t <= s.now && n <= |s.set_| && (Owed(s.timers, t, n) && Waiting(s.pc) ==> s.token > 0)
  }

  predicate TimersDone(s: State, t: int, n: nat) { s.pc.Stopped? || (!Owed(s.timers, t, n) && !Owed(s.due, t, n)) }

  function TimerRank(s: State, t: int, n: nat): nat {
    var k := |s.timers|;
    if !Owed(s.timers, t, n) then |s.due|
    else
      match s.pc
      case Stopped => 0
      case Pop(t0) => if t0 >= t then k + 1 else k + |s.tasks| + 13
      case Expire => k + 2
      case Drain => k + 3 + if s.token > 0 then 1 else 0
      case Blocked(_, _, _) => k + 5
      case Enter(_, _) => k + 6
      case Compute => k + 7
      case PeekExit => k + 8
      case CheckExit => k + 9
      case RunTasks => k + |s.local| + 10
      case Take => k + |s.tasks| + 11
      case RunDue => k + |s.due| + |s.tasks| + 12
  }

  lemma OwedPart(ts: seq<Timer>, k: nat, t: int, n: nat)
    requires k <= |ts|
    ensures Owed(ts, t, n) <==> Owed(ts[..k], t, n) || Owed(ts[k..], t, n)
  {
    if i :| 0 <= i < |ts| && ts[i].deadline <= t && ts[i].id < n {
      if i < k { assert ts[..k][i] == ts[i]; } else { assert ts[k..][i - k] == ts[i]; }
    }
    if i :| 0 <= i < |ts[..k]| && ts[..k][i].deadline <= t && ts[..k][i].id < n { assert ts[i] == ts[..k][i]; }
    if i :| 0 <= i < |ts[k..]| && ts[k..][i].deadline <= t && ts[k..][i].id < n { assert ts[k + i] == ts[k..][i]; }
  }

  lemma PopTakesOwed(s: State, t: int, n: nat, c: Choice)
    requires Tidy(s) && s.pc.Pop?
    ensures var r := LoopStep(s, c);
      && |r.due| + |r.timers| == |s.timers| && (s.pc.t0 >= t ==> !Owed(r.timers, t, n))
      && (Owed(r.timers, t, n) || Owed(r.due, t, n) <==> Owed(s.timers, t, n))
  {
    DueExact(s.timers, s.pc.t0);
    OwedPart(s.timers, DueCount(s.timers, s.pc.t0), t, n);
  }

  lemma OwedIsFirst(ts: seq<Timer>, t: int, n: nat)
    requires SortedTimers(ts) && Owed(ts, t, n)
    ensures ts != [] && ts[0].deadline <= t
  {
    var i :| 0 <= i < |ts| && ts[i].deadline <= t && ts[i].id < n;
    if i > 0 { assert ts[0].deadline <= ts[i].deadline; }
  }

  lemma TimerStep(s: State, t: int, n: nat, c: Choice)
    requires Tidy(s) && WillFire(s, t, n) && !TimersDone(s, t, n)
    ensures var r := LoopStep(s, c); WillFire(r, t, n) && (TimersDone(r, t, n) || TimerRank(r, t, n) < TimerRank(s, t, n))
  {
    TasksCounted(s);
    if s.pc.Pop? {
      PopTakesOwed(s, t, n, c);
    } else if s.pc.RunDue? {
      FiringStep(s, t, n, c);
    } else {
      if s.pc.Compute? { OwedIsFirst(s.timers, t, n); }
      LoopLeavesTimers(s, c);
    }
  }

  lemma FiringStep(s: State, t: int, n: nat, c: Choice)
    requires s.pc.RunDue? && WillFire(s, t, n) && !TimersDone(s, t, n)
    ensures var r := LoopStep(s, c); WillFire(r, t, n) && (TimersDone(r, t, n) || TimerRank(r, t, n) < TimerRank(s, t, n))
  {
    if s.due != [] { OwedPart(s.due, 1, t, n); }
  }

  lemma NewIsNotOwed(s: State, delay: int, k: nat, t: int, n: nat)
    requires Enabled(s, PostDelayed(delay, k)) && n <= |s.set_|
    ensures Owed(Apply(s, PostDelayed(delay, k)).timers, t, n) <==> Owed(s.timers, t, n)
  {
    var x := Timer(s.now + delay * MS, |s.set_|);
    var r := Inserted(s.timers, k, x);
    OwedPart(r, k, t, n);
    OwedPart(r[k..], 1, t, n);
    assert r[..k] == s.timers[..k] && r[k..][1..] == s.timers[k..] && r[k..][..1] == [x];
    OwedPart(s.timers, k, t, n);
  }

  lemma TimerOther(s: State, t: int, n: nat, e: Event)
    requires WillFire(s, t, n) && !e.Step?
    ensures var r := Next(s, e); WillFire(r, t, n) && (TimersDone(s, t, n) ==> TimersDone(r, t, n)) && TimerRank(r, t, n) <= TimerRank(s, t, n) + 1
  {
    if e.PostDelayed? && Enabled(s, e) { NewIsNotOwed(s, e.delay, e.place, t, n); }
  }

  lemma FiredStays(s: State, t: int, n: nat, c: Choice)
    requires Tidy(s) && WillFire(s, t, n) && TimersDone(s, t, n)
    ensures WillFire(LoopStep(s, c), t, n) && TimersDone(LoopStep(s, c), t, n)
  {
    TasksCounted(s);
    if s.pc.Pop? {
      PopTakesOwed(s, t, n, c);
    } else if s.pc.RunDue? && s.due != [] {
      OwedPart(s.due, 1, t, n);
    } else {
      LoopLeavesTimers(s, c);
    }
  }

  lemma {:induction false} TimerRun(s: State, t: int, n: nat, evs: seq<Event>)
    requires Inv(s) && WillFire(s, t, n)
    ensures var r := Exec(s, evs);
      Inv(r) && WillFire(r, t, n) && (TimersDone(r, t, n) || TimerRank(r, t, n) + Steps(evs) <= TimerRank(s, t, n) + Others(evs))
    decreases |evs|
  {
    if evs != [] {
      var k := |evs| - 1;
      TimerRun(s, t, n, evs[..k]);
      var m := Exec(s, evs[..k]);
      StepInv(m, evs[k]);
      if !evs[k].Step? { TimerOther(m, t, n, evs[k]); }
      else if TimersDone(m, t, n) { FiredStays(m, t, n, evs[k].c); }
      else { TimerStep(m, t, n, evs[k].c); }
    }
  }

  lemma {:induction false} CountIn(ts: seq<Timer>, t: Timer)
    ensures Count(ts, t) > 0 <==> t in ts
    decreases |ts|
  {
    if ts != [] {
      var k := |ts| - 1;
      CountIn(ts[..k], t);
      assert ts == ts[..k] + [ts[k]];
    }
  }

  /** Timers are numbered as they are set, and stay set. */
  lemma {:induction false} SetNumbered(s: State, evs: seq<Event>)
    requires forall k :: 0 <= k < |s.set_| ==> s.set_[k].id == k
    ensures s.set_ <= Exec(s, evs).set_ && forall k :: 0 <= k < |Exec(s, evs).set_| ==> Exec(s, evs).set_[k].id == k
    decreases |evs|
  {
    if evs != [] { SetNumbered(s, evs[..|evs| - 1]); }
  }

  lemma ReachableNumbered(s: State)
    requires Reachable(s)
    ensures forall k :: 0 <= k < |s.set_| ==> s.set_[k].id == k
  {
    var now, evs :| s == Exec(Init(now), evs);
    SetNumbered(Init(now), evs);
  }

  lemma ReachMore(s: State, evs: seq<Event>)
    requires Reachable(s)
    ensures Reachable(Exec(s, evs))
  {
    var now, a :| s == Exec(Init(now), a);
    ExecJoin(Init(now), a, evs);
    assert Exec(s, evs) == Exec(Init(now), a + evs);
  }

  /** From every reachable state that does not wait, or has a wakeup to end its wait, all timers
      whose deadlines have come fire within as many steps as the rank says and others do things
      meanwhile, or the loop has been told to stop.  NoOversleep ends the wait itself. */
  lemma TimersGetFired(s: State, evs: seq<Event>, x: Timer)
    requires Reachable(s) && (Waiting(s.pc) ==> s.token > 0)
    requires Steps(evs) >= TimerRank(s, s.now, |s.set_|) + Others(evs)
    requires x in s.set_ && x.deadline <= s.now
    ensures Exec(s, evs).pc.Stopped? || x in Exec(s, evs).fired
  {
    var r, n := Exec(s, evs), |s.set_|;
    ReachableInv(s, x);
    TimerRun(s, s.now, n, evs);
    ReachableNumbered(s);
    SetNumbered(s, evs);
    ReachMore(s, evs);
    ReachableInv(r, x);
    CountIn(r.set_, x);
    CountIn(r.fired, x);
    CountIn(r.due, x);
    CountIn(r.timers, x);
    if !r.pc.Stopped? {
      NoneLeft(r, s.now, n);
      var k :| 0 <= k < n && s.set_[k] == x;
      assert x.id == k < n && r.set_[k] == x;
    }
  }

  lemma NoneLeft(r: State, t: int, n: nat)
    requires TimersDone(r, t, n) || TimerRank(r, t, n) == 0
    requires !r.pc.Stopped?
    ensures !Owed(r.timers, t, n) && !Owed(r.due, t, n)
  {}

  // ---- timers fire in the order of their deadlines

  /** All timers fired or about to be fired are due, in order, and before those that wait. */
  predicate InOrder(s: State) {
    && SortedTimers(s.fired + s.due)
    && (forall i :: 0 <= i < |s.fired + s.due| ==> (s.fired + s.due)[i].deadline <= s.now)
    && forall i, j :: 0 <= i < |s.fired + s.due| && 0 <= j < |s.timers| ==> (s.fired + s.due)[i].deadline <= s.timers[j].deadline
  }

  /** A timer is set with a negative delay. */
  predicate Past(e: Event) { e.PostDelayed? && e.delay < 0 }

  predicate NothingPast(evs: seq<Event>) { forall k :: 0 <= k < |evs| ==> !Past(evs[k]) }

  lemma PopInOrder(s: State, c: Choice)
    requires Tidy(s) && Timely(s) && InOrder(s) && s.pc.Pop?
    ensures InOrder(LoopStep(s, c))
  {
    DueExact(s.timers, s.pc.t0);
    assert s.due == [] && s.fired + s.due == s.fired;
  }

  lemma SetInOrder(s: State, delay: nat, k: nat)
    requires InOrder(s) && Enabled(s, PostDelayed(delay, k))
    ensures InOrder(Apply(s, PostDelayed(delay, k)))
  {
    var x := Timer(s.now + delay * MS, |s.set_|);
    var r := Apply(s, PostDelayed(delay, k));
    assert x.deadline >= s.now;
    forall i, j | 0 <= i < |r.fired + r.due| && 0 <= j < |r.timers| ensures (r.fired + r.due)[i].deadline <= r.timers[j].deadline {
      if j != k { assert r.timers[j] == s.timers[if j < k then j else j - 1]; }
    }
  }

  lemma StepInOrder(s: State, e: Event)
    requires Tidy(s) && Timely(s) && InOrder(s) && !Past(e)
    ensures InOrder(Next(s, e))
  {
    if e.Step? {
      if s.pc.Pop? {
        PopInOrder(s, e.c);
      } else if s.pc.RunDue? && s.due != [] {
        assert (s.fired + [s.due[0]]) + s.due[1..] == s.fired + s.due;
      } else {
        LoopLeavesTimers(s, e.c);
        LoopKeepsHistory(s, e);
      }
    } else if e.PostDelayed? && Enabled(s, e) {
      SetInOrder(s, e.delay, e.place);
    }
  }

  lemma {:induction false} RunInOrder(now: int, evs: seq<Event>)
    requires NothingPast(evs)
    ensures Inv(Exec(Init(now), evs)) && InOrder(Exec(Init(now), evs))
    decreases |evs|
  {
    if evs != [] {
      RunInOrder(now, evs[..|evs| - 1]);
      StepInOrder(Exec(Init(now), evs[..|evs| - 1]), evs[|evs| - 1]);
      StepInv(Exec(Init(now), evs[..|evs| - 1]), evs[|evs| - 1]);
    }
  }

  /** Over every run without negative delays timers fire in the order of their deadlines, and
      none that waits is due before one that has fired. */
  lemma FiredInOrder(now: int, evs: seq<Event>)
    requires NothingPast(evs)
    ensures var s := Exec(Init(now), evs);
      SortedTimers(s.fired) && forall i, j :: 0 <= i < |s.fired| && 0 <= j < |s.timers| ==> s.fired[i].deadline <= s.timers[j].deadline
  {
    RunInOrder(now, evs);
    var s := Exec(Init(now), evs);
    assert forall i :: 0 <= i < |s.fired| ==> (s.fired + s.due)[i] == s.fired[i];
  }

  lemma {:induction false} RunDueSorted(s: State, evs: seq<Event>)
    requires Inv(s) && SortedTimers(s.due)
    ensures Inv(Exec(s, evs)) && SortedTimers(Exec(s, evs).due)
    decreases |evs|
  {
    if evs != [] {
      RunDueSorted(s, evs[..|evs| - 1]);
      StepInv(Exec(s, evs[..|evs| - 1]), evs[|evs| - 1]);
      DueStaysSorted(Exec(s, evs[..|evs| - 1]), evs[|evs| - 1]);
    }
  }

  lemma DueStaysSorted(s: State, e: Event)
    requires SortedTimers(s.timers) && SortedTimers(s.due)
    ensures SortedTimers(Next(s, e).due)
  {}

  /** Over every run the timers that one pass has taken fire in the order of their deadlines. */
  lemma EarliestFirst(s: State, c: Choice)
    requires Reachable(s) && s.pc.RunDue? && s.due != []
    ensures var r := LoopStep(s, c);
      |r.fired| == |s.fired| + 1 && r.fired[|s.fired|] in s.due
      && forall i :: 0 <= i < |r.due| ==> r.fired[|s.fired|].deadline <= r.due[i].deadline
  {
    var now, evs :| s == Exec(Init(now), evs);
    assert Inv(Init(now));
    RunDueSorted(Init(now), evs);
  }

  const Plain: Choice := Choice(false, false)

  lemma ReachNext(s: State, e: Event)
    requires Reachable(s)
    ensures Reachable(Next(s, e))
  {
    ReachMore(s, [e]);
    assert Exec(s, [e]) == Next(Exec(s, []), e) by { assert [e][..0] == []; }
  }

  /** The steps of one pass with a due timer u and nothing else to do. */
  lemma PassFires(s: State, u: Timer)
    requires Reachable(s) && s.pc.CheckExit? && !s.exit && s.token == 0 && s.tasks == [] && s.local == [] && s.due == []
    requires s.timers == [u] && u.deadline <= s.now
    ensures exists r :: Reachable(r) && r == s.(pc := RunDue, timers := [], fired := s.fired + [u], firedAt := s.firedAt + [s.now])
  {
    var a := s.(pc := PeekExit);
    var b := s.(pc := Compute);
    var c := s.(pc := Enter(0, s.now));
    var d := s.(pc := Expire);
    var e := s.(pc := Pop(s.now));
    var f := s.(pc := RunDue, timers := [], due := [u]);
    ReachNext(s, Step(Plain));
    ReachNext(a, Step(Plain));
    ReachNext(b, Step(Plain));
    ReachNext(c, Step(Plain));
    ReachNext(d, Step(Plain));
    assert DueCount([u], s.now) == 1 by { assert DueCount([u][1..], s.now) == 0; }
    assert LoopStep(e, Plain) == f;
    ReachNext(e, Step(Plain));
    ReachNext(f, Step(Plain));
  }

  /** The steps from there to the next pass. */
  lemma PassEnds(s: State)
    requires Reachable(s) && s.pc.RunDue? && s.due == [] && s.tasks == [] && s.local == []
    ensures Reachable(s.(pc := CheckExit))
  {
    ReachNext(s, Step(Plain));
    ReachNext(s.(pc := Take), Step(Plain));
    ReachNext(s.(pc := RunTasks), Step(Plain));
  }

  /** A timer that is set in the past, behind one that has fired, fires out of order. */
  lemma PastFiresLate()
    ensures exists s :: Reachable(s) && s.fired == [Timer(0, 0), Timer(-MS, 1)]
  {
    var t, u := Timer(0, 0), Timer(-MS, 1);
    assert Exec(Init(0), []) == Init(0);
    ReachNext(Init(0), PostDelayed(0, 0));
    var a := Init(0).(timers := [t], set_ := [t], notifying := 1);
    assert Inserted([], 0, t) == [t];
    assert Next(Init(0), PostDelayed(0, 0)) == a;
    PassFires(a, t);
    var b := a.(pc := RunDue, timers := [], fired := [t], firedAt := [0]);
    assert a.fired + [t] == [t] && a.firedAt + [0] == [0];
    ReachNext(b, PostDelayed(-1, 0));
    var c := b.(timers := [u], set_ := [t, u], notifying := 2);
    assert Inserted([], 0, u) == [u] && [t] + [u] == [t, u];
    assert Next(b, PostDelayed(-1, 0)) == c;
    PassEnds(c);
    PassFires(c.(pc := CheckExit), u);
  }

  // ---- waiting

  /** The loop waits without limit exactly when nothing is queued, and not at all when a task is. */
  lemma TimeoutExactly(tasks: seq<nat>, timers: seq<Timer>, now: int)
    ensures TimeoutMs(tasks, timers, now) == -1 <==> tasks == [] && timers == []
    ensures tasks != [] ==> TimeoutMs(tasks, timers, now) == 0
  {}

  /** A loop with nothing to do blocks until something happens. */
  lemma IdleBlocks(s: State, c: Choice, d: Choice)
    requires s.pc.Compute? && s.tasks == [] && s.timers == []
    ensures LoopStep(LoopStep(s, c), d).pc == Blocked(-1, s.now, s.now)
    ensures s.token == 0 ==> forall later, e: Choice :: !e.other ==> LoopStep(LoopStep(LoopStep(s, c), d).(now := later), e).pc.Blocked?
  {}

  /** A requested wakeup ends the wait, as does a poster's write. */
  lemma WakeUpEndsWait(s: State, c: Choice)
    requires s.pc.Blocked?
    ensures Apply(s, RequestWakeUp).pc == s.pc && !LoopStep(Apply(s, RequestWakeUp), c).pc.Blocked?
    ensures Enabled(s, Notify) ==> Apply(s, Notify).pc == s.pc && !LoopStep(Apply(s, Notify), c).pc.Blocked?
  {}

  /** A dispatched wakeup is used up: the loop goes on with an empty counter. */
  lemma DrainEmpties(s: State, c: Choice, d: Choice)
    requires s.pc.Drain?
    ensures var r := LoopStep(s, c); if s.token > 0 then r.pc.Drain? && r.token == 0 && LoopStep(r, d).pc.Expire? else r.pc.Expire?
  {}
}
