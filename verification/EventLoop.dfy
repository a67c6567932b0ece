/** The event loop of platform/schedule/eventloop.cc with the eventfd wakeup of
    platform/linux/schedule/watcher/epoll_wakeup.cc.

    Any number of threads post: each updates the queues under the lock (one step) and
    later writes to the eventfd (another step).  The loop computes a timeout, waits,
    drains the eventfd and runs what is ready.  Times are in nanoseconds. */
module EventLoop {

  const MS: int := 1_000_000
  const INT_MAX: int := 0x7FFF_FFFF
  const TOKEN_MAX: nat := 0xFFFF_FFFF_FFFF_FFFE     // an eventfd counter holds no more

  datatype Timer = Timer(deadline: int, id: nat)

  /** Where the loop thread is inside EventLoop::run.  `at` is when the timeout was
      computed and `start` when the wait was entered. */
  datatype Pc =
    | CheckExit
    | PeekExit
    | Compute
    | Enter(ms: int, at: int)
    | Blocked(ms: int, at: int, start: int)
    | Drain
    | Expire
    | Pop(t0: int)
    | RunDue
    | Take
    | RunTasks
    | Stopped

  /** `notifying` counts the posters between their update and their write.  History:
      `posted` tasks and `set` timers so far, `ran` tasks, `fired` timers and when. */
  datatype State = State(
    pc: Pc,
    token: nat,
    notifying: nat,
    exit: bool,
    now: int,
    tasks: seq<nat>,
    timers: seq<Timer>,      // the priority queue, earliest first
    local: seq<nat>,
    due: seq<Timer>,
    posted: nat,
    ran: seq<nat>,
    set_: seq<Timer>,
    fired: seq<Timer>,
    firedAt: seq<int>)

  function Init(now: int): State {
    State(CheckExit, 0, 0, false, now, [], [], [], [], 0, [], [], [], [])
  }

  /** Writing 1 to the eventfd; at the maximum the write fails and changes nothing. */
  function Notified(token: nat): nat { if token >= TOKEN_MAX then token else token + 1 }

  /** computeTimeoutMs under the lock; -1 waits forever. */
  function TimeoutMs(tasks: seq<nat>, timers: seq<Timer>, now: int): int {
    if tasks != [] then 0
    else if timers == [] then -1
    else if timers[0].deadline <= now then 0
    else
      var ms := (timers[0].deadline - now) / MS;
      if ms > INT_MAX then INT_MAX else ms
  }

  predicate SortedTimers(ts: seq<Timer>) {
    forall i, j :: 0 <= i < j < |ts| ==> ts[i].deadline <= ts[j].deadline
  }

  /** How many timers the loop of runExpiredTimers pops. */
  function DueCount(ts: seq<Timer>, now: int): nat
    ensures DueCount(ts, now) <= |ts|
  {
    if ts == [] || ts[0].deadline > now then 0 else 1 + DueCount(ts[1..], now)
  }

  /** What is left to the kernel: other descriptors ready, and whether the wakeup
      descriptor is among the events returned when it is ready. */
  datatype Choice = Choice(other: bool, listed: bool)

  /** The wait returns; the wakeup source is dispatched if it is among the events. */
  function Woken(s: State, c: Choice): State {
    s.(pc := if s.token > 0 && c.listed then Drain else Expire)
  }

  function WaitStep(s: State, c: Choice): State
    requires s.pc.Enter? || s.pc.Blocked?
  {
    match s.pc
    case Enter(ms, at) => if ms == 0 then Woken(s, c) else s.(pc := Blocked(ms, at, s.now))
    case Blocked(ms, at, start) =>
      if s.token > 0 || c.other || (ms >= 0 && s.now >= start + ms * MS) then Woken(s, c) else s
  }

  /** The next step of the loop thread. */
  function LoopStep(s: State, c: Choice): State {
    match s.pc
    case CheckExit => s.(pc := if s.exit then Stopped else PeekExit)
    case PeekExit => s.(pc := if s.exit then Enter(0, s.now) else Compute)
    case Compute => s.(pc := Enter(TimeoutMs(s.tasks, s.timers, s.now), s.now))
    case Enter(_, _) => WaitStep(s, c)
    case Blocked(_, _, _) => WaitStep(s, c)
    case Drain => if s.token > 0 then s.(token := 0) else s.(pc := Expire)
    case Expire => s.(pc := Pop(s.now))
    case Pop(t0) =>
      var n := DueCount(s.timers, t0);
      s.(due := s.timers[..n], timers := s.timers[n..], pc := RunDue)
    case RunDue =>
      if s.due == [] then s.(pc := Take)
      else s.(due := s.due[1..], fired := s.fired + [s.due[0]], firedAt := s.firedAt + [s.now])
    case Take => s.(local := s.tasks, tasks := [], pc := RunTasks)
    case RunTasks =>
      if s.local == [] then s.(pc := CheckExit)
      else s.(local := s.local[1..], ran := s.ran + [s.local[0]])
    case Stopped => s
  }

  datatype Event =
    | Post
    | PostDelayed(delay: int, place: nat)     // where the heap will order it among equals
    | RequestExit
    | Notify                                  // a poster's write after its update
    | RequestWakeUp
    | Tick(d: nat)
    | Interrupt                               // epoll_wait restarts with the full timeout
    | Step(c: Choice)

  function Inserted(ts: seq<Timer>, k: nat, t: Timer): seq<Timer>
    requires k <= |ts|
  {
    ts[..k] + [t] + ts[k..]
  }

  predicate Enabled(s: State, e: Event) {
    match e
    case PostDelayed(delay, k) =>
      k <= |s.timers| && SortedTimers(Inserted(s.timers, k, Timer(s.now + delay * MS, |s.set_|)))
    case Notify => s.notifying > 0
    case Interrupt => s.pc.Blocked?
    case _ => true
  }

  function Apply(s: State, e: Event): State
    requires Enabled(s, e)
  {
    match e
    case Post => s.(tasks := s.tasks + [s.posted], posted := s.posted + 1, notifying := s.notifying + 1)
    case PostDelayed(delay, k) =>
      var t := Timer(s.now + delay * MS, |s.set_|);
      s.(timers := Inserted(s.timers, k, t), set_ := s.set_ + [t], notifying := s.notifying + 1)
    case RequestExit => s.(exit := true, notifying := s.notifying + 1)
    case Notify => s.(notifying := s.notifying - 1, token := Notified(s.token))
    case RequestWakeUp => s.(token := Notified(s.token))
    case Tick(d) => s.(now := s.now + d)
    case Interrupt => s.(pc := s.pc.(start := s.now))
    case Step(c) => LoopStep(s, c)
  }

  /** Events that cannot happen change nothing. */
  function Next(s: State, e: Event): State { if Enabled(s, e) then Apply(s, e) else s }

  function Exec(s: State, evs: seq<Event>): State
    decreases |evs|
  {
    if evs == [] then s else Next(Exec(s, evs[..|evs| - 1]), evs[|evs| - 1])
  }

  /** The states that some interleaving reaches. */
  ghost predicate Reachable(s: State) { exists now, evs :: s == Exec(Init(now), evs) }

  // ---- no lost wakeup, no oversleep

  /** A wakeup is in the eventfd, or a poster is about to write one. */
  predicate WakeupDue(s: State) { s.token > 0 || s.notifying > 0 }

  /** The timer is due before the wait that was computed at `at` ends. */
  predicate DueBefore(t: Timer, ms: int, at: int) { ms < 0 || t.deadline < at + ms * MS }

  predicate TimersCovered(s: State, ms: int, at: int) {
    forall i :: 0 <= i < |s.timers| && DueBefore(s.timers[i], ms, at) ==> WakeupDue(s)
  }

  /** Whatever came up since the loop looked will wake it. */
  predicate Covered(s: State, ms: int, at: int) {
    ms == 0 || ((s.tasks != [] || s.exit ==> WakeupDue(s)) && TimersCovered(s, ms, at))
  }

  predicate Awake(s: State) {
    match s.pc
    case Compute => s.exit ==> WakeupDue(s)
    case Enter(ms, at) => -1 <= ms <= INT_MAX && at <= s.now && Covered(s, ms, at)
    case Blocked(ms, at, start) => -1 <= ms <= INT_MAX && ms != 0 && at <= start <= s.now && Covered(s, ms, at)
    case _ => true
  }

  /** The timeout ends no later than the earliest deadline, and less than a millisecond
      before it unless it is cut to INT_MAX. */
  lemma TimeoutTight(timers: seq<Timer>, now: int)
    requires timers != [] && SortedTimers(timers)
    ensures var ms, first := TimeoutMs([], timers, now), timers[0].deadline;
      && 0 <= ms <= INT_MAX && (ms == 0 <==> first < now + MS)
      && (ms > 0 ==> now + ms * MS <= first)
      && (0 < ms < INT_MAX ==> first < now + (ms + 1) * MS)
      && (ms > 0 ==> forall i :: 0 <= i < |timers| ==> !DueBefore(timers[i], ms, now))
  {
    var first := timers[0].deadline;
    assert forall i :: 0 <= i < |timers| ==> first <= timers[i].deadline;
  }

  lemma LoopKeepsAwake(s: State, c: Choice)
    requires SortedTimers(s.timers) && Awake(s)
    ensures Awake(LoopStep(s, c))
  {
    if s.pc.Compute? && s.timers != [] { TimeoutTight(s.timers, s.now); }
  }

  lemma PostKeepsAwake(s: State, e: Event)
    requires Enabled(s, e) && !e.Step? && Awake(s)
    ensures Awake(Apply(s, e))
  {}

  // ---- order and conservation

  function Iota(n: nat): seq<nat> { seq(n, i => i) }

  /** Timers as often as they occur. */
  function Count(ts: seq<Timer>, t: Timer): nat {
    if ts == [] then 0 else Count(ts[..|ts| - 1], t) + (if ts[|ts| - 1] == t then 1 else 0)
  }

  lemma {:induction false} CountJoin(a: seq<Timer>, b: seq<Timer>, t: Timer)
    ensures Count(a + b, t) == Count(a, t) + Count(b, t)
    decreases |b|
  {
    if b == [] {
      assert a + b == a;
    } else {
      assert (a + b)[..|a + b| - 1] == a + b[..|b| - 1];
      CountJoin(a, b[..|b| - 1], t);
    }
  }

  lemma CountSplit(ts: seq<Timer>, k: nat, t: Timer)
    requires k <= |ts|
    ensures Count(ts, t) == Count(ts[..k], t) + Count(ts[k..], t)
  {
    assert ts == ts[..k] + ts[k..];
    CountJoin(ts[..k], ts[k..], t);
  }

  lemma CountInserted(ts: seq<Timer>, k: nat, x: Timer, t: Timer)
    requires k <= |ts|
    ensures Count(Inserted(ts, k, x), t) == Count(ts, t) + Count([x], t)
  {
    CountSplit(ts, k, t);
    CountJoin(ts[..k], [x], t);
    CountJoin(ts[..k] + [x], ts[k..], t);
  }

  function Timers(s: State, t: Timer): nat { Count(s.fired, t) + Count(s.due, t) + Count(s.timers, t) }

  /** The local lists are in use only where they are run. */
  predicate Tidy(s: State) {
    && SortedTimers(s.timers)
    && (s.local != [] ==> s.pc.RunTasks?) && (s.due != [] ==> s.pc.RunDue?)
    && s.ran + s.local + s.tasks == Iota(s.posted)
  }

  /** Timers fire no earlier than their deadlines. */
  predicate Timely(s: State) {
    && (s.pc.Pop? ==> s.pc.t0 <= s.now)
    && (forall i :: 0 <= i < |s.due| ==> s.due[i].deadline <= s.now)
    && |s.firedAt| == |s.fired|
    && forall i :: 0 <= i < |s.fired| ==> s.fired[i].deadline <= s.firedAt[i]
  }

  lemma {:induction false} DueExact(ts: seq<Timer>, now: int)
    requires SortedTimers(ts)
    ensures var n := DueCount(ts, now);
      (forall i :: 0 <= i < n ==> ts[i].deadline <= now) && (forall i :: n <= i < |ts| ==> ts[i].deadline > now)
    decreases |ts|
  {
    if ts != [] && ts[0].deadline <= now {
      DueExact(ts[1..], now);
      var n := DueCount(ts[1..], now);
      forall i | 0 <= i < |ts| ensures i < n + 1 <==> ts[i].deadline <= now {
        if i > 0 { assert ts[i] == ts[1..][i - 1]; }
      }
    }
  }

  lemma PopKeepsTidy(s: State, c: Choice)
    requires Tidy(s) && Timely(s) && s.pc.Pop?
    ensures Tidy(LoopStep(s, c)) && Timely(LoopStep(s, c))
  {
    DueExact(s.timers, s.pc.t0);
  }

  lemma TasksKeepTidy(s: State, c: Choice)
    requires Tidy(s) && Timely(s) && (s.pc.RunTasks? || s.pc.Take?)
    ensures Tidy(LoopStep(s, c)) && Timely(LoopStep(s, c))
  {
    if s.pc.Take? {
      assert s.ran + [] + s.tasks == s.ran + s.tasks + [];
    } else if s.local != [] {
      assert s.ran + s.local == (s.ran + [s.local[0]]) + s.local[1..];
    }
  }

  lemma LoopKeepsTidy(s: State, c: Choice)
    requires Tidy(s) && Timely(s)
    ensures Tidy(LoopStep(s, c)) && Timely(LoopStep(s, c))
  {
    if s.pc.Pop? { PopKeepsTidy(s, c); }
    else if s.pc.RunTasks? || s.pc.Take? { TasksKeepTidy(s, c); }
    else if s.pc.RunDue? { FiringKeepsTidy(s, c); }
    else { LoopLeavesTimers(s, c); }
  }

  lemma FiringKeepsTidy(s: State, c: Choice)
    requires Tidy(s) && Timely(s) && s.pc.RunDue?
    ensures Tidy(LoopStep(s, c)) && Timely(LoopStep(s, c))
  {}

  lemma PostKeepsTidy(s: State, e: Event)
    requires Enabled(s, e) && !e.Step? && Tidy(s) && Timely(s)
    ensures Tidy(Apply(s, e)) && Timely(Apply(s, e))
  {
    if e.Post? {
      assert Iota(s.posted + 1) == Iota(s.posted) + [s.posted];
      assert s.ran + s.local + (s.tasks + [s.posted]) == s.ran + s.local + s.tasks + [s.posted];
    }
  }

  lemma SetConserves(s: State, delay: int, k: nat, t: Timer)
    requires Enabled(s, PostDelayed(delay, k))
    ensures var r := Apply(s, PostDelayed(delay, k)); Timers(r, t) - Count(r.set_, t) == Timers(s, t) - Count(s.set_, t)
  {
    var x := Timer(s.now + delay * MS, |s.set_|);
    CountInserted(s.timers, k, x, t);
    CountJoin(s.set_, [x], t);
  }

  lemma PopConserves(s: State, c: Choice, t: Timer)
    requires s.pc.Pop? && s.due == []
    ensures Timers(LoopStep(s, c), t) == Timers(s, t)
  {
    CountSplit(s.timers, DueCount(s.timers, s.pc.t0), t);
  }

  lemma FireConserves(s: State, c: Choice, t: Timer)
    requires s.pc.RunDue? && s.due != []
    ensures Timers(LoopStep(s, c), t) == Timers(s, t)
  {
    CountSplit(s.due, 1, t);
    assert s.due[..1] == [s.due[0]];
    CountJoin(s.fired, [s.due[0]], t);
  }

  lemma StepConserves(s: State, e: Event, t: Timer)
    requires s.due != [] ==> s.pc.RunDue?
    ensures var r := Next(s, e); Timers(r, t) - Count(r.set_, t) == Timers(s, t) - Count(s.set_, t)
  {
    if Enabled(s, e) {
      if e.PostDelayed? { SetConserves(s, e.delay, e.place, t); }
      else if e.Step? && s.pc.Pop? { PopConserves(s, e.c, t); }
      else if e.Step? && s.pc.RunDue? && s.due != [] { FireConserves(s, e.c, t); }
      else if e.Step? { LoopLeavesTimers(s, e.c); }
    }
  }

  lemma LoopLeavesTimers(s: State, c: Choice)
    requires !s.pc.Pop? && (s.pc.RunDue? ==> s.due == [])
    ensures var r := LoopStep(s, c); r.timers == s.timers && r.due == s.due && r.fired == s.fired && r.firedAt == s.firedAt && r.set_ == s.set_
  {}

  predicate Inv(s: State) { Awake(s) && Tidy(s) && Timely(s) }

  lemma StepInv(s: State, e: Event)
    requires Inv(s)
    ensures Inv(Next(s, e))
  {
    if Enabled(s, e) {
      if e.Step? {
        LoopKeepsAwake(s, e.c);
        LoopKeepsTidy(s, e.c);
      } else {
        PostKeepsAwake(s, e);
        PostKeepsTidy(s, e);
      }
    }
  }

  lemma {:induction false} RunInv(s: State, evs: seq<Event>, t: Timer)
    requires Inv(s)
    ensures var r := Exec(s, evs); Inv(r) && Timers(r, t) - Count(r.set_, t) == Timers(s, t) - Count(s.set_, t)
    decreases |evs|
  {
    if evs != [] {
      RunInv(s, evs[..|evs| - 1], t);
      StepInv(Exec(s, evs[..|evs| - 1]), evs[|evs| - 1]);
      StepConserves(Exec(s, evs[..|evs| - 1]), evs[|evs| - 1], t);
    }
  }

  lemma ReachableInv(s: State, t: Timer)
    requires Reachable(s)
    ensures Inv(s) && Timers(s, t) == Count(s.set_, t)
  {
    var now, evs :| s == Exec(Init(now), evs);
    assert Inv(Init(now));
    RunInv(Init(now), evs, t);
  }

  // ---- the theorems

  /** Something that the blocked loop should attend to before its wait is over. */
  predicate WorkBefore(s: State, ms: int, at: int) {
    s.tasks != [] || s.exit || exists i :: 0 <= i < |s.timers| && DueBefore(s.timers[i], ms, at)
  }

  /** No lost wakeup: a loop blocked over a queued task, an exit request, or a timer due
      before the computed wake time has a wakeup in its eventfd, or a poster has still
      to write one. */
  lemma NoLostWakeup(s: State)
    requires Reachable(s) && s.pc.Blocked? && WorkBefore(s, s.pc.ms, s.pc.at)
    ensures s.token > 0 || s.notifying > 0
  {
    ReachableInv(s, Timer(0, 0));
  }

  /** Once every poster has written, the wait returns whatever else happens. */
  lemma WorkEndsWait(s: State, c: Choice)
    requires Reachable(s) && s.pc.Blocked? && WorkBefore(s, s.pc.ms, s.pc.at) && s.notifying == 0
    ensures !LoopStep(s, c).pc.Blocked?
  {
    NoLostWakeup(s);
  }

  /** No oversleep: with no wakeup under way, the wait ends no later after a timer's
      deadline than it began after the timeout was computed. */
  lemma NoOversleep(s: State, i: nat)
    requires Reachable(s) && s.pc.Blocked? && !WakeupDue(s) && i < |s.timers|
    ensures s.pc.ms > 0 && s.pc.start + s.pc.ms * MS <= s.timers[i].deadline + (s.pc.start - s.pc.at)
    ensures forall c, later :: later >= s.timers[i].deadline + (s.pc.start - s.pc.at) ==>
      !LoopStep(s.(now := later), c).pc.Blocked?
  {
    ReachableInv(s, Timer(0, 0));
    assert !DueBefore(s.timers[i], s.pc.ms, s.pc.at);
  }

  /** Tasks run in the order of their posts, each once; a loop about to wait has run
      all that it took. */
  lemma TasksInOrder(s: State)
    requires Reachable(s)
    ensures s.ran + s.local + s.tasks == Iota(s.posted)
    ensures s.pc.Enter? || s.pc.Blocked? ==> s.local == [] && s.due == []
  {
    ReachableInv(s, Timer(0, 0));
  }

  /** Every timer set is fired, about to be fired, or waiting, and none fires early. */
  lemma TimersKept(s: State, t: Timer)
    requires Reachable(s)
    ensures Count(s.fired, t) + Count(s.due, t) + Count(s.timers, t) == Count(s.set_, t)
    ensures |s.firedAt| == |s.fired| && forall i :: 0 <= i < |s.fired| ==> s.fired[i].deadline <= s.firedAt[i]
  {
    ReachableInv(s, t);
  }
}
