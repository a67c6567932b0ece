/** The work-stealing runtime of platform/schedule: hive.cc, io_worker.cc and
    compute_worker.cc as one transition system.

    Every access to a shared queue or flag is one step, and the steps of all workers
    and posters interleave freely.  A steal is two steps, the claim and the read of the slot,
    between which the owner can overwrite it. */
module Hive {
  import opened LocalDeque

  /** What was posted, and where it may run. */
  datatype Kind =
    | Io                                      // postIO
    | Compute                                 // postCompute
    | Private(worker: nat)                    // postToWorker, postPrivate
    | Delayed(worker: nat, deadline: int)     // postDelayed, addTimer
    | Local(worker: nat)                      // postToLocal

  /** An accepted post; its id is its position among the accepted posts. */
  datatype Job = Job(id: nat, kind: Kind)

  datatype Options = Options(
    maxSize: nat,            // of the local deque
    localBatch: nat,
    globalBatch: nat,
    tries: nat,
    willSteal: bool)

  /** Which loop a worker comes back to when the running task returns. */
  datatype Resume =
    | InPrivates
    | InTimers(t0: int)
    | InLocal(ran: nat)
    | InHarvest
    | InSteal(victim: nat, left: nat, got: nat, try: nat)

  /** Where a worker is inside IOWorker::run. */
  datatype Pc =
    | Check
    | Poll
    | Drain
    | Distribute
    | Privates
    | Timers(t0: int)
    | Gate
    | Batch(ran: nat)
    | Harvest
    | Enqueue
    | Steal(try: nat)
    | StealFrom(victim: nat, left: nat, got: nat, try: nat)
    | Claim(victim: nat, t: nat, left: nat, got: nat, try: nat)   // of the victim's index t, not read
    | Offer(back: Resume)
    | Running(back: Resume)
    | Exited

  datatype Worker = Worker(
    opt: Options,
    pc: Pc,
    stop: bool,
    inbound: seq<Job>,       // the MPSC queue
    drained: seq<Job>,       // taken from it, not yet distributed
    privates: seq<Job>,
    timers: seq<Job>,
    local: Deque<Job>,
    batch: seq<Job>,         // taken from the global pool, not yet enqueued
    hand: seq<Job>)          // the one task about to be pushed or run

  datatype ComputePc = CCheck | CPop | CLoop | CRunning | CExited

  datatype Computer = Computer(batchSize: nat, pc: ComputePc, stop: bool, batch: seq<Job>)

  /** What all threads share, and the history: `started` lists the tasks whose execution
      has begun, `times` when, `dropped` the tasks that a stopping worker threw away, `lost`
      those that a push destroyed in their slots. */
  datatype Shared = Shared(
    micro: seq<Job>,
    compute: seq<Job>,
    exit: bool,
    now: int,
    started: seq<Job>,
    times: seq<int>,
    dropped: seq<Job>,
    lost: seq<Job>)

  datatype State = State(sh: Shared, workers: seq<Worker>, computers: seq<Computer>, accepted: seq<Job>)

  function Fresh(opt: Options): Worker { Worker(opt, Check, false, [], [], [], [], Empty(opt.maxSize), [], []) }

  function Init(opts: seq<Options>, batchSizes: seq<nat>, now: int): State {
    State(Shared([], [], false, now, [], [], [], []),
          seq(|opts|, i requires 0 <= i < |opts| => Fresh(opts[i])),
          seq(|batchSizes|, i requires 0 <= i < |batchSizes| => Computer(batchSizes[i], CCheck, false, [])),
          [])
  }

  /** What the code leaves to chance: which equally early timer is on top, which victim
      is drawn, how many steals its approximate size allows, which races are lost. */
  datatype Choice = Choice(k: nat, n: nat, lost: bool)

  datatype Out = Out(w: Worker, sh: Shared)

  function Begin(sh: Shared, j: Job): Shared {
    sh.(started := sh.started + [j], times := sh.times + [sh.now])
  }

  function AsSeq(x: Option<Job>): seq<Job> { if x.None? then [] else [x.value] }

  /** A push on the deque destroys what its slot holds. */
  function Losing(sh: Shared, d: Deque<Job>): Shared { sh.(lost := sh.lost + AsSeq(At(d, d.bottom))) }

  predicate Stopping(w: Worker, sh: Shared) { w.stop || sh.exit }

  function Deadline(j: Job): int { if j.kind.Delayed? then j.kind.deadline else 0 }

  /** timers[k] may be on top of the priority queue. */
  predicate Earliest(timers: seq<Job>, k: nat) {
    k < |timers| && forall i :: 0 <= i < |timers| ==> Deadline(timers[k]) <= Deadline(timers[i])
  }

  function Min(a: nat, b: nat): nat { if a < b then a else b }

  // ---- one step of a worker

  /** drainInbound and runPrivateTasks. */
  function MailStep(w: Worker, sh: Shared): Out
    requires w.pc.Drain? || w.pc.Distribute? || w.pc.Privates?
  {
    match w.pc
    case Drain => Out(w.(drained := w.inbound, inbound := [], pc := Distribute), sh)
    case Distribute =>
      if w.drained == [] then Out(w.(pc := Privates), sh)
      else if w.drained[0].kind.Delayed? then Out(w.(drained := w.drained[1..], timers := w.timers + [w.drained[0]]), sh)
      else Out(w.(drained := w.drained[1..], privates := w.privates + [w.drained[0]]), sh)
    case Privates =>
      if w.privates == [] then Out(w.(pc := Timers(sh.now)), sh)
      else Out(w.(privates := w.privates[1..], pc := Running(InPrivates)), Begin(sh, w.privates[0]))
  }

  /** runExpiredTimers, with the time it read on entry. */
  function TimerStep(w: Worker, sh: Shared, c: Choice): Out
    requires w.pc.Timers?
  {
    if w.timers == [] then Out(w.(pc := Gate), sh)
    else if !Earliest(w.timers, c.k) then Out(w, sh)
    else if Deadline(w.timers[c.k]) > w.pc.t0 then Out(w.(pc := Gate), sh)
    else Out(w.(timers := w.timers[..c.k] + w.timers[c.k + 1..], pc := Running(InTimers(w.pc.t0))), Begin(sh, w.timers[c.k]))
  }

  /** runLocalBatch; the slot can be empty, and then nothing is called. */
  function BatchStep(w: Worker, sh: Shared): Out
    requires w.pc.Batch?
  {
    if w.pc.ran < w.opt.localBatch && Size(w.local) > 0 then
      var x, back := At(w.local, w.local.bottom - 1), InLocal(w.pc.ran + 1);
      if x.Some? then Out(w.(local := Popped(w.local), pc := Running(back)), Begin(sh, x.value))
      else Out(w.(local := Popped(w.local), pc := AfterReturn(back, Stopping(w, sh), sh.now)), sh)
    else Out(w.(pc := if w.pc.ran > 0 then Check else Harvest), sh)
  }

  /** harvestGlobalBatch up to the push. */
  function HarvestStep(w: Worker, sh: Shared): Out
    requires w.pc.Harvest? || w.pc.Enqueue?
  {
    match w.pc
    case Harvest =>
      var n := Min(w.opt.globalBatch, |sh.micro|);
      if n == 0 then Out(w.(pc := if w.opt.willSteal then Steal(0) else Check), sh)
      else Out(w.(batch := sh.micro[..n], pc := Enqueue), sh.(micro := sh.micro[n..]))
    case Enqueue =>
      if w.batch == [] then Out(w.(pc := Check), sh)
      else Out(w.(batch := w.batch[1..], hand := [w.batch[0]], pc := Offer(InHarvest)), sh)
  }

  /** The loop that goes on once the task in hand is pushed. */
  function AfterPush(back: Resume): Pc {
    if back.InSteal? then StealFrom(back.victim, back.left, back.got + 1, back.try) else Enqueue
  }

  /** Pushing the task in hand on the local deque, or running it when that is full. */
  function OfferStep(w: Worker, sh: Shared): Out
    requires w.pc.Offer?
  {
    if w.hand == [] then Out(w, sh)
    else if HasRoom(w.local) then
      Out(w.(local := Pushed(w.local, w.hand[0]), hand := [], pc := AfterPush(w.pc.back)), Losing(sh, w.local))
    else Out(w.(hand := [], pc := Running(w.pc.back)), Begin(sh, w.hand[0]))
  }

  /** Where the worker goes on when the running task returns; all loops but the
      stealing one look at the stop flags. */
  function AfterReturn(back: Resume, stopping: bool, now: int): Pc {
    match back
    case InPrivates => if stopping then Timers(now) else Privates
    case InTimers(t0) => if stopping then Gate else Timers(t0)
    case InLocal(ran) => if stopping then Check else Batch(ran)
    case InHarvest => if stopping then Check else Enqueue
    case InSteal(v, left, got, try) => StealFrom(v, left, got + 1, try)
  }

  /** The task returns; a worker that is stopping throws the rest of its batch away. */
  function ReturnStep(w: Worker, sh: Shared): Out
    requires w.pc.Running?
  {
    var pc := AfterReturn(w.pc.back, Stopping(w, sh), sh.now);
    if w.pc.back.InHarvest? && Stopping(w, sh) then
      Out(w.(batch := [], pc := pc), sh.(dropped := sh.dropped + w.batch))
    else Out(w.(pc := pc), sh)
  }

  predicate InTransit(p: Pc) {
    p.Check? || p.Poll? || p.Gate? || p.Steal? || p.StealFrom? || p.Claim? || p.Exited?
  }

  /** The decisions of run and stealOnce that touch no queue. */
  function Transit(w: Worker, sh: Shared, me: nat, n: nat, c: Choice): Pc
    requires InTransit(w.pc)
  {
    match w.pc
    case Check => if Stopping(w, sh) then Exited else Poll
    case Poll => Drain
    case Gate => if Stopping(w, sh) then Exited else Batch(0)
    case Steal(try) =>
      if n <= 1 || try >= w.opt.tries then Check
      else if c.k >= n then w.pc
      else if c.k == me then Steal(try + 1)
      else StealFrom(c.k, c.n, 0, try)
    case StealFrom(_, _, got, try) => if got > 0 then Check else Steal(try + 1)
    case _ => w.pc
  }

  /** Every step that concerns no other worker. */
  function OwnStep(w: Worker, sh: Shared, me: nat, n: nat, c: Choice): Out {
    if InTransit(w.pc) then Out(w.(pc := Transit(w, sh, me, n, c)), sh)
    else if w.pc.Drain? || w.pc.Distribute? || w.pc.Privates? then MailStep(w, sh)
    else if w.pc.Timers? then TimerStep(w, sh, c)
    else if w.pc.Batch? then BatchStep(w, sh)
    else if w.pc.Offer? then OfferStep(w, sh)
    else if w.pc.Running? then ReturnStep(w, sh)
    else HarvestStep(w, sh)
  }

  /** The worker is about to call tryStealTop, and the claim will succeed. */
  predicate WillSteal(s: State, me: nat, c: Choice)
    requires me < |s.workers|
  {
    var p := s.workers[me].pc;
    p.StealFrom? && p.left > 0 && !c.lost && p.victim < |s.workers| && p.victim != me && Size(s.workers[p.victim].local) > 0
  }

  /** The compare-and-swap of tryStealTop. */
  function ClaimStep(s: State, me: nat): State
    requires me < |s.workers| && WillSteal(s, me, Choice(0, 0, false))
  {
    var w := s.workers[me];
    var p := w.pc;
    var v := s.workers[p.victim];
    s.(workers := s.workers[p.victim := v.(local := Claimed(v.local))]
                           [me := w.(pc := Claim(p.victim, v.local.top, p.left - 1, p.got, p.try))])
  }

  /** The worker has claimed an index of another's deque. */
  predicate Claiming(s: State, me: nat)
    requires me < |s.workers|
  {
    s.workers[me].pc.Claim? && s.workers[me].pc.victim < |s.workers| && s.workers[me].pc.victim != me
  }

  /** What the claimed slot holds comes into the thief's hand; when it holds nothing the
      push and the call do nothing. */
  function ReadStep(s: State, me: nat): State
    requires me < |s.workers| && Claiming(s, me)
  {
    var w := s.workers[me];
    var p := w.pc;
    var v := s.workers[p.victim];
    var x := At(v.local, p.t);
    s.(workers := s.workers[p.victim := v.(local := Read(v.local, p.t))]
                           [me := w.(hand := AsSeq(x), pc := if x.Some? then Offer(InSteal(p.victim, p.left, p.got, p.try))
                                                            else StealFrom(p.victim, p.left, p.got + 1, p.try))])
  }

  function WorkerStep(s: State, me: nat, c: Choice): State
    requires me < |s.workers|
  {
    if WillSteal(s, me, c) then ClaimStep(s, me)
    else if Claiming(s, me) then ReadStep(s, me)
    else
      var o := OwnStep(s.workers[me], s.sh, me, |s.workers|, c);
      s.(workers := s.workers[me := o.w], sh := o.sh)
  }

  // ---- compute workers

  datatype COut = COut(w: Computer, sh: Shared)

  /** ComputeWorker::run with waitPopBatch. */
  function ComputeStep(w: Computer, sh: Shared): COut {
    match w.pc
    case CCheck => COut(w.(pc := if w.stop || sh.exit then CExited else CPop), sh)
    case CPop =>
      var n := Min(w.batchSize, |sh.compute|);
      if n > 0 then COut(w.(batch := sh.compute[..n], pc := CLoop), sh.(compute := sh.compute[n..]))
      else if w.batchSize == 0 || sh.exit then COut(w.(pc := CCheck), sh)
      else COut(w, sh)
    case CLoop =>
      if w.batch == [] then COut(w.(pc := CCheck), sh)
      else if w.stop || sh.exit then COut(w.(batch := [], pc := CCheck), sh.(dropped := sh.dropped + w.batch))
      else COut(w.(batch := w.batch[1..], pc := CRunning), Begin(sh, w.batch[0]))
    case CRunning => COut(w.(pc := CLoop), sh)
    case CExited => COut(w, sh)
  }

  // ---- posts

  function Accept(s: State, kind: Kind): Job { Job(|s.accepted|, kind) }

  function PostMicro(s: State, kind: Kind): State {
    var j := Accept(s, kind);
    s.(sh := s.sh.(micro := s.sh.micro + [j]), accepted := s.accepted + [j])
  }

  function PostInbound(s: State, i: nat, kind: Kind): State
    requires i < |s.workers|
  {
    var j := Accept(s, kind);
    s.(workers := s.workers[i := s.workers[i].(inbound := s.workers[i].inbound + [j])], accepted := s.accepted + [j])
  }

  /** postToLocal on the owner's thread: the local deque, or the global pool when full. */
  function PostLocal(s: State, i: nat): State
    requires i < |s.workers|
  {
    var w, j := s.workers[i], Accept(s, Local(i));
    if HasRoom(w.local) then
      s.(workers := s.workers[i := w.(local := Pushed(w.local, j))], sh := Losing(s.sh, w.local), accepted := s.accepted + [j])
    else PostMicro(s, Local(i))
  }

  datatype Event =
    | PostIO
    | PostCompute
    | PostTo(worker: nat)
    | AddTimer(worker: nat, deadline: int)    // postDelayed: the clock it read plus max(delay, 0)
    | PostToLocal(worker: nat)
    | RequestStop(worker: nat)
    | StopComputer(computer: nat)
    | RequestExit
    | Tick(d: nat)
    | Turn(worker: nat, c: Choice)
    | ComputeTurn(computer: nat)

  /** Posts to workers that do not exist are refused and change nothing; a worker's own
      thread posts locally only while it runs a task or dispatches events. */
  function Apply(s: State, e: Event): State {
    match e
    case PostIO => PostMicro(s, Io)
    case PostCompute =>
      var j := Accept(s, Compute);
      s.(sh := s.sh.(compute := s.sh.compute + [j]), accepted := s.accepted + [j])
    case PostTo(i) => if i < |s.workers| then PostInbound(s, i, Private(i)) else s
    case AddTimer(i, deadline) => if i < |s.workers| then PostInbound(s, i, Delayed(i, deadline)) else s
    case PostToLocal(i) =>
      if i < |s.workers| && (s.workers[i].pc.Running? || s.workers[i].pc.Poll?) then PostLocal(s, i) else s
    case RequestStop(i) => if i < |s.workers| then s.(workers := s.workers[i := s.workers[i].(stop := true)]) else s
    case StopComputer(i) => if i < |s.computers| then s.(computers := s.computers[i := s.computers[i].(stop := true)]) else s
    case RequestExit => s.(sh := s.sh.(exit := true))
    case Tick(d) => s.(sh := s.sh.(now := s.sh.now + d))
    case Turn(i, c) => if i < |s.workers| then WorkerStep(s, i, c) else s
    case ComputeTurn(i) =>
      if i < |s.computers| then
        var o := ComputeStep(s.computers[i], s.sh);
        s.(computers := s.computers[i := o.w], sh := o.sh)
      else s
  }

  function Exec(s: State, evs: seq<Event>): State
    decreases |evs|
  {
    if evs == [] then s else Apply(Exec(s, evs[..|evs| - 1]), evs[|evs| - 1])
  }
}
