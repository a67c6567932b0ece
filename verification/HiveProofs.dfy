/** What every run of the work-stealing runtime keeps. */
module HiveProofs {
  import opened Hive
  import opened LocalDeque
  import TaskDeque

  // ---- counting

  function Count(xs: seq<Job>, j: Job): nat {
    if xs == [] then 0 else Count(xs[..|xs| - 1], j) + (if xs[|xs| - 1] == j then 1 else 0)
  }

  lemma {:induction false} CountJoin(a: seq<Job>, b: seq<Job>, j: Job)
    ensures Count(a + b, j) == Count(a, j) + Count(b, j)
    decreases |b|
  {
    if b == [] {
      assert a + b == a;
    } else {
      assert (a + b)[..|a + b| - 1] == a + b[..|b| - 1];
      CountJoin(a, b[..|b| - 1], j);
    }
  }

  lemma CountOne(x: Job, j: Job)
    ensures Count([x], j) == if x == j then 1 else 0
  {
    assert [x][..0] == [];
  }

  /** Splitting a list at k. */
  lemma CountSplit(xs: seq<Job>, k: nat, j: Job)
    requires k <= |xs|
    ensures Count(xs, j) == Count(xs[..k], j) + Count(xs[k..], j)
  {
    assert xs == xs[..k] + xs[k..];
    CountJoin(xs[..k], xs[k..], j);
  }

  /** Taking element k out of a list. */
  lemma CountTake(xs: seq<Job>, k: nat, j: Job)
    requires k < |xs|
    ensures Count(xs, j) == Count(xs[..k] + xs[k + 1..], j) + Count([xs[k]], j)
  {
    CountSplit(xs, k, j);
    assert xs[k..] == [xs[k]] + xs[k + 1..];
    CountJoin([xs[k]], xs[k + 1..], j);
    CountJoin(xs[..k], xs[k + 1..], j);
  }

  lemma CountTakeFirst(xs: seq<Job>, j: Job)
    requires xs != []
    ensures Count(xs, j) == Count(xs[1..], j) + Count([xs[0]], j)
  {
    CountTake(xs, 0, j);
    assert xs[..0] + xs[1..] == xs[1..];
  }

  /** What the first n slots hold. */
  function Kept(slots: seq<Option<Job>>, n: nat): seq<Job>
    requires n <= |slots|
  {
    if n == 0 then [] else Kept(slots, n - 1) + AsSeq(slots[n - 1])
  }

  function One(x: Option<Job>, j: Job): nat { if x == TaskDeque.Some(j) then 1 else 0 }

  function CountSlots(slots: seq<Option<Job>>, n: nat, j: Job): nat
    requires n <= |slots|
  {
    if n == 0 then 0 else CountSlots(slots, n - 1, j) + One(slots[n - 1], j)
  }

  function InDeque(d: Deque<Job>, j: Job): nat { CountSlots(d.slots, |d.slots|, j) }

  lemma CountAsSeq(x: Option<Job>, j: Job)
    ensures Count(AsSeq(x), j) == One(x, j)
  {
    if x.Some? { CountOne(x.value, j); }
  }

  lemma {:induction false} CountKept(slots: seq<Option<Job>>, n: nat, j: Job)
    requires n <= |slots|
    ensures Count(Kept(slots, n), j) == CountSlots(slots, n, j)
  {
    if n > 0 {
      CountKept(slots, n - 1, j);
      CountJoin(Kept(slots, n - 1), AsSeq(slots[n - 1]), j);
      CountAsSeq(slots[n - 1], j);
    }
  }

  /** Storing into slot k. */
  lemma {:induction false} StoreCounts(slots: seq<Option<Job>>, n: nat, k: nat, x: Option<Job>, j: Job)
    requires n <= |slots| && k < |slots|
    ensures CountSlots(slots[k := x], n, j) + (if k < n then One(slots[k], j) else 0)
         == CountSlots(slots, n, j) + if k < n then One(x, j) else 0
  {
    if n > 0 { StoreCounts(slots, n - 1, k, x, j); }
  }

  lemma {:induction false} NoneCounted(slots: seq<Option<Job>>, n: nat, j: Job)
    requires n <= |slots| && forall k :: 0 <= k < |slots| ==> slots[k].None?
    ensures CountSlots(slots, n, j) == 0
  {
    if n > 0 { NoneCounted(slots, n - 1, j); }
  }

  /** A push keeps every task, or loses the one that it overwrites. */
  lemma PushKeeps(d: Deque<Job>, x: Job, j: Job)
    requires HasRoom(d)
    ensures InDeque(Pushed(d, x), j) + One(At(d, d.bottom), j) == InDeque(d, j) + Count([x], j)
  {
    StoreCounts(d.slots, |d.slots|, SlotOf(d, d.bottom), TaskDeque.Some(x), j);
    CountOne(x, j);
  }

  lemma PopKeeps(d: Deque<Job>, j: Job)
    requires Size(d) > 0
    ensures InDeque(Popped(d), j) + One(At(d, d.bottom - 1), j) == InDeque(d, j)
  {
    StoreCounts(d.slots, |d.slots|, SlotOf(d, d.bottom - 1), TaskDeque.None, j);
  }

  lemma ReadKeeps(d: Deque<Job>, t: nat, j: Job)
    ensures InDeque(Read(d, t), j) + One(At(d, t), j) == InDeque(d, j)
  {
    StoreCounts(d.slots, |d.slots|, SlotOf(d, t), TaskDeque.None, j);
  }

  /** What a push overwrites is lost. */
  lemma LosingCount(sh: Shared, d: Deque<Job>, j: Job)
    ensures InShared(Losing(sh, d), j) == InShared(sh, j) + One(At(d, d.bottom), j)
  {
    CountJoin(sh.lost, AsSeq(At(d, d.bottom)), j);
    CountAsSeq(At(d, d.bottom), j);
  }

  /** How often j occurs in the queues and hands of a worker. */
  function Held(w: Worker, j: Job): nat {
    Count(w.inbound, j) + Count(w.drained, j) + Count(w.privates, j) + Count(w.timers, j)
    + InDeque(w.local, j) + Count(w.batch, j) + Count(w.hand, j)
  }

  function HeldByAll(ws: seq<Worker>, j: Job): nat {
    if ws == [] then 0 else HeldByAll(ws[..|ws| - 1], j) + Held(ws[|ws| - 1], j)
  }

  function HeldByComputers(cs: seq<Computer>, j: Job): nat {
    if cs == [] then 0 else HeldByComputers(cs[..|cs| - 1], j) + Count(cs[|cs| - 1].batch, j)
  }

  function InShared(sh: Shared, j: Job): nat {
    Count(sh.micro, j) + Count(sh.compute, j) + Count(sh.started, j) + Count(sh.dropped, j) + Count(sh.lost, j)
  }

  function Total(s: State, j: Job): nat {
    InShared(s.sh, j) + HeldByAll(s.workers, j) + HeldByComputers(s.computers, j)
  }

  lemma {:induction false} HeldUpdate(ws: seq<Worker>, i: nat, w: Worker, j: Job)
    requires i < |ws|
    ensures HeldByAll(ws[i := w], j) + Held(ws[i], j) == HeldByAll(ws, j) + Held(w, j)
    decreases |ws|
  {
    var n := |ws| - 1;
    if i < n {
      HeldUpdate(ws[..n], i, w, j);
      assert ws[i := w][..n] == ws[..n][i := w];
    } else {
      assert ws[i := w][..n] == ws[..n];
    }
  }

  lemma {:induction false} ComputerUpdate(cs: seq<Computer>, i: nat, w: Computer, j: Job)
    requires i < |cs|
    ensures HeldByComputers(cs[i := w], j) + Count(cs[i].batch, j) == HeldByComputers(cs, j) + Count(w.batch, j)
    decreases |cs|
  {
    var n := |cs| - 1;
    if i < n {
      ComputerUpdate(cs[..n], i, w, j);
      assert cs[i := w][..n] == cs[..n][i := w];
    } else {
      assert cs[i := w][..n] == cs[..n];
    }
  }

  // ---- the shape of a worker

  predicate FromHarvest(p: Pc) {
    p.Enqueue? || (p.Offer? && p.back.InHarvest?) || (p.Running? && p.back.InHarvest?)
  }

  /** The temporaries are in use only in the loops that own them. */
  predicate Tidy(w: Worker, me: nat) {
    && (w.drained != [] ==> w.pc.Distribute?)
    && (w.batch != [] ==> FromHarvest(w.pc))
    && (w.hand != [] <==> w.pc.Offer?) && |w.hand| <= 1
    && (w.pc.Offer? ==> w.pc.back.InHarvest? || w.pc.back.InSteal?)
    && (w.pc.StealFrom? ==> w.pc.victim != me)
    && (w.pc.Claim? ==> w.pc.victim != me)
    && (w.pc.Offer? && w.pc.back.InSteal? ==> w.pc.back.victim != me)
    && (w.pc.Running? && w.pc.back.InSteal? ==> w.pc.back.victim != me)
  }

  lemma OwnTidy(w: Worker, sh: Shared, me: nat, n: nat, c: Choice)
    requires Tidy(w, me)
    ensures Tidy(OwnStep(w, sh, me, n, c).w, me)
  {
    if w.pc.Running? { ReturnTidy(w, sh, me); }
    else if w.pc.Offer? { OfferTidy(w, sh, me); }
    else if w.pc.Batch? { BatchTidy(w, sh, me); }
    else if InTransit(w.pc) { TransitTidy(w, sh, me, n, c); }
  }

  lemma TransitTidy(w: Worker, sh: Shared, me: nat, n: nat, c: Choice)
    requires Tidy(w, me) && InTransit(w.pc)
    ensures Tidy(w.(pc := Transit(w, sh, me, n, c)), me)
  {}

  lemma ReturnTidy(w: Worker, sh: Shared, me: nat)
    requires Tidy(w, me) && w.pc.Running?
    ensures Tidy(ReturnStep(w, sh).w, me)
  {}

  lemma OfferTidy(w: Worker, sh: Shared, me: nat)
    requires Tidy(w, me) && w.pc.Offer?
    ensures Tidy(OfferStep(w, sh).w, me)
  {}

  lemma BatchTidy(w: Worker, sh: Shared, me: nat)
    requires Tidy(w, me) && w.pc.Batch?
    ensures Tidy(BatchStep(w, sh).w, me)
  {}

  // ---- conservation, step by step

  lemma BeginCount(sh: Shared, x: Job, j: Job)
    ensures InShared(Begin(sh, x), j) == InShared(sh, j) + Count([x], j)
  {
    CountJoin(sh.started, [x], j);
  }

  lemma MailConserves(w: Worker, sh: Shared, me: nat, j: Job)
    requires Tidy(w, me) && (w.pc.Drain? || w.pc.Distribute? || w.pc.Privates?)
    ensures var o := MailStep(w, sh); Held(o.w, j) + InShared(o.sh, j) == Held(w, j) + InShared(sh, j)
  {
    if w.pc.Distribute? && w.drained != [] {
      CountTakeFirst(w.drained, j);
      if w.drained[0].kind.Delayed? { CountJoin(w.timers, [w.drained[0]], j); } else { CountJoin(w.privates, [w.drained[0]], j); }
    }
    if w.pc.Privates? && w.privates != [] {
      CountTakeFirst(w.privates, j);
      BeginCount(sh, w.privates[0], j);
    }
  }

  lemma TimerConserves(w: Worker, sh: Shared, c: Choice, j: Job)
    requires w.pc.Timers?
    ensures var o := TimerStep(w, sh, c); Held(o.w, j) + InShared(o.sh, j) == Held(w, j) + InShared(sh, j)
  {
    if Earliest(w.timers, c.k) && Deadline(w.timers[c.k]) <= w.pc.t0 {
      CountTake(w.timers, c.k, j);
      BeginCount(sh, w.timers[c.k], j);
    }
  }

  lemma PopConserves(w: Worker, sh: Shared, x: Option<Job>, d: Deque<Job>, pc: Pc, j: Job)
    requires InDeque(d, j) + One(x, j) == InDeque(w.local, j)
    ensures Held(w.(local := d, pc := pc), j) + InShared(if x.Some? then Begin(sh, x.value) else sh, j) == Held(w, j) + InShared(sh, j)
  {
    if x.Some? {
      BeginCount(sh, x.value, j);
      CountOne(x.value, j);
    }
  }

  lemma BatchConserves(w: Worker, sh: Shared, j: Job)
    requires w.pc.Batch?
    ensures var o := BatchStep(w, sh); Held(o.w, j) + InShared(o.sh, j) == Held(w, j) + InShared(sh, j)
  {
    if w.pc.ran < w.opt.localBatch && Size(w.local) > 0 {
      PopKeeps(w.local, j);
      PopConserves(w, sh, At(w.local, w.local.bottom - 1), Popped(w.local), BatchStep(w, sh).w.pc, j);
    }
  }

  lemma HarvestConserves(w: Worker, sh: Shared, me: nat, j: Job)
    requires Tidy(w, me) && (w.pc.Harvest? || w.pc.Enqueue?)
    ensures var o := HarvestStep(w, sh); Held(o.w, j) + InShared(o.sh, j) == Held(w, j) + InShared(sh, j)
  {
    if w.pc.Harvest? {
      CountSplit(sh.micro, Min(w.opt.globalBatch, |sh.micro|), j);
    } else if w.batch != [] {
      CountTakeFirst(w.batch, j);
    }
  }

  lemma OfferConserves(w: Worker, sh: Shared, j: Job)
    requires w.pc.Offer? && |w.hand| == 1
    ensures var o := OfferStep(w, sh); Held(o.w, j) + InShared(o.sh, j) == Held(w, j) + InShared(sh, j)
  {
    var x := w.hand[0];
    assert w.hand == [x];
    if HasRoom(w.local) {
      PushKeeps(w.local, x, j);
      LosingCount(sh, w.local, j);
    } else {
      BeginCount(sh, x, j);
    }
  }

  lemma ReturnConserves(w: Worker, sh: Shared, j: Job)
    requires w.pc.Running?
    ensures var o := ReturnStep(w, sh); Held(o.w, j) + InShared(o.sh, j) == Held(w, j) + InShared(sh, j)
  {
    CountJoin(sh.dropped, w.batch, j);
  }

  lemma OwnConserves(w: Worker, sh: Shared, me: nat, n: nat, c: Choice, j: Job)
    requires Tidy(w, me)
    ensures var o := OwnStep(w, sh, me, n, c); Held(o.w, j) + InShared(o.sh, j) == Held(w, j) + InShared(sh, j)
  {
    if w.pc.Drain? || w.pc.Distribute? || w.pc.Privates? { MailConserves(w, sh, me, j); }
    else if w.pc.Timers? { TimerConserves(w, sh, c, j); }
    else if w.pc.Batch? { BatchConserves(w, sh, j); }
    else if w.pc.Offer? { OfferConserves(w, sh, j); }
    else if w.pc.Running? { ReturnConserves(w, sh, j); }
    else if !InTransit(w.pc) { HarvestConserves(w, sh, me, j); }
  }

  lemma ComputeConserves(w: Computer, sh: Shared, j: Job)
    requires w.batch != [] ==> w.pc.CLoop? || w.pc.CRunning?
    ensures var o := ComputeStep(w, sh); Count(o.w.batch, j) + InShared(o.sh, j) == Count(w.batch, j) + InShared(sh, j)
  {
    if w.pc.CPop? { CountSplit(sh.compute, Min(w.batchSize, |sh.compute|), j); }
    if w.pc.CLoop? && w.batch != [] {
      CountJoin(sh.dropped, w.batch, j);
      CountTakeFirst(w.batch, j);
      BeginCount(sh, w.batch[0], j);
    }
  }

  predicate AllTidy(s: State) {
    && (forall i :: 0 <= i < |s.workers| ==> Tidy(s.workers[i], i))
    && (forall i :: 0 <= i < |s.computers| && s.computers[i].batch != [] ==> s.computers[i].pc.CLoop? || s.computers[i].pc.CRunning?)
  }

  lemma ReadMoves(v: Worker, w: Worker, t: nat, x: seq<Job>, pc: Pc, j: Job)
    requires w.hand == [] && x == AsSeq(At(v.local, t))
    ensures Held(v.(local := Read(v.local, t)), j) + Held(w.(hand := x, pc := pc), j) == Held(v, j) + Held(w, j)
  {
    ReadKeeps(v.local, t, j);
    CountAsSeq(At(v.local, t), j);
  }

  lemma ClaimMoves(v: Worker, d: Deque<Job>, w: Worker, pc: Pc, j: Job)
    requires d.slots == v.local.slots
    ensures Held(v.(local := d), j) + Held(w.(pc := pc), j) == Held(v, j) + Held(w, j)
  {}

  lemma HeldUpdateTwo(ws: seq<Worker>, v: nat, v': Worker, me: nat, w': Worker, j: Job)
    requires v < |ws| && me < |ws| && v != me && Held(v', j) + Held(w', j) == Held(ws[v], j) + Held(ws[me], j)
    ensures HeldByAll(ws[v := v'][me := w'], j) == HeldByAll(ws, j)
  {
    HeldUpdate(ws, v, v', j);
    HeldUpdate(ws[v := v'], me, w', j);
  }

  /** Only these two workers change. */
  lemma TwoConserve(s: State, v: nat, v': Worker, me: nat, w': Worker, r: State, j: Job)
    requires v < |s.workers| && me < |s.workers| && v != me
    requires Held(v', j) + Held(w', j) == Held(s.workers[v], j) + Held(s.workers[me], j)
    requires r == s.(workers := s.workers[v := v'][me := w'])
    ensures Total(r, j) == Total(s, j)
  {
    HeldUpdateTwo(s.workers, v, v', me, w', j);
  }

  /** A claim moves nothing. */
  lemma ClaimConserves(s: State, me: nat, j: Job)
    requires me < |s.workers| && WillSteal(s, me, Choice(0, 0, false))
    ensures Total(ClaimStep(s, me), j) == Total(s, j)
  {
    var w := s.workers[me];
    var p := w.pc;
    var v := s.workers[p.victim];
    var next := Claim(p.victim, v.local.top, p.left - 1, p.got, p.try);
    ClaimMoves(v, Claimed(v.local), w, next, j);
    TwoConserve(s, p.victim, v.(local := Claimed(v.local)), me, w.(pc := next), ClaimStep(s, me), j);
  }

  /** The read of a claimed slot moves what it holds, if anything, into the thief's hand. */
  lemma StealConserves(s: State, me: nat, j: Job)
    requires me < |s.workers| && Claiming(s, me) && s.workers[me].hand == []
    ensures Total(ReadStep(s, me), j) == Total(s, j)
  {
    var w := s.workers[me];
    var p := w.pc;
    var v := s.workers[p.victim];
    var x := At(v.local, p.t);
    var next := if x.Some? then Offer(InSteal(p.victim, p.left, p.got, p.try)) else StealFrom(p.victim, p.left, p.got + 1, p.try);
    ReadMoves(v, w, p.t, AsSeq(x), next, j);
    TwoConserve(s, p.victim, v.(local := Read(v.local, p.t)), me, w.(hand := AsSeq(x), pc := next), ReadStep(s, me), j);
  }

  lemma TurnConserves(s: State, me: nat, c: Choice, j: Job)
    requires me < |s.workers| && Tidy(s.workers[me], me)
    ensures Total(WorkerStep(s, me, c), j) == Total(s, j)
  {
    if WillSteal(s, me, c) {
      ClaimConserves(s, me, j);
    } else if Claiming(s, me) {
      StealConserves(s, me, j);
    } else {
      OwnConserves(s.workers[me], s.sh, me, |s.workers|, c, j);
      HeldUpdate(s.workers, me, OwnStep(s.workers[me], s.sh, me, |s.workers|, c).w, j);
    }
  }

  lemma PostConserves(s: State, e: Event, j: Job)
    requires !e.Turn? && !e.ComputeTurn?
    ensures var r := Apply(s, e); Total(r, j) - Count(r.accepted, j) == Total(s, j) - Count(s.accepted, j)
  {
    match e
    case PostIO => PostMicroConserves(s, Io, j);
    case PostCompute => PostComputeConserves(s, j);
    case PostTo(i) => if i < |s.workers| { PostInboundConserves(s, i, Private(i), j); }
    case AddTimer(i, d) => if i < |s.workers| { PostInboundConserves(s, i, Delayed(i, d), j); }
    case PostToLocal(i) => if i < |s.workers| { PostLocalConserves(s, i, j); }
    case RequestStop(i) => if i < |s.workers| { HeldUpdate(s.workers, i, s.workers[i].(stop := true), j); }
    case StopComputer(i) => if i < |s.computers| { ComputerUpdate(s.computers, i, s.computers[i].(stop := true), j); }
    case RequestExit =>
    case Tick(_) =>
  }

  lemma PostComputeConserves(s: State, j: Job)
    ensures var r := Apply(s, PostCompute); Total(r, j) - Count(r.accepted, j) == Total(s, j) - Count(s.accepted, j)
  {
    CountJoin(s.sh.compute, [Accept(s, Compute)], j);
    CountJoin(s.accepted, [Accept(s, Compute)], j);
  }

  lemma PostMicroConserves(s: State, kind: Kind, j: Job)
    ensures var r := PostMicro(s, kind); Total(r, j) - Count(r.accepted, j) == Total(s, j) - Count(s.accepted, j)
  {
    CountJoin(s.sh.micro, [Accept(s, kind)], j);
    CountJoin(s.accepted, [Accept(s, kind)], j);
  }

  lemma PostInboundConserves(s: State, i: nat, kind: Kind, j: Job)
    requires i < |s.workers|
    ensures var r := PostInbound(s, i, kind); Total(r, j) - Count(r.accepted, j) == Total(s, j) - Count(s.accepted, j)
  {
    var w, x := s.workers[i], Accept(s, kind);
    CountJoin(w.inbound, [x], j);
    CountJoin(s.accepted, [x], j);
    HeldUpdate(s.workers, i, w.(inbound := w.inbound + [x]), j);
  }

  lemma PostLocalConserves(s: State, i: nat, j: Job)
    requires i < |s.workers|
    ensures var r := PostLocal(s, i); Total(r, j) - Count(r.accepted, j) == Total(s, j) - Count(s.accepted, j)
  {
    var w, x := s.workers[i], Accept(s, Local(i));
    if HasRoom(w.local) {
      PushKeeps(w.local, x, j);
      LosingCount(s.sh, w.local, j);
      CountJoin(s.accepted, [x], j);
      HeldUpdate(s.workers, i, w.(local := Pushed(w.local, x)), j);
    } else {
      PostMicroConserves(s, Local(i), j);
    }
  }

  lemma StepConserves(s: State, e: Event, j: Job)
    requires AllTidy(s)
    ensures var r := Apply(s, e); Total(r, j) - Count(r.accepted, j) == Total(s, j) - Count(s.accepted, j)
  {
    match e
    case Turn(i, c) => if i < |s.workers| { TurnConserves(s, i, c, j); }
    case ComputeTurn(i) =>
      if i < |s.computers| {
        ComputeConserves(s.computers[i], s.sh, j);
        ComputerUpdate(s.computers, i, ComputeStep(s.computers[i], s.sh).w, j);
      }
    case _ => PostConserves(s, e, j);
  }

  // ---- which jobs are where

  predicate IsPrivate(j: Job, i: nat) { j.kind == Private(i) }

  predicate IsTimer(j: Job, i: nat) { j.kind.Delayed? && j.kind.worker == i }

  predicate IsMicro(j: Job) { j.kind.Io? || j.kind.Local? }

  predicate AllMicro(xs: seq<Job>) { forall k :: 0 <= k < |xs| ==> IsMicro(xs[k]) }

  predicate MicroSlots(xs: seq<Option<Job>>) { forall k :: 0 <= k < |xs| && xs[k].Some? ==> IsMicro(xs[k].value) }

  predicate AllMail(xs: seq<Job>, i: nat) { forall k :: 0 <= k < |xs| ==> IsPrivate(xs[k], i) || IsTimer(xs[k], i) }

  predicate AllCompute(xs: seq<Job>) { forall k :: 0 <= k < |xs| ==> xs[k].kind.Compute? }

  predicate Sorted(w: Worker, i: nat) {
    && AllMail(w.inbound, i) && AllMail(w.drained, i)
    && (forall k :: 0 <= k < |w.privates| ==> IsPrivate(w.privates[k], i))
    && (forall k :: 0 <= k < |w.timers| ==> IsTimer(w.timers[k], i))
    && MicroSlots(w.local.slots) && AllMicro(w.batch) && AllMicro(w.hand)
  }

  predicate SharedSorted(sh: Shared) { AllMicro(sh.micro) && AllCompute(sh.compute) }

  lemma MailSorted(w: Worker, sh: Shared, me: nat)
    requires Sorted(w, me) && (w.pc.Drain? || w.pc.Distribute? || w.pc.Privates?)
    ensures Sorted(MailStep(w, sh).w, me)
  {
    if w.pc.Distribute? && w.drained != [] {
      assert IsPrivate(w.drained[0], me) || IsTimer(w.drained[0], me);
    }
  }

  lemma TimerSorted(w: Worker, sh: Shared, me: nat, c: Choice)
    requires Sorted(w, me) && w.pc.Timers?
    ensures Sorted(TimerStep(w, sh, c).w, me)
  {}

  lemma BatchSorted(w: Worker, sh: Shared, me: nat)
    requires Sorted(w, me) && w.pc.Batch?
    ensures Sorted(BatchStep(w, sh).w, me)
  {}

  lemma HarvestSorted(w: Worker, sh: Shared, me: nat)
    requires Sorted(w, me) && (w.pc.Harvest? || w.pc.Enqueue?) && AllMicro(sh.micro)
    ensures var o := HarvestStep(w, sh); Sorted(o.w, me) && AllMicro(o.sh.micro)
  {}

  lemma OfferSorted(w: Worker, sh: Shared, me: nat)
    requires Sorted(w, me) && w.pc.Offer?
    ensures Sorted(OfferStep(w, sh).w, me)
  {}

  lemma ReturnSorted(w: Worker, sh: Shared, me: nat)
    requires Sorted(w, me) && w.pc.Running?
    ensures Sorted(ReturnStep(w, sh).w, me)
  {}

  lemma TransitSorted(w: Worker, me: nat, pc: Pc)
    requires Sorted(w, me)
    ensures Sorted(w.(pc := pc), me)
  {}

  lemma OwnSorted(w: Worker, sh: Shared, me: nat, n: nat, c: Choice)
    requires Sorted(w, me) && AllMicro(sh.micro)
    ensures var o := OwnStep(w, sh, me, n, c); Sorted(o.w, me) && AllMicro(o.sh.micro) && o.sh.compute == sh.compute
  {
    if w.pc.Drain? || w.pc.Distribute? || w.pc.Privates? { MailSorted(w, sh, me); }
    else if w.pc.Timers? { TimerSorted(w, sh, me, c); }
    else if w.pc.Batch? { BatchSorted(w, sh, me); }
    else if w.pc.Offer? { OfferSorted(w, sh, me); }
    else if w.pc.Harvest? || w.pc.Enqueue? { HarvestSorted(w, sh, me); }
    else if w.pc.Running? { ReturnSorted(w, sh, me); }
    else { TransitSorted(w, me, Transit(w, sh, me, n, c)); }
  }

  // ---- private tasks run in the order of their posts

  /** The private tasks of worker i among xs, in order. */
  function Letters(xs: seq<Job>, i: nat): seq<Job> {
    if xs == [] then [] else
      var rest := Letters(xs[..|xs| - 1], i);
      if IsPrivate(xs[|xs| - 1], i) then rest + [xs[|xs| - 1]] else rest
  }

  lemma {:induction false} LettersJoin(a: seq<Job>, b: seq<Job>, i: nat)
    ensures Letters(a + b, i) == Letters(a, i) + Letters(b, i)
    decreases |b|
  {
    if b == [] {
      assert a + b == a;
    } else {
      assert (a + b)[..|a + b| - 1] == a + b[..|b| - 1];
      LettersJoin(a, b[..|b| - 1], i);
    }
  }

  lemma LettersOne(x: Job, i: nat)
    ensures Letters([x], i) == if IsPrivate(x, i) then [x] else []
  {
    assert [x][..0] == [];
  }

  lemma LettersBegin(sh: Shared, x: Job, i: nat)
    ensures Letters(Begin(sh, x).started, i) == Letters(sh.started, i) + if IsPrivate(x, i) then [x] else []
  {
    LettersJoin(sh.started, [x], i);
    LettersOne(x, i);
  }

  /** Worker i's private tasks from the oldest: begun, queued, drained, inbound. */
  function Line(w: Worker, sh: Shared, i: nat): seq<Job> {
    Letters(sh.started, i) + w.privates + Letters(w.drained, i) + Letters(w.inbound, i)
  }

  lemma LettersFirst(xs: seq<Job>, i: nat)
    requires xs != []
    ensures Letters(xs, i) == (if IsPrivate(xs[0], i) then [xs[0]] else []) + Letters(xs[1..], i)
  {
    assert xs == [xs[0]] + xs[1..];
    LettersJoin([xs[0]], xs[1..], i);
    LettersOne(xs[0], i);
  }

  lemma DistributeKeepsLine(w: Worker, sh: Shared, me: nat)
    requires AllMail(w.drained, me) && w.pc.Distribute? && w.drained != []
    ensures var o := MailStep(w, sh); Line(o.w, o.sh, me) == Line(w, sh, me)
  {
    var x := w.drained[0];
    LettersFirst(w.drained, me);
    assert IsPrivate(x, me) || IsTimer(x, me);
    if IsPrivate(x, me) {
      assert w.privates + ([x] + Letters(w.drained[1..], me)) == (w.privates + [x]) + Letters(w.drained[1..], me);
    }
  }

  lemma PrivatesKeepLine(w: Worker, sh: Shared, me: nat)
    requires w.pc.Privates? && w.privates != [] && IsPrivate(w.privates[0], me)
    ensures var o := MailStep(w, sh); Line(o.w, o.sh, me) == Line(w, sh, me)
  {
    LettersBegin(sh, w.privates[0], me);
    assert Letters(sh.started, me) + w.privates == (Letters(sh.started, me) + [w.privates[0]]) + w.privates[1..];
  }

  lemma MailKeepsLine(w: Worker, sh: Shared, me: nat)
    requires Tidy(w, me) && Sorted(w, me) && (w.pc.Drain? || w.pc.Distribute? || w.pc.Privates?)
    ensures var o := MailStep(w, sh); Line(o.w, o.sh, me) == Line(w, sh, me)
  {
    if w.pc.Distribute? && w.drained != [] {
      DistributeKeepsLine(w, sh, me);
    } else if w.pc.Privates? && w.privates != [] {
      PrivatesKeepLine(w, sh, me);
    } else if w.pc.Drain? {
      assert w.drained == [];
    }
  }

  /** At most one task begins, and if it is private it is worker i's. */
  ghost predicate BeginsAtMost(sh: Shared, sh': Shared, i: nat) {
    sh'.started == sh.started || exists x :: sh' == Begin(sh, x) && (x.kind.Private? ==> x.kind.worker == i)
  }

  lemma OwnBegins(w: Worker, sh: Shared, me: nat, n: nat, c: Choice)
    requires Sorted(w, me)
    ensures BeginsAtMost(sh, OwnStep(w, sh, me, n, c).sh, me)
  {
    var o := OwnStep(w, sh, me, n, c);
    if o.sh.started != sh.started {
      if w.pc.Privates? { assert o.sh == Begin(sh, w.privates[0]); }
      else if w.pc.Timers? { assert o.sh == Begin(sh, w.timers[c.k]); }
      else if w.pc.Batch? { assert o.sh == Begin(sh, At(w.local, w.local.bottom - 1).value); }
      else { assert w.pc.Offer? && o.sh == Begin(sh, w.hand[0]); }
    }
  }

  ghost predicate BeginsPublic(sh: Shared, sh': Shared) {
    sh'.started == sh.started || exists x :: sh' == Begin(sh, x) && !x.kind.Private?
  }

  /** Outside drainInbound and runPrivateTasks no private task moves. */
  lemma OwnLeavesMail(w: Worker, sh: Shared, me: nat, n: nat, c: Choice)
    requires Sorted(w, me) && !w.pc.Drain? && !w.pc.Distribute? && !w.pc.Privates?
    ensures var o := OwnStep(w, sh, me, n, c);
      && o.w.privates == w.privates && o.w.drained == w.drained && o.w.inbound == w.inbound
      && BeginsPublic(sh, o.sh)
  {
    var o := OwnStep(w, sh, me, n, c);
    if o.sh.started != sh.started {
      if w.pc.Timers? { assert o.sh == Begin(sh, w.timers[c.k]); }
      else if w.pc.Batch? { assert o.sh == Begin(sh, At(w.local, w.local.bottom - 1).value); }
      else { assert w.pc.Offer? && o.sh == Begin(sh, w.hand[0]); }
    }
  }

  lemma OwnKeepsLine(w: Worker, sh: Shared, me: nat, n: nat, c: Choice)
    requires Tidy(w, me) && Sorted(w, me)
    ensures var o := OwnStep(w, sh, me, n, c); Line(o.w, o.sh, me) == Line(w, sh, me)
  {
    if w.pc.Drain? || w.pc.Distribute? || w.pc.Privates? {
      MailKeepsLine(w, sh, me);
    } else {
      OwnLeavesMail(w, sh, me, n, c);
      var sh' := OwnStep(w, sh, me, n, c).sh;
      if sh'.started != sh.started {
        var x :| sh' == Begin(sh, x) && !x.kind.Private?;
        LettersBegin(sh, x, me);
      }
    }
  }

  /** What another worker begins changes nothing in worker i's line. */
  lemma OthersKeepLine(w: Worker, sh: Shared, sh': Shared, i: nat, other: nat)
    requires i != other && BeginsAtMost(sh, sh', other)
    ensures Line(w, sh', i) == Line(w, sh, i)
  {
    if sh'.started != sh.started {
      var x :| sh' == Begin(sh, x) && (x.kind.Private? ==> x.kind.worker == other);
      LettersBegin(sh, x, i);
    }
  }

  // ---- the invariant of the whole system

  predicate AllSorted(s: State) {
    SharedSorted(s.sh) && forall i :: 0 <= i < |s.workers| ==> Sorted(s.workers[i], i)
  }

  /** For every worker: private tasks begun, then queued, then drained, then inbound are
      the private posts in order. */
  predicate InLine(s: State) {
    forall i :: 0 <= i < |s.workers| ==> Line(s.workers[i], s.sh, i) == Letters(s.accepted, i)
  }

  lemma ClaimKeeps(s: State, me: nat)
    requires me < |s.workers| && WillSteal(s, me, Choice(0, 0, false)) && AllTidy(s) && AllSorted(s)
    ensures AllTidy(ClaimStep(s, me)) && AllSorted(ClaimStep(s, me))
  {}

  lemma StealKeeps(s: State, me: nat)
    requires me < |s.workers| && Claiming(s, me) && AllTidy(s) && AllSorted(s)
    ensures AllTidy(ReadStep(s, me)) && AllSorted(ReadStep(s, me))
  {}

  lemma {:induction false} TurnKeepsTidy(s: State, me: nat, c: Choice)
    requires me < |s.workers| && AllTidy(s) && AllSorted(s)
    ensures AllTidy(WorkerStep(s, me, c)) && AllSorted(WorkerStep(s, me, c))
  {
    if WillSteal(s, me, c) {
      ClaimKeeps(s, me);
    } else if Claiming(s, me) {
      StealKeeps(s, me);
    } else {
      OwnTidy(s.workers[me], s.sh, me, |s.workers|, c);
      OwnSorted(s.workers[me], s.sh, me, |s.workers|, c);
    }
  }

  lemma TurnKeepsLine(s: State, me: nat, c: Choice)
    requires me < |s.workers| && AllTidy(s) && AllSorted(s) && InLine(s)
    ensures InLine(WorkerStep(s, me, c))
  {
    if !WillSteal(s, me, c) && !Claiming(s, me) {
      var w := s.workers[me];
      var o := OwnStep(w, s.sh, me, |s.workers|, c);
      OwnKeepsLine(w, s.sh, me, |s.workers|, c);
      OwnBegins(w, s.sh, me, |s.workers|, c);
      var r := WorkerStep(s, me, c);
      forall i | 0 <= i < |s.workers| ensures Line(r.workers[i], r.sh, i) == Letters(s.accepted, i) {
        assert Line(s.workers[i], s.sh, i) == Letters(s.accepted, i);
        if i != me { OthersKeepLine(s.workers[i], s.sh, o.sh, i, me); }
      }
    }
  }

  predicate ComputersSorted(s: State) { forall k :: 0 <= k < |s.computers| ==> AllCompute(s.computers[k].batch) }

  lemma ComputeKeepsTidy(s: State, i: nat)
    requires AllTidy(s) && AllSorted(s) && ComputersSorted(s)
    ensures var r := Apply(s, ComputeTurn(i)); AllTidy(r) && AllSorted(r) && ComputersSorted(r)
  {}

  lemma ComputeKeepsLine(s: State, k: nat)
    requires k < |s.computers| && ComputersSorted(s) && InLine(s)
    ensures InLine(Apply(s, ComputeTurn(k)))
  {
    var w := s.computers[k];
    var r := Apply(s, ComputeTurn(k));
    if r.sh.started != s.sh.started {
      assert r.sh == Begin(s.sh, w.batch[0]);
      forall i | 0 <= i < |r.workers| ensures Line(r.workers[i], r.sh, i) == Letters(r.accepted, i) {
        assert Line(s.workers[i], s.sh, i) == Letters(s.accepted, i);
        LettersBegin(s.sh, w.batch[0], i);
      }
    } else {
      QuietKeepsLine(s, r);
    }
  }

  predicate IsPost(e: Event) { !e.Turn? && !e.ComputeTurn? }

  lemma PostKeepsTidy(s: State, e: Event)
    requires IsPost(e) && AllTidy(s) && AllSorted(s)
    ensures AllTidy(Apply(s, e)) && AllSorted(Apply(s, e))
  {
    if e.PostToLocal? { LocalKeepsTidy(s, e.worker); }
    else if e.PostTo? || e.AddTimer? { InboundKeepsTidy(s, e); }
  }

  lemma InboundKeepsTidy(s: State, e: Event)
    requires (e.PostTo? || e.AddTimer?) && AllTidy(s) && AllSorted(s)
    ensures AllTidy(Apply(s, e)) && AllSorted(Apply(s, e))
  {}

  lemma LocalKeepsTidy(s: State, i: nat)
    requires AllTidy(s) && AllSorted(s)
    ensures AllTidy(Apply(s, PostToLocal(i))) && AllSorted(Apply(s, PostToLocal(i)))
  {}

  /** No private task of any worker moves. */
  predicate SameMail(s: State, r: State) {
    && r.sh.started == s.sh.started && |r.workers| == |s.workers|
    && forall i :: 0 <= i < |s.workers| ==>
         && r.workers[i].privates == s.workers[i].privates
         && r.workers[i].drained == s.workers[i].drained && r.workers[i].inbound == s.workers[i].inbound
  }

  lemma PublicKeepsLine(s: State, r: State, xs: seq<Job>)
    requires InLine(s) && SameMail(s, r) && r.accepted == s.accepted + xs
    requires xs == [] || (|xs| == 1 && !xs[0].kind.Private?)
    ensures InLine(r)
  {
    forall i | 0 <= i < |r.workers| ensures Line(r.workers[i], r.sh, i) == Letters(r.accepted, i) {
      assert Line(s.workers[i], s.sh, i) == Letters(s.accepted, i);
      LettersJoin(s.accepted, xs, i);
      if xs != [] {
        assert xs == [xs[0]];
        LettersOne(xs[0], i);
      }
    }
  }

  lemma PostInLine(w: Worker, sh: Shared, accepted: seq<Job>, x: Job, i: nat)
    requires Line(w, sh, i) == Letters(accepted, i)
    ensures Line(w.(inbound := w.inbound + [x]), sh, i) == Letters(accepted + [x], i)
    ensures !IsPrivate(x, i) ==> Line(w, sh, i) == Letters(accepted + [x], i)
  {
    LettersJoin(w.inbound, [x], i);
    LettersJoin(accepted, [x], i);
    LettersOne(x, i);
  }

  lemma InboundKeepsLine(s: State, k: nat, kind: Kind)
    requires InLine(s) && k < |s.workers| && (kind == Private(k) || kind.Delayed?)
    ensures InLine(PostInbound(s, k, kind))
  {
    var r, x := PostInbound(s, k, kind), Accept(s, kind);
    forall i | 0 <= i < |r.workers| ensures Line(r.workers[i], r.sh, i) == Letters(r.accepted, i) {
      assert Line(s.workers[i], s.sh, i) == Letters(s.accepted, i);
      PostInLine(s.workers[i], s.sh, s.accepted, x, i);
    }
  }

  lemma PostKeepsLine(s: State, e: Event)
    requires IsPost(e) && InLine(s)
    ensures InLine(Apply(s, e))
  {
    match e
    case PostTo(i) => if i < |s.workers| { InboundKeepsLine(s, i, Private(i)); }
    case AddTimer(i, d) => if i < |s.workers| { InboundKeepsLine(s, i, Delayed(i, d)); }
    case PostIO => PublicKeepsLine(s, Apply(s, e), [Accept(s, Io)]);
    case PostCompute => PublicKeepsLine(s, Apply(s, e), [Accept(s, Compute)]);
    case PostToLocal(i) => LocalKeepsLine(s, i);
    case RequestStop(_) => QuietKeepsLine(s, Apply(s, e));
    case StopComputer(_) => QuietKeepsLine(s, Apply(s, e));
    case RequestExit => QuietKeepsLine(s, Apply(s, e));
    case Tick(_) => QuietKeepsLine(s, Apply(s, e));
  }

  lemma QuietKeepsLine(s: State, r: State)
    requires InLine(s) && SameMail(s, r) && r.accepted == s.accepted
    ensures InLine(r)
  {
    assert s.accepted + [] == s.accepted;
    PublicKeepsLine(s, r, []);
  }

  lemma LocalKeepsLine(s: State, i: nat)
    requires InLine(s)
    ensures InLine(Apply(s, PostToLocal(i)))
  {
    if i < |s.workers| { PublicKeepsLine(s, PostLocal(s, i), [Accept(s, Local(i))]); }
  }

  // ---- timers, exits and drops

  predicate Timely(sh: Shared) {
    |sh.times| == |sh.started| && forall k :: 0 <= k < |sh.started| && sh.started[k].kind.Delayed? ==> sh.started[k].kind.deadline <= sh.times[k] <= sh.now
  }

  /** The time a worker holds its timers against has passed. */
  predicate Clocked(p: Pc, now: int) {
    && (p.Timers? ==> p.t0 <= now)
    && (p.Running? && p.back.InTimers? ==> p.back.t0 <= now)
    && (p.Offer? && p.back.InTimers? ==> p.back.t0 <= now)
  }

  lemma TimelyBegin(sh: Shared, x: Job)
    requires Timely(sh) && (x.kind.Delayed? ==> x.kind.deadline <= sh.now)
    ensures Timely(Begin(sh, x))
  {}

  lemma OwnTimely(w: Worker, sh: Shared, me: nat, n: nat, c: Choice)
    requires Sorted(w, me) && Clocked(w.pc, sh.now) && Timely(sh)
    ensures Timely(OwnStep(w, sh, me, n, c).sh)
  {
    if w.pc.Timers? && Earliest(w.timers, c.k) {
      assert IsTimer(w.timers[c.k], me);
      if Deadline(w.timers[c.k]) <= w.pc.t0 { TimelyBegin(sh, w.timers[c.k]); }
    } else if w.pc.Privates? && w.privates != [] {
      assert IsPrivate(w.privates[0], me);
      TimelyBegin(sh, w.privates[0]);
    } else if w.pc.Batch? && Size(w.local) > 0 && At(w.local, w.local.bottom - 1).Some? {
      TimelyBegin(sh, At(w.local, w.local.bottom - 1).value);
    } else if w.pc.Offer? && w.hand != [] {
      TimelyBegin(sh, w.hand[0]);
    }
  }

  lemma OwnClocked(w: Worker, sh: Shared, me: nat, n: nat, c: Choice)
    requires Clocked(w.pc, sh.now)
    ensures var o := OwnStep(w, sh, me, n, c); Clocked(o.w.pc, o.sh.now) && o.sh.now == sh.now
  {
    if w.pc.Timers? { TimerClocked(w, sh, c); }
    else if w.pc.Running? || w.pc.Offer? || w.pc.Batch? { RunClocked(w, sh); }
  }

  lemma TimerClocked(w: Worker, sh: Shared, c: Choice)
    requires w.pc.Timers? && Clocked(w.pc, sh.now)
    ensures var o := TimerStep(w, sh, c); Clocked(o.w.pc, o.sh.now) && o.sh.now == sh.now
  {}

  lemma RunClocked(w: Worker, sh: Shared)
    requires (w.pc.Running? || w.pc.Offer? || w.pc.Batch?) && Clocked(w.pc, sh.now)
    ensures var o := if w.pc.Running? then ReturnStep(w, sh) else if w.pc.Offer? then OfferStep(w, sh) else BatchStep(w, sh);
      Clocked(o.w.pc, o.sh.now) && o.sh.now == sh.now
  {}

  /** A worker leaves its loop only when told to. */
  predicate Dutiful(w: Worker, sh: Shared) { w.pc.Exited? ==> Stopping(w, sh) }

  /** The deque is empty when a batch is harvested, as the code's comment says, and
      takes the whole batch, if the options leave room. */
  predicate Roomy(opt: Options) { opt.localBatch > 0 && opt.globalBatch <= opt.maxSize }

  predicate Room(w: Worker) {
    && |w.local.slots| == w.opt.maxSize + 1
    && (w.opt.localBatch > 0 && w.pc.Harvest? ==> Size(w.local) == 0)
    && (Roomy(w.opt) && FromHarvest(w.pc) ==> !w.pc.Running? && Size(w.local) + |w.batch| + |w.hand| <= w.opt.globalBatch)
  }

  lemma HarvestRoom(w: Worker, sh: Shared, me: nat)
    requires Tidy(w, me) && Room(w) && (w.pc.Harvest? || w.pc.Enqueue?)
    ensures Room(HarvestStep(w, sh).w)
  {}

  lemma OfferRoom(w: Worker, sh: Shared, me: nat)
    requires Tidy(w, me) && Room(w) && w.pc.Offer?
    ensures Room(OfferStep(w, sh).w)
  {}

  lemma RunRoom(w: Worker, sh: Shared, c: Choice)
    requires Room(w) && (w.pc.Timers? || w.pc.Batch? || w.pc.Running?)
    ensures Room(OwnStep(w, sh, 0, 0, c).w)
  {}

  lemma TransitRoom(w: Worker, sh: Shared, me: nat, n: nat, c: Choice)
    requires Room(w) && InTransit(w.pc)
    ensures Room(w.(pc := Transit(w, sh, me, n, c)))
  {}

  lemma MailRoom(w: Worker, sh: Shared)
    requires Room(w) && (w.pc.Drain? || w.pc.Distribute? || w.pc.Privates?)
    ensures Room(MailStep(w, sh).w)
  {}

  lemma OwnRoom(w: Worker, sh: Shared, me: nat, n: nat, c: Choice)
    requires Tidy(w, me) && Room(w)
    ensures var o := OwnStep(w, sh, me, n, c); Room(o.w) && o.w.opt == w.opt
  {
    if w.pc.Harvest? || w.pc.Enqueue? { HarvestRoom(w, sh, me); }
    else if w.pc.Offer? { OfferRoom(w, sh, me); }
    else if w.pc.Drain? || w.pc.Distribute? || w.pc.Privates? { MailRoom(w, sh); }
    else if w.pc.Timers? || w.pc.Batch? || w.pc.Running? { RunRoom(w, sh, c); }
    else { TransitRoom(w, sh, me, n, c); }
  }

  lemma OwnDrops(w: Worker, sh: Shared, me: nat, n: nat, c: Choice)
    requires Tidy(w, me) && Room(w) && Dutiful(w, sh)
    ensures var o := OwnStep(w, sh, me, n, c);
      && Dutiful(o.w, o.sh) && o.w.stop == w.stop && o.sh.exit == sh.exit
      && (o.sh.dropped != sh.dropped ==> Stopping(w, sh) && !Roomy(w.opt))
  {}

  predicate AllPunctual(s: State) { Timely(s.sh) && forall i :: 0 <= i < |s.workers| ==> Clocked(s.workers[i].pc, s.sh.now) }

  predicate AllRoom(s: State) { forall i :: 0 <= i < |s.workers| ==> Room(s.workers[i]) && Dutiful(s.workers[i], s.sh) }

  predicate StopRequested(s: State) {
    || s.sh.exit
    || (exists i :: 0 <= i < |s.workers| && s.workers[i].stop)
    || (exists i :: 0 <= i < |s.computers| && s.computers[i].stop)
  }

  /** Nothing is dropped before a stop, and only compute tasks when all workers are roomy. */
  predicate DropsLawful(s: State) {
    && (s.sh.dropped != [] ==> StopRequested(s))
    && ((forall i :: 0 <= i < |s.workers| ==> Roomy(s.workers[i].opt)) ==> AllCompute(s.sh.dropped))
  }

  predicate Inv(s: State) {
    AllTidy(s) && AllSorted(s) && ComputersSorted(s) && InLine(s) && AllPunctual(s) && AllRoom(s) && DropsLawful(s)
  }

  lemma PostKeepsRest(s: State, e: Event)
    requires IsPost(e) && ComputersSorted(s) && AllPunctual(s) && AllRoom(s)
    ensures var r := Apply(s, e); ComputersSorted(r) && AllPunctual(r) && AllRoom(r)
  {
    if e.PostToLocal? { LocalKeepsRest(s, e.worker); }
  }

  lemma LocalKeepsRest(s: State, i: nat)
    requires ComputersSorted(s) && AllPunctual(s) && AllRoom(s)
    ensures var r := Apply(s, PostToLocal(i)); ComputersSorted(r) && AllPunctual(r) && AllRoom(r)
  {}

  lemma PostKeepsDrops(s: State, e: Event)
    requires IsPost(e) && DropsLawful(s)
    ensures DropsLawful(Apply(s, e))
  {
    var r := Apply(s, e);
    if StopRequested(s) {
      if i :| 0 <= i < |s.workers| && s.workers[i].stop { assert r.workers[i].stop; }
      if i :| 0 <= i < |s.computers| && s.computers[i].stop { assert r.computers[i].stop; }
    }
    assert forall i :: 0 <= i < |s.workers| ==> r.workers[i].opt == s.workers[i].opt;
  }

  lemma TurnKeepsRest(s: State, me: nat, c: Choice)
    requires me < |s.workers| && AllTidy(s) && AllSorted(s) && AllPunctual(s) && AllRoom(s)
    ensures var r := WorkerStep(s, me, c); AllPunctual(r) && AllRoom(r)
  {
    if !WillSteal(s, me, c) && !Claiming(s, me) {
      OwnTimely(s.workers[me], s.sh, me, |s.workers|, c);
      OwnClocked(s.workers[me], s.sh, me, |s.workers|, c);
      OwnRoom(s.workers[me], s.sh, me, |s.workers|, c);
      OwnDrops(s.workers[me], s.sh, me, |s.workers|, c);
    }
  }

  /** The same stop flags and options, whatever else changed. */
  predicate SameFlags(s: State, r: State) {
    && r.sh.exit == s.sh.exit && |r.workers| == |s.workers| && |r.computers| == |s.computers|
    && (forall i :: 0 <= i < |s.workers| ==> r.workers[i].stop == s.workers[i].stop && r.workers[i].opt == s.workers[i].opt)
    && (forall i :: 0 <= i < |s.computers| ==> r.computers[i].stop == s.computers[i].stop)
  }

  lemma FlagsKeepDrops(s: State, r: State)
    requires DropsLawful(s) && SameFlags(s, r)
    requires r.sh.dropped == s.sh.dropped ||
      (StopRequested(s) && ((forall i :: 0 <= i < |s.workers| ==> Roomy(s.workers[i].opt)) ==> AllCompute(r.sh.dropped)))
    ensures DropsLawful(r)
  {
    if StopRequested(s) {
      if i :| 0 <= i < |s.workers| && s.workers[i].stop { assert r.workers[i].stop; }
      if i :| 0 <= i < |s.computers| && s.computers[i].stop { assert r.computers[i].stop; }
    }
    if forall i :: 0 <= i < |r.workers| ==> Roomy(r.workers[i].opt) {
      assert forall i :: 0 <= i < |s.workers| ==> s.workers[i].opt == r.workers[i].opt;
    }
  }

  lemma TurnKeepsDrops(s: State, me: nat, c: Choice)
    requires me < |s.workers| && AllTidy(s) && AllRoom(s) && DropsLawful(s)
    ensures DropsLawful(WorkerStep(s, me, c))
  {
    if !WillSteal(s, me, c) && !Claiming(s, me) {
      OwnRoom(s.workers[me], s.sh, me, |s.workers|, c);
      OwnDrops(s.workers[me], s.sh, me, |s.workers|, c);
    }
    FlagsKeepDrops(s, WorkerStep(s, me, c));
  }

  lemma ComputeKeepsRest(s: State, i: nat)
    requires i < |s.computers| && ComputersSorted(s) && AllPunctual(s) && AllRoom(s) && DropsLawful(s)
    ensures var r := Apply(s, ComputeTurn(i)); AllPunctual(r) && AllRoom(r) && DropsLawful(r)
  {
    var w := s.computers[i];
    var r := Apply(s, ComputeTurn(i));
    if w.pc.CLoop? && w.batch != [] {
      TimelyBegin(s.sh, w.batch[0]);
    }
    FlagsKeepDrops(s, r);
  }

  /** Every step of every thread keeps the invariant. */
  lemma StepInv(s: State, e: Event)
    requires Inv(s)
    ensures Inv(Apply(s, e))
  {
    match e
    case Turn(i, c) =>
      if i < |s.workers| {
        TurnKeepsTidy(s, i, c);
        TurnKeepsLine(s, i, c);
        TurnKeepsRest(s, i, c);
        TurnKeepsDrops(s, i, c);
      }
    case ComputeTurn(i) =>
      if i < |s.computers| {
        ComputeKeepsTidy(s, i);
        ComputeKeepsLine(s, i);
        ComputeKeepsRest(s, i);
      }
    case _ =>
      PostKeepsTidy(s, e);
      PostKeepsLine(s, e);
      PostKeepsRest(s, e);
      PostKeepsDrops(s, e);
  }

  lemma {:induction false} NoneHeld(ws: seq<Worker>, j: Job)
    requires forall i :: 0 <= i < |ws| ==> Held(ws[i], j) == 0
    ensures HeldByAll(ws, j) == 0
    decreases |ws|
  {
    if ws != [] { NoneHeld(ws[..|ws| - 1], j); }
  }

  lemma {:induction false} NoneHeldByComputers(cs: seq<Computer>, j: Job)
    requires forall i :: 0 <= i < |cs| ==> cs[i].batch == []
    ensures HeldByComputers(cs, j) == 0
    decreases |cs|
  {
    if cs != [] { NoneHeldByComputers(cs[..|cs| - 1], j); }
  }

  lemma FreshOk(opt: Options, i: nat, sh: Shared)
    requires sh.started == []
    ensures var w := Fresh(opt); Tidy(w, i) && Sorted(w, i) && Line(w, sh, i) == [] && Clocked(w.pc, sh.now) && Room(w) && Dutiful(w, sh)
  {}

  lemma InitInv(opts: seq<Options>, batchSizes: seq<nat>, now: int)
    ensures Inv(Init(opts, batchSizes, now))
  {
    var s := Init(opts, batchSizes, now);
    forall i | 0 <= i < |opts|
      ensures s.workers[i] == Fresh(opts[i]) && Tidy(s.workers[i], i) && Sorted(s.workers[i], i) && Line(s.workers[i], s.sh, i) == []
      ensures Clocked(s.workers[i].pc, s.sh.now) && Room(s.workers[i]) && Dutiful(s.workers[i], s.sh)
    {
      FreshOk(opts[i], i, s.sh);
    }
  }

  lemma InitTotal(opts: seq<Options>, batchSizes: seq<nat>, now: int, j: Job)
    ensures Total(Init(opts, batchSizes, now), j) == 0
  {
    var s := Init(opts, batchSizes, now);
    forall i | 0 <= i < |s.workers| ensures Held(s.workers[i], j) == 0 {
      NoneCounted(s.workers[i].local.slots, |s.workers[i].local.slots|, j);
    }
    NoneHeld(s.workers, j);
    NoneHeldByComputers(Init(opts, batchSizes, now).computers, j);
  }

  lemma {:induction false} RunInv(s: State, evs: seq<Event>)
    requires Inv(s)
    ensures Inv(Exec(s, evs))
    decreases |evs|
  {
    if evs != [] {
      RunInv(s, evs[..|evs| - 1]);
      StepInv(Exec(s, evs[..|evs| - 1]), evs[|evs| - 1]);
    }
  }

  lemma {:induction false} RunConserves(s: State, evs: seq<Event>, j: Job)
    requires Inv(s)
    ensures var r := Exec(s, evs); Total(r, j) - Count(r.accepted, j) == Total(s, j) - Count(s.accepted, j)
    decreases |evs|
  {
    if evs != [] {
      RunConserves(s, evs[..|evs| - 1], j);
      RunInv(s, evs[..|evs| - 1]);
      StepConserves(Exec(s, evs[..|evs| - 1]), evs[|evs| - 1], j);
    }
  }

  /** Accepted posts are numbered, so no two are the same job. */
  lemma {:induction false} RunNumbers(s: State, evs: seq<Event>)
    requires forall k :: 0 <= k < |s.accepted| ==> s.accepted[k].id == k
    ensures forall k :: 0 <= k < |Exec(s, evs).accepted| ==> Exec(s, evs).accepted[k].id == k
    decreases |evs|
  {
    if evs != [] { RunNumbers(s, evs[..|evs| - 1]); }
  }

  // ---- the theorems

  /** The states that some run reaches. */
  ghost predicate Reachable(s: State) {
    exists opts, batchSizes, now, evs :: s == Exec(Init(opts, batchSizes, now), evs)
  }

  function BagOf(w: Worker): multiset<Job> {
    multiset(w.inbound) + multiset(w.drained) + multiset(w.privates) + multiset(w.timers)
    + multiset(Kept(w.local.slots, |w.local.slots|)) + multiset(w.batch) + multiset(w.hand)
  }

  function BagOfAll(ws: seq<Worker>): multiset<Job> {
    if ws == [] then multiset{} else BagOfAll(ws[..|ws| - 1]) + BagOf(ws[|ws| - 1])
  }

  function BagOfComputers(cs: seq<Computer>): multiset<Job> {
    if cs == [] then multiset{} else BagOfComputers(cs[..|cs| - 1]) + multiset(cs[|cs| - 1].batch)
  }

  /** What has begun and what can still begin: pooled, queued or held. */
  function Alive(s: State): multiset<Job> {
    multiset(s.sh.started) + multiset(s.sh.micro) + multiset(s.sh.compute) + BagOfAll(s.workers) + BagOfComputers(s.computers)
  }

  /** Everything that is or was somewhere. */
  function Everything(s: State): multiset<Job> { Alive(s) + multiset(s.sh.dropped) + multiset(s.sh.lost) }

  lemma {:induction false} CountIsMultiplicity(xs: seq<Job>, j: Job)
    ensures Count(xs, j) == multiset(xs)[j]
    decreases |xs|
  {
    if xs != [] {
      CountIsMultiplicity(xs[..|xs| - 1], j);
      assert xs == xs[..|xs| - 1] + [xs[|xs| - 1]];
    }
  }

  lemma HeldIsMultiplicity(w: Worker, j: Job)
    ensures Held(w, j) == BagOf(w)[j]
  {
    CountIsMultiplicity(w.inbound, j);
    CountIsMultiplicity(w.drained, j);
    CountIsMultiplicity(w.privates, j);
    CountIsMultiplicity(w.timers, j);
    CountKept(w.local.slots, |w.local.slots|, j);
    CountIsMultiplicity(Kept(w.local.slots, |w.local.slots|), j);
    CountIsMultiplicity(w.batch, j);
    CountIsMultiplicity(w.hand, j);
  }

  lemma {:induction false} HeldByAllIsMultiplicity(ws: seq<Worker>, j: Job)
    ensures HeldByAll(ws, j) == BagOfAll(ws)[j]
    decreases |ws|
  {
    if ws != [] {
      HeldByAllIsMultiplicity(ws[..|ws| - 1], j);
      HeldIsMultiplicity(ws[|ws| - 1], j);
    }
  }

  lemma {:induction false} HeldByComputersIsMultiplicity(cs: seq<Computer>, j: Job)
    ensures HeldByComputers(cs, j) == BagOfComputers(cs)[j]
    decreases |cs|
  {
    if cs != [] {
      HeldByComputersIsMultiplicity(cs[..|cs| - 1], j);
      CountIsMultiplicity(cs[|cs| - 1].batch, j);
    }
  }

  lemma TotalIsMultiplicity(s: State, j: Job)
    ensures Total(s, j) == Everything(s)[j]
  {
    CountIsMultiplicity(s.sh.started, j);
    CountIsMultiplicity(s.sh.dropped, j);
    CountIsMultiplicity(s.sh.lost, j);
    CountIsMultiplicity(s.sh.micro, j);
    CountIsMultiplicity(s.sh.compute, j);
    HeldByAllIsMultiplicity(s.workers, j);
    HeldByComputersIsMultiplicity(s.computers, j);
  }

  /** Conservation in every reachable state, across all workers and steals: the accepted
      tasks are exactly those begun, dropped, pooled, queued and held. */
  lemma TasksConserved(s: State)
    requires Reachable(s)
    ensures multiset(s.accepted) == Everything(s)
  {
    var opts, batchSizes, now, evs :| s == Exec(Init(opts, batchSizes, now), evs);
    InitInv(opts, batchSizes, now);
    forall j: Job ensures multiset(s.accepted)[j] == Everything(s)[j] {
      RunConserves(Init(opts, batchSizes, now), evs, j);
      InitTotal(opts, batchSizes, now, j);
      TotalIsMultiplicity(s, j);
      CountIsMultiplicity(s.accepted, j);
    }
  }

  lemma ReachableInv(s: State)
    requires Reachable(s)
    ensures Inv(s) && forall k :: 0 <= k < |s.accepted| ==> s.accepted[k].id == k
  {
    var opts, batchSizes, now, evs :| s == Exec(Init(opts, batchSizes, now), evs);
    InitInv(opts, batchSizes, now);
    RunInv(Init(opts, batchSizes, now), evs);
    RunNumbers(Init(opts, batchSizes, now), evs);
  }

  lemma {:induction false} TwoCounted(xs: seq<Job>, a: nat, b: nat)
    requires a < b < |xs| && xs[a] == xs[b]
    ensures Count(xs, xs[a]) >= 2
  {
    CountTake(xs, b, xs[a]);
    CountOne(xs[b], xs[a]);
    var rest := xs[..b] + xs[b + 1..];
    assert rest[a] == xs[a];
    CountTake(rest, a, xs[a]);
    CountOne(rest[a], xs[a]);
  }

  lemma {:induction false} NumberedOnce(xs: seq<Job>, j: Job)
    requires forall a, b :: 0 <= a < b < |xs| ==> xs[a].id != xs[b].id
    ensures Count(xs, j) <= 1 && (Count(xs, j) == 1 ==> j in xs)
    decreases |xs|
  {
    if xs != [] {
      var rest := xs[..|xs| - 1];
      NumberedOnce(rest, j);
    }
  }

  /** No task is begun twice, before or after a stop, and every task begun was accepted. */
  lemma NothingRunsTwice(s: State, a: nat, b: nat)
    requires Reachable(s) && a < b < |s.sh.started|
    ensures s.sh.started[a] != s.sh.started[b] && s.sh.started[a] in s.accepted
  {
    ReachableInv(s);
    TasksConserved(s);
    var j := s.sh.started[a];
    NumberedOnce(s.accepted, j);
    CountIsMultiplicity(s.accepted, j);
    CountIsMultiplicity(s.sh.started, j);
    if s.sh.started[b] == j { TwoCounted(s.sh.started, a, b); }
    assert j in multiset(s.sh.started);
  }

  /** Until a stop is requested nothing is dropped: the accepted tasks have begun or can
      still begin, but for those destroyed in their slots. */
  lemma NothingDroppedBeforeStop(s: State)
    requires Reachable(s) && !StopRequested(s)
    ensures s.sh.dropped == [] && multiset(s.accepted) == Alive(s) + multiset(s.sh.lost)
  {
    ReachableInv(s);
    TasksConserved(s);
  }

  /** With room for a whole harvest in every local deque, a stop loses none but compute
      tasks, and a harvest never runs a task inline. */
  lemma RoomyLosesOnlyCompute(s: State)
    requires Reachable(s) && forall i :: 0 <= i < |s.workers| ==> Roomy(s.workers[i].opt)
    ensures AllCompute(s.sh.dropped)
    ensures forall i :: 0 <= i < |s.workers| && s.workers[i].pc.Running? ==> !s.workers[i].pc.back.InHarvest?
  {
    ReachableInv(s);
  }

  /** A worker with these options can turn to the global pool with tasks of its own. */
  ghost predicate HarvestsWithWork(opt: Options) {
    exists s :: Reachable(s) && WithWork(s, opt)
  }

  predicate WithWork(s: State, opt: Options) {
    exists i :: 0 <= i < |s.workers| && s.workers[i].opt == opt && s.workers[i].pc.Harvest? && Size(s.workers[i].local) > 0
  }

  /** The local deque is empty whenever a worker turns to the global pool, as the code's
      comment says, exactly when its local batch is not zero (or its deque holds nothing). */
  lemma HarvestFindsEmptyDeque(opt: Options)
    ensures !HarvestsWithWork(opt) <==> opt.localBatch > 0 || opt.maxSize == 0
  {
    if opt.localBatch == 0 && opt.maxSize > 0 {
      OwnWorkAtHarvest(opt);
    } else if HarvestsWithWork(opt) {
      var s :| Reachable(s) && WithWork(s, opt);
      ReachableInv(s);
    }
  }

  lemma ExecOneMore(s: State, evs: seq<Event>, e: Event)
    ensures Exec(s, evs + [e]) == Apply(Exec(s, evs), e)
  {
    assert (evs + [e])[..|evs|] == evs;
  }

  const Go: Event := Turn(0, Choice(0, 0, false))

  /** Some run from s0 ends with one worker w and the shared part sh. */
  ghost predicate Reaches(s0: State, w: Worker, sh: Shared) {
    exists evs :: Exec(s0, evs).workers == [w] && Exec(s0, evs).sh == sh
  }

  /** One more turn of the only worker. */
  lemma GoOn(s0: State, w: Worker, w': Worker, sh: Shared)
    requires Reaches(s0, w, sh) && !w.pc.StealFrom? && OwnStep(w, sh, 0, 1, Choice(0, 0, false)) == Out(w', sh)
    ensures Reaches(s0, w', sh)
  {
    var evs :| Exec(s0, evs).workers == [w] && Exec(s0, evs).sh == sh;
    ExecOneMore(s0, evs, Go);
    assert Exec(s0, evs + [Go]).workers == [w'];
  }

  /** An event callback posts to its own worker's deque. */
  lemma PostLocally(s0: State, w: Worker, sh: Shared)
    requires Reaches(s0, w, sh) && w.pc.Poll? && w.local == Empty(w.opt.maxSize) && w.opt.maxSize > 0
    ensures exists d :: Size(d) > 0 && Reaches(s0, w.(local := d), sh)
  {
    var evs :| Exec(s0, evs).workers == [w] && Exec(s0, evs).sh == sh;
    var s := Exec(s0, evs);
    var d := Pushed(w.local, Accept(s, Local(0)));
    ExecOneMore(s0, evs, PostToLocal(0));
    assert Losing(sh, w.local) == sh by { assert sh.lost + [] == sh.lost; }
    assert Exec(s0, evs + [PostToLocal(0)]).workers == [w.(local := d)];
    assert Size(d) > 0 && Reaches(s0, w.(local := d), sh);
  }

  lemma FromPollToTimers(s0: State, w: Worker, sh: Shared)
    requires Reaches(s0, w.(pc := Poll), sh) && w.inbound == [] && w.drained == [] && w.privates == []
    ensures Reaches(s0, w.(pc := Timers(sh.now)), sh)
  {
    GoOn(s0, w.(pc := Poll), w.(pc := Drain), sh);
    GoOn(s0, w.(pc := Drain), w.(pc := Distribute), sh);
    GoOn(s0, w.(pc := Distribute), w.(pc := Privates), sh);
    GoOn(s0, w.(pc := Privates), w.(pc := Timers(sh.now)), sh);
  }

  lemma FromTimersToHarvest(s0: State, w: Worker, sh: Shared)
    requires Reaches(s0, w.(pc := Timers(sh.now)), sh) && w.timers == [] && !Stopping(w, sh) && w.opt.localBatch == 0
    ensures Reaches(s0, w.(pc := Harvest), sh)
  {
    GoOn(s0, w.(pc := Timers(sh.now)), w.(pc := Gate), sh);
    GoOn(s0, w.(pc := Gate), w.(pc := Batch(0)), sh);
    GoOn(s0, w.(pc := Batch(0)), w.(pc := Harvest), sh);
  }

  /** A task posted locally by an event callback waits in the deque when the worker's
      batch size admits none. */
  lemma OwnWorkAtHarvest(opt: Options)
    requires opt.localBatch == 0 && opt.maxSize > 0
    ensures HarvestsWithWork(opt)
  {
    var s0 := Init([opt], [], 0);
    var w, sh := Fresh(opt), s0.sh;
    assert Exec(s0, []).workers == [w] && Exec(s0, []).sh == sh;
    GoOn(s0, w, w.(pc := Poll), sh);
    PostLocally(s0, w.(pc := Poll), sh);
    var d :| Size(d) > 0 && Reaches(s0, w.(pc := Poll, local := d), sh);
    FromPollToTimers(s0, w.(local := d), sh);
    FromTimersToHarvest(s0, w.(local := d), sh);
    var evs :| Exec(s0, evs).workers == [w.(pc := Harvest, local := d)] && Exec(s0, evs).sh == sh;
    assert Exec(s0, evs).workers[0].local == d;
    assert Reachable(Exec(s0, evs)) && WithWork(Exec(s0, evs), opt);
  }

  /** Private tasks run in the order of their posts, on every worker. */
  lemma PrivateOrder(s: State, i: nat)
    requires Reachable(s) && i < |s.workers|
    ensures Letters(s.sh.started, i) + s.workers[i].privates + Letters(s.workers[i].drained, i) + Letters(s.workers[i].inbound, i)
         == Letters(s.accepted, i)
  {
    ReachableInv(s);
    assert Line(s.workers[i], s.sh, i) == Letters(s.accepted, i);
  }

  /** No timer runs before its deadline. */
  lemma TimersNotEarly(s: State, k: nat)
    requires Reachable(s) && k < |s.sh.started| && s.sh.started[k].kind.Delayed?
    ensures k < |s.sh.times| && s.sh.started[k].kind.deadline <= s.sh.times[k]
  {
    ReachableInv(s);
  }
}
