/** When a task is destroyed in its slot, and when the local deques are the deque of TaskDeque:
    the condition of TaskDeque.OverrunIffWrapped over every run of the whole runtime. */
module HiveLosses {
  import opened Hive
  import opened LocalDeque
  import HiveProofs
  import TaskDeque

  // ---- the history of claims and the thieves agree

  predicate On(p: Pc, v: nat, t: nat) { p.Claim? && p.victim == v && p.t == t }

  /** Some thief has claimed index t of worker v and not read it. */
  ghost predicate Pending(ws: seq<Worker>, v: nat, t: nat) { exists i :: 0 <= i < |ws| && On(ws[i].pc, v, t) }

  ghost predicate ClaimKnown(ws: seq<Worker>, i: nat)
    requires i < |ws|
  {
    var p := ws[i].pc;
    p.Claim? ==> p.victim < |ws| && p.victim != i && p.t in ws[p.victim].local.unread
  }

  ghost predicate ClaimsOf(ws: seq<Worker>, v: nat)
    requires v < |ws|
  {
    forall t :: t in ws[v].local.unread ==> t < ws[v].local.top && Pending(ws, v, t)
  }

  predicate SameClaim(p: Pc, q: Pc) { p.Claim? && q.Claim? && p.victim == q.victim && p.t == q.t }

  ghost predicate Linked(ws: seq<Worker>) {
    && (forall i :: 0 <= i < |ws| ==> ClaimKnown(ws, i))
    && (forall v :: 0 <= v < |ws| ==> ClaimsOf(ws, v))
    && (forall i, k :: 0 <= i < k < |ws| ==> !SameClaim(ws[i].pc, ws[k].pc))
  }

  /** Worker me changes, but is no thief before or after. */
  lemma LinkedOne(ws: seq<Worker>, me: nat, w: Worker)
    requires Linked(ws) && me < |ws| && !ws[me].pc.Claim? && !w.pc.Claim?
    requires w.local.unread == ws[me].local.unread && w.local.top >= ws[me].local.top
    ensures Linked(ws[me := w])
  {
    var r := ws[me := w];
    forall i | 0 <= i < |r| ensures ClaimKnown(r, i) { assert ClaimKnown(ws, i); }
    forall v | 0 <= v < |r| ensures ClaimsOf(r, v) {
      assert ClaimsOf(ws, v);
      forall t | t in r[v].local.unread ensures t < r[v].local.top && Pending(r, v, t) {
        var i :| 0 <= i < |ws| && On(ws[i].pc, v, t);
        assert On(r[i].pc, v, t);
      }
    }
  }

  /** Positions and deques are as they were. */
  lemma LinkedSame(ws: seq<Worker>, r: seq<Worker>)
    requires Linked(ws) && |r| == |ws|
    requires forall i :: 0 <= i < |ws| ==> r[i].pc == ws[i].pc && r[i].local == ws[i].local
    ensures Linked(r)
  {
    forall i | 0 <= i < |r| ensures ClaimKnown(r, i) { assert ClaimKnown(ws, i); }
    forall v | 0 <= v < |r| ensures ClaimsOf(r, v) {
      assert ClaimsOf(ws, v);
      forall t | t in r[v].local.unread ensures t < r[v].local.top && Pending(r, v, t) {
        var i :| 0 <= i < |ws| && On(ws[i].pc, v, t);
        assert On(r[i].pc, v, t);
      }
    }
  }

  lemma LinkedClaim(ws: seq<Worker>, v: nat, me: nat, p: Pc)
    requires Linked(ws) && v < |ws| && me < |ws| && v != me && !ws[me].pc.Claim?
    requires Size(ws[v].local) > 0 && On(p, v, ws[v].local.top)
    ensures Linked(ws[v := ws[v].(local := Claimed(ws[v].local))][me := ws[me].(pc := p)])
  {
    var r := ws[v := ws[v].(local := Claimed(ws[v].local))][me := ws[me].(pc := p)];
    assert ClaimsOf(ws, v);
    forall i | 0 <= i < |r| ensures ClaimKnown(r, i) { assert ClaimKnown(ws, i); }
    forall u | 0 <= u < |r| ensures ClaimsOf(r, u) {
      assert ClaimsOf(ws, u);
      forall t | t in r[u].local.unread ensures t < r[u].local.top && Pending(r, u, t) {
        if t in ws[u].local.unread {
          var i :| 0 <= i < |ws| && On(ws[i].pc, u, t);
          assert On(r[i].pc, u, t);
        } else {
          assert On(r[me].pc, u, t);
        }
      }
    }
    forall i, k | 0 <= i < k < |r| ensures !SameClaim(r[i].pc, r[k].pc) {
      assert !SameClaim(ws[i].pc, ws[k].pc);
      assert ClaimKnown(ws, i) && ClaimKnown(ws, k);
    }
  }

  lemma LinkedRead(ws: seq<Worker>, me: nat, w: Worker)
    requires Linked(ws) && me < |ws| && ws[me].pc.Claim? && ws[me].pc.victim < |ws| && !w.pc.Claim? && w.local == ws[me].local
    ensures var p := ws[me].pc; Linked(ws[p.victim := ws[p.victim].(local := Read(ws[p.victim].local, p.t))][me := w])
  {
    var p := ws[me].pc;
    assert ClaimKnown(ws, me);
    var r := ws[p.victim := ws[p.victim].(local := Read(ws[p.victim].local, p.t))][me := w];
    forall i | 0 <= i < |r| ensures ClaimKnown(r, i) {
      assert ClaimKnown(ws, i);
      if i < me { assert !SameClaim(ws[i].pc, ws[me].pc); }
      if me < i { assert !SameClaim(ws[me].pc, ws[i].pc); }
    }
    forall u | 0 <= u < |r| ensures ClaimsOf(r, u) {
      assert ClaimsOf(ws, u);
      forall t | t in r[u].local.unread ensures t < r[u].local.top && Pending(r, u, t) {
        var i :| 0 <= i < |ws| && On(ws[i].pc, u, t);
        assert i != me;
        assert On(r[i].pc, u, t);
      }
    }
    forall i, k | 0 <= i < k < |r| ensures !SameClaim(r[i].pc, r[k].pc) { assert !SameClaim(ws[i].pc, ws[k].pc); }
  }

  // ---- what a worker's own step does to its deque

  predicate Pushes(w: Worker) { w.pc.Offer? && w.hand != [] && HasRoom(w.local) }

  predicate Pops(w: Worker) { w.pc.Batch? && w.pc.ran < w.opt.localBatch && Size(w.local) > 0 }

  lemma OwnDeque(w: Worker, sh: Shared, me: nat, n: nat, c: Choice)
    requires !w.pc.Claim?
    ensures var o := OwnStep(w, sh, me, n, c);
      && !o.w.pc.Claim?
      && o.w.local == (if Pushes(w) then Pushed(w.local, w.hand[0]) else if Pops(w) then Popped(w.local) else w.local)
      && o.sh.lost == (if Pushes(w) then sh.lost + AsSeq(At(w.local, w.local.bottom)) else sh.lost)
  {
    if w.pc.Offer? { OfferDeque(w, sh); } else if w.pc.Batch? { BatchDeque(w, sh); }
  }

  lemma OfferDeque(w: Worker, sh: Shared)
    requires w.pc.Offer?
    ensures var o := OfferStep(w, sh);
      && !o.w.pc.Claim? && o.w.local == (if Pushes(w) then Pushed(w.local, w.hand[0]) else w.local)
      && o.sh.lost == (if Pushes(w) then sh.lost + AsSeq(At(w.local, w.local.bottom)) else sh.lost)
  {}

  lemma BatchDeque(w: Worker, sh: Shared)
    requires w.pc.Batch?
    ensures var o := BatchStep(w, sh);
      !o.w.pc.Claim? && o.w.local == (if Pops(w) then Popped(w.local) else w.local) && o.sh.lost == sh.lost
  {}

  predicate PostsLocally(s: State, e: Event) {
    e.PostToLocal? && e.worker < |s.workers| && (s.workers[e.worker].pc.Running? || s.workers[e.worker].pc.Poll?)
  }

  /** The event pushes a task on worker v's deque. */
  predicate PushesOn(s: State, e: Event, v: nat) {
    && v < |s.workers|
    && (|| (e.Turn? && e.worker == v && Pushes(s.workers[v]))
        || (PostsLocally(s, e) && e.worker == v && HasRoom(s.workers[v].local)))
  }

  /** Some thief claimed an index of worker v a whole round before the next push there, and
      has not read it. */
  ghost predicate Overtaken(s: State, v: nat) {
    v < |s.workers| && exists i :: 0 <= i < |s.workers| && Behind(s.workers[i].pc, v, s.workers[v].local)
  }

  predicate Behind(p: Pc, v: nat, d: Deque<Job>) { p.Claim? && p.victim == v && p.t + |d.slots| == d.bottom }

  // ---- the invariant

  ghost predicate AllSound(ws: seq<Worker>) { forall v :: 0 <= v < |ws| ==> Sound(ws[v].local) }

  ghost predicate Careful(s: State) {
    Linked(s.workers) && (s.sh.lost == [] ==> AllSound(s.workers))
  }

  /** The next push on worker v's deque finds its slot full exactly when a thief is overtaken. */
  lemma FullIffOvertaken(s: State, v: nat)
    requires Careful(s) && s.sh.lost == [] && v < |s.workers| && HasRoom(s.workers[v].local)
    ensures At(s.workers[v].local, s.workers[v].local.bottom).Some? <==> Overtaken(s, v)
  {
    var ws, d := s.workers, s.workers[v].local;
    OverwritesIffWrapped(d);
    if At(d, d.bottom).Some? {
      var t :| t in d.unread && t + |d.slots| == d.bottom;
      assert ClaimsOf(ws, v);
      var i :| 0 <= i < |ws| && On(ws[i].pc, v, t);
      assert Behind(ws[i].pc, v, d);
    }
    if Overtaken(s, v) {
      var i :| 0 <= i < |ws| && Behind(ws[i].pc, v, d);
      assert ClaimKnown(ws, i);
    }
  }

  lemma OwnCareful(s: State, me: nat, c: Choice)
    requires me < |s.workers| && Careful(s) && !s.workers[me].pc.Claim? && !WillSteal(s, me, c)
    ensures Careful(WorkerStep(s, me, c))
  {
    var w := s.workers[me];
    OwnDeque(w, s.sh, me, |s.workers|, c);
    LinkedOne(s.workers, me, OwnStep(w, s.sh, me, |s.workers|, c).w);
    if s.sh.lost == [] {
      if Pushes(w) && At(w.local, w.local.bottom).None? { PushSound(w.local, w.hand[0]); }
      if Pops(w) { PopSound(w.local); }
    }
  }

  lemma ClaimCareful(s: State, me: nat)
    requires me < |s.workers| && WillSteal(s, me, Choice(0, 0, false)) && Careful(s)
    ensures Careful(ClaimStep(s, me))
  {
    var p := s.workers[me].pc;
    var d := s.workers[p.victim].local;
    LinkedClaim(s.workers, p.victim, me, Claim(p.victim, d.top, p.left - 1, p.got, p.try));
    if s.sh.lost == [] { ClaimSound(d); }
  }

  lemma ReadCareful(s: State, me: nat)
    requires me < |s.workers| && Claiming(s, me) && Careful(s)
    ensures Careful(ReadStep(s, me))
  {
    var p := s.workers[me].pc;
    assert ClaimKnown(s.workers, me);
    LinkedRead(s.workers, me, ReadStep(s, me).workers[me]);
    if s.sh.lost == [] { ReadSound(s.workers[p.victim].local, p.t); }
  }

  lemma TurnCareful(s: State, me: nat, c: Choice)
    requires me < |s.workers| && Careful(s)
    ensures Careful(WorkerStep(s, me, c))
  {
    assert ClaimKnown(s.workers, me);
    if WillSteal(s, me, c) {
      ClaimCareful(s, me);
    } else if Claiming(s, me) {
      ReadCareful(s, me);
    } else {
      OwnCareful(s, me, c);
    }
  }

  lemma LocalCareful(s: State, i: nat)
    requires Careful(s) && PostsLocally(s, PostToLocal(i)) && HasRoom(s.workers[i].local)
    ensures Careful(Apply(s, PostToLocal(i)))
  {
    var w, j := s.workers[i], Accept(s, Local(i));
    LinkedOne(s.workers, i, w.(local := Pushed(w.local, j)));
    if s.sh.lost == [] && At(w.local, w.local.bottom).None? { PushSound(w.local, j); }
  }

  lemma StepCareful(s: State, e: Event)
    requires Careful(s)
    ensures Careful(Apply(s, e))
  {
    if e.Turn? && e.worker < |s.workers| {
      TurnCareful(s, e.worker, e.c);
    } else if PostsLocally(s, e) && HasRoom(s.workers[e.worker].local) {
      LocalCareful(s, e.worker);
    } else {
      LinkedSame(s.workers, Apply(s, e).workers);
    }
  }

  lemma {:induction false} RunCareful(s: State, evs: seq<Event>)
    requires Careful(s)
    ensures Careful(Exec(s, evs))
    decreases |evs|
  {
    if evs != [] {
      RunCareful(s, evs[..|evs| - 1]);
      StepCareful(Exec(s, evs[..|evs| - 1]), evs[|evs| - 1]);
    }
  }

  lemma ReachableCareful(s: State)
    requires HiveProofs.Reachable(s)
    ensures Careful(s)
  {
    var opts: seq<Options>, batchSizes: seq<nat>, now: int, evs: seq<Event> :| s == Exec(Init(opts, batchSizes, now), evs);
    var s0 := Init(opts, batchSizes, now);
    forall v | 0 <= v < |s0.workers| ensures Sound(s0.workers[v].local) { EmptySound<Job>(opts[v].maxSize); }
    RunCareful(s0, evs);
  }

  lemma PushLoses(s: State, e: Event, v: nat)
    requires PushesOn(s, e, v)
    ensures Apply(s, e).sh.lost == s.sh.lost + AsSeq(At(s.workers[v].local, s.workers[v].local.bottom))
  {
    if e.Turn? { OwnDeque(s.workers[v], s.sh, v, |s.workers|, e.c); }
  }

  lemma OthersLoseNothing(s: State, e: Event)
    requires Careful(s) && forall v: nat :: !PushesOn(s, e, v)
    ensures Apply(s, e).sh.lost == s.sh.lost
  {
    if e.Turn? && e.worker < |s.workers| {
      assert !PushesOn(s, e, e.worker) && ClaimKnown(s.workers, e.worker);
      if !s.workers[e.worker].pc.Claim? { OwnDeque(s.workers[e.worker], s.sh, e.worker, |s.workers|, e.c); }
    } else if PostsLocally(s, e) {
      assert !PushesOn(s, e, e.worker);
    }
  }

  // ---- the theorems

  /** The first task is destroyed exactly at a push on a deque of which some thief claimed
      the index one round earlier and has not read it; and it is that thief's task. */
  lemma LossExactly(s: State, e: Event)
    requires HiveProofs.Reachable(s) && s.sh.lost == []
    ensures Apply(s, e).sh.lost != [] <==> exists v: nat :: PushesOn(s, e, v) && Overtaken(s, v)
    ensures forall v: nat, i: nat :: PushesOn(s, e, v) && i < |s.workers| && Behind(s.workers[i].pc, v, s.workers[v].local) ==>
      Apply(s, e).sh.lost == AsSeq(At(s.workers[v].local, s.workers[i].pc.t))
  {
    ReachableCareful(s);
    if v: nat :| PushesOn(s, e, v) {
      PushLossExactly(s, e, v);
      assert forall u: nat :: PushesOn(s, e, u) ==> u == v;
    } else {
      OthersLoseNothing(s, e);
    }
  }

  lemma PushLossExactly(s: State, e: Event, v: nat)
    requires Careful(s) && s.sh.lost == [] && PushesOn(s, e, v)
    ensures Apply(s, e).sh.lost != [] <==> Overtaken(s, v)
    ensures forall i: nat :: i < |s.workers| && Behind(s.workers[i].pc, v, s.workers[v].local) ==>
      Apply(s, e).sh.lost == AsSeq(At(s.workers[v].local, s.workers[i].pc.t))
  {
    PushLoses(s, e, v);
    FullIffOvertaken(s, v);
    var d := s.workers[v].local;
    forall i: nat | i < |s.workers| && Behind(s.workers[i].pc, v, d) ensures At(d, s.workers[i].pc.t) == At(d, d.bottom) {
      RoundLater(s.workers[i].pc.t, |d.slots|);
    }
  }

  lemma RoundLater(t: nat, cap: nat)
    requires cap > 0
    ensures TaskDeque.Slot(t + cap, cap) == TaskDeque.Slot(t, cap)
  {}

  /** What happens to worker v's deque, in the words of TaskDeque. */
  function LabelOn(s: State, e: Event, v: nat): TaskDeque.Label
    requires v < |s.workers|
  {
    var w := s.workers[v];
    if PushesOn(s, e, v) then TaskDeque.Pushed(if e.Turn? then w.hand[0].id else |s.accepted|)
    else if PostsLocally(s, e) && e.worker == v then TaskDeque.PushRefused
    else if !e.Turn? || e.worker >= |s.workers| then TaskDeque.Stutter
    else if e.worker == v then
      if w.pc.Offer? && w.hand != [] then TaskDeque.PushRefused
      else if w.pc.Batch? && w.pc.ran < w.opt.localBatch then
        if Size(w.local) == 0 then TaskDeque.PopMissed else TaskDeque.Popped(IdAt(w.local, w.local.bottom - 1))
      else TaskDeque.Stutter
    else if WillSteal(s, e.worker, e.c) && s.workers[e.worker].pc.victim == v then TaskDeque.Stolen(IdAt(w.local, w.local.top))
    else TaskDeque.Stutter
  }

  function IdOf(j: Job): nat { j.id }

  function IdAt(d: Deque<Job>, i: nat): nat { if At(d, i).Some? then At(d, i).value.id else 0 }

  /** Until a task is destroyed every event is one step of every worker's deque, as the
      bounded deque that TaskDeque.StepRefines implements. */
  lemma DequesAreAbstract(s: State, e: Event, v: nat)
    requires HiveProofs.Reachable(s) && s.sh.lost == [] && Apply(s, e).sh.lost == [] && v < |s.workers|
    ensures Sound(s.workers[v].local) && Sound(Apply(s, e).workers[v].local)
    ensures TaskDeque.AbsNext(Ids(s.workers[v].local, IdOf), LabelOn(s, e, v), Ids(Apply(s, e).workers[v].local, IdOf),
                              |s.workers[v].local.slots| - 1)
  {
    ReachableCareful(s);
    StepCareful(s, e);
    var d := s.workers[v].local;
    if PushesOn(s, e, v) {
      PushAbstract(s, e, v);
    } else if PostsLocally(s, e) && e.worker == v {
      PushIsAbstract(d, Accept(s, Local(v)), IdOf);
    } else if e.Turn? && e.worker < |s.workers| {
      TurnAbstract(s, e.worker, e.c, v);
    }
  }

  lemma PushAbstract(s: State, e: Event, v: nat)
    requires Careful(s) && s.sh.lost == [] && Apply(s, e).sh.lost == [] && PushesOn(s, e, v)
    ensures Sound(s.workers[v].local) && Sound(Apply(s, e).workers[v].local)
    ensures TaskDeque.AbsNext(Ids(s.workers[v].local, IdOf), LabelOn(s, e, v), Ids(Apply(s, e).workers[v].local, IdOf),
                              |s.workers[v].local.slots| - 1)
  {
    var w := s.workers[v];
    var x := if e.Turn? then w.hand[0] else Accept(s, Local(v));
    if e.Turn? { OwnDeque(w, s.sh, v, |s.workers|, e.c); }
    assert Apply(s, e).workers[v].local == Pushed(w.local, x);
    PushIsAbstract(w.local, x, IdOf);
  }

  lemma TurnAbstract(s: State, me: nat, c: Choice, v: nat)
    requires Careful(s) && s.sh.lost == [] && me < |s.workers| && v < |s.workers| && Careful(Apply(s, Turn(me, c)))
    requires !PushesOn(s, Turn(me, c), v) && Apply(s, Turn(me, c)).sh.lost == []
    ensures Sound(s.workers[v].local) && Sound(Apply(s, Turn(me, c)).workers[v].local)
    ensures TaskDeque.AbsNext(Ids(s.workers[v].local, IdOf), LabelOn(s, Turn(me, c), v), Ids(Apply(s, Turn(me, c)).workers[v].local, IdOf),
                              |s.workers[v].local.slots| - 1)
  {
    var w, d := s.workers[me], s.workers[v].local;
    assert ClaimKnown(s.workers, me);
    if WillSteal(s, me, c) {
      if v == w.pc.victim { StealIsAbstract(d, IdOf); }
    } else if Claiming(s, me) {
      if v == w.pc.victim { ReadIsAbstract(d, w.pc.t, IdOf); }
    } else if v == me {
      OwnAbstract(s, me, c);
    }
  }

  lemma OwnAbstract(s: State, me: nat, c: Choice)
    requires me < |s.workers| && Sound(s.workers[me].local) && !s.workers[me].pc.Claim?
    requires !WillSteal(s, me, c) && !PushesOn(s, Turn(me, c), me)
    ensures var d, r := s.workers[me].local, WorkerStep(s, me, c);
      && |r.workers| == |s.workers| && Sound(r.workers[me].local)
      && TaskDeque.AbsNext(Ids(d, IdOf), LabelOn(s, Turn(me, c), me), Ids(r.workers[me].local, IdOf), |d.slots| - 1)
  {
    var w := s.workers[me];
    OwnDeque(w, s.sh, me, |s.workers|, c);
    OwnLabel(s, me, c);
    if w.pc.Offer? && w.hand != [] { PushIsAbstract(w.local, w.hand[0], IdOf); } else { PopIsAbstract(w.local, IdOf); }
  }

  lemma OwnLabel(s: State, me: nat, c: Choice)
    requires me < |s.workers| && !PushesOn(s, Turn(me, c), me)
    ensures var w := s.workers[me];
      LabelOn(s, Turn(me, c), me) ==
        if w.pc.Offer? && w.hand != [] then TaskDeque.PushRefused
        else if !w.pc.Batch? || w.pc.ran >= w.opt.localBatch then TaskDeque.Stutter
        else if Pops(w) then TaskDeque.Popped(IdAt(w.local, w.local.bottom - 1)) else TaskDeque.PopMissed
  {}

  /** Until a task is destroyed a claimed task stays in its slot for its thief. */
  lemma ClaimKept(s: State, e: Event, v: nat, t: nat)
    requires HiveProofs.Reachable(s) && s.sh.lost == [] && Apply(s, e).sh.lost == [] && v < |s.workers|
    requires t in s.workers[v].local.unread && t in Apply(s, e).workers[v].local.unread
    ensures At(s.workers[v].local, t).Some? && At(Apply(s, e).workers[v].local, t) == At(s.workers[v].local, t)
  {
    ReachableCareful(s);
    var d := s.workers[v].local;
    assert Owned(d, t) && ClaimsOf(s.workers, v);
    if PushesOn(s, e, v) {
      PushKeepsClaim(s, e, v, t);
    } else if e.Turn? && e.worker < |s.workers| {
      TurnKeepsClaim(s, e.worker, e.c, v, t);
    }
  }

  lemma PushKeepsClaim(s: State, e: Event, v: nat, t: nat)
    requires PushesOn(s, e, v) && s.sh.lost == [] && Apply(s, e).sh.lost == [] && At(s.workers[v].local, t).Some?
    ensures At(Apply(s, e).workers[v].local, t) == At(s.workers[v].local, t)
  {
    PushLoses(s, e, v);
    if e.Turn? { OwnDeque(s.workers[v], s.sh, v, |s.workers|, e.c); }
    assert At(s.workers[v].local, s.workers[v].local.bottom).None?;
  }

  lemma ReadKeepsClaim(d: Deque<Job>, t: nat, u: nat)
    requires Sound(d) && Owned(d, t) && Owned(d, u) && t != u
    ensures At(Read(d, u), t) == At(d, t)
  {
    if t < u { OwnersApart(d, t, u); } else { OwnersApart(d, u, t); }
  }

  lemma PopKeepsClaim(d: Deque<Job>, t: nat)
    requires Sound(d) && Size(d) > 0 && Owned(d, t) && t < d.top
    ensures At(Popped(d), t) == At(d, t)
  {
    assert Owned(d, d.bottom - 1);
    OwnersApart(d, t, d.bottom - 1);
  }

  lemma TurnKeepsClaim(s: State, me: nat, c: Choice, v: nat, t: nat)
    requires Careful(s) && s.sh.lost == [] && me < |s.workers| && v < |s.workers| && !PushesOn(s, Turn(me, c), v)
    requires t in s.workers[v].local.unread && t in WorkerStep(s, me, c).workers[v].local.unread
    ensures At(WorkerStep(s, me, c).workers[v].local, t) == At(s.workers[v].local, t)
  {
    var w, d := s.workers[me], s.workers[v].local;
    assert Owned(d, t) && ClaimsOf(s.workers, v) && ClaimKnown(s.workers, me);
    if WillSteal(s, me, c) {
    } else if Claiming(s, me) {
      if v == w.pc.victim {
        assert Owned(d, w.pc.t);
        ReadKeepsClaim(d, t, w.pc.t);
      }
    } else if v == me {
      OwnDeque(w, s.sh, me, |s.workers|, c);
      if Pops(w) { PopKeepsClaim(d, t); }
    }
  }

  // ---- without stealing

  /** The options let a worker try to steal. */
  predicate CanSteal(opt: Options) { opt.willSteal && opt.tries > 0 }

  /** A worker that cannot steal is never in the stealing loop. */
  predicate Peaceful(w: Worker) {
    && (w.pc.Steal? ==> w.opt.willSteal)
    && (!CanSteal(w.opt) ==>
         && !w.pc.StealFrom? && !w.pc.Claim?
         && (w.pc.Offer? ==> !w.pc.back.InSteal?) && (w.pc.Running? ==> !w.pc.back.InSteal?))
  }

  predicate AllPeaceful(s: State) { forall i :: 0 <= i < |s.workers| ==> Peaceful(s.workers[i]) }

  lemma OwnPeaceful(w: Worker, sh: Shared, me: nat, n: nat, c: Choice)
    requires Peaceful(w)
    ensures var o := OwnStep(w, sh, me, n, c); Peaceful(o.w) && o.w.opt == w.opt
  {
    if w.pc.Running? { ReturnPeaceful(w, sh); }
    else if w.pc.Offer? { OfferPeaceful(w, sh); }
    else if w.pc.Timers? || w.pc.Batch? { LoopPeaceful(w, sh, c); }
  }

  lemma ReturnPeaceful(w: Worker, sh: Shared)
    requires Peaceful(w) && w.pc.Running?
    ensures var o := ReturnStep(w, sh); Peaceful(o.w) && o.w.opt == w.opt
  {}

  lemma OfferPeaceful(w: Worker, sh: Shared)
    requires Peaceful(w) && w.pc.Offer?
    ensures var o := OfferStep(w, sh); Peaceful(o.w) && o.w.opt == w.opt
  {}

  lemma LoopPeaceful(w: Worker, sh: Shared, c: Choice)
    requires Peaceful(w) && (w.pc.Timers? || w.pc.Batch?)
    ensures var o := if w.pc.Timers? then TimerStep(w, sh, c) else BatchStep(w, sh); Peaceful(o.w) && o.w.opt == w.opt
  {}

  lemma TurnPeaceful(s: State, me: nat, c: Choice)
    requires AllPeaceful(s) && me < |s.workers|
    ensures AllPeaceful(WorkerStep(s, me, c)) && |WorkerStep(s, me, c).workers| == |s.workers|
    ensures forall i :: 0 <= i < |s.workers| ==> WorkerStep(s, me, c).workers[i].opt == s.workers[i].opt
  {
    OwnPeaceful(s.workers[me], s.sh, me, |s.workers|, c);
  }

  lemma StepPeaceful(s: State, e: Event)
    requires AllPeaceful(s)
    ensures AllPeaceful(Apply(s, e)) && |Apply(s, e).workers| == |s.workers|
    ensures forall i :: 0 <= i < |s.workers| ==> Apply(s, e).workers[i].opt == s.workers[i].opt
  {
    if e.Turn? && e.worker < |s.workers| {
      TurnPeaceful(s, e.worker, e.c);
    }
  }

  predicate NoThieves(s: State) { forall i :: 0 <= i < |s.workers| ==> !CanSteal(s.workers[i].opt) }

  lemma {:induction false} RunLosesNothing(s0: State, evs: seq<Event>)
    requires AllPeaceful(s0) && Careful(s0) && s0.sh.lost == []
    ensures AllPeaceful(Exec(s0, evs)) && (NoThieves(Exec(s0, evs)) ==> Exec(s0, evs).sh.lost == [])
    decreases |evs|
  {
    if evs != [] {
      var s, e := Exec(s0, evs[..|evs| - 1]), evs[|evs| - 1];
      RunLosesNothing(s0, evs[..|evs| - 1]);
      RunCareful(s0, evs[..|evs| - 1]);
      StepPeaceful(s, e);
      if NoThieves(Apply(s, e)) {
        assert forall i :: 0 <= i < |s.workers| ==> Apply(s, e).workers[i].opt == s.workers[i].opt;
        PeacefulStep(s, e);
      }
    }
  }

  lemma PeacefulStep(s: State, e: Event)
    requires AllPeaceful(s) && NoThieves(s) && Careful(s) && s.sh.lost == []
    ensures Apply(s, e).sh.lost == []
  {
    if v: nat :| PushesOn(s, e, v) {
      PushLoses(s, e, v);
      FullIffOvertaken(s, v);
      assert !Overtaken(s, v) by { assert forall i :: 0 <= i < |s.workers| ==> Peaceful(s.workers[i]); }
    } else {
      OthersLoseNothing(s, e);
    }
  }

  /** When no worker can steal no task is destroyed. */
  lemma NoStealNoLoss(s: State)
    requires HiveProofs.Reachable(s) && NoThieves(s)
    ensures s.sh.lost == []
  {
    var opts: seq<Options>, batchSizes: seq<nat>, now: int, evs: seq<Event> :| s == Exec(Init(opts, batchSizes, now), evs);
    var s0 := Init(opts, batchSizes, now);
    assert Exec(s0, []) == s0;
    ReachableCareful(s0);
    RunLosesNothing(s0, evs);
  }
}
