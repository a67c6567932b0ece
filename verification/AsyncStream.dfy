/** The coroutine queue and the TCP stream of the asynchronous server example, with all
    coroutines on one worker thread: between two suspensions a coroutine runs alone. */
module AsyncStream {

  datatype Option<+T> = None | Some(value: T)

  type Byte = x: int | 0 <= x < 256

  /** A suspended coroutine: a sender of the stream under study, or any other on the worker. */
  datatype Handle = Own(sender: nat) | Foreign(id: nat)

  /** The resumptions that Executor::schedule has posted and the worker has not run. */
  class Executor {
    var scheduled: seq<Handle>

    constructor ()
      ensures scheduled == []
    {
      scheduled := [];
    }

    method Schedule(h: Handle)
      modifies this
      ensures scheduled == old(scheduled) + [h]
    {
      scheduled := scheduled + [h];
    }

    method Next() returns (h: Handle)
      requires scheduled != []
      modifies this
      ensures h == old(scheduled)[0] && scheduled == old(scheduled)[1..]
    {
      h := scheduled[0];
      scheduled := scheduled[1..];
    }
  }

  function Plus(hs: seq<Handle>, w: Option<Handle>): seq<Handle> { if w.None? then hs else hs + [w.value] }

  /** AsyncQueue<T>, bound to its executor. */
  class AsyncQueue<T> {
    const exec: Executor
    var closed: bool
    var items: seq<T>
    var waiter: Option<Handle>

    /** A consumer waits only while there is nothing to take and more may come. */
    predicate Valid()
      reads this
    {
      waiter.Some? ==> items == [] && !closed
    }

    constructor (exec: Executor)
      ensures this.exec == exec && !closed && items == [] && waiter == None
    {
      this.exec := exec;
      closed, items, waiter := false, [], None;
    }

    /** A closed queue takes nothing; an open one wakes the consumer exactly once. */
    method Push(v: T)
      requires Valid()
      modifies this, exec
      ensures Valid() && closed == old(closed)
      ensures items == if old(closed) then old(items) else old(items) + [v]
      ensures waiter == None && exec.scheduled == Plus(old(exec.scheduled), old(waiter))
    {
      if closed { return; }
      items := items + [v];
      var w := waiter;
      waiter := None;
      if w.Some? { exec.Schedule(w.value); }
    }

    method Close()
      requires Valid()
      modifies this, exec
      ensures Valid() && closed && items == old(items)
      ensures waiter == None && exec.scheduled == Plus(old(exec.scheduled), old(waiter))
    {
      closed := true;
      var w := waiter;
      waiter := None;
      if w.Some? { exec.Schedule(w.value); }
    }

    /** PopAwaitable::await_ready. */
    predicate Ready()
      reads this
    {
      closed || items != []
    }

    /** PopAwaitable::await_suspend, which follows an await_ready that said no. */
    method Suspend(h: Handle)
      requires Valid() && !Ready()
      modifies this
      ensures Valid() && waiter == Some(h) && items == old(items) && closed == old(closed)
    {
      waiter := Some(h);
    }

    /** PopAwaitable::await_resume. */
    method Take() returns (r: Option<T>)
      requires Valid()
      modifies this
      ensures Valid() && closed == old(closed) && waiter == old(waiter)
      ensures r.None? <==> old(items) == []
      ensures AsItems(r) + items == old(items)
    {
      if items == [] { return None; }
      r := Some(items[0]);
      items := items[1..];
    }

    static function AsItems(r: Option<T>): seq<T> { if r.None? then [] else [r.value] }
  }

  /** Where a sender is inside sendAll. */
  datatype Status =
    | Waiting          // suspended on the lock
    | Handed           // the lock is its own, its resumption scheduled
    | Running
    | Parked           // suspended on send_ready_q_
    | Woken            // taken from there, its resumption scheduled
    | Done

  predicate Inside(s: Status) { s.Handed? || s.Running? || s.Parked? || s.Woken? }

  /** What ITcpConnectionWatcher::trySend answers; it accepts a prefix. */
  datatype SendResult = Error | Accepted(n: nat) | WouldBlock | Nothing

  function Range(a: nat, b: nat): seq<nat>
    requires a <= b
  {
    seq(b - a, i => a + i)
  }

  /** The bytes of the first n calls, one call after the other. */
  function Bytes(calls: seq<seq<Byte>>, n: nat): seq<Byte>
    requires n <= |calls|
  {
    if n == 0 then [] else Bytes(calls, n - 1) + calls[n - 1]
  }

  lemma {:induction false} BytesKeep(calls: seq<seq<Byte>>, more: seq<Byte>, n: nat)
    requires n <= |calls|
    ensures Bytes(calls + [more], n) == Bytes(calls, n)
  {
    if n > 0 { BytesKeep(calls, more, n - 1); }
  }

  /** The senders among the scheduled coroutines. */
  function Mine(hs: seq<Handle>): seq<nat> {
    if hs == [] then [] else
      Mine(hs[..|hs| - 1]) + if hs[|hs| - 1].Own? then [hs[|hs| - 1].sender] else []
  }

  lemma {:induction false} MineJoin(a: seq<Handle>, b: seq<Handle>)
    ensures Mine(a + b) == Mine(a) + Mine(b)
    decreases |b|
  {
    if b == [] {
      assert a + b == a;
    } else {
      assert (a + b)[..|a + b| - 1] == a + b[..|b| - 1];
      MineJoin(a, b[..|b| - 1]);
    }
  }

  lemma MineOne(h: Handle)
    ensures Mine([h]) == if h.Own? then [h.sender] else []
  {
    assert [h][..0] == [];
  }

  lemma MineFirst(hs: seq<Handle>)
    requires hs != []
    ensures Mine(hs) == (if hs[0].Own? then [hs[0].sender] else []) + Mine(hs[1..])
  {
    assert hs == [hs[0]] + hs[1..];
    MineJoin([hs[0]], hs[1..]);
    MineOne(hs[0]);
  }

  lemma MineMore(hs: seq<Handle>, h: Handle)
    ensures Mine(hs + [h]) == Mine(hs) + if h.Own? then [h.sender] else []
  {
    MineJoin(hs, [h]);
    MineOne(h);
  }

  // ---- the stream as a value

  /** What happens on the worker: calls of sendAll, turns of the worker, answers of trySend
      to the running sender, the watcher's callbacks, and other coroutines being scheduled. */
  datatype Event = Call(bytes: seq<Byte>) | Turn | Answer(res: SendResult) | SendReady | Gone | Other(id: nat)

  /** The stream: the calls in order, how many of them have entered, what the holder of the
      lock is doing, the bytes unsent, the queue of send-ready signals, the coroutines
      scheduled on the worker, and what the socket has accepted. */
  datatype Model = Model(
    attached: bool,
    calls: seq<seq<Byte>>,
    entered: nat,
    holder: Option<Status>,
    out: seq<Byte>,
    closed: bool,
    items: seq<int>,
    queue: seq<Handle>,
    wire: seq<Byte>)

  predicate RunningNow(m: Model) { m.holder == Some(Running) }

  /** The holder leaves: the next caller gets the lock, or it is free. */
  function Leave(m: Model): Model {
    if m.entered < |m.calls| then m.(holder := Some(Handed), queue := m.queue + [Own(m.entered)]) else m.(holder := None)
  }

  /** The next caller goes past the lock. */
  function EnterNext(m: Model): Model
    requires m.entered < |m.calls|
  {
    var r := m.(out := m.out + m.calls[m.entered], entered := m.entered + 1, holder := Some(Running));
    if !r.attached || r.out == [] then Leave(r) else r
  }

  lemma EnterAnyway(m: Model, holder: Option<Status>)
    requires m.entered < |m.calls|
    ensures EnterNext(m) == EnterNext(m.(holder := holder))
  {}

  /** The holder takes a send-ready signal; none means closed. */
  function TakeSignal(m: Model): Model {
    if m.items == [] then Leave(m) else m.(items := m.items[1..], holder := Some(Running))
  }

  function Called(m: Model, bytes: seq<Byte>): Model {
    var r := m.(calls := m.calls + [bytes]);
    if m.holder.None? && m.entered < |r.calls| then EnterNext(r) else r
  }

  /** The worker resumes the coroutine that was scheduled first. */
  function Turned(m: Model): Model {
    if m.queue == [] then m
    else
      var r := m.(queue := m.queue[1..]);
      if m.queue[0].Foreign? then r
      else if m.holder == Some(Handed) && m.entered < |m.calls| then EnterNext(r)
      else TakeSignal(r)
  }

  lemma TurnedIs(m: Model, r: Model)
    requires m.queue != [] && r == m.(queue := m.queue[1..])
    ensures Turned(m) ==
      if m.queue[0].Foreign? then r else if m.holder == Some(Handed) && m.entered < |m.calls| then EnterNext(r) else TakeSignal(r)
  {}

  predicate Possible(m: Model, res: SendResult) { res.Accepted? ==> 0 < res.n <= |m.out| }

  /** trySend has answered the running sender. */
  function Answered(m: Model, res: SendResult): Model
    requires Possible(m, res)
  {
    match res
    case Error => Leave(m.(closed := true))
    case Accepted(n) =>
      var r := m.(wire := m.wire + m.out[..n], out := m.out[n..]);
      if r.out == [] then Leave(r) else r
    case WouldBlock => if m.closed || m.items != [] then TakeSignal(m) else m.(holder := Some(Parked))
    case Nothing => Leave(m)
  }

  /** A sender that is parked on the queue is scheduled. */
  function Wake(m: Model): Model {
    if m.holder == Some(Parked) && m.entered > 0 then m.(holder := Some(Woken), queue := m.queue + [Own(m.entered - 1)]) else m
  }

  /** One event; events that cannot happen now change nothing. */
  function Next(m: Model, e: Event): Model {
    if RunningNow(m) then
      if e.Answer? && Possible(m, e.res) then Answered(m, e.res) else m
    else
      match e
      case Call(bytes) => Called(m, bytes)
      case Turn => Turned(m)
      case Answer(_) => m
      case SendReady => if m.closed then m else Wake(m.(items := m.items + [1]))
      case Gone => Wake(m.(closed := true))
      case Other(id) => m.(queue := m.queue + [Foreign(id)])
  }

  function Start(attached: bool): Model { Model(attached, [], 0, None, [], false, [], [], []) }

  function After(attached: bool, evs: seq<Event>): Model
    decreases |evs|
  {
    if evs == [] then Start(attached) else Next(After(attached, evs[..|evs| - 1]), evs[|evs| - 1])
  }

  /** The calls among the events, but for those at moments when another sender runs. */
  function CallsOf(attached: bool, evs: seq<Event>): seq<seq<Byte>>
    decreases |evs|
  {
    if evs == [] then [] else
      var n := |evs| - 1;
      CallsOf(attached, evs[..n]) + if evs[n].Call? && !RunningNow(After(attached, evs[..n])) then [evs[n].bytes] else []
  }

  function TakenBy(m: Model, e: Event): seq<Byte> {
    if e.Answer? && e.res.Accepted? && RunningNow(m) && Possible(m, e.res) then m.out[..e.res.n] else []
  }

  /** What the socket accepted, answer by answer: prefixes of the unsent bytes of the moment. */
  function AcceptedOf(attached: bool, evs: seq<Event>): seq<Byte>
    decreases |evs|
  {
    if evs == [] then [] else
      var n := |evs| - 1;
      AcceptedOf(attached, evs[..n]) + TakenBy(After(attached, evs[..n]), evs[n])
  }

  lemma AnsweredTells(m: Model, res: SendResult)
    requires Possible(m, res)
    ensures Answered(m, res).calls == m.calls
    ensures Answered(m, res).wire == m.wire + if res.Accepted? then m.out[..res.n] else []
  {}

  lemma NextTells(m: Model, e: Event)
    ensures Next(m, e).calls == m.calls + if e.Call? && !RunningNow(m) then [e.bytes] else []
    ensures Next(m, e).wire == m.wire + TakenBy(m, e)
  {
    if RunningNow(m) && e.Answer? && Possible(m, e.res) { AnsweredTells(m, e.res); }
  }

  /** The calls of a run are its call events that took effect, in order, and its wire is
      what the socket accepted. */
  lemma {:induction false} RunTells(attached: bool, evs: seq<Event>)
    ensures After(attached, evs).calls == CallsOf(attached, evs) && After(attached, evs).wire == AcceptedOf(attached, evs)
    decreases |evs|
  {
    if evs != [] {
      RunTells(attached, evs[..|evs| - 1]);
      NextTells(After(attached, evs[..|evs| - 1]), evs[|evs| - 1]);
    }
  }

  lemma RunNext(attached: bool, evs: seq<Event>, k: nat)
    requires k < |evs|
    ensures After(attached, evs[..k + 1]) == Next(After(attached, evs[..k]), evs[k])
    ensures AcceptedOf(attached, evs[..k + 1]) == AcceptedOf(attached, evs[..k]) + TakenBy(After(attached, evs[..k]), evs[k])
  {
    assert evs[..k + 1][..k] == evs[..k];
  }

  // ---- who is where

  /** The sender that has the lock, or will have it when it is resumed: all behind it wait. */
  function Front(status: seq<Status>, waiters: seq<nat>): int { |status| - |waiters| - 1 }

  predicate AllDone(status: seq<Status>) { forall i :: 0 <= i < |status| ==> status[i].Done? }

  predicate Quiet(status: seq<Status>) { forall i :: 0 <= i < |status| ==> !status[i].Running? }

  /** The lock is taken: those before the holder are done, those behind it wait in line, and
      the first `entered` senders have gone past the lock. */
  predicate Seated(status: seq<Status>, waiters: seq<nat>, entered: nat) {
    var h := Front(status, waiters);
    && 0 <= h < |status| && Inside(status[h])
    && (forall i :: 0 <= i < h ==> status[i].Done?)
    && (forall i :: h < i < |status| ==> status[i].Waiting?)
    && waiters == Range(h + 1, |status|)
    && entered == (if status[h].Handed? then h else h + 1)
  }

  lemma SeatedQuiet(status: seq<Status>, waiters: seq<nat>, entered: nat)
    requires Seated(status, waiters, entered)
    ensures Quiet(status) <==> !status[Front(status, waiters)].Running?
  {}

  lemma SeatedOn(status: seq<Status>, waiters: seq<nat>, entered: nat, s: Status)
    requires Seated(status, waiters, entered) && Inside(s) && !s.Handed?
    ensures var h := Front(status, waiters);
      Seated(status[h := s], waiters, h + 1) && (Quiet(status[h := s]) <==> !s.Running?)
  {}

  lemma SeatedPass(status: seq<Status>, waiters: seq<nat>, entered: nat)
    requires Seated(status, waiters, entered) && waiters != [] && !status[Front(status, waiters)].Handed?
    ensures var h := Front(status, waiters);
      && waiters[0] == h + 1 == entered
      && Seated(status[h := Done][h + 1 := Handed], waiters[1..], entered) && Quiet(status[h := Done][h + 1 := Handed])
  {}

  lemma SeatedFree(status: seq<Status>, waiters: seq<nat>, entered: nat)
    requires Seated(status, waiters, entered) && waiters == [] && !status[Front(status, waiters)].Handed?
    ensures AllDone(status[Front(status, waiters) := Done]) && entered == |status|
  {}

  lemma SeatedBehind(status: seq<Status>, waiters: seq<nat>, entered: nat)
    requires Seated(status, waiters, entered) && Quiet(status)
    ensures Seated(status + [Waiting], waiters + [|status|], entered) && Quiet(status + [Waiting])
  {}

  lemma SeatedFirst(status: seq<Status>)
    requires AllDone(status)
    ensures Seated(status + [Handed], [], |status|)
  {}

  lemma OnlyOne(x: nat, rest: seq<nat>, y: nat)
    requires [x] + rest == [y]
    ensures x == y && rest == []
  {
    assert |[x] + rest| == 1 + |rest|;
    assert ([x] + rest)[0] == x;
  }

  /** The sending half of AsyncTcpStream.  Senders are numbered in the order in which
      they reach the lock. */
  class Stream {
    const exec: Executor
    const ready: AsyncQueue<int>     // send_ready_q_
    const attached: bool             // watcher_ is set
    var out: seq<Byte>
    var locked: bool
    var waiters: seq<nat>
    var status: seq<Status>          // where each coroutine is suspended
    var data: seq<seq<Byte>>         // and the bytes it was called with
    ghost var admitted: seq<nat>
    ghost var sent: seq<Byte>        // accepted by trySend

    function Holder(): int
      reads this
    {
      Front(status, waiters)
    }

    /** The executor and the queue know exactly the sender that waits on them. */
    ghost predicate Linked()
      reads this, exec, ready
    {
      && (locked ==> 0 <= Holder() < |status|)
      && Mine(exec.scheduled) == (if locked && (status[Holder()].Handed? || status[Holder()].Woken?) then [Holder()] else [])
      && ready.waiter == (if locked && status[Holder()].Parked? then Some(Own(Holder())) else None)
    }

    ghost predicate Consistent()
      reads this, exec, ready
    {
      && ready.exec == exec && ready.Valid()
      && |data| == |status| && |admitted| <= |status| && admitted == Range(0, |admitted|)
      && (if locked then Seated(status, waiters, |admitted|) else waiters == [] && AllDone(status) && |admitted| == |status|)
      && Linked()
      && sent + out == Bytes(data, |admitted|)
    }

    /** The stream as a value. */
    ghost function Abs(): Model
      reads this, exec, ready
      requires locked ==> 0 <= Holder() < |status|
    {
      Model(attached, data, |admitted|, if locked then Some(status[Holder()]) else None, out, ready.closed, ready.items, exec.scheduled, sent)
    }

    /** ... and a sender is suspended inside the section only with bytes left to send. */
    ghost predicate Valid()
      reads this, exec, ready
    {
      Consistent() && (locked && !status[Holder()].Handed? ==> out != [])
    }

    /** No coroutine of the stream is between two suspensions. */
    ghost predicate AtRest()
      reads this
    {
      Quiet(status)
    }

    constructor (exec: Executor, ready: AsyncQueue<int>, attached: bool)
      requires ready.exec == exec && Mine(exec.scheduled) == [] && ready.waiter == None
      ensures Valid() && AtRest() && this.exec == exec && this.ready == ready && this.attached == attached
      ensures Abs() == Start(attached).(closed := ready.closed, items := ready.items, queue := exec.scheduled)
    {
      this.exec, this.ready, this.attached := exec, ready, attached;
      out, locked, waiters := [], false, [];
      status, data, admitted, sent := [], [], [], [];
    }

    /** Mutual exclusion, counting scheduled handovers. */
    lemma AtMostOneInside(i: nat, j: nat)
      requires Valid() && i < |status| && j < |status| && Inside(status[i]) && Inside(status[j])
      ensures i == j && locked
    {}

    /** Senders are admitted in the order in which they came, the next one first. */
    lemma AdmittedInOrder()
      requires Valid()
      ensures admitted == Range(0, |admitted|)
      ensures waiters == Range(|status| - |waiters|, |status|)
      ensures waiters != [] ==> locked && waiters[0] == |admitted| + if status[Holder()].Handed? then 1 else 0
    {}

    /** unlockSend_: the lock passes to the longest waiting sender, or is released. */
    method Finish(h: nat)
      requires Consistent() && locked && h == Holder() && status[h].Running?
      modifies this`locked, this`waiters, this`status, exec
      ensures Valid() && AtRest() && |status| == |old(status)| && status[h].Done?
      ensures if old(waiters) != [] then locked && waiters == old(waiters)[1..] && status[old(waiters)[0]].Handed? else !locked
      ensures Abs() == Leave(old(Abs()))
    {
      if waiters == [] { SeatedFree(status, waiters, |admitted|); } else { SeatedPass(status, waiters, |admitted|); }
      status := status[h := Done];
      if waiters != [] {
        var next := waiters[0];
        waiters := waiters[1..];
        MineMore(exec.scheduled, Own(next));
        exec.Schedule(Own(next));
        status := status[next := Handed];
        return;
      }
      locked := false;
    }

    /** Sender h is the holder, has been taken off the executor or the queue, and is about to
        change its state. */
    ghost predicate Moving(h: nat, s: Status, scheduled: seq<nat>)
      reads this, exec, ready
    {
      && ready.exec == exec && ready.Valid()
      && |data| == |status| && |admitted| <= |status| && admitted == Range(0, |admitted|)
      && locked && Seated(status, waiters, |admitted|) && h == Holder() && status[h] == s
      && Mine(exec.scheduled) == scheduled && ready.waiter == None
      && sent + out == Bytes(data, |admitted|) && (s.Handed? || out != [])
    }

    /** One more sender is admitted. */
    static lemma AdmitOne(data: seq<seq<Byte>>, a: nat, sent: seq<Byte>, out: seq<Byte>)
      requires a < |data| && sent + out == Bytes(data, a)
      ensures sent + (out + data[a]) == Bytes(data, a + 1) && Range(0, a) + [a] == Range(0, a + 1)
    {
      assert sent + (out + data[a]) == sent + out + data[a];
    }

    /** Past the lock: the sender's bytes go behind those still unsent. */
    method Admit(h: nat)
      requires Moving(h, Handed, [])
      modifies this`out, this`status, this`admitted
      ensures Consistent() && locked && h == Holder() && status == old(status)[h := Running]
      ensures admitted == old(admitted) + [h] && out == old(out) + data[h]
      ensures Abs() == old(Abs()).(out := out, entered := h + 1, holder := Some(Running))
    {
      AdmitOne(data, |admitted|, sent, out);
      SeatedOn(status, waiters, |admitted|, Running);
      status := status[h := Running];
      admitted := admitted + [h];
      out := out + data[h];
    }

    method Enter(h: nat)
      requires Moving(h, Handed, [])
      modifies this`out, this`locked, this`waiters, this`status, this`admitted, exec
      ensures Valid() && admitted == old(admitted) + [h] && out == old(out) + data[h] && |status| == |old(status)|
      ensures AtRest() || (status[h].Running? && out != [])
      ensures Abs() == EnterNext(old(Abs()))
    {
      Admit(h);
      if !attached || out == [] { Finish(h); }
    }

    /** LockAwaiter::await_suspend: behind the others. */
    method Queue(bytes: seq<Byte>)
      requires Valid() && AtRest() && locked
      modifies this`waiters, this`status, this`data
      ensures Valid() && AtRest() && waiters == old(waiters) + [|old(status)|]
      ensures data == old(data) + [bytes] && |status| == |old(status)| + 1
      ensures Abs() == Called(old(Abs()), bytes)
    {
      BytesKeep(data, bytes, |admitted|);
      SeatedBehind(status, waiters, |admitted|);
      waiters := waiters + [|status|];
      data := data + [bytes];
      status := status + [Waiting];
    }

    /** The lock was free: LockAwaiter::await_resume takes it at once. */
    method EnterFree(bytes: seq<Byte>)
      requires Valid() && !locked
      modifies this`out, this`locked, this`waiters, this`status, this`data, this`admitted, exec
      ensures Valid() && data == old(data) + [bytes] && |status| == |old(status)| + 1
      ensures admitted == old(admitted) + [|old(status)|] && out == old(out) + bytes
      ensures Abs() == Called(old(Abs()), bytes)
    {
      BytesKeep(data, bytes, |admitted|);
      SeatedFirst(status);
      data := data + [bytes];
      locked := true;
      status := status + [Handed];
      ghost var m := Abs();
      assert m == old(Abs()).(calls := data, holder := Some(Handed));
      EnterAnyway(m, None);
      Enter(|status| - 1);
    }

    /** A coroutine reaches the lock: it enters, or waits behind the others. */
    method SendAll(bytes: seq<Byte>)
      requires Valid() && AtRest()
      modifies this`out, this`locked, this`waiters, this`status, this`data, this`admitted, exec
      ensures Valid() && data == old(data) + [bytes] && |status| == |old(status)| + 1
      ensures if old(locked) then waiters == old(waiters) + [|old(status)|] && admitted == old(admitted) && out == old(out)
              else admitted == old(admitted) + [|old(status)|] && out == old(out) + bytes
      ensures Abs() == Called(old(Abs()), bytes)
    {
      if locked { Queue(bytes); } else { EnterFree(bytes); }
    }

    /** PopAwaitable::await_resume in the sending loop: nothing there means closed. */
    method GoOn(h: nat)
      requires Consistent() && locked && h == Holder() && status[h].Running? && out != []
      modifies this`locked, this`waiters, this`status, exec, ready
      ensures Valid() && |status| == |old(status)|
      ensures Abs() == TakeSignal(old(Abs()))
    {
      SeatedQuiet(status, waiters, |admitted|);
      var item := ready.Take();
      if item.None? { Finish(h); }
    }

    /** A sender is resumed only when it holds the lock, or has been handed it. */
    lemma TurnIsHolders()
      requires Valid() && exec.scheduled != []
      ensures var next := exec.scheduled[0];
        if next.Own? then locked && next.sender == Holder() && (status[Holder()].Handed? || status[Holder()].Woken?) && Mine(exec.scheduled[1..]) == []
        else Mine(exec.scheduled[1..]) == Mine(exec.scheduled)
    {
      MineFirst(exec.scheduled);
      if exec.scheduled[0].Own? { OnlyOne(exec.scheduled[0].sender, Mine(exec.scheduled[1..]), Holder()); }
    }

    /** The worker takes the coroutine that was scheduled first. */
    method TakeTurn() returns (next: Handle)
      requires Valid() && AtRest() && exec.scheduled != []
      modifies exec
      ensures next == old(exec.scheduled)[0]
      ensures if next.Own? then 0 <= Holder() < |status| && (status[Holder()].Handed? || status[Holder()].Woken?) && Moving(next.sender, status[Holder()], [])
              else Valid()
      ensures (locked ==> 0 <= Holder() < |status|) && Abs() == old(Abs()).(queue := old(exec.scheduled)[1..])
    {
      TurnIsHolders();
      next := exec.Next();
    }

    /** ... and resumes it. */
    method Resume()
      requires Valid() && AtRest() && exec.scheduled != []
      modifies this`out, this`locked, this`waiters, this`status, this`admitted, exec, ready
      ensures Valid() && |status| == |old(status)|
      ensures Abs() == Turned(old(Abs()))
    {
      ghost var m := Abs();
      var next := TakeTurn();
      TurnedIs(m, Abs());
      if next.Own? {
        if status[next.sender].Handed? { Enter(next.sender); } else { GoBack(next.sender); }
      }
    }

    /** A signal has woken sender h: back into the sending loop. */
    method GoBack(h: nat)
      requires Moving(h, Woken, [])
      modifies this`locked, this`waiters, this`status, exec, ready
      ensures Valid() && |status| == |old(status)|
      ensures Abs() == TakeSignal(old(Abs()))
    {
      SeatedOn(status, waiters, |admitted|, Running);
      status := status[h := Running];
      GoOn(h);
    }

    /** One round of the sending loop, with what trySend answered. */
    method TrySend(h: nat, res: SendResult)
      requires Valid() && h == Holder() && locked && status[h].Running?
      requires res.Accepted? ==> 0 < res.n <= |out|
      modifies this`out, this`locked, this`waiters, this`status, this`sent, exec, ready
      ensures Valid() && admitted == old(admitted) && |status| == |old(status)|
      ensures res.Accepted? ==> sent == old(sent) + old(out)[..res.n] && out == old(out)[res.n..]
      ensures !res.Accepted? ==> sent == old(sent) && out == old(out)
      ensures res.Error? ==> ready.closed && AtRest()
      ensures h < |status| && (status[h].Running? ==> out != []) && (res.WouldBlock? && !old(ready.Ready()) ==> status[h].Parked?)
      ensures Abs() == Answered(old(Abs()), res)
    {
      match res
      case Error =>
        HangUp(h);
      case Accepted(n) =>
        Accept(h, n);
      case WouldBlock =>
        if ready.Ready() { GoOn(h); } else { Park(h); }
      case Nothing =>
        Finish(h);
    }

    /** The socket is broken. */
    method HangUp(h: nat)
      requires Valid() && h == Holder() && locked && status[h].Running?
      modifies this`locked, this`waiters, this`status, exec, ready
      ensures Valid() && AtRest() && |status| == |old(status)| && status[h].Done? && ready.closed
      ensures Abs() == Answered(old(Abs()), Error)
    {
      ready.Close();
      Finish(h);
    }

    /** The socket took a prefix. */
    method Accept(h: nat, n: nat)
      requires Valid() && h == Holder() && locked && status[h].Running? && 0 < n <= |out|
      modifies this`out, this`locked, this`waiters, this`status, this`sent, exec
      ensures Valid() && |status| == |old(status)| && h < |status| && (status[h].Running? ==> out != [])
      ensures sent == old(sent) + old(out)[..n] && out == old(out)[n..]
      ensures Abs() == Answered(old(Abs()), Accepted(n))
    {
      assert out == out[..n] + out[n..];
      assert sent + (out[..n] + out[n..]) == sent + out[..n] + out[n..];
      sent := sent + out[..n];
      out := out[n..];
      if out == [] { Finish(h); }
    }

    /** The socket is full. */
    method Park(h: nat)
      requires Valid() && h == Holder() && locked && status[h].Running? && !ready.Ready()
      modifies this`status, ready
      ensures Valid() && |status| == |old(status)| && status[h].Parked?
      ensures Abs() == Answered(old(Abs()), WouldBlock)
    {
      SeatedOn(status, waiters, |admitted|, Parked);
      ready.Suspend(Own(h));
      status := status[h := Parked];
    }

    /** The queue has let go of sender h and scheduled it. */
    method Woke(h: nat)
      requires Moving(h, Parked, [h])
      modifies this`status
      ensures Valid() && AtRest() && status == old(status)[h := Woken]
      ensures Abs() == old(Abs()).(holder := Some(Woken))
    {
      SeatedOn(status, waiters, |admitted|, Woken);
      status := status[h := Woken];
    }

    /** Somebody is parked: the queue takes the signal, lets go of it and schedules it. */
    method SignalParked()
      requires Valid() && AtRest() && ready.waiter.Some?
      modifies this`status, ready, exec
      ensures Valid() && AtRest() && |status| == |old(status)|
      ensures Abs() == Next(old(Abs()), SendReady)
    {
      MineMore(exec.scheduled, ready.waiter.value);
      ready.Push(1);
      Woke(Holder());
    }

    method CloseParked()
      requires Valid() && AtRest() && ready.waiter.Some?
      modifies this`status, ready, exec
      ensures Valid() && AtRest() && |status| == |old(status)|
      ensures Abs() == Next(old(Abs()), Gone)
    {
      MineMore(exec.scheduled, ready.waiter.value);
      ready.Close();
      Woke(Holder());
    }

    /** The watcher's callbacks: the socket can send again, or it is gone. */
    method OnSendReady()
      requires Valid() && AtRest()
      modifies this`status, ready, exec
      ensures Valid() && AtRest() && |status| == |old(status)|
      ensures Abs() == Next(old(Abs()), SendReady)
    {
      if ready.waiter.Some? { SignalParked(); } else { ready.Push(1); }
    }

    method OnClosed()
      requires Valid() && AtRest()
      modifies this`status, ready, exec
      ensures Valid() && AtRest() && |status| == |old(status)|
      ensures Abs() == Next(old(Abs()), Gone)
    {
      if ready.waiter.Some? { CloseParked(); } else { ready.Close(); }
    }

    /** Another coroutine of the worker is scheduled. */
    method OnOther(id: nat)
      requires Valid() && AtRest()
      modifies exec
      ensures Valid() && Abs() == Next(old(Abs()), Other(id))
    {
      MineMore(exec.scheduled, Foreign(id));
      exec.Schedule(Foreign(id));
    }

    lemma RestOrRunning()
      requires Valid()
      ensures if RunningNow(Abs()) then locked && status[Holder()].Running? else AtRest()
    {
      if locked { SeatedQuiet(status, waiters, |admitted|); }
    }

    method OnAnswer(res: SendResult) returns (took: seq<Byte>)
      requires Valid() && locked && status[Holder()].Running?
      modifies this, exec, ready
      ensures Valid() && Abs() == Next(old(Abs()), Answer(res)) && took == TakenBy(old(Abs()), Answer(res))
    {
      took := [];
      if res.Accepted? {
        if !(0 < res.n <= |out|) { return; }
        took := out[..res.n];
      }
      TrySend(Holder(), res);
    }

    /** One event of the worker, and what the socket accepts at it. */
    method Handle(e: Event) returns (took: seq<Byte>)
      requires Valid()
      modifies this, exec, ready
      ensures Valid() && Abs() == Next(old(Abs()), e) && took == TakenBy(old(Abs()), e)
    {
      took := [];
      RestOrRunning();
      if locked && status[Holder()].Running? {
        if e.Answer? { took := OnAnswer(e.res); }
        return;
      }
      match e
      case Call(bytes) => SendAll(bytes);
      case Turn => if exec.scheduled != [] { Resume(); }
      case SendReady => OnSendReady();
      case Gone => OnClosed();
      case Other(id) => OnOther(id);
      case Answer(_) =>
    }

    method Entered() returns (n: nat)
      requires Valid()
      ensures n == Abs().entered <= |data| && Abs().calls == data && Abs().wire + out == Bytes(data, n)
    {
      n := if locked && status[Holder()].Handed? then Holder() else |status| - |waiters|;
    }
  }

  /** Over every run: the calls are the run's call events in order, the wire is what the
      socket accepted, and the wire followed by what is left are the bytes of the calls that
      have entered, one call after the other. */
  method Replay(attached: bool, evs: seq<Event>) returns (wire: seq<Byte>, left: seq<Byte>, calls: seq<seq<Byte>>, entered: nat)
    ensures calls == CallsOf(attached, evs) && wire == AcceptedOf(attached, evs)
    ensures entered <= |calls| && wire + left == Bytes(calls, entered)
    ensures After(attached, evs).entered == entered && After(attached, evs).out == left
  {
    var exec := new Executor();
    var ready := new AsyncQueue<int>(exec);
    var s := new Stream(exec, ready, attached);
    wire := [];
    for k := 0 to |evs|
      invariant fresh(exec) && fresh(ready) && fresh(s) && s.exec == exec && s.ready == ready
      invariant s.Valid() && s.Abs() == After(attached, evs[..k]) && wire == AcceptedOf(attached, evs[..k])
    {
      var took := s.Handle(evs[k]);
      RunNext(attached, evs, k);
      wire := wire + took;
    }
    assert evs[..|evs|] == evs;
    RunTells(attached, evs);
    left, calls := s.out, s.data;
    entered := s.Entered();
  }
}
