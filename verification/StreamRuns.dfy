/** What a run of the stream comes to: bytes stay unsent only when the socket or the watcher
    gives up, and a sender that is scheduled or parked can always go on. */
module StreamRuns {
  import opened AsyncStream

  // ---- what holds at every moment of every run

  /** The handles of the stream's own senders that are scheduled. */
  function Scheduled(m: Model): seq<nat> {
    if m.holder == Some(Handed) then [m.entered]
    else if m.holder == Some(Woken) && m.entered > 0 then [m.entered - 1]
    else []
  }

  predicate InLoop(m: Model) { m.holder == Some(Running) || m.holder == Some(Parked) || m.holder == Some(Woken) }

  /** Where the holder can be. */
  predicate Placed(m: Model) {
    match m.holder
    case None => m.entered == |m.calls|
    case Some(s) =>
      if s.Handed? then m.entered < |m.calls|
      else InLoop(m) && 0 < m.entered <= |m.calls| && m.attached && m.out != []
  }

  predicate Sound(m: Model) {
    && m.entered <= |m.calls| && Placed(m) && Mine(m.queue) == Scheduled(m)
    && (m.holder == Some(Parked) ==> m.items == [] && !m.closed)
    && (m.holder == Some(Woken) ==> m.items != [] || m.closed)
    && m.wire + m.out == Bytes(m.calls, m.entered)
  }

  lemma LeaveSound(m: Model)
    requires m.entered <= |m.calls| && Mine(m.queue) == [] && m.wire + m.out == Bytes(m.calls, m.entered)
    ensures Sound(Leave(m)) && !InLoop(Leave(m))
  {
    MineMore(m.queue, Own(m.entered));
  }

  /** The next call's bytes go behind those still unsent. */
  lemma BytesFollow(wire: seq<Byte>, out: seq<Byte>, calls: seq<seq<Byte>>, n: nat)
    requires n < |calls| && wire + out == Bytes(calls, n)
    ensures wire + (out + calls[n]) == Bytes(calls, n + 1)
  {
    assert wire + (out + calls[n]) == wire + out + calls[n];
  }

  lemma EnterSound(m: Model)
    requires m.entered < |m.calls| && Mine(m.queue) == [] && m.wire + m.out == Bytes(m.calls, m.entered)
    ensures Sound(EnterNext(m))
  {
    BytesFollow(m.wire, m.out, m.calls, m.entered);
    var r := m.(out := m.out + m.calls[m.entered], entered := m.entered + 1, holder := Some(Running));
    if !r.attached || r.out == [] {
      LeaveSound(r);
      assert EnterNext(m) == Leave(r);
    } else {
      assert EnterNext(m) == r && Sound(r);
    }
  }

  lemma SignalSound(m: Model)
    requires 0 < m.entered <= |m.calls| && m.attached && m.out != [] && Mine(m.queue) == []
    requires m.wire + m.out == Bytes(m.calls, m.entered)
    ensures Sound(TakeSignal(m))
  {
    if m.items == [] { LeaveSound(m); }
  }

  lemma CallSound(m: Model, bytes: seq<Byte>)
    requires Sound(m)
    ensures Sound(Called(m, bytes))
  {
    BytesKeep(m.calls, bytes, m.entered);
    var r := m.(calls := m.calls + [bytes]);
    if m.holder.None? { EnterSound(r); }
  }

  /** The first of the scheduled coroutines is the one that the stream waits for, or none of
      its own. */
  lemma FirstIsHolder(m: Model)
    requires Sound(m) && m.queue != []
    ensures if m.queue[0].Own? then (m.holder == Some(Handed) || m.holder == Some(Woken)) && Mine(m.queue[1..]) == []
            else Mine(m.queue[1..]) == Mine(m.queue)
  {
    MineFirst(m.queue);
    if m.queue[0].Own? { OnlyOne(m.queue[0].sender, Mine(m.queue[1..]), Scheduled(m)[0]); }
  }

  lemma TurnSound(m: Model)
    requires Sound(m)
    ensures Sound(Turned(m))
  {
    if m.queue != [] {
      FirstIsHolder(m);
      var r := m.(queue := m.queue[1..]);
      if m.queue[0].Own? {
        if m.holder == Some(Handed) { EnterSound(r); } else { SignalSound(r); }
      }
    }
  }

  lemma AcceptSound(m: Model, n: nat)
    requires Sound(m) && RunningNow(m) && 0 < n <= |m.out|
    ensures Sound(Answered(m, Accepted(n)))
  {
    assert m.out == m.out[..n] + m.out[n..];
    assert m.wire + (m.out[..n] + m.out[n..]) == m.wire + m.out[..n] + m.out[n..];
    var r := m.(wire := m.wire + m.out[..n], out := m.out[n..]);
    if r.out == [] { LeaveSound(r); }
  }

  lemma AnswerSound(m: Model, res: SendResult)
    requires Sound(m) && RunningNow(m) && Possible(m, res)
    ensures Sound(Answered(m, res))
  {
    match res
    case Error => LeaveSound(m.(closed := true));
    case Accepted(n) => AcceptSound(m, n);
    case WouldBlock => if m.closed || m.items != [] { SignalSound(m); }
    case Nothing => LeaveSound(m);
  }

  lemma WakeParked(m: Model)
    requires m.holder == Some(Parked) && m.entered > 0
    ensures Wake(m) == m.(holder := Some(Woken), queue := m.queue + [Own(m.entered - 1)])
  {}

  lemma WakeSound(m: Model)
    requires m.entered <= |m.calls| && Placed(m) && Mine(m.queue) == Scheduled(m)
    requires m.holder == Some(Parked) || m.holder == Some(Woken) ==> m.items != [] || m.closed
    requires m.wire + m.out == Bytes(m.calls, m.entered)
    ensures Sound(Wake(m))
  {
    if m.holder == Some(Parked) {
      WakeParked(m);
      MineMore(m.queue, Own(m.entered - 1));
      assert [] + [m.entered - 1] == [m.entered - 1];
    } else {
      assert Wake(m) == m;
    }
  }

  lemma OtherSound(m: Model, id: nat)
    requires Sound(m)
    ensures Sound(m.(queue := m.queue + [Foreign(id)]))
  {
    MineMore(m.queue, Foreign(id));
  }

  lemma NextSound(m: Model, e: Event)
    requires Sound(m)
    ensures Sound(Next(m, e))
  {
    if RunningNow(m) {
      if e.Answer? && Possible(m, e.res) { AnswerSound(m, e.res); }
    } else {
      match e
      case Call(bytes) => CallSound(m, bytes);
      case Turn => TurnSound(m);
      case Answer(_) =>
      case SendReady => if !m.closed { WakeSound(m.(items := m.items + [1])); }
      case Gone => WakeSound(m.(closed := true));
      case Other(id) => OtherSound(m, id);
    }
  }

  lemma {:induction false} RunSound(attached: bool, evs: seq<Event>)
    ensures Sound(After(attached, evs))
    decreases |evs|
  {
    if evs != [] {
      RunSound(attached, evs[..|evs| - 1]);
      NextSound(After(attached, evs[..|evs| - 1]), evs[|evs| - 1]);
    }
  }

  // ---- all bytes are sent, unless somebody gives up

  /** The three events after which bytes can stay unsent: the socket breaks, trySend answers
      nothing at all, or the watcher says that the connection is gone. */
  predicate GivesUp(e: Event) { e == Answer(Error) || e == Answer(Nothing) || e == Gone }

  predicate Untroubled(evs: seq<Event>) { forall k :: 0 <= k < |evs| ==> !GivesUp(evs[k]) }

  /** Nothing is left behind by those who have gone. */
  predicate Smooth(m: Model) { Sound(m) && m.attached && !m.closed && (!InLoop(m) ==> m.out == []) }

  lemma EnterSmooth(m: Model)
    requires m.entered < |m.calls| && Mine(m.queue) == [] && m.wire + m.out == Bytes(m.calls, m.entered)
    requires m.attached && !m.closed && m.out == []
    ensures Smooth(EnterNext(m))
  {
    EnterSound(m);
  }

  lemma NextSmooth(m: Model, e: Event)
    requires Smooth(m) && !GivesUp(e)
    ensures Smooth(Next(m, e))
  {
    NextSound(m, e);
    if !RunningNow(m) {
      if e.Call? && m.holder.None? {
        BytesKeep(m.calls, e.bytes, m.entered);
        EnterSmooth(m.(calls := m.calls + [e.bytes]));
      } else if e.Turn? && m.queue != [] {
        FirstIsHolder(m);
        if m.holder == Some(Handed) && m.queue[0].Own? { EnterSmooth(m.(queue := m.queue[1..])); }
      }
    }
  }

  lemma {:induction false} RunSmooth(evs: seq<Event>)
    requires Untroubled(evs)
    ensures Smooth(After(true, evs))
    decreases |evs|
  {
    if evs != [] {
      RunSmooth(evs[..|evs| - 1]);
      NextSmooth(After(true, evs[..|evs| - 1]), evs[|evs| - 1]);
    }
  }

  /** Over every run of an attached stream in which nobody gives up: when the lock is free the
      socket has accepted every byte of every call, one call after the other. */
  lemma FreeMeansSent(evs: seq<Event>)
    requires Untroubled(evs) && After(true, evs).holder.None?
    ensures After(true, evs).out == [] && AcceptedOf(true, evs) == Bytes(CallsOf(true, evs), |CallsOf(true, evs)|)
  {
    RunSmooth(evs);
    RunTells(true, evs);
  }

  /** The sender has left with bytes unsent. */
  predicate LeftUnsent(m: Model, r: Model) { InLoop(m) && !InLoop(r) && r.out != [] }

  lemma AnswerLeaves(m: Model, res: SendResult)
    requires Sound(m) && RunningNow(m) && Possible(m, res)
    ensures LeftUnsent(m, Answered(m, res)) <==> res.Error? || res.Nothing? || (res.WouldBlock? && m.closed && m.items == [])
  {
    LeaveKeeps(m);
    LeaveKeeps(m.(closed := true));
    if res.Accepted? { LeaveKeeps(m.(wire := m.wire + m.out[..res.n], out := m.out[res.n..])); }
  }

  lemma RunningLeaves(m: Model, e: Event)
    requires Sound(m) && RunningNow(m)
    ensures LeftUnsent(m, Next(m, e)) <==> e == Answer(Error) || e == Answer(Nothing) || (e == Answer(WouldBlock) && m.closed && m.items == [])
  {
    if e.Answer? && Possible(m, e.res) { AnswerLeaves(m, e.res); }
  }

  lemma WokenLeaves(m: Model, e: Event)
    requires Sound(m) && m.holder == Some(Woken)
    ensures LeftUnsent(m, Next(m, e)) <==> e == Turn && m.items == [] && m.queue != [] && m.queue[0].Own?
  {
    if m.queue != [] {
      FirstIsHolder(m);
      LeaveKeeps(m.(queue := m.queue[1..]));
    }
  }

  /** At every moment a sender leaves with bytes unsent exactly when trySend broke or answered
      nothing, or when it is woken, or would be parked, on a closed queue without signals. */
  lemma LeavesUnsentExactly(attached: bool, evs: seq<Event>, e: Event)
    ensures var m := After(attached, evs);
      LeftUnsent(m, Next(m, e)) <==>
        || (m.holder == Some(Running) && (e == Answer(Error) || e == Answer(Nothing) || (e == Answer(WouldBlock) && m.closed && m.items == [])))
        || (m.holder == Some(Woken) && e == Turn && m.items == [] && m.queue != [] && m.queue[0].Own?)
  {
    var m := After(attached, evs);
    RunSound(attached, evs);
    if m.holder == Some(Running) { RunningLeaves(m, e); } else if m.holder == Some(Woken) { WokenLeaves(m, e); } else { ParkedStays(m, e); }
  }

  lemma ParkedStays(m: Model, e: Event)
    requires Sound(m) && m.holder != Some(Running) && m.holder != Some(Woken)
    ensures !LeftUnsent(m, Next(m, e))
  {
    if m.holder == Some(Parked) && m.queue != [] { FirstIsHolder(m); }
  }

  /** The queue is closed only by a broken socket or a connection that is gone. */
  lemma {:induction false} ClosedMeansGivenUp(attached: bool, evs: seq<Event>)
    requires After(attached, evs).closed
    ensures exists k :: 0 <= k < |evs| && (evs[k] == Answer(Error) || evs[k] == Gone)
    decreases |evs|
  {
    if evs != [] {
      var n := |evs| - 1;
      if After(attached, evs[..n]).closed {
        ClosedMeansGivenUp(attached, evs[..n]);
        var k :| 0 <= k < n && (evs[..n][k] == Answer(Error) || evs[..n][k] == Gone);
        assert evs[k] == evs[..n][k];
      } else {
        assert evs[n] == Answer(Error) || evs[n] == Gone;
      }
    }
  }

  /** The socket breaks after one byte: the others stay behind and the queue is closed. */
  lemma ErrorLeavesBytes()
    ensures var m := After(true, [Call([1, 2, 3]), Answer(Accepted(1)), Answer(Error)]);
      m.holder.None? && m.wire == [1] && m.out == [2, 3] && m.closed
  {
    AfterThree(Call([1, 2, 3]), Answer(Accepted(1)), Answer(Error));
  }

  /** trySend answers nothing at all: the others stay behind. */
  lemma NothingLeavesBytes()
    ensures var m := After(true, [Call([1, 2, 3]), Answer(Accepted(1)), Answer(Nothing)]);
      m.holder.None? && m.wire == [1] && m.out == [2, 3] && !m.closed
  {
    AfterThree(Call([1, 2, 3]), Answer(Accepted(1)), Answer(Nothing));
  }

  lemma AfterThree(a: Event, b: Event, c: Event)
    ensures After(true, [a, b, c]) == Next(Next(Next(Start(true), a), b), c)
  {
    assert [a, b, c][..2] == [a, b] && [a, b][..1] == [a] && [a][..0] == [];
    assert After(true, [a]) == Next(Start(true), a);
    assert After(true, [a, b]) == Next(After(true, [a]), b);
  }

  /** The connection is gone while the sender is parked: woken, it leaves the others behind. */
  lemma GoneLeavesBytes()
    ensures var m := After(true, [Call([1, 2, 3]), Answer(Accepted(1)), Answer(WouldBlock), Gone, Turn]);
      m.holder.None? && m.wire == [1] && m.out == [2, 3] && m.closed
  {
    AfterThree(Call([1, 2, 3]), Answer(Accepted(1)), Answer(WouldBlock));
    var evs := [Call([1, 2, 3]), Answer(Accepted(1)), Answer(WouldBlock), Gone, Turn];
    assert evs[..4][..3] == [Call([1, 2, 3]), Answer(Accepted(1)), Answer(WouldBlock)];
    assert After(true, evs[..4]) == Next(After(true, evs[..4][..3]), Gone);
  }

  // ---- nobody is stuck

  /** A signal or the end of the connection schedules the sender that is parked. */
  lemma SignalWakes(attached: bool, evs: seq<Event>, e: Event)
    requires After(attached, evs).holder == Some(Parked) && (e == SendReady || e == Gone)
    ensures var m, r := After(attached, evs), Next(After(attached, evs), e);
      m.entered > 0 && r.holder == Some(Woken) && r.queue == m.queue + [Own(m.entered - 1)]
  {
    var m := After(attached, evs);
    RunSound(attached, evs);
    ParkedWakes(m, e);
  }

  lemma ParkedWakes(m: Model, e: Event)
    requires m.holder == Some(Parked) && m.entered > 0 && !m.closed && (e == SendReady || e == Gone)
    ensures Next(m, e).holder == Some(Woken) && Next(m, e).queue == m.queue + [Own(m.entered - 1)]
  {
    WakeParked(if e == Gone then m.(closed := true) else m.(items := m.items + [1]));
  }

  /** A signal that nobody waits for is kept, and a sender that would have to wait takes it
      and goes on. */
  lemma SignalsKept(attached: bool, evs: seq<Event>)
    ensures var m := After(attached, evs);
      && (m.holder != Some(Running) && m.holder != Some(Parked) && !m.closed ==>
           Next(m, SendReady).items == m.items + [1] && Next(m, SendReady).holder == m.holder)
      && (m.holder == Some(Running) && m.items != [] ==>
           Next(m, Answer(WouldBlock)).holder == Some(Running) && Next(m, Answer(WouldBlock)).items == m.items[1..])
  {}

  /** The worker's turn takes a sender that waited for the lock past it, and back to sending
      one that got a signal. */
  lemma TurnResumes(attached: bool, evs: seq<Event>)
    requires After(attached, evs).queue != [] && After(attached, evs).queue[0].Own?
    ensures var m, r := After(attached, evs), Next(After(attached, evs), Turn);
      if m.holder == Some(Handed)
      then m.entered < |m.calls| && m.queue[0].sender == m.entered && r.entered == m.entered + 1 && r.out == m.out + m.calls[m.entered]
      else m.holder == Some(Woken) && (m.items != [] ==> r.holder == Some(Running)) && r.out == m.out
  {
    var m := After(attached, evs);
    RunSound(attached, evs);
    FirstIsHolder(m);
    MineFirst(m.queue);
    OnlyOne(m.queue[0].sender, Mine(m.queue[1..]), Scheduled(m)[0]);
    if m.holder == Some(Handed) { LeaveKeeps(m.(queue := m.queue[1..], out := m.out + m.calls[m.entered], entered := m.entered + 1, holder := Some(Running))); }
  }

  lemma LeaveKeeps(m: Model)
    ensures Leave(m).entered == m.entered && Leave(m).out == m.out && !InLoop(Leave(m))
  {}

  /** Events from a moment on. */
  function Going(m: Model, evs: seq<Event>): Model
    decreases |evs|
  {
    if evs == [] then m else Going(Next(m, evs[0]), evs[1..])
  }

  lemma {:induction false} GoingOn(attached: bool, evs: seq<Event>, more: seq<Event>)
    ensures After(attached, evs + more) == Going(After(attached, evs), more)
    decreases |more|
  {
    if more == [] {
      assert evs + more == evs;
    } else {
      assert evs + more == (evs + [more[0]]) + more[1..] && (evs + [more[0]])[..|evs|] == evs;
      GoingOn(attached, evs + [more[0]], more[1..]);
    }
  }

  /** Where the holder is, from parked to gone. */
  function Stage(m: Model): nat {
    match m.holder
    case None => 0
    case Some(s) => if s.Handed? then 1 else if s.Running? then 2 else if s.Woken? then 3 else 4
  }

  /** Neither a call nor an event that gives up. */
  predicate Helpful(evs: seq<Event>) { forall k :: 0 <= k < |evs| ==> !GivesUp(evs[k]) && !evs[k].Call? }

  /** The event that brings the holder on. */
  function Help(m: Model): Event {
    if m.holder == Some(Running) then Answer(Accepted(|m.out|)) else if m.holder == Some(Parked) then SendReady else Turn
  }

  lemma HelpBringsOn(m: Model)
    requires Smooth(m) && !m.holder.None?
    ensures var r := Next(m, Help(m));
      && Smooth(r) && r.calls == m.calls && r.entered <= |r.calls|
      && (m.entered < r.entered || (r.entered == m.entered && (Stage(r) < Stage(m) || (Stage(r) == Stage(m) && |r.queue| < |m.queue|))))
  {
    NextSmooth(m, Help(m));
    NextTells(m, Help(m));
    if m.holder == Some(Handed) || m.holder == Some(Woken) {
      assert m.queue != [] by { assert Mine([]) == []; }
      FirstIsHolder(m);
      if m.holder == Some(Handed) && m.queue[0].Own? { EnterMovesOn(m.(queue := m.queue[1..])); }
    }
  }

  lemma EnterMovesOn(m: Model)
    requires m.entered < |m.calls|
    ensures EnterNext(m).entered == m.entered + 1
  {
    LeaveKeeps(m.(out := m.out + m.calls[m.entered], entered := m.entered + 1, holder := Some(Running)));
  }

  lemma {:induction false} CanFinish(m: Model) returns (more: seq<Event>)
    requires Smooth(m)
    ensures Helpful(more) && Smooth(Going(m, more)) && Going(m, more).holder.None? && Going(m, more).calls == m.calls
    decreases |m.calls| - m.entered, Stage(m), |m.queue|
  {
    if m.holder.None? { return []; }
    HelpBringsOn(m);
    var rest := CanFinish(Next(m, Help(m)));
    more := [Help(m)] + rest;
    assert more[0] == Help(m) && more[1..] == rest;
  }

  /** From every moment of every run in which nobody has given up, the worker's turns and the
      socket's answers can bring all bytes of all calls on the wire: nobody is stuck. */
  lemma AllCanBeSent(evs: seq<Event>) returns (more: seq<Event>)
    requires Untroubled(evs)
    ensures Helpful(more) && CallsOf(true, evs + more) == CallsOf(true, evs)
    ensures After(true, evs + more).holder.None?
    ensures AcceptedOf(true, evs + more) == Bytes(CallsOf(true, evs), |CallsOf(true, evs)|)
  {
    RunSmooth(evs);
    more := CanFinish(After(true, evs));
    GoingOn(true, evs, more);
    RunTells(true, evs);
    RunTells(true, evs + more);
  }
}
