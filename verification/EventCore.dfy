/** The event loop core of platform/schedule/eventloop_core.cc on the poll backend of
    platform/linux/schedule/poll_backend.cc. */
module EventCore {

  datatype PollFd = PollFd(fd: int, events: int)

  /** index is the inverse of the positions in ps. */
  predicate Inverse(ps: seq<PollFd>, index: map<int, nat>) {
    && (forall i :: 0 <= i < |ps| ==> ps[i].fd in index && index[ps[i].fd] == i)
    && (forall fd :: fd in index ==> index[fd] < |ps| && ps[index[fd]].fd == fd)
  }

  /** The events of every descriptor, whatever its position. */
  ghost function TableOf(ps: seq<PollFd>, index: map<int, nat>): (t: map<int, int>)
    requires Inverse(ps, index)
    ensures forall fd :: fd in t <==> fd in index
    ensures forall fd :: fd in index ==> t[fd] == ps[index[fd]].events
  {
    map fd | fd in index :: ps[index[fd]].events
  }

  lemma Appended(ps: seq<PollFd>, index: map<int, nat>, p: PollFd)
    requires Inverse(ps, index) && p.fd !in index
    ensures Inverse(ps + [p], index[p.fd := |ps|])
    ensures TableOf(ps + [p], index[p.fd := |ps|]) == TableOf(ps, index)[p.fd := p.events]
  {
    SameMap(TableOf(ps + [p], index[p.fd := |ps|]), TableOf(ps, index)[p.fd := p.events]);
  }

  lemma SameMap(a: map<int, int>, b: map<int, int>)
    requires a.Keys == b.Keys
    requires forall k :: k in a ==> a[k] == b[k]
    ensures a == b
  {
    forall k | k in a ensures a[k] == b[k] {}
  }

  lemma Changed(ps: seq<PollFd>, index: map<int, nat>, fd: int, events: int)
    requires Inverse(ps, index) && fd in index
    ensures var ps' := ps[index[fd] := PollFd(fd, events)];
      Inverse(ps', index) && TableOf(ps', index) == TableOf(ps, index)[fd := events]
  {
    SameMap(TableOf(ps[index[fd] := PollFd(fd, events)], index), TableOf(ps, index)[fd := events]);
  }

  lemma LastDropped(ps: seq<PollFd>, index: map<int, nat>, fd: int)
    requires Inverse(ps, index) && fd in index && index[fd] == |ps| - 1
    ensures Inverse(ps[..|ps| - 1], index - {fd})
    ensures TableOf(ps[..|ps| - 1], index - {fd}) == TableOf(ps, index) - {fd}
  {
    SameMap(TableOf(ps[..|ps| - 1], index - {fd}), TableOf(ps, index) - {fd});
  }

  lemma LastMoved(ps: seq<PollFd>, index: map<int, nat>, fd: int)
    requires Inverse(ps, index) && fd in index && index[fd] != |ps| - 1
    ensures var last := ps[|ps| - 1];
      var ps', index' := ps[index[fd] := last][..|ps| - 1], index[last.fd := index[fd]] - {fd};
      Inverse(ps', index') && TableOf(ps', index') == TableOf(ps, index) - {fd}
  {
    var last := ps[|ps| - 1];
    var ps', index' := ps[index[fd] := last][..|ps| - 1], index[last.fd := index[fd]] - {fd};
    assert last.fd != fd;
    forall i | 0 <= i < |ps'| ensures ps'[i].fd in index' && index'[ps'[i].fd] == i {
      assert i != index[fd] ==> ps'[i] == ps[i] && ps[i].fd != fd;
    }
    SameMap(TableOf(ps', index'), TableOf(ps, index) - {fd});
  }

  class PollBackend {
    var pollfds: seq<PollFd>
    var fdIndex: map<int, nat>

    ghost predicate Valid()
      reads this
    {
      Inverse(pollfds, fdIndex)
    }

    /** What the backend polls, as a plain map. */
    ghost function Table(): map<int, int>
      reads this
      requires Valid()
    {
      TableOf(pollfds, fdIndex)
    }

    constructor ()
      ensures Valid() && Table() == map[]
    {
      pollfds, fdIndex := [], map[];
    }

    method RegisterFd(fd: int, events: int)
      requires Valid()
      modifies this
      ensures Valid() && Table() == old(Table())[fd := events]
    {
      if fd in fdIndex {
        Changed(pollfds, fdIndex, fd, events);
        pollfds := pollfds[fdIndex[fd] := pollfds[fdIndex[fd]].(events := events)];
        return;
      }
      Appended(pollfds, fdIndex, PollFd(fd, events));
      fdIndex := fdIndex[fd := |pollfds|];
      pollfds := pollfds + [PollFd(fd, events)];
    }

    /** The last entry moves into the gap. */
    method UnregisterFd(fd: int)
      requires Valid()
      modifies this
      ensures Valid() && Table() == old(Table()) - {fd}
    {
      if fd !in fdIndex { return; }
      var index, last := fdIndex[fd], |pollfds| - 1;
      if index != last {
        LastMoved(pollfds, fdIndex, fd);
        pollfds := pollfds[index := pollfds[last]];
        fdIndex := fdIndex[pollfds[index].fd := index];
      } else {
        LastDropped(pollfds, fdIndex, fd);
      }
      pollfds := pollfds[..last];
      fdIndex := fdIndex - {fd};
    }
  }

  /** PollEventSource; `poll` says that its backend type is the poll backend's. */
  class Source {
    const fd: int
    const poll: bool
    var events: int
    var armed: bool
    var backend: PollBackend?

    constructor (fd: int, events: int, poll: bool)
      ensures this.fd == fd && this.events == events && this.poll == poll && !armed
    {
      this.fd, this.events, this.poll, armed, backend := fd, events, poll, false, null;
    }

    method Arm(b: PollBackend)
      requires b.Valid()
      modifies this`armed, this`backend, b
      ensures b.Valid() && armed == (old(armed) || poll)
      ensures b.Table() == if poll && !old(armed) then old(b.Table())[fd := events] else old(b.Table())
      ensures backend == if poll && !old(armed) then b else old(backend)
    {
      if !poll || armed { return; }
      b.RegisterFd(fd, events);
      armed, backend := true, b;
    }

    method Disarm(b: PollBackend)
      requires b.Valid()
      modifies this`armed, this`backend, b
      ensures b.Valid() && armed == (old(armed) && !poll)
      ensures b.Table() == if poll && old(armed) then old(b.Table()) - {fd} else old(b.Table())
      ensures backend == if poll && old(armed) then null else old(backend)
    {
      if !poll || !armed { return; }
      b.UnregisterFd(fd);
      armed, backend := false, null;
    }

    method SetEvents(ev: int)
      requires backend != null ==> backend.Valid()
      modifies this`events, backend
      ensures events == ev && backend == old(backend) && (backend != null ==> backend.Valid())
      ensures backend != null ==>
        backend.Table() == if armed && poll then old(backend.Table())[fd := ev] else old(backend.Table())
    {
      events := ev;
      if armed && backend != null && poll { backend.RegisterFd(fd, ev); }
    }
  }

  datatype Op = Add(src: Source) | Remove(src: Source)

  // ---- the list of sources that operations make

  function Without(ss: seq<Source>, s: Source): seq<Source> {
    if ss == [] then []
    else if ss[|ss| - 1] == s then Without(ss[..|ss| - 1], s)
    else Without(ss[..|ss| - 1], s) + [ss[|ss| - 1]]
  }

  function Applied(ss: seq<Source>, op: Op): seq<Source> {
    match op
    case Add(s) => if s in ss then ss else ss + [s]
    case Remove(s) => Without(ss, s)
  }

  function Fold(ss: seq<Source>, ops: seq<Op>): seq<Source> {
    if ops == [] then ss else Applied(Fold(ss, ops[..|ops| - 1]), ops[|ops| - 1])
  }

  predicate NoDuplicates(ss: seq<Source>) {
    forall i, j :: 0 <= i < j < |ss| ==> ss[i] != ss[j]
  }

  lemma {:induction false} WithoutExact(ss: seq<Source>, s: Source, t: Source)
    ensures t in Without(ss, s) <==> t in ss && t != s
    decreases |ss|
  {
    if ss != [] {
      var n := |ss| - 1;
      WithoutExact(ss[..n], s, t);
      assert ss == ss[..n] + [ss[n]];
    }
  }

  lemma {:induction false} WithoutNoDuplicates(ss: seq<Source>, s: Source)
    requires NoDuplicates(ss)
    ensures NoDuplicates(Without(ss, s))
    decreases |ss|
  {
    if ss != [] {
      var n := |ss| - 1;
      WithoutNoDuplicates(ss[..n], s);
      WithoutExact(ss[..n], s, ss[n]);
    }
  }

  /** Who is in the list is decided by the last operation on it. */
  lemma AppliedExact(ss: seq<Source>, op: Op, t: Source)
    ensures t in Applied(ss, op) <==> if t == op.src then op.Add? else t in ss
  {
    if op.Remove? { WithoutExact(ss, op.src, t); }
  }

  lemma AppliedNoDuplicates(ss: seq<Source>, op: Op)
    requires NoDuplicates(ss)
    ensures NoDuplicates(Applied(ss, op))
  {
    if op.Remove? { WithoutNoDuplicates(ss, op.src); }
  }

  /** In the list is what was added last, or was there and never touched. */
  predicate AddedLast(ops: seq<Op>, t: Source, before: bool) {
    if ops == [] then before
    else if ops[|ops| - 1].src == t then ops[|ops| - 1].Add?
    else AddedLast(ops[..|ops| - 1], t, before)
  }

  lemma {:induction false} FoldExact(ss: seq<Source>, ops: seq<Op>, t: Source)
    ensures t in Fold(ss, ops) <==> AddedLast(ops, t, t in ss)
    decreases |ops|
  {
    if ops != [] {
      FoldExact(ss, ops[..|ops| - 1], t);
      AppliedExact(Fold(ss, ops[..|ops| - 1]), ops[|ops| - 1], t);
    }
  }

  lemma FoldNext(ss: seq<Source>, ops: seq<Op>, i: nat)
    requires i < |ops|
    ensures Fold(ss, ops[..i + 1]) == Applied(Fold(ss, ops[..i]), ops[i])
  {
    assert ops[..i + 1][..i] == ops[..i];
  }

  // ---- the core

  datatype RawEvent = RawEvent(fd: int, revents: int)

  /** What a callback may do to the loop that called it. */
  datatype Command = AddSource(src: Source) | RemoveSource(src: Source) | SetEvents(src: Source, events: int) | ApplyNow

  datatype Hit = Hit(ev: RawEvent, src: Source)

  /** The first listed source with the descriptor, or |ss|. */
  function Lookup(ss: seq<Source>, fd: int, from: nat): (k: nat)
    requires from <= |ss|
    ensures from <= k <= |ss| && (k < |ss| ==> ss[k].fd == fd) && forall i :: from <= i < k ==> ss[i].fd != fd
    decreases |ss| - from
  {
    if from == |ss| || ss[from].fd == fd then from else Lookup(ss, fd, from + 1)
  }

  /** Which source each raw event reaches. */
  function Hits(raw: seq<RawEvent>, ss: seq<Source>): seq<Hit> {
    if raw == [] then [] else Hits(raw[..|raw| - 1], ss) + HitOf(raw[|raw| - 1], ss)
  }

  function HitOf(ev: RawEvent, ss: seq<Source>): seq<Hit> {
    var k := Lookup(ss, ev.fd, 0);
    if k < |ss| then [Hit(ev, ss[k])] else []
  }

  lemma HitsNext(raw: seq<RawEvent>, ss: seq<Source>, i: nat)
    requires i < |raw|
    ensures Hits(raw[..i + 1], ss) == Hits(raw[..i], ss) + HitOf(raw[i], ss)
  {
    assert raw[..i + 1][..i] == raw[..i];
  }

  /** With descriptors of their own, sources get all their events and no others. */
  lemma {:induction false} HitsExact(raw: seq<RawEvent>, ss: seq<Source>, ev: RawEvent, s: Source)
    requires forall i, j :: 0 <= i < j < |ss| ==> ss[i].fd != ss[j].fd
    ensures Hit(ev, s) in Hits(raw, ss) <==> ev in raw && s in ss && s.fd == ev.fd
    decreases |raw|
  {
    if raw != [] {
      var last := raw[|raw| - 1];
      HitsExact(raw[..|raw| - 1], ss, ev, s);
      assert ev in raw <==> ev in raw[..|raw| - 1] || ev == last;
      var k := Lookup(ss, last.fd, 0);
      if s in ss && s.fd == last.fd {
        var i :| 0 <= i < |ss| && ss[i] == s;
        assert i == k;
      }
    }
  }

  // ---- what commands make of the loop, as a value

  /** The list, the queue, and the events each source asks for. */
  datatype Book = Book(list: seq<Source>, pending: seq<Op>, events: map<Source, int>)

  function Told(b: Book, c: Command, inside: bool): Book {
    match c
    case AddSource(s) => b.(pending := b.pending + [Add(s)])
    case RemoveSource(s) => b.(pending := b.pending + [Remove(s)])
    case SetEvents(s, ev) => b.(events := b.events[s := ev])
    case ApplyNow => if inside then b else b.(list := Fold(b.list, b.pending), pending := [])
  }

  function ToldAll(b: Book, cs: seq<Command>, inside: bool): Book {
    if cs == [] then b else Told(ToldAll(b, cs[..|cs| - 1], inside), cs[|cs| - 1], inside)
  }

  /** After the first n callbacks of a dispatch. */
  function Called(b: Book, n: nat, replies: seq<seq<Command>>): Book {
    if n == 0 then b
    else if n <= |replies| then ToldAll(Called(b, n - 1, replies), replies[n - 1], true)
    else Called(b, n - 1, replies)
  }

  /** What they do. */
  function Done(n: nat, replies: seq<seq<Command>>): seq<Command> {
    if n == 0 then [] else Done(n - 1, replies) + if n <= |replies| then replies[n - 1] else []
  }

  /** One turn of the loop: commands from outside, what the wait reports, and what the
      callbacks do. */
  datatype Round = Round(before: seq<Command>, raw: seq<RawEvent>, replies: seq<seq<Command>>)

  function HitsIn(b: Book, r: Round): seq<Hit> { Hits(r.raw, ToldAll(b, r.before, false).list) }

  function Turned(b: Book, r: Round): Book {
    var told := ToldAll(b, r.before, false);
    Told(Called(told, |Hits(r.raw, told.list)|, r.replies), ApplyNow, false)
  }

  function After(events: map<Source, int>, rounds: seq<Round>): Book {
    if rounds == [] then Book([], [], events) else Turned(After(events, rounds[..|rounds| - 1]), rounds[|rounds| - 1])
  }

  function AllHits(events: map<Source, int>, rounds: seq<Round>): seq<Hit> {
    if rounds == [] then [] else
      var n := |rounds| - 1;
      AllHits(events, rounds[..n]) + HitsIn(After(events, rounds[..n]), rounds[n])
  }

  /** The commands of a run in the order in which they are given. */
  function AllCommands(events: map<Source, int>, rounds: seq<Round>): seq<Command> {
    if rounds == [] then [] else
      var n := |rounds| - 1;
      AllCommands(events, rounds[..n]) + (rounds[n].before + Done(|HitsIn(After(events, rounds[..n]), rounds[n])|, rounds[n].replies))
  }

  function OpsIn(cs: seq<Command>): seq<Op> {
    if cs == [] then [] else
      var c := cs[|cs| - 1];
      OpsIn(cs[..|cs| - 1]) + if c.AddSource? then [Add(c.src)] else if c.RemoveSource? then [Remove(c.src)] else []
  }

  /** The events that a source asked for last. */
  function LastEvents(cs: seq<Command>, s: Source, before: int): int {
    if cs == [] then before
    else if cs[|cs| - 1].SetEvents? && cs[|cs| - 1].src == s then cs[|cs| - 1].events
    else LastEvents(cs[..|cs| - 1], s, before)
  }

  lemma {:induction false} FoldJoin(ss: seq<Source>, a: seq<Op>, b: seq<Op>)
    ensures Fold(ss, a + b) == Fold(Fold(ss, a), b)
    decreases |b|
  {
    if b == [] {
      assert a + b == a;
    } else {
      assert (a + b)[..|a + b| - 1] == a + b[..|b| - 1];
      FoldJoin(ss, a, b[..|b| - 1]);
    }
  }

  lemma {:induction false} OpsJoin(a: seq<Command>, b: seq<Command>)
    ensures OpsIn(a + b) == OpsIn(a) + OpsIn(b)
    decreases |b|
  {
    if b == [] {
      assert a + b == a;
    } else {
      assert (a + b)[..|a + b| - 1] == a + b[..|b| - 1];
      OpsJoin(a, b[..|b| - 1]);
    }
  }

  lemma {:induction false} LastEventsJoin(a: seq<Command>, b: seq<Command>, s: Source, before: int)
    ensures LastEvents(a + b, s, before) == LastEvents(b, s, LastEvents(a, s, before))
    decreases |b|
  {
    if b == [] {
      assert a + b == a;
    } else {
      assert (a + b)[..|a + b| - 1] == a + b[..|b| - 1];
      LastEventsJoin(a, b[..|b| - 1], s, before);
    }
  }

  lemma {:induction false} ToldJoin(b: Book, x: seq<Command>, y: seq<Command>, inside: bool)
    ensures ToldAll(b, x + y, inside) == ToldAll(ToldAll(b, x, inside), y, inside)
    decreases |y|
  {
    if y == [] {
      assert x + y == x;
    } else {
      assert (x + y)[..|x + y| - 1] == x + y[..|y| - 1];
      ToldJoin(b, x, y[..|y| - 1], inside);
    }
  }

  lemma ToldNext(b: Book, cs: seq<Command>, inside: bool, i: nat)
    requires i < |cs|
    ensures ToldAll(b, cs[..i + 1], inside) == Told(ToldAll(b, cs[..i], inside), cs[i], inside)
  {
    assert cs[..i + 1][..i] == cs[..i];
  }

  /** Inside a dispatch commands leave the list alone. */
  lemma {:induction false} ToldInside(b: Book, cs: seq<Command>)
    ensures ToldAll(b, cs, true).list == b.list
    decreases |cs|
  {
    if cs != [] { ToldInside(b, cs[..|cs| - 1]); }
  }

  lemma {:induction false} CalledTold(b: Book, n: nat, replies: seq<seq<Command>>)
    ensures Called(b, n, replies) == ToldAll(b, Done(n, replies), true)
    decreases n
  {
    if n > 0 {
      CalledTold(b, n - 1, replies);
      if n <= |replies| {
        ToldJoin(b, Done(n - 1, replies), replies[n - 1], true);
      } else {
        assert Done(n, replies) == Done(n - 1, replies);
      }
    }
  }

  /** The list once everything queued is applied. */
  function Settled(b: Book): seq<Source> { Fold(b.list, b.pending) }

  lemma ToldOne(b: Book, c: Command, inside: bool)
    ensures Settled(Told(b, c, inside)) == Fold(Settled(b), OpsIn([c]))
  {
    assert [c][..0] == [];
    match c
    case AddSource(s) => FoldJoin(b.list, b.pending, [Add(s)]);
    case RemoveSource(s) => FoldJoin(b.list, b.pending, [Remove(s)]);
    case SetEvents(_, _) =>
    case ApplyNow =>
  }

  /** Applying now or later, inside a dispatch or outside, comes to the same list. */
  lemma {:induction false} ToldSettles(b: Book, cs: seq<Command>, inside: bool)
    ensures Settled(ToldAll(b, cs, inside)) == Fold(Settled(b), OpsIn(cs))
    decreases |cs|
  {
    if cs != [] {
      var most, c := cs[..|cs| - 1], cs[|cs| - 1];
      ToldSettles(b, most, inside);
      ToldOne(ToldAll(b, most, inside), c, inside);
      assert most + [c] == cs;
      OpsJoin(most, [c]);
      FoldJoin(Settled(b), OpsIn(most), OpsIn([c]));
    }
  }

  /** Applied at last, what the callbacks asked for is the fold of it. */
  lemma CalledSettles(b: Book, n: nat, replies: seq<seq<Command>>)
    ensures Told(Called(b, n, replies), ApplyNow, false).list == Fold(b.list, b.pending + OpsIn(Done(n, replies)))
    ensures Told(Called(b, n, replies), ApplyNow, false).pending == []
  {
    CalledTold(b, n, replies);
    ToldSettles(b, Done(n, replies), true);
    FoldJoin(b.list, b.pending, OpsIn(Done(n, replies)));
  }

  lemma {:induction false} ToldEvents(b: Book, cs: seq<Command>, inside: bool, s: Source)
    requires s in b.events
    ensures s in ToldAll(b, cs, inside).events && ToldAll(b, cs, inside).events[s] == LastEvents(cs, s, b.events[s])
    decreases |cs|
  {
    if cs != [] { ToldEvents(b, cs[..|cs| - 1], inside, s); }
  }

  lemma TurnSettles(b: Book, r: Round)
    requires b.pending == []
    ensures Turned(b, r).pending == []
    ensures Turned(b, r).list == Fold(b.list, OpsIn(r.before + Done(|HitsIn(b, r)|, r.replies)))
  {
    var told, done := ToldAll(b, r.before, false), Done(|HitsIn(b, r)|, r.replies);
    ToldSettles(b, r.before, false);
    CalledTold(told, |HitsIn(b, r)|, r.replies);
    ToldSettles(told, done, true);
    OpsJoin(r.before, done);
    FoldJoin(b.list, OpsIn(r.before), OpsIn(done));
  }

  lemma TurnEvents(b: Book, r: Round, s: Source)
    requires s in b.events
    ensures s in Turned(b, r).events
    ensures Turned(b, r).events[s] == LastEvents(r.before + Done(|HitsIn(b, r)|, r.replies), s, b.events[s])
  {
    var told, done := ToldAll(b, r.before, false), Done(|HitsIn(b, r)|, r.replies);
    ToldEvents(b, r.before, false, s);
    CalledTold(told, |HitsIn(b, r)|, r.replies);
    ToldEvents(told, done, true, s);
    LastEventsJoin(r.before, done, s, b.events[s]);
  }

  /** After any run the list is the fold of all additions and removals of the run, in the
      order in which they were asked for, whatever was applied when. */
  lemma {:induction false} RunIsFold(events: map<Source, int>, rounds: seq<Round>)
    ensures After(events, rounds).pending == []
    ensures After(events, rounds).list == Fold([], OpsIn(AllCommands(events, rounds)))
    decreases |rounds|
  {
    if rounds != [] {
      var n := |rounds| - 1;
      var b, r := After(events, rounds[..n]), rounds[n];
      RunIsFold(events, rounds[..n]);
      TurnSettles(b, r);
      var more := r.before + Done(|HitsIn(b, r)|, r.replies);
      OpsJoin(AllCommands(events, rounds[..n]), more);
      FoldJoin([], OpsIn(AllCommands(events, rounds[..n])), OpsIn(more));
    }
  }

  lemma {:induction false} RunEvents(events: map<Source, int>, rounds: seq<Round>, s: Source)
    requires s in events
    ensures s in After(events, rounds).events
    ensures After(events, rounds).events[s] == LastEvents(AllCommands(events, rounds), s, events[s])
    decreases |rounds|
  {
    if rounds != [] {
      var n := |rounds| - 1;
      var b, r := After(events, rounds[..n]), rounds[n];
      RunEvents(events, rounds[..n], s);
      TurnEvents(b, r, s);
      LastEventsJoin(AllCommands(events, rounds[..n]), r.before + Done(|HitsIn(b, r)|, r.replies), s, events[s]);
    }
  }

  /** Who is listed after a run: whoever was added last rather than removed. */
  lemma ListedAfterRun(events: map<Source, int>, rounds: seq<Round>, s: Source)
    ensures s in After(events, rounds).list <==> AddedLast(OpsIn(AllCommands(events, rounds)), s, false)
  {
    RunIsFold(events, rounds);
    FoldExact([], OpsIn(AllCommands(events, rounds)), s);
  }

  /** Commands are about these sources. */
  ghost predicate KnownIn(all: set<Source>, cs: seq<Command>) {
    forall i :: 0 <= i < |cs| ==> cs[i].ApplyNow? || cs[i].src in all
  }

  ghost predicate KnownReplies(all: set<Source>, replies: seq<seq<Command>>) {
    forall k :: 0 <= k < |replies| ==> KnownIn(all, replies[k])
  }

  ghost predicate KnownRound(all: set<Source>, r: Round) {
    KnownIn(all, r.before) && KnownReplies(all, r.replies)
  }

  class Core {
    const backend: PollBackend
    var sources: seq<Source>
    var pending: seq<Op>
    var inDispatch: bool
    ghost const known: set<Source>     // every source this core will ever meet
    ghost const owner: map<int, Source>

    /** Sources have descriptors of their own. */
    ghost predicate Distinct()
    {
      forall s :: s in known ==> s.fd in owner && owner[s.fd] == s
    }

    ghost predicate Listed()
      reads this
    {
      && (forall s :: s in sources ==> s in known)
      && (forall i :: 0 <= i < |pending| ==> pending[i].src in known)
      && NoDuplicates(sources)
    }

    /** Exactly the listed poll sources are armed, on this backend. */
    ghost predicate Armed()
      reads this, known
    {
      forall s :: s in known ==>
        && (s.armed <==> s in sources && s.poll)
        && s.backend == (if s.armed then backend else null)
    }

    /** The backend polls exactly the armed sources, each for its own events. */
    ghost predicate TableRight()
      reads this, known, backend
      requires backend.Valid()
    {
      && (forall s :: s in known && s.armed ==> s.fd in backend.Table() && backend.Table()[s.fd] == s.events)
      && (forall fd :: fd in backend.Table() ==> fd in owner && owner[fd] in known && owner[fd].armed && owner[fd].fd == fd)
    }

    /** The core is what the book says. */
    ghost predicate Agrees(b: Book)
      reads this, known
    {
      && sources == b.list && pending == b.pending
      && forall s :: s in known ==> s in b.events && s.events == b.events[s]
    }

    ghost predicate Valid()
      reads this, known, backend
    {
      backend.Valid() && Distinct() && Listed() && Armed() && TableRight()
    }

    constructor (b: PollBackend, ghost known: set<Source>)
      requires b.Valid() && b.Table() == map[]
      requires forall s, t :: s in known && t in known && s != t ==> s.fd != t.fd
      requires forall s :: s in known ==> !s.armed && s.backend == null
      ensures Valid() && backend == b && this.known == known && sources == [] && pending == [] && !inDispatch
    {
      backend := b;
      this.known, owner := known, map s | s in known :: s.fd := s;
      sources, pending, inDispatch := [], [], false;
    }

    /** addSource and removeSource only queue; nothing happens before the next apply. */
    method Enqueue(op: Op)
      requires Valid() && op.src in known
      modifies this`pending
      ensures Valid() && pending == old(pending) + [op]
    {
      pending := pending + [op];
    }

    /** setEvents of a source of this core. */
    method ChangeEvents(s: Source, ev: int)
      requires Valid() && s in known
      modifies s`events, backend
      ensures Valid() && s.events == ev
      ensures backend.Table() == if s.armed then old(backend.Table())[s.fd := ev] else old(backend.Table())
    {
      s.SetEvents(ev);
    }

    method ApplyAdd(s: Source)
      requires Valid() && s in known
      modifies this`sources, s`armed, s`backend, backend
      ensures Valid() && sources == Applied(old(sources), Add(s))
      ensures s.armed <==> s.poll
    {
      s.Arm(backend);
      if s !in sources { sources := sources + [s]; }
    }

    method ApplyRemove(s: Source)
      requires Valid() && s in known
      modifies this`sources, s`armed, s`backend, backend
      ensures Valid() && sources == Applied(old(sources), Remove(s)) && !s.armed
    {
      s.Disarm(backend);
      WithoutNoDuplicates(sources, s);
      forall t: Source ensures t in Without(sources, s) <==> t in sources && t != s { WithoutExact(sources, s, t); }
      sources := Without(sources, s);
    }

    /** applyPendingChanges: the queued operations in order, except inside a dispatch. */
    method ApplyPending()
      requires Valid()
      modifies this`sources, this`pending, known, backend
      ensures Valid()
      ensures inDispatch ==> sources == old(sources) && pending == old(pending) && backend.Table() == old(backend.Table())
      ensures !inDispatch ==> pending == [] && sources == Fold(old(sources), old(pending))
      ensures forall s :: s in known ==> s.events == old(s.events)
    {
      if inDispatch { return; }
      var ops := pending;
      pending := [];
      assert ops[..0] == [];
      for i := 0 to |ops|
        invariant Valid() && pending == [] && ops == old(pending)
        invariant sources == Fold(old(sources), ops[..i])
        invariant forall s :: s in known ==> s.events == old(s.events)
      {
        FoldNext(old(sources), ops, i);
        match ops[i]
        case Add(s) => ApplyAdd(s);
        case Remove(s) => ApplyRemove(s);
      }
      assert ops[..|ops|] == ops;
    }

    /** One thing that a callback or somebody outside does. */
    method Obey(c: Command, ghost b: Book)
      requires Valid() && KnownIn(known, [c]) && Agrees(b)
      modifies this`sources, this`pending, known, backend
      ensures Valid() && Agrees(Told(b, c, inDispatch))
    {
      assert [c][0] == c;
      match c
      case AddSource(s) => Enqueue(Add(s));
      case RemoveSource(s) => Enqueue(Remove(s));
      case SetEvents(s, ev) => ChangeEvents(s, ev);
      case ApplyNow => ApplyPending();
    }

    method ObeyAll(cs: seq<Command>, ghost b: Book)
      requires Valid() && KnownIn(known, cs) && Agrees(b)
      modifies this`sources, this`pending, known, backend
      ensures Valid() && Agrees(ToldAll(b, cs, inDispatch))
    {
      assert cs[..0] == [];
      for i := 0 to |cs|
        invariant Valid() && Agrees(ToldAll(b, cs[..i], inDispatch))
      {
        assert cs[i].ApplyNow? || cs[i].src in known;
        ToldNext(b, cs, inDispatch, i);
        Obey(cs[i], ToldAll(b, cs[..i], inDispatch));
      }
      assert cs[..|cs|] == cs;
    }

    method FindSource(ss: seq<Source>, fd: int) returns (j: nat)
      ensures j == Lookup(ss, fd, 0)
    {
      j := 0;
      while j < |ss| && ss[j].fd != fd
        invariant 0 <= j <= |ss| && Lookup(ss, fd, 0) == Lookup(ss, fd, j)
      {
        j := j + 1;
      }
    }

    /** dispatchRawEvents: each event goes to the one source with its descriptor; whatever
        the callbacks do (replies[k] is what the k-th one does), the list stays. */
    method Dispatch(raw: seq<RawEvent>, replies: seq<seq<Command>>, ghost b: Book) returns (hits: seq<Hit>)
      requires Valid() && Agrees(b) && KnownReplies(known, replies)
      modifies this, known, backend
      ensures Valid() && sources == old(sources) && inDispatch == old(inDispatch)
      ensures hits == if old(inDispatch) then [] else Hits(raw, old(sources))
      ensures Agrees(Called(b, |hits|, replies))
    {
      hits := [];
      if inDispatch { return; }
      inDispatch := true;
      hits := DispatchAll(raw, replies, b);
      inDispatch := false;
    }

    /** The loop over the raw events. */
    method DispatchAll(raw: seq<RawEvent>, replies: seq<seq<Command>>, ghost b: Book) returns (hits: seq<Hit>)
      requires Valid() && inDispatch && Agrees(b) && KnownReplies(known, replies)
      modifies this`sources, this`pending, known, backend
      ensures Valid() && sources == old(sources) && hits == Hits(raw, old(sources))
      ensures Agrees(Called(b, |hits|, replies))
    {
      hits := [];
      var snapshot := sources;
      assert raw[..0] == [];
      for i := 0 to |raw|
        invariant Valid() && sources == snapshot && hits == Hits(raw[..i], snapshot)
        invariant Agrees(Called(b, |hits|, replies))
      {
        HitsNext(raw, snapshot, i);
        var hit := DispatchOne(raw[i], snapshot, |hits|, replies, b);
        hits := hits + hit;
      }
      assert raw[..|raw|] == raw;
    }

    /** One raw event, when k callbacks have been called before. */
    method DispatchOne(ev: RawEvent, snapshot: seq<Source>, k: nat, replies: seq<seq<Command>>, ghost b: Book) returns (hit: seq<Hit>)
      requires Valid() && inDispatch && KnownReplies(known, replies) && Agrees(Called(b, k, replies))
      modifies this`sources, this`pending, known, backend
      ensures Valid() && sources == old(sources) && hit == HitOf(ev, snapshot)
      ensures Agrees(Called(b, k + |hit|, replies))
    {
      hit := [];
      var j := FindSource(snapshot, ev.fd);
      if j < |snapshot| {
        hit := [Hit(ev, snapshot[j])];
        CallBack(k, replies, b);
      }
    }

    /** The k-th callback of a dispatch. */
    method CallBack(k: nat, replies: seq<seq<Command>>, ghost b: Book)
      requires Valid() && inDispatch && KnownReplies(known, replies) && Agrees(Called(b, k, replies))
      modifies this`sources, this`pending, known, backend
      ensures Valid() && sources == old(sources) && Agrees(Called(b, k + 1, replies))
    {
      if k < |replies| {
        ToldInside(Called(b, k, replies), replies[k]);
        ObeyAll(replies[k], Called(b, k, replies));
      }
    }

    /** runOnce, given what the wait reported. */
    method RunOnce(raw: seq<RawEvent>, replies: seq<seq<Command>>, ghost b: Book) returns (hits: seq<Hit>)
      requires Valid() && !inDispatch && Agrees(b) && KnownReplies(known, replies)
      modifies this, known, backend
      ensures Valid() && !inDispatch && hits == Hits(raw, old(sources)) && pending == []
      ensures sources == Fold(old(sources), b.pending + OpsIn(Done(|hits|, replies)))
      ensures Agrees(Told(Called(b, |hits|, replies), ApplyNow, false))
    {
      hits := Dispatch(raw, replies, b);
      ApplyPending();
      CalledSettles(b, |hits|, replies);
    }

    /** Commands from outside, then one turn of the loop. */
    method Turn(r: Round, ghost b: Book) returns (hits: seq<Hit>)
      requires Valid() && !inDispatch && Agrees(b) && KnownRound(known, r)
      modifies this, known, backend
      ensures Valid() && !inDispatch && hits == HitsIn(b, r) && Agrees(Turned(b, r))
    {
      ObeyAll(r.before, b);
      hits := RunOnce(r.raw, r.replies, ToldAll(b, r.before, false));
    }

    /** Events reach exactly the listed source that has their descriptor. */
    lemma EventsReach(raw: seq<RawEvent>, ev: RawEvent, s: Source)
      requires Valid()
      ensures Hit(ev, s) in Hits(raw, sources) <==> ev in raw && s in sources && s.fd == ev.fd
    {
      HitsExact(raw, sources, ev, s);
    }

    /** A poll source is polled exactly when it was added last rather than removed, and
        for the events that it asked for last. */
    lemma PolledAfterRun(events: map<Source, int>, rounds: seq<Round>, s: Source)
      requires Valid() && Agrees(After(events, rounds)) && s in known && s in events
      ensures s.poll ==> (s.fd in backend.Table() <==> AddedLast(OpsIn(AllCommands(events, rounds)), s, false))
      ensures s.fd in backend.Table() ==> backend.Table()[s.fd] == LastEvents(AllCommands(events, rounds), s, events[s])
    {
      ListedAfterRun(events, rounds, s);
      RunEvents(events, rounds, s);
    }
  }

  /** Over every run of a fresh loop: the hits, the list and the polled descriptors follow
      from the commands alone. */
  method Run(ghost all: set<Source>, rounds: seq<Round>, ghost events: map<Source, int>) returns (core: Core, hits: seq<Hit>)
    requires forall s, t :: s in all && t in all && s != t ==> s.fd != t.fd
    requires forall s :: s in all ==> !s.armed && s.backend == null && s in events && events[s] == s.events
    requires forall i :: 0 <= i < |rounds| ==> KnownRound(all, rounds[i])
    modifies all
    ensures hits == AllHits(events, rounds)
    ensures fresh(core) && core.known == all && core.Valid() && core.Agrees(After(events, rounds))
    ensures core.sources == Fold([], OpsIn(AllCommands(events, rounds)))
  {
    var backend := new PollBackend();
    core := new Core(backend, all);
    hits := [];
    assert rounds[..0] == [];
    for i := 0 to |rounds|
      invariant fresh(core) && fresh(backend) && core.backend == backend && core.known == all
      invariant core.Valid() && !core.inDispatch && core.Agrees(After(events, rounds[..i]))
      invariant hits == AllHits(events, rounds[..i])
    {
      assert rounds[..i + 1][..i] == rounds[..i];
      var more := core.Turn(rounds[i], After(events, rounds[..i]));
      hits := hits + more;
    }
    assert rounds[..|rounds|] == rounds;
    RunIsFold(events, rounds);
  }
}
