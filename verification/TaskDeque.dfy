/** The bounded work-stealing deque of utils/concurrency/task_deque.cc.

    One owner thread pushes and pops at the bottom, any number of thieves steal
    at the top.  Every atomic load, store, read-modify-write and slot access of
    the C++ code is one step, and the steps of all threads interleave freely
    (sequentially consistent).  Tasks are identified by the order in which they
    are published. */
module TaskDeque {

  type Id = nat

  datatype Option<+T> = None | Some(value: T)

  const SIZE_T: int := 0x1_0000_0000_0000_0000

  /** Reduction of an integer to the range of `size_t`. */
  function Wrap(x: int): int { x % SIZE_T }

  /** `a - b` on `size_t`. */
  function SubU(a: nat, b: nat): int { if a >= b then a - b else a - b + SIZE_T }

  /** Where the owner is inside tryPushBottom or tryPopBottom; `b` is its local
      copy of bottom (already decremented in a pop). */
  datatype OwnerPc =
    | Idle
    | PushLoadTop(b: nat)
    | PushWrite(b: nat)
    | PushPublish(b: nat)
    | PushCount
    | PopStoreBottom(b: nat)
    | PopLoadTop(b: nat)
    | PopCas(b: nat)
    | PopRestore(b: nat)                  // lost the race, or the deque was empty
    | PopRestoreWon(b: nat, id: Id)
    | PopCountWon(b: nat, id: Id)
    | PopReadWon(b: nat, id: Id)
    | PopRead(b: nat, id: Id)
    | PopCount

  /** Where a thief is inside tryStealTop; `t` is its local copy of top.  The id
      records which task its successful compare-and-swap claimed. */
  datatype ThiefPc =
    | Ready
    | LoadBottom(t: nat)
    | Cas(t: nat)
    | Count(t: nat, id: Id)
    | Read(t: nat, id: Id)

  /** A thief that owns index t but has not read the slot yet. */
  predicate Pending(p: ThiefPc) { p.Count? || p.Read? }

  /** The shared words, the threads, and the history variables: `at[i]` is the
      task at index i, `claims` the successful pops and steals in order,
      `handed` the claims whose slot has been read, `high` one more than the
      highest index ever written, `overrun` whether some write replaced a slot
      that a thief had claimed and not read, `mismatch` whether some read
      yielded anything but the claimed task, `again` whether some claim was read
      twice. */
  datatype State = State(
    cap: nat,
    top: nat,
    bottom: nat,
    size: int,
    buffer: seq<Option<Id>>,
    owner: OwnerPc,
    thieves: seq<ThiefPc>,
    pushed: nat,
    at: seq<Id>,
    claims: seq<Id>,
    handed: set<Id>,
    high: nat,
    overrun: bool,
    mismatch: bool,
    again: bool)

  datatype Event = BeginPush | BeginPop | OwnerStep | ThiefStep(i: nat)

  function Init(cap: nat, nThieves: nat): State
  {
    State(cap, 0, 0, 0, seq(cap, _ => None), Idle, seq(nThieves, _ => Ready),
          0, [], [], {}, 0, false, false, false)
  }

  predicate Enabled(s: State, e: Event) {
    match e
    case BeginPush => s.owner.Idle?
    case BeginPop => s.owner.Idle?
    case OwnerStep => !s.owner.Idle?
    case ThiefStep(i) => i < |s.thieves|
  }

  /** The slot of index i, `i & (capacity_ - 1)`; Capacity.SlotIsMask ties the two. */
  function Slot(i: nat, cap: nat): (r: nat)
    requires cap > 0
    ensures r < cap
  {
    if i < cap then i else Slot(i - cap, cap)
  }

  /** Writing index b replaces a slot that some thief owns and has not read. */
  predicate Overruns(s: State, b: nat) {
    exists i :: 0 <= i < |s.thieves| && Pending(s.thieves[i]) && s.thieves[i].t + s.cap <= b
  }

  /** Moving the task out of the slot of index i on behalf of claim id. */
  function TakeSlot(s: State, i: nat, id: Id): State
    requires s.cap > 0 && |s.buffer| == s.cap
  {
    s.(buffer := s.buffer[Slot(i, s.cap) := None],
       handed := s.handed + {id},
       mismatch := s.mismatch || s.buffer[Slot(i, s.cap)] != Some(id),
       again := s.again || id in s.handed)
  }

  predicate InPush(p: OwnerPc) { p.PushLoadTop? || p.PushWrite? || p.PushPublish? || p.PushCount? }

  /** The next step of tryPushBottom, for a non-empty task. */
  function PushNext(s: State): State
    requires InPush(s.owner) && s.cap > 0 && |s.buffer| == s.cap
  {
    match s.owner
    case PushLoadTop(b) =>
      if SubU(b, s.top) >= s.cap - 1 then s.(owner := Idle) else s.(owner := PushWrite(b))
    case PushWrite(b) =>
      s.(buffer := s.buffer[Slot(b, s.cap) := Some(s.pushed)],
         high := if b + 1 > s.high then b + 1 else s.high,
         overrun := s.overrun || Overruns(s, b),
         owner := PushPublish(b))
    case PushPublish(b) =>
      s.(bottom := b + 1, owner := PushCount, at := s.at + [s.pushed], pushed := s.pushed + 1)
    case PushCount => s.(size := Wrap(s.size + 1), owner := Idle)
  }

  /** tryPopBottom reads top: empty, a race for the last task, or its own task. */
  function LoadTopNext(s: State): State
    requires s.owner.PopLoadTop?
  {
    var b := s.owner.b;
    if s.top > b then s.(owner := PopRestore(b))
    else if s.top == b then s.(owner := PopCas(b))
    else if b < |s.at| then
      s.(owner := PopRead(b, s.at[b]), at := s.at[..b], claims := s.claims + [s.at[b]])
    else s
  }

  /** The compare-and-swap of tryPopBottom on the last task. */
  function PopCasNext(s: State): State
    requires s.owner.PopCas?
  {
    var b := s.owner.b;
    if s.top == b && b < |s.at| then
      s.(top := b + 1, owner := PopRestoreWon(b, s.at[b]), claims := s.claims + [s.at[b]])
    else s.(owner := PopRestore(b))
  }

  /** The two stores to bottom of a pop that owns nothing. */
  function PopStoreNext(s: State): State
    requires s.owner.PopStoreBottom? || s.owner.PopRestore?
  {
    match s.owner
    case PopStoreBottom(b) => s.(bottom := b, owner := PopLoadTop(b))
    case PopRestore(b) => s.(bottom := b + 1, owner := Idle)
  }

  predicate PopWon(p: OwnerPc) {
    p.PopRestoreWon? || p.PopCountWon? || p.PopReadWon? || p.PopRead? || p.PopCount?
  }

  /** The next step of tryPopBottom once it owns its task. */
  function PopWonNext(s: State): State
    requires PopWon(s.owner) && s.cap > 0 && |s.buffer| == s.cap
  {
    match s.owner
    case PopRestoreWon(b, id) => s.(bottom := b + 1, owner := PopCountWon(b, id))
    case PopCountWon(b, id) => s.(size := Wrap(s.size - 1), owner := PopReadWon(b, id))
    case PopReadWon(b, id) => TakeSlot(s, b, id).(owner := Idle)
    case PopRead(b, id) => TakeSlot(s, b, id).(owner := PopCount)
    case PopCount => s.(size := Wrap(s.size - 1), owner := Idle)
  }

  function OwnerNext(s: State): State
    requires !s.owner.Idle? && s.cap > 0 && |s.buffer| == s.cap
  {
    if InPush(s.owner) then PushNext(s)
    else if PopWon(s.owner) then PopWonNext(s)
    else if s.owner.PopLoadTop? then LoadTopNext(s)
    else if s.owner.PopCas? then PopCasNext(s)
    else PopStoreNext(s)
  }

  function ThiefNext(s: State, i: nat): State
    requires i < |s.thieves|
    requires s.cap > 0 && |s.buffer| == s.cap
  {
    match s.thieves[i]
    case Ready => s.(thieves := s.thieves[i := LoadBottom(s.top)])
    case LoadBottom(t) =>
      s.(thieves := s.thieves[i := if t < s.bottom then Cas(t) else Ready])
    case Cas(t) =>
      if s.top == t && t < |s.at| then
        s.(top := t + 1, thieves := s.thieves[i := Count(t, s.at[t])], claims := s.claims + [s.at[t]])
      else s.(thieves := s.thieves[i := Ready])
    case Count(t, id) => s.(size := Wrap(s.size - 1), thieves := s.thieves[i := Read(t, id)])
    case Read(t, id) => TakeSlot(s, t, id).(thieves := s.thieves[i := Ready])
  }

  function Apply(s: State, e: Event): (r: State)
    requires Enabled(s, e)
    requires s.cap > 0 && |s.buffer| == s.cap
    ensures r.cap == s.cap && |r.buffer| == s.cap
  {
    match e
    case BeginPush => s.(owner := PushLoadTop(s.bottom))
    case BeginPop => if s.bottom == 0 then s else s.(owner := PopStoreBottom(s.bottom - 1))
    case OwnerStep => OwnerNext(s)
    case ThiefStep(i) => ThiefNext(s, i)
  }

  /** A run: the state after the events, or None when some event was not enabled. */
  function Exec(s: State, evs: seq<Event>): Option<State>
    requires s.cap > 0 && |s.buffer| == s.cap
    decreases |evs|
  {
    if evs == [] then Some(s)
    else if Enabled(s, evs[0]) then Exec(Apply(s, evs[0]), evs[1..])
    else None
  }

  // ---------------------------------------------------------------------
  // The invariant
  // ---------------------------------------------------------------------

  /** One past the last unclaimed index: `bottom`, except in the part of a pop
      where `bottom` has been lowered and the race is still open. */
  function Live(s: State): nat {
    match s.owner
    case PopLoadTop(b) => b + 1
    case PopCas(b) => b + 1
    case PopRestore(b) => b + 1
    case PopRestoreWon(b, _) => b + 1
    case _ => s.bottom
  }

  /** The abstract deque: the unclaimed tasks, oldest first. */
  function Abs(s: State): seq<Id>
    requires s.top <= |s.at|
  {
    s.at[s.top..]
  }

  predicate OwnerOk(s: State) {
    match s.owner
    case PushLoadTop(b) => b == s.bottom
    case PushWrite(b) => b == s.bottom && b < s.top + s.cap - 1
    case PushPublish(b) => b == s.bottom && b < s.top + s.cap - 1 && b < s.high
    case PopStoreBottom(b) => b + 1 == s.bottom
    case PopLoadTop(b) => b == s.bottom
    case PopCas(b) => b == s.bottom && b <= s.top
    case PopRestore(b) => b == s.bottom && s.top == b + 1
    case PopRestoreWon(b, id) => b == s.bottom && s.top == b + 1 <= |s.at| && s.at[b] == id
    case PopCountWon(b, id) => s.bottom == b + 1 == s.top <= |s.at| && s.at[b] == id
    case PopReadWon(b, id) => s.bottom == b + 1 == s.top <= |s.at| && s.at[b] == id
    case PopRead(b, id) => b == s.bottom && b < s.high && id < s.pushed && id !in s.at
    case _ => true
  }

  ghost predicate Shape(s: State) {
    && 2 <= s.cap == |s.buffer|
    && |s.at| == Live(s)
    && s.top <= |s.at| <= s.high
    && s.high <= s.top + s.cap - 1
    && s.bottom <= |s.at|
    && OwnerOk(s)
  }

  predicate ThiefOk(s: State, p: ThiefPc) {
    match p
    case Ready => true
    case LoadBottom(t) => t <= s.top
    case Cas(t) => t < s.top || (t == s.top && t < |s.at|)
    case Count(t, id) => t < s.top <= |s.at| && s.at[t] == id
    case Read(t, id) => t < s.top <= |s.at| && s.at[t] == id
  }

  ghost predicate Thieves(s: State) {
    && (forall i :: 0 <= i < |s.thieves| ==> ThiefOk(s, s.thieves[i]))
    && (forall i, j :: 0 <= i < j < |s.thieves| && Pending(s.thieves[i]) && Pending(s.thieves[j]) ==>
          s.thieves[i].t != s.thieves[j].t)
    && (s.owner.PopCountWon? || s.owner.PopReadWon? || s.owner.PopRestoreWon? ==>
          forall i :: 0 <= i < |s.thieves| && Pending(s.thieves[i]) ==> s.thieves[i].t < s.owner.b)
  }

  ghost predicate Ordered(s: State) {
    && (forall i, j :: 0 <= i < j < |s.at| ==> s.at[i] < s.at[j])
    && (forall i :: 0 <= i < |s.at| ==> s.at[i] < s.pushed)
  }

  function Iota(n: nat): seq<Id> { seq(n, i => i) }

  ghost predicate Conserved(s: State)
    requires s.top <= |s.at|
  {
    multiset(s.claims) + multiset(Abs(s)) == multiset(Iota(s.pushed))
  }

  /** The slots hold what the indices say, as long as no write has overrun a thief. */
  ghost predicate Slots(s: State)
    requires 0 < s.cap == |s.buffer|
  {
    && (forall i :: s.top <= i < |s.at| ==> s.buffer[Slot(i, s.cap)] == Some(s.at[i]))
    && (forall i :: 0 <= i < |s.thieves| && Pending(s.thieves[i]) ==>
          && s.buffer[Slot(s.thieves[i].t, s.cap)] == Some(s.thieves[i].id)
          && s.high <= s.thieves[i].t + s.cap)
    && (s.owner.PushPublish? ==> s.buffer[Slot(s.owner.b, s.cap)] == Some(s.pushed))
    && (s.owner.PopRestoreWon? || s.owner.PopCountWon? || s.owner.PopReadWon? || s.owner.PopRead? ==>
          s.buffer[Slot(s.owner.b, s.cap)] == Some(s.owner.id))
    && !s.mismatch
  }

  /** Once index t + cap has been written, the thief that claimed t can no longer
      get its task; and slots only ever hold ids handed out so far. */
  ghost predicate Corrupt(s: State)
    requires 0 < s.cap == |s.buffer|
  {
    && (forall i :: 0 <= i < |s.thieves| && Pending(s.thieves[i]) && s.high > s.thieves[i].t + s.cap ==>
          s.buffer[Slot(s.thieves[i].t, s.cap)] != Some(s.thieves[i].id))
  }

  /** A claim whose thread has not read the slot yet. */
  predicate OwnerHolds(p: OwnerPc, id: Id) {
    (p.PopRestoreWon? || p.PopCountWon? || p.PopReadWon? || p.PopRead?) && p.id == id
  }

  predicate ThiefHolds(p: ThiefPc, id: Id) { Pending(p) && p.id == id }

  ghost predicate Holds(s: State, id: Id) {
    OwnerHolds(s.owner, id) || exists i :: 0 <= i < |s.thieves| && ThiefHolds(s.thieves[i], id)
  }

  /** Every claim is either still held by a thread or has been read, never both. */
  ghost predicate Handed(s: State) {
    && (forall id :: id in s.handed ==> id in s.claims)
    && (forall id :: Holds(s, id) ==> id in s.claims && id !in s.handed)
    && (forall id :: id in s.claims ==> id in s.handed || Holds(s, id))
    && !s.again
  }

  /** Decrements of size_ that have been earned but not performed. */
  function OwedOf(p: ThiefPc): nat { if p.Count? then 1 else 0 }

  function OwedByThieves(ts: seq<ThiefPc>): nat {
    if ts == [] then 0 else OwedOf(ts[0]) + OwedByThieves(ts[1..])
  }

  function OwedByOwner(p: OwnerPc): int {
    match p
    case PushCount => -1
    case PopRestoreWon(_, _) => 1
    case PopCountWon(_, _) => 1
    case PopRead(_, _) => 1
    case PopCount => 1
    case _ => 0
  }

  /** What size_ should read: the unclaimed tasks and the updates still owed. */
  function Expected(s: State): int {
    |s.at| - s.top + OwedByOwner(s.owner) + OwedByThieves(s.thieves)
  }

  ghost predicate Sized(s: State) {
    s.size == Wrap(Expected(s))
  }

  ghost predicate Inv(s: State) {
    && Shape(s) && Thieves(s) && Ordered(s) && Conserved(s)
    && (!s.overrun ==> Slots(s))
    && Corrupt(s) && Handed(s) && Sized(s)
  }

  // ---------------------------------------------------------------------
  // Each step keeps the invariant and is one step of the abstract deque
  // ---------------------------------------------------------------------

  /** What a step does to the abstract deque. */
  datatype Label = Stutter | Pushed(id: Id) | PushRefused | Popped(id: Id) | PopMissed | Stolen(id: Id)

  function LabelOf(s: State, e: Event): Label
    requires Enabled(s, e)
  {
    match e
    case BeginPush => Stutter
    case BeginPop => if s.bottom == 0 then PopMissed else Stutter
    case ThiefStep(i) =>
      if s.thieves[i].Cas? && s.top == s.thieves[i].t && s.top < |s.at| then Stolen(s.at[s.top]) else Stutter
    case OwnerStep =>
      match s.owner
      case PushLoadTop(b) => if SubU(b, s.top) >= s.cap - 1 then PushRefused else Stutter
      case PushPublish(_) => Pushed(s.pushed)
      case PopLoadTop(b) =>
        if s.top > b then PopMissed else if s.top < b < |s.at| then Popped(s.at[b]) else Stutter
      case PopCas(b) => if s.top == b && b < |s.at| then Popped(s.at[b]) else PopMissed
      case _ => Stutter
  }

  /** The sequential bounded deque that the step machine implements. */
  ghost predicate AbsNext(q: seq<Id>, l: Label, q': seq<Id>, capacity: nat) {
    match l
    case Stutter => q' == q
    case Pushed(id) => |q| < capacity && q' == q + [id]
    case PushRefused => |q| == capacity && q' == q
    case Popped(id) => q == q' + [id]
    case PopMissed => q == [] && q' == []
    case Stolen(id) => q == [id] + q'
  }

  /** Indices less than a capacity apart never share a slot. */
  lemma {:induction false} SlotsDiffer(i: nat, j: nat, cap: nat)
    requires i < j < i + cap
    ensures Slot(i, cap) != Slot(j, cap)
    decreases i
  {
    if i >= cap { SlotsDiffer(i - cap, j - cap, cap); }
  }

  predicate InStore(p: OwnerPc) { p.PopStoreBottom? || p.PopRestore? }

  // ---- shape of the counters

  lemma PushShape(s: State)
    requires Shape(s) && InPush(s.owner)
    ensures Shape(PushNext(s))
  {}

  lemma LoadTopShape(s: State)
    requires Shape(s) && Ordered(s) && s.owner.PopLoadTop?
    ensures Shape(LoadTopNext(s))
  {}

  lemma PopCasShape(s: State)
    requires Shape(s) && s.owner.PopCas?
    ensures Shape(PopCasNext(s))
  {}

  lemma StoreShape(s: State)
    requires Shape(s) && InStore(s.owner)
    ensures Shape(PopStoreNext(s))
  {}

  lemma WonShape(s: State)
    requires Shape(s) && PopWon(s.owner)
    ensures Shape(PopWonNext(s))
  {}

  lemma ShapeFrame(s: State, s': State)
    requires Shape(s)
    requires s'.cap == s.cap && |s'.buffer| == |s.buffer| && s'.at == s.at && s'.top == s.top
    requires s'.bottom == s.bottom && s'.high == s.high && s'.owner == s.owner && s'.pushed == s.pushed
    ensures Shape(s')
  {}

  lemma CasShape(s: State, i: nat)
    requires Shape(s) && i < |s.thieves| && s.thieves[i].Cas? && s.top == s.thieves[i].t < |s.at|
    ensures Shape(ThiefNext(s, i))
  {
    var s' := ThiefNext(s, i);
    assert s'.owner == s.owner && s'.top == s.top + 1;
  }

  /** A thief that claims nothing leaves all but its own place, the buffer and the size. */
  lemma ThiefFrame(s: State, i: nat)
    requires 0 < s.cap == |s.buffer| && i < |s.thieves|
    requires !(s.thieves[i].Cas? && s.top == s.thieves[i].t < |s.at|)
    ensures var r := ThiefNext(s, i);
      && r.cap == s.cap && |r.buffer| == |s.buffer| && r.at == s.at && r.top == s.top && r.bottom == s.bottom
      && r.high == s.high && r.owner == s.owner && r.pushed == s.pushed
      && |r.thieves| == |s.thieves| && r.thieves == s.thieves[i := r.thieves[i]]
      && (!s.thieves[i].Count? ==> r.size == s.size && !r.thieves[i].Count?)
  {}

  lemma ThiefShape(s: State, i: nat)
    requires Shape(s) && i < |s.thieves|
    ensures Shape(ThiefNext(s, i))
  {
    var p := s.thieves[i];
    if p.Cas? && s.top == p.t < |s.at| { CasShape(s, i); }
    else {
      ThiefFrame(s, i);
      ShapeFrame(s, ThiefNext(s, i));
    }
  }

  predicate Light(s: State) { 0 < s.cap == |s.buffer| && s.top <= |s.at| }

  // ---- the thieves' local facts

  lemma OwnerKeepsThieves(s: State, s': State)
    requires s.top <= s'.top <= |s'.at| && s'.thieves == s.thieves
    requires forall i :: 0 <= i < |s.thieves| ==> ThiefOk(s, s.thieves[i])
    requires s'.at == s.at || s'.at == s.at + [s.pushed] || (s.top < |s'.at| < |s.at| && s'.at == s.at[..|s'.at|])
    ensures forall i :: 0 <= i < |s.thieves| ==> ThiefOk(s', s'.thieves[i])
  {
    forall i | 0 <= i < |s.thieves| ensures ThiefOk(s', s'.thieves[i]) {
      assert ThiefOk(s, s.thieves[i]);
    }
  }

  lemma PushThieves(s: State)
    requires Shape(s) && Thieves(s) && InPush(s.owner)
    ensures Thieves(PushNext(s))
  {
    OwnerKeepsThieves(s, PushNext(s));
  }

  lemma LoadTopThieves(s: State)
    requires Shape(s) && Thieves(s) && s.owner.PopLoadTop?
    ensures Thieves(LoadTopNext(s))
  {
    OwnerKeepsThieves(s, LoadTopNext(s));
  }

  lemma PopCasThieves(s: State)
    requires Shape(s) && Thieves(s) && s.owner.PopCas?
    ensures Thieves(PopCasNext(s))
  {
    OwnerKeepsThieves(s, PopCasNext(s));
    forall i | 0 <= i < |s.thieves| && Pending(s.thieves[i]) && s.top == s.owner.b
      ensures s.thieves[i].t < s.owner.b
    {
      assert ThiefOk(s, s.thieves[i]);
    }
  }

  lemma StoreThieves(s: State)
    requires Shape(s) && Thieves(s) && InStore(s.owner)
    ensures Thieves(PopStoreNext(s))
  {
    OwnerKeepsThieves(s, PopStoreNext(s));
  }

  lemma WonThieves(s: State)
    requires Shape(s) && Thieves(s) && PopWon(s.owner)
    ensures Thieves(PopWonNext(s))
  {
    OwnerKeepsThieves(s, PopWonNext(s));
  }

  /** A claim takes the index top, below which all earlier claims lie. */
  lemma ThiefStepOk(s: State, i: nat)
    requires Light(s) && i < |s.thieves|
    requires forall j :: 0 <= j < |s.thieves| ==> ThiefOk(s, s.thieves[j])
    requires s.bottom <= |s.at|
    ensures forall j :: 0 <= j < |s.thieves| ==> ThiefOk(ThiefNext(s, i), ThiefNext(s, i).thieves[j])
  {
    var s' := ThiefNext(s, i);
    assert ThiefOk(s, s.thieves[i]);
    forall j | 0 <= j < |s.thieves| ensures ThiefOk(s', s'.thieves[j]) {
      assert ThiefOk(s, s.thieves[j]);
      if j != i { assert s'.thieves[j] == s.thieves[j]; }
    }
  }

  /** What a thief holds after its step no other thread holds. */
  lemma ClaimIsFresh(s: State, i: nat)
    requires Shape(s) && Thieves(s) && i < |s.thieves|
    requires Pending(ThiefNext(s, i).thieves[i])
    ensures forall j :: 0 <= j < |s.thieves| && j != i && Pending(s.thieves[j]) ==>
              s.thieves[j].t != ThiefNext(s, i).thieves[i].t
    ensures s.owner.PopCountWon? || s.owner.PopReadWon? || s.owner.PopRestoreWon? ==>
              ThiefNext(s, i).thieves[i].t < s.owner.b
  {
    var p := s.thieves[i];
    assert ThiefOk(s, p);
    forall j | 0 <= j < |s.thieves| && j != i && Pending(s.thieves[j])
      ensures s.thieves[j].t != ThiefNext(s, i).thieves[i].t
    {
      assert ThiefOk(s, s.thieves[j]);
    }
  }

  lemma ThiefThieves(s: State, i: nat)
    requires Shape(s) && Thieves(s) && i < |s.thieves|
    ensures Thieves(ThiefNext(s, i))
  {
    ThiefStepOk(s, i);
    var s' := ThiefNext(s, i);
    var p' := s'.thieves[i];
    if Pending(p') { ClaimIsFresh(s, i); }
    ThievesUpdate(s, s', i, p');
  }

  lemma ThievesUpdate(s: State, s': State, i: nat, p': ThiefPc)
    requires Thieves(s) && i < |s.thieves|
    requires s'.thieves == s.thieves[i := p'] && s'.owner == s.owner
    requires forall j :: 0 <= j < |s'.thieves| ==> ThiefOk(s', s'.thieves[j])
    requires Pending(p') ==> forall j :: 0 <= j < |s.thieves| && j != i && Pending(s.thieves[j]) ==> s.thieves[j].t != p'.t
    requires Pending(p') && (s.owner.PopCountWon? || s.owner.PopReadWon? || s.owner.PopRestoreWon?) ==> p'.t < s.owner.b
    ensures Thieves(s')
  {}

  // ---- order and conservation: each step is one step of the sequential deque

  lemma PushOrdered(s: State)
    requires Shape(s) && Ordered(s) && InPush(s.owner)
    ensures Ordered(PushNext(s))
  {}

  lemma LoadTopOrdered(s: State)
    requires Ordered(s) && s.owner.PopLoadTop?
    ensures Ordered(LoadTopNext(s))
  {}

  lemma IotaSnoc(n: nat)
    ensures multiset(Iota(n + 1)) == multiset(Iota(n)) + multiset{n}
  {
    assert Iota(n + 1) == Iota(n) + [n];
  }

  lemma PublishRefines(s: State)
    requires Shape(s) && Conserved(s) && s.owner.PushPublish?
    ensures Light(PushNext(s)) && Conserved(PushNext(s))
    ensures Abs(PushNext(s)) == Abs(s) + [s.pushed]
  {
    IotaSnoc(s.pushed);
    assert (s.at + [s.pushed])[s.top..] == Abs(s) + [s.pushed];
    assert multiset(Abs(s) + [s.pushed]) == multiset(Abs(s)) + multiset{s.pushed};
  }

  lemma PushRefines(s: State)
    requires Shape(s) && Conserved(s) && InPush(s.owner)
    ensures Light(PushNext(s)) && Conserved(PushNext(s))
    ensures AbsNext(Abs(s), LabelOf(s, OwnerStep), Abs(PushNext(s)), s.cap - 1)
  {
    if s.owner.PushPublish? {
      PublishRefines(s);
      assert |Abs(s)| == s.owner.b - s.top;
    } else if s.owner.PushLoadTop? {
      assert |Abs(s)| == SubU(s.owner.b, s.top);
    }
  }

  lemma ClaimLast(s: State, s': State)
    requires s.top <= |s.at| && s'.top <= |s'.at| && |s.at| > 0
    requires Conserved(s) && s'.pushed == s.pushed
    requires Abs(s) == Abs(s') + [s.at[|s.at| - 1]]
    requires s'.claims == s.claims + [s.at[|s.at| - 1]]
    ensures Conserved(s')
  {
    assert multiset(s'.claims) + multiset(Abs(s')) == multiset(s.claims) + multiset(Abs(s));
  }

  lemma ClaimFirst(s: State, s': State)
    requires s.top < |s.at| && s'.top <= |s'.at|
    requires Conserved(s) && s'.pushed == s.pushed
    requires Abs(s) == [s.at[s.top]] + Abs(s')
    requires s'.claims == s.claims + [s.at[s.top]]
    ensures Conserved(s')
  {
    assert multiset(s'.claims) + multiset(Abs(s')) == multiset(s.claims) + multiset(Abs(s));
  }

  lemma LoadTopRefines(s: State)
    requires Shape(s) && Conserved(s) && s.owner.PopLoadTop?
    ensures Light(LoadTopNext(s)) && Conserved(LoadTopNext(s))
    ensures AbsNext(Abs(s), LabelOf(s, OwnerStep), Abs(LoadTopNext(s)), s.cap - 1)
  {
    var s' := LoadTopNext(s);
    var b := s.owner.b;
    assert |s.at| == b + 1;
    if s.top < b {
      assert s.at == s'.at + [s.at[b]];
      assert Abs(s) == Abs(s') + [s.at[b]];
      ClaimLast(s, s');
    }
  }

  lemma PopCasRefines(s: State)
    requires Shape(s) && Conserved(s) && s.owner.PopCas?
    ensures Light(PopCasNext(s)) && Conserved(PopCasNext(s))
    ensures AbsNext(Abs(s), LabelOf(s, OwnerStep), Abs(PopCasNext(s)), s.cap - 1)
  {
    var s' := PopCasNext(s);
    var b := s.owner.b;
    assert |s.at| == b + 1;
    if s.top == b {
      assert Abs(s) == [s.at[b]] && Abs(s') == [];
      ClaimLast(s, s');
    }
  }

  /** The other owner steps leave the abstract deque alone. */
  lemma StoreQuiet(s: State)
    requires Light(s) && InStore(s.owner)
    ensures var r := PopStoreNext(s);
      && r.at == s.at && r.top == s.top && r.claims == s.claims && r.pushed == s.pushed
      && r.thieves == s.thieves && r.high == s.high && r.overrun == s.overrun
    ensures LabelOf(s, OwnerStep) == Stutter
  {}

  lemma WonQuiet(s: State)
    requires Light(s) && PopWon(s.owner)
    ensures var r := PopWonNext(s);
      && r.at == s.at && r.top == s.top && r.claims == s.claims && r.pushed == s.pushed
      && r.thieves == s.thieves && r.high == s.high && r.overrun == s.overrun
    ensures LabelOf(s, OwnerStep) == Stutter
  {}

  lemma ThiefRefines(s: State, i: nat)
    requires Light(s) && Conserved(s) && i < |s.thieves|
    ensures Light(ThiefNext(s, i)) && Conserved(ThiefNext(s, i))
    ensures AbsNext(Abs(s), LabelOf(s, ThiefStep(i)), Abs(ThiefNext(s, i)), s.cap - 1)
  {
    var s' := ThiefNext(s, i);
    if s.thieves[i].Cas? && s.top == s.thieves[i].t && s.top < |s.at| {
      assert Abs(s) == [s.at[s.top]] + Abs(s');
      ClaimFirst(s, s');
    } else {
      assert s'.at == s.at && s'.top == s.top && s'.claims == s.claims && s'.pushed == s.pushed;
    }
  }

  // ---- slot contents

  lemma PushSlots(s: State)
    requires Shape(s) && Thieves(s) && Slots(s) && InPush(s.owner)
    requires !PushNext(s).overrun
    ensures Slots(PushNext(s))
  {
    if s.owner.PushWrite? {
      var b := s.owner.b;
      forall i | s.top <= i < |s.at| ensures Slot(i, s.cap) != Slot(b, s.cap) {
        SlotsDiffer(i, b, s.cap);
      }
      forall i | 0 <= i < |s.thieves| && Pending(s.thieves[i])
        ensures Slot(s.thieves[i].t, s.cap) != Slot(b, s.cap)
      {
        assert ThiefOk(s, s.thieves[i]);
        SlotsDiffer(s.thieves[i].t, b, s.cap);
      }
    }
  }

  lemma LoadTopSlots(s: State)
    requires Shape(s) && Slots(s) && s.owner.PopLoadTop?
    ensures Slots(LoadTopNext(s))
  {}

  lemma PopCasSlots(s: State)
    requires Shape(s) && Slots(s) && s.owner.PopCas?
    ensures Slots(PopCasNext(s))
  {}

  lemma StoreSlots(s: State)
    requires Shape(s) && Slots(s) && InStore(s.owner)
    ensures Slots(PopStoreNext(s))
  {}

  lemma WonSlots(s: State)
    requires Shape(s) && Thieves(s) && Slots(s) && PopWon(s.owner)
    ensures Slots(PopWonNext(s))
  {
    if s.owner.PopRead? || s.owner.PopReadWon? {
      var b := s.owner.b;
      forall i | s.top <= i < |s.at| ensures Slot(i, s.cap) != Slot(b, s.cap) {
        SlotsDiffer(i, b, s.cap);
      }
      forall i | 0 <= i < |s.thieves| && Pending(s.thieves[i])
        ensures Slot(s.thieves[i].t, s.cap) != Slot(b, s.cap)
      {
        assert ThiefOk(s, s.thieves[i]);
        SlotsDiffer(s.thieves[i].t, b, s.cap);
      }
    }
  }

  /** No other live slot is the one a thief is about to empty. */
  lemma ReadTouchesOnlyItsSlot(s: State, i: nat)
    requires Shape(s) && Thieves(s) && Slots(s) && i < |s.thieves| && s.thieves[i].Read?
    ensures forall j :: s.top <= j < |s.at| ==> Slot(j, s.cap) != Slot(s.thieves[i].t, s.cap)
    ensures forall j :: 0 <= j < |s.thieves| && j != i && Pending(s.thieves[j]) ==>
              Slot(s.thieves[j].t, s.cap) != Slot(s.thieves[i].t, s.cap)
    ensures s.owner.PushPublish? || (PopWon(s.owner) && !s.owner.PopCount?) ==>
              Slot(s.owner.b, s.cap) != Slot(s.thieves[i].t, s.cap)
  {
    var t := s.thieves[i].t;
    assert ThiefOk(s, s.thieves[i]);
    forall j | s.top <= j < |s.at| ensures Slot(j, s.cap) != Slot(t, s.cap) {
      SlotsDiffer(t, j, s.cap);
    }
    if s.owner.PushPublish? || (PopWon(s.owner) && !s.owner.PopCount?) { SlotsDiffer(t, s.owner.b, s.cap); }
    forall j | 0 <= j < |s.thieves| && j != i && Pending(s.thieves[j])
      ensures Slot(s.thieves[j].t, s.cap) != Slot(t, s.cap)
    {
      var u := s.thieves[j].t;
      assert ThiefOk(s, s.thieves[j]);
      if u < t { SlotsDiffer(u, t, s.cap); } else { SlotsDiffer(t, u, s.cap); }
    }
  }

  lemma ReadSlots(s: State, i: nat)
    requires Shape(s) && Thieves(s) && Slots(s) && i < |s.thieves| && s.thieves[i].Read?
    ensures Slots(ThiefNext(s, i))
  {
    ReadTouchesOnlyItsSlot(s, i);
  }

  lemma CasSlots(s: State, i: nat)
    requires Shape(s) && Slots(s) && i < |s.thieves| && s.thieves[i].Cas?
    ensures Slots(ThiefNext(s, i))
  {
    var t := s.thieves[i].t;
    var s' := ThiefNext(s, i);
    if s.top == t < |s.at| {
      assert s'.thieves[i] == Count(t, s.at[t]);
      assert s.buffer[Slot(t, s.cap)] == Some(s.at[t]);
    }
    assert forall j :: 0 <= j < |s.thieves| && j != i ==> s'.thieves[j] == s.thieves[j];
  }

  lemma QuietThiefSlots(s: State, i: nat)
    requires Shape(s) && Slots(s) && i < |s.thieves| && !s.thieves[i].Cas? && !s.thieves[i].Read?
    ensures Slots(ThiefNext(s, i))
  {}

  lemma ThiefSlots(s: State, i: nat)
    requires Shape(s) && Thieves(s) && Slots(s) && i < |s.thieves|
    ensures Slots(ThiefNext(s, i))
  {
    if s.thieves[i].Read? { ReadSlots(s, i); }
    else if s.thieves[i].Cas? { CasSlots(s, i); }
    else { QuietThiefSlots(s, i); }
  }

  /** A lost slot stays lost: slots only ever receive younger tasks. */
  lemma PushCorrupt(s: State)
    requires Shape(s) && Thieves(s) && Ordered(s) && Corrupt(s) && InPush(s.owner)
    ensures Corrupt(PushNext(s))
  {
    if s.owner.PushWrite? {
      var s' := PushNext(s);
      var b := s.owner.b;
      forall i | 0 <= i < |s.thieves| && Pending(s.thieves[i]) && s'.high > s.thieves[i].t + s.cap
        ensures s'.buffer[Slot(s.thieves[i].t, s.cap)] != Some(s.thieves[i].id)
      {
        assert ThiefOk(s, s.thieves[i]);
        if s.high <= s.thieves[i].t + s.cap {
          assert b == s.thieves[i].t + s.cap;
          assert Slot(b, s.cap) == Slot(s.thieves[i].t, s.cap);
        }
      }
    }
  }

  lemma QuietCorrupt(s: State, s': State)
    requires Light(s) && Corrupt(s) && |s'.buffer| == |s.buffer|
    requires s'.thieves == s.thieves && s'.high == s.high && s'.cap == s.cap
    requires forall k :: 0 <= k < |s.buffer| ==> s'.buffer[k] == s.buffer[k] || s'.buffer[k] == None
    ensures Corrupt(s')
  {}

  lemma ReadCorrupt(s: State, i: nat)
    requires Light(s) && Corrupt(s) && i < |s.thieves| && s.thieves[i].Read?
    ensures Corrupt(ThiefNext(s, i))
  {}

  lemma KeepCorrupt(s: State, s': State, i: nat, p: ThiefPc)
    requires Light(s) && Corrupt(s) && i < |s.thieves| && |s'.buffer| == |s.buffer|
    requires s'.thieves == s.thieves[i := p] && s'.buffer == s.buffer && s'.high == s.high && s'.cap == s.cap
    requires Pending(p) ==> s.high <= p.t + s.cap || (Pending(s.thieves[i]) && p.t == s.thieves[i].t && p.id == s.thieves[i].id)
    ensures Corrupt(s')
  {}

  lemma ThiefCorrupt(s: State, i: nat)
    requires Light(s) && Corrupt(s) && i < |s.thieves| && s.high <= s.top + s.cap - 1
    ensures Corrupt(ThiefNext(s, i))
  {
    if s.thieves[i].Read? { ReadCorrupt(s, i); }
    else { KeepCorrupt(s, ThiefNext(s, i), i, ThiefNext(s, i).thieves[i]); }
  }

  // ---- hand-over

  lemma {:induction false} IotaAt(n: nat, x: Id)
    ensures multiset(Iota(n))[x] == if x < n then 1 else 0
  {
    if n > 0 {
      IotaAt(n - 1, x);
      IotaSnoc(n - 1);
    }
  }

  /** A published task is claimed at most once and never both claimed and live. */
  lemma ClaimedOnce(s: State, id: Id)
    requires s.top <= |s.at| && Conserved(s)
    ensures multiset(s.claims)[id] + multiset(Abs(s))[id] == if id < s.pushed then 1 else 0
  {
    IotaAt(s.pushed, id);
    assert (multiset(s.claims) + multiset(Abs(s)))[id] == multiset(Iota(s.pushed))[id];
  }

  lemma LiveIsUnclaimed(s: State, i: nat)
    requires s.top <= i < |s.at| && Conserved(s)
    ensures s.at[i] !in s.claims
  {
    ClaimedOnce(s, s.at[i]);
    assert s.at[i] == Abs(s)[i - s.top];
    assert s.at[i] in multiset(Abs(s));
    assert s.at[i] !in multiset(s.claims);
  }

  lemma LoadTopHanded(s: State)
    requires Shape(s) && Conserved(s) && Handed(s) && s.owner.PopLoadTop?
    ensures Handed(LoadTopNext(s))
  {
    var s' := LoadTopNext(s);
    if s'.owner.PopRead? { LiveIsUnclaimed(s, s.owner.b); }
    forall id ensures Holds(s', id) == (Holds(s, id) || OwnerHolds(s'.owner, id)) {}
  }

  lemma PopCasHanded(s: State)
    requires Shape(s) && Conserved(s) && Handed(s) && s.owner.PopCas?
    ensures Handed(PopCasNext(s))
  {
    var s' := PopCasNext(s);
    if s'.owner.PopRestoreWon? { LiveIsUnclaimed(s, s.owner.b); }
    forall id ensures Holds(s', id) == (Holds(s, id) || OwnerHolds(s'.owner, id)) {}
  }

  lemma WonHanded(s: State)
    requires Shape(s) && Thieves(s) && Ordered(s) && Handed(s) && PopWon(s.owner)
    ensures Handed(PopWonNext(s))
  {
    var s' := PopWonNext(s);
    if s.owner.PopRead? || s.owner.PopReadWon? {
      assert Holds(s, s.owner.id);
      forall i | 0 <= i < |s.thieves| && Pending(s.thieves[i]) ensures s.thieves[i].id != s.owner.id {
        assert ThiefOk(s, s.thieves[i]);
      }
      forall id ensures Holds(s', id) == (Holds(s, id) && id != s.owner.id) {}
    } else {
      forall id ensures Holds(s', id) == Holds(s, id) {}
    }
  }

  lemma QuietHanded(s: State, s': State)
    requires Handed(s)
    requires s'.claims == s.claims && s'.handed == s.handed && s'.again == s.again && s'.thieves == s.thieves
    requires forall id :: OwnerHolds(s.owner, id) == OwnerHolds(s'.owner, id)
    ensures Handed(s')
  {
    forall id ensures Holds(s', id) == Holds(s, id) {}
  }

  lemma PushHanded(s: State)
    requires Shape(s) && Handed(s) && InPush(s.owner)
    ensures Handed(PushNext(s))
  {
    assert forall id :: !OwnerHolds(s.owner, id) && !OwnerHolds(PushNext(s).owner, id);
    QuietHanded(s, PushNext(s));
  }

  lemma ReadHanded(s: State, i: nat)
    requires Shape(s) && Thieves(s) && Ordered(s) && Handed(s) && i < |s.thieves| && s.thieves[i].Read?
    ensures Handed(ThiefNext(s, i))
  {
    var s' := ThiefNext(s, i);
    var x := s.thieves[i].id;
    assert ThiefHolds(s.thieves[i], x) && ThiefOk(s, s.thieves[i]);
    forall j | 0 <= j < |s.thieves| && j != i && Pending(s.thieves[j]) ensures s.thieves[j].id != x {
      assert ThiefOk(s, s.thieves[j]);
    }
    forall id ensures Holds(s', id) == (Holds(s, id) && id != x) {
      forall j | 0 <= j < |s.thieves| && j != i ensures s'.thieves[j] == s.thieves[j] {}
      if Holds(s, id) && id != x && !OwnerHolds(s.owner, id) {
        var j :| 0 <= j < |s.thieves| && ThiefHolds(s.thieves[j], id);
        assert ThiefHolds(s'.thieves[j], id);
      }
    }
  }

  lemma CasHanded(s: State, i: nat)
    requires Shape(s) && Conserved(s) && Handed(s) && i < |s.thieves| && s.thieves[i].Cas?
    ensures Handed(ThiefNext(s, i))
  {
    var s' := ThiefNext(s, i);
    if Pending(s'.thieves[i]) { LiveIsUnclaimed(s, s.top); }
    forall id ensures Holds(s', id) == (Holds(s, id) || ThiefHolds(s'.thieves[i], id)) {
      if Holds(s, id) && !OwnerHolds(s.owner, id) {
        var j :| 0 <= j < |s.thieves| && ThiefHolds(s.thieves[j], id);
        assert ThiefHolds(s'.thieves[j], id);
      }
    }
  }

  lemma ThiefHanded(s: State, i: nat)
    requires Shape(s) && Thieves(s) && Ordered(s) && Conserved(s) && Handed(s) && i < |s.thieves|
    ensures Handed(ThiefNext(s, i))
  {
    if s.thieves[i].Read? { ReadHanded(s, i); }
    else if s.thieves[i].Cas? { CasHanded(s, i); }
    else {
      var s' := ThiefNext(s, i);
      forall id ensures Holds(s', id) == Holds(s, id) {
        forall j | 0 <= j < |s.thieves| ensures ThiefHolds(s'.thieves[j], id) == ThiefHolds(s.thieves[j], id) {}
      }
    }
  }

  // ---- size_

  lemma {:induction false} OwedUpdate(ts: seq<ThiefPc>, i: nat, p: ThiefPc)
    requires i < |ts|
    ensures OwedByThieves(ts[i := p]) + OwedOf(ts[i]) == OwedByThieves(ts) + OwedOf(p)
    decreases |ts|
  {
    if i == 0 {
      assert ts[i := p][1..] == ts[1..];
    } else {
      assert ts[i := p][1..] == ts[1..][i - 1 := p];
      OwedUpdate(ts[1..], i - 1, p);
    }
  }

  lemma WrapAdd(x: int, d: int)
    ensures Wrap(Wrap(x) + d) == Wrap(x + d)
  {}

  /** A step changes size_ exactly when it changes what size_ should read. */
  lemma PushSized(s: State)
    requires Shape(s) && Sized(s) && InPush(s.owner)
    ensures Sized(PushNext(s))
  {
    WrapAdd(Expected(s), 1);
  }

  lemma LoadTopSized(s: State)
    requires Shape(s) && Sized(s) && s.owner.PopLoadTop?
    ensures Sized(LoadTopNext(s))
  {}

  lemma PopCasSized(s: State)
    requires Shape(s) && Sized(s) && s.owner.PopCas?
    ensures Sized(PopCasNext(s))
  {}

  lemma WonSized(s: State)
    requires Shape(s) && Sized(s) && PopWon(s.owner)
    ensures Sized(PopWonNext(s))
  {
    WrapAdd(Expected(s), -1);
  }

  lemma CountSized(s: State, i: nat)
    requires Light(s) && Sized(s) && i < |s.thieves| && s.thieves[i].Count?
    ensures Sized(ThiefNext(s, i))
  {
    OwedUpdate(s.thieves, i, Read(s.thieves[i].t, s.thieves[i].id));
    WrapAdd(Expected(s), -1);
  }

  lemma ThiefExpected(s: State, i: nat)
    requires Light(s) && i < |s.thieves| && !s.thieves[i].Count?
    ensures ThiefNext(s, i).size == s.size && Expected(ThiefNext(s, i)) == Expected(s)
  {
    var p := s.thieves[i];
    if p.Cas? && s.top == p.t < |s.at| {
      OwedUpdate(s.thieves, i, Count(p.t, s.at[p.t]));
    } else {
      ThiefFrame(s, i);
      OwedUpdate(s.thieves, i, ThiefNext(s, i).thieves[i]);
    }
  }

  lemma ThiefSized(s: State, i: nat)
    requires Light(s) && Sized(s) && i < |s.thieves|
    ensures Sized(ThiefNext(s, i))
  {
    if s.thieves[i].Count? { CountSized(s, i); } else { ThiefExpected(s, i); }
  }

  // ---------------------------------------------------------------------
  // The invariant over all runs
  // ---------------------------------------------------------------------

  lemma PushInv(s: State)
    requires Inv(s) && InPush(s.owner)
    ensures Inv(PushNext(s))
    ensures AbsNext(Abs(s), LabelOf(s, OwnerStep), Abs(PushNext(s)), s.cap - 1)
    ensures s.top <= PushNext(s).top
  {
    var s' := PushNext(s);
    PushShape(s);
    PushThieves(s);
    PushOrdered(s);
    PushRefines(s);
    PushCorrupt(s);
    PushSized(s);
    if !s'.overrun { PushOverrun(s); PushSlots(s); }
    PushHanded(s);
  }

  lemma PushOverrun(s: State)
    requires Light(s) && InPush(s.owner) && !PushNext(s).overrun
    ensures !s.overrun
  {}

  lemma LoadTopInv(s: State)
    requires Inv(s) && s.owner.PopLoadTop?
    ensures Inv(LoadTopNext(s))
    ensures AbsNext(Abs(s), LabelOf(s, OwnerStep), Abs(LoadTopNext(s)), s.cap - 1)
    ensures s.top <= LoadTopNext(s).top
  {
    var s' := LoadTopNext(s);
    LoadTopShape(s);
    LoadTopThieves(s);
    LoadTopOrdered(s);
    LoadTopRefines(s);
    QuietCorrupt(s, s');
    LoadTopSized(s);
    if !s'.overrun { LoadTopSlots(s); }
    LoadTopHanded(s);
  }

  lemma PopCasInv(s: State)
    requires Inv(s) && s.owner.PopCas?
    ensures Inv(PopCasNext(s))
    ensures AbsNext(Abs(s), LabelOf(s, OwnerStep), Abs(PopCasNext(s)), s.cap - 1)
    ensures s.top <= PopCasNext(s).top
  {
    var s' := PopCasNext(s);
    PopCasShape(s);
    PopCasThieves(s);
    PopCasRefines(s);
    QuietCorrupt(s, s');
    PopCasSized(s);
    if !s'.overrun { PopCasSlots(s); }
    PopCasHanded(s);
  }

  lemma StoreInv(s: State)
    requires Inv(s) && InStore(s.owner)
    ensures Inv(PopStoreNext(s))
    ensures AbsNext(Abs(s), LabelOf(s, OwnerStep), Abs(PopStoreNext(s)), s.cap - 1)
    ensures s.top <= PopStoreNext(s).top
  {
    var s' := PopStoreNext(s);
    StoreQuiet(s);
    StoreShape(s);
    StoreThieves(s);
    QuietCorrupt(s, s');
    if !s'.overrun { StoreSlots(s); }
    QuietHanded(s, s');
  }

  lemma WonInv(s: State)
    requires Inv(s) && PopWon(s.owner)
    ensures Inv(PopWonNext(s))
    ensures AbsNext(Abs(s), LabelOf(s, OwnerStep), Abs(PopWonNext(s)), s.cap - 1)
    ensures s.top <= PopWonNext(s).top
  {
    var s' := PopWonNext(s);
    WonQuiet(s);
    WonShape(s);
    WonThieves(s);
    QuietCorrupt(s, s');
    WonSized(s);
    if !s'.overrun { WonSlots(s); }
    WonHanded(s);
  }

  lemma ThiefInv(s: State, i: nat)
    requires Inv(s) && i < |s.thieves|
    ensures Inv(ThiefNext(s, i))
    ensures AbsNext(Abs(s), LabelOf(s, ThiefStep(i)), Abs(ThiefNext(s, i)), s.cap - 1)
    ensures s.top <= ThiefNext(s, i).top
  {
    var s' := ThiefNext(s, i);
    assert ThiefOk(s, s.thieves[i]);
    ThiefShape(s, i);
    ThiefThieves(s, i);
    ThiefRefines(s, i);
    ThiefCorrupt(s, i);
    ThiefSized(s, i);
    if !s'.overrun { ThiefSlots(s, i); }
    ThiefHanded(s, i);
  }

  lemma BeginPushInv(s: State)
    requires Inv(s) && s.owner.Idle?
    ensures Inv(s.(owner := PushLoadTop(s.bottom)))
  {
    var s' := s.(owner := PushLoadTop(s.bottom));
    OwnerKeepsThieves(s, s');
    QuietHanded(s, s');
  }

  lemma BeginPopInv(s: State)
    requires Inv(s) && s.owner.Idle? && s.bottom > 0
    ensures Inv(s.(owner := PopStoreBottom(s.bottom - 1)))
  {
    var s' := s.(owner := PopStoreBottom(s.bottom - 1));
    OwnerKeepsThieves(s, s');
    QuietHanded(s, s');
  }

  lemma OwnerInv(s: State)
    requires Inv(s) && !s.owner.Idle?
    ensures Inv(OwnerNext(s))
    ensures AbsNext(Abs(s), LabelOf(s, OwnerStep), Abs(OwnerNext(s)), s.cap - 1)
    ensures s.top <= OwnerNext(s).top
  {
    if InPush(s.owner) { PushInv(s); }
    else if PopWon(s.owner) { WonInv(s); }
    else if s.owner.PopLoadTop? { LoadTopInv(s); }
    else if s.owner.PopCas? { PopCasInv(s); }
    else { StoreInv(s); }
  }

  /** Every step of every thread keeps the invariant, is a step of the sequential
      bounded deque (or no step at all), and never lowers top. */
  lemma StepRefines(s: State, e: Event)
    requires Inv(s) && Enabled(s, e)
    ensures Inv(Apply(s, e))
    ensures AbsNext(Abs(s), LabelOf(s, e), Abs(Apply(s, e)), s.cap - 1)
    ensures s.top <= Apply(s, e).top
  {
    if e.BeginPush? {
      BeginPushInv(s);
    } else if e.BeginPop? {
      if s.bottom > 0 { BeginPopInv(s); }
    } else if e.OwnerStep? {
      assert Apply(s, e) == OwnerNext(s);
      OwnerInv(s);
    } else {
      assert Apply(s, e) == ThiefNext(s, e.i);
      ThiefInv(s, e.i);
      assert e == ThiefStep(e.i);
    }
  }

  lemma InitInv(cap: nat, nThieves: nat)
    requires cap >= 2
    ensures Inv(Init(cap, nThieves))
  {
    var s := Init(cap, nThieves);
    assert forall i :: 0 <= i < |s.thieves| ==> s.thieves[i] == Ready;
    NothingOwed(s.thieves);
    assert Iota(0) == [];
  }

  lemma {:induction false} NothingOwed(ts: seq<ThiefPc>)
    requires forall i :: 0 <= i < |ts| ==> ts[i] == Ready
    ensures OwedByThieves(ts) == 0
  {
    if ts != [] { NothingOwed(ts[1..]); }
  }

  lemma {:induction false} RunInv(s: State, evs: seq<Event>)
    requires Inv(s) && Exec(s, evs).Some?
    ensures Inv(Exec(s, evs).value)
    ensures s.top <= Exec(s, evs).value.top && Exec(s, evs).value.cap == s.cap
    decreases |evs|
  {
    if evs != [] {
      StepRefines(s, evs[0]);
      RunInv(Apply(s, evs[0]), evs[1..]);
    }
  }

  // ---------------------------------------------------------------------
  // Theorems about every run
  // ---------------------------------------------------------------------

  ghost predicate Reachable(s: State) {
    && 2 <= s.cap == |s.buffer|
    && exists n: nat, evs :: Exec(Init(s.cap, n), evs) == Some(s)
  }

  lemma ReachableInv(s: State)
    requires Reachable(s)
    ensures Inv(s)
  {
    var n: nat, evs :| Exec(Init(s.cap, n), evs) == Some(s);
    InitInv(s.cap, n);
    RunInv(Init(s.cap, n), evs);
  }

  /** In every interleaving each published task is either claimed by exactly one
      successful pop or steal, or sits unclaimed at exactly one index of
      [top, Live), never both. */
  lemma ExactlyOnePlace(s: State, id: Id)
    requires Reachable(s) && id < s.pushed
    ensures s.top <= |s.at| == Live(s)
    ensures multiset(s.claims)[id] <= 1
    ensures multiset(s.claims)[id] == 1 <==> forall i :: s.top <= i < Live(s) ==> s.at[i] != id
    ensures forall i, j :: s.top <= i < j < Live(s) ==> s.at[i] < s.at[j]
  {
    ReachableInv(s);
    ClaimedOnce(s, id);
    if id in Abs(s) {
      var k :| 0 <= k < |Abs(s)| && Abs(s)[k] == id;
      assert s.at[s.top + k] == id;
      assert id in multiset(Abs(s));
    } else {
      forall i | s.top <= i < Live(s) ensures s.at[i] != id { assert s.at[i] == Abs(s)[i - s.top]; }
      assert id !in multiset(Abs(s));
    }
  }

  /** top <= bottom whenever the owner is not in the open part of a pop, and the
      deque never holds more than maxSize tasks. */
  lemma CountersInOrder(s: State)
    requires Reachable(s)
    ensures !s.owner.PopLoadTop? && !s.owner.PopCas? && !s.owner.PopRestore? && !s.owner.PopRestoreWon? ==> s.top <= s.bottom
    ensures s.top <= s.bottom + 1
    ensures Live(s) - s.top <= s.cap - 1
  {
    ReachableInv(s);
  }

  /** Live indices never collide modulo the capacity. */
  lemma LiveSlotsDistinct(s: State, i: nat, j: nat)
    requires Reachable(s) && s.top <= i < j < Live(s)
    ensures Slot(i, s.cap) != Slot(j, s.cap)
  {
    ReachableInv(s);
    SlotsDiffer(i, j, s.cap);
  }

  /** A slot claimed by a thief and not yet read cannot be overwritten while
      top <= t + 1, whatever the capacity. */
  lemma ClaimedSlotSafe(s: State, i: nat)
    requires Reachable(s) && i < |s.thieves| && Pending(s.thieves[i])
    requires s.owner.PushWrite? && s.top <= s.thieves[i].t + 1
    ensures Slot(s.owner.b, s.cap) != Slot(s.thieves[i].t, s.cap)
    ensures Apply(s, OwnerStep).buffer[Slot(s.thieves[i].t, s.cap)] == s.buffer[Slot(s.thieves[i].t, s.cap)]
  {
    ReachableInv(s);
    assert ThiefOk(s, s.thieves[i]);
    SlotsDiffer(s.thieves[i].t, s.owner.b, s.cap);
  }

  /** As long as no write has overrun a claimed slot, every pop and steal that
      completed returned exactly the task it claimed, and no claim was read twice
      (the latter even with overruns). */
  lemma ReadsAreRight(s: State)
    requires Reachable(s)
    ensures !s.overrun ==> !s.mismatch
    ensures !s.again
    ensures forall id :: id in s.claims <==> id in s.handed || Holds(s, id)
  {
    ReachableInv(s);
  }

  /** Exactly when a write spoils a claim: while nothing has been overrun, the write
      of index b takes thief i's task away if and only if b has reached t + cap,
      which needs top to have moved at least two past t; and what is lost never
      comes back. */
  lemma OverrunIffWrapped(s: State, i: nat)
    requires Reachable(s) && !s.overrun && s.owner.PushWrite?
    requires i < |s.thieves| && Pending(s.thieves[i])
    ensures Apply(s, OwnerStep).buffer[Slot(s.thieves[i].t, s.cap)] != Some(s.thieves[i].id)
       <==> s.owner.b >= s.thieves[i].t + s.cap
    ensures s.owner.b >= s.thieves[i].t + s.cap ==> s.top >= s.thieves[i].t + 2 && Apply(s, OwnerStep).overrun
  {
    ReachableInv(s);
    var t, b := s.thieves[i].t, s.owner.b;
    assert ThiefOk(s, s.thieves[i]);
    StepRefines(s, OwnerStep);
    if b >= t + s.cap {
      assert b == t + s.cap;
      assert Slot(b, s.cap) == Slot(t, s.cap);
    } else {
      SlotsDiffer(t, b, s.cap);
    }
  }

  lemma LostForGood(s: State, i: nat)
    requires Reachable(s) && i < |s.thieves| && s.thieves[i].Read? && s.high > s.thieves[i].t + s.cap
    ensures Apply(s, ThiefStep(i)).mismatch
  {
    ReachableInv(s);
  }

  /** The owner has lowered bottom for a pop still open, or owes a decrement. */
  predicate OwnerUnsettled(p: OwnerPc) {
    p.PopLoadTop? || p.PopCas? || p.PopRestore? || p.PopRestoreWon? || p.PopCountWon? || p.PopRead? || p.PopCount?
  }

  lemma {:induction false} OwedAtMost(ts: seq<ThiefPc>)
    ensures OwedByThieves(ts) <= |ts|
  {
    if ts != [] { OwedAtMost(ts[1..]); }
  }

  lemma WrapShift(a: int, d: int)
    requires -SIZE_T < d < SIZE_T
    ensures Wrap(a + d) == Wrap(a) <==> d == 0
  {
    var q := a / SIZE_T;
    assert a == q * SIZE_T + Wrap(a);
    var p := (a + d) / SIZE_T;
    assert a + d == p * SIZE_T + Wrap(a + d);
    if Wrap(a + d) == Wrap(a) {
      assert d == (p - q) * SIZE_T;
    }
  }

  /** approxSize is bottom - top exactly when the updates still owed cancel: the owner's
      increment against one thief's decrement, or nothing owed at all. */
  lemma SizeExactly(s: State)
    requires Reachable(s) && |s.thieves| < SIZE_T - 2
    ensures s.size == Wrap(s.bottom - s.top)
       <==> if s.owner.PushCount? then OwedByThieves(s.thieves) == 1
            else !OwnerUnsettled(s.owner) && OwedByThieves(s.thieves) == 0
  {
    ReachableInv(s);
    OwedAtMost(s.thieves);
    WrapShift(s.bottom - s.top, Expected(s) - (s.bottom - s.top));
  }

  // ---- the slack of one slot is tight

  lemma {:induction false} ExecAppend(s: State, a: seq<Event>, b: seq<Event>)
    requires s.cap > 0 && |s.buffer| == s.cap
    requires Exec(s, a).Some? && Exec(s, a).value.cap > 0 && |Exec(s, a).value.buffer| == Exec(s, a).value.cap
    ensures Exec(s, a + b) == Exec(Exec(s, a).value, b)
    decreases |a|
  {
    if a == [] {
      assert a + b == b;
    } else {
      assert (a + b)[0] == a[0] && (a + b)[1..] == a[1..] + b;
      ExecAppend(Apply(s, a[0]), a[1..], b);
    }
  }

  lemma ExecOne(s: State, e: Event)
    requires s.cap > 0 && |s.buffer| == s.cap && Enabled(s, e)
    ensures Exec(s, [e]) == Some(Apply(s, e))
  {
    assert [e][1..] == [];
  }

  /** One more event at the end of a reachable run. */
  lemma ReachStep(s: State, e: Event)
    requires Reachable(s) && Enabled(s, e)
    ensures Reachable(Apply(s, e))
  {
    var n: nat, evs :| Exec(Init(s.cap, n), evs) == Some(s);
    ExecAppend(Init(s.cap, n), evs, [e]);
    ExecOne(s, e);
    assert Exec(Init(s.cap, n), evs + [e]) == Some(Apply(s, e));
  }

  lemma ReachInit(cap: nat, n: nat)
    requires cap >= 2
    ensures Reachable(Init(cap, n))
  {
    assert Exec(Init(cap, n), []) == Some(Init(cap, n));
  }

  /** Thief 0 has claimed index 0 and paused; indices 1 .. b-1 are full. */
  function Staged(cap: nat, b: nat): State
  {
    State(cap, 1, b, Wrap(b - 1), seq(cap, i => if i < b then Some(i) else None), Idle, [Read(0, 0), Ready],
          b, Iota(b), [0], {}, b, false, false, false)
  }

  /** A push from a state with room, up to the store of bottom. */
  function Published(s: State): State
    requires s.bottom < |s.buffer|
  {
    s.(buffer := s.buffer[s.bottom := Some(s.pushed)], high := s.bottom + 1, bottom := s.bottom + 1,
       owner := PushCount, at := s.at + [s.pushed], pushed := s.pushed + 1)
  }

  predicate HasRoom(s: State) {
    && 2 <= s.cap == |s.buffer| && s.owner.Idle? && s.top <= s.bottom < s.cap && !Overruns(s, s.bottom)
    && s.bottom - s.top < s.cap - 1 && s.high <= s.bottom + 1
  }

  lemma WriteFrom(s: State)
    requires Reachable(s) && HasRoom(s)
    ensures Reachable(s.(owner := PushWrite(s.bottom)))
  {
    ReachStep(s, BeginPush);
    var s1 := s.(owner := PushLoadTop(s.bottom));
    ReachStep(s1, OwnerStep);
    assert Apply(s1, OwnerStep) == s.(owner := PushWrite(s.bottom));
  }

  lemma PublishFrom(s: State)
    requires Reachable(s) && HasRoom(s)
    ensures Reachable(Published(s))
  {
    var b := s.bottom;
    WriteFrom(s);
    var s2 := s.(owner := PushWrite(b));
    ReachStep(s2, OwnerStep);
    var s3 := s.(owner := PushPublish(b), buffer := s.buffer[b := Some(s.pushed)], high := b + 1);
    assert Apply(s2, OwnerStep) == s3;
    ReachStep(s3, OwnerStep);
    assert Apply(s3, OwnerStep) == Published(s);
  }

  lemma PushFrom(s: State)
    requires Reachable(s) && HasRoom(s)
    ensures Reachable(Published(s).(owner := Idle, size := Wrap(s.size + 1)))
  {
    PublishFrom(s);
    ReachStep(Published(s), OwnerStep);
    assert Apply(Published(s), OwnerStep) == Published(s).(owner := Idle, size := Wrap(s.size + 1));
  }

  lemma {:induction false} StagedReachable(cap: nat, b: nat)
    requires 2 <= cap && 1 <= b <= cap
    ensures Reachable(Staged(cap, b))
  {
    if b == 1 {
      StagedOne(cap);
    } else {
      StagedReachable(cap, b - 1);
      var s := Staged(cap, b - 1);
      PushFrom(s);
      WrapAdd(b - 2, 1);
      assert s.buffer[b - 1 := Some(b - 1)] == Staged(cap, b).buffer;
      assert Iota(b - 1) + [b - 1] == Iota(b);
    }
  }

  lemma StagedOne(cap: nat)
    requires 2 <= cap
    ensures Reachable(Staged(cap, 1))
  {
    var s := Init(cap, 2);
    ReachInit(cap, 2);
    PushFrom(s);
    var q := s.(buffer := s.buffer[0 := Some(0)], high := 1, bottom := 1, at := [0], pushed := 1, size := 1);
    assert s.at + [s.pushed] == [0];
    assert q == Published(s).(owner := Idle, size := Wrap(s.size + 1));
    var q2 := q.(thieves := [Cas(0), Ready]);
    StealCas(q);
    assert q.thieves[0 := Cas(0)] == [Cas(0), Ready];
    ReachStep(q2, ThiefStep(0));
    var q3 := q.(thieves := [Count(0, 0), Ready], top := 1, claims := [0]);
    assert Apply(q2, ThiefStep(0)) == q3;
    ReachStep(q3, ThiefStep(0));
    var q4 := q3.(thieves := [Read(0, 0), Ready], size := 0);
    assert Apply(q3, ThiefStep(0)) == q4;
    assert q4.buffer == Staged(cap, 1).buffer;
    assert Iota(1) == [0];
  }

  /** Thief 0 loads top and bottom and finds a task. */
  lemma StealCas(s: State)
    requires Reachable(s) && 0 < |s.thieves| && s.thieves[0].Ready? && s.top < s.bottom
    ensures Reachable(s.(thieves := s.thieves[0 := Cas(s.top)]))
  {
    ReachStep(s, ThiefStep(0));
    var s1 := s.(thieves := s.thieves[0 := LoadBottom(s.top)]);
    ReachStep(s1, ThiefStep(0));
    assert s1.thieves[0 := Cas(s.top)] == s.thieves[0 := Cas(s.top)];
  }

  /** Thief 1 claims index 1, after which the owner may write index cap. */
  function Poised(cap: nat): State
    requires cap >= 2
  {
    var s := Staged(cap, cap);
    s.(top := 2, thieves := [Read(0, 0), Count(1, 1)], claims := [0, 1], owner := PushWrite(cap))
  }

  lemma PoisedReachable(cap: nat)
    requires cap >= 2
    ensures Reachable(Poised(cap))
  {
    var s := Staged(cap, cap);
    StagedReachable(cap, cap);
    ReachStep(s, ThiefStep(1));
    var s1 := s.(thieves := [Read(0, 0), LoadBottom(1)]);
    assert Apply(s, ThiefStep(1)) == s1;
    ReachStep(s1, ThiefStep(1));
    var s2 := s.(thieves := [Read(0, 0), Cas(1)]);
    assert Apply(s1, ThiefStep(1)) == s2;
    ReachStep(s2, ThiefStep(1));
    var s3 := s.(thieves := [Read(0, 0), Count(1, 1)], top := 2, claims := [0, 1]);
    assert Apply(s2, ThiefStep(1)) == s3;
    ReachStep(s3, BeginPush);
    var s4 := s3.(owner := PushLoadTop(cap));
    assert Apply(s3, BeginPush) == s4;
    ReachStep(s4, OwnerStep);
    assert Apply(s4, OwnerStep) == Poised(cap);
  }

  /** The slack of maxSize is tight for every capacity: with top just two past a
      claimed index t, the owner is allowed to overwrite its slot, and the thief
      then returns a task it never claimed. */
  lemma OneFurtherClaimPermitsReuse(cap: nat)
    requires cap >= 2
    ensures exists s :: && Reachable(s) && s.cap == cap && s.owner.PushWrite? && !s.overrun
                        && 0 < |s.thieves| && s.thieves[0].Read? && s.top == s.thieves[0].t + 2
                        && Apply(s, OwnerStep).overrun
                        && Apply(Apply(s, OwnerStep), ThiefStep(0)).mismatch
  {
    var s := Poised(cap);
    PoisedReachable(cap);
    var s1 := Apply(s, OwnerStep);
    assert Pending(s.thieves[0]) && s.thieves[0].t + s.cap <= s.owner.b;
    assert Slot(cap, cap) == 0 == Slot(0, cap);
    assert s1.buffer[0] == Some(cap);
  }

  /** A steal may be counted before its push: size_ then reads as the largest size_t. */
  lemma SizeCanWrap(cap: nat)
    requires cap >= 2
    ensures exists s :: Reachable(s) && s.cap == cap && s.top == s.bottom && s.size == SIZE_T - 1
  {
    var s := Init(cap, 1);
    ReachInit(cap, 1);
    PublishFrom(s);
    var s4 := Published(s);
    StealCas(s4);
    var s6 := s4.(thieves := [Cas(0)]);
    assert s4.thieves[0 := Cas(0)] == [Cas(0)];
    var s7 := s4.(thieves := [Count(0, 0)], top := 1, claims := [0]);
    ReachStep(s6, ThiefStep(0));
    assert Apply(s6, ThiefStep(0)) == s7;
    ReachStep(s7, ThiefStep(0));
    assert Apply(s7, ThiefStep(0)).size == SIZE_T - 1;
  }
}
