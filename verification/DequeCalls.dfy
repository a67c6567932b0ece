/** The calls of the deque: each has exactly one effect, or is refused for a reason that held
    while it ran, and ends after a few steps of its own. */
module DequeCalls {
  import opened TaskDeque

  /** The owner is in a call that has had no effect yet. */
  predicate Open(p: OwnerPc) {
    p.PushLoadTop? || p.PushWrite? || p.PushPublish? || p.PopStoreBottom? || p.PopLoadTop? || p.PopCas?
  }

  /** Each call of the owner takes effect in exactly one of its steps: a push pushes or is
      refused, a pop pops or finds the deque empty. */
  lemma EachCallOnce(s: State)
    requires Reachable(s) && !s.owner.Idle?
    ensures var l, r := LabelOf(s, OwnerStep), Apply(s, OwnerStep);
      && (Open(s.owner) && !Open(r.owner) <==> l != Stutter)
      && (!Open(s.owner) ==> !Open(r.owner))
      && (InPush(s.owner) ==> l == Stutter || l == PushRefused || l == Pushed(s.pushed))
      && (!InPush(s.owner) ==> l == Stutter || l == PopMissed || l.Popped?)
  {
    ReachableInv(s);
  }

  /** A call begins open, but for a pop that finds bottom at zero and is missed at once. */
  lemma CallsBegin(s: State)
    requires Reachable(s) && s.owner.Idle?
    ensures Open(Apply(s, BeginPush).owner) && LabelOf(s, BeginPush) == Stutter
    ensures if s.bottom == 0 then Apply(s, BeginPop) == s && LabelOf(s, BeginPop) == PopMissed
            else Open(Apply(s, BeginPop).owner) && LabelOf(s, BeginPop) == Stutter
  {
    ReachableInv(s);
  }

  /** A thief gives up only when it has seen no more than the task that the owner was about to
      take, or when somebody else has taken the index that it read. */
  lemma StealMissedRightly(s: State, i: nat)
    requires Reachable(s) && i < |s.thieves| && !s.thieves[i].Read? && !s.thieves[i].Ready?
    requires Apply(s, ThiefStep(i)).thieves[i].Ready?
    ensures if s.thieves[i].LoadBottom?
            then s.top <= |s.at| && (Abs(s) == [] || (|Abs(s)| == 1 && (s.owner.PopLoadTop? || s.owner.PopCas? || s.owner.PopRestore?)))
            else s.thieves[i].Cas? && s.top > s.thieves[i].t
    ensures LabelOf(s, ThiefStep(i)) == Stutter
  {
    ReachableInv(s);
    assert ThiefOk(s, s.thieves[i]);
  }

  /** A thief that does not give up takes the oldest task. */
  lemma StealTakesOldest(s: State, i: nat)
    requires Reachable(s) && i < |s.thieves| && s.thieves[i].Cas? && !Apply(s, ThiefStep(i)).thieves[i].Ready?
    ensures s.top < |s.at| && Apply(s, ThiefStep(i)).thieves[i] == Count(s.top, s.at[s.top]) && LabelOf(s, ThiefStep(i)) == Stolen(s.at[s.top])
  {}

  function OwnerLeft(p: OwnerPc): nat {
    match p
    case Idle => 0
    case PushLoadTop(_) => 4
    case PushWrite(_) => 3
    case PushPublish(_) => 2
    case PushCount => 1
    case PopStoreBottom(_) => 6
    case PopLoadTop(_) => 5
    case PopCas(_) => 4
    case PopRestore(_) => 1
    case PopRestoreWon(_, _) => 3
    case PopCountWon(_, _) => 2
    case PopReadWon(_, _) => 1
    case PopRead(_, _) => 2
    case PopCount => 1
  }

  function ThiefLeft(p: ThiefPc): nat {
    match p
    case Ready => 0
    case LoadBottom(_) => 4
    case Cas(_) => 3
    case Count(_, _) => 2
    case Read(_, _) => 1
  }

  lemma OwnerGoesOn(s: State)
    requires Shape(s) && !s.owner.Idle?
    ensures OwnerLeft(OwnerNext(s).owner) < OwnerLeft(s.owner) && OwnerNext(s).thieves == s.thieves
  {
    if InPush(s.owner) { PushGoesOn(s); } else if PopWon(s.owner) { WonGoesOn(s); }
  }

  lemma PushGoesOn(s: State)
    requires Shape(s) && InPush(s.owner)
    ensures OwnerLeft(PushNext(s).owner) < OwnerLeft(s.owner) && PushNext(s).thieves == s.thieves
  {}

  lemma WonGoesOn(s: State)
    requires Shape(s) && PopWon(s.owner)
    ensures OwnerLeft(PopWonNext(s).owner) < OwnerLeft(s.owner) && PopWonNext(s).thieves == s.thieves
  {}

  lemma ThiefGoesOn(s: State, i: nat)
    requires 0 < s.cap == |s.buffer| && i < |s.thieves|
    ensures var r := ThiefNext(s, i);
      && r.owner == s.owner && |r.thieves| == |s.thieves| && r.thieves == s.thieves[i := r.thieves[i]]
      && (!s.thieves[i].Ready? ==> ThiefLeft(r.thieves[i]) < ThiefLeft(s.thieves[i]))
  {}

  /** No call waits for another thread: each own step brings it nearer to its end, and steps of
      the others leave it where it is. */
  lemma CallsEnd(s: State, e: Event, i: nat)
    requires Reachable(s) && Enabled(s, e) && i < |s.thieves|
    ensures var r := Apply(s, e);
      && |r.thieves| == |s.thieves|
      && (e == OwnerStep ==> OwnerLeft(r.owner) < OwnerLeft(s.owner))
      && (e.ThiefStep? ==> r.owner == s.owner)
      && (e == ThiefStep(i) && !s.thieves[i].Ready? ==> ThiefLeft(r.thieves[i]) < ThiefLeft(s.thieves[i]))
      && (e != ThiefStep(i) ==> r.thieves[i] == s.thieves[i])
  {
    ReachableInv(s);
    match e
    case OwnerStep => OwnerGoesOn(s);
    case ThiefStep(k) => ThiefGoesOn(s, k);
    case _ =>
  }
}
