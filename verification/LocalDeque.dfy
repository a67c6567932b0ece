/** The deque of TaskDeque with one step for each call of its owner, which TaskDeque proves to
    take effect at one point, and two for a steal: the claim, and the read of the slot. */
module LocalDeque {
  import TaskDeque

  type Option<+T> = TaskDeque.Option<T>

  /** `unread` is history: the indices that thieves have claimed and not read. */
  datatype Raw<T> = Raw(top: nat, bottom: nat, slots: seq<Option<T>>, unread: set<nat>)

  type Deque<T> = d: Raw<T> | d.slots != [] && d.top <= d.bottom < d.top + |d.slots|
    witness Raw(0, 0, [TaskDeque.None], {})

  function Empty<T>(maxSize: nat): Deque<T> { Raw(0, 0, seq(maxSize + 1, _ => TaskDeque.None), {}) }

  function Size<T>(d: Deque<T>): nat { d.bottom - d.top }

  /** remainingSpace is not zero. */
  predicate HasRoom<T>(d: Deque<T>) { Size(d) < |d.slots| - 1 }

  function SlotOf<T>(d: Deque<T>, i: nat): (k: nat)
    ensures k < |d.slots|
  {
    TaskDeque.Slot(i, |d.slots|)
  }

  function At<T>(d: Deque<T>, i: nat): Option<T> { d.slots[SlotOf(d, i)] }

  /** tryPushBottom, which destroys what its slot still holds. */
  function Pushed<T>(d: Deque<T>, x: T): Deque<T>
    requires HasRoom(d)
  {
    d.(slots := d.slots[SlotOf(d, d.bottom) := TaskDeque.Some(x)], bottom := d.bottom + 1)
  }

  /** tryPopBottom: the last task of all is taken from the top. */
  function Popped<T>(d: Deque<T>): Deque<T>
    requires Size(d) > 0
  {
    var b := d.bottom - 1;
    if d.top == b then d.(top := b + 1, slots := d.slots[SlotOf(d, b) := TaskDeque.None])
    else d.(bottom := b, slots := d.slots[SlotOf(d, b) := TaskDeque.None])
  }

  /** tryStealTop up to its compare-and-swap. */
  function Claimed<T>(d: Deque<T>): Deque<T>
    requires Size(d) > 0
  {
    d.(top := d.top + 1, unread := d.unread + {d.top})
  }

  /** The end of tryStealTop, for the claim of index t. */
  function Read<T>(d: Deque<T>, t: nat): Deque<T> {
    d.(slots := d.slots[SlotOf(d, t) := TaskDeque.None], unread := d.unread - {t})
  }

  // ---- while no claimed slot has been overwritten

  /** Index i is unclaimed, or claimed and not read. */
  predicate Owned<T>(d: Deque<T>, i: nat) { d.top <= i < d.bottom || i in d.unread }

  /** Somebody owns slot k. */
  ghost predicate SlotOwned<T>(d: Deque<T>, k: nat) { exists i: nat :: Owned(d, i) && SlotOf(d, i) == k }

  /** The slots are full exactly where somebody owns them, and nobody shares one. */
  ghost predicate Sound<T>(d: Deque<T>) {
    && (forall t :: t in d.unread ==> t < d.top)
    && (forall i: nat :: Owned(d, i) ==> d.bottom <= i + |d.slots| && At(d, i).Some?)
    && (forall k :: 0 <= k < |d.slots| && d.slots[k].Some? ==> SlotOwned(d, k))
  }

  lemma EmptySound<T>(maxSize: nat)
    ensures Sound(Empty<T>(maxSize))
  {}

  /** The slot of the next push is free, unless a thief claimed it one round ago. */
  lemma OverwritesIffWrapped<T>(d: Deque<T>)
    requires Sound(d) && HasRoom(d)
    ensures At(d, d.bottom).Some? <==> exists t :: t in d.unread && t + |d.slots| == d.bottom
  {
    if At(d, d.bottom).Some? {
      var i: nat :| Owned(d, i) && SlotOf(d, i) == SlotOf(d, d.bottom);
      if d.bottom < i + |d.slots| { TaskDeque.SlotsDiffer(i, d.bottom, |d.slots|); }
    }
    if t :| t in d.unread && t + |d.slots| == d.bottom {
      assert Owned(d, t);
    }
  }

  /** Two owners of different indices have different slots. */
  lemma OwnersApart<T>(d: Deque<T>, i: nat, j: nat)
    requires Sound(d) && Owned(d, i) && Owned(d, j) && i < j
    ensures SlotOf(d, i) != SlotOf(d, j)
  {
    TaskDeque.SlotsDiffer(i, j, |d.slots|);
  }

  lemma PushSound<T>(d: Deque<T>, x: T)
    requires Sound(d) && HasRoom(d) && At(d, d.bottom).None?
    ensures Sound(Pushed(d, x))
  {
    var d' := Pushed(d, x);
    OverwritesIffWrapped(d);
    forall i: nat | Owned(d', i) ensures d'.bottom <= i + |d'.slots| && At(d', i).Some? {
      if i < d.bottom {
        assert Owned(d, i);
        assert i + |d.slots| != d.bottom;
        TaskDeque.SlotsDiffer(i, d.bottom, |d.slots|);
      }
    }
    forall k | 0 <= k < |d'.slots| && d'.slots[k].Some? ensures SlotOwned(d', k) {
      if k == SlotOf(d, d.bottom) {
        assert Owned(d', d.bottom) && SlotOf(d', d.bottom) == k;
      } else {
        var i: nat :| Owned(d, i) && SlotOf(d, i) == k;
        assert Owned(d', i) && SlotOf(d', i) == k;
      }
    }
  }

  /** Emptying the slot of an owner that leaves keeps the others'. */
  lemma LeaveSound<T>(d: Deque<T>, i: nat, d': Deque<T>)
    requires Sound(d) && Owned(d, i) && d'.slots == d.slots[SlotOf(d, i) := TaskDeque.None]
    requires forall j: nat :: Owned(d', j) <==> Owned(d, j) && j != i
    requires d'.bottom <= d.bottom && d.top <= d'.top && d'.unread <= d.unread
    ensures Sound(d')
  {
    forall j: nat | Owned(d', j) ensures d'.bottom <= j + |d'.slots| && At(d', j).Some? {
      if j < i { OwnersApart(d, j, i); } else { OwnersApart(d, i, j); }
    }
    forall k | 0 <= k < |d'.slots| && d'.slots[k].Some? ensures SlotOwned(d', k) {
      var j: nat :| Owned(d, j) && SlotOf(d, j) == k;
      assert Owned(d', j) && SlotOf(d', j) == k;
    }
  }

  lemma PopSound<T>(d: Deque<T>)
    requires Sound(d) && Size(d) > 0
    ensures Sound(Popped(d)) && At(d, d.bottom - 1).Some?
  {
    assert Owned(d, d.bottom - 1);
    LeaveSound(d, d.bottom - 1, Popped(d));
  }

  lemma ClaimSound<T>(d: Deque<T>)
    requires Sound(d) && Size(d) > 0
    ensures Sound(Claimed(d))
  {
    var d' := Claimed(d);
    assert forall i: nat :: Owned(d', i) <==> Owned(d, i);
    forall k | 0 <= k < |d'.slots| && d'.slots[k].Some? ensures SlotOwned(d', k) {
      var i: nat :| Owned(d, i) && SlotOf(d, i) == k;
      assert Owned(d', i) && SlotOf(d', i) == k;
    }
  }

  lemma ReadSound<T>(d: Deque<T>, t: nat)
    requires Sound(d) && t in d.unread
    ensures Sound(Read(d, t)) && At(d, t).Some?
  {
    assert Owned(d, t);
    LeaveSound(d, t, Read(d, t));
  }

  // ---- the deque of TaskDeque

  lemma SoundContents<T>(d: Deque<T>)
    requires Sound(d)
    ensures forall i :: d.top <= i < d.bottom ==> At(d, i).Some?
  {
    forall i | d.top <= i < d.bottom ensures At(d, i).Some? { assert Owned(d, i); }
  }

  /** The ids of the unclaimed tasks, oldest first. */
  ghost function Ids<T>(d: Deque<T>, id: T -> nat): seq<nat>
    requires Sound(d)
  {
    SoundContents(d);
    seq(Size(d), k requires 0 <= k < Size(d) => id(At(d, d.top + k).value))
  }

  /** Every call is one step of the abstract deque that TaskDeque refines. */
  lemma PushIsAbstract<T>(d: Deque<T>, x: T, id: T -> nat)
    requires Sound(d)
    ensures HasRoom(d) && At(d, d.bottom).None? ==>
      Sound(Pushed(d, x)) && TaskDeque.AbsNext(Ids(d, id), TaskDeque.Pushed(id(x)), Ids(Pushed(d, x), id), |d.slots| - 1)
    ensures !HasRoom(d) ==> TaskDeque.AbsNext(Ids(d, id), TaskDeque.PushRefused, Ids(d, id), |d.slots| - 1)
  {
    if HasRoom(d) && At(d, d.bottom).None? {
      PushSound(d, x);
      forall i | d.top <= i < d.bottom ensures SlotOf(d, i) != SlotOf(d, d.bottom) { TaskDeque.SlotsDiffer(i, d.bottom, |d.slots|); }
      assert Ids(Pushed(d, x), id) == Ids(d, id) + [id(x)];
    }
  }

  lemma PopIsAbstract<T>(d: Deque<T>, id: T -> nat)
    requires Sound(d)
    ensures if Size(d) > 0 then
        Sound(Popped(d)) && At(d, d.bottom - 1).Some? &&
        TaskDeque.AbsNext(Ids(d, id), TaskDeque.Popped(id(At(d, d.bottom - 1).value)), Ids(Popped(d), id), |d.slots| - 1)
      else TaskDeque.AbsNext(Ids(d, id), TaskDeque.PopMissed, Ids(d, id), |d.slots| - 1)
  {
    if Size(d) > 0 {
      PopSound(d);
      var b := d.bottom - 1;
      forall i | d.top <= i < b ensures SlotOf(d, i) != SlotOf(d, b) { TaskDeque.SlotsDiffer(i, b, |d.slots|); }
      assert Ids(d, id) == Ids(Popped(d), id) + [id(At(d, b).value)];
    }
  }

  lemma StealIsAbstract<T>(d: Deque<T>, id: T -> nat)
    requires Sound(d) && Size(d) > 0
    ensures Sound(Claimed(d)) && At(d, d.top).Some?
    ensures TaskDeque.AbsNext(Ids(d, id), TaskDeque.Stolen(id(At(d, d.top).value)), Ids(Claimed(d), id), |d.slots| - 1)
  {
    ClaimSound(d);
    assert Owned(d, d.top);
    assert Ids(d, id) == [id(At(d, d.top).value)] + Ids(Claimed(d), id);
  }

  /** The late read of a claimed slot changes nothing for the others. */
  lemma ReadIsAbstract<T>(d: Deque<T>, t: nat, id: T -> nat)
    requires Sound(d) && t in d.unread
    ensures Sound(Read(d, t)) && TaskDeque.AbsNext(Ids(d, id), TaskDeque.Stutter, Ids(Read(d, t), id), |d.slots| - 1)
  {
    ReadSound(d, t);
    assert Owned(d, t);
    forall i | d.top <= i < d.bottom ensures SlotOf(d, i) != SlotOf(d, t) { OwnersApart(d, t, i); }
    assert Ids(Read(d, t), id) == Ids(d, id);
  }
}
