/** Calling the line breaker again and again, as nvgTextBox does, against one call over the
    whole text: exactly when the two give the same rows. */
module LineBatches {
  import opened LineBreaker
  import opened LineRows

  /** The same text and metrics from position s on. */
  function From(inp: Input, s: nat): Input { inp.(start := s) }

  /** Two loops in the same draft at the same glyph. */
  predicate InStep(inp: Input, a: State, b: State, i: nat, s: nat) {
    && inp.start <= s < i <= |inp.text| && a.draft == b.draft
    && (a.draft.Draft? ==> PreviousKind(inp, i) == PreviousKind(From(inp, s), i))
  }

  /** One glyph does the same to both. */
  lemma SameStep(inp: Input, s: nat, i: nat, a: State, b: State) returns (x: seq<Row>)
    requires i < |inp.text| && a.draft == b.draft && KindAt(inp, i) == KindAt(From(inp, s), i)
    requires a.draft.Draft? ==> PreviousKind(inp, i) == PreviousKind(From(inp, s), i)
    ensures Step(inp, i, a).draft == Step(From(inp, s), i, b).draft
    ensures Step(inp, i, a).rows == a.rows + x && Step(From(inp, s), i, b).rows == b.rows + x
  {
    var after := Step(inp, i, a);
    x := if |after.rows| > |a.rows| then [after.rows[|a.rows|]] else [];
  }

  /** From there on they emit the same rows. */
  lemma {:induction false} StayInStep(inp: Input, s: nat, i: nat, j: nat) returns (x: seq<Row>)
    requires inp.start <= s < i <= j <= |inp.text|
    requires InStep(inp, After(inp, i), After(From(inp, s), i), i, s)
    ensures InStep(inp, After(inp, j), After(From(inp, s), j), j, s)
    ensures After(inp, j).rows == After(inp, i).rows + x && After(From(inp, s), j).rows == After(From(inp, s), i).rows + x
    decreases j
  {
    if j == i {
      x := [];
    } else {
      var y := StayInStep(inp, s, i, j - 1);
      var z := SameStep(inp, s, j - 1, After(inp, j - 1), After(From(inp, s), j - 1));
      x := y + z;
      assert After(inp, i).rows + (y + z) == After(inp, i).rows + y + z;
      assert After(From(inp, s), i).rows + (y + z) == After(From(inp, s), i).rows + y + z;
    }
  }

  /** ... up to the last. */
  lemma SameRest(inp: Input, s: nat, i: nat) returns (x: seq<Row>)
    requires inp.start <= s < i <= |inp.text|
    requires InStep(inp, After(inp, i), After(From(inp, s), i), i, s)
    ensures AllRows(inp) == After(inp, i).rows + x && AllRows(From(inp, s)) == After(From(inp, s), i).rows + x
  {
    var n := |inp.text|;
    x := StayInStep(inp, s, i, n);
    var d := After(inp, n).draft;
    if d.Draft? { x := x + [Row(d.rowStart, d.rowEnd, n)]; }
  }

  // ---- where row m - 1 of one call came from

  /** Row r is the last of the rows when glyph i has been seen. */
  predicate EmittedAt(inp: Input, m: nat, i: nat) {
    inp.start <= i < |inp.text| && |After(inp, i).rows| == m - 1 && |After(inp, i + 1).rows| == m
  }

  lemma {:induction false} FindEmission(inp: Input, m: nat, j: nat) returns (i: nat)
    requires inp.start <= j <= |inp.text| && 0 < m <= |After(inp, j).rows|
    ensures EmittedAt(inp, m, i) && m <= |AllRows(inp)| && After(inp, i + 1).rows == AllRows(inp)[..m]
    decreases j
  {
    var s := After(inp, j - 1);
    StepEmitsOne(inp, j - 1, s);
    RowsKept(inp, j);
    if m <= |s.rows| {
      i := FindEmission(inp, m, j - 1);
    } else {
      i := j - 1;
    }
  }

  // ---- restarting behind a row

  /** A restart behind row r changes nothing: no CR LF or LF CR pair is torn apart, and the
      word that the row's trigger took along fits the new row glyph by glyph. */
  predicate Clean(inp: Input, r: Row) {
    if Newlined(inp, r) then !(r.next < |inp.text| && IsPair(inp.text[r.next - 1], inp.text[r.next]))
    else forall c :: r.next <= c < |inp.text| && Trigger(inp, r, c) ==> forall j :: r.next < j <= c ==> !Beyond(inp, r.next, j)
  }

  /** With cells from left to right that is one comparison. */
  lemma CleanLeftToRight(inp: Input, r: Row, c: nat)
    requires LeftToRight(inp) && !Newlined(inp, r) && Trigger(inp, r, c)
    ensures Clean(inp, r) <==> c == r.next || !Beyond(inp, r.next, c)
  {
    forall b | r.next <= b < |inp.text| && Trigger(inp, r, b) ensures b == c { TriggerUnique(inp, r, b, c); }
    forall j | r.next < j <= c && !Beyond(inp, r.next, c) ensures !Beyond(inp, r.next, j) {
      assert j < c ==> inp.right(j) <= inp.right(c);
    }
  }

  /** Behind a newline. */
  lemma RestartAfterNewline(inp: Input, m: nat, i: nat)
    requires inp.start <= |inp.text| && EmittedAt(inp, m, i) && KindAt(inp, i).Newline? && m <= |AllRows(inp)| && After(inp, i + 1).rows == AllRows(inp)[..m]
    ensures var pair := i + 1 < |inp.text| && IsPair(inp.text[i], inp.text[i + 1]);
      AllRows(From(inp, i + 1)) == if pair then [Row(i + 1, i + 1, i + 2)] + AllRows(inp)[m..] else AllRows(inp)[m..]
  {
    var s := i + 1;
    var again := From(inp, s);
    if s < |inp.text| {
      assert After(inp, s).draft == NoRow == After(again, s).draft;
      if IsPair(inp.text[i], inp.text[s]) {
        assert After(inp, s + 1) == State(After(inp, s).rows, NoRow);
        assert After(again, s + 1) == State([Row(s, s, s + 1)], NoRow);
        var x := SameRest(inp, s, s + 1);
      } else {
        assert KindAt(inp, s) == KindAt(again, s);
        var y := SameStep(inp, s, s, After(inp, s), After(again, s));
        var x := SameRest(inp, s, s + 1);
      }
    }
  }

  /** A row that glyph i broke: where it ends, and the draft that the next row starts from. */
  lemma BreakOf(inp: Input, m: nat, i: nat)
    requires 0 < m && EmittedAt(inp, m, i) && !KindAt(inp, i).Newline?
    ensures var s := After(inp, i + 1); var r := s.rows[m - 1];
      && inp.start <= r.next <= i && Trigger(inp, r, i) && !Newlined(inp, r) && s.draft == Draft(r.next, i + 1, r.next, r.next)
  {
    var s := After(inp, i);
    var c := AfterUnderway(inp, i);
    var d, from, kind, ptype := s.draft, End(inp.start, s.rows), KindAt(inp, i), PreviousKind(inp, i);
    EndAfterStart(inp, s.rows);
    Extend(inp, from, i, d);
    ExtendOpened(inp, s.rows, i, d, c, kind, ptype);
    var e := Extended(d, i, kind, ptype);
    if e.breakEnd == e.rowStart { BreakHere(inp, s.rows, i, e, c); } else { BreakAtWord(inp, s.rows, i, e, c); }
  }

  /** A word read from its beginning, as long as it fits. */
  lemma {:induction false} WordAgain(inp: Input, s: nat, j: nat)
    requires s < j <= |inp.text| && OneWord(inp.text, s, j) && forall l :: s < l < j ==> !Beyond(inp, s, l)
    ensures After(From(inp, s), j) == State([], Draft(s, j, s, s))
    decreases j
  {
    var again := From(inp, s);
    if j == s + 1 {
      assert After(again, s) == State([], NoRow);
      assert After(again, j) == Step(again, s, After(again, s));
      assert !IsBlank(inp.text[s]) && Visible(KindAt(again, s));
    } else {
      WordAgain(inp, s, j - 1);
      assert !IsBlank(inp.text[j - 1]) && !IsBlank(inp.text[j - 2]) && !IsCjk(inp.text[j - 1]);
      assert !Beyond(inp, s, j - 1) && !Beyond(again, s, j - 1);
      assert PreviousKind(again, j - 1) == KindAt(again, j - 2);
      assert After(again, j) == Step(again, j - 1, After(again, j - 1));
    }
  }

  /** ... and where it does not fit it is broken. */
  lemma WordBroken(inp: Input, s: nat, j: nat)
    requires s < j < |inp.text| && OneWord(inp.text, s, j + 1) && Beyond(inp, s, j) && forall l :: s < l < j ==> !Beyond(inp, s, l)
    ensures AllRows(From(inp, s)) != [] && AllRows(From(inp, s))[0] == Row(s, j, j)
  {
    var again := From(inp, s);
    assert OneWord(inp.text, s, j);
    WordAgain(inp, s, j);
    assert !IsBlank(inp.text[j]) && !IsBlank(inp.text[j - 1]) && !IsCjk(inp.text[j]);
    assert After(again, j + 1) == Step(again, j, After(again, j));
    assert After(again, j + 1).rows == [Row(s, j, j)];
    RowsKept(again, j + 1);
  }

  predicate FitsUpTo(inp: Input, s: nat, i: nat) { forall j :: s < j <= i ==> !Beyond(inp, s, j) }

  lemma {:induction false} FirstBeyond(inp: Input, s: nat, i: nat) returns (j: nat)
    requires s <= i && !FitsUpTo(inp, s, i)
    ensures s < j <= i && Beyond(inp, s, j) && forall l :: s < l < j ==> !Beyond(inp, s, l)
    decreases i
  {
    if FitsUpTo(inp, s, i - 1) { j := i; } else { j := FirstBeyond(inp, s, i - 1); }
  }

  /** Behind a break whose word fits. */
  lemma RestartAtFittingWord(inp: Input, m: nat, i: nat)
    requires 0 < m && EmittedAt(inp, m, i) && !KindAt(inp, i).Newline? && m <= |AllRows(inp)| && After(inp, i + 1).rows == AllRows(inp)[..m]
    requires FitsUpTo(inp, AllRows(inp)[m - 1].next, i)
    ensures inp.start <= AllRows(inp)[m - 1].next <= |inp.text| && AllRows(From(inp, AllRows(inp)[m - 1].next)) == AllRows(inp)[m..]
  {
    assert AllRows(inp)[..m][m - 1] == AllRows(inp)[m - 1];
    FittingWord(inp, m, i, AllRows(inp)[m - 1].next);
  }

  lemma FittingWord(inp: Input, m: nat, i: nat, s: nat)
    requires 0 < m && EmittedAt(inp, m, i) && !KindAt(inp, i).Newline? && After(inp, i + 1).rows[m - 1].next == s && FitsUpTo(inp, s, i)
    ensures inp.start <= s <= |inp.text| && m <= |AllRows(inp)| && AllRows(From(inp, s)) == AllRows(inp)[m..]
  {
    assert inp.start <= s <= i < |inp.text| && OneWord(inp.text, s, i + 1) && !IsBlank(inp.text[i]) && |After(inp, i + 1).rows| == m
      && After(inp, i + 1).draft == Draft(s, i + 1, s, s) by { BreakOf(inp, m, i); }
    assert After(From(inp, s), i + 1) == State([], Draft(s, i + 1, s, s)) by { WordAgain(inp, s, i + 1); }
    assert InStep(inp, After(inp, i + 1), After(From(inp, s), i + 1), i + 1, s) by { StepInStep(inp, m, i, s); }
    RestIs(inp, s, i + 1, m);
  }

  lemma RestIs(inp: Input, s: nat, i: nat, m: nat)
    requires inp.start <= s < i <= |inp.text| && |After(inp, i).rows| == m && After(From(inp, s), i).rows == []
    requires InStep(inp, After(inp, i), After(From(inp, s), i), i, s)
    ensures m <= |AllRows(inp)| && AllRows(From(inp, s)) == AllRows(inp)[m..]
  {
    var x := SameRest(inp, s, i);
    var first := After(inp, i).rows;
    assert [] + x == x && (first + x)[m..] == x;
  }

  lemma StepInStep(inp: Input, m: nat, i: nat, s: nat)
    requires 0 < m && EmittedAt(inp, m, i) && inp.start <= s <= i && i + 1 <= |inp.text|
    requires After(inp, i + 1).draft == Draft(s, i + 1, s, s) && !KindAt(inp, i).Newline? && !IsBlank(inp.text[i])
    requires After(From(inp, s), i + 1) == State([], Draft(s, i + 1, s, s))
    ensures InStep(inp, After(inp, i + 1), After(From(inp, s), i + 1), i + 1, s)
  {}

  /** Behind a break whose word does not fit, the next row differs. */
  lemma RestartAtBrokenWord(inp: Input, m: nat, i: nat)
    requires 0 < m && EmittedAt(inp, m, i) && !KindAt(inp, i).Newline? && m <= |AllRows(inp)| && After(inp, i + 1).rows == AllRows(inp)[..m]
    requires !FitsUpTo(inp, AllRows(inp)[m - 1].next, i)
    ensures var s := AllRows(inp)[m - 1].next;
      && inp.start <= s <= |inp.text| && m < |AllRows(inp)| && AllRows(From(inp, s)) != [] && AllRows(From(inp, s))[0] != AllRows(inp)[m]
  {
    BreakOf(inp, m, i);
    var rows := AllRows(inp);
    var r := rows[m - 1];
    assert rows[..m][m - 1] == r;
    var j := FirstBeyond(inp, r.next, i);
    WordBroken(inp, r.next, j);
    AllRowsAreLines(inp);
    assert !IsBlank(inp.text[r.next]);
    assert m == |rows| ==> End(inp.start, rows) == r.next;
    LineAt(inp, rows, m);
    assert BrokenBefore(inp, rows[..m]);
    var c: nat :| Opening(inp, rows[..m], rows[m].start, c) && c < rows[m].end && Measured(inp, rows[m].start, rows[m].end, c);
    TriggerUnique(inp, r, c, i);
  }

  lemma NothingBehindTheEnd(inp: Input)
    requires inp.start == |inp.text|
    ensures AllRows(inp) == []
  {
    assert After(inp, inp.start) == State([], NoRow);
  }

  /** A pair torn apart gives an empty row that one call does not give. */
  lemma TornPairDiffers(inp: Input, m: nat, s: nat)
    requires inp.start < s < |inp.text| && IsPair(inp.text[s - 1], inp.text[s])
    requires m < |AllRows(inp)|
    ensures AllRows(inp)[m] != Row(s, s, s + 1)
  {
    AllRowsAreLines(inp);
    LineAt(inp, AllRows(inp), m);
    assert KindAt(inp, s).Space?;
  }

  /** Glyph i emitted row m - 1 of the rows of one call. */
  predicate Emits(inp: Input, m: nat, i: nat)
    requires inp.start <= |inp.text|
  {
    && 0 < m <= |AllRows(inp)| && EmittedAt(inp, m, i) && After(inp, i + 1).rows == AllRows(inp)[..m]
    && inp.start < AllRows(inp)[m - 1].next
  }

  lemma RowOfEmission(inp: Input, m: nat, i: nat)
    requires inp.start <= |inp.text| && Emits(inp, m, i)
    ensures After(inp, i + 1).rows[m - 1] == AllRows(inp)[m - 1]
  {
    assert AllRows(inp)[..m][m - 1] == AllRows(inp)[m - 1];
  }

  lemma RestartOfNewline(inp: Input, m: nat, i: nat)
    requires inp.start <= |inp.text| && Emits(inp, m, i) && KindAt(inp, i).Newline?
    ensures RestartsRightly(inp, m)
  {
    RowOfEmission(inp, m, i);
    NewlinedAt(inp, m, i);
    RestartAfterNewline(inp, m, i);
    if i + 1 < |inp.text| && IsPair(inp.text[i], inp.text[i + 1]) && m < |AllRows(inp)| { TornPairDiffers(inp, m, i + 1); }
  }

  lemma RestartOfBreak(inp: Input, m: nat, i: nat)
    requires inp.start <= |inp.text| && Emits(inp, m, i) && !KindAt(inp, i).Newline?
    ensures RestartsRightly(inp, m)
  {
    var r := AllRows(inp)[m - 1];
    RowOfEmission(inp, m, i);
    BreakOf(inp, m, i);
    CleanAt(inp, r, i);
    if FitsUpTo(inp, r.next, i) { RestartAtFittingWord(inp, m, i); } else { RestartAtBrokenWord(inp, m, i); }
  }

  lemma NewlinedAt(inp: Input, m: nat, i: nat)
    requires 0 < m && EmittedAt(inp, m, i) && KindAt(inp, i).Newline?
    ensures var r := After(inp, i + 1).rows[m - 1]; r.next == i + 1 && Newlined(inp, r)
  {
    var c := AfterUnderway(inp, i);
  }

  lemma CleanAt(inp: Input, r: Row, i: nat)
    requires Trigger(inp, r, i) && !Newlined(inp, r)
    ensures Clean(inp, r) <==> FitsUpTo(inp, r.next, i)
  {
    forall c | r.next <= c < |inp.text| && Trigger(inp, r, c) ensures c == i { TriggerUnique(inp, r, c, i); }
  }

  /** What a restart behind the first m rows gives: the other rows exactly if it is clean,
      and otherwise a different next row. */
  predicate RestartsRightly(inp: Input, m: nat)
    requires inp.start <= |inp.text| && 0 < m <= |AllRows(inp)|
  {
    var rows := AllRows(inp);
    var s := rows[m - 1].next;
    && inp.start < s <= |inp.text|
    && (Clean(inp, rows[m - 1]) ==> AllRows(From(inp, s)) == rows[m..])
    && (!Clean(inp, rows[m - 1]) ==> AllRows(From(inp, s)) != [] && (m == |rows| || AllRows(From(inp, s))[0] != rows[m]))
  }

  lemma NextInside(inp: Input, m: nat)
    requires inp.start <= |inp.text| && 0 < m <= |AllRows(inp)|
    ensures inp.start < AllRows(inp)[m - 1].next <= |inp.text|
  {
    AllRowsAreLines(inp);
    LinesPrefix(inp, AllRows(inp), m);
    LinesTile(inp, AllRows(inp)[..m]);
    NextAdvances(inp.text, inp.start, AllRows(inp)[..m]);
  }

  lemma RestartAnywhere(inp: Input, m: nat)
    requires inp.start <= |inp.text| && 0 < m <= |AllRows(inp)|
    ensures RestartsRightly(inp, m)
  {
    var n := |inp.text|;
    NextInside(inp, m);
    if m <= |After(inp, n).rows| {
      var i := FindEmission(inp, m, n);
      if KindAt(inp, i).Newline? { RestartOfNewline(inp, m, i); } else { RestartOfBreak(inp, m, i); }
    } else {
      NothingBehindTheEnd(From(inp, n));
    }
  }

  /** One call behind row m - 1 gives the rows that one call over the whole text gives
      behind it, if and only if the boundary is clean. */
  lemma RestartExactly(inp: Input, m: nat)
    requires inp.start <= |inp.text| && 0 < m <= |AllRows(inp)|
    ensures AllRows(inp)[m - 1].next <= |inp.text|
    ensures AllRows(From(inp, AllRows(inp)[m - 1].next)) == AllRows(inp)[m..] <==> Clean(inp, AllRows(inp)[m - 1])
  {
    RestartAnywhere(inp, m);
  }

  // ---- batches

  /** Batches of at most `size` rows, each restarted behind the one before. */
  function Batched(inp: Input, size: nat): seq<Row>
    requires inp.start <= |inp.text| && 0 < size
    decreases |inp.text| - inp.start
  {
    var rows := Take(AllRows(inp), size);
    if rows == [] then [] else
      NextInside(inp, |rows|);
      rows + Batched(From(inp, rows[|rows| - 1].next), size)
  }

  /** Every batch of these rows, the last and perhaps shorter one included, ends at a clean
      boundary. */
  predicate BatchesClean(inp: Input, rows: seq<Row>, size: nat)
    requires 0 < size
  {
    rows == [] ||
    (var m := |Take(rows, size)|; Clean(inp, rows[m - 1]) && BatchesClean(inp, rows[m..], size))
  }

  /** A word behind a break begins with a visible glyph. */
  lemma WordAtBreak(inp: Input, m: nat)
    requires inp.start <= |inp.text| && 0 < m <= |AllRows(inp)| && !Newlined(inp, AllRows(inp)[m - 1])
    ensures var s := AllRows(inp)[m - 1].next; s <= |inp.text| && (s < |inp.text| ==> !IsBlank(inp.text[s]))
  {
    AllRowsAreLines(inp);
    LineAt(inp, AllRows(inp), m - 1);
    var r := AllRows(inp)[m - 1];
    if r.next < |inp.text| {
      var c :| r.next <= c && Trigger(inp, r, c);
    }
  }

  /** Behind a clean boundary no kind changes. */
  lemma KindsKept(inp: Input, m: nat, i: nat)
    requires inp.start <= |inp.text| && 0 < m <= |AllRows(inp)| && Clean(inp, AllRows(inp)[m - 1])
    requires AllRows(inp)[m - 1].next <= i < |inp.text|
    ensures KindAt(From(inp, AllRows(inp)[m - 1].next), i) == KindAt(inp, i)
  {
    NextInside(inp, m);
    if !Newlined(inp, AllRows(inp)[m - 1]) { WordAtBreak(inp, m); }
  }

  lemma CleanKept(inp: Input, m: nat, r: Row)
    requires inp.start <= |inp.text| && 0 < m <= |AllRows(inp)| && Clean(inp, AllRows(inp)[m - 1])
    requires AllRows(inp)[m - 1].next < r.next
    ensures Clean(From(inp, AllRows(inp)[m - 1].next), r) <==> Clean(inp, r)
  {
    var again := From(inp, AllRows(inp)[m - 1].next);
    if r.next <= |inp.text| { KindsKept(inp, m, r.next - 1); }
    assert Newlined(again, r) <==> Newlined(inp, r);
    forall c | r.next <= c < |inp.text| ensures Trigger(again, r, c) <==> Trigger(inp, r, c) { TriggerKept(inp, again, r, c); }
    forall j ensures Beyond(again, r.next, j) <==> Beyond(inp, r.next, j) {}
  }

  lemma TriggerKept(inp: Input, again: Input, r: Row, c: nat)
    requires again == From(inp, again.start)
    ensures Trigger(again, r, c) <==> Trigger(inp, r, c)
  {
    forall j: nat ensures Beyond(again, r.start, j) <==> Beyond(inp, r.start, j) {}
  }

  lemma {:induction false} BatchesCleanKept(inp: Input, m: nat, rows: seq<Row>, size: nat)
    requires inp.start <= |inp.text| && 0 < size && 0 < m <= |AllRows(inp)| && Clean(inp, AllRows(inp)[m - 1])
    requires forall k :: 0 <= k < |rows| ==> AllRows(inp)[m - 1].next < rows[k].next
    ensures BatchesClean(From(inp, AllRows(inp)[m - 1].next), rows, size) <==> BatchesClean(inp, rows, size)
    decreases |rows|
  {
    if rows != [] {
      var t := |Take(rows, size)|;
      CleanKept(inp, m, rows[t - 1]);
      BatchesCleanKept(inp, m, rows[t..], size);
    }
  }

  lemma LaterRows(inp: Input, m: nat)
    requires inp.start <= |inp.text| && 0 < m <= |AllRows(inp)|
    ensures forall k :: 0 <= k < |AllRows(inp)[m..]| ==> AllRows(inp)[m - 1].next < AllRows(inp)[m..][k].next
  {
    AllRowsAreLines(inp);
    LinesTile(inp, AllRows(inp));
    forall k | 0 <= k < |AllRows(inp)[m..]| ensures AllRows(inp)[m - 1].next < AllRows(inp)[m..][k].next {
      RowsOrdered(inp.text, inp.start, AllRows(inp), m - 1, m + k);
    }
  }

  /** One batch and the rest. */
  lemma BatchedMore(inp: Input, size: nat)
    requires inp.start <= |inp.text| && 0 < size && AllRows(inp) != []
    ensures var first := Take(AllRows(inp), size);
      && inp.start < first[|first| - 1].next <= |inp.text|
      && Batched(inp, size) == first + Batched(From(inp, first[|first| - 1].next), size)
  {
    NextInside(inp, |Take(AllRows(inp), size)|);
  }

  lemma CleanMore(inp: Input, rows: seq<Row>, size: nat)
    requires 0 < size && rows != []
    ensures var m := |Take(rows, size)|;
      BatchesClean(inp, rows, size) <==> Clean(inp, rows[m - 1]) && BatchesClean(inp, rows[m..], size)
  {}

  lemma SameBehind(first: seq<Row>, a: seq<Row>, b: seq<Row>)
    ensures first + a == first + b <==> a == b
  {
    assert (first + a)[|first|..] == a && (first + b)[|first|..] == b;
  }

  /** The first batch is right, so the rest decides. */
  lemma BatchedRest(inp: Input, size: nat, rows: seq<Row>, m: nat, s: nat)
    requires inp.start <= |inp.text| && 0 < size && rows == AllRows(inp) && rows != []
    requires m == |Take(rows, size)| && s == rows[m - 1].next
    ensures inp.start < s <= |inp.text|
    ensures Batched(inp, size) == rows <==> Batched(From(inp, s), size) == rows[m..]
  {
    BatchedMore(inp, size);
    TakenFirst(rows, size);
    var rest := Batched(From(inp, s), size);
    assert Batched(inp, size) == rows[..m] + rest;
    SameBehind(rows[..m], rest, rows[m..]);
  }

  lemma TakenFirst(rows: seq<Row>, size: nat)
    requires rows != [] && 0 < size
    ensures var m := |Take(rows, size)|; 0 < m <= |rows| && Take(rows, size) == rows[..m] && rows == rows[..m] + rows[m..]
  {}

  /** Behind an unclean boundary the batches go wrong. */
  lemma UncleanDiffers(inp: Input, size: nat, m: nat, s: nat)
    requires inp.start <= |inp.text| && 0 < size && 0 < m <= |AllRows(inp)| && s == AllRows(inp)[m - 1].next
    requires !Clean(inp, AllRows(inp)[m - 1])
    ensures s <= |inp.text| && Batched(From(inp, s), size) != AllRows(inp)[m..]
  {
    RestartAnywhere(inp, m);
    BatchedStarts(From(inp, s), size);
  }

  /** The batches give the rows of one call if and only if every batch ends at a clean
      boundary. */
  lemma {:induction false} BatchedExactly(inp: Input, size: nat)
    requires inp.start <= |inp.text| && 0 < size
    ensures Batched(inp, size) == AllRows(inp) <==> BatchesClean(inp, AllRows(inp), size)
    decreases |inp.text| - inp.start
  {
    var rows := AllRows(inp);
    if rows != [] {
      var m := |Take(rows, size)|;
      var s := rows[m - 1].next;
      BatchedRest(inp, size, rows, m, s);
      CleanMore(inp, rows, size);
      if Clean(inp, rows[m - 1]) {
        BatchedExactly(From(inp, s), size);
        assert AllRows(From(inp, s)) == rows[m..] by { RestartExactly(inp, m); }
        assert BatchesClean(From(inp, s), rows[m..], size) <==> BatchesClean(inp, rows[m..], size) by {
          LaterRows(inp, m);
          BatchesCleanKept(inp, m, rows[m..], size);
        }
      } else {
        UncleanDiffers(inp, size, m, s);
      }
    }
  }

  lemma BatchedStarts(inp: Input, size: nat)
    requires inp.start <= |inp.text| && 0 < size && AllRows(inp) != []
    ensures Batched(inp, size) != [] && Batched(inp, size)[0] == AllRows(inp)[0]
  {}

  // ---- the text box

  /** The same cells, all moved by c. */
  ghost predicate Moved(a: Input, b: Input, c: real) {
    && a.text == b.text && a.start == b.start && a.width == b.width
    && forall i: nat :: b.left(i) == a.left(i) + c && b.right(i) == a.right(i) + c
  }

  lemma {:induction false} MovedAfter(a: Input, b: Input, c: real, i: nat)
    requires Moved(a, b, c) && a.start <= i <= |a.text|
    ensures After(a, i) == After(b, i)
    decreases i
  {
    if i > a.start {
      MovedAfter(a, b, c, i - 1);
      var d := After(a, i - 1).draft;
      if d.Draft? {
        assert b.left(d.rowStart) == a.left(d.rowStart) + c;
        assert Beyond(a, d.rowStart, i - 1) <==> Beyond(b, d.rowStart, i - 1);
      }
    }
  }

  /** Where a call's coordinates begin does not matter. */
  lemma MovedRows(a: Input, b: Input, c: real)
    requires Moved(a, b, c) && a.start <= |a.text|
    ensures AllRows(a) == AllRows(b)
  {
    MovedAfter(a, b, c, |a.text|);
  }

  /** The coordinates that the call at p yields. */
  datatype Box = Box(text: seq<nat>, left: nat -> nat -> real, right: nat -> nat -> real, width: real)

  function CallAt(box: Box, p: nat): Input { Input(box.text, p, box.left(p), box.right(p), box.width) }

  /** What nvgTextBox draws from position p on. */
  function Drawn(box: Box, p: nat): seq<Row>
    requires p <= |box.text|
    decreases |box.text| - p
  {
    var rows := Take(AllRows(CallAt(box, p)), 2);
    if rows == [] then [] else
      NextInside(CallAt(box, p), |rows|);
      rows + Drawn(box, rows[|rows| - 1].next)
  }

  /** Each call measures the same cells from its own origin. */
  ghost predicate SameCells(box: Box, origin: nat -> real) {
    forall p: nat :: Moved(From(CallAt(box, 0), p), CallAt(box, p), origin(p))
  }

  lemma {:induction false} DrawnIsBatched(box: Box, origin: nat -> real, p: nat)
    requires SameCells(box, origin) && p <= |box.text|
    ensures Drawn(box, p) == Batched(From(CallAt(box, 0), p), 2)
    decreases |box.text| - p
  {
    assert Moved(From(CallAt(box, 0), p), CallAt(box, p), origin(p));
    MovedRows(From(CallAt(box, 0), p), CallAt(box, p), origin(p));
    var rows := Take(AllRows(CallAt(box, p)), 2);
    if rows != [] {
      NextInside(CallAt(box, p), |rows|);
      DrawnIsBatched(box, origin, rows[|rows| - 1].next);
    }
  }

  /** The text box draws the rows of one call over the whole text if and only if each of its
      batches of two ends at a clean boundary. */
  lemma TextBoxExactly(box: Box, origin: nat -> real)
    requires SameCells(box, origin)
    ensures Drawn(box, 0) == AllRows(CallAt(box, 0)) <==> BatchesClean(CallAt(box, 0), AllRows(CallAt(box, 0)), 2)
  {
    DrawnIsBatched(box, origin, 0);
    BatchedExactly(CallAt(box, 0), 2);
  }

  /** What is drawn tiles the text, whatever the coordinates. */
  lemma {:induction false} DrawnTiles(box: Box, p: nat)
    requires p <= |box.text|
    ensures Tiles(box.text, p, Drawn(box, p)) && AllBlank(box.text, End(p, Drawn(box, p)), |box.text|)
    decreases |box.text| - p
  {
    var inp := CallAt(box, p);
    var rows := Take(AllRows(inp), 2);
    AllRowsAreLines(inp);
    if rows != [] {
      var s := rows[|rows| - 1].next;
      NextInside(inp, |rows|);
      LinesPrefix(inp, AllRows(inp), |rows|);
      LinesTile(inp, rows);
      DrawnTiles(box, s);
      TilesJoin(box.text, p, rows, Drawn(box, s));
    }
  }

  lemma DrawnUnfolds(box: Box, p: nat, drawn: seq<Row>)
    requires p <= |box.text|
    ensures var rows := Take(AllRows(CallAt(box, p)), 2);
      if rows == [] then drawn + Drawn(box, p) == drawn
      else p < rows[|rows| - 1].next <= |box.text| && drawn + Drawn(box, p) == (drawn + rows) + Drawn(box, rows[|rows| - 1].next)
  {
    var rows := Take(AllRows(CallAt(box, p)), 2);
    if rows != [] { NextInside(CallAt(box, p), |rows|); }
  }

  lemma ShownByBox(box: Box, drawn: seq<Row>)
    requires drawn == Drawn(box, 0)
    ensures forall k :: 0 <= k < |drawn| ==> drawn[k].start <= drawn[k].end <= |box.text|
    ensures Shown(Glyphs(box.text, drawn)) == Shown(box.text)
  {
    DrawnTiles(box, 0);
    AllShown(box.text, drawn);
  }

  /** The loop of nvgTextBox ends, and what it draws shows every visible glyph of the text
      once and in order. */
  method TextBox(box: Box) returns (drawn: seq<Row>)
    ensures drawn == Drawn(box, 0)
    ensures forall k :: 0 <= k < |drawn| ==> drawn[k].start <= drawn[k].end <= |box.text|
    ensures Shown(Glyphs(box.text, drawn)) == Shown(box.text)
  {
    drawn := [];
    var pos := 0;
    while true
      invariant pos <= |box.text| && drawn + Drawn(box, pos) == Drawn(box, 0)
      decreases |box.text| - pos
    {
      var rows := BreakLines(CallAt(box, pos), 2);
      DrawnUnfolds(box, pos, drawn);
      if |rows| == 0 { break; }
      drawn := drawn + rows;
      pos := rows[|rows| - 1].next;
    }
    ShownByBox(box, drawn);
  }

  // ---- three texts

  /** "x ab" with cells of width 1, 1, 1 and 10 in width 10: the second row is 11 wide,
      although its glyphs on their own give two rows. */
  lemma OverfullRow()
    ensures var inp := Input([120, 32, 97, 98], 0, (i: nat) => i as real, (i: nat) => if i == 3 then 13.0 else (i + 1) as real, 10.0);
      && LeftToRight(inp) && AllRows(inp) == [Row(0, 1, 2), Row(2, 4, 4)] && Overfull(inp, AllRows(inp)[1])
      && AllRows(From(inp, 2)) == [Row(2, 3, 3), Row(3, 4, 4)]
  {
    var inp := Input([120, 32, 97, 98], 0, (i: nat) => i as real, (i: nat) => if i == 3 then 13.0 else (i + 1) as real, 10.0);
    assert After(inp, 0) == State([], NoRow);
    assert After(inp, 1) == State([], Draft(0, 1, 0, 0));
    assert After(inp, 2) == State([], Draft(0, 1, 0, 1));
    assert After(inp, 3) == State([], Draft(0, 3, 2, 1));
    assert After(inp, 4) == State([Row(0, 1, 2)], Draft(2, 4, 2, 2));
    assert TooFar(inp, Row(2, 4, 4), 3);
    var again := From(inp, 2);
    assert After(again, 2) == State([], NoRow);
    assert After(again, 3) == State([], Draft(2, 3, 2, 2));
    assert After(again, 4) == State([Row(2, 3, 3)], Draft(3, 4, 3, 3));
  }

  /** "a", newline, "b", CR LF, "c": the batches tear the pair apart and draw an empty row. */
  lemma TornPair()
    ensures var inp := Input([97, 10, 98, 13, 10, 99], 0, (i: nat) => i as real, (i: nat) => (i + 1) as real, 10.0);
      && AllRows(inp) == [Row(0, 1, 2), Row(2, 3, 4), Row(5, 6, 6)]
      && Batched(inp, 2) == [Row(0, 1, 2), Row(2, 3, 4), Row(4, 4, 5), Row(5, 6, 6)]
  {
    var inp := Input([97, 10, 98, 13, 10, 99], 0, (i: nat) => i as real, (i: nat) => (i + 1) as real, 10.0);
    assert After(inp, 0) == State([], NoRow);
    assert After(inp, 1) == State([], Draft(0, 1, 0, 0));
    assert After(inp, 2) == State([Row(0, 1, 2)], NoRow);
    assert After(inp, 3) == State([Row(0, 1, 2)], Draft(2, 3, 2, 2));
    assert After(inp, 4) == State([Row(0, 1, 2), Row(2, 3, 4)], NoRow);
    assert After(inp, 5) == After(inp, 4);
    assert After(inp, 6) == State([Row(0, 1, 2), Row(2, 3, 4)], Draft(5, 6, 5, 5));
    var again := From(inp, 4);
    assert After(again, 4) == State([], NoRow);
    assert After(again, 5) == State([Row(4, 4, 5)], NoRow);
    assert After(again, 6) == State([Row(4, 4, 5)], Draft(5, 6, 5, 5));
    NothingBehindTheEnd(From(inp, 6));
    assert Batched(From(inp, 6), 2) == [];
    assert Batched(again, 2) == [Row(4, 4, 5), Row(5, 6, 6)];
  }

  const MeasuredText: Input :=
    Input([113, 10, 120, 32, 97, 98], 0, (i: nat) => i as real, (i: nat) => if i == 5 then 15.0 else (i + 1) as real, 10.0)

  lemma MeasuredOnce()
    ensures AllRows(MeasuredText) == [Row(0, 1, 2), Row(2, 3, 4), Row(4, 6, 6)]
  {
    var inp := MeasuredText;
    assert After(inp, 0) == State([], NoRow);
    assert After(inp, 1) == State([], Draft(0, 1, 0, 0));
    assert After(inp, 2) == State([Row(0, 1, 2)], NoRow);
    assert After(inp, 3) == State([Row(0, 1, 2)], Draft(2, 3, 2, 2));
    assert After(inp, 4) == State([Row(0, 1, 2)], Draft(2, 3, 2, 3));
    assert After(inp, 5) == State([Row(0, 1, 2)], Draft(2, 5, 4, 3));
    assert After(inp, 6) == State([Row(0, 1, 2), Row(2, 3, 4)], Draft(4, 6, 4, 4));
  }

  lemma MeasuredFromWord()
    ensures AllRows(From(MeasuredText, 4)) == [Row(4, 5, 5), Row(5, 6, 6)]
  {
    var again := From(MeasuredText, 4);
    assert After(again, 4) == State([], NoRow);
    assert After(again, 5) == State([], Draft(4, 5, 4, 4));
    assert After(again, 6) == State([Row(4, 5, 5)], Draft(5, 6, 5, 5));
  }

  /** "q", newline, "x ab": no pair, but the restart measures again what one call took along
      unmeasured. */
  lemma MeasuredAgain()
    ensures AllRows(MeasuredText) == [Row(0, 1, 2), Row(2, 3, 4), Row(4, 6, 6)]
    ensures Batched(MeasuredText, 2) == [Row(0, 1, 2), Row(2, 3, 4), Row(4, 5, 5), Row(5, 6, 6)]
  {
    MeasuredOnce();
    MeasuredFromWord();
    NothingBehindTheEnd(From(MeasuredText, 6));
    assert Batched(From(MeasuredText, 6), 2) == [];
    assert Batched(From(MeasuredText, 4), 2) == [Row(4, 5, 5), Row(5, 6, 6)];
  }
}
