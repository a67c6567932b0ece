/** What the rows of the line breaker are: where they lie, why they end, and exactly when
    one is wider than the width. */
module LineRows {
  import opened LineBreaker

  predicate AllBlank(text: seq<nat>, a: int, b: int) {
    forall i :: a <= i < b && 0 <= i < |text| ==> IsBlank(text[i])
  }

  /** Glyphs [a, b) belong to one word: no blank, and a CJK glyph at most at the beginning. */
  predicate OneWord(text: seq<nat>, a: int, b: int) {
    && (forall i :: a <= i < b && 0 <= i < |text| ==> !IsBlank(text[i]))
    && (forall i :: a < i < b && 0 <= i < |text| ==> !IsCjk(text[i]))
  }

  predicate NoNewline(inp: Input, a: int, b: int) {
    forall i :: a <= i < b && 0 <= i < |inp.text| ==> !KindAt(inp, i).Newline?
  }

  /** r is a row of the text after position `from`: only blanks are left out, and the
      text goes on strictly later. */
  predicate RowOk(text: seq<nat>, from: nat, r: Row) {
    && from <= r.start <= r.end <= r.next <= |text| && from < r.next
    && AllBlank(text, from, r.start) && AllBlank(text, r.end, r.next)
  }

  /** Glyph c breaks row r: it is the first glyph from r.next on that would make the row
      too wide, and belongs to the word that begins at r.next. */
  predicate Trigger(inp: Input, r: Row, c: nat) {
    && r.next <= c < |inp.text| && OneWord(inp.text, r.next, c + 1) && Beyond(inp, r.start, c)
    && forall j :: r.next <= j < c ==> !Beyond(inp, r.start, j)
  }

  /** The row ends at a newline. */
  predicate Newlined(inp: Input, r: Row) { r.end < r.next <= |inp.text| && KindAt(inp, r.next - 1).Newline? }

  /** The row ends at a newline, at the end of the text, or because the next word does
      not fit; and no newline is passed over. */
  ghost predicate EndsRightly(inp: Input, from: nat, r: Row) {
    || (Newlined(inp, r) && NoNewline(inp, from, r.next - 1))
    || (NoNewline(inp, from, r.next) && (r.next == |inp.text| || exists c :: Trigger(inp, r, c)))
  }

  /** Glyph cells do not go backwards. */
  predicate LeftToRight(inp: Input) {
    forall j, k :: 0 <= j < k < |inp.text| ==> inp.left(j) <= inp.left(k) && inp.right(j) <= inp.right(k)
  }

  predicate Within(inp: Input, start: nat, j: nat) { j >= |inp.text| || IsBlank(inp.text[j]) || !Beyond(inp, start, j) }

  /** The visible glyphs behind glyph c fit, and if cells go left to right, those
      between the first and c as well. */
  predicate Measured(inp: Input, start: nat, end: nat, c: nat) {
    && (forall j :: c < j < end ==> Within(inp, start, j))
    && (LeftToRight(inp) ==> forall j :: start < j < c && j < end ==> Within(inp, start, j))
  }

  predicate BrokenBefore(inp: Input, rows: seq<Row>) { rows != [] && !Newlined(inp, rows[|rows| - 1]) }

  /** Glyph c opens a row at `start` behind the rows: it broke the row before, or it is the
      first glyph. */
  predicate Opening(inp: Input, rows: seq<Row>, start: nat, c: nat) {
    if BrokenBefore(inp, rows) then rows[|rows| - 1].next == start && Trigger(inp, rows[|rows| - 1], c) else c == start
  }

  ghost predicate RowMeasured(inp: Input, before: seq<Row>, r: Row) {
    if BrokenBefore(inp, before) then exists c: nat :: Opening(inp, before, r.start, c) && c < r.end && Measured(inp, r.start, r.end, c)
    else Measured(inp, r.start, r.end, r.start)
  }

  /** Where the text goes on after the rows. */
  function End(start: nat, rows: seq<Row>): nat {
    if rows == [] then start else rows[|rows| - 1].next
  }

  ghost predicate Line(inp: Input, before: seq<Row>, r: Row) {
    && RowOk(inp.text, End(inp.start, before), r) && EndsRightly(inp, End(inp.start, before), r)
    && RowMeasured(inp, before, r) && (r.start < r.end || Newlined(inp, r))
  }

  /** What a call promises about its rows. */
  ghost predicate Lines(inp: Input, rows: seq<Row>) {
    rows == [] || (Lines(inp, rows[..|rows| - 1]) && Line(inp, rows[..|rows| - 1], rows[|rows| - 1]))
  }

  lemma LinesMore(inp: Input, rows: seq<Row>, r: Row)
    requires Lines(inp, rows) && Line(inp, rows, r)
    ensures Lines(inp, rows + [r]) && End(inp.start, rows + [r]) == r.next
  {
    assert (rows + [r])[..|rows|] == rows;
  }

  lemma {:induction false} LinesPrefix(inp: Input, rows: seq<Row>, n: nat)
    requires Lines(inp, rows) && n <= |rows|
    ensures Lines(inp, rows[..n])
    decreases |rows|
  {
    if n == |rows| {
      assert rows[..n] == rows;
    } else {
      LinesPrefix(inp, rows[..|rows| - 1], n);
      assert rows[..|rows| - 1][..n] == rows[..n];
    }
  }

  lemma LineAt(inp: Input, rows: seq<Row>, j: nat)
    requires Lines(inp, rows) && j < |rows|
    ensures Line(inp, rows[..j], rows[j])
  {
    LinesPrefix(inp, rows, j + 1);
    assert rows[..j + 1][..j] == rows[..j];
  }

  // ---- the row being built

  /** Between the last break and the word after it there are only blanks. */
  predicate Building(inp: Input, from: nat, i: nat, d: Draft) {
    && d.Draft? && from <= d.rowStart < d.rowEnd <= i <= |inp.text| && d.rowStart <= d.wordStart < i
    && AllBlank(inp.text, from, d.rowStart) && AllBlank(inp.text, d.rowEnd, i)
    && NoNewline(inp, from, i)
    && (d.breakEnd == d.rowStart ||
        (d.rowStart < d.breakEnd <= i && AllBlank(inp.text, d.breakEnd, if IsBlank(inp.text[i - 1]) then i else d.wordStart)
         && (IsBlank(inp.text[i - 1]) || d.breakEnd <= d.wordStart)))
    && (!IsBlank(inp.text[i - 1]) ==> OneWord(inp.text, d.wordStart, i))
  }

  /** Glyph c opened the draft, and lies before its last break, if there is one. */
  predicate Opened(inp: Input, rows: seq<Row>, i: nat, d: Draft, c: nat) {
    && d.Draft? && d.rowStart <= c < i <= |inp.text| && !IsBlank(inp.text[c])
    && (d.breakEnd == d.rowStart || c < d.breakEnd)
    && Opening(inp, rows, d.rowStart, c) && Measured(inp, d.rowStart, i, c)
  }

  /** What the loop knows before glyph i. */
  ghost predicate Underway(inp: Input, i: nat, s: State, c: nat) {
    && inp.start <= i <= |inp.text| && Lines(inp, s.rows) && End(inp.start, s.rows) <= i
    && (if s.draft.NoRow? then
          AllBlank(inp.text, End(inp.start, s.rows), i) && NoNewline(inp, End(inp.start, s.rows), i) && !BrokenBefore(inp, s.rows)
        else Building(inp, End(inp.start, s.rows), i, s.draft) && Opened(inp, s.rows, i, s.draft, c))
  }

  /** In a draft no newline was seen, so the kind of the glyph before tells blank from visible. */
  lemma PreviousVisible(inp: Input, from: nat, i: nat, d: Draft)
    requires i < |inp.text| && inp.start <= from && Building(inp, from, i, d)
    ensures !PreviousKind(inp, i).Newline? && (Visible(PreviousKind(inp, i)) <==> !IsBlank(inp.text[i - 1]))
  {}

  lemma Extend(inp: Input, from: nat, i: nat, d: Draft)
    requires i < |inp.text| && inp.start <= from && Building(inp, from, i, d) && !KindAt(inp, i).Newline?
    ensures Building(inp, from, i + 1, Extended(d, i, KindAt(inp, i), PreviousKind(inp, i)))
  {
    PreviousVisible(inp, from, i, d);
  }

  lemma ExtendOpened(inp: Input, rows: seq<Row>, i: nat, d: Draft, c: nat, kind: Kind, ptype: Kind)
    requires i < |inp.text| && Opened(inp, rows, i, d, c)
    ensures Opened(inp, rows, i, Extended(d, i, kind, ptype), c)
    ensures Within(inp, d.rowStart, i) ==> Opened(inp, rows, i + 1, Extended(d, i, kind, ptype), c)
  {}

  /** A row that a draft makes is measured as the draft was. */
  lemma DraftMeasured(inp: Input, rows: seq<Row>, i: nat, d: Draft, c: nat, end: nat, next: nat)
    requires Opened(inp, rows, i, d, c) && c < end <= i
    ensures RowMeasured(inp, rows, Row(d.rowStart, end, next))
  {
    assert Measured(inp, d.rowStart, end, c);
  }

  lemma Fresh(inp: Input, rows: seq<Row>, from: nat, i: nat)
    requires from <= i < |inp.text| && !IsBlank(inp.text[i]) && AllBlank(inp.text, from, i) && NoNewline(inp, from, i)
    requires Opening(inp, rows, i, i)
    ensures Building(inp, from, i + 1, Draft(i, i + 1, i, i)) && Opened(inp, rows, i + 1, Draft(i, i + 1, i, i), i)
  {}

  /** The row breaks before glyph i. */
  lemma BreakHere(inp: Input, rows: seq<Row>, i: nat, e: Draft, c: nat)
    requires i < |inp.text| && inp.start <= End(inp.start, rows) && Building(inp, End(inp.start, rows), i + 1, e) && Opened(inp, rows, i, e, c)
    requires !IsBlank(inp.text[i]) && Beyond(inp, e.rowStart, i)
    ensures var r := Row(e.rowStart, i, i); Line(inp, rows, r) && Trigger(inp, r, i) && !Newlined(inp, r)
  {
    var r := Row(e.rowStart, i, i);
    assert Trigger(inp, r, i);
    DraftMeasured(inp, rows, i, e, c, i, i);
  }

  /** The row breaks behind the last word, and glyph i goes on with its word. */
  lemma BreakAtWord(inp: Input, rows: seq<Row>, i: nat, e: Draft, c: nat)
    requires i < |inp.text| && Building(inp, End(inp.start, rows), i + 1, e) && Opened(inp, rows, i, e, c) && e.breakEnd != e.rowStart
    requires !IsBlank(inp.text[i]) && Beyond(inp, e.rowStart, i)
    ensures var r := Row(e.rowStart, e.breakEnd, e.wordStart);
      Line(inp, rows, r) && Trigger(inp, r, i) && !Newlined(inp, r)
  {
    var r := Row(e.rowStart, e.breakEnd, e.wordStart);
    forall j | r.next <= j < i ensures !Beyond(inp, r.start, j) { assert Within(inp, e.rowStart, j); }
    assert Trigger(inp, r, i);
    DraftMeasured(inp, rows, i, e, c, e.breakEnd, e.wordStart);
  }

  lemma WordGoesOn(inp: Input, rows: seq<Row>, i: nat, e: Draft)
    requires i < |inp.text| && Building(inp, End(inp.start, rows), i + 1, e) && !IsBlank(inp.text[i])
    requires e.rowStart <= e.wordStart && Trigger(inp, Row(e.rowStart, e.breakEnd, e.wordStart), i) && !Newlined(inp, Row(e.rowStart, e.breakEnd, e.wordStart))
    ensures var s, rows' := e.wordStart, rows + [Row(e.rowStart, e.breakEnd, e.wordStart)];
      && Building(inp, s, i + 1, Draft(s, i + 1, s, s)) && Opened(inp, rows', i + 1, Draft(s, i + 1, s, s), i)
  {
    var s := e.wordStart;
    if LeftToRight(inp) {
      forall j | s < j < i ensures Within(inp, s, j) {
        assert !Beyond(inp, e.rowStart, j);
        assert inp.left(e.rowStart) <= inp.left(s);
      }
    }
  }

  // ---- the loop, step by step

  lemma NewlineLine(inp: Input, i: nat, s: State, c: nat)
    requires i < |inp.text| && Underway(inp, i, s, c) && KindAt(inp, i).Newline? && s.draft.Draft?
    ensures Line(inp, s.rows, Row(s.draft.rowStart, s.draft.rowEnd, i + 1))
  {
    assert c < s.draft.rowEnd;
    DraftMeasured(inp, s.rows, i, s.draft, c, s.draft.rowEnd, i + 1);
  }

  lemma StepNewline(inp: Input, i: nat, s: State, c: nat)
    requires i < |inp.text| && Underway(inp, i, s, c) && KindAt(inp, i).Newline?
    ensures Underway(inp, i + 1, Step(inp, i, s), c)
  {
    var d := s.draft;
    if d.Draft? {
      NewlineLine(inp, i, s, c);
      LinesMore(inp, s.rows, Row(d.rowStart, d.rowEnd, i + 1));
    } else {
      EmptyLine(inp, i, s, c);
      LinesMore(inp, s.rows, Row(i, i, i + 1));
    }
  }

  lemma EmptyLine(inp: Input, i: nat, s: State, c: nat)
    requires i < |inp.text| && Underway(inp, i, s, c) && KindAt(inp, i).Newline? && s.draft.NoRow?
    ensures Line(inp, s.rows, Row(i, i, i + 1))
  {}

  lemma StepNoRow(inp: Input, i: nat, s: State, c: nat) returns (c': nat)
    requires i < |inp.text| && Underway(inp, i, s, c) && s.draft.NoRow? && !KindAt(inp, i).Newline?
    ensures Underway(inp, i + 1, Step(inp, i, s), c')
  {
    c' := i;
    if Visible(KindAt(inp, i)) { Fresh(inp, s.rows, End(inp.start, s.rows), i); }
  }

  lemma EndAfterStart(inp: Input, rows: seq<Row>)
    requires Lines(inp, rows)
    ensures inp.start <= End(inp.start, rows)
    decreases |rows|
  {
    if rows != [] { EndAfterStart(inp, rows[..|rows| - 1]); }
  }

  lemma StepDraft(inp: Input, i: nat, s: State, c: nat) returns (c': nat)
    requires i < |inp.text| && Underway(inp, i, s, c) && s.draft.Draft? && !KindAt(inp, i).Newline?
    ensures Underway(inp, i + 1, Step(inp, i, s), c')
  {
    var d, from, kind, ptype := s.draft, End(inp.start, s.rows), KindAt(inp, i), PreviousKind(inp, i);
    EndAfterStart(inp, s.rows);
    Extend(inp, from, i, d);
    ExtendOpened(inp, s.rows, i, d, c, kind, ptype);
    var e := Extended(d, i, kind, ptype);
    if !Visible(kind) || !Beyond(inp, d.rowStart, i) {
      c' := c;
    } else {
      c' := i;
      if e.breakEnd == e.rowStart {
        BreakHere(inp, s.rows, i, e, c);
        LinesMore(inp, s.rows, Row(e.rowStart, i, i));
        Fresh(inp, s.rows + [Row(e.rowStart, i, i)], i, i);
      } else {
        BreakAtWord(inp, s.rows, i, e, c);
        LinesMore(inp, s.rows, Row(e.rowStart, e.breakEnd, e.wordStart));
        WordGoesOn(inp, s.rows, i, e);
      }
    }
  }

  lemma {:induction false} AfterUnderway(inp: Input, i: nat) returns (c: nat)
    requires inp.start <= i <= |inp.text|
    ensures Underway(inp, i, After(inp, i), c)
    decreases i
  {
    if i == inp.start {
      c := 0;
    } else {
      var s := After(inp, i - 1);
      c := AfterUnderway(inp, i - 1);
      if KindAt(inp, i - 1).Newline? { StepNewline(inp, i - 1, s, c); }
      else if s.draft.NoRow? { c := StepNoRow(inp, i - 1, s, c); }
      else { c := StepDraft(inp, i - 1, s, c); }
    }
  }

  /** The rows of a call follow each other, leave out only blanks, end where they must, and
      behind the last of them nothing is left to show. */
  lemma AllRowsAreLines(inp: Input)
    requires inp.start <= |inp.text|
    ensures Lines(inp, AllRows(inp))
    ensures var end := End(inp.start, AllRows(inp)); AllBlank(inp.text, end, |inp.text|) && NoNewline(inp, end, |inp.text|)
  {
    var n := |inp.text|;
    var s := After(inp, n);
    var c := AfterUnderway(inp, n);
    if s.draft.Draft? {
      DraftMeasured(inp, s.rows, n, s.draft, c, s.draft.rowEnd, n);
      LinesMore(inp, s.rows, Row(s.draft.rowStart, s.draft.rowEnd, n));
    }
  }

  // ---- exactly when a row is too wide

  /** Some visible glyph behind the first of the row ends beyond the width. */
  ghost predicate Overfull(inp: Input, r: Row) {
    exists k: nat :: TooFar(inp, r, k)
  }

  predicate TooFar(inp: Input, r: Row, k: nat) {
    r.start < k < r.end && k < |inp.text| && !IsBlank(inp.text[k]) && Beyond(inp, r.start, k)
  }

  /** Row r was broken by glyph k inside the next word, and the word up to k, which the next
      row takes along unmeasured, is itself too wide. */
  predicate CarriesTooMuch(inp: Input, r: Row, k: nat) {
    !Newlined(inp, r) && Trigger(inp, r, k) && r.next < k && Beyond(inp, r.next, k)
  }

  lemma TriggerUnique(inp: Input, r: Row, a: nat, b: nat)
    requires Trigger(inp, r, a) && Trigger(inp, r, b)
    ensures a == b
  {}

  ghost predicate BreaksTooMuch(inp: Input, r: Row) {
    exists k: nat :: CarriesTooMuch(inp, r, k)
  }

  /** A row that no break opened is measured throughout. */
  lemma MeasuredThroughout(inp: Input, before: seq<Row>, r: Row, k: nat)
    requires RowMeasured(inp, before, r) && !BrokenBefore(inp, before)
    ensures !TooFar(inp, r, k)
  {
    assert r.start < k < r.end ==> Within(inp, r.start, k);
  }

  /** A row that a break opened is measured but for the glyph that broke. */
  lemma MeasuredBut(inp: Input, before: seq<Row>, r: Row, k: nat)
    requires RowMeasured(inp, before, r) && BrokenBefore(inp, before) && LeftToRight(inp)
    ensures r.start == before[|before| - 1].next
    ensures TooFar(inp, r, k) <==> CarriesTooMuch(inp, before[|before| - 1], k)
  {
    var prev := before[|before| - 1];
    var c: nat :| Opening(inp, before, r.start, c) && c < r.end && Measured(inp, r.start, r.end, c);
    if k == c {
      assert TooFar(inp, r, k) <==> CarriesTooMuch(inp, prev, k);
    } else {
      assert r.start < k < r.end ==> Within(inp, r.start, k);
      if Trigger(inp, prev, k) { TriggerUnique(inp, prev, c, k); }
    }
  }

  /** A glyph of a row ends beyond the width if and only if the row was opened by a word
      break, the glyph triggered that break, and the word up to it is too wide. */
  lemma TooFarExactly(inp: Input, rows: seq<Row>, j: nat, k: nat)
    requires Lines(inp, rows) && LeftToRight(inp) && j < |rows|
    ensures TooFar(inp, rows[j], k) <==> j > 0 && CarriesTooMuch(inp, rows[j - 1], k)
  {
    LineAt(inp, rows, j);
    if BrokenBefore(inp, rows[..j]) {
      MeasuredBut(inp, rows[..j], rows[j], k);
    } else {
      MeasuredThroughout(inp, rows[..j], rows[j], k);
    }
  }

  /** It is then the last visible glyph of its row. */
  lemma TooFarIsLast(inp: Input, rows: seq<Row>, j: nat, k: nat, l: nat)
    requires Lines(inp, rows) && LeftToRight(inp) && j < |rows| && TooFar(inp, rows[j], k) && k < l < rows[j].end && l < |inp.text|
    ensures IsBlank(inp.text[l])
  {
    if !IsBlank(inp.text[l]) {
      assert TooFar(inp, rows[j], l);
      TooFarExactly(inp, rows, j, k);
      TooFarExactly(inp, rows, j, l);
      TriggerUnique(inp, rows[j - 1], k, l);
    }
  }

  /** A row is too wide if and only if the row before it was broken by a glyph whose word
      is too wide up to that glyph: a condition on the text and the row before. */
  lemma OverfullExactly(inp: Input, rows: seq<Row>, j: nat)
    requires Lines(inp, rows) && LeftToRight(inp) && j < |rows|
    ensures Overfull(inp, rows[j]) <==> j > 0 && BreaksTooMuch(inp, rows[j - 1])
  {
    if Overfull(inp, rows[j]) {
      var k: nat :| TooFar(inp, rows[j], k);
      TooFarExactly(inp, rows, j, k);
    }
    if j > 0 && BreaksTooMuch(inp, rows[j - 1]) {
      var k: nat :| CarriesTooMuch(inp, rows[j - 1], k);
      TooFarExactly(inp, rows, j, k);
    }
  }

  /** Every word is no wider than the width.  A word is a run without blanks; a CJK glyph
      begins one. */
  predicate WordsFit(inp: Input) {
    forall a, k :: 0 <= a <= k < |inp.text| && OneWord(inp.text, a, k + 1) ==> !Beyond(inp, a, k)
  }

  /** Then every row fits, first and last glyph included. */
  lemma WordsFitRowsFit(inp: Input, rows: seq<Row>, j: nat, k: nat)
    requires Lines(inp, rows) && LeftToRight(inp) && WordsFit(inp) && j < |rows|
    requires rows[j].start <= k < rows[j].end && k < |inp.text| && !IsBlank(inp.text[k])
    ensures !Beyond(inp, rows[j].start, k)
  {
    LineAt(inp, rows, j);
    if k == rows[j].start {
      assert OneWord(inp.text, k, k + 1);
    } else {
      TooFarExactly(inp, rows, j, k);
    }
  }

  /** A row that is exactly as wide as the width is not broken: "ab" in width 2. */
  lemma ExactFit()
    ensures AllRows(Input([97, 98], 0, (i: nat) => i as real, (i: nat) => (i + 1) as real, 2.0)) == [Row(0, 2, 2)]
  {
    var inp := Input([97, 98], 0, (i: nat) => i as real, (i: nat) => (i + 1) as real, 2.0);
    assert After(inp, 0) == State([], NoRow);
    assert After(inp, 1) == State([], Draft(0, 1, 0, 0));
    assert After(inp, 2) == State([], Draft(0, 2, 0, 0));
  }

  // ---- what the rows amount to

  /** The rows follow each other from start on. */
  predicate Tiles(text: seq<nat>, start: nat, rows: seq<Row>) {
    rows == [] ||
    (Tiles(text, start, rows[..|rows| - 1]) && RowOk(text, End(start, rows[..|rows| - 1]), rows[|rows| - 1]))
  }

  lemma TilesMore(text: seq<nat>, start: nat, rows: seq<Row>, r: Row)
    requires Tiles(text, start, rows) && RowOk(text, End(start, rows), r)
    ensures Tiles(text, start, rows + [r]) && End(start, rows + [r]) == r.next
  {
    assert (rows + [r])[..|rows|] == rows;
  }

  lemma {:induction false} TilesJoin(text: seq<nat>, start: nat, a: seq<Row>, b: seq<Row>)
    requires Tiles(text, start, a) && Tiles(text, End(start, a), b)
    ensures Tiles(text, start, a + b) && End(start, a + b) == End(End(start, a), b)
    decreases |b|
  {
    if b == [] {
      assert a + b == a;
    } else {
      var c := b[..|b| - 1];
      TilesJoin(text, start, a, c);
      TilesMore(text, start, a + c, b[|b| - 1]);
      assert a + b == (a + c) + [b[|b| - 1]];
    }
  }

  lemma {:induction false} LinesTile(inp: Input, rows: seq<Row>)
    requires Lines(inp, rows)
    ensures Tiles(inp.text, inp.start, rows)
    decreases |rows|
  {
    if rows != [] { LinesTile(inp, rows[..|rows| - 1]); }
  }

  predicate InRow(r: Row, i: int) { r.start <= i < r.end }

  lemma {:induction false} TilesPrefix(text: seq<nat>, start: nat, rows: seq<Row>, n: nat)
    requires Tiles(text, start, rows) && n <= |rows|
    ensures Tiles(text, start, rows[..n]) && End(start, rows[..n]) <= End(start, rows)
    decreases |rows|
  {
    if n == |rows| {
      assert rows[..n] == rows;
    } else {
      TilesPrefix(text, start, rows[..|rows| - 1], n);
      assert rows[..|rows| - 1][..n] == rows[..n];
    }
  }

  /** Rows are ordered and disjoint, and each makes the text go on strictly later. */
  lemma RowsOrdered(text: seq<nat>, start: nat, rows: seq<Row>, a: nat, b: nat)
    requires Tiles(text, start, rows) && a < b < |rows|
    ensures rows[a].start <= rows[a].end <= rows[a].next <= rows[b].start <= rows[b].end
    ensures rows[a].next < rows[b].next
  {
    TilesPrefix(text, start, rows, b + 1);
    var upto := rows[..b + 1];
    assert upto[..b] == rows[..b];
    TilesPrefix(text, start, rows[..b], a + 1);
    assert rows[..b][..a + 1] == rows[..a + 1];
    assert rows[..a + 1][..a] == rows[..a];
  }

  /** Every visible glyph before the last `next` is in a row. */
  lemma {:induction false} VisibleInSomeRow(text: seq<nat>, start: nat, rows: seq<Row>, i: nat)
    requires Tiles(text, start, rows) && start <= i < End(start, rows) && i < |text| && !IsBlank(text[i])
    ensures exists k :: 0 <= k < |rows| && InRow(rows[k], i)
    decreases |rows|
  {
    var n := |rows| - 1;
    if i >= End(start, rows[..n]) {
      assert InRow(rows[n], i);
    } else {
      VisibleInSomeRow(text, start, rows[..n], i);
      var k :| 0 <= k < n && InRow(rows[..n][k], i);
      assert InRow(rows[k], i);
    }
  }

  /** ... and in only one. */
  lemma VisibleInOneRow(text: seq<nat>, start: nat, rows: seq<Row>, i: nat, a: nat, b: nat)
    requires Tiles(text, start, rows) && a < |rows| && b < |rows| && InRow(rows[a], i) && InRow(rows[b], i)
    ensures a == b
  {
    if a < b { RowsOrdered(text, start, rows, a, b); }
    if b < a { RowsOrdered(text, start, rows, b, a); }
  }

  /** The glyphs of the rows, in the order in which they are drawn. */
  function Glyphs(text: seq<nat>, rows: seq<Row>): seq<nat>
    requires forall k :: 0 <= k < |rows| ==> rows[k].start <= rows[k].end <= |text|
  {
    if rows == [] then [] else
      var n := |rows| - 1;
      Glyphs(text, rows[..n]) + text[rows[n].start..rows[n].end]
  }

  /** The visible glyphs of a text. */
  function Shown(text: seq<nat>): seq<nat> {
    if text == [] then [] else
      var rest := Shown(text[..|text| - 1]);
      if IsBlank(text[|text| - 1]) then rest else rest + [text[|text| - 1]]
  }

  lemma {:induction false} ShownJoin(a: seq<nat>, b: seq<nat>)
    ensures Shown(a + b) == Shown(a) + Shown(b)
    decreases |b|
  {
    if b == [] {
      assert a + b == a;
    } else {
      assert (a + b)[..|a + b| - 1] == a + b[..|b| - 1];
      ShownJoin(a, b[..|b| - 1]);
    }
  }

  lemma {:induction false} ShownBlank(text: seq<nat>, a: nat, b: nat)
    requires a <= b <= |text| && AllBlank(text, a, b)
    ensures Shown(text[a..b]) == []
    decreases b
  {
    if a < b {
      assert text[a..b][..b - a - 1] == text[a..b - 1];
      ShownBlank(text, a, b - 1);
    }
  }

  lemma {:induction false} TilesBounds(text: seq<nat>, start: nat, rows: seq<Row>)
    requires Tiles(text, start, rows)
    ensures forall k :: 0 <= k < |rows| ==> rows[k].start <= rows[k].end <= |text|
    ensures start <= End(start, rows) && (start <= |text| ==> End(start, rows) <= |text|)
    decreases |rows|
  {
    if rows != [] {
      var n := |rows| - 1;
      TilesBounds(text, start, rows[..n]);
      forall k | 0 <= k < |rows| ensures rows[k].start <= rows[k].end <= |text| {
        if k < n { assert rows[..n][k] == rows[k]; }
      }
    }
  }

  /** Between from and next the row shows all that the text has to show. */
  lemma ShownByRow(text: seq<nat>, from: nat, r: Row)
    requires RowOk(text, from, r)
    ensures Shown(text[from..r.next]) == Shown(text[r.start..r.end])
  {
    ShownBlank(text, from, r.start);
    ShownBlank(text, r.end, r.next);
    assert text[from..r.end] == text[from..r.start] + text[r.start..r.end];
    assert text[from..r.next] == text[from..r.end] + text[r.end..r.next];
    ShownJoin(text[from..r.start], text[r.start..r.end]);
    ShownJoin(text[from..r.end], text[r.end..r.next]);
  }

  /** The rows show every visible glyph once and in order. */
  lemma {:induction false} RowsShowAll(text: seq<nat>, start: nat, rows: seq<Row>)
    requires Tiles(text, start, rows) && start <= |text|
    ensures forall k :: 0 <= k < |rows| ==> rows[k].start <= rows[k].end <= |text|
    ensures start <= End(start, rows) <= |text| && Shown(Glyphs(text, rows)) == Shown(text[start..End(start, rows)])
    decreases |rows|
  {
    TilesBounds(text, start, rows);
    if rows == [] {
      assert text[start..start] == [];
    } else {
      var n := |rows| - 1;
      var r, from := rows[n], End(start, rows[..n]);
      RowsShowAll(text, start, rows[..n]);
      ShownByRow(text, from, r);
      ShownParts(text, start, from, r.next);
      ShownJoin(Glyphs(text, rows[..n]), text[r.start..r.end]);
    }
  }

  lemma {:induction false} ShownParts(text: seq<nat>, a: nat, b: nat, c: nat)
    requires a <= b <= c <= |text|
    ensures Shown(text[a..c]) == Shown(text[a..b]) + Shown(text[b..c])
  {
    assert text[a..c] == text[a..b] + text[b..c];
    ShownJoin(text[a..b], text[b..c]);
  }

  lemma {:induction false} ShownSplit(text: seq<nat>, n: nat)
    requires n <= |text|
    ensures Shown(text) == Shown(text[0..n]) + Shown(text[n..|text|])
  {
    assert text[0..n] + text[n..|text|] == text;
    ShownJoin(text[0..n], text[n..|text|]);
  }

  lemma AllShown(text: seq<nat>, rows: seq<Row>)
    requires Tiles(text, 0, rows) && AllBlank(text, End(0, rows), |text|)
    ensures forall k :: 0 <= k < |rows| ==> rows[k].start <= rows[k].end <= |text|
    ensures Shown(Glyphs(text, rows)) == Shown(text)
  {
    RowsShowAll(text, 0, rows);
    var end := End(0, rows);
    ShownBlank(text, end, |text|);
    ShownSplit(text, end);
  }

  /** `next` strictly advances. */
  lemma NextAdvances(text: seq<nat>, start: nat, rows: seq<Row>)
    requires Tiles(text, start, rows) && rows != []
    ensures start < End(start, rows) <= |text|
  {
    TilesBounds(text, start, rows[..|rows| - 1]);
  }
}
