/** The line breaker of nanovg.c.

    A text is the sequence of codepoints that the font iterator yields; glyph i occupies
    the positions [i, i + 1).  Glyph x-coordinates are arbitrary reals. */
module LineBreaker {

  datatype Kind = Space | Newline | Char | Cjk

  predicate IsBlank(cp: nat) {
    cp == 9 || cp == 11 || cp == 12 || cp == 32 || cp == 0xA0 || cp == 10 || cp == 13 || cp == 0x85
  }

  predicate IsCjk(cp: nat) {
    || 0x4E00 <= cp <= 0x9FFF || 0x3000 <= cp <= 0x30FF || 0xFF00 <= cp <= 0xFFEF
    || 0x1100 <= cp <= 0x11FF || 0x3130 <= cp <= 0x318F || 0xAC00 <= cp <= 0xD7AF
  }

  /** The two halves of a CR LF or LF CR pair. */
  predicate IsPair(previous: nat, cp: nat) { (previous == 13 && cp == 10) || (previous == 10 && cp == 13) }

  /** The type of a codepoint after codepoint `previous`; the second half of a pair counts
      as space. */
  function KindOf(cp: nat, previous: nat): (k: Kind)
    ensures k.Space? || k.Newline? <==> IsBlank(cp)
    ensures k.Newline? <==> (cp == 10 && previous != 13) || (cp == 13 && previous != 10) || cp == 0x85
    ensures k.Cjk? <==> IsCjk(cp)
  {
    if cp == 9 || cp == 11 || cp == 12 || cp == 32 || cp == 0xA0 then Space
    else if cp == 10 then if previous == 13 then Space else Newline
    else if cp == 13 then if previous == 10 then Space else Newline
    else if cp == 0x85 then Newline
    else if IsCjk(cp) then Cjk
    else Char
  }

  predicate Visible(k: Kind) { k.Char? || k.Cjk? }

  /** A call: the text from `start` on, the x-coordinates of the glyph cells as the font
      iterator of this call yields them, and the width to break at. */
  datatype Input = Input(text: seq<nat>, start: nat, left: nat -> real, right: nat -> real, width: real)

  /** The type of glyph i in this call. */
  function KindAt(inp: Input, i: nat): Kind
    requires i < |inp.text|
  {
    KindOf(inp.text[i], if i > inp.start then inp.text[i - 1] else 0)
  }

  /** The type of the glyph before i, which the loop starts out with as space. */
  function PreviousKind(inp: Input, i: nat): Kind
    requires i <= |inp.text|
  {
    if i <= inp.start then Space else KindAt(inp, i - 1)
  }

  /** A row covers glyphs [start, end); the text goes on at next. */
  datatype Row = Row(start: nat, end: nat, next: nat)

  /** The row that is being built; rowStart and rowEnd are both null in NoRow. */
  datatype Draft = NoRow | Draft(rowStart: nat, rowEnd: nat, wordStart: nat, breakEnd: nat)

  datatype State = State(rows: seq<Row>, draft: Draft)

  predicate StartsWord(kind: Kind, ptype: Kind) { (ptype.Space? && Visible(kind)) || kind.Cjk? }

  predicate EndsWord(kind: Kind, ptype: Kind) { (Visible(ptype) && kind.Space?) || kind.Cjk? }

  /** The draft with glyph i taken in. */
  function Extended(d: Draft, i: nat, kind: Kind, ptype: Kind): Draft
    requires d.Draft?
  {
    Draft(d.rowStart, if Visible(kind) then i + 1 else d.rowEnd,
          if StartsWord(kind, ptype) then i else d.wordStart, if EndsWord(kind, ptype) then i else d.breakEnd)
  }

  /** Glyph i ends beyond the width of a row that starts at `start`. */
  predicate Beyond(inp: Input, start: nat, i: nat) { inp.right(i) - inp.left(start) > inp.width }

  /** What glyph i does to rows and draft, without a limit on the rows. */
  function Step(inp: Input, i: nat, s: State): State
    requires i < |inp.text|
  {
    var kind := KindAt(inp, i);
    var d := s.draft;
    if kind.Newline? then
      State(s.rows + [if d.Draft? then Row(d.rowStart, d.rowEnd, i + 1) else Row(i, i, i + 1)], NoRow)
    else if d.NoRow? then
      if Visible(kind) then s.(draft := Draft(i, i + 1, i, i)) else s
    else
      var e := Extended(d, i, kind, PreviousKind(inp, i));
      if !Visible(kind) || !Beyond(inp, d.rowStart, i) then s.(draft := e)
      else if e.breakEnd == e.rowStart then State(s.rows + [Row(e.rowStart, i, i)], Draft(i, i + 1, i, i))
      else State(s.rows + [Row(e.rowStart, e.breakEnd, e.wordStart)], Draft(e.wordStart, i + 1, e.wordStart, e.wordStart))
  }

  /** Rows and draft when glyphs before i have been seen. */
  function After(inp: Input, i: nat): State
    requires inp.start <= i <= |inp.text|
    decreases i
  {
    if i == inp.start then State([], NoRow) else Step(inp, i - 1, After(inp, i - 1))
  }

  function Finished(inp: Input, s: State): seq<Row> {
    if s.draft.NoRow? then s.rows else s.rows + [Row(s.draft.rowStart, s.draft.rowEnd, |inp.text|)]
  }

  /** All rows of the text from inp.start on. */
  function AllRows(inp: Input): seq<Row>
    requires inp.start <= |inp.text|
  {
    Finished(inp, After(inp, |inp.text|))
  }

  function Take(rows: seq<Row>, n: nat): seq<Row> { if |rows| <= n then rows else rows[..n] }

  lemma StepEmitsOne(inp: Input, i: nat, s: State)
    requires i < |inp.text|
    ensures s.rows <= Step(inp, i, s).rows && |Step(inp, i, s).rows| <= |s.rows| + 1
  {}

  lemma {:induction false} RowsGrow(inp: Input, i: nat, j: nat)
    requires inp.start <= i <= j <= |inp.text|
    ensures After(inp, i).rows <= After(inp, j).rows
    decreases j
  {
    if i < j {
      RowsGrow(inp, i, j - 1);
      StepEmitsOne(inp, j - 1, After(inp, j - 1));
    }
  }

  /** What has been emitted stays. */
  lemma RowsKept(inp: Input, i: nat)
    requires inp.start <= i <= |inp.text|
    ensures After(inp, i).rows <= AllRows(inp)
  {
    RowsGrow(inp, i, |inp.text|);
  }

  /** A glyph inside a row: the row may break before it, or before its word. */
  method TakeGlyph(inp: Input, i: nat, rows: seq<Row>, d: Draft, kind: Kind, ptype: Kind) returns (rows': seq<Row>, d': Draft)
    requires i < |inp.text| && d.Draft? && kind == KindAt(inp, i) && !kind.Newline? && ptype == PreviousKind(inp, i)
    ensures State(rows', d') == Step(inp, i, State(rows, d)) && |rows'| <= |rows| + 1
  {
    rows' := rows;
    var rowStart, rowEnd, wordStart, breakEnd := d.rowStart, d.rowEnd, d.wordStart, d.breakEnd;
    var nextWidth := inp.right(i) - inp.left(rowStart);
    if Visible(kind) { rowEnd := i + 1; }
    if (Visible(ptype) && kind.Space?) || kind.Cjk? { breakEnd := i; }
    if (ptype.Space? && Visible(kind)) || kind.Cjk? { wordStart := i; }
    if Visible(kind) && nextWidth > inp.width {
      if breakEnd == rowStart {
        rows' := rows + [Row(rowStart, i, i)];
        rowStart, rowEnd, wordStart := i, i + 1, i;
      } else {
        rows' := rows + [Row(rowStart, breakEnd, wordStart)];
        rowStart, rowEnd := wordStart, i + 1;
      }
      breakEnd := rowStart;
    }
    d' := Draft(rowStart, rowEnd, wordStart, breakEnd);
  }

  /** One round of the loop. */
  method NextGlyph(inp: Input, i: nat, rows: seq<Row>, d: Draft, kind: Kind, ptype: Kind) returns (rows': seq<Row>, d': Draft)
    requires i < |inp.text| && kind == KindAt(inp, i) && ptype == PreviousKind(inp, i)
    ensures State(rows', d') == Step(inp, i, State(rows, d)) && |rows'| <= |rows| + 1
  {
    rows', d' := rows, d;
    if kind.Newline? {
      rows' := rows + [if d.Draft? then Row(d.rowStart, d.rowEnd, i + 1) else Row(i, i, i + 1)];
      d' := NoRow;
    } else if d.NoRow? {
      if Visible(kind) { d' := Draft(i, i + 1, i, i); }
    } else {
      rows', d' := TakeGlyph(inp, i, rows, d, kind, ptype);
    }
  }

  /** nvgTextBreakLines, for a valid font: the first maxRows of the rows of the text. */
  method BreakLines(inp: Input, maxRows: nat) returns (rows: seq<Row>)
    requires inp.start <= |inp.text|
    ensures rows == Take(AllRows(inp), maxRows)
  {
    rows := [];
    if maxRows == 0 { return; }
    var d := NoRow;
    var ptype, pcodepoint := Space, 0;
    for i := inp.start to |inp.text|
      invariant |rows| < maxRows && State(rows, d) == After(inp, i)
      invariant ptype == PreviousKind(inp, i) && pcodepoint == if i > inp.start then inp.text[i - 1] else 0
    {
      var kind := KindOf(inp.text[i], pcodepoint);
      rows, d := NextGlyph(inp, i, rows, d, kind, ptype);
      if |rows| >= maxRows {
        RowsKept(inp, i + 1);
        return;
      }
      pcodepoint, ptype := inp.text[i], kind;
    }
    if d.Draft? { rows := rows + [Row(d.rowStart, d.rowEnd, |inp.text|)]; }
  }
}
