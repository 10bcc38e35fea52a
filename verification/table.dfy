/**
 The text-table builder and renderer used to present the configuration diff:
 rows of cells with an alignment, pending separators keyed by the row they
 precede, an inferred column count and per-column maximum widths.
 */
module TextTable {

  /** Alignment of the cells of one row inside their columns. */
  datatype Alignment = Center | Left | Right

  /** A stored row: its cells as given and the alignment it was added with. */
  datatype Row = Row(cells: seq<string>, align: Alignment)

  /** A pending separator: printed just before the row whose index it carries. */
  datatype Separator = Separator(index: nat, glyph: string)

  function MaxNat(a: nat, b: nat): nat
  {
    if a >= b then a else b
  }

  // ---------------------------------------------------------------------------
  // Column geometry

  /** Number of columns: the cell count of the longest row (0 for no rows). */
  function ColumnCount(rows: seq<Row>): nat
  {
    if rows == [] then 0
    else MaxNat(ColumnCount(rows[..|rows| - 1]), |rows[|rows| - 1].cells|)
  }

  /** Width of column `n`: the longest text in column `n` over all rows, 0 if none has it. */
  function ColumnWidth(rows: seq<Row>, n: nat): nat
  {
    if rows == [] then 0
    else
      var last := rows[|rows| - 1];
      MaxNat(ColumnWidth(rows[..|rows| - 1], n), if n < |last.cells| then |last.cells[n]| else 0)
  }

  /** The width of every column, one entry per column. */
  function ColumnWidths(rows: seq<Row>): seq<nat>
  {
    seq(ColumnCount(rows), n requires 0 <= n => ColumnWidth(rows, n))
  }

  /** Every row has a cell for every column (rendering indexes them all). */
  predicate FullRows(rows: seq<Row>)
  {
    forall i :: 0 <= i < |rows| ==> ColumnCount(rows) <= |rows[i].cells|
  }

  /** Separators are recorded in call order, at row counts that never decrease. */
  predicate SeparatorsInOrder(seps: seq<Separator>, rowCount: nat)
  {
    && (forall i :: 0 <= i < |seps| ==> seps[i].index <= rowCount)
    && (forall i, j :: 0 <= i < j < |seps| ==> seps[i].index <= seps[j].index)
  }

  /** Printing the front separator keeps the rest in order. */
  lemma DropFrontInOrder(seps: seq<Separator>, rowCount: nat)
    requires SeparatorsInOrder(seps, rowCount) && seps != []
    ensures SeparatorsInOrder(seps[1..], rowCount)
  {
    assert forall i :: 0 <= i < |seps| - 1 ==> seps[1..][i] == seps[i + 1];
  }

  lemma {:induction false} ColumnCountIsMax(rows: seq<Row>)
    ensures forall i :: 0 <= i < |rows| ==> |rows[i].cells| <= ColumnCount(rows)
    ensures rows != [] ==> exists i :: 0 <= i < |rows| && |rows[i].cells| == ColumnCount(rows)
  {
    if rows != [] {
      var init := rows[..|rows| - 1];
      var last := rows[|rows| - 1];
      ColumnCountIsMax(init);
      assert forall i :: 0 <= i < |init| ==> rows[i] == init[i];
      assert ColumnCount(rows) == MaxNat(ColumnCount(init), |last.cells|);
      if ColumnCount(rows) == |last.cells| {
        assert |rows[|rows| - 1].cells| == ColumnCount(rows);
      } else {
        assert init != [] && ColumnCount(rows) == ColumnCount(init);
        var i :| 0 <= i < |init| && |init[i].cells| == ColumnCount(init);
        assert |rows[i].cells| == ColumnCount(rows);
      }
    }
  }

  lemma {:induction false} ColumnWidthIsMax(rows: seq<Row>, n: nat)
    ensures forall i :: 0 <= i < |rows| && n < |rows[i].cells| ==> |rows[i].cells[n]| <= ColumnWidth(rows, n)
    ensures ColumnWidth(rows, n) == 0
         || exists i :: 0 <= i < |rows| && n < |rows[i].cells| && |rows[i].cells[n]| == ColumnWidth(rows, n)
  {
    if rows != [] {
      var init := rows[..|rows| - 1];
      ColumnWidthIsMax(init, n);
      assert forall i :: 0 <= i < |init| ==> rows[i] == init[i];
      if ColumnWidth(init, n) != 0 && ColumnWidth(rows, n) == ColumnWidth(init, n) {
        var i :| 0 <= i < |init| && n < |init[i].cells| && |init[i].cells[n]| == ColumnWidth(init, n);
        assert rows[i] == init[i];
      }
    }
  }

  /** A column past the last one has width 0. */
  lemma {:induction false} WidthBeyondColumnCount(rows: seq<Row>, n: nat)
    requires ColumnCount(rows) <= n
    ensures ColumnWidth(rows, n) == 0
  {
    if rows != [] {
      WidthBeyondColumnCount(rows[..|rows| - 1], n);
    }
  }

  /** Rows that all have `width` cells make a table of exactly `width` full columns. */
  lemma UniformRowsAreFull(rows: seq<Row>, width: nat)
    requires rows != []
    requires forall i :: 0 <= i < |rows| ==> |rows[i].cells| == width
    ensures ColumnCount(rows) == width && FullRows(rows)
  {
    ColumnCountIsMax(rows);
  }

  // ---------------------------------------------------------------------------
  // Rendering one row

  /** `k` blanks; a count of zero or less gives the empty string. */
  function Spaces(k: int): (s: string)
    ensures |s| == if k > 0 then k else 0
    ensures Blank(s)
  {
    if k <= 0 then "" else seq(k, _ => ' ')
  }

  function Sum(ws: seq<nat>): nat
  {
    if ws == [] then 0 else Sum(ws[..|ws| - 1]) + ws[|ws| - 1]
  }

  /** Padding put before the text of a cell whose column has `slack` spare characters. */
  function LeadingPad(align: Alignment, slack: int): int
  {
    match align
    case Left => 0
    case Right => slack
    case Center => slack / 2
  }

  /** Padding put after the text; for CENTER it is the remainder of the slack. */
  function TrailingPad(align: Alignment, slack: int): int
  {
    match align
    case Left => slack
    case Right => 0
    case Center => slack - slack / 2
  }

  /** One rendered cell: margin and padding, the text, padding and margin, then a bar. */
  function CellString(text: string, width: nat, align: Alignment, margin: nat): string
  {
    var slack := width - |text|;
    Spaces(LeadingPad(align, slack) + margin) + text + Spaces(TrailingPad(align, slack) + margin) + "|"
  }

  /** No character of `s` but blanks. */
  predicate Blank(s: string)
  {
    forall i :: 0 <= i < |s| ==> s[i] == ' '
  }

  lemma CellFromIndents(text: string, width: nat, align: Alignment, margin: nat, left: int, right: int)
    requires left == LeadingPad(align, width - |text|) + margin
    requires right == TrailingPad(align, width - |text|) + margin
    ensures Spaces(left) + text + Spaces(right) + "|" == CellString(text, width, align, margin)
  {
  }

  /** The text of `c` starts at offset `at`, and every other position but the final bar is blank. */
  ghost predicate Framed(c: string, text: string, at: nat)
  {
    && at + |text| < |c|
    && c[at..at + |text|] == text
    && c[|c| - 1] == '|'
    && Blank(c[..at])
    && Blank(c[at + |text|..|c| - 1])
  }

  lemma FramedConcat(pre: string, text: string, post: string)
    requires Blank(pre) && Blank(post)
    ensures Framed(pre + text + post + "|", text, |pre|)
  {
    var c := pre + text + post + "|";
    assert c[..|pre|] == pre;
    assert c[|pre|..|pre| + |text|] == text;
    assert c[|pre| + |text|..|c| - 1] == post;
  }

  /**
   A cell that fits its column is `width + 2*margin + 1` characters wide. LEFT puts the
   whole slack after the text, RIGHT before it, CENTER puts half of it (rounded down)
   before and the rest after.
   */
  lemma CellLayout(text: string, width: nat, align: Alignment, margin: nat)
    requires |text| <= width
    ensures |CellString(text, width, align, margin)| == width + 2 * margin + 1
    ensures align == Left ==> Framed(CellString(text, width, align, margin), text, margin)
    ensures align == Right ==> Framed(CellString(text, width, align, margin), text, margin + width - |text|)
    ensures align == Center ==> Framed(CellString(text, width, align, margin), text, margin + (width - |text|) / 2)
  {
    var c := CellString(text, width, align, margin);
    var at := margin + LeadingPad(align, width - |text|);
    assert |c| == width + 2 * margin + 1 && Framed(c, text, at) by {
      CellWidth(text, width, align, margin);
      CellFramed(text, width, align, margin);
    }
    assert align == Left ==> at == margin;
    assert align == Right ==> at == margin + width - |text|;
    assert align == Center ==> at == margin + (width - |text|) / 2;
  }

  /** The text of a cell that fits starts after the margin and the leading padding. */
  lemma CellFramed(text: string, width: nat, align: Alignment, margin: nat)
    requires |text| <= width
    ensures Framed(CellString(text, width, align, margin), text, margin + LeadingPad(align, width - |text|))
  {
    var slack := width - |text|;
    PadsSplitSlack(align, slack);
    var left := LeadingPad(align, slack) + margin;
    var right := TrailingPad(align, slack) + margin;
    CellFromIndents(text, width, align, margin, left, right);
    FramedConcat(Spaces(left), text, Spaces(right));
  }

  /** The two paddings share the slack between them, neither of them negative. */
  lemma PadsSplitSlack(align: Alignment, slack: int)
    requires slack >= 0
    ensures 0 <= LeadingPad(align, slack) && 0 <= TrailingPad(align, slack)
    ensures LeadingPad(align, slack) + TrailingPad(align, slack) == slack
  {
  }

  lemma CellWidth(text: string, width: nat, align: Alignment, margin: nat)
    requires |text| <= width
    ensures |CellString(text, width, align, margin)| == width + 2 * margin + 1
  {
  }

  /** The rendered row: one cell per column, in column order. */
  function RowString(cells: seq<string>, widths: seq<nat>, align: Alignment, margin: nat): string
    requires |widths| <= |cells|
  {
    if widths == [] then ""
    else
      var k := |widths| - 1;
      RowString(cells, widths[..k], align, margin) + CellString(cells[k], widths[k], align, margin)
  }

  lemma RowStringStep(cells: seq<string>, widths: seq<nat>, align: Alignment, margin: nat, n: nat)
    requires n < |widths| <= |cells|
    ensures RowString(cells, widths[..n + 1], align, margin)
         == RowString(cells, widths[..n], align, margin) + CellString(cells[n], widths[n], align, margin)
  {
    assert widths[..n + 1][..n] == widths[..n];
  }

  /** Each cell is no longer than its column. */
  predicate CellsFit(cells: seq<string>, widths: seq<nat>)
  {
    |widths| <= |cells| && forall n :: 0 <= n < |widths| ==> |cells[n]| <= widths[n]
  }

  /** Offset in a rendered row at which the cell of column `n` starts. */
  function CellOffset(widths: seq<nat>, n: nat, margin: nat): nat
    requires n <= |widths|
  {
    Sum(widths[..n]) + n * (2 * margin + 1)
  }

  lemma MulStep(k: nat, unit: nat)
    ensures (k + 1) * unit == k * unit + unit
  {
  }

  lemma {:induction false} RowStringLength(cells: seq<string>, widths: seq<nat>, align: Alignment, margin: nat)
    requires CellsFit(cells, widths)
    ensures |RowString(cells, widths, align, margin)| == Sum(widths) + |widths| * (2 * margin + 1)
  {
    if widths != [] {
      var k := |widths| - 1;
      var init := widths[..k];
      assert CellsFit(cells, init);
      RowStringLength(cells, init, align, margin);
      CellWidth(cells[k], widths[k], align, margin);
      assert RowString(cells, widths, align, margin)
          == RowString(cells, init, align, margin) + CellString(cells[k], widths[k], align, margin);
      assert Sum(widths) == Sum(init) + widths[k];
      MulStep(k, 2 * margin + 1);
    }
  }

  lemma CellOffsetStep(widths: seq<nat>, n: nat, margin: nat)
    requires n < |widths|
    ensures CellOffset(widths, n + 1, margin) == CellOffset(widths, n, margin) + widths[n] + 2 * margin + 1
  {
    MulStep(n, 2 * margin + 1);
    assert widths[..n + 1] == widths[..n] + [widths[n]];
    assert widths[..n + 1][..n] == widths[..n];
  }

  /** The last cell of a rendered row is its suffix after the other cells. */
  lemma RowStringLastCell(cells: seq<string>, widths: seq<nat>, align: Alignment, margin: nat)
    requires CellsFit(cells, widths) && widths != []
    ensures var n := |widths| - 1;
      && CellOffset(widths, n + 1, margin) == CellOffset(widths, n, margin) + widths[n] + 2 * margin + 1
      && CellOffset(widths, n + 1, margin) == |RowString(cells, widths, align, margin)|
      && RowString(cells, widths, align, margin)[CellOffset(widths, n, margin)..]
         == CellString(cells[n], widths[n], align, margin)
  {
    var n := |widths| - 1;
    CellOffsetStep(widths, n, margin);
    var init := widths[..n];
    assert CellsFit(cells, init);
    var front := RowString(cells, init, align, margin);
    var cell := CellString(cells[n], widths[n], align, margin);
    assert RowString(cells, widths, align, margin) == front + cell;
    RowStringLength(cells, init, align, margin);
    RowStringLength(cells, widths, align, margin);
    assert (front + cell)[|front|..] == cell;
  }

  /** Rendering the first `m` columns gives a prefix of the rendered row. */
  lemma {:induction false} RowStringPrefix(cells: seq<string>, widths: seq<nat>, align: Alignment, margin: nat, m: nat)
    requires |widths| <= |cells| && m <= |widths|
    ensures RowString(cells, widths[..m], align, margin) <= RowString(cells, widths, align, margin)
    decreases |widths| - m
  {
    if m < |widths| {
      var front, cell := RowString(cells, widths[..m], align, margin), CellString(cells[m], widths[m], align, margin);
      var longer, full := RowString(cells, widths[..m + 1], align, margin), RowString(cells, widths, align, margin);
      assert longer <= full by {
        RowStringPrefix(cells, widths, align, margin, m + 1);
      }
      assert longer == front + cell by {
        RowStringStep(cells, widths, align, margin, m);
      }
      PrefixOfLonger(front, cell, full);
    } else {
      assert widths[..m] == widths;
    }
  }

  lemma PrefixOfLonger<T>(a: seq<T>, b: seq<T>, c: seq<T>)
    requires a + b <= c
    ensures a <= c
  {
    assert c[..|a|] == (a + b)[..|a|];
  }

  lemma PrefixSlice(front: string, full: string, lo: nat)
    requires front <= full && lo <= |front|
    ensures full[lo..|front|] == front[lo..]
  {
  }

  /** The cell of column `n` appears unchanged at its offset in the rendered row. */
  lemma RowStringCell(cells: seq<string>, widths: seq<nat>, align: Alignment, margin: nat, n: nat)
    requires CellsFit(cells, widths)
    requires n < |widths|
    ensures CellOffset(widths, n + 1, margin) == CellOffset(widths, n, margin) + widths[n] + 2 * margin + 1
    ensures CellOffset(widths, n + 1, margin) <= |RowString(cells, widths, align, margin)|
    ensures RowString(cells, widths, align, margin)[CellOffset(widths, n, margin)..CellOffset(widths, n + 1, margin)]
         == CellString(cells[n], widths[n], align, margin)
  {
    var upTo := widths[..n + 1];
    var front, full := RowString(cells, upTo, align, margin), RowString(cells, widths, align, margin);
    var lo, hi := CellOffset(widths, n, margin), CellOffset(widths, n + 1, margin);
    assert lo == CellOffset(upTo, n, margin) && hi == CellOffset(upTo, n + 1, margin) by {
      assert upTo[..n] == widths[..n] && upTo[..n + 1] == upTo;
    }
    assert hi == lo + widths[n] + 2 * margin + 1 && hi == |front|
        && front[lo..] == CellString(cells[n], widths[n], align, margin) by {
      assert CellsFit(cells, upTo) && upTo[n] == widths[n];
      RowStringLastCell(cells, upTo, align, margin);
    }
    assert front <= full by {
      RowStringPrefix(cells, widths, align, margin, n + 1);
    }
    PrefixSlice(front, full, lo);
  }

  // ---------------------------------------------------------------------------
  // Separators and the whole table

  /** `s` written `k` times in a row. */
  function Repeat(s: string, k: nat): (r: string)
    ensures |r| == |s| * k
  {
    if k == 0 then "" else Repeat(s, k - 1) + s
  }

  /** The separator line: the glyph repeated once per character the code computes as the table width. */
  function SeparatorLine(glyph: string, widths: seq<nat>, margin: nat): string
  {
    Repeat(glyph, SeparatorLength(widths, margin))
  }

  /** How many times the glyph is repeated: twice the margin per column plus one, plus all widths. */
  function SeparatorLength(widths: seq<nat>, margin: nat): nat
  {
    margin * 2 * (1 + |widths|) + Sum(widths)
  }

  /**
   A one-character separator glyph gives a line exactly as wide as a rendered row
   only when the table has `2 * margin` columns: it is one character shorter per
   column beyond that and longer per column below it.
   */
  lemma SeparatorVersusRowWidth(g: char, cells: seq<string>, widths: seq<nat>, align: Alignment, margin: nat)
    requires CellsFit(cells, widths)
    ensures |SeparatorLine([g], widths, margin)| - |RowString(cells, widths, align, margin)| == 2 * margin - |widths|
    ensures forall i :: 0 <= i < |SeparatorLine([g], widths, margin)| ==> SeparatorLine([g], widths, margin)[i] == g
  {
    var c := |widths|;
    var count := SeparatorLength(widths, margin);
    RepeatChar(g, count);
    assert SeparatorLine([g], widths, margin) == Repeat([g], count);
    RowStringLength(cells, widths, align, margin);
    SeparatorArithmetic(margin, c);
  }

  lemma SeparatorArithmetic(margin: nat, c: nat)
    ensures margin * 2 * (1 + c) - c * (2 * margin + 1) == 2 * margin - c
  {
    assert margin * 2 * (1 + c) == 2 * margin + 2 * margin * c;
    assert c * (2 * margin + 1) == 2 * margin * c + c;
  }

  lemma {:induction false} RepeatChar(g: char, k: nat)
    ensures |Repeat([g], k)| == k
    ensures forall i :: 0 <= i < |Repeat([g], k)| ==> Repeat([g], k)[i] == g
  {
    if k > 0 {
      RepeatChar(g, k - 1);
    }
  }

  /** Every row can be rendered with `widths`: it has a cell per column. */
  predicate RowsCover(rows: seq<Row>, widths: seq<nat>)
  {
    forall i :: 0 <= i < |rows| ==> |widths| <= |rows[i].cells|
  }

  /**
   Lines printed for the first `k` rows, and the separators still pending after them.
   Before each row only the FRONT pending separator is looked at; it is printed and
   dropped when it carries that row's index.
   */
  function RenderPrefix(rows: seq<Row>, seps: seq<Separator>, widths: seq<nat>, margin: nat, k: nat): (seq<string>, seq<Separator>)
    requires k <= |rows| && RowsCover(rows, widths)
  {
    if k == 0 then ([], seps)
    else
      var (lines, pending) := RenderPrefix(rows, seps, widths, margin, k - 1);
      var row := rows[k - 1];
      var rowLine := RowString(row.cells, widths, row.align, margin);
      if |pending| > 0 && pending[0].index == k - 1
      then (lines + [SeparatorLine(pending[0].glyph, widths, margin)] + [rowLine], pending[1..])
      else (lines + [rowLine], pending)
  }

  /** What one call of `output` prints and which separators it leaves: nothing for at most one row. */
  function Rendered(rows: seq<Row>, seps: seq<Separator>, widths: seq<nat>, margin: nat): (seq<string>, seq<Separator>)
    requires |rows| > 1 ==> RowsCover(rows, widths)
  {
    if |rows| > 1 then RenderPrefix(rows, seps, widths, margin, |rows|) else ([], seps)
  }

  /** The lines a fresh table holding `rows` and `seps` prints (margin 1). */
  function TableLines(rows: seq<Row>, seps: seq<Separator>): seq<string>
    requires UniformRows(rows)
  {
    if rows == [] then []
    else
      UniformRowsAreFull(rows, |rows[0].cells|);
      Rendered(rows, seps, ColumnWidths(rows), 1).0
  }

  /** All rows have the same number of cells. */
  predicate UniformRows(rows: seq<Row>)
  {
    forall i :: 0 <= i < |rows| ==> |rows[i].cells| == |rows[0].cells|
  }

  /** The rendered rows alone, in insertion order. */
  function RowLines(rows: seq<Row>, widths: seq<nat>, margin: nat): seq<string>
    requires RowsCover(rows, widths)
  {
    seq(|rows|, i requires 0 <= i < |rows| => RowString(rows[i].cells, widths, rows[i].align, margin))
  }

  /** Separator indices strictly increase (no two separators before the same row). */
  predicate StrictlyIncreasing(seps: seq<Separator>)
  {
    forall i, j :: 0 <= i < j < |seps| ==> seps[i].index < seps[j].index
  }

  /**
   What rendering the first `k` rows leaves: the pending separators are a suffix of
   the original ones, and there is one line per row and one per dropped separator.
   */
  predicate PrefixShaped(printed: seq<string>, pending: seq<Separator>, seps: seq<Separator>, k: nat)
  {
    && |pending| <= |seps| && pending == seps[|seps| - |pending|..]
    && |printed| == k + (|seps| - |pending|)
  }

  /** Rendering keeps every row, in order, and adds one line per separator it drops. */
  lemma {:induction false} RenderPrefixShape(rows: seq<Row>, seps: seq<Separator>, widths: seq<nat>, margin: nat, k: nat)
    requires k <= |rows| && RowsCover(rows, widths)
    ensures var r := RenderPrefix(rows, seps, widths, margin, k);
      PrefixShaped(r.0, r.1, seps, k)
  {
    if k > 0 {
      var prev := RenderPrefix(rows, seps, widths, margin, k - 1);
      var r := RenderPrefix(rows, seps, widths, margin, k);
      RenderPrefixShape(rows, seps, widths, margin, k - 1);
      if prev.1 != [] && prev.1[0].index == k - 1 {
        assert |r.0| == |prev.0| + 2 && r.1 == prev.1[1..] by {
          RenderStepWithPending(rows, seps, widths, margin, k);
        }
        ShapedDrop(prev.0, prev.1, seps, k - 1, r.0);
      } else {
        assert |r.0| == |prev.0| + 1 && r.1 == prev.1 by {
          RenderStepWithoutPending(rows, seps, widths, margin, k);
        }
        ShapedKeep(prev.0, prev.1, seps, k - 1, r.0);
      }
    }
  }

  /** Printing a separator line and a row drops the front pending separator. */
  lemma ShapedDrop(printed: seq<string>, pending: seq<Separator>, seps: seq<Separator>, k: nat, next: seq<string>)
    requires PrefixShaped(printed, pending, seps, k) && pending != [] && |next| == |printed| + 2
    ensures PrefixShaped(next, pending[1..], seps, k + 1)
  {
    assert pending[1..] == seps[|seps| - |pending| + 1..];
  }

  /** Printing a row alone keeps the pending separators. */
  lemma ShapedKeep(printed: seq<string>, pending: seq<Separator>, seps: seq<Separator>, k: nat, next: seq<string>)
    requires PrefixShaped(printed, pending, seps, k) && |next| == |printed| + 1
    ensures PrefixShaped(next, pending, seps, k + 1)
  {
  }

  /** With strictly increasing indices, nothing left pending carries the index of a rendered row. */
  lemma {:induction false} RenderPrefixPendingAhead(rows: seq<Row>, seps: seq<Separator>, widths: seq<nat>, margin: nat, k: nat)
    requires k <= |rows| && RowsCover(rows, widths) && StrictlyIncreasing(seps)
    ensures var pending := RenderPrefix(rows, seps, widths, margin, k).1;
      forall j :: 0 <= j < |pending| ==> k <= pending[j].index
  {
    if k > 0 {
      RenderPrefixPendingAhead(rows, seps, widths, margin, k - 1);
      RenderPrefixShape(rows, seps, widths, margin, k - 1);
      var pending := RenderPrefix(rows, seps, widths, margin, k - 1).1;
      if pending != [] {
        PendingIncreasing(seps, pending);
        if pending[0].index == k - 1 {
          RenderStepWithPending(rows, seps, widths, margin, k);
          forall j | 0 <= j < |pending| - 1
            ensures k <= pending[1..][j].index
          {
            assert pending[1..][j] == pending[j + 1];
          }
        } else {
          RenderStepWithoutPending(rows, seps, widths, margin, k);
        }
      } else {
        RenderStepWithoutPending(rows, seps, widths, margin, k);
      }
    }
  }

  /** A suffix of strictly increasing separators starts with its smallest index. */
  lemma PendingIncreasing(seps: seq<Separator>, pending: seq<Separator>)
    requires StrictlyIncreasing(seps) && |pending| <= |seps| && pending == seps[|seps| - |pending|..] && pending != []
    ensures forall j :: 0 < j < |pending| ==> pending[0].index < pending[j].index
  {
    var d := |seps| - |pending|;
    forall j | 0 < j < |pending|
      ensures pending[0].index < pending[j].index
    {
      assert pending[0] == seps[d] && pending[j] == seps[d + j];
    }
  }

  /** With no separator due before any of the first `k` rows, only those rows are printed. */
  lemma {:induction false} RenderWithoutDueSeparators(rows: seq<Row>, seps: seq<Separator>, widths: seq<nat>, margin: nat, k: nat)
    requires k <= |rows| && RowsCover(rows, widths)
    requires forall j :: 0 <= j < |seps| ==> |rows| <= seps[j].index
    ensures RenderPrefix(rows, seps, widths, margin, k) == (RowLines(rows, widths, margin)[..k], seps)
  {
    if k > 0 {
      RenderWithoutDueSeparators(rows, seps, widths, margin, k - 1);
      if seps != [] {
        assert k - 1 < |rows| <= seps[0].index;
      }
      RenderStepWithoutPending(rows, seps, widths, margin, k);
      TakeSnoc(RowLines(rows, widths, margin), k);
    }
  }

  /**
   When separator indices strictly increase, a second `output` prints exactly the rows,
   in order, with no separator line, and leaves the pending separators as they were.
   */
  lemma SecondOutputPrintsRowsOnly(rows: seq<Row>, seps: seq<Separator>, widths: seq<nat>, margin: nat)
    requires |rows| > 1 && RowsCover(rows, widths) && StrictlyIncreasing(seps)
    ensures var pending := Rendered(rows, seps, widths, margin).1;
      Rendered(rows, pending, widths, margin) == (RowLines(rows, widths, margin), pending)
  {
    RenderPrefixPendingAhead(rows, seps, widths, margin, |rows|);
    var pending := Rendered(rows, seps, widths, margin).1;
    assert pending == RenderPrefix(rows, seps, widths, margin, |rows|).1;
    RenderWithoutDueSeparators(rows, pending, widths, margin, |rows|);
    assert RowLines(rows, widths, margin)[..|rows|] == RowLines(rows, widths, margin);
  }

  lemma SeqAssoc<T>(a: seq<T>, b: seq<T>, c: seq<T>)
    ensures (a + b) + c == a + (b + c)
  {
  }

  lemma ExtendByOne<T>(head: seq<T>, s: seq<T>, k: nat)
    requires 1 < k <= |s|
    ensures (head + s[1..k - 1]) + [s[k - 1]] == head + s[1..k]
  {
    assert s[1..k] == s[1..k - 1] + [s[k - 1]];
  }

  /**
   A table whose first row is framed by two separators with the same glyph (as
   `add_header` on a fresh table leaves it) prints the separator line, the first
   row, the separator line again and then every other row in order, and keeps no
   pending separator.
   */
  lemma HeaderFramedRendering(rows: seq<Row>, widths: seq<nat>, margin: nat, g: string)
    requires |rows| > 1 && RowsCover(rows, widths)
    ensures var sep := SeparatorLine(g, widths, margin);
      var lines := RowLines(rows, widths, margin);
      var (printed, pending) := Rendered(rows, [Separator(0, g), Separator(1, g)], widths, margin);
      printed == [sep, lines[0], sep] + lines[1..] && pending == []
  {
    HeaderFramedPrefix(rows, widths, margin, g, |rows|);
    assert RowLines(rows, widths, margin)[1..|rows|] == RowLines(rows, widths, margin)[1..];
  }

  lemma {:induction false} HeaderFramedPrefix(rows: seq<Row>, widths: seq<nat>, margin: nat, g: string, k: nat)
    requires 2 <= k <= |rows| && RowsCover(rows, widths)
    ensures var sep := SeparatorLine(g, widths, margin);
      var lines := RowLines(rows, widths, margin);
      var r := RenderPrefix(rows, [Separator(0, g), Separator(1, g)], widths, margin, k);
      r.0 == [sep, lines[0], sep] + lines[1..k] && r.1 == []
  {
    var sep := SeparatorLine(g, widths, margin);
    var lines := RowLines(rows, widths, margin);
    if k == 2 {
      HeaderFramedTwo(rows, widths, margin, g);
      assert lines[1..2] == [lines[1]];
    } else {
      var seps := [Separator(0, g), Separator(1, g)];
      var prev := RenderPrefix(rows, seps, widths, margin, k - 1);
      assert prev.0 == [sep, lines[0], sep] + lines[1..k - 1] && prev.1 == [] by {
        HeaderFramedPrefix(rows, widths, margin, g, k - 1);
      }
      var r := RenderPrefix(rows, seps, widths, margin, k);
      assert r.0 == prev.0 + [lines[k - 1]] && r.1 == [] by {
        RenderStepWithoutPending(rows, seps, widths, margin, k);
      }
      ExtendByOne([sep, lines[0], sep], lines, k);
    }
  }

  lemma HeaderFramedTwo(rows: seq<Row>, widths: seq<nat>, margin: nat, g: string)
    requires 2 <= |rows| && RowsCover(rows, widths)
    ensures var sep := SeparatorLine(g, widths, margin);
      var lines := RowLines(rows, widths, margin);
      var r := RenderPrefix(rows, [Separator(0, g), Separator(1, g)], widths, margin, 2);
      r.0 == [sep, lines[0], sep, lines[1]] && r.1 == []
  {
    var seps := [Separator(0, g), Separator(1, g)];
    var sep := SeparatorLine(g, widths, margin);
    var lines := RowLines(rows, widths, margin);
    var r0 := RenderPrefix(rows, seps, widths, margin, 0);
    assert r0.0 == [] && r0.1 == seps;
    var r1 := RenderPrefix(rows, seps, widths, margin, 1);
    assert r1.0 == [] + [sep] + [lines[0]] && r1.1 == seps[1..];
    var r2 := RenderPrefix(rows, seps, widths, margin, 2);
    assert r2.0 == r1.0 + [sep] + [lines[1]] && r2.1 == seps[1..][1..];
  }

  /** A row before which no pending separator is due adds just its own line. */
  lemma RenderStepWithoutPending(rows: seq<Row>, seps: seq<Separator>, widths: seq<nat>, margin: nat, k: nat)
    requires 0 < k <= |rows| && RowsCover(rows, widths)
    requires var pending := RenderPrefix(rows, seps, widths, margin, k - 1).1;
      pending == [] || pending[0].index != k - 1
    ensures var prev := RenderPrefix(rows, seps, widths, margin, k - 1);
      var r := RenderPrefix(rows, seps, widths, margin, k);
      r.0 == prev.0 + [RowLines(rows, widths, margin)[k - 1]] && r.1 == prev.1
  {
  }

  /** A row before which the front pending separator is due adds that separator's line and its own. */
  lemma RenderStepWithPending(rows: seq<Row>, seps: seq<Separator>, widths: seq<nat>, margin: nat, k: nat)
    requires 0 < k <= |rows| && RowsCover(rows, widths)
    requires var pending := RenderPrefix(rows, seps, widths, margin, k - 1).1;
      pending != [] && pending[0].index == k - 1
    ensures var prev := RenderPrefix(rows, seps, widths, margin, k - 1);
      var r := RenderPrefix(rows, seps, widths, margin, k);
      && r.0 == prev.0 + [SeparatorLine(prev.1[0].glyph, widths, margin), RowLines(rows, widths, margin)[k - 1]]
      && r.1 == prev.1[1..]
  {
  }

  lemma SliceSnocFrom<T>(s: seq<T>, j: nat, k: nat)
    requires j < k <= |s|
    ensures s[j..k] == s[j..k - 1] + [s[k - 1]]
  {
  }

  lemma TakeSnoc<T>(s: seq<T>, k: nat)
    requires 0 < k <= |s|
    ensures s[..k] == s[..k - 1] + [s[k - 1]]
  {
  }

  /**
   A fresh table given a header (two `=` separators around its first row) prints
   nothing when it has no other row; otherwise the `=` line, the first row, the
   `=` line again and every other row in order, each against the widths of all rows.
   */
  lemma HeaderTableLines(rows: seq<Row>)
    requires rows != [] && UniformRows(rows) && FullRows(rows)
    ensures var lines := TableLines(rows, [Separator(0, "="), Separator(1, "=")]);
      var widths := ColumnWidths(rows);
      var sep := SeparatorLine("=", widths, 1);
      && (|rows| == 1 ==> lines == [])
      && (|rows| > 1 ==>
           && |lines| == |rows| + 2
           && lines[0] == sep && lines[2] == sep
           && lines[1] == RowString(rows[0].cells, widths, rows[0].align, 1)
           && forall i :: 1 <= i < |rows| ==> lines[i + 2] == RowString(rows[i].cells, widths, rows[i].align, 1))
  {
    if |rows| > 1 {
      var widths := ColumnWidths(rows);
      assert RowsCover(rows, widths);
      HeaderFramedRendering(rows, widths, 1, "=");
    }
  }

  /**
   Once the front pending separator carries the index of a row already printed, it
   is never printed: every later row adds just its own line, and the pending
   separators stay as they are.
   */
  lemma {:induction false} StalePendingStays(rows: seq<Row>, seps: seq<Separator>, widths: seq<nat>, margin: nat, j: nat, k: nat)
    requires j <= k <= |rows| && RowsCover(rows, widths)
    requires var pending := RenderPrefix(rows, seps, widths, margin, j).1;
      pending != [] && pending[0].index < j
    ensures var start := RenderPrefix(rows, seps, widths, margin, j);
      RenderPrefix(rows, seps, widths, margin, k) == (start.0 + RowLines(rows, widths, margin)[j..k], start.1)
  {
    if k > j {
      var start := RenderPrefix(rows, seps, widths, margin, j);
      var prev := RenderPrefix(rows, seps, widths, margin, k - 1);
      var lines := RowLines(rows, widths, margin);
      StalePendingStays(rows, seps, widths, margin, j, k - 1);
      assert prev.0 == start.0 + lines[j..k - 1] && prev.1 == start.1;
      RenderStepWithoutPending(rows, seps, widths, margin, k);
      SliceSnocFrom(lines, j, k);
      SeqAssoc(start.0, lines[j..k - 1], [lines[k - 1]]);
    } else {
      var start := RenderPrefix(rows, seps, widths, margin, j);
      assert RowLines(rows, widths, margin)[j..k] == [];
      assert start.0 + [] == start.0;
    }
  }

  /**
   When the two front pending separators carry the same index (as two `add_header`
   calls in a row leave them), the first is printed before its row, and then no
   separator is printed any more: the remaining rows print alone and every later
   separator stays pending.
   */
  lemma RepeatedIndexBlocksLaterSeparators(rows: seq<Row>, seps: seq<Separator>, widths: seq<nat>, margin: nat, k: nat)
    requires 0 < k <= |rows| && RowsCover(rows, widths)
    requires var pending := RenderPrefix(rows, seps, widths, margin, k - 1).1;
      |pending| > 1 && pending[0].index == k - 1 && pending[1].index == k - 1
    ensures var prev := RenderPrefix(rows, seps, widths, margin, k - 1);
      RenderPrefix(rows, seps, widths, margin, |rows|)
      == (prev.0 + [SeparatorLine(prev.1[0].glyph, widths, margin)] + RowLines(rows, widths, margin)[k - 1..], prev.1[1..])
  {
    var lines := RowLines(rows, widths, margin);
    var prev := RenderPrefix(rows, seps, widths, margin, k - 1);
    var sep := SeparatorLine(prev.1[0].glyph, widths, margin);
    RenderStepWithPending(rows, seps, widths, margin, k);
    StalePendingStays(rows, seps, widths, margin, k, |rows|);
    DropCons(lines, k - 1);
    RegroupTwo(prev.0, sep, lines[k - 1], lines[k..|rows|]);
  }

  lemma DropCons<T>(s: seq<T>, i: nat)
    requires i < |s|
    ensures s[i..] == [s[i]] + s[i + 1..|s|]
  {
  }

  lemma RegroupTwo<T>(a: seq<T>, x: T, y: T, rest: seq<T>)
    ensures a + [x] + ([y] + rest) == (a + [x, y]) + rest
  {
  }

  /**
   Three rows with separators at indices 0, 1, 1 and 2: the separator due before
   row 2 is never printed and stays pending.
   */
  lemma RepeatedIndexExample()
    ensures var rows := [Row([], Left), Row([], Left), Row([], Left)];
      var seps := [Separator(0, "="), Separator(1, "="), Separator(1, "="), Separator(2, "=")];
      && Rendered(rows, seps, [], 1).0 == ["==", "", "==", "", ""]
      && Rendered(rows, seps, [], 1).1 == [Separator(1, "="), Separator(2, "=")]
  {
    var rows := [Row([], Left), Row([], Left), Row([], Left)];
    var seps := [Separator(0, "="), Separator(1, "="), Separator(1, "="), Separator(2, "=")];
    var lines := RowLines(rows, [], 1);
    EmptyRowLines();
    assert lines == ["", "", ""];
    var first := RenderPrefix(rows, seps, [], 1, 1);
    assert first.0 == ["==", ""] && first.1 == seps[1..] by {
      assert RenderPrefix(rows, seps, [], 1, 0) == ([], seps);
      RenderStepWithPending(rows, seps, [], 1, 1);
    }
    RepeatedIndexBlocksLaterSeparators(rows, seps, [], 1, 2);
    assert lines[1..] == ["", ""];
    assert seps[1..][1..] == [Separator(1, "="), Separator(2, "=")];
  }

  /** With no column, a row renders empty and a `=` separator as its two margin glyphs. */
  lemma EmptyRowLines()
    ensures SeparatorLine("=", [], 1) == "==" && RowString([], [], Left, 1) == ""
  {
    assert Repeat("=", 1) == "=";
  }

  // ---------------------------------------------------------------------------
  // The table object

  class Table {
    var rows: seq<Row>
    var separators: seq<Separator>
    var columnCnt: nat
    var columnWidth: seq<nat>
    const marginWidth: nat

    /** The running column count and widths agree with the rows added so far. */
    ghost predicate Valid()
      reads this
    {
      && columnCnt == ColumnCount(rows)
      && columnWidth == ColumnWidths(rows)
      && SeparatorsInOrder(separators, |rows|)
    }

    constructor ()
      ensures Valid() && marginWidth == 1
      ensures rows == [] && separators == [] && columnCnt == 0 && columnWidth == []
    {
      rows := [];
      separators := [];
      columnCnt := 0;
      columnWidth := [];
      marginWidth := 1;
    }

    /** Records a separator to be printed before the next row added. */
    method AddSep(sep: string := "-")
      requires Valid()
      modifies this`separators
      ensures Valid()
      ensures separators == old(separators) + [Separator(|rows|, sep)]
    {
      separators := separators + [Separator(|rows|, sep)];
    }

    method AddRow(row: seq<string>, align: Alignment := Left)
      requires Valid()
      modifies this`rows, this`columnCnt, this`columnWidth
      ensures Valid()
      ensures rows == old(rows) + [Row(row, align)]
      ensures columnCnt == MaxNat(old(columnCnt), |row|) && |columnWidth| == columnCnt
      ensures forall n :: 0 <= n < |old(columnWidth)| ==> old(columnWidth)[n] <= columnWidth[n]
      ensures forall n :: 0 <= n < |row| ==> |row[n]| <= columnWidth[n]
    {
      ghost var before := rows;
      rows := rows + [Row(row, align)];
      assert rows[..|rows| - 1] == before;
      columnCnt := MaxNat(columnCnt, |row|);
      var missing := columnCnt - |columnWidth|;
      for i := 0 to missing
        invariant rows == before + [Row(row, align)] && columnCnt == MaxNat(old(columnCnt), |row|)
        invariant |columnWidth| == |old(columnWidth)| + i
        invariant forall n :: 0 <= n < |old(columnWidth)| ==> columnWidth[n] == ColumnWidth(before, n)
        invariant forall n :: |old(columnWidth)| <= n < |columnWidth| ==> columnWidth[n] == 0
      {
        columnWidth := columnWidth + [0];
      }
      forall n | |old(columnWidth)| <= n < |columnWidth|
        ensures columnWidth[n] == ColumnWidth(before, n)
      {
        WidthBeyondColumnCount(before, n);
      }
      for n := 0 to |row|
        invariant rows == before + [Row(row, align)] && columnCnt == MaxNat(old(columnCnt), |row|)
        invariant |columnWidth| == columnCnt
        invariant forall j :: 0 <= j < n ==> columnWidth[j] == ColumnWidth(rows, j)
        invariant forall j :: n <= j < columnCnt ==> columnWidth[j] == ColumnWidth(before, j)
      {
        columnWidth := columnWidth[n := MaxNat(columnWidth[n], |row[n]|)];
      }
      assert columnWidth == ColumnWidths(rows);
    }

    /** A separator of `=`, the header row (LEFT), then another separator of `=`. */
    method AddHeader(header: seq<string>)
      requires Valid()
      modifies this`rows, this`columnCnt, this`columnWidth, this`separators
      ensures Valid()
      ensures rows == old(rows) + [Row(header, Left)]
      ensures separators == old(separators) + [Separator(|old(rows)|, "="), Separator(|old(rows)| + 1, "=")]
    {
      AddSep("=");
      AddRow(header);
      AddSep("=");
    }

    /** Adds every row of `newRows`, in order, LEFT-aligned. */
    method Extend(newRows: seq<seq<string>>)
      requires Valid()
      modifies this`rows, this`columnCnt, this`columnWidth
      ensures Valid()
      ensures rows == old(rows) + LeftRows(newRows)
      ensures separators == old(separators)
    {
      for i := 0 to |newRows|
        invariant Valid()
        invariant rows == old(rows) + LeftRows(newRows[..i])
        invariant separators == old(separators)
      {
        AddRow(newRows[i]);
        assert LeftRows(newRows[..i + 1]) == LeftRows(newRows[..i]) + [Row(newRows[i], Left)];
      }
      assert newRows[..|newRows|] == newRows;
    }

    /** Renders `row` against the current column widths. */
    method GetRowStr(row: Row) returns (rowStr: string)
      requires |columnWidth| == columnCnt <= |row.cells|
      ensures rowStr == RowString(row.cells, columnWidth, row.align, marginWidth)
    {
      var cells, align, widths, margin := row.cells, row.align, columnWidth, marginWidth;
      rowStr := "";
      for n := 0 to columnCnt
        invariant rowStr == RowString(cells, widths[..n], align, margin)
      {
        var width := widths[n];
        var spaceLen := width - |cells[n]|;
        var indentLeft := 0;
        var indentRight := 0;
        if align == Left {
          indentRight := indentRight + spaceLen;
        } else if align == Right {
          indentLeft := indentLeft + spaceLen;
        } else {
          indentLeft := indentLeft + spaceLen / 2;
          indentRight := indentRight + width - |cells[n]| - indentLeft;
        }
        indentLeft := indentLeft + margin;
        indentRight := indentRight + margin;
        var cell := Spaces(indentLeft) + cells[n] + Spaces(indentRight) + "|";
        CellFromIndents(cells[n], width, align, margin, indentLeft, indentRight);
        RowStringStep(cells, widths, align, margin, n);
        rowStr := rowStr + cell;
      }
      assert widths[..columnCnt] == widths;
    }

    /**
     Prints nothing for at most one row. Otherwise prints every row in order, each
     preceded by the front pending separator when that carries the row's index,
     which is then dropped.
     */
    method Output() returns (lines: seq<string>)
      requires Valid()
      requires |rows| > 1 ==> FullRows(rows)
      modifies this`separators
      ensures Valid()
      ensures (lines, separators) == Rendered(rows, old(separators), columnWidth, marginWidth)
    {
      lines := [];
      if |rows| > 1 {
        assert RowsCover(rows, columnWidth);
        for n := 0 to |rows|
          invariant SeparatorsInOrder(separators, |rows|)
          invariant (lines, separators) == RenderPrefix(rows, old(separators), columnWidth, marginWidth, n)
        {
          ghost var pending, printed := separators, lines;
          ghost var rowLine := RowString(rows[n].cells, columnWidth, rows[n].align, marginWidth);
          ghost var next := RenderPrefix(rows, old(separators), columnWidth, marginWidth, n + 1);
          if |separators| > 0 && separators[0].index == n {
            assert next == (printed + [SeparatorLine(pending[0].glyph, columnWidth, marginWidth), rowLine], pending[1..]) by {
              RenderStepWithPending(rows, old(separators), columnWidth, marginWidth, n + 1);
              assert RowLines(rows, columnWidth, marginWidth)[n] == rowLine;
            }
            var sepStr := Repeat(separators[0].glyph, SeparatorLength(columnWidth, marginWidth));
            assert sepStr == SeparatorLine(pending[0].glyph, columnWidth, marginWidth);
            lines := lines + [sepStr];
            separators := separators[1..];
            DropFrontInOrder(pending, |rows|);
          } else {
            assert next == (printed + [rowLine], pending) by {
              RenderStepWithoutPending(rows, old(separators), columnWidth, marginWidth, n + 1);
              assert RowLines(rows, columnWidth, marginWidth)[n] == rowLine;
            }
          }
          var rowStr := GetRowStr(rows[n]);
          lines := lines + [rowStr];
        }
      }
    }
  }

  /** Plain cell lists added with the default alignment. */
  lemma LeftRowsCons(first: seq<string>, rest: seq<seq<string>>)
    ensures LeftRows([first] + rest) == [Row(first, Left)] + LeftRows(rest)
  {
  }

  function LeftRows(cells: seq<seq<string>>): seq<Row>
  {
    seq(|cells|, i requires 0 <= i < |cells| => Row(cells[i], Left))
  }
}
