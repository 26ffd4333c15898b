/** The incremental frame push (src/tui/screen.go). */
module Screen {
  import opened Mail

  type Style = int

  const PLAIN: Style := 0
  const ESC := '\U{1b}'
  const DEL := '\U{7f}'

  /** A screen cell: a glyph, or the right half of the wide glyph before it. */
  datatype Cell = Glyph(rune: char, style: Style) | Cover

  /** Parsed frame text: a rune under the style in force. */
  datatype Run = Run(rune: char, style: Style)

  /** What the terminal libraries decide: a rune's columns and an SGR parameter list's effect. */
  datatype Term = Term(columns: char -> nat, apply: (Style, string) -> Style)

  // ---- Parsing a frame row ----

  function FirstM(row: string): (j: nat)
    ensures j <= |row| && (j < |row| ==> row[j] == 'm') && forall k :: 0 <= k < j ==> row[k] != 'm'
  {
    if row == "" then 0 else if row[0] == 'm' then 0 else 1 + FirstM(row[1..])
  }

  /** The runs from position i on, and the style the row ends in. */
  function Parse(t: Term, row: string, i: nat, style: Style): (r: (seq<Run>, Style))
    requires i <= |row|
    decreases |row| - i
  {
    if i == |row| then ([], style)
    else if row[i] != ESC then
      var rest := Parse(t, row, i + 1, style);
      ([Run(row[i], style)] + rest.0, rest.1)
    else if i + 1 == |row| || row[i + 1] != '[' then Parse(t, row, i + 1, style)
    else
      var j := FirstM(row[i..]);
      if i + j == |row| || j < 2 then ([], style)
      else Parse(t, row, i + j + 1, t.apply(style, row[i + 2..i + j]))
  }

  /** Text between escapes is one run a rune, in the style in force. */
  lemma {:induction false} ParsePlain(t: Term, row: string, i: nat, e: nat, style: Style)
    requires i <= e <= |row| && forall k :: i <= k < e ==> row[k] != '\U{1b}'
    ensures Parse(t, row, i, style) ==
              (seq(e - i, k requires 0 <= k < e - i => Run(row[i + k], style)) + Parse(t, row, e, style).0, Parse(t, row, e, style).1)
    decreases e - i
  {
    var rest := Parse(t, row, e, style).0;
    var own := seq(e - i, k requires 0 <= k < e - i => Run(row[i + k], style));
    if i < e {
      ParsePlain(t, row, i + 1, e, style);
      var more := seq(e - (i + 1), k requires 0 <= k < e - (i + 1) => Run(row[i + 1 + k], style));
      assert own == [Run(row[i], style)] + more;
      Emit(Run(row[i], style), more, rest);
    } else {
      assert own == [] && [] + rest == rest;
    }
  }

  lemma Emit(x: Run, a: seq<Run>, b: seq<Run>)
    ensures ([x] + a) + b == [x] + (a + b)
  {
  }

  method ParseSGR(t: Term, row: string, base: Style) returns (out: seq<Run>, style: Style)
    ensures out == Parse(t, row, 0, base).0 && style == Parse(t, row, 0, base).1
  {
    out, style := [], base;
    var i := 0;
    while i < |row|
      invariant i <= |row|
      invariant out + Parse(t, row, i, style).0 == Parse(t, row, 0, base).0
      invariant Parse(t, row, i, style).1 == Parse(t, row, 0, base).1
      decreases |row| - i
    {
      if row[i] != ESC {
        ghost var rest := Parse(t, row, i + 1, style).0;
        assert out + ([Run(row[i], style)] + rest) == (out + [Run(row[i], style)]) + rest;
        out := out + [Run(row[i], style)];
        i := i + 1;
        continue;
      }
      if i + 1 >= |row| || row[i + 1] != '[' {
        i := i + 1;
        continue;
      }
      var j := FirstM(row[i..]);
      MPastBracket(row, i);
      if i + j == |row| {
        return;
      }
      style := t.apply(style, row[i + 2..i + j]);
      i := i + j + 1;
    }
  }

  lemma MPastBracket(row: string, i: nat)
    requires i + 1 < |row| && row[i] == ESC && row[i + 1] == '['
    ensures FirstM(row[i..]) >= 2
  {
    assert row[i..][1..] == row[i + 1..];
    assert row[i..][0] == ESC && row[i + 1..][0] == '[';
  }

  // ---- Laying a row into cells ----

  predicate Printable(c: char) {
    c >= ' ' && c != DEL
  }

  /** A wide glyph covers the cells behind it. */
  function Put(cells: seq<Cell>, x: nat, run: Run, columns: nat): (r: seq<Cell>)
    requires x < |cells|
    ensures |r| == |cells| && forall k :: 0 <= k < |cells| && (k < x || (k > x && k >= x + columns)) ==> r[k] == cells[k]
  {
    seq(|cells|, k requires 0 <= k < |cells| => if k == x then Glyph(run.rune, run.style) else if x < k < x + columns then Cover else cells[k])
  }

  function Padded(cells: seq<Cell>, x: nat, style: Style): (r: seq<Cell>)
    ensures |r| == |cells|
  {
    seq(|cells|, k requires 0 <= k < |cells| => if k >= x then Glyph(' ', style) else cells[k])
  }

  /** The row's cells after writing the runs from column x over what was there. A control
      character takes a column and writes nothing. */
  function Laid(t: Term, cells: seq<Cell>, runs: seq<Run>, x: nat, end: Style): (r: seq<Cell>)
    ensures |r| == |cells|
    decreases |runs|
  {
    if runs == [] || x >= |cells| then Padded(cells, x, end)
    else if Printable(runs[0].rune) then Laid(t, Put(cells, x, runs[0], t.columns(runs[0].rune)), runs[1..], x + t.columns(runs[0].rune), end)
    else Laid(t, cells, runs[1..], x + 1, end)
  }

  function Painted(t: Term, cells: seq<Cell>, row: string): (r: seq<Cell>)
    ensures |r| == |cells|
  {
    var parsed := Parse(t, row, 0, PLAIN);
    Laid(t, cells, parsed.0, 0, parsed.1)
  }

  function Blank(w: nat): (r: seq<Cell>)
    ensures |r| == w
  {
    seq(w, _ => Glyph(' ', PLAIN))
  }

  /** What a row looks like on a blank screen. */
  function Canvas(t: Term, row: string, w: nat): (r: seq<Cell>)
    ensures |r| == w
  {
    Painted(t, Blank(w), row)
  }

  /** Column k is stepped over by a control character while no rune writes it (`touched`: the
      current column already holds a zero-width rune). */
  predicate Skips(t: Term, runs: seq<Run>, x: nat, touched: bool, w: nat, k: nat)
    ensures Skips(t, runs, x, touched, w, k) ==> x <= k < w && (touched ==> x < k)
    decreases |runs|
  {
    runs != [] && x < w &&
    if Printable(runs[0].rune)
    then Skips(t, runs[1..], x + t.columns(runs[0].rune), t.columns(runs[0].rune) == 0, w, k)
    else (k == x && !touched) || Skips(t, runs[1..], x + 1, false, w, k)
  }

  /** Column k of a row that is w wide is left as it was. */
  predicate Skipped(t: Term, row: string, w: nat, k: nat) {
    Skips(t, Parse(t, row, 0, PLAIN).0, 0, false, w, k)
  }

  ghost predicate Whole(t: Term, row: string, w: nat) {
    forall k: nat :: k < w ==> !Skipped(t, row, w, k)
  }

  /** One column of two rows laid with the same runs: skipped it keeps its cell, otherwise it is
      the same over both. */
  lemma {:induction false} LaidAt(t: Term, a: seq<Cell>, b: seq<Cell>, runs: seq<Run>, x: nat, touched: bool, end: Style, k: nat)
    requires |a| == |b| && k < |a| && (k < x || (k == x && touched) ==> a[k] == b[k])
    ensures Skips(t, runs, x, touched, |a|, k) ==> Laid(t, a, runs, x, end)[k] == a[k]
    ensures !Skips(t, runs, x, touched, |a|, k) ==> Laid(t, a, runs, x, end)[k] == Laid(t, b, runs, x, end)[k]
    decreases |runs|
  {
    if runs != [] && x < |a| {
      var n := t.columns(runs[0].rune);
      if Printable(runs[0].rune) {
        LaidAt(t, Put(a, x, runs[0], n), Put(b, x, runs[0], n), runs[1..], x + n, n == 0, end, k);
      } else if k == x && !touched {
        LaidKeeps(t, a, runs[1..], x + 1, end, k);
      } else {
        LaidAt(t, a, b, runs[1..], x + 1, false, end, k);
      }
    }
  }

  /** Columns before x are final. */
  lemma {:induction false} LaidKeeps(t: Term, cells: seq<Cell>, runs: seq<Run>, x: nat, end: Style, k: nat)
    requires k < |cells| && k < x
    ensures Laid(t, cells, runs, x, end)[k] == cells[k]
    decreases |runs|
  {
    if runs != [] && x < |cells| {
      var n := t.columns(runs[0].rune);
      if Printable(runs[0].rune) {
        LaidKeeps(t, Put(cells, x, runs[0], n), runs[1..], x + n, end, k);
      } else {
        LaidKeeps(t, cells, runs[1..], x + 1, end, k);
      }
    }
  }

  /** Where the k-th run starts: behind the cells of the runs before it; a control character takes one. */
  function ColumnOf(t: Term, runs: seq<Run>, k: nat): nat
    requires k <= |runs|
  {
    if k == 0 then 0
    else ColumnOf(t, runs, k - 1) + if runs[k - 1].rune >= ' ' && runs[k - 1].rune != '\U{7f}' then t.columns(runs[k - 1].rune) else 1
  }

  lemma {:induction false} ColumnShift(t: Term, runs: seq<Run>, k: nat)
    requires 0 < k <= |runs|
    ensures ColumnOf(t, runs, k) == ColumnOf(t, runs, 1) + ColumnOf(t, runs[1..], k - 1)
  {
    if k > 1 {
      ColumnShift(t, runs, k - 1);
    }
  }

  /** Every run with a width shows its rune in its style at its column, its further columns covered;
      behind the last one the row is blank in the style it ends in. */
  lemma {:induction false} LaidShows(t: Term, cells: seq<Cell>, runs: seq<Run>, x: nat, end: Style, k: nat, at: nat)
    requires k <= |runs| && at < |cells| && x + ColumnOf(t, runs, k) <= at
    requires k < |runs| ==>
               && runs[k].rune >= ' ' && runs[k].rune != '\U{7f}'
               && at < x + ColumnOf(t, runs, k) + t.columns(runs[k].rune)
    ensures Laid(t, cells, runs, x, end)[at] ==
              if k == |runs| then Glyph(' ', end)
              else if at == x + ColumnOf(t, runs, k) then Glyph(runs[k].rune, runs[k].style) else Cover
    decreases k
  {
    if k > 0 {
      ColumnShift(t, runs, k);
      var n := t.columns(runs[0].rune);
      if Printable(runs[0].rune) {
        LaidShows(t, Put(cells, x, runs[0], n), runs[1..], x + n, end, k - 1, at);
      } else {
        LaidShows(t, cells, runs[1..], x + 1, end, k - 1, at);
      }
    } else if runs != [] {
      var n := t.columns(runs[0].rune);
      LaidKeeps(t, Put(cells, x, runs[0], n), runs[1..], x + n, end, at);
    }
  }

  /** Painting a row, column by column: a skipped column keeps its old cell, every other one
      shows what the row shows on a blank screen. */
  lemma PaintedAt(t: Term, cells: seq<Cell>, row: string, k: nat)
    requires k < |cells|
    ensures Painted(t, cells, row)[k] ==
              if Skipped(t, row, |cells|, k) then cells[k] else Canvas(t, row, |cells|)[k]
  {
    var parsed := Parse(t, row, 0, PLAIN);
    LaidAt(t, cells, Blank(|cells|), parsed.0, 0, false, parsed.1, k);
  }

  /** A repaint shows the row whatever was on screen exactly when no control character skips a
      column: otherwise the skipped cell keeps its old content. */
  lemma PaintedWhole(t: Term, row: string, w: nat)
    ensures Whole(t, row, w) <==>
              forall a: seq<Cell>, b: seq<Cell> :: |a| == |b| == w ==> Painted(t, a, row) == Painted(t, b, row)
  {
    if Whole(t, row, w) {
      forall a: seq<Cell>, b: seq<Cell> | |a| == |b| == w ensures Painted(t, a, row) == Painted(t, b, row) {
        forall k: nat | k < w ensures Painted(t, a, row)[k] == Painted(t, b, row)[k] {
          PaintedAt(t, a, row, k);
          PaintedAt(t, b, row, k);
        }
      }
    } else {
      var k: nat :| k < w && Skipped(t, row, w, k);
      var a, b := seq(w, _ => Cover), Blank(w);
      PaintedAt(t, a, row, k);
      PaintedAt(t, b, row, k);
      assert Painted(t, a, row)[k] != Painted(t, b, row)[k];
    }
  }

  // ---- The push ----

  function RowAt(frame: seq<string>, y: nat): string {
    if y < |frame| then frame[y] else ""
  }

  /** The push finds row y as it left it: it has not changed and nothing cleared it. */
  predicate Held(last: Option<Pushed>, cleared: Option<set<int>>, y: nat, row: string) {
    last.Some? && y < |last.value.rows| && last.value.rows[y] == row && !(cleared.Some? && y in cleared.value)
  }

  /** Every column shows the row, apart from the ones it skips. */
  predicate Shows(t: Term, cells: seq<Cell>, row: string, w: nat) {
    |cells| == w && forall k: nat :: k < w && !Skipped(t, row, w, k) ==> cells[k] == Canvas(t, row, w)[k]
  }

  datatype Pushed = Pushed(frame: seq<string>, rows: seq<string>, cursor: Option<(nat, nat)>)

  /** A screen of fixed size, the cells on it, and what the last push remembers. */
  class Display {
    const t: Term
    const w: nat
    const h: nat
    var grid: seq<seq<Cell>>
    var cursor: Option<(nat, nat)>
    var last: Option<Pushed>
    var cleared: Option<set<int>>

    ghost predicate Sized()
      reads this
    {
      |grid| == h && forall y :: 0 <= y < h ==> |grid[y]| == w
    }

    /** Every remembered row is on screen, except the ones cleared out of band. */
    ghost predicate Valid()
      reads this
    {
      && Sized()
      && (last.Some? ==>
            && |last.value.rows| == h && cursor == last.value.cursor
            && (forall y :: 0 <= y < h ==> last.value.rows[y] == RowAt(last.value.frame, y))
            && (forall y :: 0 <= y < h && !(cleared.Some? && y in cleared.value) ==> Shows(t, grid[y], last.value.rows[y], w)))
    }

    constructor (t: Term, grid: seq<seq<Cell>>, w: nat)
      requires forall y :: 0 <= y < |grid| ==> |grid[y]| == w
      ensures Valid() && last == None && cleared == None && this.t == t && this.w == w && this.h == |grid| && this.grid == grid
    {
      this.t, this.w, this.h, this.grid := t, w, |grid|, grid;
      cursor, last, cleared := None, None, None;
    }

    /** An image clear erases rows behind the push's back, to whatever the terminal leaves, and
        records them. */
    method ClearRows(y: int, n: int, left: seq<seq<Cell>>)
      requires Valid() && |left| == h && forall k :: 0 <= k < h ==> |left[k]| == w
      requires forall k :: 0 <= k < h && !(y <= k < y + n) ==> left[k] == grid[k]
      modifies `grid, `cleared
      ensures Valid() && grid == left
      ensures forall k :: y <= k < y + n ==> cleared.Some? && k in cleared.value
    {
      grid := left;
      MarkRowsCleared(y, n);
    }

    method MarkRowsCleared(y: int, n: int)
      modifies `cleared
      ensures n < 1 ==> cleared == old(cleared)
      ensures n >= 1 ==> cleared.Some?
      ensures n >= 1 ==> forall k :: k in cleared.value <==> y <= k < y + n || (old(cleared).Some? && k in old(cleared).value)
    {
      if n < 1 {
        return;
      }
      var rows := if cleared.Some? then cleared.value else {};
      ghost var was := rows;
      for k := y to y + n
        invariant forall j :: j in rows <==> y <= j < k || j in was
      {
        rows := rows + {k};
      }
      cleared := Some(rows);
    }

    /** A suspend wipes the screen; on resume the push must forget what it showed. */
    method Resume(left: seq<seq<Cell>>)
      requires Valid() && |left| == h && forall k :: 0 <= k < h ==> |left[k]| == w
      modifies `grid, `last, `cleared
      ensures Valid() && grid == left && last == None && cleared == None
    {
      grid, last, cleared := left, None, None;
    }

    /** Writes the runs cell by cell, then pads with the row's final style. */
    static method PaintRow(t: Term, cells: seq<Cell>, row: string) returns (out: seq<Cell>)
      ensures out == Painted(t, cells, row)
    {
      var runs, end := ParseSGR(t, row, PLAIN);
      out := cells;
      var x: nat, k: nat := 0, 0;
      while k < |runs| && x < |out|
        invariant k <= |runs| && |out| == |cells|
        invariant Laid(t, out, runs[k..], x, end) == Laid(t, cells, runs, 0, end)
      {
        assert runs[k..][0] == runs[k] && runs[k..][1..] == runs[k + 1..];
        if Printable(runs[k].rune) {
          out := Put(out, x, runs[k], t.columns(runs[k].rune));
          x := x + t.columns(runs[k].rune);
        } else {
          x := x + 1;
        }
        k := k + 1;
      }
      ghost var laid := out;
      ghost var from: nat := x;
      while x < |out|
        invariant |out| == |cells| && from <= x
        invariant forall j :: 0 <= j < |out| ==> out[j] == if from <= j < x then Glyph(' ', end) else laid[j]
      {
        out := out[x := Glyph(' ', end)];
        x := x + 1;
      }
      assert out == Padded(laid, from, end);
    }

    /** One frame. Whatever was passed over, every row of the screen shows that frame's row in
        every column the row does not skip; a row is painted over its old cells exactly when the
        push does not find it as it left it. */
    method PushFrame(frame: seq<string>, cursorAt: Option<(nat, nat)>)
      requires Valid()
      modifies `grid, `cursor, `last, `cleared
      ensures Valid() && cursor == cursorAt && cleared == None
      ensures last.Some? && last.value.frame == frame
      ensures forall y :: 0 <= y < h ==> Shows(t, grid[y], RowAt(frame, y), w)
      ensures forall y :: 0 <= y < h ==>
                grid[y] == if Held(old(last), old(cleared), y, RowAt(frame, y)) then old(grid)[y] else Painted(t, old(grid)[y], RowAt(frame, y))
    {
      if last.Some? && cleared == None && last.value.frame == frame && last.value.cursor == cursorAt {
        return;
      }
      var rows := if last.Some? then last.value.rows else [];
      var seen := last.Some?;
      for y := 0 to h
        invariant Sized() && last == old(last) && cleared == old(cleared)
        invariant if seen then |rows| == h else |rows| == y
        invariant forall k :: 0 <= k < y ==> rows[k] == RowAt(frame, k) && Shows(t, grid[k], rows[k], w)
        invariant forall k :: 0 <= k < y ==>
                    grid[k] == if Held(last, cleared, k, RowAt(frame, k)) then old(grid)[k] else Painted(t, old(grid)[k], RowAt(frame, k))
        invariant forall k :: y <= k < h ==> grid[k] == old(grid)[k]
        invariant seen ==> forall k :: y <= k < h ==> rows[k] == last.value.rows[k]
      {
        var row := RowAt(frame, y);
        if seen && rows[y] == row && !(cleared.Some? && y in cleared.value) {
          continue;
        }
        var cells := PaintRow(t, grid[y], row);
        PaintedShows(t, grid[y], row);
        grid := grid[y := cells];
        rows := if y < |rows| then rows[y := row] else rows + [row];
      }
      last := Some(Pushed(frame, rows, cursorAt));
      cleared := None;
      cursor := cursorAt;
    }
  }

  lemma PaintedShows(t: Term, cells: seq<Cell>, row: string)
    ensures Shows(t, Painted(t, cells, row), row, |cells|)
  {
    forall k: nat | k < |cells| && !Skipped(t, row, |cells|, k) ensures Painted(t, cells, row)[k] == Canvas(t, row, |cells|)[k] {
      PaintedAt(t, cells, row, k);
    }
  }

  lemma LoneRune(t: Term, row: string)
    requires |row| == 1 && row[0] != ESC
    ensures Parse(t, row, 0, PLAIN) == ([Run(row[0], PLAIN)], PLAIN)
  {
    assert Parse(t, row, 1, PLAIN) == ([], PLAIN);
    assert [Run(row[0], PLAIN)] + [] == [Run(row[0], PLAIN)];
  }

  lemma LetterPaints(t: Term, cells: seq<Cell>)
    requires |cells| == 1 && t.columns('a') == 1
    ensures Painted(t, cells, "a") == [Glyph('a', PLAIN)]
  {
    var runs := [Run('a', PLAIN)];
    LoneRune(t, "a");
    var put := Put(cells, 0, runs[0], 1);
    assert runs[1..] == [] && Laid(t, put, [], 1, PLAIN) == Padded(put, 1, PLAIN);
    assert Padded(put, 1, PLAIN)[0] == Glyph('a', PLAIN);
  }

  lemma TabSkips(t: Term, cells: seq<Cell>)
    requires |cells| == 1
    ensures Skipped(t, "\t", 1, 0) && Painted(t, cells, "\t") == cells
  {
    LoneRune(t, "\t");
    assert Skips(t, [Run('\t', PLAIN)], 0, false, 1, 0);
    PaintedAt(t, cells, "\t", 0);
  }

  /** A row that is a lone control character, pushed over a row holding a letter: the letter
      stays on screen, though the frame shows nothing there. */
  method PushOverSkip(t: Term, grid: seq<seq<Cell>>) returns (d: Display)
    requires |grid| == 1 && |grid[0]| == 1 && t.columns('a') == 1
    ensures d.Valid() && d.t == t && d.last.Some? && d.last.value.frame == ["\t"]
    ensures d.grid == [[Glyph('a', PLAIN)]] && Canvas(t, "\t", 1) == Blank(1)
  {
    d := new Display(t, grid, 1);
    d.PushFrame(["a"], None);
    LetterPaints(t, grid[0]);
    d.PushFrame(["\t"], None);
    TabSkips(t, [Glyph('a', PLAIN)]);
    TabSkips(t, Blank(1));
  }
}
