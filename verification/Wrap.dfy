/** Word wrap of streamed text (wrapText in src/tui/pager.go). */
module Wrap {
  /** Display width of a rune in cells. A blank separator is one cell by the code's own count. */
  type Metric = char -> nat

  predicate IsBlank(c: char) {
    c == ' ' || c == '\t'
  }

  function Width(cw: Metric, s: string): nat {
    if s == "" then 0
    else Width(cw, s[..|s| - 1]) + (if s[|s| - 1] == ' ' then 1 else cw(s[|s| - 1]))
  }

  function Last<T>(s: seq<T>): T
    requires s != []
  {
    s[|s| - 1]
  }

  function Init<T>(s: seq<T>): seq<T>
    requires s != []
  {
    s[..|s| - 1]
  }

  predicate IsWord(w: string) {
    w != "" && forall k :: 0 <= k < |w| ==> !IsBlank(w[k])
  }

  predicate AreWords(ws: seq<string>) {
    forall i :: 0 <= i < |ws| ==> IsWord(ws[i])
  }

  /** The blank-separated words of a line (strings.Fields, for space and tab). */
  function Words(s: string): (ws: seq<string>)
    ensures AreWords(ws)
    ensures s != "" && !IsBlank(Last(s)) ==> ws != []
  {
    if s == "" then []
    else if IsBlank(Last(s)) then Words(Init(s))
    else if |s| == 1 || IsBlank(s[|s| - 2]) then Words(Init(s)) + [[Last(s)]]
    else
      var ws := Words(Init(s));
      Init(ws) + [Last(ws) + [Last(s)]]
  }

  /** The runes of w that fit in width cells: everything before the first overflowing rune. */
  function FitFrom(cw: Metric, w: string, width: int, k: nat, used: nat): nat
    requires k <= |w|
    ensures k <= FitFrom(cw, w, width, k, used) <= |w|
    decreases |w| - k
  {
    if k == |w| || used + Width(cw, [w[k]]) > width then k
    else FitFrom(cw, w, width, k + 1, used + Width(cw, [w[k]]))
  }

  /** One hard-break piece: as many runes as fit, and at least one. */
  function Piece(cw: Metric, w: string, width: int): nat
    requires w != ""
    ensures 0 < Piece(cw, w, width) <= |w|
  {
    var k := FitFrom(cw, w, width, 0, 0);
    if k == 0 then 1 else k
  }

  /** Rows closed so far and the row being filled. */
  datatype Layout = Layout(rows: seq<string>, row: string)

  function Flushed(l: Layout): seq<string> {
    if l.row == "" then l.rows else l.rows + [l.row]
  }

  /** Hard-breaks an over-wide word behind closed rows. */
  function Broken(cw: Metric, rows: seq<string>, w: string, width: int): Layout
    decreases |w|
  {
    if w != "" && Width(cw, w) > width then
      var k := Piece(cw, w, width);
      Broken(cw, rows + [w[..k]], w[k..], width)
    else Layout(rows, w)
  }

  function Place(cw: Metric, l: Layout, w: string, width: int): Layout {
    if Width(cw, w) > width then Broken(cw, Flushed(l), w, width)
    else if Width(cw, l.row) == 0 then Layout(l.rows, l.row + w)
    else if Width(cw, l.row) + 1 + Width(cw, w) > width then Layout(l.rows + [l.row], w)
    else Layout(l.rows, l.row + " " + w)
  }

  function Filled(cw: Metric, words: seq<string>, width: int): Layout {
    if words == [] then Layout([], "")
    else Place(cw, Filled(cw, Init(words), width), Last(words), width)
  }

  function Edged(head: string, rows: seq<string>, tail: string): seq<string>
    requires rows != []
  {
    var r := rows[0 := head + rows[0]];
    r[|r| - 1 := Last(r) + tail]
  }

  function Head(s: string): string {
    if s != "" && IsBlank(s[0]) then " " else ""
  }

  function Tail(s: string): string {
    if s != "" && IsBlank(Last(s)) then " " else ""
  }

  function Wrapped(cw: Metric, line: string, width: int): (rows: seq<string>)
    ensures rows != []
  {
    if width <= 0 then [line]
    else if Words(line) == [] then [Head(line)]
    else
      FilledNonempty(cw, Words(line), width);
      Edged(Head(line), Flushed(Filled(cw, Words(line), width)), Tail(line))
  }

  lemma {:induction false} BrokenNonempty(cw: Metric, rows: seq<string>, w: string, width: int)
    requires w != ""
    ensures Flushed(Broken(cw, rows, w, width)) != []
    decreases |w|
  {
    if Width(cw, w) > width {
      var k := Piece(cw, w, width);
      if w[k..] != "" {
        BrokenNonempty(cw, rows + [w[..k]], w[k..], width);
      }
    }
  }

  lemma {:induction false} FilledNonempty(cw: Metric, words: seq<string>, width: int)
    requires words != [] && AreWords(words)
    ensures Flushed(Filled(cw, words, width)) != []
  {
    var l, w := Filled(cw, Init(words), width), Last(words);
    assert IsWord(w);
    if Width(cw, w) > width {
      BrokenNonempty(cw, Flushed(l), w, width);
    }
  }

  // ---- The loops of wrapText ----

  /** Takes cells up to the width, commits the piece, repeats. */
  method BreakWord(cw: Metric, closed: seq<string>, word: string, width: int)
    returns (rows: seq<string>, runes: string)
    ensures Layout(rows, runes) == Broken(cw, closed, word, width)
  {
    rows, runes := closed, word;
    while runes != "" && Width(cw, runes) > width
      invariant Broken(cw, rows, runes, width) == Broken(cw, closed, word, width)
      decreases |runes|
    {
      var k, wc := 0, 0;
      while k < |runes| && wc + Width(cw, [runes[k]]) <= width
        invariant 0 <= k <= |runes| && 0 <= wc
        invariant FitFrom(cw, runes, width, k, wc) == FitFrom(cw, runes, width, 0, 0)
      {
        wc := wc + Width(cw, [runes[k]]);
        k := k + 1;
      }
      if k == 0 {
        k := 1;  // a single rune wider than the row
      }
      rows, runes := rows + [runes[..k]], runes[k..];
    }
  }

  method WrapText(cw: Metric, line: string, width: int) returns (rows: seq<string>)
    ensures rows == Wrapped(cw, line, width)
  {
    if width <= 0 {
      return [line];
    }
    var words := Words(line);
    if words == [] {
      return [Head(line)];
    }
    rows := [];
    var row, col := "", 0;
    var n := 0;
    while n < |words|
      invariant 0 <= n <= |words|
      invariant Filled(cw, words[..n], width) == Layout(rows, row)
      invariant col == Width(cw, row)
    {
      assert Init(words[..n + 1]) == words[..n] && Last(words[..n + 1]) == words[n];
      var runes := words[n];
      assert IsWord(runes);
      if Width(cw, runes) > width {
        if |row| > 0 {
          rows := rows + [row];
        }
        rows, row := BreakWord(cw, rows, runes, width);
        col := Width(cw, row);
      } else {
        if col > 0 && col + 1 + Width(cw, runes) > width {
          rows, row, col := rows + [row], "", 0;
        }
        if col > 0 {
          WidthAppend(cw, row, " ");
          row, col := row + " ", col + 1;
        }
        WidthAppend(cw, row, runes);
        row, col := row + runes, col + Width(cw, runes);
      }
      n := n + 1;
    }
    assert words[..n] == words;
    FilledNonempty(cw, words, width);
    if |row| > 0 {
      rows := rows + [row];
    }
    rows := rows[0 := Head(line) + rows[0]];
    rows := rows[|rows| - 1 := rows[|rows| - 1] + Tail(line)];
  }

  lemma {:induction false} WidthAppend(cw: Metric, a: string, b: string)
    ensures Width(cw, a + b) == Width(cw, a) + Width(cw, b)
  {
    if b == "" {
      assert a + b == a;
    } else {
      assert Init(a + b) == a + Init(b);
      WidthAppend(cw, a, Init(b));
    }
  }

  // ---- A row replays: wrapping the open row again leaves it alone ----

  /** No newline, and every rune that is not blank takes at least one cell. */
  predicate Clean(cw: Metric, s: string) {
    forall k :: 0 <= k < |s| ==> s[k] != '\n' && (IsBlank(s[k]) || cw(s[k]) > 0)
  }

  predicate CleanWords(cw: Metric, ws: seq<string>) {
    AreWords(ws) && forall i :: 0 <= i < |ws| ==> Clean(cw, ws[i])
  }

  function Join(ws: seq<string>): string
    requires ws != []
  {
    if |ws| == 1 then ws[0] else Join(Init(ws)) + " " + Last(ws)
  }

  lemma {:induction false} WordsAppend(s: string, w: string)
    requires IsWord(w) && (s == "" || IsBlank(Last(s)))
    ensures Words(s + w) == Words(s) + [w]
  {
    assert Init(s + w) == s + Init(w) && Last(s + w) == Last(w);
    if |w| == 1 {
      assert s + Init(w) == s && w == [Last(w)];
    } else {
      assert (s + w)[|s + w| - 2] == w[|w| - 2];
      WordsAppend(s, Init(w));
      assert w == Init(w) + [Last(w)];
    }
  }

  lemma WordsBlank(s: string, c: char)
    requires IsBlank(c)
    ensures Words(s + [c]) == Words(s)
  {
    assert Init(s + [c]) == s;
  }

  lemma WordsNext(s: string, w: string)
    requires IsWord(w)
    ensures Words(s + " " + w) == Words(s) + [w]
  {
    WordsBlank(s, ' ');
    WordsAppend(s + " ", w);
  }

  lemma WordsFirst(h: string, w: string)
    requires IsWord(w) && (h == "" || h == " ")
    ensures Words(h + w) == [w]
  {
    if h == " " {
      WordsBlank("", ' ');
      assert "" + [' '] == h;
    }
    WordsAppend(h, w);
  }

  lemma JoinStep(h: string, front: seq<string>, w: string)
    requires front != []
    ensures h + Join(front + [w]) == h + Join(front) + " " + w
  {
    assert Init(front + [w]) == front;
    assert h + (Join(front) + " " + w) == h + Join(front) + " " + w;
  }

  lemma {:induction false} WordsJoin(h: string, ws: seq<string>)
    requires h == "" || h == " "
    requires ws != [] && AreWords(ws)
    ensures Words(h + Join(ws)) == ws
  {
    if |ws| == 1 {
      WordsFirst(h, ws[0]);
    } else {
      var front, w := Init(ws), Last(ws);
      assert AreWords(front) && IsWord(w) && ws == front + [w];
      WordsJoin(h, front);
      JoinStep(h, front, w);
      WordsNext(h + Join(front), w);
    }
  }

  lemma {:induction false} JoinClean(cw: Metric, ws: seq<string>)
    requires ws != [] && CleanWords(cw, ws)
    ensures Clean(cw, Join(ws)) && Join(ws) != "" && !IsBlank(Join(ws)[0]) && !IsBlank(Last(Join(ws)))
    ensures Width(cw, Join(ws)) > 0
  {
    var j := Join(ws);
    if |ws| > 1 {
      JoinClean(cw, Init(ws));
    }
    assert IsWord(Last(ws));
  }

  function Shifted(rows: seq<string>, l: Layout): Layout {
    Layout(rows + l.rows, l.row)
  }

  lemma {:induction false} BrokenShift(cw: Metric, front: seq<string>, rows: seq<string>, w: string, width: int)
    ensures Broken(cw, front + rows, w, width) == Shifted(front, Broken(cw, rows, w, width))
    decreases |w|
  {
    if w != "" && Width(cw, w) > width {
      var k := Piece(cw, w, width);
      assert front + rows + [w[..k]] == front + (rows + [w[..k]]);
      BrokenShift(cw, front, rows + [w[..k]], w[k..], width);
    }
  }

  lemma PlaceShift(cw: Metric, front: seq<string>, l: Layout, w: string, width: int)
    ensures Place(cw, Shifted(front, l), w, width) == Shifted(front, Place(cw, l, w, width))
  {
    assert Flushed(Shifted(front, l)) == front + Flushed(l);
    BrokenShift(cw, front, Flushed(l), w, width);
    assert front + l.rows + [l.row] == front + (l.rows + [l.row]);
  }

  lemma {:induction false} FitStable(cw: Metric, w: string, c: char, width: int, k: nat, used: nat)
    requires k <= |w| && used == Width(cw, w[..k])
    requires Width(cw, w) > width
    ensures k < |w| ==> FitFrom(cw, w, width, k, used) < |w|
    ensures FitFrom(cw, w, width, k, used) < |w| ==>
              FitFrom(cw, w + [c], width, k, used) == FitFrom(cw, w, width, k, used)
    decreases |w| - k
  {
    assert w[..|w|] == w;
    if k < |w| && used + Width(cw, [w[k]]) <= width {
      assert w[..k + 1] == w[..k] + [w[k]];
      WidthAppend(cw, w[..k], [w[k]]);
      FitStable(cw, w, c, width, k + 1, used + Width(cw, [w[k]]));
    }
  }

  /** What replays a row: the words that lie on it, and the rows closed before them. */
  ghost predicate Replays(cw: Metric, width: int, l: Layout, grown: Layout, front: seq<string>, rw: seq<string>, c: char) {
    && rw != [] && CleanWords(cw, rw)
    && l == Shifted(front, Filled(cw, rw, width))
    && Flushed(Filled(cw, rw, width)) == [Join(rw)]
    && grown == Shifted(front, Filled(cw, Grown(rw, c), width))
  }

  function Grown(ws: seq<string>, c: char): seq<string>
    requires ws != []
  {
    Init(ws) + [Last(ws) + [c]]
  }

  lemma OneWord(cw: Metric, w: string, width: int)
    ensures Filled(cw, [w], width) == Place(cw, Layout([], ""), w, width)
  {
    assert Init([w]) == [];
  }

  lemma SplitAppend(w: string, c: char, k: nat)
    requires k <= |w|
    ensures (w + [c])[..k] == w[..k] && (w + [c])[k..] == w[k..] + [c]
  {
  }

  lemma BrokenStep(cw: Metric, width: int, closed: seq<string>, w: string, c: char)
    requires w != "" && Width(cw, w) > width
    ensures var k := Piece(cw, w, width);
            && Broken(cw, closed, w, width) == Broken(cw, closed + [w[..k]], w[k..], width)
            && Broken(cw, closed, w + [c], width) == Broken(cw, closed + [w[..k]], w[k..] + [c], width)
            && (w[k..] == "" ==> |w| == 1)
  {
    var k := Piece(cw, w, width);
    FitStable(cw, w, c, width, 0, 0);
    WidthAppend(cw, w, [c]);
    SplitAppend(w, c, k);
    assert Piece(cw, w + [c], width) == k;
  }

  /** A word broken behind closed rows is the word wrapped alone, below them. */
  lemma LoneShifted(cw: Metric, front: seq<string>, u: string, width: int)
    requires u != "" && width > 0
    ensures Broken(cw, front, u, width) == Shifted(front, Filled(cw, [u], width))
  {
    OneWord(cw, u, width);
    assert front + [] == front && "" + u == u && Flushed(Layout([], "")) == [];
    BrokenShift(cw, front, [], u, width);
  }

  lemma LoneFlushed(cw: Metric, u: string, width: int)
    requires u != "" && width > 0 && (|u| == 1 || Width(cw, u) <= width)
    ensures Flushed(Filled(cw, [u], width)) == [u]
  {
    OneWord(cw, u, width);
    assert "" + u == u && Flushed(Layout([], "")) == [];
    if Width(cw, u) > width {
      BrokenStep(cw, width, [], u, 'x');
      assert u[1..] == "" && u[..1] == u && [] + [u] == [u];
    }
  }

  /** A last row that stands alone: one word on it, rows front before it. */
  lemma LoneReplays(cw: Metric, width: int, front: seq<string>, u: string, c: char)
    requires IsWord(u) && Clean(cw, u) && width > 0
    requires |u| == 1 || Width(cw, u) <= width
    ensures Replays(cw, width, Broken(cw, front, u, width), Broken(cw, front, u + [c], width), front, [u], c)
  {
    LoneShifted(cw, front, u, width);
    LoneShifted(cw, front, u + [c], width);
    LoneFlushed(cw, u, width);
    assert Grown([u], c) == [u + [c]];
  }

  lemma {:induction false} BrokenReplays(cw: Metric, width: int, closed: seq<string>, w: string, c: char)
    returns (front: seq<string>, u: string)
    requires IsWord(w) && Clean(cw, w) && Width(cw, w) > width > 0
    ensures Replays(cw, width, Broken(cw, closed, w, width), Broken(cw, closed, w + [c], width), front, [u], c)
    decreases |w|
  {
    var k := Piece(cw, w, width);
    BrokenStep(cw, width, closed, w, c);
    var rows, rest := closed + [w[..k]], w[k..];
    if rest == "" {
      front, u := closed, w;
      LoneReplays(cw, width, closed, w, c);
    } else if Width(cw, rest) > width {
      front, u := BrokenReplays(cw, width, rows, rest, c);
    } else {
      front, u := rows, rest;
      LoneReplays(cw, width, rows, rest, c);
    }
  }

  lemma FreshReplays(cw: Metric, width: int, l: Layout, w: string, c: char)
    requires IsWord(w) && Clean(cw, w) && Width(cw, w) <= width && width > 0
    requires l.row == "" || (Width(cw, l.row) > 0 && Width(cw, l.row) + 1 + Width(cw, w) > width)
    ensures Replays(cw, width, Place(cw, l, w, width), Place(cw, l, w + [c], width), Flushed(l), [w], c)
  {
    WidthAppend(cw, w, [c]);
    PlaceFresh(cw, l, w, width);
    PlaceFresh(cw, l, w + [c], width);
    OneWord(cw, w, width);
    OneWord(cw, w + [c], width);
    assert Grown([w], c) == [w + [c]] && "" + w == w;
  }

  lemma JoinedReplays(
      cw: Metric, width: int, front: seq<string>, rw: seq<string>, w: string, c: char)
    requires rw != [] && CleanWords(cw, rw) && IsWord(w) && Clean(cw, w)
    requires var t := Filled(cw, rw, width);
             && t == Layout([], Join(rw)) && Width(cw, t.row) > 0
             && Width(cw, w) <= width && Width(cw, t.row) + 1 + Width(cw, w) <= width
    ensures var l := Shifted(front, Filled(cw, rw, width));
            Replays(cw, width, Place(cw, l, w, width), Place(cw, l, w + [c], width), front, rw + [w], c)
  {
    var t := Filled(cw, rw, width);
    var rw1 := rw + [w];
    assert Init(rw1) == rw && Last(rw1) == w;
    assert Init(Grown(rw1, c)) == rw && Last(Grown(rw1, c)) == w + [c];
    PlaceShift(cw, front, t, w, width);
    PlaceShift(cw, front, t, w + [c], width);
    JoinedFlush(cw, width, rw, w);
    MoreWords(cw, rw, w);
  }

  lemma MoreWords(cw: Metric, ws: seq<string>, w: string)
    requires CleanWords(cw, ws) && IsWord(w) && Clean(cw, w)
    ensures CleanWords(cw, ws + [w])
  {
  }

  lemma JoinedFlush(cw: Metric, width: int, rw: seq<string>, w: string)
    requires rw != [] && Filled(cw, rw, width) == Layout([], Join(rw)) && Width(cw, Join(rw)) > 0
    requires Width(cw, w) <= width && Width(cw, Join(rw)) + 1 + Width(cw, w) <= width
    ensures Flushed(Filled(cw, rw + [w], width)) == [Join(rw + [w])]
  {
    assert Init(rw + [w]) == rw && Last(rw + [w]) == w;
    assert Join(rw) + " " + w != "";
  }

  lemma {:induction false} RowReplays(cw: Metric, width: int, ws: seq<string>, c: char)
    returns (front: seq<string>, rw: seq<string>)
    requires ws != [] && CleanWords(cw, ws) && width > 0
    ensures Replays(cw, width, Filled(cw, ws, width), Filled(cw, Grown(ws, c), width), front, rw, c)
  {
    var l, w := Filled(cw, Init(ws), width), Last(ws);
    assert Init(Grown(ws, c)) == Init(ws) && Last(Grown(ws, c)) == w + [c];
    WidthAppend(cw, w, [c]);
    var front0, rw0 := [], [];
    if Init(ws) != [] {
      front0, rw0 := RowReplays(cw, width, Init(ws), c);
      JoinClean(cw, rw0);
      OpenRow(Filled(cw, rw0, width), Join(rw0));
    }
    if Width(cw, w) > width {
      var u;
      front, u := BrokenReplays(cw, width, Flushed(l), w, c);
      rw := [u];
    } else if l.row == "" || Width(cw, l.row) + 1 + Width(cw, w) > width {
      front, rw := Flushed(l), [w];
      FreshReplays(cw, width, l, w, c);
    } else {
      front, rw := front0, rw0 + [w];
      JoinedReplays(cw, width, front0, rw0, w, c);
    }
  }

  lemma OpenRow(t: Layout, r: string)
    requires Flushed(t) == [r]
    ensures t.row == "" || t == Layout([], r)
  {
    assert t.row != "" ==> (t.rows + [t.row])[|t.rows|] == t.row;
  }

  /** A word that does not join the open row starts from an empty one. */
  lemma PlaceFresh(cw: Metric, l: Layout, w: string, width: int)
    requires l.row == "" || Width(cw, l.row) > 0
    requires l.row == "" || Width(cw, l.row) + 1 + Width(cw, w) > width
    ensures Place(cw, l, w, width) == Shifted(Flushed(l), Place(cw, Layout([], ""), w, width))
  {
    assert Flushed(Layout([], "")) == [];
    BrokenShift(cw, Flushed(l), [], w, width);
    assert Flushed(l) + [] == Flushed(l) && "" + w == w;
  }

  // ---- Streaming: only the last row matters to what follows ----

  lemma EdgedShift(h: string, front: seq<string>, rows: seq<string>, t: string)
    requires rows != []
    ensures Edged(h, front + rows, t) ==
              (if front == [] then Edged(h, rows, t) else [h + front[0]] + front[1..] + Edged("", rows, t))
  {
    if front == [] {
      assert front + rows == rows;
    } else {
      var e := Edged("", rows, t);
      assert e == rows[|rows| - 1 := Last(rows) + t] by {
        assert "" + rows[0] == rows[0];
      }
      assert (front + rows)[0 := h + front[0]] == [h + front[0]] + front[1..] + rows;
    }
  }

  lemma {:induction false} WordsClean(cw: Metric, s: string)
    requires Clean(cw, s)
    ensures CleanWords(cw, Words(s))
  {
    if s != "" {
      var t, c := Init(s), Last(s);
      assert s == t + [c];
      CleanSplit(cw, t, [c]);
      WordsClean(cw, t);
      NextWords(t, c);
      if !IsBlank(c) && t != "" && !IsBlank(Last(t)) {
        GrownClean(cw, Words(t), c);
      }
    }
  }

  lemma GrownClean(cw: Metric, ws: seq<string>, c: char)
    requires ws != [] && CleanWords(cw, ws) && Clean(cw, [c]) && !IsBlank(c)
    ensures CleanWords(cw, Grown(ws, c))
  {
    CleanSplit(cw, Last(ws), [c]);
  }

  lemma NextWords(s: string, c: char)
    ensures Words(s + [c]) ==
              if IsBlank(c) then Words(s)
              else if s == "" || IsBlank(Last(s)) then Words(s) + [[c]]
              else Grown(Words(s), c)
  {
    var t := s + [c];
    assert Init(t) == s && Last(t) == c && (s != "" ==> t[|t| - 2] == Last(s));
  }

  /** How the next rune changes the layout of a line, seen from its last row alone. */
  lemma NextLayout(cw: Metric, width: int, ws: seq<string>, front: seq<string>, rw: seq<string>, c: char)
    requires ws != [] && CleanWords(cw, ws)
    requires Replays(cw, width, Filled(cw, ws, width), Filled(cw, Grown(ws, c), width), front, rw, c)
    ensures Filled(cw, ws + [[c]], width) == Shifted(front, Filled(cw, rw + [[c]], width))
  {
    assert Init(ws + [[c]]) == ws && Last(ws + [[c]]) == [c];
    assert Init(rw + [[c]]) == rw && Last(rw + [[c]]) == [c];
    PlaceShift(cw, front, Filled(cw, rw, width), [c], width);
  }

  /** The rows of a wrapped line: rows in front, then the open row with its edge blanks. */
  lemma LastRow(cw: Metric, width: int, x: string, c: char) returns (front: seq<string>, rw: seq<string>, h: string)
    requires width > 0 && Clean(cw, x) && Words(x) != []
    ensures Replays(cw, width, Filled(cw, Words(x), width), Filled(cw, Grown(Words(x), c), width), front, rw, c)
    ensures h == (if front == [] then Head(x) else "")
    ensures Wrapped(cw, x, width) ==
              (if front == [] then [] else [Head(x) + front[0]] + front[1..]) + [h + Join(rw) + Tail(x)]
  {
    var ws := Words(x);
    WordsClean(cw, x);
    front, rw := RowReplays(cw, width, ws, c);
    h := if front == [] then Head(x) else "";
    assert Flushed(Filled(cw, ws, width)) == front + [Join(rw)];
    EdgedShift(Head(x), front, [Join(rw)], Tail(x));
    assert Edged(h, [Join(rw)], Tail(x)) == [h + Join(rw) + Tail(x)];
  }

  lemma OpenRowWords(cw: Metric, h: string, rw: seq<string>, t: string, c: char)
    requires (h == "" || h == " ") && (t == "" || t == " ")
    requires rw != [] && CleanWords(cw, rw)
    ensures var r := h + Join(rw) + t;
            && r != "" && IsBlank(Last(r)) == (t == " ") && Words(r) == rw
            && Head(r + [c]) == h && Clean(cw, r)
  {
    var core := h + Join(rw);
    JoinClean(cw, rw);
    WordsJoin(h, rw);
    if t == " " {
      WordsBlank(core, ' ');
      assert core + [' '] == core + t;
    } else {
      assert core + t == core;
    }
  }

  lemma CleanSplit(cw: Metric, x: string, y: string)
    ensures Clean(cw, x + y) <==> Clean(cw, x) && Clean(cw, y)
  {
    assert x == (x + y)[..|x|] && y == (x + y)[|x|..];
  }

  lemma {:induction false} NoWords(s: string)
    requires Words(s) == []
    ensures forall k :: 0 <= k < |s| ==> IsBlank(s[k])
  {
    if s != "" {
      NoWords(Init(s));
    }
  }

  /** No word yet: the row is empty or one blank. */
  lemma WrapStepBlank(cw: Metric, width: int, x: string, c: char)
    requires width > 0 && Words(x) == []
    ensures Wrapped(cw, x, width) == [Head(x)] && Words(Head(x)) == []
    ensures Wrapped(cw, x + [c], width) == Wrapped(cw, Head(x) + [c], width)
  {
    var h := Head(x);
    NoWords(x);
    NextWords(x, c);
    if h == " " {
      WordsBlank("", ' ');
      assert "" + [' '] == h;
    }
    NextWords(h, c);
    assert Words(x + [c]) == Words(h + [c]);
    assert Head(x + [c]) == Head(h + [c]) && Tail(x + [c]) == Tail(h + [c]);
  }

  lemma WrapStepWords(cw: Metric, width: int, x: string, c: char)
    requires width > 0 && Clean(cw, x) && Words(x) != []
    ensures var rows := Wrapped(cw, x, width);
            && Clean(cw, Last(rows))
            && Wrapped(cw, x + [c], width) == Init(rows) + Wrapped(cw, Last(rows) + [c], width)
  {
    var front, rw, h := LastRow(cw, width, x, c);
    var r := h + Join(rw) + Tail(x);
    OpenRowWords(cw, h, rw, Tail(x), c);
    NextWords(x, c);
    NextWords(r, c);
    WordsClean(cw, x);
    NextLayout(cw, width, Words(x), front, rw, c);
    var rw1 := Words(r + [c]);
    assert Filled(cw, Words(x + [c]), width) == Shifted(front, Filled(cw, rw1, width));
    WrapStepRows(cw, width, x, c, front, r, h);
  }

  lemma WrapStepRows(cw: Metric, width: int, x: string, c: char, front: seq<string>, r: string, h: string)
    requires width > 0 && x != "" && Words(r + [c]) != [] && Words(x + [c]) != []
    requires Filled(cw, Words(x + [c]), width) == Shifted(front, Filled(cw, Words(r + [c]), width))
    requires Head(r + [c]) == h == (if front == [] then Head(x) else "")
    ensures Wrapped(cw, x + [c], width) ==
              (if front == [] then [] else [Head(x) + front[0]] + front[1..]) + Wrapped(cw, r + [c], width)
  {
    var inner := Flushed(Filled(cw, Words(r + [c]), width));
    FilledNonempty(cw, Words(r + [c]), width);
    FlushShift(front, Filled(cw, Words(r + [c]), width));
    assert Head(x + [c]) == Head(x) && Tail(x + [c]) == Tail(r + [c]);
    EdgedShift(Head(x), front, inner, Tail(x + [c]));
  }

  lemma FlushShift(front: seq<string>, l: Layout)
    ensures Flushed(Shifted(front, l)) == front + Flushed(l)
  {
  }

  lemma WrapStep(cw: Metric, width: int, x: string, c: char)
    requires width > 0 && Clean(cw, x)
    ensures var rows := Wrapped(cw, x, width);
            && Clean(cw, Last(rows))
            && Wrapped(cw, x + [c], width) == Init(rows) + Wrapped(cw, Last(rows) + [c], width)
  {
    if Words(x) == [] {
      WrapStepBlank(cw, width, x, c);
    } else {
      WrapStepWords(cw, width, x, c);
    }
  }

  ghost predicate Splits(cw: Metric, width: int, x: string, y: string) {
    var rows := Wrapped(cw, x, width);
    Wrapped(cw, x + y, width) == Init(rows) + Wrapped(cw, Last(rows) + y, width)
  }

  /** The induction step, for any wrapping function. */
  lemma SplitChain(wrap: string -> seq<string>, x: string, z: string, c: char)
    requires forall s :: wrap(s) != []
    requires var r := Last(wrap(x));
             && wrap(x + z) == Init(wrap(x)) + wrap(r + z)
             && wrap((x + z) + [c]) == Init(wrap(x + z)) + wrap(Last(wrap(x + z)) + [c])
             && wrap((r + z) + [c]) == Init(wrap(r + z)) + wrap(Last(wrap(r + z)) + [c])
    ensures wrap(x + (z + [c])) == Init(wrap(x)) + wrap(Last(wrap(x)) + (z + [c]))
  {
    var r := Last(wrap(x));
    Chain(Init(wrap(x)), wrap(r + z), wrap(Last(wrap(r + z)) + [c]));
    assert (x + z) + [c] == x + (z + [c]) && (r + z) + [c] == r + (z + [c]);
  }

  lemma SplitStep(cw: Metric, width: int, x: string, z: string, c: char)
    requires width > 0 && Clean(cw, x + z) && Splits(cw, width, x, z)
    requires Clean(cw, Last(Wrapped(cw, x, width)) + z)
    ensures Splits(cw, width, x, z + [c])
  {
    WrapStep(cw, width, x + z, c);
    WrapStep(cw, width, Last(Wrapped(cw, x, width)) + z, c);
    SplitChain(s => Wrapped(cw, s, width), x, z, c);
  }

  /** Streaming key: what follows x depends on x only through its last row. */
  lemma {:induction false} WrapSplit(cw: Metric, width: int, x: string, y: string)
    requires Clean(cw, x + y) && y != ""
    ensures Clean(cw, Last(Wrapped(cw, x, width)))
    ensures var rows := Wrapped(cw, x, width);
            Wrapped(cw, x + y, width) == Init(rows) + Wrapped(cw, Last(rows) + y, width)
  {
    CleanSplit(cw, x, y);
    if width > 0 {
      var z, c := Init(y), Last(y);
      assert y == z + [c];
      CleanSplit(cw, z, [c]);
      CleanSplit(cw, x, z);
      if z == "" {
        assert y == [c];
        WrapStep(cw, width, x, c);
      } else {
        WrapSplit(cw, width, x, z);
        CleanSplit(cw, Last(Wrapped(cw, x, width)), z);
        SplitStep(cw, width, x, z, c);
      }
    }
  }

  lemma Chain(front: seq<string>, mid: seq<string>, back: seq<string>)
    requires mid != []
    ensures Last(front + mid) == Last(mid) && Init(front + mid) + back == front + (Init(mid) + back)
  {
    assert Init(front + mid) == front + Init(mid);
  }

  /** The last row of a wrapped line is a line of its own. */
  lemma LastReplays(cw: Metric, width: int, x: string)
    requires Clean(cw, x)
    ensures Wrapped(cw, Last(Wrapped(cw, x, width)), width) == [Last(Wrapped(cw, x, width))]
    ensures Clean(cw, Last(Wrapped(cw, x, width)))
  {
    if width > 0 {
      if Words(x) == [] {
        WrapStepBlank(cw, width, x, ' ');
        assert Head(Head(x)) == Head(x);
      } else {
        LastRowReplays(cw, width, x);
      }
    }
  }

  lemma LastRowReplays(cw: Metric, width: int, x: string)
    requires Clean(cw, x) && width > 0 && Words(x) != []
    ensures Wrapped(cw, Last(Wrapped(cw, x, width)), width) == [Last(Wrapped(cw, x, width))]
    ensures Clean(cw, Last(Wrapped(cw, x, width)))
  {
    var front, rw, h := LastRow(cw, width, x, Words(x)[0][0]);
    OpenRowWords(cw, h, rw, Tail(x), 'x');
    var r := h + Join(rw) + Tail(x);
    assert Last(Wrapped(cw, x, width)) == r;
    OpenHead(cw, rw, h, Tail(x));
    LoneRowWraps(cw, width, r, rw, h, Tail(x));
  }

  lemma OpenHead(cw: Metric, rw: seq<string>, h: string, t: string)
    requires (h == "" || h == " ") && (t == "" || t == " ") && rw != [] && CleanWords(cw, rw)
    ensures Head(h + Join(rw) + t) == h && Tail(h + Join(rw) + t) == t
  {
    JoinClean(cw, rw);
  }

  lemma LoneRowWraps(cw: Metric, width: int, r: string, rw: seq<string>, h: string, t: string)
    requires width > 0 && rw != [] && Words(r) == rw && Head(r) == h && Tail(r) == t && r == h + Join(rw) + t
    requires Flushed(Filled(cw, rw, width)) == [Join(rw)]
    ensures Wrapped(cw, r, width) == [r]
  {
    assert Edged(h, [Join(rw)], t) == [h + Join(rw) + t];
  }

  // ---- Wrapping loses no letter, and its rows fit ----

  function Flat(rows: seq<string>): string {
    if rows == [] then "" else Flat(Init(rows)) + Last(rows)
  }

  /** The text without its blanks. */
  function Letters(s: string): string {
    if s == "" then "" else Letters(Init(s)) + (if IsBlank(Last(s)) then "" else [Last(s)])
  }

  lemma {:induction false} LettersAppend(a: string, b: string)
    ensures Letters(a + b) == Letters(a) + Letters(b)
  {
    if b == "" {
      assert a + b == a;
    } else {
      assert Init(a + b) == a + Init(b);
      LettersAppend(a, Init(b));
    }
  }

  lemma {:induction false} WordLetters(w: string)
    requires forall k :: 0 <= k < |w| ==> !IsBlank(w[k])
    ensures Letters(w) == w
  {
    if w != "" {
      WordLetters(Init(w));
      assert w == Init(w) + [Last(w)];
    }
  }

  lemma FlatStep(rows: seq<string>, r: string)
    ensures Flat(rows + [r]) == Flat(rows) + r
  {
    assert Init(rows + [r]) == rows;
  }

  lemma {:induction false} WordsLetters(s: string)
    ensures Letters(s) == Flat(Words(s))
  {
    if s != "" {
      var z, c := Init(s), Last(s);
      WordsLetters(z);
      assert s == z + [c];
      NextWords(z, c);
      if !IsBlank(c) {
        if z == "" || IsBlank(Last(z)) {
          FlatStep(Words(z), [c]);
        } else {
          var ws := Words(z);
          FlatStep(Init(ws), Last(ws) + [c]);
          assert Flat(ws) + [c] == Flat(Init(ws)) + (Last(ws) + [c]);
        }
      }
    }
  }

  /** The letters of a layout, closed rows first. */
  function LayoutLetters(l: Layout): string {
    Letters(Flat(l.rows) + l.row)
  }

  lemma FlushedLetters(l: Layout)
    ensures Letters(Flat(Flushed(l))) == LayoutLetters(l)
  {
    if l.row == "" {
      assert Flat(l.rows) + "" == Flat(l.rows);
    } else {
      FlatStep(l.rows, l.row);
    }
  }

  lemma {:induction false} BrokenLetters(cw: Metric, rows: seq<string>, w: string, width: int)
    ensures LayoutLetters(Broken(cw, rows, w, width)) == Letters(Flat(rows) + w)
    decreases |w|
  {
    if w != "" && Width(cw, w) > width {
      var k := Piece(cw, w, width);
      BrokenLetters(cw, rows + [w[..k]], w[k..], width);
      FlatStep(rows, w[..k]);
      assert Flat(rows) + w[..k] + w[k..] == Flat(rows) + w;
    }
  }

  lemma BreakLetters(cw: Metric, l: Layout, w: string, width: int)
    requires IsWord(w)
    ensures LayoutLetters(Broken(cw, Flushed(l), w, width)) == LayoutLetters(l) + w
  {
    WordLetters(w);
    BrokenLetters(cw, Flushed(l), w, width);
    FlushedLetters(l);
    LettersAppend(Flat(Flushed(l)), w);
  }

  lemma JoinLetters(l: Layout, sep: string, w: string)
    requires IsWord(w) && Letters(sep) == ""
    ensures LayoutLetters(Layout(l.rows, l.row + sep + w)) == LayoutLetters(l) + w
  {
    var all := Flat(l.rows) + l.row;
    Concat3(Flat(l.rows), l.row, sep, w);
    LettersAppend3(all, sep, w);
    WordLetters(w);
    assert Letters(all) + "" == Letters(all);
  }

  lemma Concat3(a: string, b: string, c: string, d: string)
    ensures a + (b + c + d) == a + b + c + d
  {
  }

  lemma LettersAppend3(a: string, b: string, c: string)
    ensures Letters(a + b + c) == Letters(a) + Letters(b) + Letters(c)
  {
    LettersAppend(a, b);
    LettersAppend(a + b, c);
  }

  lemma PlaceLetters(cw: Metric, l: Layout, w: string, width: int)
    requires IsWord(w)
    ensures LayoutLetters(Place(cw, l, w, width)) == LayoutLetters(l) + w
  {
    assert Letters("") == "" && Letters(" ") == "" by {
      assert Init(" ") == "";
    }
    if Width(cw, w) > width {
      BreakLetters(cw, l, w, width);
    } else if Width(cw, l.row) == 0 {
      JoinLetters(l, "", w);
      assert l.row + "" + w == l.row + w;
    } else if Width(cw, l.row) + 1 + Width(cw, w) > width {
      FlatStep(l.rows, l.row);
      WordLetters(w);
      LettersAppend(Flat(l.rows) + l.row, w);
    } else {
      JoinLetters(l, " ", w);
    }
  }

  lemma {:induction false} FilledLetters(cw: Metric, ws: seq<string>, width: int)
    requires AreWords(ws)
    ensures LayoutLetters(Filled(cw, ws, width)) == Flat(ws)
  {
    if ws != [] {
      FilledLetters(cw, Init(ws), width);
      assert IsWord(Last(ws));
      PlaceLetters(cw, Filled(cw, Init(ws), width), Last(ws), width);
    }
  }

  lemma {:induction false} EdgedLetters(h: string, rows: seq<string>, t: string)
    requires rows != [] && Letters(h) == "" && Letters(t) == ""
    ensures Letters(Flat(Edged(h, rows, t))) == Letters(Flat(rows))
  {
    var mid := rows[0 := h + rows[0]];
    assert Edged(h, rows, t) == Init(mid) + [Last(mid) + t];
    FlatStep(Init(mid), Last(mid) + t);
    assert mid == Init(mid) + [Last(mid)];
    assert Flat(Init(mid)) + (Last(mid) + t) == Flat(mid) + t;
    LettersAppend(Flat(mid), t);
    HeadLetters(h, rows);
  }

  lemma {:induction false} HeadLetters(h: string, rows: seq<string>)
    requires rows != [] && Letters(h) == ""
    ensures Letters(Flat(rows[0 := h + rows[0]])) == Letters(Flat(rows))
  {
    var mid := rows[0 := h + rows[0]];
    if |rows| == 1 {
      assert Init(mid) == [] && Init(rows) == [];
      LettersAppend(h, rows[0]);
      assert "" + rows[0] == rows[0] && "" + (h + rows[0]) == h + rows[0];
    } else {
      HeadLetters(h, Init(rows));
      assert Init(mid) == Init(rows)[0 := h + rows[0]] && Last(mid) == Last(rows);
      LettersAppend(Flat(Init(mid)), Last(rows));
      LettersAppend(Flat(Init(rows)), Last(rows));
    }
  }

  /** The rows carry exactly the letters of the line, in order, at every metric. */
  lemma WrapKeepsLetters(cw: Metric, line: string, width: int)
    ensures Letters(Flat(Wrapped(cw, line, width))) == Letters(line)
  {
    WordsLetters(line);
    var ws := Words(line);
    assert Letters("") == "" && Letters(" ") == "" by {
      assert Init(" ") == "";
    }
    if width <= 0 {
      assert Init([line]) == [] && Flat([line]) == "" + line == line;
    } else if ws == [] {
      var h := Head(line);
      assert Init([h]) == [] && Flat([h]) == "" + h == h;
    } else {
      FilledLetters(cw, ws, width);
      FilledNonempty(cw, ws, width);
      FlushedLetters(Filled(cw, ws, width));
      EdgedLetters(Head(line), Flushed(Filled(cw, ws, width)), Tail(line));
    }
  }

  /** A row fits, or is one rune that cannot. */
  predicate Fits(cw: Metric, row: string, width: int) {
    Width(cw, row) <= width || |row| == 1
  }

  ghost predicate AllFit(cw: Metric, l: Layout, width: int) {
    (forall i :: 0 <= i < |l.rows| ==> Fits(cw, l.rows[i], width)) && Width(cw, l.row) <= width
  }

  lemma {:induction false} FitFits(cw: Metric, w: string, width: int, k: nat, used: nat)
    requires k <= |w| && used == Width(cw, w[..k]) <= width
    ensures Width(cw, w[..FitFrom(cw, w, width, k, used)]) <= width
    decreases |w| - k
  {
    if k < |w| && used + Width(cw, [w[k]]) <= width {
      assert w[..k + 1] == w[..k] + [w[k]];
      WidthAppend(cw, w[..k], [w[k]]);
      FitFits(cw, w, width, k + 1, used + Width(cw, [w[k]]));
    }
  }

  lemma {:induction false} BrokenFits(cw: Metric, rows: seq<string>, w: string, width: int)
    requires width > 0 && forall i :: 0 <= i < |rows| ==> Fits(cw, rows[i], width)
    ensures AllFit(cw, Broken(cw, rows, w, width), width)
    decreases |w|
  {
    if w != "" && Width(cw, w) > width {
      var k := Piece(cw, w, width);
      FitFits(cw, w, width, 0, 0);
      BrokenFits(cw, rows + [w[..k]], w[k..], width);
    }
  }

  lemma {:induction false} FilledFits(cw: Metric, ws: seq<string>, width: int)
    requires width > 0
    ensures AllFit(cw, Filled(cw, ws, width), width)
  {
    if ws != [] {
      var l, w := Filled(cw, Init(ws), width), Last(ws);
      FilledFits(cw, Init(ws), width);
      BrokenFits(cw, Flushed(l), w, width);
      WidthAppend(cw, l.row, w);
      WidthAppend(cw, l.row, " ");
      WidthAppend(cw, l.row + " ", w);
    }
  }

  /** Every row of a wrap fits the width, its edge blanks aside, or is one over-wide rune. */
  lemma RowsFit(cw: Metric, line: string, width: int)
    requires width > 0 && Words(line) != []
    ensures var rows := Flushed(Filled(cw, Words(line), width));
            && rows != [] && Wrapped(cw, line, width) == Edged(Head(line), rows, Tail(line))
            && forall i :: 0 <= i < |rows| ==> Fits(cw, rows[i], width)
  {
    FilledFits(cw, Words(line), width);
    FilledNonempty(cw, Words(line), width);
  }

  /** A row is left only when the next word does not fit behind it, and takes the word when it does. */
  lemma RowsGreedy(cw: Metric, ws: seq<string>, w: string, width: int)
    requires Width(cw, Filled(cw, ws, width).row) > 0
    ensures var l, next := Filled(cw, ws, width), Filled(cw, ws + [w], width);
            if Width(cw, l.row) + 1 + Width(cw, w) <= width then next == Layout(l.rows, l.row + " " + w)
            else l.rows + [l.row] <= next.rows
  {
    assert Init(ws + [w]) == ws && Last(ws + [w]) == w;
    var l := Filled(cw, ws, width);
    assert l.row != "";
    if Width(cw, w) > width {
      BrokenExtends(cw, Flushed(l), w, width);
    }
  }

  lemma {:induction false} BrokenExtends(cw: Metric, rows: seq<string>, w: string, width: int)
    ensures rows <= Broken(cw, rows, w, width).rows
    decreases |w|
  {
    if w != "" && Width(cw, w) > width {
      BrokenExtends(cw, rows + [w[..Piece(cw, w, width)]], w[Piece(cw, w, width)..], width);
    }
  }

  lemma {:induction false} FitOverflows(cw: Metric, w: string, width: int, k: nat, used: nat)
    requires k <= |w| && used == Width(cw, w[..k])
    ensures var f := FitFrom(cw, w, width, k, used); f < |w| ==> Width(cw, w[..f + 1]) > width
    decreases |w| - k
  {
    if k < |w| {
      assert w[..k + 1] == w[..k] + [w[k]];
      WidthAppend(cw, w[..k], [w[k]]);
      if used + Width(cw, [w[k]]) <= width {
        FitOverflows(cw, w, width, k + 1, used + Width(cw, [w[k]]));
      }
    }
  }

  /** A hard-broken piece is as long as fits: one more rune would overflow it. */
  lemma PiecesFull(cw: Metric, w: string, width: int)
    requires w != "" && width >= 0
    ensures var k := Piece(cw, w, width);
            && (Width(cw, w[..k]) <= width || k == 1)
            && (k < |w| && Width(cw, w[..k]) <= width ==> Width(cw, w[..k + 1]) > width)
  {
    FitFits(cw, w, width, 0, 0);
    FitOverflows(cw, w, width, 0, 0);
  }
}
