/** Streamed text: appendText in src/tui/pager.go, as a function of the lines and the delta. */
module Stream {
  import opened Wrap

  /** The position of the first newline, or the length (strings.IndexByte). */
  function NewlineAt(s: string): (i: nat)
    ensures i <= |s| && (i < |s| ==> s[i] == '\n')
    ensures forall k :: 0 <= k < i ==> s[k] != '\n'
  {
    if s == "" || s[0] == '\n' then 0 else 1 + NewlineAt(s[1..])
  }

  predicate EndsClosed(s: string) {
    s != "" && Last(s) == '\n'
  }

  /** The last line takes more text: it carries no newline marker yet. */
  predicate Open(lines: seq<string>) {
    lines != [] && !EndsClosed(Last(lines))
  }

  function OpenText(lines: seq<string>): string {
    if Open(lines) then Last(lines) else ""
  }

  function ClosedLines(lines: seq<string>): seq<string> {
    if Open(lines) then Init(lines) else lines
  }

  function Close(rows: seq<string>): seq<string> {
    if rows == [] then [] else rows[|rows| - 1 := Last(rows) + "\n"]
  }

  /** The wrapping of a line at a metric and a width. */
  function WrapAt(cw: Metric, width: int): string -> seq<string> {
    s => Wrapped(cw, s, width)
  }

  /** The lines after one delta: every completed line wraps and closes, a rest stays open. */
  function Fed(wrap: string -> seq<string>, lines: seq<string>, text: string): seq<string>
    decreases |text|
  {
    var i := NewlineAt(text);
    if text == "" then lines
    else if i == |text| then ClosedLines(lines) + wrap(OpenText(lines) + text)
    else Fed(wrap, ClosedLines(lines) + Close(wrap(OpenText(lines) + text[..i])), text[i + 1..])
  }

  function FedAll(wrap: string -> seq<string>, lines: seq<string>, deltas: seq<string>): seq<string>
    decreases |deltas|
  {
    if deltas == [] then lines else FedAll(wrap, Fed(wrap, lines, deltas[0]), deltas[1..])
  }

  function Concat(deltas: seq<string>): string {
    if deltas == [] then "" else deltas[0] + Concat(deltas[1..])
  }

  /** Every rune but blanks and newlines takes at least one cell. */
  predicate Visible(cw: Metric, s: string) {
    forall k :: 0 <= k < |s| ==> s[k] == '\n' || IsBlank(s[k]) || cw(s[k]) > 0
  }

  lemma NewlineAppend(a: string, b: string)
    ensures NewlineAt(a + b) == if NewlineAt(a) < |a| then NewlineAt(a) else |a| + NewlineAt(b)
  {
    var i, j := NewlineAt(a), NewlineAt(a + b);
    assert forall k :: 0 <= k < |a| ==> (a + b)[k] == a[k];
    assert forall k :: 0 <= k < |b| ==> (a + b)[|a| + k] == b[k];
    if i < |a| {
      assert (a + b)[i] == '\n';
    } else if NewlineAt(b) < |b| {
      assert (a + b)[|a| + NewlineAt(b)] == '\n';
    }
  }

  lemma OpenAfter(closed: seq<string>, rows: seq<string>)
    requires rows != [] && !EndsClosed(Last(rows))
    ensures Open(closed + rows) && OpenText(closed + rows) == Last(rows)
    ensures ClosedLines(closed + rows) == closed + Init(rows)
  {
  }

  lemma CloseSplit(front: seq<string>, rows: seq<string>)
    requires rows != []
    ensures Close(front + rows) == front + Close(rows)
  {
  }

  /** Extending the wrapped open line extends its last row only. */
  lemma WrapExtends(cw: Metric, width: int, x: string, y: string)
    requires Clean(cw, x + y)
    ensures var rows := Wrapped(cw, x, width);
            && Clean(cw, Last(rows)) && !EndsClosed(Last(rows))
            && Wrapped(cw, x + y, width) == Init(rows) + Wrapped(cw, Last(rows) + y, width)
  {
    CleanSplit(cw, x, y);
    LastReplays(cw, width, x);
    var rows := Wrapped(cw, x, width);
    if y == "" {
      assert x + y == x && Last(rows) + y == Last(rows);
      assert Init(rows) + [Last(rows)] == rows;
    } else {
      WrapSplit(cw, width, x, y);
    }
  }

  lemma VisibleParts(cw: Metric, a: string, b: string, n: nat)
    requires Visible(cw, a + b) && NewlineAt(a) == |a| && n <= NewlineAt(b)
    ensures Clean(cw, a + b[..n])
  {
    forall k | 0 <= k < |a| + n ensures (a + b[..n])[k] == (a + b)[k] && (a + b)[k] != '\n' {
      assert k >= |a| ==> (a + b)[k] == b[k - |a|];
    }
  }

  lemma FedOpen(wrap: string -> seq<string>, lines: seq<string>, text: string)
    requires text != "" && NewlineAt(text) == |text|
    ensures Fed(wrap, lines, text) == ClosedLines(lines) + wrap(OpenText(lines) + text)
  {
  }

  lemma FedLine(wrap: string -> seq<string>, lines: seq<string>, head: string, rest: string)
    requires NewlineAt(head) == |head|
    ensures Fed(wrap, lines, head + "\n" + rest) ==
              Fed(wrap, ClosedLines(lines) + Close(wrap(OpenText(lines) + head)), rest)
  {
    var text := head + "\n" + rest;
    NewlineAppend(head, "\n" + rest);
    assert text == head + ("\n" + rest);
    assert text[..|head|] == head && text[|head| + 1..] == rest;
  }

  lemma Regroup(closed: seq<string>, rows: seq<string>, back: seq<string>)
    requires rows != [] && back != []
    ensures closed + (Init(rows) + back) == (closed + Init(rows)) + back
    ensures closed + Close(Init(rows) + back) == (closed + Init(rows)) + Close(back)
  {
    CloseSplit(Init(rows), back);
  }

  lemma FedPartialOpen(wrap: string -> seq<string>, lines: seq<string>, a: string, b: string)
    requires a != "" && b != "" && NewlineAt(a) == |a| && NewlineAt(b) == |b|
    requires var rows := wrap(OpenText(lines) + a);
             && rows != [] && !EndsClosed(Last(rows)) && wrap(Last(rows) + b) != []
             && wrap(OpenText(lines) + (a + b)) == Init(rows) + wrap(Last(rows) + b)
    ensures Fed(wrap, Fed(wrap, lines, a), b) == Fed(wrap, lines, a + b)
  {
    var closed, rows := ClosedLines(lines), wrap(OpenText(lines) + a);
    NewlineAppend(a, b);
    FedOpen(wrap, lines, a);
    OpenAfter(closed, rows);
    Regroup(closed, rows, wrap(Last(rows) + b));
    FedOpen(wrap, lines, a + b);
    FedOpen(wrap, closed + rows, b);
  }

  lemma FedPartialLine(wrap: string -> seq<string>, lines: seq<string>, a: string, y: string, rest: string)
    requires a != "" && NewlineAt(a) == |a| && NewlineAt(y) == |y|
    requires var rows := wrap(OpenText(lines) + a);
             && rows != [] && !EndsClosed(Last(rows)) && wrap(Last(rows) + y) != []
             && wrap(OpenText(lines) + (a + y)) == Init(rows) + wrap(Last(rows) + y)
    ensures Fed(wrap, Fed(wrap, lines, a), y + "\n" + rest) == Fed(wrap, lines, (a + y) + "\n" + rest)
  {
    var closed, rows := ClosedLines(lines), wrap(OpenText(lines) + a);
    NewlineAppend(a, y);
    FedOpen(wrap, lines, a);
    OpenAfter(closed, rows);
    Regroup(closed, rows, wrap(Last(rows) + y));
    FedLine(wrap, lines, a + y, rest);
    FedLine(wrap, closed + rows, y, rest);
  }

  lemma NewlineSplit(s: string) returns (y: string, rest: string)
    requires NewlineAt(s) < |s|
    ensures s == y + "\n" + rest && y == s[..NewlineAt(s)] && NewlineAt(y) == |y|
  {
    y, rest := s[..NewlineAt(s)], s[NewlineAt(s) + 1..];
    assert forall k :: 0 <= k < |y| ==> y[k] != '\n';
  }

  /** A delta that completes no line, then another delta. */
  lemma FedPartial(wrap: string -> seq<string>, lines: seq<string>, a: string, b: string)
    requires a != "" && b != "" && NewlineAt(a) == |a|
    requires var y := b[..NewlineAt(b)];
             var rows := wrap(OpenText(lines) + a);
             && rows != [] && !EndsClosed(Last(rows)) && wrap(Last(rows) + y) != []
             && wrap(OpenText(lines) + (a + y)) == Init(rows) + wrap(Last(rows) + y)
    ensures Fed(wrap, Fed(wrap, lines, a), b) == Fed(wrap, lines, a + b)
  {
    if NewlineAt(b) == |b| {
      assert b[..|b|] == b;
      FedPartialOpen(wrap, lines, a, b);
    } else {
      var y, rest := NewlineSplit(b);
      GlueLine(a, y, rest);
      FedPartialLine(wrap, lines, a, y, rest);
    }
  }

  lemma GlueLine(a: string, y: string, rest: string)
    ensures a + (y + "\n" + rest) == (a + y) + "\n" + rest
  {
  }

  /** The lines once the first line of a delta is settled, and what is left of the delta. */
  function Settled(wrap: string -> seq<string>, lines: seq<string>, text: string): seq<string> {
    ClosedLines(lines) + Close(wrap(OpenText(lines) + text[..NewlineAt(text)]))
  }

  function AfterLine(text: string): string
    requires NewlineAt(text) < |text|
  {
    text[NewlineAt(text) + 1..]
  }

  lemma FedSettles(wrap: string -> seq<string>, lines: seq<string>, text: string)
    requires NewlineAt(text) < |text|
    ensures Fed(wrap, lines, text) == Fed(wrap, Settled(wrap, lines, text), AfterLine(text))
  {
  }

  lemma SettledEarly(wrap: string -> seq<string>, lines: seq<string>, a: string, b: string)
    requires NewlineAt(a) < |a|
    ensures NewlineAt(a + b) == NewlineAt(a) && AfterLine(a + b) == AfterLine(a) + b
    ensures Settled(wrap, lines, a + b) == Settled(wrap, lines, a)
  {
    var i := NewlineAt(a);
    NewlineAppend(a, b);
    assert (a + b)[..i] == a[..i] && (a + b)[i + 1..] == a[i + 1..] + b;
  }

  lemma FedAppendOpen(cw: Metric, width: int, lines: seq<string>, a: string, b: string)
    requires Clean(cw, OpenText(lines)) && Visible(cw, a + b) && a != "" && b != "" && NewlineAt(a) == |a|
    ensures Fed(WrapAt(cw, width), Fed(WrapAt(cw, width), lines, a), b) == Fed(WrapAt(cw, width), lines, a + b)
  {
    var o, j := OpenText(lines), NewlineAt(b);
    VisibleParts(cw, a, b, j);
    CleanSplit(cw, o, a + b[..j]);
    assert o + (a + b[..j]) == (o + a) + b[..j];
    WrapExtends(cw, width, o + a, b[..j]);
    FedPartial(WrapAt(cw, width), lines, a, b);
  }

  lemma SettledClean(cw: Metric, width: int, lines: seq<string>, a: string, b: string)
    requires Visible(cw, a + b) && NewlineAt(a) < |a|
    ensures Clean(cw, OpenText(Settled(WrapAt(cw, width), lines, a))) && Visible(cw, AfterLine(a) + b)
  {
    VisibleTail(cw, a, b, NewlineAt(a) + 1);
    ClosedEnds(cw, width, ClosedLines(lines), OpenText(lines) + a[..NewlineAt(a)]);
  }

  /** Two deltas in a row leave what their concatenation leaves. */
  lemma {:induction false} FedAppend(cw: Metric, width: int, lines: seq<string>, a: string, b: string)
    requires Clean(cw, OpenText(lines)) && Visible(cw, a + b)
    ensures Fed(WrapAt(cw, width), Fed(WrapAt(cw, width), lines, a), b) == Fed(WrapAt(cw, width), lines, a + b)
    decreases |a|
  {
    if a == "" {
      assert a + b == b;
    } else if b == "" {
      assert a + b == a;
    } else if NewlineAt(a) < |a| {
      var wrap := WrapAt(cw, width);
      SettledClean(cw, width, lines, a, b);
      SettledEarly(wrap, lines, a, b);
      FedSettles(wrap, lines, a);
      FedSettles(wrap, lines, a + b);
      FedAppend(cw, width, Settled(wrap, lines, a), AfterLine(a), b);
    } else {
      FedAppendOpen(cw, width, lines, a, b);
    }
  }

  lemma VisibleTail(cw: Metric, a: string, b: string, i: nat)
    requires i <= |a| && Visible(cw, a + b)
    ensures Visible(cw, a[i..] + b)
  {
    assert a[i..] + b == (a + b)[i..];
  }

  lemma ClosedEnds(cw: Metric, width: int, lines: seq<string>, s: string)
    ensures !Open(lines + Close(Wrapped(cw, s, width)))
  {
  }

  lemma {:induction false} FedStaysClean(cw: Metric, width: int, lines: seq<string>, text: string)
    requires Clean(cw, OpenText(lines)) && Visible(cw, text)
    ensures Clean(cw, OpenText(Fed(WrapAt(cw, width), lines, text)))
    decreases |text|
  {
    var i := NewlineAt(text);
    if text != "" {
      if i == |text| {
        CleanSplit(cw, OpenText(lines), text);
        LastReplays(cw, width, OpenText(lines) + text);
      } else {
        FedStaysClean(cw, width, ClosedLines(lines) + Close(Wrapped(cw, OpenText(lines) + text[..i], width)), text[i + 1..]);
      }
    }
  }

  /** Streaming refines batch: any split of a visible text into deltas leaves the lines
      that one append of the whole text leaves. */
  lemma {:induction false} StreamingRefinesBatch(cw: Metric, width: int, lines: seq<string>, deltas: seq<string>)
    requires Clean(cw, OpenText(lines)) && Visible(cw, Concat(deltas))
    ensures FedAll(WrapAt(cw, width), lines, deltas) == Fed(WrapAt(cw, width), lines, Concat(deltas))
    decreases |deltas|
  {
    if deltas != [] {
      var d, rest := deltas[0], Concat(deltas[1..]);
      assert Visible(cw, d) by {
        assert forall k :: 0 <= k < |d| ==> d[k] == (d + rest)[k];
      }
      assert Visible(cw, rest) by {
        assert forall k :: 0 <= k < |rest| ==> rest[k] == (d + rest)[|d| + k];
      }
      FedStaysClean(cw, width, lines, d);
      StreamingRefinesBatch(cw, width, Fed(WrapAt(cw, width), lines, d), deltas[1..]);
      FedAppend(cw, width, lines, d, rest);
    }
  }

  // ---- The exact condition on the metric ----

  predicate IsRune(c: char) {
    c != '\n' && !IsBlank(c)
  }

  /** Streaming and batch agree for every width, start and split. */
  ghost predicate SplitBlind(cw: Metric) {
    forall width: int, deltas: seq<string> {:trigger FedAll(WrapAt(cw, width), [], deltas)} ::
      FedAll(WrapAt(cw, width), [], deltas) == Fed(WrapAt(cw, width), [], Concat(deltas))
  }

  /** A zero-width rune glues the next word to it, and the glue is lost on the re-wrap. */
  lemma ZeroWidthDiverges(cw: Metric, z: char, a: char)
    requires IsRune(z) && IsRune(a) && cw(z) == 0 && cw(a) > 0
    ensures !SplitBlind(cw)
  {
    var width := 2 * cw(a);
    var x, y := [z, ' ', a, a], [a];
    ZeroWidthBatch(cw, z, a);
    ZeroWidthStream(cw, z, a);
    assert Concat([x, y]) == [z, ' ', a, a, a] by {
      assert [x, y][1..] == [y] && [y][1..] == [] && Concat([y]) == y + "" == y;
      assert x + y == [z, ' ', a, a, a];
    }
    FedTwo(cw, width, x, y);
    assert FedAll(WrapAt(cw, width), [], [x, y]) != Fed(WrapAt(cw, width), [], Concat([x, y]));
  }

  lemma FedTwo(cw: Metric, width: int, x: string, y: string)
    ensures FedAll(WrapAt(cw, width), [], [x, y]) == Fed(WrapAt(cw, width), Fed(WrapAt(cw, width), [], x), y)
  {
    assert [x, y][1..] == [y] && [y][1..] == [];
    assert FedAll(WrapAt(cw, width), Fed(WrapAt(cw, width), Fed(WrapAt(cw, width), [], x), y), []) == Fed(WrapAt(cw, width), Fed(WrapAt(cw, width), [], x), y);
  }

  lemma WidthOf(cw: Metric, s: string, c: char)
    ensures Width(cw, s + [c]) == Width(cw, s) + (if c == ' ' then 1 else cw(c))
  {
    assert Init(s + [c]) == s;
  }

  lemma TwoWords(z: char, w: string)
    requires IsRune(z) && IsWord(w)
    ensures Words([z, ' '] + w) == [[z], w] && Words([z]) == [[z]]
  {
    WordsFirst("", [z]);
    assert "" + [z] == [z];
    WordsNext([z], w);
    assert [z] + " " + w == [z, ' '] + w;
  }

  /** The layout of a zero-width word before a word, and of both glued. */
  lemma GlueLayouts(cw: Metric, z: char, a: char)
    requires IsRune(z) && IsRune(a) && cw(z) == 0 && cw(a) > 0
    ensures var width := 2 * cw(a);
            && Filled(cw, [[z], [a, a, a]], width) == Layout([[z], [a, a]], [a])
            && Filled(cw, [[z], [a, a]], width) == Layout([], [z, a, a])
            && Filled(cw, [[z, a, a, a]], width) == Layout([[z, a, a]], [a])
  {
    var width := 2 * cw(a);
    GlueWidths(cw, z, a);
    OneWord(cw, [z], width);
    assert Init([[z], [a, a, a]]) == [[z]] && Init([[z], [a, a]]) == [[z]];
    assert "" + [z] == [z] && [z] + [a, a] == [z, a, a];
    assert [a, a, a][..2] == [a, a] && [a, a, a][2..] == [a];
    BreakGlue(cw, [[z]], [a, a, a], 2, width);
    assert Filled(cw, [[z]], width) == Layout([], [z]) && Flushed(Layout([], [z])) == [[z]];
    assert [[z]] + [[a, a]] == [[z], [a, a]];
    OneWord(cw, [z, a, a, a], width);
    assert [z, a, a, a][..3] == [z, a, a] && [z, a, a, a][3..] == [a];
    BreakGlue(cw, [], [z, a, a, a], 3, width);
  }

  lemma GlueWidths(cw: Metric, z: char, a: char)
    requires IsRune(z) && IsRune(a) && cw(z) == 0
    ensures Width(cw, [z]) == 0 && Width(cw, [a]) == cw(a) && Width(cw, [a, a]) == 2 * cw(a)
    ensures Width(cw, [a, a, a]) == 3 * cw(a) && Width(cw, [z, a, a]) == 2 * cw(a)
    ensures Width(cw, [z, a, a, a]) == 3 * cw(a)
  {
    WidthOf(cw, "", z);
    WidthOf(cw, "", a);
    assert "" + [z] == [z] && "" + [a] == [a];
    assert [a, a] == [a] + [a] && [a, a, a] == [a, a] + [a];
    WidthAppend(cw, [a], [a]);
    WidthAppend(cw, [a, a], [a]);
    assert [z, a, a] == [z] + [a, a] && [z, a, a, a] == [z] + [a, a, a];
    WidthAppend(cw, [z], [a, a]);
    WidthAppend(cw, [z], [a, a, a]);
  }

  /** A word whose first k runes fill the row exactly breaks there. */
  lemma BreakGlue(cw: Metric, rows: seq<string>, w: string, k: nat, width: int)
    requires 0 < k < |w| && Width(cw, w) > width && Width(cw, w[..k]) == width
    requires Width(cw, [w[k]]) > 0 && Width(cw, w[k..]) <= width
    ensures Broken(cw, rows, w, width) == Layout(rows + [w[..k]], w[k..])
  {
    FitPrefix(cw, w, width, 0, k);
  }

  lemma {:induction false} FitPrefix(cw: Metric, w: string, width: int, i: nat, k: nat)
    requires i <= k < |w| && Width(cw, w[..k]) == width && Width(cw, [w[k]]) > 0
    ensures FitFrom(cw, w, width, i, Width(cw, w[..i])) == k
    decreases k - i
  {
    if i < k {
      assert w[..i + 1] == w[..i] + [w[i]];
      WidthAppend(cw, w[..i], [w[i]]);
      assert w[..k] == w[..i + 1] + w[i + 1..k];
      WidthAppend(cw, w[..i + 1], w[i + 1..k]);
      FitPrefix(cw, w, width, i + 1, k);
    }
  }

  lemma ZeroWidthBatch(cw: Metric, z: char, a: char)
    requires IsRune(z) && IsRune(a) && cw(z) == 0 && cw(a) > 0
    ensures |Fed(WrapAt(cw, 2 * cw(a)), [], [z, ' ', a, a, a])| == 3
  {
    var x := [z, ' ', a, a, a];
    TwoWords(z, [a, a, a]);
    GlueLayouts(cw, z, a);
    assert [z, ' '] + [a, a, a] == x && NewlineAt(x) == |x| && "" + x == x;
    var rows := Wrapped(cw, x, 2 * cw(a));
    assert |rows| == 3;
  }

  lemma GlueFirst(cw: Metric, z: char, a: char)
    requires IsRune(z) && IsRune(a) && cw(z) == 0 && cw(a) > 0
    ensures Fed(WrapAt(cw, 2 * cw(a)), [], [z, ' ', a, a]) == [[z, a, a]]
  {
    var x, y := [z, ' ', a, a], [z, a, a];
    GlueWrapped(cw, z, a);
    assert NewlineAt(x) == |x| && "" + x == x;
    FedOpen(WrapAt(cw, 2 * cw(a)), [], x);
    assert [] + [y] == [y];
  }

  lemma GlueWrapped(cw: Metric, z: char, a: char)
    requires IsRune(z) && IsRune(a) && cw(z) == 0 && cw(a) > 0
    ensures Wrapped(cw, [z, ' ', a, a], 2 * cw(a)) == [[z, a, a]]
  {
    var x, y := [z, ' ', a, a], [z, a, a];
    TwoWords(z, [a, a]);
    GlueLayouts(cw, z, a);
    assert [z, ' '] + [a, a] == x;
    assert Edged("", [y], "") == [y] by {
      assert "" + y == y && y + "" == y;
    }
  }

  lemma GlueSecond(cw: Metric, z: char, a: char)
    requires IsRune(z) && IsRune(a) && cw(z) == 0 && cw(a) > 0
    ensures |Wrapped(cw, [z, a, a] + [a], 2 * cw(a))| == 2
  {
    var w := [z, a, a, a];
    GlueLayouts(cw, z, a);
    assert [z, a, a] + [a] == w && "" + w == w && IsWord(w);
    WordsFirst("", w);
  }

  lemma ZeroWidthStream(cw: Metric, z: char, a: char)
    requires IsRune(z) && IsRune(a) && cw(z) == 0 && cw(a) > 0
    ensures |Fed(WrapAt(cw, 2 * cw(a)), Fed(WrapAt(cw, 2 * cw(a)), [], [z, ' ', a, a]), [a])| == 2
  {
    GlueFirst(cw, z, a);
    GlueSecond(cw, z, a);
    var lines := [[z, a, a]];
    assert OpenText(lines) == [z, a, a] && ClosedLines(lines) == [];
    FedOpen(WrapAt(cw, 2 * cw(a)), lines, [a]);
  }

  /** When some rune is visible at all: streaming never shows its splits exactly when every rune is. */
  lemma SplitBlindExactly(cw: Metric, a: char)
    requires IsRune(a) && cw(a) > 0
    ensures SplitBlind(cw) <==> forall c: char :: IsRune(c) ==> cw(c) > 0
  {
    if forall c: char :: IsRune(c) ==> cw(c) > 0 {
      forall width: int, deltas: seq<string>
        ensures FedAll(WrapAt(cw, width), [], deltas) == Fed(WrapAt(cw, width), [], Concat(deltas))
      {
        StreamingRefinesBatch(cw, width, [], deltas);
      }
    } else {
      var z: char :| IsRune(z) && cw(z) == 0;
      ZeroWidthDiverges(cw, z, a);
    }
  }

  // ---- Streaming loses nothing ----

  lemma {:induction false} FlatAppend(a: seq<string>, b: seq<string>)
    ensures Flat(a + b) == Flat(a) + Flat(b)
  {
    if b == [] {
      assert a + b == a;
    } else {
      assert Init(a + b) == a + Init(b) && Last(a + b) == Last(b);
      FlatAppend(a, Init(b));
      assert Flat(a) + (Flat(Init(b)) + Last(b)) == (Flat(a) + Flat(Init(b))) + Last(b);
    }
  }

  lemma FlatOpen(lines: seq<string>)
    ensures Flat(lines) == Flat(ClosedLines(lines)) + OpenText(lines)
  {
  }

  lemma FlatClose(rows: seq<string>)
    requires rows != []
    ensures Flat(Close(rows)) == Flat(rows) + "\n"
  {
    assert Init(Close(rows)) == Init(rows);
  }

  /** Text wrapped behind some closed text keeps all letters. */
  lemma BehindLetters(closed: string, open: string, seg: string, wrapped: string)
    requires Letters(wrapped) == Letters(open + seg)
    ensures Letters(closed + wrapped) == Letters(closed + open) + Letters(seg)
  {
    Behind(Letters, closed, open, seg, wrapped) by {
      LettersAppend(closed, wrapped);
      LettersAppend(open, seg);
      LettersAppend(closed, open);
    }
  }

  lemma Behind(f: string -> string, closed: string, open: string, seg: string, wrapped: string)
    requires f(wrapped) == f(open + seg) && f(closed + wrapped) == f(closed) + f(wrapped)
    requires f(open + seg) == f(open) + f(seg) && f(closed + open) == f(closed) + f(open)
    ensures f(closed + wrapped) == f(closed + open) + f(seg)
  {
    assert f(closed) + (f(open) + f(seg)) == (f(closed) + f(open)) + f(seg);
  }

  lemma FlatBehind(lines: seq<string>, rows: seq<string>, seg: string)
    requires Letters(Flat(rows)) == Letters(OpenText(lines) + seg)
    ensures Letters(Flat(ClosedLines(lines) + rows)) == Letters(Flat(lines)) + Letters(seg)
  {
    FlatAppend(ClosedLines(lines), rows);
    FlatOpen(lines);
    BehindLetters(Flat(ClosedLines(lines)), OpenText(lines), seg, Flat(rows));
  }

  lemma CloseLetters(rows: seq<string>, open: string, seg: string)
    requires rows != [] && Letters(Flat(rows)) == Letters(open + seg)
    ensures Letters(Flat(Close(rows))) == Letters(open + (seg + "\n"))
  {
    FlatClose(rows);
    LettersAppend(Flat(rows), "\n");
    LettersAppend(open + seg, "\n");
    assert open + (seg + "\n") == (open + seg) + "\n";
  }

  /** Whatever the deltas, the lines hold every letter and every newline streamed so far, in order. */
  lemma {:induction false} FedKeepsLetters(cw: Metric, width: int, lines: seq<string>, text: string)
    ensures Letters(Flat(Fed(WrapAt(cw, width), lines, text))) == Letters(Flat(lines)) + Letters(text)
    decreases |text|
  {
    var i, open, closed := NewlineAt(text), OpenText(lines), ClosedLines(lines);
    if text == "" {
      assert Letters("") == "";
    } else if i == |text| {
      WrapKeepsLetters(cw, open + text, width);
      FlatBehind(lines, Wrapped(cw, open + text, width), text);
    } else {
      var rows := Wrapped(cw, open + text[..i], width);
      WrapKeepsLetters(cw, open + text[..i], width);
      CloseLetters(rows, open, text[..i]);
      FlatBehind(lines, Close(rows), text[..i] + "\n");
      FedKeepsLetters(cw, width, closed + Close(rows), text[i + 1..]);
      SplitLetters(Letters(Flat(lines)), text, i);
    }
  }

  lemma SplitLetters(before: string, text: string, i: nat)
    requires i < |text| && text[i] == '\n'
    ensures (before + Letters(text[..i] + "\n")) + Letters(text[i + 1..]) == before + Letters(text)
  {
    LettersParts(before, text[..i] + "\n", text[i + 1..]);
    SplitAtNewline(text, i);
  }

  lemma SplitAtNewline(text: string, i: nat)
    requires i < |text| && text[i] == '\n'
    ensures (text[..i] + "\n") + text[i + 1..] == text
  {
  }

  lemma LettersParts(before: string, a: string, b: string)
    ensures (before + Letters(a)) + Letters(b) == before + Letters(a + b)
  {
    LettersAppend(a, b);
    Regrouped(before, Letters(a), Letters(b));
  }

  lemma Regrouped(a: string, b: string, c: string)
    ensures (a + b) + c == a + (b + c)
  {
  }
}
