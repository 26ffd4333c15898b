/** The tree window over one thread's flatten, its slides, and the indent drawn from the
    sibling chains (src/core/view.go, src/tui/index.go). */
module Window {
  import opened Mail
  import opened Tree

  // ---- The window ----

  predicate Windowed(n: nat, winRows: nat) {
    0 < winRows < n
  }

  /** The start as materialized: merges can shrink the flatten between slides. */
  function Clamp(n: nat, start: nat, winRows: nat): (r: nat)
    requires Windowed(n, winRows)
    ensures r + winRows <= n
  {
    if start < n - winRows then start else n - winRows
  }

  /** A mid-thread start shifts the leading tree columns out. */
  function Shift(r: Row, cut: nat): Row {
    if cut == 0 then r else r.(depth := if r.depth < cut then 1 else r.depth - cut + 1)
  }

  function Shown(full: seq<Row>, start: nat, winRows: nat): seq<Row> {
    if !Windowed(|full|, winRows) then full
    else
      var s := Clamp(|full|, start, winRows);
      seq(winRows, k requires 0 <= k < winRows => Shift(full[s + k], full[s].depth))
  }

  method CutWindow(full: seq<Row>, start: nat, winRows: nat) returns (out: seq<Row>)
    ensures out == Shown(full, start, winRows)
  {
    if winRows == 0 || |full| <= winRows {
      return full;
    }
    var s := if start < |full| - winRows then start else |full| - winRows;
    out := full[s..s + winRows];
    var cut := out[0].depth;
    assert cut == full[s].depth;
    if cut > 0 {
      for i := 0 to |out|
        invariant |out| == winRows
        invariant forall k :: 0 <= k < i ==> out[k] == Shift(full[s + k], cut)
        invariant forall k :: i <= k < winRows ==> out[k] == full[s + k]
      {
        out := out[i := out[i].(depth := if out[i].depth < cut then 1 else out[i].depth - cut + 1)];
      }
    } else {
      assert forall k :: 0 <= k < winRows ==> out[k] == Shift(full[s + k], cut);
    }
  }

  lemma ShownAt(full: seq<Row>, start: nat, winRows: nat, k: nat)
    requires Windowed(|full|, winRows) && k < winRows
    ensures var s := Clamp(|full|, start, winRows); Shown(full, start, winRows)[k] == Shift(full[s + k], full[s].depth)
  {
  }

  /** A window whose first row is nested starts at depth 1 and keeps the steps between the rows at
      least as deep as its first; shallower ones join it at depth 1. Any other window keeps its depths.
      Nothing but the depth changes. */
  lemma DepthsShift(full: seq<Row>, start: nat, winRows: nat, k: nat)
    requires Windowed(|full|, winRows) && k < winRows
    ensures var shown, s := Shown(full, start, winRows), Clamp(|full|, start, winRows);
            && shown[k].(depth := full[s + k].depth) == full[s + k]
            && (full[s].depth == 0 ==> shown[k].depth == full[s + k].depth)
            && (full[s].depth > 0 ==>
                  && shown[0].depth == 1
                  && (if full[s + k].depth >= full[s].depth then shown[k].depth - shown[0].depth == full[s + k].depth - full[s].depth
                      else shown[k].depth == 1))
  {
    ShownAt(full, start, winRows, 0);
    ShownAt(full, start, winRows, k);
  }

  function MoreRow(id: string, more: nat, moreTop: nat): Row {
    Row(None, id, 0, false, [], 0, true, more, moreTop, false, [], false, false)
  }

  /** The rows in the window; the last one carries the hidden-below count. */
  function Body(full: seq<Row>, start: nat, winRows: nat): (r: seq<Row>)
    requires Windowed(|full|, winRows)
    ensures |r| == winRows
  {
    var out := Shown(full, start, winRows);
    out[winRows - 1 := out[winRows - 1].(more := |full| - Clamp(|full|, start, winRows) - winRows)]
  }

  function Indicator(id: string, more: nat, moreTop: nat): seq<Row> {
    if more == 0 && moreTop == 0 then [] else [MoreRow(id, more, moreTop)]
  }

  /** The thread's rows with the "+N more" indicators around them. */
  function Emitted(full: seq<Row>, id: string, start: nat, winRows: nat): seq<Row> {
    if !Windowed(|full|, winRows) then full
    else
      var s := Clamp(|full|, start, winRows);
      Indicator(id, 0, s) + Body(full, start, winRows) + Indicator(id, |full| - s - winRows, 0)
  }

  method EmitWindow(full: seq<Row>, id: string, start: nat, winRows: nat) returns (out: seq<Row>)
    requires forall k :: 0 <= k < |full| ==> full[k].more == 0
    ensures out == Emitted(full, id, start, winRows)
  {
    out := CutWindow(full, start, winRows);
    if winRows > 0 && |full| > winRows {
      var s := if start < |full| - winRows then start else |full| - winRows;
      var n := |full| - (s + winRows);
      if n > 0 {
        out := out[|out| - 1 := out[|out| - 1].(more := n)];
      } else {
        LastPlain(full, start, winRows);
      }
      assert out == Body(full, start, winRows);
      if n > 0 {
        out := out + [MoreRow(id, n, 0)];
      }
      if s > 0 {
        out := [MoreRow(id, 0, s)] + out;
      }
    }
  }

  /** With nothing hidden below, the last row of the window is the flatten's. */
  lemma LastPlain(full: seq<Row>, start: nat, winRows: nat)
    requires Windowed(|full|, winRows) && Clamp(|full|, start, winRows) + winRows == |full| && full[|full| - 1].more == 0
    ensures Body(full, start, winRows) == Shown(full, start, winRows)
  {
    ShownAt(full, start, winRows, winRows - 1);
  }

  predicate SameLine(a: Row, b: Row) {
    a.msg == b.msg && a.threadID == b.threadID && a.siblings == b.siblings
  }

  function Above(rows: seq<Row>): nat {
    if rows == [] then 0 else rows[0].moreTop
  }

  function Below(rows: seq<Row>): nat {
    if rows == [] then 0 else rows[|rows| - 1].more
  }

  function Flag(n: nat): nat {
    if n > 0 then 1 else 0
  }

  lemma EmittedParts(full: seq<Row>, id: string, start: nat, winRows: nat)
    requires Windowed(|full|, winRows) && forall k :: 0 <= k < |full| ==> full[k].more == 0 && full[k].moreTop == 0
    ensures var rows, s := Emitted(full, id, start, winRows), Clamp(|full|, start, winRows);
            && Above(rows) == s && Below(rows) == |full| - s - winRows
            && |rows| == Flag(Above(rows)) + winRows + Flag(Below(rows))
  {
    ShownAt(full, start, winRows, 0);
    ShownAt(full, start, winRows, winRows - 1);
  }

  lemma BodyAt(full: seq<Row>, start: nat, winRows: nat, k: nat)
    requires Windowed(|full|, winRows) && k < winRows
    ensures var row, s := Body(full, start, winRows)[k], Clamp(|full|, start, winRows);
            SameLine(row, full[s + k]) && row.depth == Shift(full[s + k], full[s].depth).depth
  {
    ShownAt(full, start, winRows, k);
  }

  lemma ConcatAt(a: seq<Row>, b: seq<Row>, c: seq<Row>, q: nat)
    requires q < |a + b + c|
    ensures (a + b + c)[q] == if q < |a| then a[q] else if q < |a| + |b| then b[q - |a|] else c[q - |a| - |b|]
  {
  }

  lemma EmittedIs(full: seq<Row>, id: string, start: nat, winRows: nat, q: nat)
    requires Windowed(|full|, winRows) && q < |Emitted(full, id, start, winRows)|
    ensures var row, s := Emitted(full, id, start, winRows)[q], Clamp(|full|, start, winRows);
            if Flag(s) <= q < Flag(s) + winRows then row == Body(full, start, winRows)[q - Flag(s)] else row.depth == 0
  {
    var s := Clamp(|full|, start, winRows);
    FramedAt(id, s, Body(full, start, winRows), |full| - s - winRows, q);
  }

  lemma FramedAt(id: string, above: nat, body: seq<Row>, below: nat, q: nat)
    requires q < |Indicator(id, 0, above) + body + Indicator(id, below, 0)|
    ensures var row := (Indicator(id, 0, above) + body + Indicator(id, below, 0))[q];
            if Flag(above) <= q < Flag(above) + |body| then row == body[q - Flag(above)] else row.depth == 0
  {
    ConcatAt(Indicator(id, 0, above), body, Indicator(id, below, 0), q);
  }

  /** Where each emitted row comes from. */
  lemma EmittedAt(full: seq<Row>, id: string, start: nat, winRows: nat, q: nat)
    requires Windowed(|full|, winRows) && q < |Emitted(full, id, start, winRows)|
    ensures var row, s := Emitted(full, id, start, winRows)[q], Clamp(|full|, start, winRows);
            if Flag(s) <= q < Flag(s) + winRows
            then SameLine(row, full[q - Flag(s) + s]) && row.depth == Shift(full[q - Flag(s) + s], full[s].depth).depth
            else row.depth == 0
  {
    var s := Clamp(|full|, start, winRows);
    EmittedIs(full, id, start, winRows, q);
    if Flag(s) <= q < Flag(s) + winRows {
      var k := q - Flag(s);
      BodyAt(full, start, winRows, k);
      assert s + k == q - Flag(s) + s;
      assert full[s + k] == full[q - Flag(s) + s];
    }
  }

  /** Behind the indicator come winRows rows of the flatten, from row s on. */
  ghost predicate ShowsFrom(full: seq<Row>, rows: seq<Row>, winRows: nat, s: nat) {
    && s + winRows <= |full| && Flag(s) + winRows <= |rows|
    && forall q :: Flag(s) <= q < Flag(s) + winRows ==> SameLine(rows[q], full[q - Flag(s) + s])
  }

  /** Nothing is lost: the hidden-above count, the rows shown and the hidden-below count add up
      to the full flatten, and the rows shown are the ones in between. */
  lemma WindowConserves(full: seq<Row>, id: string, start: nat, winRows: nat)
    requires Windowed(|full|, winRows) && forall k :: 0 <= k < |full| ==> full[k].more == 0 && full[k].moreTop == 0
    ensures var rows := Emitted(full, id, start, winRows);
            && Above(rows) + winRows + Below(rows) == |full|
            && |rows| == Flag(Above(rows)) + winRows + Flag(Below(rows))
            && ShowsFrom(full, rows, winRows, Above(rows))
  {
    EmittedParts(full, id, start, winRows);
    EmittedLines(full, id, start, winRows, Emitted(full, id, start, winRows), Clamp(|full|, start, winRows));
  }

  lemma EmittedLines(full: seq<Row>, id: string, start: nat, winRows: nat, rows: seq<Row>, s: nat)
    requires Windowed(|full|, winRows) && rows == Emitted(full, id, start, winRows) && s == Clamp(|full|, start, winRows)
    requires |rows| >= Flag(s) + winRows
    ensures ShowsFrom(full, rows, winRows, s)
  {
    forall q | Flag(s) <= q < Flag(s) + winRows ensures SameLine(rows[q], full[q - Flag(s) + s]) {
      EmittedAt(full, id, start, winRows, q);
    }
  }

  // ---- Reveal and slide ----

  /** RevealMsg's new start for the row at index at. */
  function RevealStart(n: nat, winRows: nat, start: nat, at: nat): nat {
    if Windowed(n, winRows) && (at < start || at >= start + winRows)
    then if at < winRows / 2 then 0 else if at - winRows / 2 < n - winRows then at - winRows / 2 else n - winRows
    else start
  }

  /** Whether the window from start shows the row at index at. */
  predicate InWindow(start: nat, winRows: nat, at: nat) {
    start <= at < start + winRows
  }

  /** A row in the window moves nothing; any other gets half a window of rows above it, or as many
      as there are, or, near the end, the last full window. */
  lemma RevealCentres(n: nat, winRows: nat, start: nat, at: nat)
    requires at < n
    ensures var s := RevealStart(n, winRows, start, at);
            && (!Windowed(n, winRows) || InWindow(start, winRows, at) ==> s == start)
            && (Windowed(n, winRows) && !InWindow(start, winRows, at) ==>
                  && InWindow(s, winRows, at) && s + winRows <= n
                  && (at - s < winRows / 2 <==> at < winRows / 2) && (at < winRows / 2 ==> s == 0)
                  && (at - s > winRows / 2 ==> s + winRows == n))
  {
  }

  /** The revealed row sits inside the window. */
  lemma RevealedIsShown(full: seq<Row>, id: string, start: nat, winRows: nat, at: nat)
    requires at < |full|
    ensures var rows := Emitted(full, id, RevealStart(|full|, winRows, start, at), winRows);
            exists k :: 0 <= k < |rows| && rows[k].msg == full[at].msg
  {
    var s := RevealStart(|full|, winRows, start, at);
    var rows := Emitted(full, id, s, winRows);
    if Windowed(|full|, winRows) {
      var c := Clamp(|full|, s, winRows);
      RevealedInside(|full|, winRows, start, at);
      EmittedLength(full, id, s, winRows);
      EmittedAt(full, id, s, winRows, Flag(c) + at - c);
      assert rows[Flag(c) + at - c].msg == full[at].msg;
    } else {
      assert rows[at].msg == full[at].msg;
    }
  }

  lemma RevealedInside(n: nat, winRows: nat, start: nat, at: nat)
    requires Windowed(n, winRows) && at < n
    ensures var c := Clamp(n, RevealStart(n, winRows, start, at), winRows); c <= at < c + winRows
  {
  }

  lemma EmittedLength(full: seq<Row>, id: string, start: nat, winRows: nat)
    requires Windowed(|full|, winRows)
    ensures |Emitted(full, id, start, winRows)| >= Flag(Clamp(|full|, start, winRows)) + winRows
  {
  }

  /** SlideWindow: the new start, or nothing when it refuses. */
  function Slid(n: nat, winRows: nat, start: nat, step: int): Option<nat> {
    if !Windowed(n, winRows) || start + step < 0 then None
    else if start + step > n - winRows then if n - winRows == start then None else Some(n - winRows)
    else Some(start + step)
  }

  /** From an in-range start a non-zero slide stays in range, moves the way it was asked to, and
      refuses exactly when nothing hides that way (a step back past the top refuses whole). */
  lemma SlideInRange(n: nat, winRows: nat, start: nat, step: int)
    requires Windowed(n, winRows) && start <= n - winRows && step != 0
    ensures var r := Slid(n, winRows, start, step);
            && (r.Some? ==> r.value <= n - winRows && (if step > 0 then start < r.value <= start + step else r.value == start + step))
            && (r.None? <==> if step > 0 then start == n - winRows else start < -step)
  {
  }

  function Slides(n: nat, winRows: nat, start: nat, step: nat, times: nat): nat {
    if times == 0 then start
    else
      var s := Slides(n, winRows, start, step, times - 1);
      if Slid(n, winRows, s, step).Some? then Slid(n, winRows, s, step).value else s
  }

  /** Repeated forward slides reach the tail, never passing it. */
  lemma {:induction false} SlidesReachTail(n: nat, winRows: nat, start: nat, step: nat, times: nat)
    requires Windowed(n, winRows) && start <= n - winRows && step > 0
    ensures Slides(n, winRows, start, step, times) <= n - winRows
    ensures Slides(n, winRows, start, step, times) == n - winRows || Slides(n, winRows, start, step, times) >= start + times
    ensures start + times >= n - winRows ==> Slides(n, winRows, start, step, times) == n - winRows
  {
    if times > 0 {
      SlidesReachTail(n, winRows, start, step, times - 1);
    }
  }

  lemma {:induction false} SlidesCover(n: nat, winRows: nat, start: nat, step: nat, times: nat, at: nat) returns (t: nat)
    requires Windowed(n, winRows) && start <= n - winRows && 0 < step <= winRows
    requires start <= at < Slides(n, winRows, start, step, times) + winRows
    ensures t <= times && Slides(n, winRows, start, step, t) <= at < Slides(n, winRows, start, step, t) + winRows
  {
    t := times;
    if at < Slides(n, winRows, start, step, times) {
      SlidesReachTail(n, winRows, start, step, times - 1);
      SlideInRange(n, winRows, Slides(n, winRows, start, step, times - 1), step);
      t := SlidesCover(n, winRows, start, step, times - 1, at);
    }
  }

  /** Slides by no more than the window skip nothing: every row from the start on is in the window
      after some number of them. */
  lemma SlidesShowAll(n: nat, winRows: nat, start: nat, step: nat, at: nat) returns (t: nat)
    requires Windowed(n, winRows) && start <= n - winRows && 0 < step <= winRows && start <= at < n
    ensures Slides(n, winRows, start, step, t) <= at < Slides(n, winRows, start, step, t) + winRows
  {
    SlidesReachTail(n, winRows, start, step, n);
    t := SlidesCover(n, winRows, start, step, n, at);
  }

  // ---- The tree indent ----

  datatype Glyphs = Glyphs(tree: string, child: string, blank: string, branch: string, leaf: string, leafDesc: string)

  /** Columns lo..hi: a bar where the chain entry says the ancestor has a sibling below. */
  function Columns(siblings: seq<bool>, lo: nat, hi: nat, g: Glyphs): string
    requires lo <= hi <= |siblings|
  {
    if lo == hi then ""
    else Columns(siblings, lo, hi - 1, g) + if siblings[|siblings| - hi] then g.child else g.blank
  }

  function Tip(r: Row, g: Glyphs): string {
    if r.siblings != [] && r.siblings[0] then g.branch else if r.desc then g.leafDesc else g.leaf
  }

  /** The chain index read for column c is in range: the caller's whole obligation. */
  predicate Drawable(r: Row) {
    r.depth <= |r.siblings| + 1
  }

  function FirstColumn(r: Row): nat {
    if r.depth > |r.siblings| then r.depth - |r.siblings| else 0
  }

  function Prefix(r: Row, g: Glyphs): string
    requires Drawable(r)
  {
    if r.depth == 0 then if r.count > 1 then g.tree else ""
    else if FirstColumn(r) >= r.depth - 1 then Tip(r, g)
    else Columns(r.siblings, FirstColumn(r), r.depth - 1, g) + Tip(r, g)
  }

  method TreePrefix(r: Row, g: Glyphs) returns (s: string)
    requires Drawable(r)
    ensures s == Prefix(r, g)
  {
    if r.depth == 0 {
      return if r.count > 1 then g.tree else "";
    }
    s := "";
    var lo := if r.depth > |r.siblings| then r.depth - |r.siblings| else 0;
    var c := lo;
    while c < r.depth - 1
      invariant lo <= c && (lo < r.depth - 1 ==> c <= r.depth - 1)
      invariant if lo < r.depth - 1 then s == Columns(r.siblings, lo, c, g) else s == ""
    {
      s := s + if r.siblings[|r.siblings| - 1 - c] then g.child else g.blank;
      c := c + 1;
    }
    s := s + if |r.siblings| > 0 && r.siblings[0] then g.branch else if r.desc then g.leafDesc else g.leaf;
  }

  /** Every flattened row's chain is as long as its depth. */
  ghost predicate Chained(rows: seq<Row>) {
    forall k :: 0 <= k < |rows| ==> |rows[k].siblings| == rows[k].depth
  }

  /** The entry of a sibling chain that column c draws, counting from the top of the thread. */
  function Mark(chain: seq<bool>, c: nat): bool
    requires c < |chain|
  {
    chain[|chain| - 1 - c]
  }

  /** Two chains share the ancestors of the first n levels. */
  predicate Alike(a: seq<bool>, b: seq<bool>, n: nat) {
    n <= |a| && n <= |b| && forall c: nat :: c < n ==> Mark(a, c) == Mark(b, c)
  }

  /** A row goes at most one level deeper than the row before, and shares its chain above that. */
  predicate Follows(a: Row, b: Row) {
    b.depth <= a.depth + 1 && (b.depth > 0 ==> Alike(a.siblings, b.siblings, b.depth - 1))
  }

  predicate Fits(r: Row, n: nat, chain: seq<bool>) {
    |r.siblings| == r.depth && n <= r.depth && Alike(r.siblings, chain, n)
  }

  /** The walk below an ancestor of depth n with the given chain. */
  ghost predicate Under(rows: seq<Row>, n: nat, chain: seq<bool>) {
    && |chain| == n
    && (forall k :: 0 <= k < |rows| ==> Fits(rows[k], n, chain))
    && (forall k :: 0 < k < |rows| ==> Follows(rows[k - 1], rows[k]))
  }

  lemma JointFollows(a: Row, b: Row, n: nat, chain: seq<bool>)
    requires |chain| == n && Fits(a, n, chain) && Fits(b, n, chain) && b.depth <= n + 1
    ensures Follows(a, b)
  {
  }

  lemma UnderAppend(a: seq<Row>, b: seq<Row>, n: nat, chain: seq<bool>)
    requires Under(a, n, chain) && Under(b, n, chain) && (b != [] ==> b[0].depth <= n + 1)
    ensures Under(a + b, n, chain)
  {
    if a != [] && b != [] {
      JointFollows(a[|a| - 1], b[0], n, chain);
    }
    var rows := a + b;
    forall k | 0 < k < |rows| ensures Follows(rows[k - 1], rows[k]) {
      if k < |a| {
        assert rows[k] == a[k] && rows[k - 1] == a[k - 1];
      } else if k == |a| {
        assert rows[k] == b[0] && rows[k - 1] == a[|a| - 1];
      } else {
        assert rows[k] == b[k - |a|] && rows[k - 1] == b[k - |a| - 1];
      }
    }
    forall k | 0 <= k < |rows| ensures Fits(rows[k], n, chain) {
      assert rows[k] == if k < |a| then a[k] else b[k - |a|];
    }
  }

  lemma UnderLess(rows: seq<Row>, n: nat, below: bool, chain: seq<bool>)
    requires Under(rows, n + 1, [below] + chain) && |chain| == n
    ensures Under(rows, n, chain)
  {
    var longer := [below] + chain;
    forall k | 0 <= k < |rows| ensures Fits(rows[k], n, chain) {
      assert Fits(rows[k], n + 1, longer);
      forall c: nat | c < n ensures Mark(rows[k].siblings, c) == Mark(chain, c) {
        assert Mark(longer, c) == Mark(chain, c);
      }
    }
  }

  lemma {:induction false} WalkUnder(w: Walker, n: Node, depth: nat, siblings: seq<bool>)
    requires |siblings| == depth && NoForest(n.children) && (n.forest ==> depth == 0)
    ensures var rows := Walk(w, n, depth, siblings); Under(rows, depth, siblings) && (rows != [] ==> rows[0].depth == depth)
    decreases Size(n), 0
  {
    OrderedNoForest(n.children, w.desc);
    if n.forest {
      WalkAllUnder(w, OrderedChildren(n.children, w.desc), 0, depth, None);
    }
    WalkAllUnder(w, OrderedChildren(n.children, w.desc), 0, depth + 1, Some(siblings));
    TopUnder(w, n, depth, siblings);
  }

  lemma HeadUnder(top: Row, below: seq<Row>, n: nat, chain: seq<bool>)
    requires top.siblings == chain && top.depth == |chain| == n
    requires Under(below, n, chain) && (below != [] ==> below[0].depth == n + 1)
    ensures Under([top] + below, n, chain)
  {
    assert Fits(top, n, chain);
    UnderAppend([top], below, n, chain);
  }

  lemma TopUnder(w: Walker, n: Node, depth: nat, siblings: seq<bool>)
    requires |siblings| == depth
    requires n.forest ==> AllUnder(w, OrderedChildren(n.children, w.desc), 0, depth, None)
    requires AllUnder(w, OrderedChildren(n.children, w.desc), 0, depth + 1, Some(siblings))
    requires n.forest ==> depth == 0
    ensures var rows := Walk(w, n, depth, siblings); Under(rows, depth, siblings) && (rows != [] ==> rows[0].depth == depth)
  {
    var below := WalkAll(w, OrderedChildren(n.children, w.desc), 0, depth + 1, Some(siblings));
    HeadUnder(if n.msg.None? then MarkerRow(w, depth, siblings) else MsgRow(w, n.msg.value, depth, siblings), below, depth, siblings);
  }

  /** The walk over a sibling list stays under the parent. */
  ghost predicate AllUnder(w: Walker, kids: seq<Node>, i: nat, depth: nat, chain: Option<seq<bool>>) {
    var rows := WalkAll(w, kids, i, depth, chain);
    && (if chain.None? then depth == 0 && Under(rows, 0, []) else |chain.value| + 1 == depth && Under(rows, depth - 1, chain.value))
    && (rows != [] ==> rows[0].depth == depth)
  }

  lemma {:induction false} WalkAllUnder(w: Walker, kids: seq<Node>, i: nat, depth: nat, chain: Option<seq<bool>>)
    requires NoForest(kids) && (if chain.None? then depth == 0 else |chain.value| + 1 == depth)
    ensures AllUnder(w, kids, i, depth, chain)
    decreases SizeAll(kids), 1
  {
    if kids != [] {
      var hasBelow := if w.desc then i != 0 else |kids| != 1;
      var siblings := if chain.None? then [] else [hasBelow] + chain.value;
      WalkUnder(w, kids[0], depth, siblings);
      WalkAllUnder(w, kids[1..], i + 1, depth, chain);
      var first, rest := Walk(w, kids[0], depth, siblings), WalkAll(w, kids[1..], i + 1, depth, chain);
      if chain.None? {
        UnderAppend(first, rest, 0, []);
      } else {
        UnderLess(first, depth - 1, hasBelow, chain.value);
        UnderAppend(first, rest, depth - 1, chain.value);
      }
    }
  }

  // ---- Only the window marks rows ----

  ghost predicate NoMarks(rows: seq<Row>) {
    forall k :: 0 <= k < |rows| ==> rows[k].more == 0 && rows[k].moreTop == 0
  }

  lemma NoMarksAppend(a: seq<Row>, b: seq<Row>)
    requires NoMarks(a) && NoMarks(b)
    ensures NoMarks(a + b)
  {
  }

  lemma Unmarked(root: Option<Node>, id: string, collapsed: bool, skipDeleted: bool, desc: bool)
    ensures NoMarks(Flatten(root, id, collapsed, skipDeleted, desc))
  {
    if root.Some? && !collapsed {
      WalkUnmarked(Walker(id, Count(root), skipDeleted, desc), root.value, 0, []);
    }
  }

  lemma {:induction false} WalkUnmarked(w: Walker, n: Node, depth: nat, siblings: seq<bool>)
    ensures NoMarks(Walk(w, n, depth, siblings))
    decreases Size(n), 0
  {
    WalkAllUnmarked(w, OrderedChildren(n.children, w.desc), 0, depth, None);
    WalkAllUnmarked(w, OrderedChildren(n.children, w.desc), 0, depth + 1, Some(siblings));
    TopUnmarked(w, n, depth, siblings);
  }

  lemma TopUnmarked(w: Walker, n: Node, depth: nat, siblings: seq<bool>)
    requires NoMarks(WalkAll(w, OrderedChildren(n.children, w.desc), 0, depth, None))
    requires NoMarks(WalkAll(w, OrderedChildren(n.children, w.desc), 0, depth + 1, Some(siblings)))
    ensures NoMarks(Walk(w, n, depth, siblings))
  {
    var below := WalkAll(w, OrderedChildren(n.children, w.desc), 0, depth + 1, Some(siblings));
    if n.msg.None? {
      NoMarksAppend([MarkerRow(w, depth, siblings)], below);
    } else {
      NoMarksAppend([MsgRow(w, n.msg.value, depth, siblings)], below);
    }
  }

  lemma {:induction false} WalkAllUnmarked(w: Walker, kids: seq<Node>, i: nat, depth: nat, chain: Option<seq<bool>>)
    ensures NoMarks(WalkAll(w, kids, i, depth, chain))
    decreases SizeAll(kids), 1
  {
    if kids != [] {
      var hasBelow := if w.desc then i != 0 else |kids| != 1;
      var siblings := if chain.None? then [] else [hasBelow] + chain.value;
      WalkUnmarked(w, kids[0], depth, siblings);
      WalkAllUnmarked(w, kids[1..], i + 1, depth, chain);
      NoMarksAppend(Walk(w, kids[0], depth, siblings), WalkAll(w, kids[1..], i + 1, depth, chain));
    }
  }

  /** Only a thread's root is synthetic. */
  ghost predicate NoForest(ns: seq<Node>)
    decreases SizeAll(ns), 1
  {
    ns == [] || (Plain(ns[0]) && NoForest(ns[1..]))
  }

  ghost predicate Plain(n: Node)
    decreases Size(n), 0
  {
    !n.forest && NoForest(n.children)
  }

  lemma {:induction false} OrderedNoForest(ns: seq<Node>, desc: bool)
    requires NoForest(ns)
    ensures NoForest(OrderedChildren(ns, desc))
  {
    if desc && |ns| > 1 {
      SortedNoForest(ns);
    }
  }

  lemma {:induction false} SortedNoForest(ns: seq<Node>)
    requires NoForest(ns)
    ensures NoForest(StableSorted(ns))
  {
    if ns != [] {
      SortedNoForest(ns[1..]);
      InsertedNoForest(ns[0], StableSorted(ns[1..]));
    }
  }

  lemma {:induction false} InsertedNoForest(x: Node, ns: seq<Node>)
    requires Plain(x) && NoForest(ns)
    ensures NoForest(Inserted(x, ns))
  {
    if ns == [] || SubtreeMax(x) <= SubtreeMax(ns[0]) {
      assert ([x] + ns)[1..] == ns;
    } else {
      InsertedNoForest(x, ns[1..]);
      var rest := Inserted(x, ns[1..]);
      assert ([ns[0]] + rest)[1..] == rest;
    }
  }

  lemma {:induction false} TreeNoForest(msgs: seq<Message>, i: nat, d: nat)
    requires HasDepth(msgs, i, d)
    ensures Plain(TreeAt(msgs, i, d))
    decreases |msgs| - d, |msgs| + 1
  {
    DepthFits(msgs, i, d);
    TreesNoForest(msgs, ChildrenOf(msgs, i), d + 1, i);
  }

  lemma {:induction false} TreesNoForest(msgs: seq<Message>, kids: seq<nat>, d: nat, p: nat)
    requires d > 0 && HasDepth(msgs, p, d - 1) && d <= |msgs| && |kids| <= |msgs|
    requires forall k :: 0 <= k < |kids| ==> kids[k] < |msgs| && ParentOf(msgs, kids[k]) == Some(p)
    ensures NoForest(TreesAt(msgs, kids, d, p))
    decreases |msgs| - d + 1, |kids|
  {
    if kids != [] {
      TreeNoForest(msgs, kids[0], d);
      TreesNoForest(msgs, kids[1..], d, p);
      assert TreesAt(msgs, kids, d, p)[1..] == TreesAt(msgs, kids[1..], d, p);
    }
  }

  lemma {:induction false} RootsNoForest(msgs: seq<Message>, roots: seq<nat>)
    requires forall k :: 0 <= k < |roots| ==> roots[k] < |msgs| && ParentOf(msgs, roots[k]) == None
    ensures NoForest(RootTrees(msgs, roots))
  {
    if roots != [] {
      TreeNoForest(msgs, roots[0], 0);
      RootsNoForest(msgs, roots[1..]);
      assert RootTrees(msgs, roots)[1..] == RootTrees(msgs, roots[1..]);
    }
  }

  lemma ThreadUnder(msgs: seq<Message>, id: string, skipDeleted: bool, desc: bool)
    requires TreeOf(msgs).Some?
    ensures var rows := ThreadWalk(msgs, id, skipDeleted, desc); Under(rows, 0, []) && (rows != [] ==> rows[0].depth == 0)
  {
    var root := TreeOf(msgs).value;
    RootsNoForest(msgs, Roots(msgs));
    if |Roots(msgs)| == 1 {
      TreeNoForest(msgs, Roots(msgs)[0], 0);
    }
    WalkUnder(Walker(id, Count(TreeOf(msgs)), skipDeleted, desc), root, 0, []);
  }

  lemma UnderChained(rows: seq<Row>)
    requires Under(rows, 0, [])
    ensures Chained(rows) && Chained(Reversed(rows))
  {
    assert forall k :: 0 <= k < |rows| ==> Fits(rows[k], 0, []);
  }

  /** Every row of every thread carries one chain entry per level. */
  lemma FlattenChained(msgs: seq<Message>, id: string, collapsed: bool, skipDeleted: bool, desc: bool)
    ensures Chained(Flatten(TreeOf(msgs), id, collapsed, skipDeleted, desc))
  {
    if TreeOf(msgs).Some? && !collapsed {
      ThreadUnder(msgs, id, skipDeleted, desc);
      UnderChained(ThreadWalk(msgs, id, skipDeleted, desc));
    }
  }

  /** After the depth cut no row's indent reads outside its chain, whatever the window. */
  lemma WindowDrawable(full: seq<Row>, id: string, start: nat, winRows: nat)
    requires Chained(full)
    ensures forall k :: 0 <= k < |Emitted(full, id, start, winRows)| ==> Drawable(Emitted(full, id, start, winRows)[k])
  {
    var rows := Emitted(full, id, start, winRows);
    if Windowed(|full|, winRows) {
      forall k | 0 <= k < |rows| ensures Drawable(rows[k]) {
        EmittedAt(full, id, start, winRows, k);
      }
    }
  }

  /** Row j is the ancestor row of row k: everything from there to k is deeper. */
  predicate Over(rows: seq<Row>, j: nat, k: nat) {
    j < k < |rows| && forall i :: j < i <= k ==> rows[i].depth > rows[j].depth
  }

  /** The same on a thread's rows as shown, which desc reads bottom up. */
  predicate IsAncestor(full: seq<Row>, desc: bool, j: nat, k: nat) {
    if desc then k < j < |full| && forall i :: k <= i < j ==> full[i].depth > full[j].depth else Over(full, j, k)
  }

  lemma {:induction false} AncestorRow(rows: seq<Row>, k: nat, d: nat) returns (j: nat)
    requires Under(rows, 0, []) && k < |rows| && rows[0].depth == 0 && d < rows[k].depth
    ensures Over(rows, j, k) && rows[j].depth == d && Fits(rows[j], 0, []) && Alike(rows[k].siblings, rows[j].siblings, d)
  {
    assert Follows(rows[k - 1], rows[k]) && Fits(rows[k - 1], 0, []);
    j := k - 1;
    if rows[k - 1].depth > d {
      j := AncestorRow(rows, k - 1, d);
    }
  }

  lemma ReversedOver(rows: seq<Row>, full: seq<Row>, p: nat, q: nat)
    requires Over(rows, p, q) && full == Reversed(rows)
    ensures IsAncestor(full, true, |rows| - 1 - p, |rows| - 1 - q)
  {
    forall i | |rows| - 1 - q <= i < |rows| - 1 - p ensures full[i].depth > full[|rows| - 1 - p].depth {
      assert full[i] == rows[|rows| - 1 - i];
    }
  }

  /** The indent of row k of the window has a column c before its own tip. */
  predicate HasColumn(full: seq<Row>, start: nat, winRows: nat, k: nat, c: nat) {
    Windowed(|full|, winRows) && k < winRows && c + 1 < Shown(full, start, winRows)[k].depth
  }

  /** That column draws the sibling mark of the row's ancestor j, at true depth c + 1. */
  ghost predicate DrawsAncestor(full: seq<Row>, desc: bool, start: nat, winRows: nat, k: nat, c: nat, j: nat)
    requires HasColumn(full, start, winRows, k, c)
  {
    var s, row := Clamp(|full|, start, winRows), Shown(full, start, winRows)[k];
    && j < |full| && IsAncestor(full, desc, j, s + k) && full[j].depth == c + 1 && full[j].siblings != []
    && Drawable(row) && FirstColumn(row) == 0 && Mark(row.siblings, c) == full[j].siblings[0]
    && (full[s].depth + c == full[j].depth <==> full[s].depth == 1)
  }

  /** Column c of a windowed row draws the sibling mark of the row's ancestor at true depth c + 1,
      whatever was cut. The ancestor at depth cut + c, which the window's own comment names, is the
      one drawn only when the cut is 1. */
  lemma ColumnsStartAtTheTop(msgs: seq<Message>, id: string, skipDeleted: bool, desc: bool, start: nat, winRows: nat, k: nat, c: nat)
    returns (j: nat)
    requires TreeOf(msgs).Some? && HasColumn(Flatten(TreeOf(msgs), id, false, skipDeleted, desc), start, winRows, k, c)
    ensures DrawsAncestor(Flatten(TreeOf(msgs), id, false, skipDeleted, desc), desc, start, winRows, k, c, j)
  {
    ThreadUnder(msgs, id, skipDeleted, desc);
    j := ColumnsOf(ThreadWalk(msgs, id, skipDeleted, desc), Flatten(TreeOf(msgs), id, false, skipDeleted, desc), desc, start, winRows, k, c);
  }

  lemma UnderFits(rows: seq<Row>, q: nat)
    requires Under(rows, 0, []) && q < |rows|
    ensures Fits(rows[q], 0, [])
  {
  }

  lemma ColumnsOf(rows: seq<Row>, full: seq<Row>, desc: bool, start: nat, winRows: nat, k: nat, c: nat) returns (j: nat)
    requires Under(rows, 0, []) && (rows != [] ==> rows[0].depth == 0) && full == (if desc then Reversed(rows) else rows)
    requires HasColumn(full, start, winRows, k, c)
    ensures DrawsAncestor(full, desc, start, winRows, k, c, j)
  {
    ShownAt(full, start, winRows, k);
    var s := Clamp(|full|, start, winRows);
    var at := s + k;
    var q := if desc then |full| - 1 - at else at;
    assert full[at] == rows[q];
    UnderFits(rows, q);
    ShiftDrawn(full[at], full[s].depth, c);
    var p := MarkedRow(rows, q, c);
    j := if desc then |full| - 1 - p else p;
    Placed(rows, full, desc, p, q);
  }

  /** The two rows' places in the display. */
  lemma Placed(rows: seq<Row>, full: seq<Row>, desc: bool, p: nat, q: nat)
    requires Over(rows, p, q) && q < |rows| && full == (if desc then Reversed(rows) else rows)
    ensures var j, at := if desc then |full| - 1 - p else p, if desc then |full| - 1 - q else q;
            0 <= at < |full| && 0 <= j < |full| && full[j] == rows[p] && full[at] == rows[q] && IsAncestor(full, desc, j, at)
  {
    if desc {
      ReversedOver(rows, full, p, q);
    }
  }

  lemma ShiftDrawn(r: Row, cut: nat, c: nat)
    requires |r.siblings| == r.depth && c + 1 < Shift(r, cut).depth
    ensures c + 1 < r.depth && Drawable(Shift(r, cut)) && FirstColumn(Shift(r, cut)) == 0
    ensures Shift(r, cut).siblings == r.siblings
  {
  }

  lemma MarkedRow(rows: seq<Row>, q: nat, c: nat) returns (p: nat)
    requires Under(rows, 0, []) && q < |rows| && rows[0].depth == 0 && c + 1 < rows[q].depth == |rows[q].siblings|
    ensures Over(rows, p, q) && rows[p].depth == |rows[p].siblings| == c + 1
    ensures Mark(rows[q].siblings, c) == rows[p].siblings[0]
  {
    p := AncestorRow(rows, q, c + 1);
    assert Mark(rows[p].siblings, c) == rows[p].siblings[0];
  }
}
