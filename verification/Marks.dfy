/** The order of siblings in a flatten and the marks their connectors are drawn from
    (src/core/view.go). */
module Marks {
  import opened Mail
  import opened Tree

  // ---- Siblings in display order ----

  /** The newest timestamp in the subtree of message i. */
  function Key(msgs: seq<Message>, i: nat, d: nat): int
    requires HasDepth(msgs, i, d)
  {
    SubtreeMax(TreeAt(msgs, i, d))
  }

  /** z is i or a message below it. */
  ghost predicate Descends(msgs: seq<Message>, z: nat, i: nat, steps: nat)
    decreases steps
  {
    z < |msgs| && if steps == 0 then z == i else ParentOf(msgs, z).Some? && Descends(msgs, ParentOf(msgs, z).value, i, steps - 1)
  }

  /** The walk meets x before y: the older message first, or, newest first, the one whose subtree is
      older (the earlier message when they are equally new). */
  predicate Ahead(msgs: seq<Message>, x: nat, y: nat, d: nat, desc: bool)
    requires HasDepth(msgs, x, d) && HasDepth(msgs, y, d)
  {
    if desc then Key(msgs, x, d) < Key(msgs, y, d) || (Key(msgs, x, d) == Key(msgs, y, d) && x < y) else x < y
  }

  /** Some sibling of x is placed below it on screen, which desc fills from the bottom. */
  ghost predicate SiblingBelow(msgs: seq<Message>, x: nat, d: nat, desc: bool)
    requires HasDepth(msgs, x, d)
  {
    exists y: nat :: HasDepth(msgs, y, d) && ParentOf(msgs, y) == ParentOf(msgs, x)
                     && if desc then Ahead(msgs, y, x, d, true) else Ahead(msgs, x, y, d, false)
  }

  /** All the messages under one parent, in the order the walk meets them. */
  ghost predicate Line(msgs: seq<Message>, order: seq<nat>, d: nat, p: Option<nat>, desc: bool) {
    && AllAt(msgs, order, d)
    && (forall y: nat :: y in order <==> y < |msgs| && ParentOf(msgs, y) == p)
    && (forall a, b :: 0 <= a < b < |order| ==> Ahead(msgs, order[a], order[b], d, desc))
  }

  predicate AllAt(msgs: seq<Message>, order: seq<nat>, d: nat) {
    forall k :: 0 <= k < |order| ==> HasDepth(msgs, order[k], d)
  }

  lemma LineBelow(msgs: seq<Message>, order: seq<nat>, d: nat, p: Option<nat>, desc: bool, n: nat)
    requires Line(msgs, order, d, p, desc) && n < |order|
    ensures SiblingBelow(msgs, order[n], d, desc) <==> if desc then n > 0 else n + 1 < |order|
  {
    assert order[n] in order;
    if desc && n > 0 {
      assert order[0] in order && Ahead(msgs, order[0], order[n], d, true);
    }
    if !desc && n + 1 < |order| {
      assert order[n + 1] in order && Ahead(msgs, order[n], order[n + 1], d, false);
    }
    if SiblingBelow(msgs, order[n], d, desc) {
      var y: nat :| HasDepth(msgs, y, d) && ParentOf(msgs, y) == ParentOf(msgs, order[n])
                    && if desc then Ahead(msgs, y, order[n], d, true) else Ahead(msgs, order[n], y, d, false);
      assert y in order;
      var m :| 0 <= m < |order| && order[m] == y;
      assert m != n;
    }
  }

  // ---- The order the children are walked in ----

  function Trees(msgs: seq<Message>, order: seq<nat>, d: nat): (r: seq<Node>)
    requires AllAt(msgs, order, d)
    ensures |r| == |order|
  {
    if order == [] then [] else [TreeAt(msgs, order[0], d)] + Trees(msgs, order[1..], d)
  }

  lemma {:induction false} KidTrees(msgs: seq<Message>, kids: seq<nat>, d: nat, p: nat)
    requires d > 0 && HasDepth(msgs, p, d - 1) && d <= |msgs| && |kids| <= |msgs|
    requires forall k :: 0 <= k < |kids| ==> kids[k] < |msgs| && ParentOf(msgs, kids[k]) == Some(p)
    ensures AllAt(msgs, kids, d) && TreesAt(msgs, kids, d, p) == Trees(msgs, kids, d)
  {
    if kids != [] {
      KidTrees(msgs, kids[1..], d, p);
    }
  }

  lemma {:induction false} RootsAre(msgs: seq<Message>, roots: seq<nat>)
    requires forall k :: 0 <= k < |roots| ==> roots[k] < |msgs| && ParentOf(msgs, roots[k]) == None
    ensures AllAt(msgs, roots, 0) && RootTrees(msgs, roots) == Trees(msgs, roots, 0)
  {
    if roots != [] {
      RootsAre(msgs, roots[1..]);
    }
  }

  lemma {:induction false} Hung(msgs: seq<Message>, p: Option<nat>, n: nat, y: nat)
    requires y < n <= |msgs| && ParentOf(msgs, y) == p
    ensures y in Hanging(msgs, p, n)
  {
    if y < n - 1 {
      Hung(msgs, p, n - 1, y);
    }
  }

  lemma {:induction false} HangingRises(msgs: seq<Message>, p: Option<nat>, n: nat)
    requires n <= |msgs|
    ensures Rising(Hanging(msgs, p, n))
  {
    if n > 0 {
      HangingRises(msgs, p, n - 1);
    }
  }

  /** What hangs under a parent is listed completely, oldest first. */
  lemma HangingLine(msgs: seq<Message>, p: Option<nat>)
    ensures var r := Hanging(msgs, p, |msgs|); Rising(r) && forall y: nat :: y in r <==> y < |msgs| && ParentOf(msgs, y) == p
  {
    HangingRises(msgs, p, |msgs|);
    forall y: nat | y < |msgs| && ParentOf(msgs, y) == p ensures y in Hanging(msgs, p, |msgs|) {
      Hung(msgs, p, |msgs|, y);
    }
  }

  ghost predicate Rising(order: seq<nat>) {
    forall a, b :: 0 <= a < b < |order| ==> order[a] < order[b]
  }

  ghost predicate InLine(msgs: seq<Message>, order: seq<nat>, d: nat, desc: bool)
    requires AllAt(msgs, order, d)
  {
    forall a, b :: 0 <= a < b < |order| ==> Ahead(msgs, order[a], order[b], d, desc)
  }

  lemma {:induction false} SortLine(msgs: seq<Message>, kids: seq<nat>, d: nat) returns (order: seq<nat>)
    requires AllAt(msgs, kids, d) && Rising(kids)
    ensures AllAt(msgs, order, d) && InLine(msgs, order, d, true) && (forall y :: y in order <==> y in kids)
    ensures Trees(msgs, order, d) == StableSorted(Trees(msgs, kids, d))
  {
    order := [];
    if kids != [] {
      var rest := SortLine(msgs, kids[1..], d);
      assert Trees(msgs, kids, d)[1..] == Trees(msgs, kids[1..], d);
      forall y | y in rest ensures kids[0] < y {
        assert y in kids[1..];
      }
      order := InsertLine(msgs, kids[0], rest, d);
      assert kids == [kids[0]] + kids[1..];
    }
  }

  lemma {:induction false} InsertLine(msgs: seq<Message>, x: nat, line: seq<nat>, d: nat) returns (order: seq<nat>)
    requires HasDepth(msgs, x, d) && AllAt(msgs, line, d) && InLine(msgs, line, d, true) && forall y :: y in line ==> x < y
    ensures AllAt(msgs, order, d) && InLine(msgs, order, d, true) && (forall y :: y in order <==> y == x || y in line)
    ensures Trees(msgs, order, d) == Inserted(TreeAt(msgs, x, d), Trees(msgs, line, d))
  {
    if line == [] || Key(msgs, x, d) <= Key(msgs, line[0], d) {
      order := [x] + line;
      forall b | 0 <= b < |line| ensures Ahead(msgs, x, line[b], d, true) {
        assert line[b] in line && (b > 0 ==> Ahead(msgs, line[0], line[b], d, true));
      }
      LeadLine(msgs, x, line, d);
    } else {
      assert Trees(msgs, line, d)[1..] == Trees(msgs, line[1..], d);
      forall y | y in line[1..] ensures x < y {
        assert y in line;
      }
      var rest := InsertLine(msgs, x, line[1..], d);
      order := [line[0]] + rest;
      forall b | 0 <= b < |rest| ensures Ahead(msgs, line[0], rest[b], d, true) {
        assert rest[b] in rest;
        if rest[b] != x {
          var a :| 0 <= a < |line[1..]| && line[1..][a] == rest[b];
          assert Ahead(msgs, line[0], line[a + 1], d, true);
        }
      }
      LeadLine(msgs, line[0], rest, d);
      assert line == [line[0]] + line[1..];
    }
  }

  lemma LeadLine(msgs: seq<Message>, x: nat, line: seq<nat>, d: nat)
    requires HasDepth(msgs, x, d) && AllAt(msgs, line, d) && InLine(msgs, line, d, true)
    requires forall b :: 0 <= b < |line| ==> Ahead(msgs, x, line[b], d, true)
    ensures AllAt(msgs, [x] + line, d) && InLine(msgs, [x] + line, d, true)
    ensures Trees(msgs, [x] + line, d) == [TreeAt(msgs, x, d)] + Trees(msgs, line, d)
  {
    assert ([x] + line)[1..] == line;
  }

  /** Ordering a parent's child trees is putting its children in line. */
  lemma WalkedInLine(msgs: seq<Message>, kids: seq<nat>, d: nat, p: Option<nat>, desc: bool) returns (order: seq<nat>)
    requires kids == Hanging(msgs, p, |msgs|) && AllAt(msgs, kids, d)
    ensures Line(msgs, order, d, p, desc) && Trees(msgs, order, d) == OrderedChildren(Trees(msgs, kids, d), desc)
  {
    HangingLine(msgs, p);
    if !desc || |kids| <= 1 {
      order := kids;
    } else {
      order := SortLine(msgs, kids, d);
    }
  }

  // ---- Rows side by side ----

  /** Rows j and k are on one level, with nothing shallower between. */
  predicate Sib(rows: seq<Row>, j: nat, k: nat) {
    j < k < |rows| && rows[j].depth == rows[k].depth && forall i :: j < i < k ==> rows[i].depth >= rows[j].depth
  }

  /** The rows of one subtree, its top on the given level. */
  predicate Block(rows: seq<Row>, depth: nat) {
    rows == [] || (rows[0].depth == depth && forall k :: 0 < k < |rows| ==> rows[k].depth > depth)
  }

  predicate Blocks(rows: seq<Row>, depth: nat) {
    rows == [] || (rows[0].depth == depth && forall k :: 0 <= k < |rows| ==> rows[k].depth >= depth)
  }

  lemma SibIn(a: seq<Row>, b: seq<Row>, j: nat, k: nat)
    ensures k < |a| ==> (Sib(a + b, j, k) <==> Sib(a, j, k))
    ensures j >= |a| && k >= |a| ==> (Sib(a + b, j, k) <==> Sib(b, j - |a|, k - |a|))
  {
    var rows := a + b;
    if k < |a| {
      assert forall i :: 0 <= i <= k ==> rows[i] == a[i];
    }
    if j >= |a| && k >= |a| {
      assert forall i :: |a| <= i < |rows| ==> rows[i] == b[i - |a|];
      if Sib(b, j - |a|, k - |a|) {
        assert forall i :: j < i < k ==> rows[i] == b[i - |a|];
      }
      if Sib(rows, j, k) {
        forall i | j - |a| < i < k - |a| ensures b[i].depth >= b[j - |a|].depth {
          assert rows[i + |a|] == b[i];
        }
      }
    }
  }

  /** Across two subtrees side by side only the tops are on one level. */
  lemma SibAcross(a: seq<Row>, b: seq<Row>, depth: nat, j: nat, k: nat)
    requires Block(a, depth) && Blocks(b, depth) && j < |a| <= k < |a + b|
    ensures Sib(a + b, j, k) <==> j == 0 && b[k - |a|].depth == depth
  {
    var rows := a + b;
    assert rows[j] == a[j] && rows[k] == b[k - |a|] && rows[|a|] == b[0];
    if j == 0 {
      forall i | 0 < i < k ensures rows[i].depth >= depth {
        assert rows[i] == if i < |a| then a[i] else b[i - |a|];
      }
    }
  }

  // ---- What holds of every row of a walk ----

  predicate Spot(msgs: seq<Message>, row: Row, x: nat, e: nat) {
    HasDepth(msgs, x, e) && row.msg == Some(msgs[x])
  }

  /** The row's mark says whether a sibling is placed below it, hidden ones counted. */
  ghost predicate MarkRight(msgs: seq<Message>, row: Row, desc: bool) {
    row.siblings != [] ==> exists x: nat, e: nat :: Spot(msgs, row, x, e) && (row.siblings[0] <==> SiblingBelow(msgs, x, e, desc))
  }

  /** Of two rows, siblings in walk order. */
  ghost predicate InOrder(msgs: seq<Message>, a: Row, b: Row, desc: bool) {
    exists x: nat, y: nat, e: nat ::
      Spot(msgs, a, x, e) && Spot(msgs, b, y, e) && ParentOf(msgs, x) == ParentOf(msgs, y) && Ahead(msgs, x, y, e, desc)
  }

  ghost predicate HasBefore(rows: seq<Row>, q: nat) {
    exists j: nat :: Sib(rows, j, q)
  }

  ghost predicate HasAfter(rows: seq<Row>, q: nat) {
    exists k: nat :: Sib(rows, q, k)
  }

  /** The row's mark says whether some row is on one level with it: before it for desc, else after. */
  ghost predicate Partnered(rows: seq<Row>, q: nat, desc: bool)
    requires q < |rows|
  {
    rows[q].siblings != [] ==>
      (rows[q].siblings[0] <==> if desc then HasBefore(rows, q) else HasAfter(rows, q))
  }

  /** Nothing is hidden. */
  ghost predicate Shows(w: Walker, msgs: seq<Message>) {
    forall k :: 0 <= k < |msgs| ==> !(w.skipDeleted && "deleted" in msgs[k].tags)
  }

  ghost predicate RowsRight(msgs: seq<Message>, rows: seq<Row>, desc: bool) {
    && (forall q :: 0 <= q < |rows| ==> MarkRight(msgs, rows[q], desc))
    && (forall j: nat, k: nat :: Sib(rows, j, k) ==> InOrder(msgs, rows[j], rows[k], desc))
  }

  /** One subtree's rows; its own top has no partner inside. */
  ghost predicate SubtreeRight(msgs: seq<Message>, w: Walker, rows: seq<Row>, depth: nat) {
    && Block(rows, depth) && RowsRight(msgs, rows, w.desc)
    && (Shows(w, msgs) ==> rows != [] && forall q :: 0 < q < |rows| ==> Partnered(rows, q, w.desc))
  }

  /** The rows of the siblings from the n-th on; newest first, the top of the first has its partner
      before these rows, if it is not the first of all. */
  ghost predicate ListRight(msgs: seq<Message>, w: Walker, rows: seq<Row>, order: seq<nat>, n: nat, e: nat, depth: nat)
    requires n <= |order|
  {
    && Blocks(rows, depth) && RowsRight(msgs, rows, w.desc)
    && TopsOf(msgs, rows, depth, order, n, e)
    && (Shows(w, msgs) ==>
          && (rows == [] <==> n == |order|)
          && (forall q :: 0 <= q < |rows| && (q > 0 || !w.desc) ==> Partnered(rows, q, w.desc))
          && (w.desc && rows != [] && rows[0].siblings != [] ==> (rows[0].siblings[0] <==> n > 0)))
  }

  /** The rows on the given level are those of siblings from the n-th on. */
  ghost predicate TopsOf(msgs: seq<Message>, rows: seq<Row>, depth: nat, order: seq<nat>, n: nat, e: nat) {
    forall q :: 0 <= q < |rows| && rows[q].depth == depth ==> exists m: nat :: TopOf(msgs, rows[q], order, m, n, e)
  }

  ghost predicate TopOf(msgs: seq<Message>, row: Row, order: seq<nat>, m: nat, n: nat, e: nat) {
    n <= m < |order| && Spot(msgs, row, order[m], e)
  }

  // ---- Putting walks together ----

  lemma RowsJoin(msgs: seq<Message>, a: seq<Row>, b: seq<Row>, order: seq<nat>, n: nat, e: nat, p: Option<nat>, depth: nat, desc: bool)
    requires Line(msgs, order, e, p, desc) && n < |order|
    requires Block(a, depth) && Blocks(b, depth) && RowsRight(msgs, a, desc) && RowsRight(msgs, b, desc)
    requires a != [] ==> Spot(msgs, a[0], order[n], e)
    requires TopsOf(msgs, b, depth, order, n + 1, e)
    ensures RowsRight(msgs, a + b, desc)
  {
    var rows := a + b;
    forall q | 0 <= q < |rows| ensures MarkRight(msgs, rows[q], desc) {
      assert rows[q] == if q < |a| then a[q] else b[q - |a|];
    }
    forall j: nat, k: nat | Sib(rows, j, k) ensures InOrder(msgs, rows[j], rows[k], desc) {
      SibIn(a, b, j, k);
      if j < |a| <= k {
        SibAcross(a, b, depth, j, k);
        var m: nat :| TopOf(msgs, b[k - |a|], order, m, n + 1, e);
        assert order[n] in order && order[m] in order && Ahead(msgs, order[n], order[m], e, desc);
      }
    }
  }

  /** Newest first, a row of the second part has its partner in that part, or it is the top met first. */
  lemma PartnersBefore(a: seq<Row>, b: seq<Row>, depth: nat, q: nat, at: nat)
    requires Block(a, depth) && Blocks(b, depth) && a != [] && q < |b| && at == |a| + q
    ensures HasBefore(a + b, at) <==> q == 0 || HasBefore(b, q)
  {
    if q == 0 {
      SibAcross(a, b, depth, 0, at);
    }
    if HasBefore(b, q) {
      var j: nat :| Sib(b, j, q);
      SibIn(a, b, |a| + j, at);
    }
    if HasBefore(a + b, at) && q > 0 {
      var j: nat :| Sib(a + b, j, at);
      SibIn(a, b, j, at);
      if j < |a| {
        SibAcross(a, b, depth, j, at);
        assert Sib(b, 0, q);
      } else {
        assert Sib(b, j - |a|, q);
      }
    }
  }

  lemma PartnersAfter(a: seq<Row>, b: seq<Row>, depth: nat, q: nat, at: nat)
    requires Block(a, depth) && Blocks(b, depth) && q < |b| && at == |a| + q
    ensures HasAfter(a + b, at) <==> HasAfter(b, q)
  {
    if HasAfter(a + b, at) {
      var k: nat :| Sib(a + b, at, k);
      SibIn(a, b, at, k);
      assert Sib(b, q, k - |a|);
    }
    if HasAfter(b, q) {
      var k: nat :| Sib(b, q, k);
      SibIn(a, b, at, |a| + k);
    }
  }

  lemma PartnersInside(a: seq<Row>, b: seq<Row>, depth: nat, q: nat)
    requires Block(a, depth) && Blocks(b, depth) && q < |a|
    ensures HasBefore(a + b, q) <==> HasBefore(a, q)
    ensures HasAfter(a + b, q) <==> if q > 0 then HasAfter(a, q) else b != []
  {
    if HasBefore(a + b, q) {
      var j: nat :| Sib(a + b, j, q);
      SibIn(a, b, j, q);
    }
    if HasBefore(a, q) {
      var j: nat :| Sib(a, j, q);
      SibIn(a, b, j, q);
    }
    if HasAfter(a + b, q) {
      var k: nat :| Sib(a + b, q, k);
      SibIn(a, b, q, k);
      if k >= |a| {
        SibAcross(a, b, depth, q, k);
      }
    }
    if HasAfter(a, q) {
      var k: nat :| Sib(a, q, k);
      SibIn(a, b, q, k);
    }
    if q == 0 && b != [] {
      SibAcross(a, b, depth, 0, |a|);
    }
  }

  lemma TopsJoin(msgs: seq<Message>, a: seq<Row>, b: seq<Row>, order: seq<nat>, n: nat, e: nat, depth: nat)
    requires n < |order| && Block(a, depth) && TopsOf(msgs, b, depth, order, n + 1, e) && (a != [] ==> Spot(msgs, a[0], order[n], e))
    ensures TopsOf(msgs, a + b, depth, order, n, e)
  {
    var rows := a + b;
    forall q | 0 <= q < |rows| && rows[q].depth == depth ensures exists m: nat :: TopOf(msgs, rows[q], order, m, n, e) {
      if q < |a| {
        assert q == 0 && TopOf(msgs, rows[0], order, n, n, e);
      } else {
        assert rows[q] == b[q - |a|];
        var m: nat :| TopOf(msgs, b[q - |a|], order, m, n + 1, e);
        assert TopOf(msgs, rows[q], order, m, n, e);
      }
    }
  }

  /** The subtree of the n-th sibling in front of the others' rows. */
  lemma ListStep(msgs: seq<Message>, w: Walker, a: seq<Row>, b: seq<Row>, order: seq<nat>, n: nat, e: nat, p: Option<nat>, depth: nat)
    requires Line(msgs, order, e, p, w.desc) && n < |order|
    requires SubtreeRight(msgs, w, a, depth) && ListRight(msgs, w, b, order, n + 1, e, depth)
    requires a != [] ==> Spot(msgs, a[0], order[n], e)
    requires a != [] && a[0].siblings != [] ==> (a[0].siblings[0] <==> if w.desc then n > 0 else n + 1 < |order|)
    ensures ListRight(msgs, w, a + b, order, n, e, depth)
  {
    var rows := a + b;
    RowsJoin(msgs, a, b, order, n, e, p, depth, w.desc);
    TopsJoin(msgs, a, b, order, n, e, depth);
    if Shows(w, msgs) {
      forall q | 0 <= q < |rows| && (q > 0 || !w.desc) ensures Partnered(rows, q, w.desc) {
        ListPartners(msgs, w, a, b, order, n, e, depth, q);
      }
    }
  }

  lemma ListPartners(msgs: seq<Message>, w: Walker, a: seq<Row>, b: seq<Row>, order: seq<nat>, n: nat, e: nat, depth: nat, q: nat)
    requires Shows(w, msgs) && n < |order| && q < |a + b| && (q > 0 || !w.desc)
    requires SubtreeRight(msgs, w, a, depth) && ListRight(msgs, w, b, order, n + 1, e, depth)
    requires a[0].siblings != [] ==> (a[0].siblings[0] <==> if w.desc then n > 0 else n + 1 < |order|)
    ensures Partnered(a + b, q, w.desc)
  {
    if q < |a| {
      PartnersInside(a, b, depth, q);
      assert q > 0 ==> Partnered(a, q, w.desc);
    } else {
      PartnersBefore(a, b, depth, q - |a|, q);
      PartnersAfter(a, b, depth, q - |a|, q);
      assert q > |a| || !w.desc ==> Partnered(b, q - |a|, w.desc);
    }
  }

  lemma SibUnder(top: Row, below: seq<Row>, depth: nat, j: nat, k: nat)
    requires top.depth == depth && Blocks(below, depth + 1)
    ensures Sib([top] + below, j, k) <==> 0 < j < k && Sib(below, j - 1, k - 1)
  {
    SibIn([top], below, j, k);
    if 0 < k < |below| + 1 {
      assert ([top] + below)[k] == below[k - 1];
    }
  }

  lemma RowsUnder(msgs: seq<Message>, top: Row, below: seq<Row>, depth: nat, desc: bool)
    requires top.depth == depth && Blocks(below, depth + 1) && MarkRight(msgs, top, desc) && RowsRight(msgs, below, desc)
    ensures RowsRight(msgs, [top] + below, desc)
  {
    var rows := [top] + below;
    forall q | 0 <= q < |rows| ensures MarkRight(msgs, rows[q], desc) {
      assert q > 0 ==> rows[q] == below[q - 1];
    }
    forall j: nat, k: nat | Sib(rows, j, k) ensures InOrder(msgs, rows[j], rows[k], desc) {
      SibUnder(top, below, depth, j, k);
      assert Sib(below, j - 1, k - 1);
    }
  }

  /** A row on top of its children's rows. */
  lemma SubtreeStep(msgs: seq<Message>, w: Walker, top: Row, below: seq<Row>, order: seq<nat>, e: nat, depth: nat)
    requires top.depth == depth && MarkRight(msgs, top, w.desc) && ListRight(msgs, w, below, order, 0, e, depth + 1)
    ensures SubtreeRight(msgs, w, [top] + below, depth)
  {
    var rows := [top] + below;
    assert forall q :: 0 < q < |rows| ==> rows[q] == below[q - 1];
    RowsUnder(msgs, top, below, depth, w.desc);
    if Shows(w, msgs) {
      forall q | 0 < q < |rows| ensures Partnered(rows, q, w.desc) {
        UnderPartners(top, below, depth, q - 1, q);
        if q > 1 || !w.desc {
          assert Partnered(below, q - 1, w.desc);
        }
      }
    }
  }

  lemma UnderPartners(top: Row, below: seq<Row>, depth: nat, q: nat, at: nat)
    requires top.depth == depth && Blocks(below, depth + 1) && q < |below| && at == q + 1
    ensures HasBefore([top] + below, at) <==> HasBefore(below, q)
    ensures HasAfter([top] + below, at) <==> HasAfter(below, q)
  {
    if HasBefore([top] + below, at) {
      var j: nat :| Sib([top] + below, j, at);
      SibUnder(top, below, depth, j, at);
      assert Sib(below, j - 1, q);
    }
    if HasBefore(below, q) {
      var j: nat :| Sib(below, j, q);
      SibUnder(top, below, depth, j + 1, at);
    }
    if HasAfter([top] + below, at) {
      var k: nat :| Sib([top] + below, at, k);
      SibUnder(top, below, depth, at, k);
      assert Sib(below, q, k - 1);
    }
    if HasAfter(below, q) {
      var k: nat :| Sib(below, q, k);
      SibUnder(top, below, depth, at, k + 1);
    }
  }

  // ---- The walk ----

  ghost predicate MarksItself(msgs: seq<Message>, i: nat, d: nat, siblings: seq<bool>, desc: bool) {
    HasDepth(msgs, i, d) && (siblings != [] ==> (siblings[0] <==> SiblingBelow(msgs, i, d, desc)))
  }

  /** The walk of message i's subtree is right. */
  ghost predicate WalkedRight(msgs: seq<Message>, w: Walker, i: nat, d: nat, depth: nat, siblings: seq<bool>)
    requires HasDepth(msgs, i, d)
  {
    var rows := Walk(w, TreeAt(msgs, i, d), depth, siblings);
    SubtreeRight(msgs, w, rows, depth) && (rows != [] ==> Spot(msgs, rows[0], i, d) && rows[0].siblings == siblings)
  }

  /** The walk over the siblings from the n-th on is right. */
  ghost predicate KidsWalkedRight(msgs: seq<Message>, w: Walker, order: seq<nat>, n: nat, e: nat, depth: nat, chain: Option<seq<bool>>)
    requires n <= |order| && AllAt(msgs, order[n..], e)
  {
    ListRight(msgs, w, WalkAll(w, Trees(msgs, order[n..], e), n, depth, chain), order, n, e, depth)
  }

  lemma {:induction false} WalkRight(msgs: seq<Message>, w: Walker, i: nat, d: nat, depth: nat, siblings: seq<bool>)
    requires MarksItself(msgs, i, d, siblings, w.desc)
    ensures WalkedRight(msgs, w, i, d, depth, siblings)
    decreases |msgs| - d, |msgs| + 1
  {
    DepthFits(msgs, i, d);
    if Hides(w, TreeAt(msgs, i, d)) {
      NothingRight(msgs, w, i, d, depth, siblings);
    } else {
      var order := WalkShape(msgs, w, i, d, depth, siblings);
      KidsRight(msgs, w, order, 0, d + 1, Some(i), depth + 1, Some(siblings));
      TopRight(msgs, w, i, d, depth, siblings, order);
    }
  }

  lemma NothingRight(msgs: seq<Message>, w: Walker, i: nat, d: nat, depth: nat, siblings: seq<bool>)
    requires HasDepth(msgs, i, d) && Hides(w, TreeAt(msgs, i, d))
    ensures WalkedRight(msgs, w, i, d, depth, siblings)
  {
    assert !Shows(w, msgs) by {
      assert w.skipDeleted && "deleted" in msgs[i].tags;
    }
  }

  lemma TopRight(msgs: seq<Message>, w: Walker, i: nat, d: nat, depth: nat, siblings: seq<bool>, order: seq<nat>)
    requires MarksItself(msgs, i, d, siblings, w.desc)
    requires AllAt(msgs, order[0..], d + 1) && KidsWalkedRight(msgs, w, order, 0, d + 1, depth + 1, Some(siblings))
    requires Shaped(msgs, w, i, d, depth, siblings, order)
    ensures WalkedRight(msgs, w, i, d, depth, siblings)
  {
    var top := MsgRow(w, msgs[i], depth, siblings);
    assert Spot(msgs, top, i, d);
    assert MarkRight(msgs, top, w.desc);
    SubtreeStep(msgs, w, top, WalkAll(w, Trees(msgs, order[0..], d + 1), 0, depth + 1, Some(siblings)), order, d + 1, depth);
  }

  /** A shown subtree: its top, then its children's rows in line. */
  ghost predicate Shaped(msgs: seq<Message>, w: Walker, i: nat, d: nat, depth: nat, siblings: seq<bool>, order: seq<nat>)
    requires HasDepth(msgs, i, d) && AllAt(msgs, order[0..], d + 1)
  {
    Walk(w, TreeAt(msgs, i, d), depth, siblings) ==
      [MsgRow(w, msgs[i], depth, siblings)] + WalkAll(w, Trees(msgs, order[0..], d + 1), 0, depth + 1, Some(siblings))
  }

  lemma WalkShape(msgs: seq<Message>, w: Walker, i: nat, d: nat, depth: nat, siblings: seq<bool>) returns (order: seq<nat>)
    requires HasDepth(msgs, i, d) && !Hides(w, TreeAt(msgs, i, d))
    ensures Line(msgs, order, d + 1, Some(i), w.desc) && d + 1 <= |msgs| && |order| <= |msgs|
    ensures AllAt(msgs, order[0..], d + 1) && Shaped(msgs, w, i, d, depth, siblings, order)
  {
    DepthFits(msgs, i, d);
    KidTrees(msgs, ChildrenOf(msgs, i), d + 1, i);
    order := WalkedInLine(msgs, ChildrenOf(msgs, i), d + 1, Some(i), w.desc);
    assert |order| == |Trees(msgs, order, d + 1)| == |ChildrenOf(msgs, i)|;
    assert order[0..] == order;
  }

  lemma {:induction false} KidsRight(msgs: seq<Message>, w: Walker, order: seq<nat>, n: nat, e: nat, p: Option<nat>, depth: nat,
                                     chain: Option<seq<bool>>)
    requires Line(msgs, order, e, p, w.desc) && n <= |order| && AllAt(msgs, order[n..], e) && e <= |msgs|
    ensures KidsWalkedRight(msgs, w, order, n, e, depth, chain)
    decreases |msgs| - e + 1, |order| - n
  {
    if n < |order| {
      assert order[n..][0] == order[n] && order[n..][1..] == order[n + 1..];
      DepthFits(msgs, order[n], e);
      var siblings := KidChain(w.desc, n, |order|, chain);
      LineBelow(msgs, order, e, p, w.desc, n);
      WalkRight(msgs, w, order[n], e, depth, siblings);
      KidsRight(msgs, w, order, n + 1, e, p, depth, chain);
      KidStep(msgs, w, order, n, e, p, depth, chain);
    }
  }

  /** The chain of the n-th of a line of siblings. */
  function KidChain(desc: bool, n: nat, all: nat, chain: Option<seq<bool>>): seq<bool> {
    if chain.None? then [] else [if desc then n > 0 else n + 1 < all] + chain.value
  }

  lemma KidStep(msgs: seq<Message>, w: Walker, order: seq<nat>, n: nat, e: nat, p: Option<nat>, depth: nat, chain: Option<seq<bool>>)
    requires Line(msgs, order, e, p, w.desc) && n < |order| && AllAt(msgs, order[n..], e) && AllAt(msgs, order[n + 1..], e)
    requires WalkedRight(msgs, w, order[n], e, depth, KidChain(w.desc, n, |order|, chain))
    requires KidsWalkedRight(msgs, w, order, n + 1, e, depth, chain)
    ensures KidsWalkedRight(msgs, w, order, n, e, depth, chain)
  {
    var kids := Trees(msgs, order[n..], e);
    assert order[n..][0] == order[n] && order[n..][1..] == order[n + 1..];
    var siblings := KidChain(w.desc, n, |order|, chain);
    var a, b := Walk(w, kids[0], depth, siblings), WalkAll(w, kids[1..], n + 1, depth, chain);
    assert WalkAll(w, kids, n, depth, chain) == a + b;
    ListStep(msgs, w, a, b, order, n, e, p, depth);
  }

  // ---- The whole thread ----

  lemma RootsInLine(msgs: seq<Message>, desc: bool) returns (order: seq<nat>)
    requires |Roots(msgs)| > 1
    ensures Line(msgs, order, 0, None, desc) && AllAt(msgs, order[0..], 0)
    ensures Trees(msgs, order[0..], 0) == OrderedChildren(RootTrees(msgs, Roots(msgs)), desc)
  {
    RootsAre(msgs, Roots(msgs));
    order := WalkedInLine(msgs, Roots(msgs), 0, None, desc);
    assert order[0..] == order;
  }

  ghost predicate AllRight(msgs: seq<Message>, w: Walker, rows: seq<Row>) {
    RowsRight(msgs, rows, w.desc) && (Shows(w, msgs) ==> forall q :: 0 <= q < |rows| ==> Partnered(rows, q, w.desc))
  }

  lemma ThreadRight(msgs: seq<Message>, id: string, skipDeleted: bool, desc: bool)
    requires TreeOf(msgs).Some?
    ensures AllRight(msgs, Walker(id, Count(TreeOf(msgs)), skipDeleted, desc), ThreadWalk(msgs, id, skipDeleted, desc))
  {
    var roots, w := Roots(msgs), Walker(id, Count(TreeOf(msgs)), skipDeleted, desc);
    if |roots| == 1 {
      WalkRight(msgs, w, roots[0], 0, 0, []);
      LoneRight(msgs, w, roots[0]);
    } else {
      var order := RootsInLine(msgs, desc);
      if |roots| == |msgs| {
        KidsRight(msgs, w, order, 0, 0, None, 0, None);
        ForestRight(msgs, w, order);
      } else {
        KidsRight(msgs, w, order, 0, 0, None, 1, Some([]));
        MarkerRight(msgs, w, order);
      }
    }
  }

  lemma LoneRight(msgs: seq<Message>, w: Walker, i: nat)
    requires HasDepth(msgs, i, 0) && WalkedRight(msgs, w, i, 0, 0, [])
    ensures AllRight(msgs, w, Walk(w, TreeAt(msgs, i, 0), 0, []))
  {
    var rows := Walk(w, TreeAt(msgs, i, 0), 0, []);
    if rows != [] {
      assert rows[0].siblings == [];
    }
  }

  lemma FirstUnchained(msgs: seq<Message>, w: Walker, order: seq<nat>)
    requires order != [] && AllAt(msgs, order, 0) && Shows(w, msgs)
    ensures var rows := WalkAll(w, Trees(msgs, order, 0), 0, 0, None); rows != [] && rows[0].siblings == []
  {
    var first := TreeAt(msgs, order[0], 0);
    assert !Hides(w, first);
    assert Walk(w, first, 0, []) != [] && Walk(w, first, 0, [])[0].siblings == [];
  }

  /** Roots with no chain of their own need no partner. */
  lemma ForestRight(msgs: seq<Message>, w: Walker, order: seq<nat>)
    requires AllAt(msgs, order[0..], 0) && KidsWalkedRight(msgs, w, order, 0, 0, 0, None)
    ensures AllRight(msgs, w, WalkAll(w, Trees(msgs, order[0..], 0), 0, 0, None))
  {
    var rows := WalkAll(w, Trees(msgs, order[0..], 0), 0, 0, None);
    if order != [] && Shows(w, msgs) {
      FirstUnchained(msgs, w, order[0..]);
    }
  }

  lemma MarkerRight(msgs: seq<Message>, w: Walker, order: seq<nat>)
    requires AllAt(msgs, order[0..], 0) && KidsWalkedRight(msgs, w, order, 0, 0, 1, Some([]))
    ensures AllRight(msgs, w, [MarkerRow(w, 0, [])] + WalkAll(w, Trees(msgs, order[0..], 0), 0, 1, Some([])))
  {
    var top, below := MarkerRow(w, 0, []), WalkAll(w, Trees(msgs, order[0..], 0), 0, 1, Some([]));
    SubtreeStep(msgs, w, top, below, order, 0, 0);
    assert ([top] + below)[0].siblings == [];
  }

  // ---- On screen ----

  lemma SibReversed(rows: seq<Row>, j: nat, k: nat)
    requires j < |rows| && k < |rows|
    ensures Sib(Reversed(rows), |rows| - 1 - k, |rows| - 1 - j) <==> Sib(rows, j, k)
  {
    var full := Reversed(rows);
    if Sib(rows, j, k) {
      forall i | |rows| - 1 - k < i < |rows| - 1 - j ensures full[i].depth >= full[|rows| - 1 - k].depth {
        assert full[i] == rows[|rows| - 1 - i];
      }
    }
    if Sib(full, |rows| - 1 - k, |rows| - 1 - j) {
      forall i | j < i < k ensures rows[i].depth >= rows[j].depth {
        assert rows[i] == full[|rows| - 1 - i];
      }
    }
  }

  lemma AfterReversed(rows: seq<Row>, q: nat)
    requires q < |rows|
    ensures HasAfter(Reversed(rows), q) <==> HasBefore(rows, |rows| - 1 - q)
  {
    if HasAfter(Reversed(rows), q) {
      var k: nat :| Sib(Reversed(rows), q, k);
      SibReversed(rows, |rows| - 1 - k, |rows| - 1 - q);
      assert Sib(rows, |rows| - 1 - k, |rows| - 1 - q);
    }
    if HasBefore(rows, |rows| - 1 - q) {
      var j: nat :| Sib(rows, j, |rows| - 1 - q);
      SibReversed(rows, j, |rows| - 1 - q);
      assert Sib(Reversed(rows), q, |rows| - 1 - j);
    }
  }

  /** Every row's first mark tells whether a sibling of its message, hidden ones counted, is placed
      below it on screen; with nothing hidden, whether some later row is on its level with nothing
      shallower between. Rows on one level show siblings in display order: the older message first,
      or, newest first, the one with the newer subtree. */
  lemma MarksRight(msgs: seq<Message>, id: string, skipDeleted: bool, desc: bool)
    requires TreeOf(msgs).Some?
    ensures var full := Flatten(TreeOf(msgs), id, false, skipDeleted, desc);
            && (forall q :: 0 <= q < |full| ==> MarkRight(msgs, full[q], desc))
            && ((skipDeleted ==> forall k :: 0 <= k < |msgs| ==> "deleted" !in msgs[k].tags) ==>
                  forall q :: 0 <= q < |full| && full[q].siblings != [] ==> (full[q].siblings[0] <==> HasAfter(full, q)))
            && (forall j: nat, k: nat :: Sib(full, j, k) ==>
                  if desc then InOrder(msgs, full[k], full[j], true) else InOrder(msgs, full[j], full[k], false))
  {
    ThreadRight(msgs, id, skipDeleted, desc);
    var w, rows := Walker(id, Count(TreeOf(msgs)), skipDeleted, desc), ThreadWalk(msgs, id, skipDeleted, desc);
    assert Shows(w, msgs) <==> (skipDeleted ==> forall k :: 0 <= k < |msgs| ==> "deleted" !in msgs[k].tags);
    if desc {
      ReversedRight(msgs, w, rows);
    } else {
      ForwardRight(msgs, w, rows);
    }
  }

  lemma ForwardRight(msgs: seq<Message>, w: Walker, rows: seq<Row>)
    requires AllRight(msgs, w, rows) && !w.desc
    ensures forall q :: 0 <= q < |rows| ==> MarkRight(msgs, rows[q], false)
    ensures Shows(w, msgs) ==> forall q :: 0 <= q < |rows| && rows[q].siblings != [] ==> (rows[q].siblings[0] <==> HasAfter(rows, q))
    ensures forall j: nat, k: nat :: Sib(rows, j, k) ==> InOrder(msgs, rows[j], rows[k], false)
  {
    if Shows(w, msgs) {
      forall q | 0 <= q < |rows| && rows[q].siblings != [] ensures rows[q].siblings[0] <==> HasAfter(rows, q) {
        assert Partnered(rows, q, false);
      }
    }
  }

  lemma ReversedRight(msgs: seq<Message>, w: Walker, rows: seq<Row>)
    requires AllRight(msgs, w, rows) && w.desc
    ensures var full := Reversed(rows);
            && (forall q :: 0 <= q < |full| ==> MarkRight(msgs, full[q], true))
            && (Shows(w, msgs) ==>
                  forall q :: 0 <= q < |full| && full[q].siblings != [] ==> (full[q].siblings[0] <==> HasAfter(full, q)))
            && (forall j: nat, k: nat :: Sib(full, j, k) ==> InOrder(msgs, full[k], full[j], true))
  {
    var full := Reversed(rows);
    forall q | 0 <= q < |full| ensures MarkRight(msgs, full[q], true) {
      assert full[q] == rows[|rows| - 1 - q];
    }
    if Shows(w, msgs) {
      forall q | 0 <= q < |full| && full[q].siblings != [] ensures full[q].siblings[0] <==> HasAfter(full, q) {
        assert full[q] == rows[|rows| - 1 - q] && Partnered(rows, |rows| - 1 - q, true);
        AfterReversed(rows, q);
      }
    }
    forall j: nat, k: nat | Sib(full, j, k) ensures InOrder(msgs, full[k], full[j], true) {
      SibReversed(rows, |rows| - 1 - k, |rows| - 1 - j);
      assert Sib(rows, |rows| - 1 - k, |rows| - 1 - j);
    }
  }

  // ---- What the newest-first order is keyed on ----

  lemma {:induction false} DescentSplits(msgs: seq<Message>, z: nat, i: nat, steps: nat) returns (c: nat)
    requires steps > 0 && Descends(msgs, z, i, steps)
    ensures c < |msgs| && ParentOf(msgs, c) == Some(i) && Descends(msgs, z, c, steps - 1)
    decreases steps
  {
    if steps == 1 {
      c := z;
    } else {
      c := DescentSplits(msgs, ParentOf(msgs, z).value, i, steps - 1);
    }
  }

  lemma {:induction false} TreesHold(msgs: seq<Message>, kids: seq<nat>, d: nat, k: nat)
    requires AllAt(msgs, kids, d) && k < |kids|
    ensures Trees(msgs, kids, d)[k] == TreeAt(msgs, kids[k], d)
  {
    if k > 0 {
      TreesHold(msgs, kids[1..], d, k - 1);
    }
  }

  lemma KidsAre(msgs: seq<Message>, i: nat, d: nat)
    requires HasDepth(msgs, i, d)
    ensures AllAt(msgs, ChildrenOf(msgs, i), d + 1) && TreeAt(msgs, i, d).children == Trees(msgs, ChildrenOf(msgs, i), d + 1)
  {
    DepthFits(msgs, i, d);
    TreeKids(msgs, i, d, ChildrenOf(msgs, i));
    KidTrees(msgs, ChildrenOf(msgs, i), d + 1, i);
  }

  lemma TreeKids(msgs: seq<Message>, i: nat, d: nat, kids: seq<nat>)
    requires HasDepth(msgs, i, d) && kids == ChildrenOf(msgs, i) && d < |msgs|
    ensures TreeAt(msgs, i, d).children == TreesAt(msgs, kids, d + 1, i)
  {
  }

  lemma KidOf(msgs: seq<Message>, i: nat, d: nat, c: nat) returns (k: nat)
    requires HasDepth(msgs, i, d) && c < |msgs| && ParentOf(msgs, c) == Some(i)
    ensures HasDepth(msgs, c, d + 1) && k < |TreeAt(msgs, i, d).children| && TreeAt(msgs, i, d).children[k] == TreeAt(msgs, c, d + 1)
  {
    KidsAre(msgs, i, d);
    HangingLine(msgs, Some(i));
    var kids := ChildrenOf(msgs, i);
    assert c in kids;
    k :| 0 <= k < |kids| && kids[k] == c;
    TreesHold(msgs, kids, d + 1, k);
  }

  lemma KidAt(msgs: seq<Message>, i: nat, d: nat, k: nat) returns (c: nat)
    requires HasDepth(msgs, i, d) && k < |TreeAt(msgs, i, d).children|
    ensures c < |msgs| && ParentOf(msgs, c) == Some(i) && HasDepth(msgs, c, d + 1) && TreeAt(msgs, i, d).children[k] == TreeAt(msgs, c, d + 1)
  {
    KidsAre(msgs, i, d);
    var kids := ChildrenOf(msgs, i);
    c := kids[k];
    TreesHold(msgs, kids, d + 1, k);
  }

  /** The key is the newest of the message's own date and its children's keys. */
  lemma KeyOf(msgs: seq<Message>, i: nat, d: nat) returns (kids: seq<Node>)
    requires HasDepth(msgs, i, d)
    ensures kids == TreeAt(msgs, i, d).children && msgs[i].timestamp <= Key(msgs, i, d)
    ensures forall k :: 0 <= k < |kids| ==> SubtreeMax(kids[k]) <= Key(msgs, i, d)
    ensures Key(msgs, i, d) == msgs[i].timestamp || exists k :: 0 <= k < |kids| && SubtreeMax(kids[k]) == Key(msgs, i, d)
  {
    kids := TreeAt(msgs, i, d).children;
    MaxAllBound(msgs[i].timestamp, kids);
  }

  lemma OwnKey(msgs: seq<Message>, i: nat, d: nat)
    requires HasDepth(msgs, i, d)
    ensures msgs[i].timestamp <= Key(msgs, i, d)
  {
    var kids := KeyOf(msgs, i, d);
  }

  lemma KidKey(msgs: seq<Message>, i: nat, d: nat, c: nat)
    requires HasDepth(msgs, i, d) && c < |msgs| && ParentOf(msgs, c) == Some(i)
    ensures HasDepth(msgs, c, d + 1) && Key(msgs, c, d + 1) <= Key(msgs, i, d)
  {
    var kids := KeyOf(msgs, i, d);
    var k := KidOf(msgs, i, d, c);
    assert SubtreeMax(kids[k]) == Key(msgs, c, d + 1);
  }

  /** No message below i, or i itself, is newer than its key. */
  lemma {:induction false} KeyBounds(msgs: seq<Message>, i: nat, d: nat, z: nat, steps: nat)
    requires HasDepth(msgs, i, d) && Descends(msgs, z, i, steps)
    ensures msgs[z].timestamp <= Key(msgs, i, d)
    decreases steps
  {
    OwnKey(msgs, i, d);
    if steps > 0 {
      var c := DescentSplits(msgs, z, i, steps);
      KidKey(msgs, i, d, c);
      KeyBounds(msgs, c, d + 1, z, steps - 1);
    }
  }

  /** And one of them is as new. */
  lemma {:induction false} KeyReached(msgs: seq<Message>, i: nat, d: nat) returns (z: nat, steps: nat)
    requires HasDepth(msgs, i, d)
    ensures Descends(msgs, z, i, steps) && msgs[z].timestamp == Key(msgs, i, d)
    decreases |msgs| - d
  {
    DepthFits(msgs, i, d);
    var kids := KeyOf(msgs, i, d);
    z, steps := i, 0;
    if Key(msgs, i, d) != msgs[i].timestamp {
      var k: nat :| k < |kids| && SubtreeMax(kids[k]) == Key(msgs, i, d);
      var c := KidAt(msgs, i, d, k);
      z, steps := KeyReached(msgs, c, d + 1);
      DescentGrows(msgs, z, c, steps, i);
      steps := steps + 1;
    }
  }

  lemma {:induction false} DescentGrows(msgs: seq<Message>, z: nat, c: nat, steps: nat, i: nat)
    requires Descends(msgs, z, c, steps) && c < |msgs| && i < |msgs| && ParentOf(msgs, c) == Some(i)
    ensures Descends(msgs, z, i, steps + 1)
    decreases steps
  {
    if steps > 0 {
      DescentGrows(msgs, ParentOf(msgs, z).value, c, steps - 1, i);
    } else {
      assert Descends(msgs, i, i, 0);
    }
  }
}
