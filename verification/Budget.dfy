/** What a new window budget does to rows that were not marked stale (src/core/view.go). */
module Budget {
  import opened Mail
  import opened Rows
  import opened Tree
  import Staging
  import Window

  // ---- Every row names its thread ----

  ghost predicate Own(rows: seq<Row>, id: string) {
    forall k :: 0 <= k < |rows| ==> rows[k].threadID == id
  }

  lemma OwnAppend(a: seq<Row>, b: seq<Row>, id: string)
    requires Own(a, id) && Own(b, id)
    ensures Own(a + b, id)
  {
  }

  lemma {:induction false} WalkOwn(w: Walker, n: Node, depth: nat, siblings: seq<bool>)
    ensures Own(Walk(w, n, depth, siblings), w.threadID)
    decreases Size(n), 0
  {
    WalkAllOwn(w, OrderedChildren(n.children, w.desc), 0, depth, None);
    WalkAllOwn(w, OrderedChildren(n.children, w.desc), 0, depth + 1, Some(siblings));
    TopOwn(w, n, depth, siblings);
  }

  lemma TopOwn(w: Walker, n: Node, depth: nat, siblings: seq<bool>)
    requires Own(WalkAll(w, OrderedChildren(n.children, w.desc), 0, depth, None), w.threadID)
    requires Own(WalkAll(w, OrderedChildren(n.children, w.desc), 0, depth + 1, Some(siblings)), w.threadID)
    ensures Own(Walk(w, n, depth, siblings), w.threadID)
  {
    var below := WalkAll(w, OrderedChildren(n.children, w.desc), 0, depth + 1, Some(siblings));
    if n.msg.None? {
      OwnAppend([MarkerRow(w, depth, siblings)], below, w.threadID);
    } else {
      OwnAppend([MsgRow(w, n.msg.value, depth, siblings)], below, w.threadID);
    }
  }

  lemma {:induction false} WalkAllOwn(w: Walker, kids: seq<Node>, i: nat, depth: nat, chain: Option<seq<bool>>)
    ensures Own(WalkAll(w, kids, i, depth, chain), w.threadID)
    decreases SizeAll(kids), 1
  {
    if kids != [] {
      var hasBelow := if w.desc then i != 0 else |kids| != 1;
      var siblings := if chain.None? then [] else [hasBelow] + chain.value;
      WalkOwn(w, kids[0], depth, siblings);
      WalkAllOwn(w, kids[1..], i + 1, depth, chain);
      OwnAppend(Walk(w, kids[0], depth, siblings), WalkAll(w, kids[1..], i + 1, depth, chain), w.threadID);
    }
  }

  lemma FlattenOwn(root: Option<Node>, id: string, collapsed: bool, skipDeleted: bool, desc: bool)
    ensures Own(Flatten(root, id, collapsed, skipDeleted, desc), id)
  {
    if root.Some? && !collapsed {
      WalkOwn(Walker(id, Count(root), skipDeleted, desc), root.value, 0, []);
    }
  }

  lemma EmittedOwn(full: seq<Row>, id: string, start: nat, winRows: nat)
    requires Own(full, id)
    ensures Own(Window.Emitted(full, id, start, winRows), id)
  {
    if Window.Windowed(|full|, winRows) {
      var s, body := Window.Clamp(|full|, start, winRows), Window.Body(full, start, winRows);
      forall k | 0 <= k < |body| ensures body[k].threadID == id {
        Window.BodyAt(full, start, winRows, k);
      }
      OwnAppend(Window.Indicator(id, 0, s), body, id);
      OwnAppend(Window.Indicator(id, 0, s) + body, Window.Indicator(id, |full| - s - winRows, 0), id);
    }
  }

  lemma ThreadRowsOwn(v: ThreadVal, s: Settings)
    ensures Own(ThreadRows(v, s), v.id)
  {
    FlattenOwn(TreeOf(Bared(v.msgs)), v.id, v.collapsed, s.threaded, s.msgDesc);
    EmittedOwn(FlatThread(v, s), v.id, v.winStart, s.winRows);
  }

  // ---- The emission, thread by thread ----

  /** What one thread adds to the emission. */
  function Share(v: ThreadVal, s: Settings, staged: Staging.Staged): seq<Row> {
    Filtered(StagedRows(ThreadRows(v, s), staged, s.groups), s.filter)
  }

  function Shares(vs: seq<ThreadVal>, s: Settings, staged: Staging.Staged): seq<Row> {
    if vs == [] then [] else Shares(vs[..|vs| - 1], s, staged) + Share(vs[|vs| - 1], s, staged)
  }

  lemma FilteredStep(rows: seq<Row>, f: string)
    requires f != "" && rows != []
    ensures Filtered(rows, f) == Filtered(rows[..|rows| - 1], f) + if RowMatches(rows[|rows| - 1], f) then [rows[|rows| - 1]] else []
  {
  }

  lemma {:induction false} FilteredSplit(a: seq<Row>, b: seq<Row>, f: string)
    ensures Filtered(a + b, f) == Filtered(a, f) + Filtered(b, f)
  {
    if b == [] {
      assert a + b == a;
    } else if f != "" {
      var front := b[..|b| - 1];
      assert (a + b)[..|a + b| - 1] == a + front;
      FilteredSplit(a, front, f);
      FilteredStep(a + b, f);
      FilteredStep(b, f);
    }
  }

  lemma StagedSplit(a: seq<Row>, b: seq<Row>, staged: Staging.Staged, groups: seq<TagGroup>)
    ensures StagedRows(a + b, staged, groups) == StagedRows(a, staged, groups) + StagedRows(b, staged, groups)
  {
  }

  lemma {:induction false} FreshIsShares(vs: seq<ThreadVal>, s: Settings, staged: Staging.Staged)
    ensures Fresh(vs, s, staged) == Shares(vs, s, staged)
  {
    if vs != [] {
      var front, last := vs[..|vs| - 1], vs[|vs| - 1];
      FreshIsShares(front, s, staged);
      StagedSplit(AllRows(front, s), ThreadRows(last, s), staged, s.groups);
      FilteredSplit(StagedRows(AllRows(front, s), staged, s.groups), StagedRows(ThreadRows(last, s), staged, s.groups), s.filter);
    }
  }

  lemma ShareOwn(v: ThreadVal, s: Settings, staged: Staging.Staged)
    ensures Own(Share(v, s, staged), v.id)
  {
    ThreadRowsOwn(v, s);
    assert Own(StagedRows(ThreadRows(v, s), staged, s.groups), v.id);
  }

  /** The rows of one thread. */
  function Of(rows: seq<Row>, id: string): seq<Row> {
    if rows == [] then [] else Of(rows[..|rows| - 1], id) + if rows[|rows| - 1].threadID == id then [rows[|rows| - 1]] else []
  }

  lemma {:induction false} OfSplit(a: seq<Row>, b: seq<Row>, id: string)
    ensures Of(a + b, id) == Of(a, id) + Of(b, id)
  {
    if b == [] {
      assert a + b == a;
    } else {
      assert (a + b)[..|a + b| - 1] == a + b[..|b| - 1];
      OfSplit(a, b[..|b| - 1], id);
    }
  }

  lemma {:induction false} OfOwn(rows: seq<Row>, own: string, id: string)
    requires Own(rows, own)
    ensures Of(rows, id) == if own == id then rows else []
  {
    if rows != [] {
      OfOwn(rows[..|rows| - 1], own, id);
      assert rows == rows[..|rows| - 1] + [rows[|rows| - 1]];
    }
  }

  predicate DistinctVals(vs: seq<ThreadVal>) {
    forall i, k :: 0 <= i < k < |vs| ==> vs[i].id != vs[k].id
  }

  lemma {:induction false} OfShares(vs: seq<ThreadVal>, s: Settings, staged: Staging.Staged, k: nat)
    requires DistinctVals(vs) && k < |vs|
    ensures Of(Shares(vs, s, staged), vs[k].id) == Share(vs[k], s, staged)
  {
    var front, last := vs[..|vs| - 1], vs[|vs| - 1];
    var all, own, id := Shares(front, s, staged), Share(vs[k], s, staged), vs[k].id;
    OfLast(all, last, s, staged, id);
    if k < |front| {
      assert front[k] == vs[k] && last.id != id;
      OfShares(front, s, staged, k);
      assert Of(all, id) + [] == own;
    } else {
      OfNone(front, s, staged, id);
      assert Of(all, id) + own == own;
    }
  }

  lemma OfLast(rows: seq<Row>, v: ThreadVal, s: Settings, staged: Staging.Staged, id: string)
    ensures Of(rows + Share(v, s, staged), id) == Of(rows, id) + if v.id == id then Share(v, s, staged) else []
  {
    OfSplit(rows, Share(v, s, staged), id);
    ShareOwn(v, s, staged);
    OfOwn(Share(v, s, staged), v.id, id);
  }

  lemma {:induction false} OfNone(vs: seq<ThreadVal>, s: Settings, staged: Staging.Staged, id: string)
    requires forall k :: 0 <= k < |vs| ==> vs[k].id != id
    ensures Of(Shares(vs, s, staged), id) == []
  {
    if vs != [] {
      var front, last := vs[..|vs| - 1], vs[|vs| - 1];
      OfNone(front, s, staged, id);
      OfLast(Shares(front, s, staged), last, s, staged, id);
    }
  }

  // ---- Which budgets show the same ----

  /** No thread emits other rows under the new budget. */
  ghost predicate SameUnderBudget(vs: seq<ThreadVal>, s: Settings, winRows: nat, staged: Staging.Staged) {
    forall k :: 0 <= k < |vs| ==> Share(vs[k], s, staged) == Share(vs[k], s.(winRows := winRows), staged)
  }

  /** The budget is the old one, or no thread is longer than either. */
  predicate BudgetHidesNothing(vs: seq<ThreadVal>, s: Settings, winRows: nat) {
    winRows == s.winRows || forall k :: 0 <= k < |vs| ==>
      !Window.Windowed(|FlatThread(vs[k], s)|, s.winRows) && !Window.Windowed(|FlatThread(vs[k], s)|, winRows)
  }

  lemma {:induction false} SharesAlike(vs: seq<ThreadVal>, s: Settings, winRows: nat, staged: Staging.Staged)
    requires SameUnderBudget(vs, s, winRows, staged)
    ensures Shares(vs, s, staged) == Shares(vs, s.(winRows := winRows), staged)
  {
    if vs != [] {
      SharesAlike(vs[..|vs| - 1], s, winRows, staged);
      assert vs[|vs| - 1] == vs[|vs| - 1..][0];
    }
  }

  /** The old materialization is the fresh one under the new budget if and only if every thread emits
      the same rows under both. */
  lemma BudgetExactly(vs: seq<ThreadVal>, s: Settings, winRows: nat, staged: Staging.Staged)
    requires DistinctVals(vs)
    ensures Fresh(vs, s, staged) == Fresh(vs, s.(winRows := winRows), staged) <==> SameUnderBudget(vs, s, winRows, staged)
  {
    var t := s.(winRows := winRows);
    FreshIsShares(vs, s, staged);
    FreshIsShares(vs, t, staged);
    if SameUnderBudget(vs, s, winRows, staged) {
      SharesAlike(vs, s, winRows, staged);
    }
    if Shares(vs, s, staged) == Shares(vs, t, staged) {
      forall k | 0 <= k < |vs| ensures Share(vs[k], s, staged) == Share(vs[k], t, staged) {
        OfShares(vs, s, staged, k);
        OfShares(vs, t, staged, k);
      }
    }
  }

  /** The hidden-above and hidden-below counts of one thread's emission. */
  lemma Counts(v: ThreadVal, s: Settings, staged: Staging.Staged)
    requires s.filter == ""
    ensures var n, rows := |FlatThread(v, s)|, Share(v, s, staged);
            if Window.Windowed(n, s.winRows) then Window.Above(rows) + s.winRows + Window.Below(rows) == n
            else Window.Above(rows) == Window.Below(rows) == 0
  {
    var full, rows := FlatThread(v, s), ThreadRows(v, s);
    Window.Unmarked(TreeOf(Bared(v.msgs)), v.id, v.collapsed, s.threaded, s.msgDesc);
    if Window.Windowed(|full|, s.winRows) {
      Window.WindowConserves(full, v.id, v.winStart, s.winRows);
    }
    var marked := StagedRows(rows, staged, s.groups);
    assert forall k :: 0 <= k < |rows| ==> marked[k].more == rows[k].more && marked[k].moreTop == rows[k].moreTop;
  }

  /** Without a filter, two budgets show the same exactly when they are one or hide nothing. */
  lemma BudgetUnfiltered(vs: seq<ThreadVal>, s: Settings, winRows: nat, staged: Staging.Staged)
    requires s.filter == ""
    ensures SameUnderBudget(vs, s, winRows, staged) <==> BudgetHidesNothing(vs, s, winRows)
  {
    var t := s.(winRows := winRows);
    forall k | 0 <= k < |vs|
      ensures Share(vs[k], s, staged) == Share(vs[k], t, staged) <==>
                winRows == s.winRows || (!Window.Windowed(|FlatThread(vs[k], s)|, s.winRows) && !Window.Windowed(|FlatThread(vs[k], s)|, winRows))
    {
      assert FlatThread(vs[k], t) == FlatThread(vs[k], s);
      Counts(vs[k], s, staged);
      Counts(vs[k], t, staged);
    }
  }
}
