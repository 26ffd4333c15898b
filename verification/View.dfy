/** The materialized view: threads, memoized rows, cursor, filter maps, staged ops and the merge
    (src/core/view.go). */
module View {
  import opened Identity
  import opened Mail
  import opened Rows
  import Budget
  import Fill
  import Listing
  import Merge
  import Resolve
  import Retain
  import Staging
  import Tree
  import Window

  predicate HasReal(ms: seq<Message>) {
    exists k :: 0 <= k < |ms| && ms[k].id != ""
  }

  /** What merging thread b into thread a leaves: a stub never erases a hydrated message list,
      only its date; else the incoming messages, reconciled. Collapse and window state stay. */
  ghost predicate MergedThread(a: ThreadVal, b: ThreadVal, r: ThreadVal) {
    && r.id == a.id == b.id && r.lastDate == b.lastDate && r.collapsed == a.collapsed && r.winStart == a.winStart
    && if !HasReal(b.msgs) && HasReal(a.msgs) then r.msgs == a.msgs else Merge.MergedMsgs(a.msgs, b.msgs, r.msgs)
  }

  lemma MergedIds(a: seq<Message>, b: seq<Message>, r: seq<Message>)
    requires Merge.MergedMsgs(a, b, r)
    ensures |r| == |b| && forall k :: 0 <= k < |b| ==> MsgRank(r[k]) == MsgRank(b[k]) && Merge.TookFrom(r[k], r[k], b[k])
  {
    forall k | 0 <= k < |b| ensures r[k].id == b[k].id && Merge.TookFrom(r[k], r[k], b[k]) {
      if p :| 0 <= p < |a| && a[p].id == b[k].id {
        assert Merge.TookFrom(r[k], Merge.Survivor(a, b, p, k), b[k]);
      }
    }
  }

  /** Merging the same snapshot again changes nothing. */
  lemma MergeTwice(a: ThreadVal, b: ThreadVal, r: ThreadVal, again: ThreadVal)
    requires Merge.ValidMsgs(b.msgs) && MergedThread(a, b, r) && MergedThread(r, b, again)
    ensures again == r
  {
    if HasReal(b.msgs) || !HasReal(a.msgs) {
      MergedIds(a.msgs, b.msgs, r.msgs);
      if HasReal(b.msgs) || !HasReal(r.msgs) {
        forall k | 0 <= k < |b.msgs| ensures again.msgs[k] == r.msgs[k] {
          Merge.UnmovedKeepsFiles(r.msgs, b.msgs, again.msgs, k, k);
        }
      }
    }
  }

  /** Unless a stub met a hydrated thread, the merged thread is the incoming one, message for
      message, in its order, but for attachments, paths and fold state. */
  lemma MergeReplaces(a: ThreadVal, b: ThreadVal, r: ThreadVal)
    requires MergedThread(a, b, r)
    ensures HasReal(b.msgs) || !HasReal(a.msgs) ==>
              |r.msgs| == |b.msgs| && forall k :: 0 <= k < |b.msgs| ==> Bare(r.msgs[k]) == Bare(b.msgs[k])
    ensures HasReal(b.msgs) || HasReal(a.msgs) ==> HasReal(r.msgs)
  {
    if HasReal(b.msgs) || !HasReal(a.msgs) {
      MergedIds(a.msgs, b.msgs, r.msgs);
      forall k | 0 <= k < |b.msgs| ensures Bare(r.msgs[k]) == Bare(b.msgs[k]) && r.msgs[k].id == b.msgs[k].id {
        assert Merge.TookFrom(r.msgs[k], r.msgs[k], b.msgs[k]);
      }
      if HasReal(b.msgs) {
        var k :| 0 <= k < |b.msgs| && b.msgs[k].id != "";
        assert r.msgs[k].id != "";
      }
    }
  }

  /** The root of the tree over the messages. Stated so that a proof meets the tree's definition
      only where it names it. */
  ghost predicate IsTreeOf(root: Option<Tree.Node>, msgs: seq<Message>) {
    forall ms {:trigger Tree.TreeOf(ms)} :: ms == Bared(msgs) ==> root == Tree.TreeOf(ms)
  }

  class Thread {
    const id: string
    var lastDate: int
    var collapsed: bool
    var winStart: nat
    var msgs: seq<Message>
    var root: Option<Tree.Node>

    ghost predicate Valid()
      reads `msgs, `root
    {
      Merge.ValidMsgs(msgs) && IsTreeOf(root, msgs)
    }

    ghost function Val(): ThreadVal
      reads this
    {
      ThreadVal(id, lastDate, collapsed, winStart, msgs)
    }

    /** Sorts the messages, dates the thread by its newest, builds the tree. */
    constructor (id: string, ms: seq<Message>)
      requires Tree.UniqueIds(ms)
      ensures Valid() && Val() == ThreadVal(id, Fill.LatestFrom(Fill.SortMsgs(ms), 0), false, 0, Fill.SortMsgs(ms))
    {
      var sorted := Fill.SortMsgs(ms);
      SortedValid(ms);
      BaredUnique(sorted);
      var root := Tree.BuildTree(Bared(sorted));
      this.id, this.lastDate, this.msgs, this.root := id, Fill.LatestFrom(sorted, 0), sorted, root;
      collapsed, winStart := false, 0;
    }

    /** Replaces the messages; the tree is rebuilt over them. */
    method SetMsgs(ms: seq<Message>)
      requires Merge.ValidMsgs(ms)
      modifies `msgs, `root
      ensures Valid() && msgs == ms
    {
      msgs := ms;
      BaredUnique(ms);
      root := Tree.BuildTree(Bared(ms));
    }

    /** One thread's share of MergeThreads. */
    method Absorb(inc: Thread)
      requires Valid() && inc.Valid() && id == inc.id
      modifies this
      ensures Valid() && MergedThread(old(Val()), old(inc.Val()), Val())
    {
      var date := inc.lastDate;
      if !HasReal(inc.msgs) && HasReal(msgs) {
        lastDate := date;
        return;
      }
      var merged := Merge.MergeMsgs(msgs, inc.msgs);
      SetMsgs(merged);
      lastDate := date;
    }
  }

  lemma BaredUnique(ms: seq<Message>)
    requires Tree.UniqueIds(ms)
    ensures Tree.UniqueIds(Bared(ms))
  {
  }

  lemma SortedValid(ms: seq<Message>)
    requires Tree.UniqueIds(ms)
    ensures Merge.ValidMsgs(Fill.SortMsgs(ms))
  {
    var sorted := Fill.SortMsgs(ms);
    Fill.SortMsgsSorts(ms);
    UniquePermuted(ms, sorted);
    forall i, j | 0 <= i < j < |sorted| ensures MsgRankLess(MsgRank(sorted[i]), MsgRank(sorted[j])) {
      StringLessTotal(sorted[i].id, sorted[j].id);
    }
  }

  lemma {:induction false} UniquePermuted(a: seq<Message>, b: seq<Message>)
    requires Tree.UniqueIds(a) && multiset(a) == multiset(b)
    ensures Tree.UniqueIds(b)
  {
    forall i, j | 0 <= i < j < |b| ensures b[i].id != b[j].id {
      assert b[i] in multiset(b) && b[j] in multiset(b);
      assert b[i] in a && b[j] in a;
      UniqueCount(a, b[i]);
      TwiceCounted(b, i, j);
    }
  }

  lemma TwiceCounted(b: seq<Message>, i: nat, j: nat)
    requires i < j < |b|
    ensures b[i] == b[j] ==> multiset(b)[b[i]] >= 2
  {
    assert b == b[..j] + [b[j]] + b[j + 1..];
    assert b[..j][i] == b[i];
    assert b[i] in multiset(b[..j]);
  }

  lemma {:induction false} UniqueCount(a: seq<Message>, m: Message)
    requires Tree.UniqueIds(a)
    ensures multiset(a)[m] <= 1
  {
    if a != [] {
      assert a == [a[0]] + a[1..];
      UniqueCount(a[1..], m);
      assert forall i :: 0 <= i < |a| - 1 ==> a[1..][i] == a[i + 1];
    }
  }

  // ---- The view ----

  predicate DistinctThreads(ts: seq<Thread>) {
    forall i, j :: 0 <= i < j < |ts| ==> ts[i].id != ts[j].id
  }

  predicate ValsSorted(vs: seq<ThreadVal>) {
    forall i, j :: 0 <= i < j < |vs| ==> ThreadRankLess(Rank(vs[i].lastDate, vs[i].id), Rank(vs[j].lastDate, vs[j].id))
  }

  /** The cursor maps of a filtered materialization; none without a filter. */
  ghost predicate Mapped(idx: seq<nat>, inverse: Option<map<nat, nat>>, full: seq<Tree.Row>, filter: string) {
    if filter == "" then idx == [] && inverse == None
    else idx == FilterIdx(full, filter) && inverse == Some(Inverse(idx))
  }

  /** The rows of a sorted view show newer threads above older ones. */
  lemma NewestAbove(vs: seq<ThreadVal>, s: Settings, staged: Staging.Staged, p: nat, q: nat)
    requires ValsSorted(vs) && p <= q < |Fresh(vs, s, staged)|
    ensures Listing.NoOlder(vs, Fresh(vs, s, staged)[p], Fresh(vs, s, staged)[q])
  {
    forall i, j | 0 <= i < j < |vs| ensures vs[i].lastDate >= vs[j].lastDate {
      RankDirections(Rank(vs[j].lastDate, vs[j].id), Rank(vs[i].lastDate, vs[i].id));
    }
    Listing.ThreadsDescend(vs, s, staged, p, q);
  }

  function FirstHolding(rows: seq<Tree.Row>, id: string): (k: nat)
    ensures k <= |rows|
    ensures k < |rows| ==> Holds(rows[k], id)
    ensures k == |rows| <==> !Shows(rows, id)
    ensures forall j :: 0 <= j < k ==> !Holds(rows[j], id)
  {
    if rows == [] then 0
    else if Holds(rows[0], id) then 0
    else
      var k := FirstHolding(rows[1..], id);
      assert forall j :: 1 <= j < |rows| ==> rows[j] == rows[1..][j - 1];
      1 + k
  }

  /** The cursor's full index: the anchored row's when it is there, else the last known one. */
  function AnchorOf(full: seq<Tree.Row>, cursorID: string, lastRow: nat): nat {
    if cursorID != "" && Shows(full, cursorID) then FirstHolding(full, cursorID) else lastRow
  }

  /** The row the cursor points at. */
  function CursorOf(rows: seq<Tree.Row>, cursorID: string, last: nat): Option<Tree.Row> {
    if rows == [] then None
    else if cursorID != "" && Shows(rows, cursorID) then Some(rows[FirstHolding(rows, cursorID)])
    else Some(rows[if last < |rows| then last else |rows| - 1])
  }

  /** full is the whole index as rows, staged ops applied. Stated so that a proof meets the
      definition only where it names it. */
  ghost predicate IsFull(full: seq<Tree.Row>, vals: seq<ThreadVal>, settings: Settings, staged: Staging.Staged) {
    forall vs, s, st {:trigger Full(vs, s, st)} :: vs == vals && s == settings && st == staged ==> full == Full(vs, s, st)
  }

  /** Everything the view shows, apart from the paint-path cursor index. */
  datatype ViewState = ViewState(
    threads: seq<ThreadVal>, cursorID: string, settings: Settings, buffer: Staging.Buffer, mergeDepth: nat)

  class View {
    var threads: seq<Thread>
    var cursorID: string
    var lastRow: nat
    var settings: Settings
    var buffer: Staging.Buffer
    /** The memoized emission, and the filtered rows of the last filtered one; None is nil. */
    var memo: Option<seq<Tree.Row>>
    var filterRows: Option<seq<Tree.Row>>
    var dirty: bool
    var filterIdx: seq<nat>
    var filterMap: Option<map<nat, nat>>
    var mergeDepth: nat
    var mergeDirty: bool
    /** The threads' contents, the unfiltered rows of the last materialization, the applies in flight. */
    ghost var vals: seq<ThreadVal>
    ghost var full: seq<Tree.Row>
    ghost var flights: seq<Staging.Flight>

    ghost predicate ValidThreads()
      reads `threads, `vals, threads
    {
      && DistinctThreads(threads) && ValsSorted(vals)
      && |vals| == |threads| && forall k :: 0 <= k < |threads| ==> threads[k].Valid() && threads[k].Val() == vals[k]
    }

    ghost predicate ValidStaging()
      reads `settings, `buffer, `flights
    {
      Resolve.ValidGroups(settings.groups) && Staging.Valid(Staging.State(buffer, flights))
    }

    ghost predicate Memo()
      reads `dirty, `mergeDirty, `mergeDepth, `memo, `filterIdx, `filterMap, `vals, `settings, `buffer, `full
    {
      && (mergeDepth == 0 ==> !mergeDirty)
      && (dirty || mergeDirty || memo.None? || Materialized())
    }

    /** What the view shows. */
    function Emission(): seq<Tree.Row>
      reads `memo
    {
      if memo.Some? then memo.value else []
    }

    /** The memoized rows and maps are the ones of the current state. */
    ghost predicate Materialized()
      reads `memo, `filterIdx, `filterMap, `vals, `settings, `buffer, `full
    {
      && IsFull(full, vals, settings, buffer.staged)
      && Emission() == Filtered(full, settings.filter)
      && Mapped(filterIdx, filterMap, full, settings.filter)
    }

    ghost predicate Valid()
      reads this, threads
    {
      ValidThreads() && ValidStaging() && Memo()
    }

    /** All of it but the memo. */
    ghost predicate Sound()
      reads this, threads
    {
      ValidThreads() && ValidStaging() && (mergeDepth == 0 ==> !mergeDirty)
    }

    ghost function State(): ViewState
      reads `vals, `cursorID, `settings, `buffer, `mergeDepth
    {
      ViewState(vals, cursorID, settings, buffer, mergeDepth)
    }

    ghost function FreshRows(): seq<Tree.Row>
      reads `vals, `settings, `buffer
    {
      Fresh(vals, settings, buffer.staged)
    }

    constructor ()
      ensures Valid() && State() == ViewState([], "", Settings([], "", 0, false, true), Staging.Buffer(map[], 0), 0)
      ensures threads == []
    {
      threads, cursorID, lastRow, buffer := [], "", 0, Staging.Buffer(map[], 0);
      settings := Settings([], "", 0, false, true);
      memo, filterRows, dirty, filterIdx, filterMap := None, None, false, [], None;
      mergeDepth, mergeDirty, vals, full, flights := 0, false, [], [], [];
    }

    // ---- Materialization ----

    static method RenderThread(t: Thread, s: Settings) returns (out: seq<Tree.Row>)
      requires t.Valid()
      ensures out == ThreadRows(t.Val(), s)
    {
      FlattenUnmarked(t.Val(), s);
      var full := Tree.Flatten(t.root, t.id, t.collapsed, s.threaded, s.msgDesc);
      assert full == FlatThread(t.Val(), s);
      out := Window.EmitWindow(full, t.id, t.winStart, s.winRows);
    }

    method Gather() returns (out: seq<Tree.Row>)
      requires ValidThreads()
      ensures out == AllRows(vals, settings)
    {
      out := [];
      for i := 0 to |threads|
        invariant out == AllRows(vals[..i], settings)
      {
        var shown := RenderThread(threads[i], settings);
        AllRowsStep(vals, i, settings);
        out := out + shown;
      }
      assert vals[..|threads|] == vals;
    }

    /** Finds the cursor again by id, in full-space. */
    static method Anchor(full: seq<Tree.Row>, cursorID: string, lastRow: nat) returns (at: nat)
      ensures at == AnchorOf(full, cursorID, lastRow)
    {
      at := lastRow;
      if cursorID != "" {
        var k := FirstHolding(full, cursorID);
        if k < |full| {
          at := k;
        }
      }
    }

    static method StageRows(full: seq<Tree.Row>, staged: Staging.Staged, groups: seq<TagGroup>) returns (out: seq<Tree.Row>)
      requires Resolve.ValidGroups(groups)
      ensures out == StagedRows(full, staged, groups)
    {
      out := full;
      for i := 0 to |full|
        invariant |out| == |full|
        invariant forall k :: 0 <= k < i ==> out[k] == StagedRow(full[k], staged, groups)
        invariant forall k :: i <= k < |full| ==> out[k] == full[k]
      {
        if full[i].msg.Some? {
          var m := full[i].msg.value;
          var id := m.id;
          if id == "" {
            id := "t:" + full[i].threadID;
          } else if id !in staged && full[i].threadID != "" {
            id := "t:" + full[i].threadID;
          }
          if id in staged {
            var tags, resolved := Resolve.ResolveOps(m.tags, staged[id], groups);
            out := out[i := out[i].(staged := true, stagedTags := tags)];
          }
        }
      }
    }

    static method FilterRows(full: seq<Tree.Row>, filter: string)
      returns (out: seq<Tree.Row>, idx: seq<nat>, inverse: Option<map<nat, nat>>)
      ensures Mapped(idx, inverse, full, filter)
      ensures out == Filtered(full, filter)
    {
      if filter == "" {
        return full, [], None;
      }
      var back;
      out, idx, back := Narrow(full, filter);
      inverse := Some(back);
    }

    static method Narrow(full: seq<Tree.Row>, filter: string)
      returns (out: seq<Tree.Row>, idx: seq<nat>, back: map<nat, nat>)
      ensures idx == FilterIdx(full, filter) && back == Inverse(idx) && out == Pick(full, idx)
    {
      out, idx, back := [], [], map[];
      for i := 0 to |full|
        invariant idx == FilterIdx(full[..i], filter) && back == Inverse(idx)
        invariant |out| == |idx| && forall k :: 0 <= k < |idx| ==> idx[k] < i && out[k] == full[idx[k]]
      {
        FilterStep(full, filter, i);
        if RowMatches(full[i], filter) {
          InverseStep(idx, i);
          back := back[i := |out|];
          out := out + [full[i]];
          idx := idx + [i];
        }
      }
      assert full[..|full|] == full;
    }

    /** Anchor, stage, filter. */
    static method Refine(flat: seq<Tree.Row>, cursorID: string, lastRow: nat, staged: Staging.Staged, groups: seq<TagGroup>, filter: string)
      returns (out: seq<Tree.Row>, at: nat, idx: seq<nat>, inverse: Option<map<nat, nat>>)
      requires Resolve.ValidGroups(groups)
      ensures var full := StagedRows(flat, staged, groups);
              out == Filtered(full, filter) && Mapped(idx, inverse, full, filter) && at == AnchorOf(full, cursorID, lastRow)
    {
      at := Anchor(flat, cursorID, lastRow);
      StagingKeepsAnchor(flat, staged, groups, cursorID);
      var full := StageRows(flat, staged, groups);
      out, idx, inverse := FilterRows(full, filter);
    }

    method Flat() returns (flat: seq<Tree.Row>, ghost all: seq<Tree.Row>)
      requires ValidThreads()
      ensures all == StagedRows(flat, buffer.staged, settings.groups) && IsFull(all, vals, settings, buffer.staged)
    {
      flat := Gather();
      all := StagedRows(flat, buffer.staged, settings.groups);
      FullOf(flat, vals, settings, buffer.staged);
    }

    /** Flatten, window, anchor, stage, filter: the memo is rebuilt. */
    method Rebuild()
      requires ValidThreads() && ValidStaging() && (mergeDepth == 0 ==> !mergeDirty)
      modifies `lastRow, `filterIdx, `filterMap, `filterRows, `memo, `dirty, `full
      ensures Memo() && Materialized() && !dirty && lastRow == AnchorOf(full, cursorID, old(lastRow))
    {
      var flat, all := Flat();
      var at, idx, inverse, out;
      out, at, idx, inverse := Refine(flat, cursorID, lastRow, buffer.staged, settings.groups, settings.filter);
      full, lastRow, filterIdx, filterMap, dirty := all, at, idx, inverse, false;
      Keep(out);
    }

    /** Stores an emission. Without a filter an empty one is nil; a filtered one reuses the last
        filtered rows, and is nil only when there were none and it is empty. */
    method Keep(out: seq<Tree.Row>)
      modifies `memo, `filterRows
      ensures Emission() == out
      ensures memo.None? <==> out == [] && (settings.filter == "" || old(filterRows).None?)
      ensures filterRows == if settings.filter == "" then None else memo
    {
      if settings.filter == "" {
        filterRows := None;
        memo := if out == [] then None else Some(out);
      } else {
        filterRows := if out == [] && filterRows.None? then None else Some(out);
        memo := filterRows;
      }
    }

    /** The memo, rebuilt when marked or nil. */
    method Refresh()
      requires Sound()
      modifies `lastRow, `filterIdx, `filterMap, `filterRows, `memo, `dirty, `full
      ensures Sound() && !dirty && (old(Valid()) ==> Valid()) && (mergeDepth == 0 && old(Valid()) ==> Materialized())
      ensures old(dirty) || old(memo).None? ==> Valid() && Materialized() && Emission() == FreshRows()
      ensures old(dirty) || old(memo).None? ==> lastRow == AnchorOf(full, cursorID, old(lastRow))
      ensures !old(dirty) && old(memo).Some? ==>
                memo == old(memo) && lastRow == old(lastRow) && filterIdx == old(filterIdx) && filterMap == old(filterMap) && full == old(full)
    {
      if dirty || memo.None? {
        Rebuild();
        MaterializedIsFresh(Emission(), full, vals, settings, buffer.staged);
      }
    }

    /** The next emission is a fresh materialization. */
    ghost predicate NextIsFresh()
      reads this
    {
      dirty || memo.None? || memo.value == FreshRows()
    }

    /** The memoized rows: with no batch open they are exactly a fresh materialization. A memo that
        is neither marked nor nil is returned as it is. */
    method Rows() returns (out: seq<Tree.Row>)
      requires Sound()
      modifies `lastRow, `filterIdx, `filterMap, `filterRows, `memo, `dirty, `full
      ensures Sound() && !dirty && Emission() == out && (old(Valid()) ==> Valid())
      ensures old(Valid()) && (mergeDepth == 0 || old(dirty)) ==> out == FreshRows()
      ensures out == FreshRows() <==> old(NextIsFresh())
      ensures !old(dirty) && old(memo).Some? ==> out == old(memo).value
    {
      Refresh();
      out := Emission();
      if mergeDepth == 0 && old(Valid()) {
        MaterializedIsFresh(out, full, vals, settings, buffer.staged);
      }
    }

    // ---- Cursor ----

    method SetCursor(id: string)
      requires Valid()
      modifies `cursorID
      ensures Valid() && cursorID == id
    {
      cursorID := id;
    }

    /** The caller steps in current-emission space; lastRow stores full-space. */
    method SetCursorIndex(i: nat)
      requires Valid()
      modifies `lastRow
      ensures Valid() && lastRow == ToFull(settings.filter, filterIdx, i)
    {
      lastRow := ToFull(settings.filter, filterIdx, i);
    }

    method CursorRowIndex() returns (i: nat)
      requires Valid()
      ensures i == ToFiltered(settings.filter, filterMap, lastRow)
    {
      i := ToFiltered(settings.filter, filterMap, lastRow);
    }

    /** The anchored row when it is visible, else the row at the last known index, or the last row if
        there are fewer; nothing only for an empty view. The paint-path index is left on the
        returned row. `last` is the last known full index, re-anchored if the rows were rebuilt. */
    method CursorRow() returns (row: Option<Tree.Row>, ghost last: nat)
      requires Valid()
      modifies `lastRow, `filterIdx, `filterMap, `filterRows, `memo, `dirty, `full
      ensures Valid() && (mergeDepth == 0 ==> Emission() == FreshRows())
      ensures last == if old(dirty) || old(memo).None? then AnchorOf(full, cursorID, old(lastRow)) else old(lastRow)
      ensures row == CursorOf(Emission(), cursorID, ToFiltered(settings.filter, filterMap, last))
      ensures row.Some? && mergeDepth == 0 ==> Materialized() && PointsAt(row.value)
    {
      Refresh();
      last := lastRow;
      if mergeDepth == 0 {
        MaterializedIsFresh(Emission(), full, vals, settings, buffer.staged);
      }
      row := PointCursor();
    }

    method PointCursor() returns (row: Option<Tree.Row>)
      requires Valid() && (mergeDepth == 0 ==> Materialized())
      modifies `lastRow
      ensures Valid() && row == CursorOf(Emission(), cursorID, ToFiltered(settings.filter, filterMap, old(lastRow)))
      ensures row.Some? && mergeDepth == 0 ==> PointsAt(row.value)
    {
      var rows := Emission();
      if |rows| == 0 {
        return None;
      }
      var k := PickCursor(rows, cursorID, ToFiltered(settings.filter, filterMap, lastRow));
      if mergeDepth == 0 {
        RoundTrips(rows, full, settings.filter, filterIdx, filterMap, k);
      }
      lastRow := ToFull(settings.filter, filterIdx, k);
      row := Some(rows[k]);
    }

    /** The last known index is the row's, in both index spaces. */
    ghost predicate PointsAt(row: Tree.Row)
      reads `lastRow, `full, `settings, `filterMap, `memo
    {
      && lastRow < |full| && full[lastRow] == row
      && ToFiltered(settings.filter, filterMap, lastRow) < |Emission()|
      && Emission()[ToFiltered(settings.filter, filterMap, lastRow)] == row
    }

    static method PickCursor(rows: seq<Tree.Row>, cursorID: string, last: nat) returns (k: nat)
      requires rows != []
      ensures k < |rows| && CursorOf(rows, cursorID, last) == Some(rows[k])
    {
      if cursorID != "" {
        k := FirstHolding(rows, cursorID);
        if k < |rows| {
          return;
        }
      }
      k := if last < |rows| - 1 then last else |rows| - 1;
    }

    // ---- Threads ----

    method FindThread(id: string) returns (i: nat)
      ensures i <= |threads| && (i < |threads| ==> threads[i].id == id)
      ensures forall k :: 0 <= k < i ==> threads[k].id != id
    {
      i := 0;
      while i < |threads| && threads[i].id != id
        invariant i <= |threads| && forall k :: 0 <= k < i ==> threads[k].id != id
      {
        i := i + 1;
      }
    }

    /** Sets a thread's fold state. */
    method Fold(i: nat, collapsed: bool, winStart: nat)
      requires Valid() && i < |threads|
      modifies `vals, `dirty, threads[i]
      ensures Valid() && dirty && vals == old(vals)[i := old(vals)[i].(collapsed := collapsed, winStart := winStart)]
    {
      var t := threads[i];
      t.collapsed, t.winStart := collapsed, winStart;
      vals := vals[i := t.Val()];
      dirty := true;
      assert forall k :: 0 <= k < |threads| && k != i ==> threads[k] != t;
    }

    /** Expanding shows the thread from the top; an unknown id is an error. */
    method SetCollapsed(id: string, collapsed: bool) returns (ok: bool, ghost at: nat)
      requires Valid()
      modifies `vals, `dirty, threads
      ensures Valid() && Located(threads, id, ok, at)
      ensures !ok ==> vals == old(vals)
      ensures ok ==> vals == old(vals)[at := old(vals)[at].(collapsed := collapsed, winStart := if collapsed then old(vals)[at].winStart else 0)]
    {
      var i := FindThread(id);
      ok, at := i < |threads|, i;
      if ok {
        Fold(i, collapsed, if collapsed then threads[i].winStart else 0);
      }
    }

    /** Collapsing anchors the cursor on the summary row, the one that survives. */
    method ToggleCollapsed(id: string) returns (ok: bool, ghost at: nat)
      requires Valid()
      modifies `vals, `dirty, `cursorID, threads
      ensures Valid() && Located(threads, id, ok, at)
      ensures !ok ==> vals == old(vals) && cursorID == old(cursorID)
      ensures ok ==>
                var v := old(vals)[at];
                vals == old(vals)[at := v.(collapsed := !v.collapsed, winStart := if v.collapsed then 0 else v.winStart)]
      ensures ok ==> if vals[at].collapsed then Anchored(vals[at], settings.threaded, cursorID, old(cursorID)) else cursorID == old(cursorID)
    {
      var i := FindThread(id);
      ok, at := i < |threads|, i;
      if ok {
        var t := threads[i];
        var m := Summary(t, settings.threaded);
        Fold(i, !t.collapsed, if t.collapsed then 0 else t.winStart);
        if t.collapsed && m.Some? {
          cursorID := m.value.id;
        }
      }
    }

    static method Summary(t: Thread, threaded: bool) returns (m: Option<Message>)
      requires t.Valid()
      ensures m == SummaryOf(t.msgs, threaded)
    {
      m := if t.root.Some? then Tree.CollapseMsg(t.root.value, threaded) else None;
    }

    /** Slides the thread's window; false when nothing hides that way or the thread fits. */
    method SlideWindow(id: string, step: int) returns (moved: bool, ghost at: nat)
      requires Valid()
      modifies `vals, `dirty, threads
      ensures Valid() && at <= |threads| && (forall k :: 0 <= k < at ==> threads[k].id != id)
      ensures at < |threads| ==> threads[at].id == id
      ensures var next := if at < |threads| then SlideOf(old(vals)[at], settings, step) else None;
              moved == next.Some? && vals == if moved then old(vals)[at := old(vals)[at].(winStart := next.value)] else old(vals)
    {
      var i := FindThread(id);
      moved, at := false, i;
      if settings.winRows == 0 || i == |threads| {
        return;
      }
      var n := FlatLength(threads[i], settings);
      var next := NextStart(n, settings.winRows, threads[i].winStart, step);
      if next.Some? {
        Fold(i, threads[i].collapsed, next.value);
        moved := true;
      }
    }

    static method NextStart(n: nat, winRows: nat, start: nat, step: int) returns (r: Option<nat>)
      requires winRows > 0
      ensures r == Window.Slid(n, winRows, start, step)
    {
      if n <= winRows || start + step < 0 {
        return None;
      }
      var next := start + step;
      if next > n - winRows {
        next := n - winRows;
        if next == start {
          return None;
        }
      }
      r := Some(next);
    }

    static method FlatLength(t: Thread, s: Settings) returns (n: nat)
      requires t.Valid()
      ensures n == |FlatThread(t.Val(), s)|
    {
      var full := Tree.Flatten(t.root, t.id, t.collapsed, s.threaded, s.msgDesc);
      assert full == FlatThread(t.Val(), s);
      n := |full|;
    }

    static method Locate(t: Thread, s: Settings, id: string) returns (at: nat, n: nat)
      requires t.Valid()
      ensures var full := Expanded(t.Val(), s); n == |full| && at == FirstHolding(full, id)
    {
      var full := Tree.Flatten(t.root, t.id, false, s.threaded, s.msgDesc);
      assert full == Expanded(t.Val(), s);
      n := |full|;
      at := FirstHolding(full, id);
    }

    /** The first thread whose expansion holds the message, and the row's place in it. */
    method FindMsgRow(id: string) returns (i: nat, at: nat, n: nat)
      requires Valid()
      ensures i <= |threads| && (i == |threads| <==> !Listed(vals, settings, id))
      ensures i < |threads| ==> n == |Expanded(vals[i], settings)| && IsFirstAt(vals, settings, id, i, at)
    {
      i, at, n := 0, 0, 0;
      while i < |threads|
        invariant i <= |threads| && forall k :: 0 <= k < i ==> !HasRow(vals[k], settings, id)
      {
        at, n := Locate(threads[i], settings, id);
        if at < n {
          assert HasRow(vals[i], settings, id);
          return;
        }
        assert !Shows(Expanded(vals[i], settings), id);
        i := i + 1;
      }
    }

    /** Expands the first thread that holds the message, slides its window to it, anchors the
        cursor; no other thread changes. The index is the message's row in the current emission. */
    method RevealMsg(id: string) returns (row: Option<nat>, ghost i: nat, ghost at: nat)
      requires Valid()
      modifies `vals, `dirty, `cursorID, `lastRow, `filterIdx, `filterMap, `filterRows, `memo, `full, threads
      ensures Valid()
      ensures row.Some? ==> row.value < |Emission()| && Holds(Emission()[row.value], id) && PointsAt(Emission()[row.value])
      ensures row.Some? ==> Materialized() && cursorID == id
      ensures if Listed(old(vals), settings, id) then settings.filter == "" ==> row.Some?
              else row.None? && vals == old(vals) && cursorID == old(cursorID)
      ensures Listed(old(vals), settings, id) ==> IsFirstAt(old(vals), settings, id, i, at) && vals == Revealed(old(vals), settings, i, at)
    {
      var k, a, n := FindMsgRow(id);
      i, at := k, a;
      if k == |threads| {
        return None, i, at;
      }
      RevealAt(k, n, a, id);
      row := AnchorRow(id);
    }

    method OpenAt(i: nat, start: nat, id: string)
      requires Valid() && i < |threads|
      modifies `vals, `dirty, `cursorID, `lastRow, `filterIdx, `filterMap, `filterRows, `memo, `full, threads[i]
      ensures Valid() && cursorID == id && Materialized()
      ensures vals == old(vals)[i := old(vals)[i].(collapsed := false, winStart := start)]
    {
      Fold(i, false, start);
      cursorID := id;
      Rebuild();
    }

    method RevealAt(i: nat, n: nat, at: nat, id: string)
      requires Valid() && i < |threads|
      requires n == |Expanded(vals[i], settings)| && at < n && Holds(Expanded(vals[i], settings)[at], id)
      modifies `vals, `dirty, `cursorID, `lastRow, `filterIdx, `filterMap, `filterRows, `memo, `full, threads[i]
      ensures Valid() && cursorID == id && Materialized()
      ensures settings.filter == "" ==> Shows(Emission(), id)
      ensures vals == Revealed(old(vals), settings, i, at)
    {
      ghost var was := vals;
      var start := RevealedStart(n, settings.winRows, threads[i].winStart, at);
      OpenAt(i, start, id);
      RevealShows(was, vals, settings, buffer.staged, i, at, id, full);
    }

    /** Leaves the paint-path index on the row that holds the id. */
    method AnchorRow(id: string) returns (row: Option<nat>)
      requires Valid() && Materialized()
      modifies `lastRow
      ensures Valid() && (row.Some? <==> Shows(Emission(), id))
      ensures row.Some? ==> row.value < |Emission()| && Holds(Emission()[row.value], id) && PointsAt(Emission()[row.value])
    {
      var k := FirstHolding(Emission(), id);
      if k == |Emission()| {
        return None;
      }
      RoundTrips(Emission(), full, settings.filter, filterIdx, filterMap, k);
      lastRow := ToFull(settings.filter, filterIdx, k);
      row := Some(k);
    }

    static method RevealedStart(n: nat, winRows: nat, start: nat, at: nat) returns (r: nat)
      ensures r == Window.RevealStart(n, winRows, start, at)
    {
      r := start;
      if winRows > 0 && n > winRows && (at < start || at >= start + winRows) {
        var half := if at < winRows / 2 then 0 else at - winRows / 2;
        r := if half < n - winRows then half else n - winRows;
      }
    }

    // ---- Settings ----

    method SetFilter(f: string)
      requires Valid()
      modifies `settings, `dirty
      ensures Valid() && dirty && settings == old(settings).(filter := Lower(f))
    {
      settings, dirty := settings.(filter := Lower(f)), true;
    }

    method SetGroups(groups: seq<TagGroup>)
      requires Valid() && Resolve.ValidGroups(groups)
      modifies `settings, `dirty
      ensures Valid() && dirty && settings == old(settings).(groups := groups)
    {
      settings, dirty := settings.(groups := groups), true;
    }

    method SetMsgDesc(desc: bool)
      requires Valid()
      modifies `settings, `dirty
      ensures Valid() && dirty && settings == old(settings).(msgDesc := desc)
    {
      settings, dirty := settings.(msgDesc := desc), true;
    }

    method SetThreaded(on: bool)
      requires Valid()
      modifies `settings, `dirty
      ensures Valid() && dirty && settings == old(settings).(threaded := on)
    {
      settings, dirty := settings.(threaded := on), true;
    }

    /** Does not mark the rows. With no batch open the next emission is fresh if and only if the
        rows are marked or nil already, or no thread emits other rows under the new budget. */
    method SetWindowBudget(winRows: nat)
      requires Valid()
      modifies `settings
      ensures Sound() && settings == old(settings).(winRows := winRows)
      ensures mergeDepth == 0 ==>
                (NextIsFresh() <==> dirty || memo.None? || Budget.SameUnderBudget(vals, old(settings), winRows, buffer.staged))
      ensures mergeDepth == 0 && settings.filter == "" ==>
                (NextIsFresh() <==> dirty || memo.None? || Budget.BudgetHidesNothing(vals, old(settings), winRows))
      ensures dirty || mergeDirty || memo.None? || winRows == old(settings).winRows ==> Valid()
    {
      settings := settings.(winRows := winRows);
      if mergeDepth == 0 && !dirty && memo.Some? {
        MaterializedIsFresh(Emission(), full, vals, old(settings), buffer.staged);
        DistinctVals(threads, vals);
        StaleExactly(memo.value, vals, old(settings), settings, buffer.staged);
      }
    }

    // ---- Staged ops ----

    method IdentityExists(identity: string) returns (known: bool)
      requires Valid()
      ensures known == Known(vals, identity)
    {
      if "t:" <= identity {
        var i := FindThread(identity[2..]);
        return i < |threads|;
      }
      var i, j := FindMsg(identity);
      return i < |threads|;
    }

    /** The first message with the id. */
    method FindMsg(id: string) returns (i: nat, j: nat)
      requires Valid()
      ensures i == HolderAt(vals, id) && (i < |threads| ==> j == IndexOfMsg(vals[i].msgs, id))
    {
      i, j := 0, 0;
      while i < |threads|
        invariant i <= |threads| && forall k :: 0 <= k < i ==> !HasId(vals[k].msgs, id)
      {
        j := IndexOfMsg(threads[i].msgs, id);
        if j < |threads[i].msgs| {
          return;
        }
        i := i + 1;
      }
    }

    method Stage(identity: string, op: TagOp)
      requires Valid()
      modifies `buffer, `dirty
      ensures Valid() && buffer == if Known(vals, identity) then Staging.StageOp(old(buffer), identity, op) else old(buffer)
    {
      var known := IdentityExists(identity);
      if known {
        Staging.StepKeeps(Staging.State(buffer, flights), Staging.Stage(identity, op));
        buffer, dirty := Staging.StageOp(buffer, identity, op), true;
      }
    }

    method Undo(identity: string)
      requires Valid()
      modifies `buffer, `dirty
      ensures Valid() && buffer == Staging.UndoOps(old(buffer), identity)
    {
      if identity in buffer.staged {
        Staging.StepKeeps(Staging.State(buffer, flights), Staging.Undo(identity));
        buffer, dirty := Staging.UndoOps(buffer, identity), true;
      }
    }

    /** The snapshot an apply works from, with its generation. */
    method StagedOps() returns (snapshot: Staging.Staged, gen: nat)
      requires Valid()
      modifies `flights
      ensures Valid() && snapshot == buffer.staged && gen == buffer.gen
      ensures flights == old(flights) + [Staging.Flight(snapshot, gen)]
    {
      Staging.StepKeeps(Staging.State(buffer, flights), Staging.Launch);
      flights := flights + [Staging.Flight(buffer.staged, buffer.gen)];
      snapshot, gen := buffer.staged, buffer.gen;
    }

    /** Removes the entry if nothing was staged or undone since the snapshot: what goes is
        exactly what that apply saw. */
    method ClearStaged(identity: string, gen: nat)
      requires Valid()
      modifies `buffer, `dirty
      ensures Valid() && buffer == Staging.ClearOps(old(buffer), identity, gen)
      ensures identity in old(buffer).staged && identity !in buffer.staged ==>
                forall k :: 0 <= k < |flights| && flights[k].gen == gen ==>
                  identity in flights[k].snapshot && flights[k].snapshot[identity] == old(buffer).staged[identity]
    {
      assert forall k :: 0 <= k < |flights| ==> Staging.Guarded(buffer, flights[k]);
      if buffer.gen == gen {
        Staging.ClearSound(buffer, identity, gen, flights);
        buffer, dirty := Staging.ClearOps(buffer, identity, gen), true;
      }
    }

    // ---- Message fields ----

    /** Replaces one message's fields in place; the tree node shares the message. */
    method EditMsg(i: nat, j: nat, m: Message)
      requires Valid() && i < |threads| && j < |vals[i].msgs| && MsgRank(m) == MsgRank(vals[i].msgs[j])
      modifies `vals, threads[i]
      ensures ValidThreads() && vals == WithMsg(old(vals), i, j, m)
    {
      var t := threads[i];
      t.SetMsgs(t.msgs[j := m]);
      vals := vals[i := t.Val()];
      assert forall k :: 0 <= k < |threads| && k != i ==> threads[k] != t;
    }

    method SetTags(id: string, tags: seq<string>)
      requires Valid()
      modifies `vals, `dirty, threads
      ensures Valid() && vals == Edited(old(vals), id, Tagged(tags))
    {
      var i, j := FindMsg(id);
      if i < |threads| {
        EditMsg(i, j, threads[i].msgs[j].(tags := tags, nilTags := false));
        dirty := true;
      }
    }

    /** The cache job's attachment list: rows read it through the shared message, so the memo stays. */
    method SetAtts(id: string, atts: seq<string>)
      requires Valid()
      modifies `vals, threads
      ensures Valid() && vals == Edited(old(vals), id, (m: Message) => m.(atts := atts))
    {
      var i, j := FindMsg(id);
      if i < |threads| {
        EditFace(i, j, threads[i].msgs[j].(atts := atts));
      }
    }

    /** Repoints a held message's files; rows read them through the shared message. */
    method SetPaths(id: string, paths: seq<string>)
      requires Valid()
      modifies `vals, threads
      ensures Valid() && vals == Edited(old(vals), id, (m: Message) => m.(paths := paths))
    {
      var i, j := FindMsg(id);
      if i == |threads| {
        return;
      }
      if threads[i].msgs[j].paths == paths {
        SameMsg(vals, i, j);
        return;
      }
      EditFace(i, j, threads[i].msgs[j].(paths := paths));
    }

    /** An edit the rows do not show keeps the memo. */
    method EditFace(i: nat, j: nat, m: Message)
      requires Valid() && i < |threads| && j < |vals[i].msgs| && Bare(m) == Bare(vals[i].msgs[j])
      modifies `vals, threads[i]
      ensures Valid() && vals == WithMsg(old(vals), i, j, m)
    {
      ghost var was := vals;
      EditMsg(i, j, m);
      FaceKeepsFull(was, i, j, m, settings, buffer.staged, full);
    }

    // ---- Merging ----

    static method EntriesFor(ts: seq<Thread>, held: bool) returns (es: seq<Merge.Entry>)
      ensures AreEntries(es, ts, held)
    {
      es := [];
      for k := 0 to |ts|
        invariant |es| == k && forall j :: 0 <= j < k ==> es[j] == Merge.Entry(held, j, ts[j].lastDate, ts[j].id)
      {
        es := es + [Merge.Entry(held, k, ts[k].lastDate, ts[k].id)];
      }
    }

    /** The incoming threads' sort keys, in order. */
    static method SortIncoming(ghost was: seq<Thread>, incoming: seq<Thread>) returns (order: seq<Merge.Entry>)
      requires DistinctThreads(incoming)
      ensures Merge.EntriesSorted(order) && Merge.EntriesUnique(order) && InRange(order, was, incoming) && |order| == |incoming|
      ensures forall k :: 0 <= k < |order| ==> !order[k].held && IsPick(order[k], was, incoming)
      ensures var ins := Picks(order, was, incoming); DatesSorted(ins) && DistinctThreads(ins) && forall t :: t in ins <==> t in incoming
    {
      var news := EntriesFor(incoming, false);
      order := Merge.SortEntries(news);
      Merge.SortEntriesSorts(news);
      SortedPicks(news, order, was, incoming);
      PicksSorted(news, order, was, incoming);
    }

    /** The incoming threads in order, and the view's list after the replayed diff: the same ids,
        old objects exactly where they are kept. */
    static method Arrange(was: seq<Thread>, incoming: seq<Thread>) returns (ins: seq<Thread>, merged: seq<Thread>)
      requires DistinctThreads(was) && DistinctThreads(incoming) && DatesSorted(was)
      ensures |ins| == |incoming| && (forall t :: t in ins <==> t in incoming)
      ensures DatesSorted(ins) && DistinctThreads(ins) && Arranged(was, ins, merged)
    {
      var order := SortIncoming(was, incoming);
      ins := Picks(order, was, incoming);
      var olds := EntriesFor(was, true);
      var r := Merge.ReplayEntries(olds, order);
      ReplayInRange(was, incoming, olds, order, r);
      merged := Picks(r, was, incoming);
      ReplayArranged(was, incoming, olds, order, r);
    }

    /** Merges each incoming thread into its place in the list. */
    static method AbsorbAll(merged: seq<Thread>, ins: seq<Thread>, ghost before: seq<ThreadVal>, ghost given: seq<ThreadVal>,
                            ghost both: set<Thread>) returns (ghost after: seq<ThreadVal>)
      requires forall k :: 0 <= k < |merged| ==> merged[k] in both
      requires |merged| == |ins| && DistinctThreads(merged) && HaveVals(merged, before) && HaveVals(ins, given)
      requires forall k :: 0 <= k < |ins| ==> merged[k].id == ins[k].id
      modifies both
      ensures HaveVals(merged, after) && AllMerged(before, given, after)
    {
      after := [];
      for n := 0 to |ins|
        invariant |after| == n && AllMerged(before[..n], given[..n], after)
        invariant forall k :: 0 <= k < n ==> merged[k].Valid() && merged[k].Val() == after[k]
        invariant forall k :: n <= k < |ins| ==> merged[k].Valid() && merged[k].Val() == before[k]
        invariant forall k :: n <= k < |ins| ==> ins[k].Valid() && ins[k].Val() == given[k]
      {
        assert forall k :: 0 <= k < |ins| && k != n ==> merged[k].id != merged[n].id;
        merged[n].Absorb(ins[n]);
        AllMergedStep(before, given, after, n, merged[n].Val());
        after := after + [merged[n].Val()];
      }
      assert before[..|ins|] == before && given[..|ins|] == given;
    }

    static method SortedThreads(ts: seq<Thread>) returns (sorted: seq<Thread>)
      requires DistinctThreads(ts)
      ensures DatesSorted(sorted) && DistinctThreads(sorted) && |sorted| == |ts| && forall t :: t in sorted <==> t in ts
      ensures DatesSorted(ts) ==> sorted == ts
    {
      var es := EntriesFor(ts, false);
      var order := Merge.SortEntries(es);
      if DatesSorted(ts) {
        Merge.SortedStays(es);
      }
      Merge.SortEntriesSorts(es);
      SortedPicks(es, order, [], ts);
      PicksSorted(es, order, [], ts);
      sorted := Picks(order, [], ts);
    }

    /** Restores the sorted invariant; a sorted list stays as it is. */
    method Resort()
      requires DistinctThreads(threads) && HaveVals(threads, vals)
      modifies `threads, `vals
      ensures ValidThreads() && |threads| == |old(threads)| && forall t :: t in threads <==> t in old(threads)
      ensures ValsSorted(old(vals)) ==> threads == old(threads) && vals == old(vals)
    {
      DatesOfVals(threads, vals);
      var sorted := SortedThreads(threads);
      ghost var now := ValsOf(sorted);
      StillValid(threads, vals, sorted);
      SortedVals(sorted, now);
      threads, vals := sorted, now;
    }

    /** One dirty mark per merge, deferred while a batch is open. */
    method MarkMerged()
      modifies `dirty, `mergeDirty
      ensures if mergeDepth > 0 then mergeDirty && dirty == old(dirty) else dirty && mergeDirty == old(mergeDirty)
    {
      if mergeDepth > 0 {
        mergeDirty := true;
      } else {
        dirty := true;
      }
    }

    static method Place(was: seq<Thread>, incoming: seq<Thread>, ghost vals: seq<ThreadVal>)
      returns (ins: seq<Thread>, merged: seq<Thread>, ghost before: seq<ThreadVal>, ghost given: seq<ThreadVal>)
      requires DistinctThreads(was) && HaveVals(was, vals) && ValsSorted(vals)
      requires DistinctThreads(incoming) && forall k :: 0 <= k < |incoming| ==> incoming[k].Valid()
      ensures |ins| == |incoming| && (forall t :: t in ins <==> t in incoming)
      ensures Placed(was, ins, merged) && KeepsObjects(was, vals, ins, given, merged)
      ensures BeforeOf(before, merged, given, was, vals) && GivenBy(given, ins, incoming, ValsOf(incoming))
      ensures HaveVals(merged, before) && HaveVals(ins, given) && ValsSorted(given)
      ensures forall t :: t in merged ==> t in was || t in incoming
    {
      DatesOfVals(was, vals);
      ins, merged := Arrange(was, incoming);
      before, given := ValsOf(merged), ValsOf(ins);
      ArrangedFacts(was, vals, incoming, ins, given, merged, before);
    }

    /** Replaces the view's thread set with the incoming one, in order: contents merge into the
        matching thread, objects survive exactly where they are kept. `before` and
        `given` are the contents the k-th thread and its incoming counterpart had. */
    method MergeThreads(incoming: seq<Thread>)
      returns (ghost ins: seq<Thread>, ghost before: seq<ThreadVal>, ghost given: seq<ThreadVal>)
      requires Valid() && DistinctThreads(incoming) && forall k :: 0 <= k < |incoming| ==> incoming[k].Valid()
      modifies `threads, `vals, `dirty, `mergeDirty, threads, incoming
      ensures Valid() && (dirty || mergeDirty)
      ensures |ins| == |incoming| && (forall t :: t in ins <==> t in incoming) && GivenBy(given, ins, incoming, old(ValsOf(incoming)))
      ensures Placed(old(threads), ins, threads) && KeepsObjects(old(threads), old(vals), ins, given, threads)
      ensures BeforeOf(before, threads, given, old(threads), old(vals)) && AllMerged(before, given, vals)
    {
      ins, before, given := ReplaceThreads(incoming);
      SettleMerge();
    }

    method ReplaceThreads(incoming: seq<Thread>)
      returns (ghost ins: seq<Thread>, ghost before: seq<ThreadVal>, ghost given: seq<ThreadVal>)
      requires ValidThreads() && DistinctThreads(incoming) && forall k :: 0 <= k < |incoming| ==> incoming[k].Valid()
      modifies `threads, `vals, threads, incoming
      ensures DistinctThreads(threads) && HaveVals(threads, vals) && ValsSorted(vals)
      ensures |ins| == |incoming| && (forall t :: t in ins <==> t in incoming) && GivenBy(given, ins, incoming, old(ValsOf(incoming)))
      ensures Placed(old(threads), ins, threads) && KeepsObjects(old(threads), old(vals), ins, given, threads)
      ensures BeforeOf(before, threads, given, old(threads), old(vals)) && AllMerged(before, given, vals)
    {
      var sorted, merged;
      sorted, merged, before, given := Place(threads, incoming, vals);
      ins := sorted;
      vals := AbsorbAll(merged, sorted, before, given, (set t | t in threads) + (set t | t in incoming));
      threads := merged;
      MergedSorted(given, before, vals);
    }

    /** The closing sort, a no-op, and the dirty mark. */
    method SettleMerge()
      requires DistinctThreads(threads) && HaveVals(threads, vals) && ValsSorted(vals) && ValidStaging()
      requires mergeDepth == 0 ==> !mergeDirty
      modifies `threads, `vals, `dirty, `mergeDirty
      ensures Valid() && (dirty || mergeDirty) && threads == old(threads) && vals == old(vals)
    {
      Resort();
      MarkMerged();
    }

    method BeginMerge()
      requires Valid()
      modifies `mergeDepth
      ensures Valid() && mergeDepth == old(mergeDepth) + 1
    {
      mergeDepth := mergeDepth + 1;
    }

    /** Closes one batch level; the last one marks the rows if any merge ran inside. */
    method EndMerge()
      requires Valid()
      modifies `mergeDepth, `dirty, `mergeDirty
      ensures Valid() && mergeDepth == if old(mergeDepth) == 0 then 0 else old(mergeDepth) - 1
      ensures mergeDepth == 0 && old(mergeDirty) ==> dirty
    {
      if mergeDepth == 0 {
        return;
      }
      mergeDepth := mergeDepth - 1;
      if mergeDepth == 0 && mergeDirty {
        dirty, mergeDirty := true, false;
      }
    }

    /** Replaces one thread's messages with a fetched snapshot; fold state stays, and so does
        every other thread. No-op when the thread left the view. */
    method MergeThread(inc: Thread) returns (ghost at: nat)
      requires Valid() && inc.Valid()
      modifies `threads, `vals, `dirty, `mergeDirty, threads
      ensures Valid() && at <= |old(threads)| && (at == |old(threads)| <==> forall k :: 0 <= k < |old(threads)| ==> old(threads)[k].id != inc.id)
      ensures at == |old(threads)| ==> threads == old(threads) && vals == old(vals)
      ensures at < |old(threads)| ==>
                && old(threads)[at].id == inc.id && (dirty || mergeDirty)
                && |threads| == |old(threads)| && (forall t :: t in threads <==> t in old(threads))
                && Reordered(old(threads), old(vals)[at := old(vals)[at].(msgs := old(inc.msgs), lastDate := old(inc.lastDate))], threads, vals)
    {
      var i := FindThread(inc.id);
      at := i;
      if i == |threads| {
        return;
      }
      Overwrite(i, inc.msgs, inc.lastDate);
      ResortMarked();
    }

    method Overwrite(i: nat, msgs: seq<Message>, date: int)
      requires ValidThreads() && i < |threads| && Merge.ValidMsgs(msgs)
      modifies `vals, threads[i]
      ensures DistinctThreads(threads) && HaveVals(threads, vals)
      ensures vals == old(vals)[i := old(vals)[i].(msgs := msgs, lastDate := date)]
    {
      var t := threads[i];
      t.SetMsgs(msgs);
      t.lastDate := date;
      vals := vals[i := t.Val()];
      assert forall k :: 0 <= k < |threads| && k != i ==> threads[k] != t;
    }

    method ResortMarked()
      requires DistinctThreads(threads) && HaveVals(threads, vals) && ValidStaging() && (mergeDepth == 0 ==> !mergeDirty)
      modifies `threads, `vals, `dirty, `mergeDirty
      ensures Valid() && (dirty || mergeDirty)
      ensures |threads| == |old(threads)| && (forall t :: t in threads <==> t in old(threads))
      ensures Reordered(old(threads), old(vals), threads, vals)
    {
      ghost var was, held := threads, vals;
      Resort();
      StillHolds(was, held, threads, vals);
      MarkMerged();
    }

    /** Whether the thread holds real messages. */
    method Hydrated(id: string) returns (r: bool)
      requires Valid()
      ensures r == exists k :: 0 <= k < |vals| && vals[k].id == id && HasReal(vals[k].msgs)
    {
      var i := FindThread(id);
      r := i < |threads| && HasReal(threads[i].msgs);
      assert forall k :: 0 <= k < |threads| ==> vals[k].id == threads[k].id && vals[k].msgs == threads[k].msgs;
    }

    /** Drops every thread for a view switch; staged ops survive. */
    method Reset()
      requires Valid()
      modifies `threads, `vals, `memo, `dirty, `cursorID, `lastRow
      ensures Valid() && threads == [] && vals == [] && memo == None && dirty && cursorID == "" && lastRow == 0
    {
      threads, vals, memo, dirty, cursorID, lastRow := [], [], None, true, "", 0;
    }

    method DropThread(i: nat)
      requires ValidThreads() && i < |threads|
      modifies `threads, `vals
      ensures ValidThreads() && Within(threads, old(threads)) && vals == old(vals)[..i] + old(vals)[i + 1..]
    {
      threads, vals := threads[..i] + threads[i + 1..], vals[..i] + vals[i + 1..];
    }

    /** A thread identity drops its thread; a message leaves the first thread that holds it, and a
        thread left empty goes too. */
    method Remove(identity: string)
      requires Valid()
      modifies `threads, `vals, `dirty, threads
      ensures Valid() && vals == WithoutIdentity(old(vals), identity) && Within(threads, old(threads))
    {
      if "t:" <= identity {
        RemoveThread(identity[2..]);
      } else {
        RemoveMessage(identity);
      }
    }

    method RemoveThread(id: string)
      requires Valid()
      modifies `threads, `vals, `dirty
      ensures Valid() && vals == WithoutThread(old(vals), id) && Within(threads, old(threads))
    {
      var i := FindThread(id);
      assert i == ThreadAt(vals, id);
      if i < |threads| {
        DropThread(i);
        MarkDirty();
      }
    }

    method RemoveMessage(id: string)
      requires Valid()
      modifies `threads, `vals, `dirty, threads
      ensures Valid() && vals == WithoutMessage(old(vals), id) && Within(threads, old(threads))
    {
      var i, j := FindMsg(id);
      if i < |threads| {
        DropFrom(i, id);
        MarkDirty();
      }
    }

    method MarkDirty()
      requires ValidThreads() && ValidStaging() && (mergeDepth == 0 ==> !mergeDirty)
      modifies `dirty
      ensures Valid() && dirty
    {
      dirty := true;
    }

    method DropFrom(i: nat, id: string)
      requires ValidThreads() && i < |threads| && i == HolderAt(vals, id)
      modifies `threads, `vals, threads[i]
      ensures ValidThreads() && vals == WithoutMessage(old(vals), id) && Within(threads, old(threads))
    {
      DropMsg(i, id);
      if |threads[i].msgs| == 0 {
        DropThread(i);
      }
    }

    method DropMsg(i: nat, id: string)
      requires ValidThreads() && i < |threads|
      modifies `vals, threads[i]
      ensures ValidThreads() && vals == old(vals)[i := old(vals)[i].(msgs := WithoutMsg(old(vals)[i].msgs, id))]
    {
      var t := threads[i];
      var left := LeaveOut(t.msgs, id);
      WithoutValid(t.msgs, id);
      t.SetMsgs(left);
      vals := vals[i := t.Val()];
      assert forall k :: 0 <= k < |threads| && k != i ==> threads[k] != t;
    }

    static method LeaveOut(ms: seq<Message>, id: string) returns (out: seq<Message>)
      ensures out == WithoutMsg(ms, id)
    {
      out := [];
      for k := 0 to |ms|
        invariant out == WithoutMsg(ms[..k], id)
      {
        assert ms[..k + 1][..k] == ms[..k];
        if ms[k].id != id {
          out := out + [ms[k]];
        }
      }
      assert ms[..|ms|] == ms;
    }

    // ---- Flushing the staged ops ----

    /** An identity's applied tags: its message's, or its thread's summary row's. */
    method Tags(identity: string) returns (tags: Option<seq<string>>)
      requires Valid()
      ensures tags == AppliedTags(vals, identity)
    {
      if "t:" <= identity {
        var i := FindThread(identity[2..]);
        assert i == ThreadAt(vals, identity[2..]);
        if i == |threads| || |threads[i].msgs| == 0 {
          return None;
        }
        var j := IndexOfMsg(threads[i].msgs, "");
        return TagList(threads[i].msgs[if j < |threads[i].msgs| then j else 0]);
      }
      var i, j := FindMsg(identity);
      tags := if i < |threads| then TagList(threads[i].msgs[j]) else None;
    }

    /** Writes a thread's tags onto its summary row. */
    method SetThreadTags(id: string, tags: seq<string>)
      requires Valid()
      modifies `vals, `dirty, threads
      ensures Valid() && vals == WithThreadTags(old(vals), id, tags)
    {
      var i := FindThread(id);
      assert i == ThreadAt(vals, id);
      if i < |threads| {
        var j := IndexOfMsg(threads[i].msgs, "");
        if j < |threads[i].msgs| {
          EditMsg(i, j, threads[i].msgs[j].(tags := tags, nilTags := false));
          dirty := true;
        }
      }
    }

    /** One entry of an apply: nothing to write clears it; a failed write leaves it staged; a
        successful one lands on the row, clears it, and drops a row that left the query. */
    method ApplyEntry(identity: string, ops: seq<TagOp>, gen: nat, writeOk: bool, keeps: bool)
      returns (failed: bool, resolved: seq<TagOp>)
      requires Valid()
      modifies `buffer, `threads, `vals, `dirty, threads
      ensures Valid() && Within(threads, old(threads))
      ensures IsTurn(old(vals), identity, ops, settings.groups, writeOk, keeps, vals, failed, resolved)
      ensures buffer == if failed then old(buffer) else Staging.ClearOps(old(buffer), identity, gen)
    {
      resolved := Due(identity, ops);
      if resolved != [] {
        StillChanges(vals, identity, ops, settings.groups, resolved);
      }
      failed := Carry(identity, resolved, gen, writeOk, keeps);
    }

    method Carry(identity: string, resolved: seq<TagOp>, gen: nat, writeOk: bool, keeps: bool) returns (failed: bool)
      requires Valid() && (resolved != [] ==> Changes(vals, identity, resolved, settings.groups))
      modifies `buffer, `threads, `vals, `dirty, threads
      ensures Valid() && Within(threads, old(threads)) && (failed <==> resolved != [] && !writeOk)
      ensures buffer == if failed then old(buffer) else Staging.ClearOps(old(buffer), identity, gen)
      ensures vals == if failed || resolved == [] then old(vals)
                      else Landed(old(vals), identity, WrittenTags(old(vals), identity, resolved, settings.groups), keeps)
    {
      failed := false;
      if resolved == [] {
        ClearStaged(identity, gen);
      } else if writeOk {
        Land(identity, resolved, gen, keeps);
      } else {
        failed := true;
      }
    }

    /** The ops an apply has to write: none when the identity has no tags, or the staged ops change nothing. */
    method Due(identity: string, ops: seq<TagOp>) returns (resolved: seq<TagOp>)
      requires Valid()
      ensures ResolvedFor(vals, identity, ops, settings.groups, resolved)
    {
      var tags := Tags(identity);
      if tags.None? {
        return [];
      }
      var now;
      now, resolved := Resolve.ResolveOps(tags.value, ops, settings.groups);
    }

    method Land(identity: string, ops: seq<TagOp>, gen: nat, keeps: bool)
      requires Valid() && Changes(vals, identity, ops, settings.groups)
      modifies `buffer, `threads, `vals, `dirty, threads
      ensures Valid() && Within(threads, old(threads)) && buffer == Staging.ClearOps(old(buffer), identity, gen)
      ensures vals == Landed(old(vals), identity, WrittenTags(old(vals), identity, ops, settings.groups), keeps)
    {
      Reflect(identity, ops);
      ClearStaged(identity, gen);
      if !keeps {
        Remove(identity);
      }
    }

    /** The row follows a write that landed: the written ops resolve against the row's own tags. */
    method Reflect(identity: string, ops: seq<TagOp>)
      requires Valid() && AppliedTags(vals, identity).Some?
      modifies `vals, `dirty, threads
      ensures Valid()
      ensures vals == if Changes(old(vals), identity, ops, settings.groups)
                      then WithTags(old(vals), identity, WrittenTags(old(vals), identity, ops, settings.groups)) else old(vals)
    {
      var tags := Tags(identity);
      var now, resolved := Resolve.ResolveOps(tags.value, ops, settings.groups);
      ChangesResolve(vals, identity, ops, settings.groups, resolved);
      if resolved != [] {
        WriteTags(identity, now);
      }
    }

    method WriteTags(identity: string, tags: seq<string>)
      requires Valid()
      modifies `vals, `dirty, threads
      ensures Valid() && vals == WithTags(old(vals), identity, tags)
    {
      if "t:" <= identity {
        SetThreadTags(identity[2..], tags);
      } else {
        SetTags(identity, tags);
      }
    }

    /** One user action, as a step of the staging machine. */
    method UiStep(ui: UiOp) returns (ghost step: Option<Staging.Step>)
      requires Valid()
      modifies `buffer, `dirty
      ensures Valid() && (step.Some? ==> !step.value.Clear? && !step.value.Launch?)
      ensures Staging.State(buffer, flights) ==
                if step.Some? then Staging.Next(Staging.State(old(buffer), flights), step.value) else Staging.State(old(buffer), flights)
    {
      match ui {
        case StageIt(id, op) =>
          step := if Known(vals, id) then Some(Staging.Stage(id, op)) else None;
          Stage(id, op);
        case UndoIt(id) =>
          step := Some(Staging.Undo(id));
          Undo(id);
      }
    }

    method Interfere(ui: seq<UiOp>) returns (ghost steps: seq<Staging.Step>)
      requires Valid()
      modifies `buffer, `dirty
      ensures Valid() && Staging.State(buffer, flights) == Staging.Run(Staging.State(old(buffer), flights), steps)
      ensures OnlyUi(steps) && (ui == [] ==> steps == [])
    {
      steps := [];
      ghost var s0 := Staging.State(buffer, flights);
      for n := 0 to |ui|
        invariant Valid() && Staging.State(buffer, flights) == Staging.Run(s0, steps)
        invariant OnlyUi(steps) && (n == 0 ==> steps == [])
      {
        var step := UiStep(ui[n]);
        if step.Some? {
          Staging.RunAppend(s0, steps, step.value);
          steps := steps + [step.value];
        }
      }
    }

    method ApplyOne(id: string, ops: seq<TagOp>, gen: nat, writeOk: bool, keeps: bool, ui: seq<UiOp>, ghost mine: nat)
      returns (lost: bool, ghost steps: seq<Staging.Step>)
      requires Valid() && mine < |flights| && flights[mine].gen == gen
      modifies `buffer, `threads, `vals, `dirty, threads
      ensures Valid() && Within(threads, old(threads)) && (lost ==> !writeOk)
      ensures Turned(old(vals), id, ops, settings.groups, writeOk, keeps, vals, lost)
      ensures Staging.State(buffer, flights) == Staging.Run(Staging.State(old(buffer), flights), steps)
      ensures OwnClears(steps, mine, if lost then {} else {id})
      ensures ui == [] ==> steps == if lost then [] else [Staging.Clear(mine, id)]
    {
      ghost var s0 := Staging.State(buffer, flights);
      steps := Interfere(ui);
      ghost var mid := Staging.State(buffer, flights);
      var resolved;
      lost, resolved := ApplyEntry(id, ops, gen, writeOk, keeps);
      assert buffer == if lost then mid.buffer else Staging.ClearOps(mid.buffer, id, mid.flights[mine].gen);
      OneTurn(s0, steps, mine, id, lost, mid, Staging.State(buffer, flights));
      if !lost {
        steps := steps + [Staging.Clear(mine, id)];
      }
    }

    /** Flushes the staged ops while the user keeps working. Every entry takes one turn, in some
        order; what happens to the buffer is a run of the staging machine whose clears are all this
        apply's own, of entries that were not lost; undisturbed, exactly the lost entries stay
        staged, unchanged. */
    method ApplyStaged(writes: string -> bool, keeps: string -> bool, script: nat -> seq<UiOp>)
      returns (failed: set<string>, ghost t: Trace)
      requires Valid()
      modifies `buffer, `threads, `vals, `dirty, `flights, threads
      ensures Valid()
      ensures flights == old(flights) + [Staging.Flight(old(buffer).staged, old(buffer).gen)]
      ensures Staging.State(buffer, flights) == Staging.Run(Staging.State(old(buffer), flights), t.steps)
      ensures OwnClears(t.steps, |old(flights)|, old(buffer).staged.Keys - failed)
      ensures Flushed(Batch(old(buffer).staged, settings.groups, writes, keeps), t.order, t.states, failed)
      ensures t.states[0] == old(vals) && t.states[|t.order|] == vals && forall id :: id in t.order <==> id in old(buffer).staged
      ensures forall id <- failed :: id in old(buffer).staged && !writes(id)
      ensures (forall k :: script(k) == []) ==>
                buffer == Staging.Buffer(map id | id in old(buffer).staged && id in failed :: old(buffer).staged[id], old(buffer).gen)
    {
      var snapshot, gen := StagedOps();
      ghost var mine := |flights| - 1;
      failed, t := ApplyAll(snapshot, gen, writes, keeps, script, mine);
      if forall k :: script(k) == [] {
        Staging.ClearsRun(Staging.State(old(buffer), flights), t.steps, mine, old(buffer).staged.Keys - failed);
        assert old(buffer).staged - (old(buffer).staged.Keys - failed) == map id | id in old(buffer).staged && id in failed :: old(buffer).staged[id];
      }
    }

    method ApplyAll(snapshot: Staging.Staged, gen: nat, writes: string -> bool, keeps: string -> bool, script: nat -> seq<UiOp>, ghost mine: nat)
      returns (failed: set<string>, ghost t: Trace)
      requires Valid() && mine < |flights| && flights[mine].gen == gen
      modifies `buffer, `threads, `vals, `dirty, threads
      ensures Valid()
      ensures var quiet := forall k :: script(k) == [];
              Underway(Batch(snapshot, settings.groups, writes, keeps), Staging.State(old(buffer), flights), mine, quiet, t, failed, {},
                       Staging.State(buffer, flights), vals)
      ensures t.states[0] == old(vals)
    {
      ghost var s0, all, batch := Staging.State(buffer, flights), threads, Batch(snapshot, settings.groups, writes, keeps);
      ghost var quiet := forall k :: script(k) == [];
      failed, t := {}, Trace([], [], [vals]);
      var left := snapshot.Keys;
      while left != {}
        invariant Valid() && Within(threads, all) && t.states != [] && t.states[0] == old(vals)
        invariant Underway(batch, s0, mine, quiet, t, failed, left, Staging.State(buffer, flights), vals)
        decreases left
      {
        var id :| id in left;
        ghost var was, before, now := threads, vals, Staging.State(buffer, flights);
        var lost, more := ApplyOne(id, snapshot[id], gen, writes(id), keeps(id), script(|left|), mine);
        WithinTrans(threads, was, all);
        UnderwayStep(batch, s0, mine, quiet, t, failed, left, now, before, id, more, Staging.State(buffer, flights), vals, lost);
        t := Extended(t, more, id, vals);
        left, failed := left - {id}, if lost then failed + {id} else failed;
      }
    }
  }

  // ---- An apply under way ----

  /** What an apply has done so far: the staging steps taken, the entries' turns, the contents between them. */
  datatype Trace = Trace(steps: seq<Staging.Step>, order: seq<string>, states: seq<seq<ThreadVal>>)

  function Extended(t: Trace, more: seq<Staging.Step>, id: string, vals: seq<ThreadVal>): Trace {
    Trace(t.steps + more, t.order + [id], t.states + [vals])
  }

  ghost predicate Underway(b: Batch, s0: Staging.State, mine: nat, quiet: bool, t: Trace, failed: set<string>, left: set<string>,
                           now: Staging.State, vals: seq<ThreadVal>)
  {
    && left <= b.snapshot.Keys && failed <= b.snapshot.Keys - left && (forall id <- failed :: !b.writes(id))
    && now == Staging.Run(s0, t.steps) && Cleared(t.steps, mine, quiet, b.snapshot.Keys - left - failed)
    && Flushed(b, t.order, t.states, failed) && t.states[|t.order|] == vals
    && forall id :: id in t.order <==> id in b.snapshot.Keys - left
  }

  /** The steps clear only entries that are done; undisturbed, they are exactly those clears. */
  ghost predicate Cleared(steps: seq<Staging.Step>, mine: nat, quiet: bool, done: set<string>) {
    OwnClears(steps, mine, done) && (quiet ==> Staging.Clears(steps, mine, done))
  }

  lemma ClearedStep(steps: seq<Staging.Step>, mine: nat, quiet: bool, done: set<string>, more: seq<Staging.Step>, id: string, lost: bool)
    requires Cleared(steps, mine, quiet, done) && id !in done && OwnClears(more, mine, if lost then {} else {id})
    requires quiet ==> more == if lost then [] else [Staging.Clear(mine, id)]
    ensures Cleared(steps + more, mine, quiet, if lost then done else done + {id})
  {
    OwnClearsConcat(steps, more, mine, done, if lost then {} else {id});
    Staging.ClearsStep(steps, mine, done, id);
    assert lost && more == [] ==> steps + more == steps;
    assert done + {} == done;
  }

  lemma UnderwayStep(b: Batch, s0: Staging.State, mine: nat, quiet: bool, t: Trace, failed: set<string>, left: set<string>,
                     now: Staging.State, vals: seq<ThreadVal>, id: string, more: seq<Staging.Step>,
                     later: Staging.State, after: seq<ThreadVal>, lost: bool)
    requires Underway(b, s0, mine, quiet, t, failed, left, now, vals) && id in left
    requires later == Staging.Run(now, more) && OwnClears(more, mine, if lost then {} else {id})
    requires quiet ==> more == if lost then [] else [Staging.Clear(mine, id)]
    requires Turned(vals, id, b.snapshot[id], b.groups, b.writes(id), b.keeps(id), after, lost) && (lost ==> !b.writes(id))
    ensures Underway(b, s0, mine, quiet, Extended(t, more, id, after), if lost then failed + {id} else failed, left - {id}, later, after)
  {
    var done, out := b.snapshot.Keys - left - failed, if lost then failed + {id} else failed;
    TakenSets(b.snapshot.Keys, left, failed, id, lost);
    Staging.RunConcat(s0, t.steps, more);
    ClearedStep(t.steps, mine, quiet, done, more, id, lost);
    FlushedStep(b, t.order, t.states, failed, id, after, lost);
    TakenGrows(t.order, b.snapshot.Keys, left, id);
    var grown := Extended(t, more, id, after);
    assert |t.states| == |t.order| + 1 && grown.states[|grown.order|] == after;
    assert Flushed(b, grown.order, grown.states, out);
    assert Cleared(grown.steps, mine, quiet, b.snapshot.Keys - (left - {id}) - out);
    assert forall x <- out :: !b.writes(x);
  }

  lemma TakenSets(all: set<string>, left: set<string>, failed: set<string>, id: string, lost: bool)
    requires id in left && left <= all && failed <= all - left
    ensures var out := if lost then failed + {id} else failed;
            && out <= all - (left - {id})
            && all - (left - {id}) - out == if lost then all - left - failed else (all - left - failed) + {id}
  {
  }

  lemma TakenGrows(order: seq<string>, all: set<string>, left: set<string>, id: string)
    requires (forall x :: x in order <==> x in all - left) && id in left && left <= all
    ensures forall x :: x in order + [id] <==> x in all - (left - {id})
  {
    forall x ensures x in order + [id] <==> x in all - (left - {id}) {
      assert x in order + [id] <==> x in order || x == id;
    }
  }

  /** Where a message without tags loads with a nil list, staging a tag on it and applying loses the
      op: no write fails and none changes the contents, yet the entry is gone. */
  method UntaggedLosesOp() returns (v: View, ghost held: seq<ThreadVal>, ghost staged: Staging.Staged, failed: set<string>)
    ensures v.Valid() && AppliedTags(held, "m").None? && HasMsg(held, "m")
    ensures staged == map["m" := [TagOp("flagged", true)]] && failed == {} && v.buffer.staged == map[] && v.vals == held
  {
    v := UntaggedStaged();
    held, staged := v.vals, v.buffer.staged;
    var always: string -> bool := id => true;
    ghost var trace;
    failed, trace := v.ApplyStaged(always, always, k => []);
    NilTurns(Batch(staged, v.settings.groups, always, always), trace.order, trace.states, failed, "m");
    assert v.buffer.staged == map[];
  }

  method UntaggedStaged() returns (v: View)
    ensures fresh(v) && fresh(v.threads) && v.Valid() && AppliedTags(v.vals, "m").None? && HasMsg(v.vals, "m")
    ensures v.buffer.staged == map["m" := [TagOp("flagged", true)]]
  {
    v := new View();
    var m := Message("m", "t", 0, "", "", [], [], [], [], true);
    var t := new Thread("t", [m]);
    v.threads, v.vals, v.dirty := [t], [t.Val()], true;
    assert v.vals[0].msgs == [m];
    assert v.vals[0].msgs[0].id == "m" && HasId(v.vals[0].msgs, "m");
    v.Stage("m", TagOp("flagged", true));
    assert v.buffer.staged["m"] == [TagOp("flagged", true)];
  }

  /** The only entry's turn, on a row whose tag list is nil, leaves the contents alone. */
  lemma NilTurns(b: Batch, order: seq<string>, states: seq<seq<ThreadVal>>, failed: set<string>, id: string)
    requires Flushed(b, order, states, failed) && AppliedTags(states[0], id).None?
    requires forall o :: o in order <==> o == id
    ensures states[|order|] == states[0]
  {
    assert id in order;
    assert forall k :: 0 <= k < |order| ==> order[k] == id by {
      assert forall k :: 0 <= k < |order| ==> order[k] in order;
    }
    assert order[0] == order[|order| - 1];
    if |order| > 1 {
      assert false;
    }
    assert TurnAt(b, order, states, failed, 0);
  }

  lemma OneTurn(s0: Staging.State, ui: seq<Staging.Step>, mine: nat, id: string, lost: bool, mid: Staging.State, now: Staging.State)
    requires mid == Staging.Run(s0, ui) && OnlyUi(ui)
    requires now == if lost then mid else Staging.Next(mid, Staging.Clear(mine, id))
    ensures var steps := if lost then ui else ui + [Staging.Clear(mine, id)];
            now == Staging.Run(s0, steps) && OwnClears(steps, mine, if lost then {} else {id})
  {
    UiThenClear(ui, mine, id);
    if !lost {
      Staging.RunAppend(s0, ui, Staging.Clear(mine, id));
    }
  }

  lemma UiThenClear(ui: seq<Staging.Step>, mine: nat, id: string)
    requires OnlyUi(ui)
    ensures OwnClears(ui, mine, {}) && OwnClears(ui + [Staging.Clear(mine, id)], mine, {id})
  {
  }

  lemma OwnClearsConcat(a: seq<Staging.Step>, b: seq<Staging.Step>, flight: nat, x: set<string>, y: set<string>)
    requires OwnClears(a, flight, x) && OwnClears(b, flight, y)
    ensures OwnClears(a + b, flight, x + y)
  {
  }

  /** Only the user's stages and undos. */
  predicate OnlyUi(steps: seq<Staging.Step>) {
    forall k :: 0 <= k < |steps| ==> !steps[k].Clear? && !steps[k].Launch?
  }

  /** Clears of one apply, of the given entries only, among the user's steps. */
  predicate OwnClears(steps: seq<Staging.Step>, flight: nat, ids: set<string>) {
    forall k :: 0 <= k < |steps| ==> !steps[k].Launch? && (steps[k].Clear? ==> steps[k].flight == flight && steps[k].id in ids)
  }

  predicate Within(now: seq<Thread>, was: seq<Thread>) {
    forall k :: 0 <= k < |now| ==> now[k] in was
  }

  lemma WithinTrans(a: seq<Thread>, b: seq<Thread>, c: seq<Thread>)
    requires Within(a, b) && Within(b, c)
    ensures Within(a, c)
  {
    forall k | 0 <= k < |a| ensures a[k] in c {
      var i :| 0 <= i < |b| && b[i] == a[k];
    }
  }

  /** What the user may do while an apply is in flight. */
  datatype UiOp = StageIt(id: string, op: TagOp) | UndoIt(id: string)

  /** The same objects with the same contents, in some order. */
  ghost predicate Reordered(was: seq<Thread>, held: seq<ThreadVal>, now: seq<Thread>, vals: seq<ThreadVal>) {
    && |was| == |held| && |now| == |vals|
    && forall i, k :: 0 <= i < |was| && 0 <= k < |now| && was[i] == now[k] ==> held[i] == vals[k]
  }

  lemma StillHolds(was: seq<Thread>, held: seq<ThreadVal>, now: seq<Thread>, vals: seq<ThreadVal>)
    requires HaveVals(was, held) && HaveVals(now, vals)
    ensures Reordered(was, held, now, vals)
  {
  }

  ghost function ValsOf(ts: seq<Thread>): (r: seq<ThreadVal>)
    reads ts
    ensures |r| == |ts| && forall k :: 0 <= k < |ts| ==> r[k] == ts[k].Val()
  {
    if ts == [] then [] else ValsOf(ts[..|ts| - 1]) + [ts[|ts| - 1].Val()]
  }

  /** Well-formed threads and their contents. */
  ghost predicate HaveVals(ts: seq<Thread>, vs: seq<ThreadVal>)
    reads ts
  {
    |vs| == |ts| && forall k :: 0 <= k < |ts| ==> ts[k].Valid() && ts[k].Val() == vs[k]
  }

  lemma StillValid(ts: seq<Thread>, vs: seq<ThreadVal>, sorted: seq<Thread>)
    requires HaveVals(ts, vs) && forall t :: t in sorted ==> t in ts
    ensures forall k :: 0 <= k < |sorted| ==> sorted[k].Valid()
  {
    forall k | 0 <= k < |sorted| ensures sorted[k].Valid() {
      assert sorted[k] in ts;
      var i :| 0 <= i < |ts| && ts[i] == sorted[k];
    }
  }

  /** The incoming ids in order; each object is the incoming one or one the view had. */
  predicate Placed(was: seq<Thread>, ins: seq<Thread>, now: seq<Thread>) {
    && |now| == |ins| && DistinctThreads(now)
    && forall k :: 0 <= k < |ins| ==> now[k].id == ins[k].id && (now[k] == ins[k] || now[k] in was)
  }

  function ValRank(v: ThreadVal): Rank {
    Rank(v.lastDate, v.id)
  }

  function ValRanks(vs: seq<ThreadVal>): (r: seq<Rank>)
    ensures |r| == |vs| && forall k :: 0 <= k < |vs| ==> r[k] == ValRank(vs[k])
  {
    Retain.Ranks(vs, ValRank)
  }

  /** A held thread keeps its object exactly where Kept says so; else the incoming one takes its place. */
  ghost predicate KeepsObjects(was: seq<Thread>, vals: seq<ThreadVal>, ins: seq<Thread>, given: seq<ThreadVal>, now: seq<Thread>) {
    && |was| == |vals| && |given| == |now| == |ins|
    && forall k, p :: 0 <= k < |now| && 0 <= p < |was| && vals[p].id == given[k].id ==>
         now[k] == if Retain.Kept(ValRanks(vals), ValRanks(given), ThreadRankLess, p, k) then was[p] else ins[k]
  }

  lemma ValsOrdered(vals: seq<ThreadVal>, given: seq<ThreadVal>)
    requires ValsSorted(vals) && ValsSorted(given) && Retain.UniqueRanks(ValRanks(vals)) && Retain.UniqueRanks(ValRanks(given))
    ensures Retain.Sorted(ValRanks(vals), ValRanks(given), ThreadRankLess)
  {
    RankOrders();
  }

  /** A thread whose sort key did not change keeps its object. */
  lemma UnmovedKeepsObject(was: seq<Thread>, vals: seq<ThreadVal>, ins: seq<Thread>, given: seq<ThreadVal>, now: seq<Thread>, p: nat, k: nat)
    requires KeepsObjects(was, vals, ins, given, now) && p < |was| && k < |now| && ValRank(vals[p]) == ValRank(given[k])
    requires ValsSorted(vals) && ValsSorted(given) && Retain.UniqueRanks(ValRanks(vals)) && Retain.UniqueRanks(ValRanks(given))
    ensures now[k] == was[p]
  {
    ValsOrdered(vals, given);
    Retain.UnmovedKept(ValRanks(vals), ValRanks(given), ThreadRankLess, p, k);
  }

  /** The stub guard holds exactly where the object is kept: a stub that meets a hydrated thread
      leaves its messages alone if the thread kept its object, and replaces it whole if not. */
  lemma StubGuardExactly(was: seq<Thread>, vals: seq<ThreadVal>, ins: seq<Thread>, given: seq<ThreadVal>, now: seq<Thread>,
                         before: seq<ThreadVal>, after: seq<ThreadVal>, p: nat, k: nat)
    requires KeepsObjects(was, vals, ins, given, now) && BeforeOf(before, now, given, was, vals) && AllMerged(before, given, after)
    requires p < |was| && k < |now| && vals[p].id == given[k].id && ins[k] !in was
    requires HasReal(vals[p].msgs) && !HasReal(given[k].msgs)
    ensures HasReal(after[k].msgs) <==> Retain.Kept(ValRanks(vals), ValRanks(given), ThreadRankLess, p, k)
    ensures Retain.Kept(ValRanks(vals), ValRanks(given), ThreadRankLess, p, k) ==> after[k] == vals[p].(lastDate := given[k].lastDate)
  {
    assert MergedThread(before[k], given[k], after[k]);
    if !Retain.Kept(ValRanks(vals), ValRanks(given), ThreadRankLess, p, k) {
      MergedIds(given[k].msgs, given[k].msgs, after[k].msgs);
    }
  }

  /** A reincoming never loses files: in a thread that kept its object and was not guarded, a message
      whose sort key did not change keeps its attachments and paths. A thread that came as a new
      object has the incoming messages, files and all. */
  lemma MergeKeepsFiles(was: seq<Thread>, vals: seq<ThreadVal>, ins: seq<Thread>, given: seq<ThreadVal>, now: seq<Thread>,
                        before: seq<ThreadVal>, after: seq<ThreadVal>, p: nat, k: nat, i: nat, j: nat)
    requires KeepsObjects(was, vals, ins, given, now) && BeforeOf(before, now, given, was, vals) && AllMerged(before, given, after)
    requires p < |was| && k < |now| && vals[p].id == given[k].id && ins[k] !in was
    requires Merge.ValidMsgs(vals[p].msgs) && Merge.ValidMsgs(given[k].msgs) && HasReal(given[k].msgs)
    requires i < |vals[p].msgs| && j < |given[k].msgs| && MsgRank(vals[p].msgs[i]) == MsgRank(given[k].msgs[j])
    ensures |after[k].msgs| == |given[k].msgs|
    ensures var m, held, incoming := after[k].msgs[j], vals[p].msgs[i], given[k].msgs[j];
            if Retain.Kept(ValRanks(vals), ValRanks(given), ThreadRankLess, p, k)
            then m.atts == held.atts && m.paths == held.paths
            else m == incoming
  {
    assert MergedThread(before[k], given[k], after[k]);
    if Retain.Kept(ValRanks(vals), ValRanks(given), ThreadRankLess, p, k) {
      Merge.UnmovedKeepsFiles(vals[p].msgs, given[k].msgs, after[k].msgs, i, j);
    } else {
      Merge.UnmovedKeepsFiles(given[k].msgs, given[k].msgs, after[k].msgs, j, j);
    }
  }

  lemma ArrangedFacts(was: seq<Thread>, vals: seq<ThreadVal>, incoming: seq<Thread>, ins: seq<Thread>, given: seq<ThreadVal>,
                      merged: seq<Thread>, before: seq<ThreadVal>)
    requires HaveVals(was, vals) && Arranged(was, ins, merged) && DatesSorted(ins)
    requires (forall t :: t in ins ==> t in incoming) && forall k :: 0 <= k < |incoming| ==> incoming[k].Valid()
    requires given == ValsOf(ins) && before == ValsOf(merged)
    ensures Placed(was, ins, merged) && KeepsObjects(was, vals, ins, given, merged)
    ensures BeforeOf(before, merged, given, was, vals) && GivenBy(given, ins, incoming, ValsOf(incoming))
    ensures HaveVals(merged, before) && HaveVals(ins, given) && ValsSorted(given)
    ensures forall t :: t in merged ==> t in was || t in incoming
  {
    StillValid(incoming, ValsOf(incoming), ins);
    SortedVals(ins, given);
    assert RanksOf(was) == ValRanks(vals) && RanksOf(ins) == ValRanks(given);
    forall k | 0 <= k < |merged| ensures merged[k].Valid() && (merged[k] in was || merged[k] in incoming) {
      assert ins[k] in ins;
      if merged[k] in was {
        var p :| 0 <= p < |was| && was[p] == merged[k];
      }
    }
  }

  /** Contents merged in order are in order. */
  lemma MergedSorted(given: seq<ThreadVal>, before: seq<ThreadVal>, after: seq<ThreadVal>)
    requires ValsSorted(given) && AllMerged(before, given, after)
    ensures ValsSorted(after)
  {
    forall k | 0 <= k < |after| ensures after[k].id == given[k].id && after[k].lastDate == given[k].lastDate {
      assert MergedThread(before[k], given[k], after[k]);
    }
  }

  /** given[k] is what the k-th incoming thread held. */
  ghost predicate GivenBy(given: seq<ThreadVal>, ins: seq<Thread>, incoming: seq<Thread>, held: seq<ThreadVal>) {
    && |given| == |ins| && |held| == |incoming|
    && forall k, q :: 0 <= k < |ins| && 0 <= q < |incoming| && ins[k] == incoming[q] ==> given[k] == held[q]
  }

  /** before[k] is what the k-th thread held: its old contents, or the incoming ones for a new object. */
  ghost predicate BeforeOf(before: seq<ThreadVal>, now: seq<Thread>, given: seq<ThreadVal>, was: seq<Thread>, vals: seq<ThreadVal>) {
    && |before| == |now| == |given| && |vals| == |was|
    && (forall k, p :: 0 <= k < |now| && 0 <= p < |was| && now[k] == was[p] ==> before[k] == vals[p])
    && (forall k :: 0 <= k < |now| && now[k] !in was ==> before[k] == given[k])
  }

  /** Thread by thread, what a merge leaves. */
  ghost predicate AllMerged(a: seq<ThreadVal>, b: seq<ThreadVal>, r: seq<ThreadVal>) {
    |a| == |b| == |r| && forall k {:trigger MergedThread(a[k], b[k], r[k])} :: 0 <= k < |r| ==> MergedThread(a[k], b[k], r[k])
  }

  lemma AllMergedStep(a: seq<ThreadVal>, b: seq<ThreadVal>, r: seq<ThreadVal>, n: nat, v: ThreadVal)
    requires n < |a| && n < |b| && AllMerged(a[..n], b[..n], r) && MergedThread(a[n], b[n], v)
    ensures AllMerged(a[..n + 1], b[..n + 1], r + [v])
  {
    var x, y, z := a[..n + 1], b[..n + 1], r + [v];
    forall k | 0 <= k < |z| ensures MergedThread(x[k], y[k], z[k]) {
      if k < n {
        assert MergedThread(a[..n][k], b[..n][k], r[k]);
      }
    }
  }

  lemma DatesOfVals(ts: seq<Thread>, vs: seq<ThreadVal>)
    requires HaveVals(ts, vs)
    ensures ValsSorted(vs) <==> DatesSorted(ts)
  {
  }

  lemma SortedVals(ts: seq<Thread>, vs: seq<ThreadVal>)
    requires DatesSorted(ts) && |vs| == |ts| && forall k :: 0 <= k < |ts| ==> ts[k].Val() == vs[k]
    ensures ValsSorted(vs)
  {
  }

  ghost predicate AreEntries(es: seq<Merge.Entry>, ts: seq<Thread>, held: bool)
    reads ts
  {
    |es| == |ts| && forall j :: 0 <= j < |ts| ==> es[j] == Merge.Entry(held, j, ts[j].lastDate, ts[j].id)
  }

  ghost predicate DatesSorted(ts: seq<Thread>)
    reads ts
  {
    forall i, j :: 0 <= i < j < |ts| ==> ThreadRankLess(Rank(ts[i].lastDate, ts[i].id), Rank(ts[j].lastDate, ts[j].id))
  }

  ghost function RanksOf(ts: seq<Thread>): (r: seq<Rank>)
    reads ts
    ensures |r| == |ts| && forall k :: 0 <= k < |ts| ==> r[k] == Rank(ts[k].lastDate, ts[k].id)
  {
    if ts == [] then [] else RanksOf(ts[..|ts| - 1]) + [Rank(ts[|ts| - 1].lastDate, ts[|ts| - 1].id)]
  }

  ghost predicate Arranged(was: seq<Thread>, ins: seq<Thread>, merged: seq<Thread>)
    reads was, ins
  {
    && |merged| == |ins| && DistinctThreads(merged)
    && (forall k :: 0 <= k < |ins| ==> merged[k].id == ins[k].id && (merged[k] == ins[k] || merged[k] in was))
    && (forall k, p :: 0 <= k < |ins| && 0 <= p < |was| && was[p].id == ins[k].id ==>
          merged[k] == if Retain.Kept(RanksOf(was), RanksOf(ins), ThreadRankLess, p, k) then was[p] else ins[k])
  }

  lemma FaceKeepsFull(vs: seq<ThreadVal>, i: nat, j: nat, m: Message, s: Settings, staged: Staging.Staged, full: seq<Tree.Row>)
    requires i < |vs| && j < |vs[i].msgs| && Bare(m) == Bare(vs[i].msgs[j])
    ensures IsFull(full, vs, s, staged) ==> IsFull(full, WithMsg(vs, i, j, m), s, staged)
  {
    var now := WithMsg(vs, i, j, m);
    assert Bared(now[i].msgs) == Bared(vs[i].msgs);
    SameFaces(vs, now, s);
    assert Full(now, s, staged) == Full(vs, s, staged);
  }

  function PickOf(e: Merge.Entry, was: seq<Thread>, incoming: seq<Thread>): Thread
    requires e.at < |if e.held then was else incoming|
  {
    if e.held then was[e.at] else incoming[e.at]
  }

  predicate InRange(es: seq<Merge.Entry>, was: seq<Thread>, incoming: seq<Thread>) {
    forall k :: 0 <= k < |es| ==> es[k].at < |if es[k].held then was else incoming|
  }

  function Picks(es: seq<Merge.Entry>, was: seq<Thread>, incoming: seq<Thread>): (r: seq<Thread>)
    requires InRange(es, was, incoming)
    ensures |r| == |es| && forall k :: 0 <= k < |es| ==> r[k] == PickOf(es[k], was, incoming)
  {
    seq(|es|, k requires 0 <= k < |es| => PickOf(es[k], was, incoming))
  }

  /** The entry names its thread as it stands. */
  ghost predicate IsPick(e: Merge.Entry, was: seq<Thread>, incoming: seq<Thread>)
    reads was, incoming
  {
    && e.at < |if e.held then was else incoming|
    && e.id == PickOf(e, was, incoming).id && e.date == PickOf(e, was, incoming).lastDate
  }

  /** The sorted entries pick every incoming thread once. */
  lemma SortedPicks(news: seq<Merge.Entry>, order: seq<Merge.Entry>, was: seq<Thread>, incoming: seq<Thread>)
    requires AreEntries(news, incoming, false) && DistinctThreads(incoming)
    requires Merge.EntriesSorted(order) && multiset(order) == multiset(news)
    ensures |order| == |incoming| && Merge.EntriesUnique(order) && InRange(order, was, incoming)
    ensures forall k :: 0 <= k < |order| ==> !order[k].held && IsPick(order[k], was, incoming)
    ensures forall q :: 0 <= q < |incoming| ==> news[q] in order
  {
    assert |multiset(order)| == |multiset(news)|;
    forall k | 0 <= k < |order| ensures !order[k].held && IsPick(order[k], was, incoming) {
      assert order[k] in multiset(news);
    }
    forall q | 0 <= q < |incoming| ensures news[q] in order {
      assert news[q] in multiset(news);
    }
    RankOrders();
    forall i, j | 0 <= i < j < |order| ensures order[i].id != order[j].id {
      assert ThreadRankLess(Merge.EntryRank(order[i]), Merge.EntryRank(order[j]));
      assert IsPick(order[i], was, incoming) && IsPick(order[j], was, incoming);
      assert order[i].at != order[j].at;
    }
  }

  lemma PicksSorted(news: seq<Merge.Entry>, order: seq<Merge.Entry>, was: seq<Thread>, incoming: seq<Thread>)
    requires AreEntries(news, incoming, false) && Merge.EntriesSorted(order) && Merge.EntriesUnique(order)
    requires InRange(order, was, incoming)
    requires forall k :: 0 <= k < |order| ==> !order[k].held && IsPick(order[k], was, incoming)
    requires forall q :: 0 <= q < |incoming| ==> news[q] in order
    ensures var ins := Picks(order, was, incoming);
            DatesSorted(ins) && DistinctThreads(ins) && forall t :: t in ins <==> t in incoming
  {
    var ins := Picks(order, was, incoming);
    forall k | 0 <= k < |ins| ensures ins[k].id == order[k].id && ins[k].lastDate == order[k].date {
      assert IsPick(order[k], was, incoming);
    }
    forall i, j | 0 <= i < j < |ins|
      ensures ThreadRankLess(Rank(ins[i].lastDate, ins[i].id), Rank(ins[j].lastDate, ins[j].id))
    {
      assert ThreadRankLess(Merge.EntryRank(order[i]), Merge.EntryRank(order[j]));
    }
    forall t | t in incoming ensures t in ins {
      var q :| 0 <= q < |incoming| && incoming[q] == t;
      assert news[q] in order;
      var k :| 0 <= k < |order| && order[k] == news[q];
      assert ins[k] == t;
    }
  }

  lemma ReplayInRange(was: seq<Thread>, incoming: seq<Thread>, olds: seq<Merge.Entry>, order: seq<Merge.Entry>, r: seq<Merge.Entry>)
    requires AreEntries(olds, was, true) && Merge.ReplacedEntries(olds, order, r)
    requires forall k :: 0 <= k < |order| ==> !order[k].held && IsPick(order[k], was, incoming)
    ensures InRange(r, was, incoming) && forall k :: 0 <= k < |r| ==> IsPick(r[k], was, incoming)
  {
    forall k | 0 <= k < |r| ensures IsPick(r[k], was, incoming) {
      if r[k] == order[k] {
        assert IsPick(order[k], was, incoming);
      } else {
        assert r[k] in olds;
      }
    }
  }

  lemma ReplayArranged(was: seq<Thread>, incoming: seq<Thread>, olds: seq<Merge.Entry>, order: seq<Merge.Entry>, r: seq<Merge.Entry>)
    requires AreEntries(olds, was, true) && Merge.ReplacedEntries(olds, order, r) && Merge.EntriesUnique(order)
    requires InRange(order, was, incoming) && InRange(r, was, incoming)
    requires forall k :: 0 <= k < |order| ==> !order[k].held && IsPick(order[k], was, incoming)
    requires forall k :: 0 <= k < |r| ==> IsPick(r[k], was, incoming)
    ensures Arranged(was, Picks(order, was, incoming), Picks(r, was, incoming))
  {
    var ins, merged := Picks(order, was, incoming), Picks(r, was, incoming);
    forall k | 0 <= k < |ins| ensures ins[k].id == order[k].id == merged[k].id && ins[k].lastDate == order[k].date {
      assert IsPick(order[k], was, incoming) && IsPick(r[k], was, incoming);
    }
    forall k | 0 <= k < |ins| ensures merged[k] == ins[k] || merged[k] in was {
      assert r[k] == order[k] || r[k] in olds;
    }
    assert Merge.EntryRanks(olds) == RanksOf(was) && Merge.EntryRanks(order) == RanksOf(ins);
    forall k, p | 0 <= k < |ins| && 0 <= p < |was| && was[p].id == ins[k].id
      ensures merged[k] == if Retain.Kept(RanksOf(was), RanksOf(ins), ThreadRankLess, p, k) then was[p] else ins[k]
    {
      assert olds[p].id == order[k].id;
    }
  }

  /** Full-space index of a row in the current emission, and back. A full index the filter hides
      maps to the first visible row. */
  function ToFull(filter: string, idx: seq<nat>, i: nat): nat {
    if filter != "" && i < |idx| then idx[i] else i
  }

  function ToFiltered(filter: string, inverse: Option<map<nat, nat>>, i: nat): nat {
    if filter != "" && inverse.Some? then if i in inverse.value then inverse.value[i] else 0 else i
  }

  /** The two index spaces are mutually inverse on the visible rows. */
  lemma RoundTrips(rows: seq<Tree.Row>, full: seq<Tree.Row>, filter: string, idx: seq<nat>, inverse: Option<map<nat, nat>>, k: nat)
    requires rows == Filtered(full, filter) && Mapped(idx, inverse, full, filter) && k < |rows|
    ensures var i := ToFull(filter, idx, k);
            i < |full| && full[i] == rows[k] && ToFiltered(filter, inverse, i) == k
  {
    if filter != "" {
      FilterIdxIncreasing(full, filter);
      InverseUndoes(idx);
    }
  }

  /** The row the cursor shows: the first one with the anchored message; else, the last known row
      when it is there, the first row when the filter hides it, the last row when there are fewer;
      nothing only when nothing is shown. */
  lemma CursorShows(rows: seq<Tree.Row>, full: seq<Tree.Row>, filter: string, idx: seq<nat>, inverse: Option<map<nat, nat>>,
                    cursorID: string, last: nat)
    requires rows == Filtered(full, filter) && Mapped(idx, inverse, full, filter)
    ensures var r := CursorOf(rows, cursorID, ToFiltered(filter, inverse, last));
            && (r == None <==> rows == [])
            && (forall k :: 0 <= k < |rows| && cursorID != "" && Holds(rows[k], cursorID) && (forall j :: 0 <= j < k ==> !Holds(rows[j], cursorID)) ==>
                  r == Some(rows[k]))
            && (rows != [] && (cursorID == "" || forall k :: 0 <= k < |rows| ==> !Holds(rows[k], cursorID)) ==>
                  r == Some(if last < |full| && (filter == "" || RowMatches(full[last], filter)) then full[last]
                            else if filter == "" then full[|full| - 1]
                            else rows[0]))
  {
    if rows != [] {
      FallbackShows(rows, full, filter, idx, inverse, last);
      AnchorShows(rows, cursorID, ToFiltered(filter, inverse, last));
    }
  }

  /** The row shown when no row is anchored. */
  lemma FallbackShows(rows: seq<Tree.Row>, full: seq<Tree.Row>, filter: string, idx: seq<nat>, inverse: Option<map<nat, nat>>, last: nat)
    requires rows == Filtered(full, filter) && Mapped(idx, inverse, full, filter) && rows != []
    ensures var at := ToFiltered(filter, inverse, last);
            rows[if at < |rows| then at else |rows| - 1] ==
              if last < |full| && (filter == "" || RowMatches(full[last], filter)) then full[last]
              else if filter == "" then full[|full| - 1]
              else rows[0]
  {
    if filter != "" {
      FilterIdxIncreasing(full, filter);
      InverseUndoes(idx);
    }
  }

  lemma AnchorShows(rows: seq<Tree.Row>, cursorID: string, at: nat)
    requires rows != []
    ensures forall k :: 0 <= k < |rows| && cursorID != "" && Holds(rows[k], cursorID) && (forall j :: 0 <= j < k ==> !Holds(rows[j], cursorID)) ==>
              CursorOf(rows, cursorID, at) == Some(rows[k])
    ensures (cursorID == "" || forall k :: 0 <= k < |rows| ==> !Holds(rows[k], cursorID)) ==>
              CursorOf(rows, cursorID, at) == Some(rows[if at < |rows| then at else |rows| - 1])
  {
  }

  ghost predicate Located(ts: seq<Thread>, id: string, ok: bool, at: nat) {
    && at <= |ts| && ok == (at < |ts|)
    && (forall k :: 0 <= k < at ==> ts[k].id != id) && (ok ==> ts[at].id == id)
  }

  /** The message is in the view: some thread's full expansion has its row. */
  ghost predicate Listed(vs: seq<ThreadVal>, s: Settings, id: string) {
    exists k :: 0 <= k < |vs| && HasRow(vs[k], s, id)
  }

  /** The thread's full expansion has a row for the message. Stated so that a proof meets the
      expansion only where it names it. */
  ghost predicate HasRow(v: ThreadVal, s: Settings, id: string) {
    forall w, t {:trigger Expanded(w, t)} :: w == v && t == s ==> Shows(Expanded(w, t), id)
  }

  /** The message's first row in the first thread whose expansion has one. */
  ghost predicate IsFirstAt(vs: seq<ThreadVal>, s: Settings, id: string, i: nat, at: nat) {
    && i < |vs| && (forall k :: 0 <= k < i ==> !HasRow(vs[k], s, id))
    && at < |Expanded(vs[i], s)| && at == FirstHolding(Expanded(vs[i], s), id) && Holds(Expanded(vs[i], s)[at], id)
  }

  /** The view with thread i open at the row. */
  ghost function Revealed(vs: seq<ThreadVal>, s: Settings, i: nat, at: nat): seq<ThreadVal>
    requires i < |vs|
  {
    vs[i := vs[i].(collapsed := false, winStart := Window.RevealStart(|Expanded(vs[i], s)|, s.winRows, vs[i].winStart, at))]
  }

  /** After the reveal the unfiltered rows hold the message. */
  lemma RevealShows(was: seq<ThreadVal>, now: seq<ThreadVal>, s: Settings, staged: Staging.Staged, i: nat, at: nat, id: string, full: seq<Tree.Row>)
    requires i < |was| && at < |Expanded(was[i], s)| && Holds(Expanded(was[i], s)[at], id)
    requires now == was[i := was[i].(collapsed := false, winStart := Window.RevealStart(|Expanded(was[i], s)|, s.winRows, was[i].winStart, at))]
    requires IsFull(full, now, s, staged)
    ensures Shows(full, id)
  {
    RevealedRow(was[i], s, at, id);
    RowOfThread(now, s, i, id);
    StagingKeepsAnchor(AllRows(now, s), staged, s.groups, id);
    assert full == Full(now, s, staged);
  }

  /** The message a collapsed row shows. */
  function SummaryOf(msgs: seq<Message>, threaded: bool): Option<Message> {
    var root := Tree.TreeOf(Bared(msgs));
    if root.Some? then Tree.CollapseMsg(root.value, threaded) else None
  }

  /** The cursor sits on the message the collapsed row shows, if it shows one. */
  predicate Anchored(v: ThreadVal, threaded: bool, cursorID: string, before: string) {
    var m := SummaryOf(v.msgs, threaded);
    cursorID == if m.Some? then m.value.id else before
  }

  /** Where a slide takes the thread's window. */
  function SlideOf(v: ThreadVal, s: Settings, step: int): Option<nat> {
    if s.winRows == 0 then None else Window.Slid(|FlatThread(v, s)|, s.winRows, v.winStart, step)
  }

  lemma FullOf(flat: seq<Tree.Row>, vs: seq<ThreadVal>, s: Settings, staged: Staging.Staged)
    requires flat == AllRows(vs, s)
    ensures IsFull(StagedRows(flat, staged, s.groups), vs, s, staged)
  {
  }

  /** A concrete run: two rows are shown, the budget is cut to one, and the two rows are still shown. */
  method BudgetGoesStale() returns (v: View, out: seq<Tree.Row>)
    ensures v.Sound() && v.mergeDepth == 0 && v.settings.winRows == 1 && v.settings.filter == "" && out != v.FreshRows()
  {
    v := TwoRows();
    out := v.Rows();
    out := CutBudget(v);
  }

  method CutBudget(v: View) returns (out: seq<Tree.Row>)
    requires v.Valid() && v.mergeDepth == 0 && !v.dirty && v.memo.Some? && v.settings == Settings([], "", 0, false, true)
    requires |v.vals| == 1 && |FlatThread(v.vals[0], v.settings)| >= 2
    modifies v
    ensures v.Sound() && v.mergeDepth == 0 && v.settings.winRows == 1 && v.settings.filter == "" && out != v.FreshRows()
  {
    CutHides(v.vals, v.settings);
    v.SetWindowBudget(1);
    assert !v.NextIsFresh();
    out := v.Rows();
    assert v.settings.winRows == 1;
  }

  /** When rows that were fresh under the old budget are fresh under the new one. */
  lemma StaleExactly(rows: seq<Tree.Row>, vs: seq<ThreadVal>, s: Settings, now: Settings, staged: Staging.Staged)
    requires rows == Fresh(vs, s, staged) && Budget.DistinctVals(vs) && now == s.(winRows := now.winRows)
    ensures rows == Fresh(vs, now, staged) <==> Budget.SameUnderBudget(vs, s, now.winRows, staged)
    ensures s.filter == "" ==> (rows == Fresh(vs, now, staged) <==> Budget.BudgetHidesNothing(vs, s, now.winRows))
  {
    Budget.BudgetExactly(vs, s, now.winRows, staged);
    if s.filter == "" {
      Budget.BudgetUnfiltered(vs, s, now.winRows, staged);
    }
  }

  lemma CutHides(vs: seq<ThreadVal>, s: Settings)
    requires |vs| == 1 && s.winRows == 0 && |FlatThread(vs[0], s)| >= 2
    ensures !Budget.BudgetHidesNothing(vs, s, 1)
  {
    assert Window.Windowed(|FlatThread(vs[0], s)|, 1);
  }

  method TwoRows() returns (v: View)
    ensures fresh(v) && fresh(v.threads) && v.Valid() && v.mergeDepth == 0 && v.settings == Settings([], "", 0, false, true)
    ensures |v.vals| == 1 && |FlatThread(v.vals[0], v.settings)| >= 2
  {
    v := new View();
    var t := TwoMessages(v.settings);
    v.threads, v.vals, v.dirty := [t], [t.Val()], true;
  }

  method TwoMessages(ghost s: Settings) returns (t: Thread)
    requires s.threaded && !s.msgDesc
    ensures fresh(t) && t.Valid() && |FlatThread(t.Val(), s)| >= 2
  {
    var a := Message("a", "t", 0, "", "", [], [], [], [], false);
    var b := Message("b", "t", 1, "", "", [], [], [], [], false);
    t := new Thread("t", [a, b]);
    SortedHolds(a, b);
    TwoShown(t.Val(), s, a, b);
  }

  lemma SortedHolds(a: Message, b: Message)
    ensures var r := Fill.SortMsgs([a, b]); a in r && b in r && forall m <- r :: m == a || m == b
  {
    var r := Fill.SortMsgs([a, b]);
    Fill.SortMsgsSorts([a, b]);
    assert a in multiset(r) && b in multiset(r);
    forall m | m in r ensures m == a || m == b {
      assert m in multiset(r);
    }
  }

  /** An open thread of two messages that refer to nothing has at least two rows. */
  lemma TwoShown(v: ThreadVal, s: Settings, a: Message, b: Message)
    requires Tree.UniqueIds(v.msgs) && a in v.msgs && b in v.msgs && a.id != b.id && !v.collapsed && s.threaded && !s.msgDesc
    requires forall m <- v.msgs :: m.references == [] && m.tags == []
    ensures |FlatThread(v, s)| >= 2
  {
    var ms := Bared(v.msgs);
    BaredUnique(v.msgs);
    var shown := Tree.MsgsOf(FlatThread(v, s));
    var i :| 0 <= i < |ms| && v.msgs[i] == a;
    var j :| 0 <= j < |ms| && v.msgs[j] == b;
    EachShown(v, s, i);
    EachShown(v, s, j);
    assert ms[i] in shown && ms[j] in shown && ms[i] != ms[j];
    RowsHoldMsgs(FlatThread(v, s));
  }

  lemma EachShown(v: ThreadVal, s: Settings, i: nat)
    requires Tree.UniqueIds(v.msgs) && i < |v.msgs| && !v.collapsed && s.threaded && !s.msgDesc
    requires v.msgs[i].references == [] && v.msgs[i].tags == []
    ensures Bared(v.msgs)[i] in Tree.MsgsOf(FlatThread(v, s))
  {
    var ms := Bared(v.msgs);
    BaredUnique(v.msgs);
    assert Tree.HasDepth(ms, i, 0) && Tree.Reaches(ms, i);
    Tree.FlattenEmits(ms, v.id, true, false, i);
    assert ms[i] in multiset(Tree.MsgsOf(FlatThread(v, s)));
  }

  lemma {:induction false} RowsHoldMsgs(rows: seq<Tree.Row>)
    ensures |Tree.MsgsOf(rows)| <= |rows|
  {
    if rows != [] {
      Tree.MsgsOfAppend(rows[..1], rows[1..]);
      assert rows == rows[..1] + rows[1..];
      RowsHoldMsgs(rows[1..]);
    }
  }

  lemma DistinctVals(ts: seq<Thread>, vs: seq<ThreadVal>)
    requires DistinctThreads(ts) && |vs| == |ts| && forall k :: 0 <= k < |ts| ==> ts[k].Val() == vs[k]
    ensures Budget.DistinctVals(vs)
  {
    assert forall k :: 0 <= k < |ts| ==> vs[k].id == ts[k].id;
  }

  lemma MaterializedIsFresh(rows: seq<Tree.Row>, full: seq<Tree.Row>, vs: seq<ThreadVal>, s: Settings, staged: Staging.Staged)
    requires IsFull(full, vs, s, staged) && rows == Filtered(full, s.filter)
    ensures rows == Fresh(vs, s, staged)
  {
    assert full == Full(vs, s, staged);
  }

  lemma FilterStep(full: seq<Tree.Row>, f: string, i: nat)
    requires i < |full|
    ensures FilterIdx(full[..i + 1], f) == FilterIdx(full[..i], f) + if RowMatches(full[i], f) then [i] else []
  {
    assert full[..i + 1][..i] == full[..i];
  }

  lemma InverseStep(idx: seq<nat>, i: nat)
    ensures Inverse(idx + [i]) == Inverse(idx)[i := |idx|]
  {
    assert (idx + [i])[..|idx|] == idx;
  }

  lemma AllRowsStep(vs: seq<ThreadVal>, i: nat, s: Settings)
    requires i < |vs|
    ensures AllRows(vs[..i + 1], s) == AllRows(vs[..i], s) + ThreadRows(vs[i], s)
  {
    assert vs[..i + 1][..i] == vs[..i];
  }

  lemma FlattenUnmarked(v: ThreadVal, s: Settings)
    ensures forall k :: 0 <= k < |FlatThread(v, s)| ==> FlatThread(v, s)[k].more == 0 && FlatThread(v, s)[k].moreTop == 0
  {
    Window.Unmarked(Tree.TreeOf(Bared(v.msgs)), v.id, v.collapsed, s.threaded, s.msgDesc);
  }

  lemma {:induction false} StagingKeepsAnchor(rows: seq<Tree.Row>, staged: Staging.Staged, groups: seq<TagGroup>, id: string)
    ensures FirstHolding(StagedRows(rows, staged, groups), id) == FirstHolding(rows, id)
    ensures Shows(StagedRows(rows, staged, groups), id) == Shows(rows, id)
  {
    if rows != [] {
      assert StagedRows(rows, staged, groups)[1..] == StagedRows(rows[1..], staged, groups);
      StagingKeepsAnchor(rows[1..], staged, groups, id);
    }
  }
}
