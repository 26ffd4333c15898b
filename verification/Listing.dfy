/** What the materialized rows show of the threads: their order, and each open thread's messages
    (src/core/view.go). */
module Listing {
  import opened Mail
  import opened Budget
  import opened Rows
  import opened Tree
  import Staging
  import Window

  // ---- The order of the threads ----

  /** The row belongs to thread i. */
  predicate OfThread(vs: seq<ThreadVal>, i: nat, r: Row) {
    i < |vs| && vs[i].id == r.threadID
  }

  /** Two rows, in the order they are shown, belong to threads in the order they are held. */
  ghost predicate InTurn(vs: seq<ThreadVal>, a: Row, b: Row) {
    exists i: nat, j: nat :: i <= j && OfThread(vs, i, a) && OfThread(vs, j, b)
  }

  ghost predicate AllInTurn(vs: seq<ThreadVal>, rows: seq<Row>) {
    forall p, q :: 0 <= p <= q < |rows| ==> InTurn(vs, rows[p], rows[q])
  }

  lemma InTurnStep(vs: seq<ThreadVal>, v: ThreadVal, a: seq<Row>, b: seq<Row>)
    requires AllInTurn(vs, a) && Own(b, v.id)
    ensures AllInTurn(vs + [v], a + b)
  {
    var all, rows := vs + [v], a + b;
    forall p, q | 0 <= p <= q < |rows| ensures InTurn(all, rows[p], rows[q]) {
      if q < |a| {
        assert InTurn(vs, a[p], a[q]);
        var i: nat, j: nat :| i <= j && OfThread(vs, i, a[p]) && OfThread(vs, j, a[q]);
        assert OfThread(all, i, rows[p]) && OfThread(all, j, rows[q]);
      } else if p < |a| {
        assert InTurn(vs, a[p], a[p]);
        var i: nat :| OfThread(vs, i, a[p]);
        assert OfThread(all, i, rows[p]) && OfThread(all, |vs|, rows[q]);
      } else {
        assert OfThread(all, |vs|, rows[p]) && OfThread(all, |vs|, rows[q]);
      }
    }
  }

  lemma {:induction false} SharesInTurn(vs: seq<ThreadVal>, s: Settings, staged: Staging.Staged)
    ensures AllInTurn(vs, Shares(vs, s, staged))
  {
    if vs != [] {
      var front, last := vs[..|vs| - 1], vs[|vs| - 1];
      SharesInTurn(front, s, staged);
      ShareOwn(last, s, staged);
      InTurnStep(front, last, Shares(front, s, staged), Share(last, s, staged));
      assert front + [last] == vs;
    }
  }

  /** Newer threads first. */
  predicate NewestFirst(vs: seq<ThreadVal>) {
    forall i, j :: 0 <= i < j < |vs| ==> vs[i].lastDate >= vs[j].lastDate
  }

  /** The two rows' threads, the first at least as new as the second. */
  ghost predicate NoOlder(vs: seq<ThreadVal>, a: Row, b: Row) {
    exists i: nat, j: nat :: OfThread(vs, i, a) && OfThread(vs, j, b) && vs[i].lastDate >= vs[j].lastDate
  }

  /** However the rows are filtered, windowed and staged, no row belongs to a newer thread than a row above it. */
  lemma ThreadsDescend(vs: seq<ThreadVal>, s: Settings, staged: Staging.Staged, p: nat, q: nat)
    requires NewestFirst(vs) && p <= q < |Fresh(vs, s, staged)|
    ensures NoOlder(vs, Fresh(vs, s, staged)[p], Fresh(vs, s, staged)[q])
  {
    FreshIsShares(vs, s, staged);
    SharesInTurn(vs, s, staged);
    var rows := Fresh(vs, s, staged);
    assert InTurn(vs, rows[p], rows[q]);
  }

  // ---- The rows of one thread ----

  /** The thread's rows without their staged marks. */
  predicate SameRows(rows: seq<Row>, full: seq<Row>) {
    |rows| == |full| && forall k :: 0 <= k < |rows| ==> rows[k].(staged := full[k].staged, stagedTags := full[k].stagedTags) == full[k]
  }

  /** With no filter and no window, the rows that name a thread are its flatten, in order, under the
      view's own settings: a threaded view hides childless deleted messages, and a newest-first view
      reads backwards. */
  lemma ThreadReads(vs: seq<ThreadVal>, s: Settings, staged: Staging.Staged, k: nat)
    requires DistinctVals(vs) && k < |vs| && s.filter == "" && s.winRows == 0
    ensures var v := vs[k];
            SameRows(Of(Fresh(vs, s, staged), v.id), Flatten(TreeOf(Bared(v.msgs)), v.id, v.collapsed, s.threaded, s.msgDesc))
  {
    FreshIsShares(vs, s, staged);
    OfShares(vs, s, staged, k);
  }

  /** Whether the rows show the message under the thread's name. */
  ghost predicate ShowsMsg(rows: seq<Row>, id: string, m: Message) {
    exists k :: 0 <= k < |rows| && rows[k].threadID == id && rows[k].msg == Some(m)
  }

  lemma {:induction false} OfShows(rows: seq<Row>, id: string, m: Message)
    ensures ShowsMsg(rows, id, m) <==> m in MsgsOf(Of(rows, id))
  {
    if rows != [] {
      var front, last := rows[..|rows| - 1], rows[|rows| - 1];
      OfShows(front, id, m);
      assert forall k :: 0 <= k < |front| ==> front[k] == rows[k];
      MsgsOfAppend(Of(front, id), if last.threadID == id then [last] else []);
      assert MsgsOf([last]) == if last.msg.Some? then [last.msg.value] else [];
      if ShowsMsg(rows, id, m) && !ShowsMsg(front, id, m) {
        var k :| 0 <= k < |rows| && rows[k].threadID == id && rows[k].msg == Some(m);
        assert k == |rows| - 1;
      }
      if m in MsgsOf(Of(rows, id)) && !ShowsMsg(front, id, m) {
        assert last.threadID == id && last.msg == Some(m);
      }
    }
  }

  lemma {:induction false} SameMsgs(a: seq<Row>, b: seq<Row>)
    requires SameRows(a, b)
    ensures MsgsOf(a) == MsgsOf(b)
  {
    if a != [] {
      assert SameRows(a[1..], b[1..]);
      SameMsgs(a[1..], b[1..]);
      assert a == a[..1] + a[1..] && b == b[..1] + b[1..];
      MsgsOfAppend(a[..1], a[1..]);
      MsgsOfAppend(b[..1], b[1..]);
      assert a[0].msg == b[0].msg;
    }
  }

  /** An open thread shows a message exactly when its references lead to a root, unless the view is
      threaded and the message is a deleted one that nothing hangs under. */
  lemma OpenThreadShows(vs: seq<ThreadVal>, s: Settings, staged: Staging.Staged, k: nat, j: nat)
    requires DistinctVals(vs) && k < |vs| && s.filter == "" && s.winRows == 0 && !vs[k].collapsed
    requires UniqueIds(Bared(vs[k].msgs)) && j < |vs[k].msgs|
    ensures var v := vs[k];
            ShowsMsg(Fresh(vs, s, staged), v.id, Bare(v.msgs[j])) <==>
              Reaches(Bared(v.msgs), j) && !(s.threaded && "deleted" in v.msgs[j].tags && ChildrenOf(Bared(v.msgs), j) == [])
  {
    var v, rows, ms := vs[k], Fresh(vs, s, staged), Bared(vs[k].msgs);
    ThreadReads(vs, s, staged, k);
    SameMsgs(Of(rows, v.id), Flatten(TreeOf(ms), v.id, false, s.threaded, s.msgDesc));
    FlattenEmits(ms, v.id, s.threaded, s.msgDesc, j);
    OfShows(rows, v.id, ms[j]);
    var shown := MsgsOf(Of(rows, v.id));
    assert ms[j] in shown <==> multiset(shown)[ms[j]] > 0;
  }
}
