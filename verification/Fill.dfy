/** Grouping, sorting and the progressive fill (mergeWalk, groupThreads, mergeSorted in src/app/refresh.go). */
module Fill {
  import opened Mail

  datatype Thread = Thread(id: string, lastDate: int, msgs: seq<Message>)

  function ThreadRank(t: Thread): Rank {
    Rank(t.lastDate, t.id)
  }

  predicate ThreadLess(a: Thread, b: Thread) {
    ThreadRankLess(ThreadRank(a), ThreadRank(b))
  }

  predicate Sorted(ts: seq<Thread>) {
    forall i, j :: 0 <= i < j < |ts| ==> ThreadLess(ts[i], ts[j])
  }

  predicate UniqueThreads(ts: seq<Thread>) {
    forall i, j :: 0 <= i < j < |ts| ==> ts[i].id != ts[j].id
  }

  predicate MsgsSorted(ms: seq<Message>) {
    forall i, j :: 0 <= i < j < |ms| ==> !MsgLess(ms[j], ms[i])
  }

  // ---- Sorting ----

  function InsertMsg(m: Message, ms: seq<Message>): seq<Message> {
    if ms == [] || !MsgLess(ms[0], m) then [m] + ms else [ms[0]] + InsertMsg(m, ms[1..])
  }

  function SortMsgs(ms: seq<Message>): seq<Message> {
    if ms == [] then [] else InsertMsg(ms[0], SortMsgs(ms[1..]))
  }

  function InsertThread(t: Thread, ts: seq<Thread>): seq<Thread> {
    if ts == [] || !ThreadLess(ts[0], t) then [t] + ts else [ts[0]] + InsertThread(t, ts[1..])
  }

  function SortThreads(ts: seq<Thread>): seq<Thread> {
    if ts == [] then [] else InsertThread(ts[0], SortThreads(ts[1..]))
  }

  lemma {:induction false} InsertThreadHolds(t: Thread, ts: seq<Thread>)
    ensures multiset(InsertThread(t, ts)) == multiset{t} + multiset(ts)
  {
    if ts != [] && ThreadLess(ts[0], t) {
      InsertThreadHolds(t, ts[1..]);
      assert ts == [ts[0]] + ts[1..];
    }
  }

  lemma {:induction false} InsertThreadSorted(t: Thread, ts: seq<Thread>)
    requires Sorted(ts) && forall i :: 0 <= i < |ts| ==> ts[i].id != t.id
    ensures Sorted(InsertThread(t, ts))
  {
    if ts == [] {
    } else if ThreadLess(ts[0], t) {
      var rest := InsertThread(t, ts[1..]);
      InsertThreadSorted(t, ts[1..]);
      InsertThreadHolds(t, ts[1..]);
      forall k | 0 <= k < |rest| ensures ThreadLess(ts[0], rest[k]) {
        assert rest[k] in multiset(rest);
        assert rest[k] == t || rest[k] in ts[1..];
      }
      Consed(ts[0], rest);
    } else {
      HeadsOrdered(t, ts[0]);
      HeadLeads(t, ts);
      Consed(t, ts);
    }
  }

  /** Sorting threads of different ids: a strictly sorted permutation. */
  lemma {:induction false} SortThreadsSorts(ts: seq<Thread>)
    requires UniqueThreads(ts)
    ensures Sorted(SortThreads(ts)) && multiset(SortThreads(ts)) == multiset(ts)
  {
    if ts != [] {
      SortThreadsSorts(ts[1..]);
      var rest := SortThreads(ts[1..]);
      assert ts == [ts[0]] + ts[1..];
      forall i | 0 <= i < |rest| ensures rest[i].id != ts[0].id {
        assert rest[i] in multiset(ts[1..]);
      }
      InsertThreadSorted(ts[0], rest);
      InsertThreadHolds(ts[0], rest);
    }
  }

  lemma {:induction false} InsertMsgHolds(m: Message, ms: seq<Message>)
    ensures multiset(InsertMsg(m, ms)) == multiset{m} + multiset(ms)
  {
    if ms != [] && MsgLess(ms[0], m) {
      InsertMsgHolds(m, ms[1..]);
      assert ms == [ms[0]] + ms[1..];
    }
  }

  lemma ConsedMsg(head: Message, ms: seq<Message>)
    requires MsgsSorted(ms) && forall k :: 0 <= k < |ms| ==> !MsgLess(ms[k], head)
    ensures MsgsSorted([head] + ms)
  {
  }

  lemma NotLessTrans(a: Message, b: Message, c: Message)
    requires !MsgLess(b, a) && !MsgLess(c, b)
    ensures !MsgLess(c, a)
  {
    RankOrders();
  }

  lemma {:induction false} InsertMsgSorted(m: Message, ms: seq<Message>)
    requires MsgsSorted(ms)
    ensures MsgsSorted(InsertMsg(m, ms))
  {
    if ms == [] {
    } else if MsgLess(ms[0], m) {
      var rest := InsertMsg(m, ms[1..]);
      InsertMsgSorted(m, ms[1..]);
      InsertMsgHolds(m, ms[1..]);
      forall k | 0 <= k < |rest| ensures !MsgLess(rest[k], ms[0]) {
        assert rest[k] in multiset(rest);
        assert rest[k] == m || rest[k] in ms[1..];
        NotBoth(ms[0], m);
      }
      ConsedMsg(ms[0], rest);
    } else {
      forall k | 0 <= k < |ms| ensures !MsgLess(ms[k], m) {
        if k > 0 {
          NotLessTrans(m, ms[0], ms[k]);
        }
      }
      ConsedMsg(m, ms);
    }
  }

  lemma NotBoth(a: Message, b: Message)
    ensures !(MsgLess(a, b) && MsgLess(b, a))
  {
    RankOrders();
    if MsgLess(a, b) {
      assert MsgLess(b, a) ==> MsgRankLess(MsgRank(a), MsgRank(a));
    }
  }

  lemma {:induction false} SortMsgsSorts(ms: seq<Message>)
    ensures MsgsSorted(SortMsgs(ms)) && multiset(SortMsgs(ms)) == multiset(ms)
  {
    if ms != [] {
      SortMsgsSorts(ms[1..]);
      assert ms == [ms[0]] + ms[1..];
      InsertMsgSorted(ms[0], SortMsgs(ms[1..]));
      InsertMsgHolds(ms[0], SortMsgs(ms[1..]));
    }
  }

  /** A list has one sorted arrangement. */
  lemma {:induction false} SortedUnique(a: seq<Thread>, b: seq<Thread>)
    requires Sorted(a) && Sorted(b) && forall t :: t in a <==> t in b
    ensures a == b
  {
    FirstThread(a);
    FirstThread(b);
    if a != [] {
      HeadsEqual(a, b);
      forall t ensures t in a[1..] <==> t in b[1..] {
        RestMember(a, t);
        RestMember(b, t);
      }
      SortedUnique(a[1..], b[1..]);
    }
  }

  lemma HeadBefore(a: seq<Thread>, t: Thread)
    requires Sorted(a) && t in a
    ensures t == a[0] || ThreadLess(a[0], t)
  {
  }

  lemma HeadsEqual(a: seq<Thread>, b: seq<Thread>)
    requires Sorted(a) && Sorted(b) && a != [] && b != [] && a[0] in b && b[0] in a
    ensures a[0] == b[0]
  {
    RankOrders();
    HeadBefore(a, b[0]);
    HeadBefore(b, a[0]);
    assert ThreadLess(a[0], b[0]) && ThreadLess(b[0], a[0]) ==> ThreadRankLess(ThreadRank(a[0]), ThreadRank(a[0]));
  }

  lemma FirstThread(a: seq<Thread>)
    ensures a == [] || a[0] in a
  {
  }

  lemma RestMember(a: seq<Thread>, t: Thread)
    requires Sorted(a) && a != []
    ensures t in a[1..] <==> t in a && t != a[0]
  {
    RankOrders();
    if t in a[1..] {
      var i :| 0 <= i < |a| - 1 && a[1..][i] == t;
      assert a[i + 1] == t;
    }
  }

  // ---- Grouping ----

  /** Flat views key every message by itself, threaded views by its thread. */
  function KeyOf(m: Message, flat: bool): string {
    if flat then m.id else m.threadID
  }

  function Select(ms: seq<Message>, flat: bool, key: string): seq<Message> {
    if ms == [] then []
    else Select(ms[..|ms| - 1], flat, key) + (if KeyOf(ms[|ms| - 1], flat) == key then [ms[|ms| - 1]] else [])
  }

  function LatestFrom(ms: seq<Message>, floor: int): int {
    if ms == [] then floor
    else LatestFrom(ms[1..], if ms[0].timestamp > floor then ms[0].timestamp else floor)
  }

  function NewThread(id: string, ms: seq<Message>): Thread {
    Thread(id, LatestFrom(SortMsgs(ms), 0), SortMsgs(ms))
  }

  /** One thread per key, holding exactly that key's messages. */
  ghost predicate IsGrouping(ts: seq<Thread>, ms: seq<Message>, flat: bool) {
    && UniqueThreads(ts)
    && (forall i :: 0 <= i < |ts| ==> Select(ms, flat, ts[i].id) != [] && ts[i] == NewThread(ts[i].id, Select(ms, flat, ts[i].id)))
    && (forall k :: 0 <= k < |ms| ==> Listed(ts, KeyOf(ms[k], flat)))
  }

  lemma {:induction false} SelectEmpty(ms: seq<Message>, flat: bool, key: string)
    ensures Select(ms, flat, key) == [] <==> forall k :: 0 <= k < |ms| ==> KeyOf(ms[k], flat) != key
  {
    if ms != [] {
      SelectEmpty(ms[..|ms| - 1], flat, key);
    }
  }

  lemma {:induction false} SelectHolds(ms: seq<Message>, flat: bool, key: string, m: Message)
    ensures m in Select(ms, flat, key) <==> m in ms && (if flat then m.id else m.threadID) == key
  {
    if ms != [] {
      SelectHolds(ms[..|ms| - 1], flat, key, m);
      assert m in ms <==> m in ms[..|ms| - 1] || m == ms[|ms| - 1];
    }
  }

  /** d is the latest date of the messages and the floor. */
  predicate IsLatest(ms: seq<Message>, floor: int, d: int) {
    && floor <= d && (forall k :: 0 <= k < |ms| ==> ms[k].timestamp <= d)
    && (d == floor || exists k :: 0 <= k < |ms| && ms[k].timestamp == d)
  }

  lemma {:induction false} LatestIs(ms: seq<Message>, floor: int)
    ensures IsLatest(ms, floor, LatestFrom(ms, floor))
  {
    if ms != [] {
      var next := if ms[0].timestamp > floor then ms[0].timestamp else floor;
      LatestIs(ms[1..], next);
      var d := LatestFrom(ms, floor);
      forall k | 0 <= k < |ms| ensures ms[k].timestamp <= d {
        assert k > 0 ==> ms[k] == ms[1..][k - 1];
      }
      if d != next {
        var k :| 0 <= k < |ms[1..]| && ms[1..][k].timestamp == d;
        assert ms[k + 1].timestamp == d;
      } else if next != floor {
        assert ms[0].timestamp == d;
      }
    }
  }

  /** A thread of the load holds exactly the messages of its thread id or, in a flat load, of its
      message id, oldest first; its date is that of the newest, but never before the epoch. */
  lemma GroupHolds(ts: seq<Thread>, ms: seq<Message>, flat: bool, i: nat, m: Message)
    requires IsGrouping(ts, ms, flat) && i < |ts|
    ensures m in ts[i].msgs <==> m in ms && (if flat then m.id else m.threadID) == ts[i].id
    ensures ts[i].msgs != [] && MsgsSorted(ts[i].msgs) && IsLatest(ts[i].msgs, 0, ts[i].lastDate)
  {
    var own := Select(ms, flat, ts[i].id);
    SelectHolds(ms, flat, ts[i].id, m);
    SortMsgsSorts(own);
    LatestIs(SortMsgs(own), 0);
    assert m in own <==> m in multiset(own);
    assert m in SortMsgs(own) <==> m in multiset(SortMsgs(own));
    assert |multiset(own)| == |own|;
  }

  lemma {:induction false} SelectAppend(a: seq<Message>, b: seq<Message>, flat: bool, key: string)
    ensures Select(a + b, flat, key) == Select(a, flat, key) + Select(b, flat, key)
  {
    if b == [] {
      assert a + b == a;
    } else {
      assert (a + b)[..|a + b| - 1] == a + b[..|b| - 1];
      SelectAppend(a, b[..|b| - 1], flat, key);
    }
  }

  /** The sorted grouping of a message list is unique. */
  lemma GroupingUnique(a: seq<Thread>, b: seq<Thread>, ms: seq<Message>, flat: bool)
    requires IsGrouping(a, ms, flat) && IsGrouping(b, ms, flat) && Sorted(a) && Sorted(b)
    ensures a == b
  {
    forall t ensures t in a <==> t in b {
      if t in a {
        GroupingMember(a, b, ms, flat, t);
      }
      if t in b {
        GroupingMember(b, a, ms, flat, t);
      }
    }
    SortedUnique(a, b);
  }

  lemma GroupingMember(a: seq<Thread>, b: seq<Thread>, ms: seq<Message>, flat: bool, t: Thread)
    requires IsGrouping(a, ms, flat) && IsGrouping(b, ms, flat) && t in a
    ensures t in b
  {
    SelectEmpty(ms, flat, t.id);
    var k :| 0 <= k < |ms| && KeyOf(ms[k], flat) == t.id;
    var i :| 0 <= i < |b| && b[i].id == t.id;
    assert b[i] == t;
  }

  ghost predicate Collected(byKey: map<string, seq<Message>>, ms: seq<Message>) {
    && (forall key :: key in byKey <==> Select(ms, false, key) != [])
    && (forall key :: key in byKey ==> byKey[key] == Select(ms, false, key))
  }

  method Collect(ms: seq<Message>) returns (byKey: map<string, seq<Message>>)
    ensures Collected(byKey, ms)
  {
    byKey := map[];
    for k := 0 to |ms|
      invariant Collected(byKey, ms[..k])
    {
      assert ms[..k + 1][..k] == ms[..k];
      var key := ms[k].threadID;
      var group := if key in byKey then byKey[key] else [];
      byKey := byKey[key := group + [ms[k]]];
    }
    assert ms[..|ms|] == ms;
  }

  predicate Listed(ts: seq<Thread>, key: string) {
    exists i :: 0 <= i < |ts| && ts[i].id == key
  }

  predicate UniqueIds(ms: seq<Message>) {
    forall i, j :: 0 <= i < j < |ms| ==> ms[i].id != ms[j].id
  }

  /** Groups a page: one synthetic thread per message in a flat view, else messages collect
      by thread id and each group becomes a thread, in any order. */
  method GroupThreads(ms: seq<Message>, flat: bool) returns (ts: seq<Thread>)
    ensures flat ==> |ts| == |ms| && forall k :: 0 <= k < |ms| ==> ts[k] == NewThread(ms[k].id, [ms[k]])
    ensures !flat || UniqueIds(ms) ==> IsGrouping(ts, ms, flat)
  {
    ts := [];
    if flat {
      for i := 0 to |ms|
        invariant |ts| == i && forall k :: 0 <= k < i ==> ts[k] == NewThread(ms[k].id, [ms[k]])
      {
        ts := ts + [NewThread(ms[i].id, [ms[i]])];
      }
      if UniqueIds(ms) {
        FlatGrouping(ts, ms);
      }
    } else {
      ts := GroupByThread(ms);
    }
  }

  lemma {:induction false} SelectOwn(ms: seq<Message>, k: nat)
    requires UniqueIds(ms) && k < |ms|
    ensures Select(ms, true, ms[k].id) == [ms[k]]
  {
    var init := ms[..|ms| - 1];
    if k == |ms| - 1 {
      SelectEmpty(init, true, ms[k].id);
    } else {
      SelectOwn(init, k);
    }
  }

  lemma FlatGrouping(ts: seq<Thread>, ms: seq<Message>)
    requires UniqueIds(ms) && |ts| == |ms| && forall k :: 0 <= k < |ms| ==> ts[k] == NewThread(ms[k].id, [ms[k]])
    ensures IsGrouping(ts, ms, true)
  {
    forall i | 0 <= i < |ts|
      ensures Select(ms, true, ts[i].id) != [] && ts[i] == NewThread(ts[i].id, Select(ms, true, ts[i].id))
    {
      SelectOwn(ms, i);
    }
    forall k | 0 <= k < |ms| ensures Listed(ts, KeyOf(ms[k], true)) {
      assert ts[k].id == KeyOf(ms[k], true);
    }
  }

  method GroupByThread(ms: seq<Message>) returns (ts: seq<Thread>)
    ensures IsGrouping(ts, ms, false)
  {
    var byKey := Collect(ms);
    ts := [];
    var rest := byKey.Keys;
    while rest != {}
      invariant rest <= byKey.Keys && UniqueThreads(ts)
      invariant forall i :: 0 <= i < |ts| ==> ts[i].id in byKey && ts[i].id !in rest && ts[i] == NewThread(ts[i].id, byKey[ts[i].id])
      invariant forall key :: key in byKey && key !in rest ==> Listed(ts, key)
      decreases rest
    {
      var key :| key in rest;
      ghost var before := ts;
      ts := ts + [NewThread(key, byKey[key])];
      rest := rest - {key};
      assert ts[|before|].id == key;
      forall k | Listed(before, k) ensures Listed(ts, k) {
        var i :| 0 <= i < |before| && before[i].id == k;
        assert ts[i].id == k;
      }
    }
    forall k | 0 <= k < |ms| ensures Listed(ts, KeyOf(ms[k], false)) {
      SelectEmpty(ms, false, KeyOf(ms[k], false));
    }
  }

  // ---- Merging pages ----

  function Merged(a: seq<Thread>, b: seq<Thread>): seq<Thread>
    decreases |a| + |b|
  {
    if a == [] then b
    else if b == [] then a
    else if ThreadLess(b[0], a[0]) then [b[0]] + Merged(a, b[1..])
    else [a[0]] + Merged(a[1..], b)
  }

  lemma MergedStep(a: seq<Thread>, b: seq<Thread>, i: nat, j: nat, out: seq<Thread>)
    requires i < |a| && j < |b|
    ensures out + Merged(a[i..], b[j..]) ==
              if ThreadLess(b[j], a[i]) then out + [b[j]] + Merged(a[i..], b[j + 1..]) else out + [a[i]] + Merged(a[i + 1..], b[j..])
  {
    assert a[i..][1..] == a[i + 1..] && b[j..][1..] == b[j + 1..];
  }

  method MergeSorted(a: seq<Thread>, b: seq<Thread>) returns (out: seq<Thread>)
    ensures out == Merged(a, b)
  {
    out := [];
    var i, j := 0, 0;
    while i < |a| && j < |b|
      invariant 0 <= i <= |a| && 0 <= j <= |b|
      invariant out + Merged(a[i..], b[j..]) == Merged(a, b)
    {
      MergedStep(a, b, i, j, out);
      if ThreadLess(b[j], a[i]) {
        out := out + [b[j]];
        j := j + 1;
      } else {
        out := out + [a[i]];
        i := i + 1;
      }
    }
    out := out + a[i..] + b[j..];
  }

  lemma {:induction false} MergedHolds(a: seq<Thread>, b: seq<Thread>)
    ensures multiset(Merged(a, b)) == multiset(a) + multiset(b)
    decreases |a| + |b|
  {
    if a != [] && b != [] {
      assert a == [a[0]] + a[1..] && b == [b[0]] + b[1..];
      MergedHolds(a, b[1..]);
      MergedHolds(a[1..], b);
    }
  }

  predicate AllAfter(head: Thread, ts: seq<Thread>) {
    forall k :: 0 <= k < |ts| ==> ThreadLess(head, ts[k])
  }

  lemma AllAfterMerged(head: Thread, a: seq<Thread>, b: seq<Thread>)
    requires AllAfter(head, a) && AllAfter(head, b)
    ensures AllAfter(head, Merged(a, b))
  {
    var rest := Merged(a, b);
    MergedHolds(a, b);
    forall k | 0 <= k < |rest| ensures ThreadLess(head, rest[k]) {
      assert rest[k] in multiset(rest);
      assert rest[k] in a || rest[k] in b;
    }
  }

  lemma HeadLeads(head: Thread, ts: seq<Thread>)
    requires ts != [] && ThreadLess(head, ts[0]) && Sorted(ts)
    ensures AllAfter(head, ts)
  {
    RankOrders();
    forall k | 0 <= k < |ts| ensures ThreadLess(head, ts[k]) {
      assert k > 0 ==> ThreadLess(ts[0], ts[k]);
    }
  }

  lemma Consed(head: Thread, ts: seq<Thread>)
    requires AllAfter(head, ts) && Sorted(ts)
    ensures Sorted([head] + ts)
  {
  }

  predicate Apart(a: seq<Thread>, b: seq<Thread>) {
    forall i, j :: 0 <= i < |a| && 0 <= j < |b| ==> a[i].id != b[j].id
  }

  /** Merging two sorted pages of different threads is sorted, whatever their order. */
  lemma {:induction false} MergedSorts(a: seq<Thread>, b: seq<Thread>)
    requires Sorted(a) && Sorted(b) && Apart(a, b)
    ensures Sorted(Merged(a, b))
    decreases |a| + |b|
  {
    if a != [] && b != [] {
      if ThreadLess(b[0], a[0]) {
        MergedSorts(a, b[1..]);
        HeadLeads(b[0], a);
        AllAfterMerged(b[0], a, b[1..]);
        Consed(b[0], Merged(a, b[1..]));
      } else {
        HeadsOrdered(a[0], b[0]);
        MergedSorts(a[1..], b);
        HeadLeads(a[0], b);
        AllAfterMerged(a[0], a[1..], b);
        Consed(a[0], Merged(a[1..], b));
      }
    }
  }

  lemma HeadsOrdered(a: Thread, b: Thread)
    requires a.id != b.id && !ThreadLess(b, a)
    ensures ThreadLess(a, b)
  {
    StringLessTotal(a.id, b.id);
  }

  /** The chunk shares no key with what came before: the cut keeps threads whole. */
  predicate WholeAfter(before: seq<Message>, chunk: seq<Message>, flat: bool) {
    forall i, j :: 0 <= i < |before| && 0 <= j < |chunk| ==> KeyOf(before[i], flat) != KeyOf(chunk[j], flat)
  }

  lemma JoinedGroup(xs: seq<Message>, ys: seq<Message>, flat: bool, key: string)
    requires WholeAfter(xs, ys, flat)
    ensures Select(xs, flat, key) != [] ==> Select(xs + ys, flat, key) == Select(xs, flat, key)
    ensures Select(ys, flat, key) != [] ==> Select(xs + ys, flat, key) == Select(ys, flat, key)
    ensures Select(xs, flat, key) == [] || Select(ys, flat, key) == []
  {
    SelectAppend(xs, ys, flat, key);
    SelectEmpty(xs, flat, key);
    SelectEmpty(ys, flat, key);
    assert Select(xs, flat, key) + [] == Select(xs, flat, key);
  }

  lemma GroupingJoin(a: seq<Thread>, b: seq<Thread>, all: seq<Thread>, xs: seq<Message>, ys: seq<Message>, flat: bool)
    requires IsGrouping(a, xs, flat) && IsGrouping(b, ys, flat) && WholeAfter(xs, ys, flat)
    requires multiset(all) == multiset(a) + multiset(b)
    ensures UniqueThreads(a + b) && IsGrouping(all, xs + ys, flat)
  {
    forall i, j | 0 <= i < |a| && 0 <= j < |b| ensures a[i].id != b[j].id {
      JoinedGroup(xs, ys, flat, a[i].id);
    }
    UniqueByMultiset(a + b, all);
    forall i | 0 <= i < |all|
      ensures Select(xs + ys, flat, all[i].id) != [] && all[i] == NewThread(all[i].id, Select(xs + ys, flat, all[i].id))
    {
      assert all[i] in multiset(all);
      assert all[i] in a || all[i] in b;
      JoinedGroup(xs, ys, flat, all[i].id);
    }
    forall k | 0 <= k < |xs + ys| ensures Listed(all, KeyOf((xs + ys)[k], flat)) {
      if k < |xs| {
        ListedIn(a, all, KeyOf(xs[k], flat));
      } else {
        ListedIn(b, all, KeyOf(ys[k - |xs|], flat));
      }
    }
  }

  lemma ListedIn(a: seq<Thread>, all: seq<Thread>, key: string)
    requires Listed(a, key) && multiset(a) <= multiset(all)
    ensures Listed(all, key)
  {
    var i :| 0 <= i < |a| && a[i].id == key;
    assert a[i] in multiset(all);
    var n :| 0 <= n < |all| && all[n] == a[i];
  }

  lemma {:induction false} UniqueByMultiset(a: seq<Thread>, b: seq<Thread>)
    requires UniqueThreads(a) && multiset(a) == multiset(b)
    ensures UniqueThreads(b)
  {
    forall i, j | 0 <= i < j < |b| ensures b[i].id != b[j].id {
      if b[i].id == b[j].id {
        assert b[i] in multiset(b) && b[j] in multiset(b);
        assert b[i] in a && b[j] in a;
        assert b[i] == b[j];
        assert b == b[..j] + [b[j]] + b[j + 1..];
        assert b[..j][i] == b[i];
        assert multiset(b)[b[i]] >= 2;
        UniqueCount(a, b[i]);
      }
    }
  }

  lemma {:induction false} UniqueCount(a: seq<Thread>, t: Thread)
    requires UniqueThreads(a)
    ensures multiset(a)[t] <= 1
  {
    if a != [] {
      assert a == [a[0]] + a[1..];
      UniqueCount(a[1..], t);
      assert forall i :: 0 <= i < |a| - 1 ==> a[1..][i] == a[i + 1];
    }
  }

  // ---- The progressive fill ----

  datatype Event =
    | Update(done: nat, total: int)
    | Merge(threads: seq<Thread>)
    | Failed(done: nat)
    | Finished(done: nat)

  predicate Terminal(e: Event) {
    e.Failed? || e.Finished?
  }

  /** The bar's total: the count, or what has landed when there is none. */
  function BarTotal(total: int, done: nat): int {
    if total <= 0 then done else total
  }

  function Joined(chunks: seq<seq<Message>>): seq<Message> {
    if chunks == [] then [] else Joined(chunks[..|chunks| - 1]) + chunks[|chunks| - 1]
  }

  /** The walk keeps threads whole: no chunk repeats a key of an earlier one. */
  predicate WholeCut(chunks: seq<seq<Message>>, flat: bool) {
    forall k :: 0 <= k < |chunks| ==> WholeAfter(Joined(chunks[..k]), chunks[k], flat) && (flat ==> UniqueIds(chunks[k]))
  }

  ghost predicate IsLoad(ts: seq<Thread>, ms: seq<Message>, flat: bool) {
    IsGrouping(ts, ms, flat) && Sorted(ts)
  }

  /** Each update raises the bar and is followed by the merge of exactly the threads it counted. */
  ghost predicate Progress(log: seq<Event>, total: int) {
    && (forall i :: 0 <= i < |log| && log[i].Update? ==>
          && i + 1 < |log| && log[i + 1].Merge?
          && 0 < log[i].done == |log[i + 1].threads|
          && log[i].total == BarTotal(total, log[i].done))
    && (forall i, j :: 0 <= i < j < |log| && log[i].Update? && log[j].Update? ==> log[i].done < log[j].done)
  }

  lemma {:induction false} SortKeepsLength(ts: seq<Thread>)
    ensures |SortThreads(ts)| == |ts|
  {
    if ts != [] {
      SortKeepsLength(ts[1..]);
      InsertGrows(ts[0], SortThreads(ts[1..]));
    }
  }

  lemma {:induction false} InsertGrows(t: Thread, ts: seq<Thread>)
    ensures |InsertThread(t, ts)| == |ts| + 1
  {
    if ts != [] && ThreadLess(ts[0], t) {
      InsertGrows(t, ts[1..]);
    }
  }

  lemma {:induction false} MergedLength(a: seq<Thread>, b: seq<Thread>)
    ensures |Merged(a, b)| == |a| + |b|
    decreases |a| + |b|
  {
    if a != [] && b != [] {
      MergedLength(a, b[1..]);
      MergedLength(a[1..], b);
    }
  }

  lemma LoadGrows(snapshot: seq<Thread>, page: seq<Thread>, xs: seq<Message>, ys: seq<Message>, flat: bool)
    requires IsLoad(snapshot, xs, flat) && IsGrouping(page, ys, flat) && WholeAfter(xs, ys, flat)
    ensures IsLoad(Merged(snapshot, SortThreads(page)), xs + ys, flat)
  {
    var sorted := SortThreads(page);
    SortThreadsSorts(page);
    GroupingPermuted(page, sorted, ys, flat);
    MergedHolds(snapshot, sorted);
    GroupingJoin(snapshot, sorted, Merged(snapshot, sorted), xs, ys, flat);
    forall i, j | 0 <= i < |snapshot| && 0 <= j < |sorted| ensures snapshot[i].id != sorted[j].id {
      assert (snapshot + sorted)[i] == snapshot[i] && (snapshot + sorted)[|snapshot| + j] == sorted[j];
    }
    MergedSorts(snapshot, sorted);
  }

  lemma GroupingPermuted(a: seq<Thread>, b: seq<Thread>, ms: seq<Message>, flat: bool)
    requires IsGrouping(a, ms, flat) && multiset(a) == multiset(b)
    ensures IsGrouping(b, ms, flat)
  {
    UniqueByMultiset(a, b);
    forall i | 0 <= i < |b|
      ensures Select(ms, flat, b[i].id) != [] && b[i] == NewThread(b[i].id, Select(ms, flat, b[i].id))
    {
      assert b[i] in multiset(b);
      assert b[i] in a;
    }
    forall k | 0 <= k < |ms| ensures Listed(b, KeyOf(ms[k], flat)) {
      ListedIn(a, b, KeyOf(ms[k], flat));
    }
  }

  /** Every merge shows the load of a prefix of the walk. */
  ghost predicate ShowsPrefixes(log: seq<Event>, chunks: seq<seq<Message>>, n: nat, flat: bool) {
    n <= |chunks| && forall i :: 0 <= i < |log| && log[i].Merge? ==> ShowsPrefix(log[i].threads, chunks, n, flat)
  }

  ghost predicate ShowsPrefix(ts: seq<Thread>, chunks: seq<seq<Message>>, n: nat, flat: bool)
    requires n <= |chunks|
  {
    exists k :: 0 <= k <= n && LoadOf(ts, chunks, k, flat)
  }

  /** The load of the first k chunks. Stated so that a proof meets the definition only where it
      names it. */
  ghost predicate LoadOf(ts: seq<Thread>, chunks: seq<seq<Message>>, k: nat, flat: bool)
    requires k <= |chunks|
  {
    forall ms {:trigger IsLoad(ts, ms, flat)} :: ms == Joined(chunks[..k]) ==> IsLoad(ts, ms, flat)
  }

  /** Merges a walk's chunks as they land. */
  method MergeWalk(chunks: seq<seq<Message>>, ok: bool, total: int, flat: bool) returns (log: seq<Event>, snapshot: seq<Thread>)
    ensures Progress(log, total) && EndsOnce(log, |snapshot|, ok) && (ok ==> LastMerge(log, snapshot))
    ensures WholeCut(chunks, flat) ==> ShowsPrefixes(log, chunks, |chunks|, flat) && IsLoad(snapshot, Joined(chunks), flat)
  {
    var fills;
    fills, snapshot := FoldChunks(chunks, total, flat);
    log := CloseWalk(fills, snapshot, ok, total);
    if WholeCut(chunks, flat) {
      StillShows(fills, log, snapshot, chunks, flat);
      assert chunks[..|chunks|] == chunks;
      assert IsLoad(snapshot, Joined(chunks[..|chunks|]), flat);
    }
  }

  /** One terminal event, after every update, if and only if some update was published; it says
      whether the walk succeeded and counts the threads that landed. */
  ghost predicate EndsOnce(log: seq<Event>, done: nat, ok: bool) {
    && ((exists i :: 0 <= i < |log| && Terminal(log[i])) <==> (exists i :: 0 <= i < |log| && log[i].Update?))
    && (forall i, j :: 0 <= i < j < |log| && Terminal(log[i]) ==> !Terminal(log[j]) && !log[j].Update?)
    && (forall i :: 0 <= i < |log| && Terminal(log[i]) ==> log[i].done == done && log[i].Finished? == ok)
  }

  /** The last merge is of these threads. */
  ghost predicate LastMerge(log: seq<Event>, ts: seq<Thread>) {
    exists i :: 0 <= i < |log| && log[i] == Merge(ts) && forall j :: i < j < |log| ==> !log[j].Merge?
  }

  /** The terminal event of a walk that lit a bar; an empty result still merges once. */
  method CloseWalk(fills: seq<Event>, snapshot: seq<Thread>, ok: bool, total: int) returns (log: seq<Event>)
    requires Filling(fills, total, snapshot)
    ensures Progress(log, total) && EndsOnce(log, |snapshot|, ok) && (ok ==> LastMerge(log, snapshot))
    ensures log == fills || exists e :: log == fills + [e] && (e.Merge? ==> e == Merge(snapshot))
  {
    var n := |fills|;
    assert n > 0 ==> fills[n - 2].Update? && fills[n - 1] == Merge(snapshot);
    if |snapshot| > 0 {
      log := fills + [if ok then Finished(|snapshot|) else Failed(|snapshot|)];
      assert log[n - 2].Update? && log[n - 1] == Merge(snapshot) && Terminal(log[n]);
    } else if ok {
      log := fills + [Merge(snapshot)];
      assert log[n] == Merge(snapshot);
    } else {
      log := fills;
    }
  }

  lemma StillShows(fills: seq<Event>, log: seq<Event>, snapshot: seq<Thread>, chunks: seq<seq<Message>>, flat: bool)
    requires ShowsPrefixes(fills, chunks, |chunks|, flat) && LoadOf(snapshot, chunks, |chunks|, flat)
    requires log == fills || exists e :: log == fills + [e] && (e.Merge? ==> e == Merge(snapshot))
    ensures ShowsPrefixes(log, chunks, |chunks|, flat)
  {
    assert ShowsPrefix(snapshot, chunks, |chunks|, flat);
  }

  /** The loop of the emit closure: nothing terminal, the last merge is the snapshot. */
  ghost predicate Filling(log: seq<Event>, total: int, snapshot: seq<Thread>) {
    && Progress(log, total)
    && (forall i :: 0 <= i < |log| ==> !Terminal(log[i]) && (log[i].Update? ==> log[i].done <= |snapshot|))
    && (|snapshot| > 0 <==> log != [])
    && (log != [] ==> |log| >= 2 && log[|log| - 2].Update? && log[|log| - 1] == Merge(snapshot))
  }

  lemma FillingStep(log: seq<Event>, total: int, snapshot: seq<Thread>, grown: seq<Thread>)
    requires Filling(log, total, snapshot) && |grown| > |snapshot|
    ensures Filling(log + [Update(|grown|, BarTotal(total, |grown|)), Merge(grown)], total, grown)
  {
    var next := log + [Update(|grown|, BarTotal(total, |grown|)), Merge(grown)];
    assert forall i :: 0 <= i < |log| ==> next[i] == log[i];
    forall i | 0 <= i < |next| && next[i].Update?
      ensures i + 1 < |next| && next[i + 1].Merge? && 0 < next[i].done == |next[i + 1].threads|
      ensures next[i].total == BarTotal(total, next[i].done)
    {
      if i < |log| {
        assert log[i].Update?;
      }
    }
  }

  /** The emit closure, run over every chunk. */
  method FoldChunks(chunks: seq<seq<Message>>, total: int, flat: bool) returns (log: seq<Event>, snapshot: seq<Thread>)
    ensures Filling(log, total, snapshot)
    ensures WholeCut(chunks, flat) ==> Showing(log, snapshot, chunks, |chunks|, flat)
  {
    log, snapshot := [], [];
    var done := 0;
    for n := 0 to |chunks|
      invariant done == |snapshot| && Filling(log, total, snapshot)
      invariant WholeCut(chunks, flat) ==> Showing(log, snapshot, chunks, n, flat)
    {
      var page, merged := MergePage(snapshot, chunks[n], flat);
      if WholeCut(chunks, flat) {
        ShowingStep(log, snapshot, chunks, n, flat, page);
      }
      done := done + |page|;
      if |page| > 0 {
        FillingStep(log, total, snapshot, merged);
        log := log + [Update(done, BarTotal(total, done)), Merge(merged)];
      } else {
        MergedEmpty(snapshot);
      }
      snapshot := merged;
    }
  }

  ghost predicate Showing(log: seq<Event>, snapshot: seq<Thread>, chunks: seq<seq<Message>>, n: nat, flat: bool) {
    n <= |chunks| && ShowsPrefixes(log, chunks, n, flat) && LoadOf(snapshot, chunks, n, flat)
  }

  lemma ShowingStep(log: seq<Event>, snapshot: seq<Thread>, chunks: seq<seq<Message>>, n: nat, flat: bool, page: seq<Thread>)
    requires n < |chunks| && WholeCut(chunks, flat) && Showing(log, snapshot, chunks, n, flat)
    requires IsGrouping(page, chunks[n], flat)
    ensures var merged := Merged(snapshot, SortThreads(page));
            && Showing(log, merged, chunks, n + 1, flat)
            && forall e: Event :: e.Update? ==> Showing(log + [e, Merge(merged)], merged, chunks, n + 1, flat)
  {
    LoadStep(snapshot, chunks, n, flat, page);
    PrefixesStay(log, chunks, n, flat);
    PrefixesGrow(log, chunks, n, flat, Merged(snapshot, SortThreads(page)));
  }

  lemma LoadStep(snapshot: seq<Thread>, chunks: seq<seq<Message>>, n: nat, flat: bool, page: seq<Thread>)
    requires n < |chunks| && WholeCut(chunks, flat) && LoadOf(snapshot, chunks, n, flat) && IsGrouping(page, chunks[n], flat)
    ensures LoadOf(Merged(snapshot, SortThreads(page)), chunks, n + 1, flat)
  {
    assert chunks[..n + 1][..n] == chunks[..n];
    assert IsLoad(snapshot, Joined(chunks[..n]), flat);
    LoadGrows(snapshot, page, Joined(chunks[..n]), chunks[n], flat);
  }

  lemma MergedEmpty(a: seq<Thread>)
    ensures Merged(a, SortThreads([])) == a
  {
  }

  lemma PrefixesStay(log: seq<Event>, chunks: seq<seq<Message>>, n: nat, flat: bool)
    requires n < |chunks| && ShowsPrefixes(log, chunks, n, flat)
    ensures ShowsPrefixes(log, chunks, n + 1, flat)
  {
    forall i | 0 <= i < |log| && log[i].Merge? ensures ShowsPrefix(log[i].threads, chunks, n + 1, flat) {
      var k :| 0 <= k <= n && LoadOf(log[i].threads, chunks, k, flat);
    }
  }

  lemma PrefixesGrow(log: seq<Event>, chunks: seq<seq<Message>>, n: nat, flat: bool, ts: seq<Thread>)
    requires n < |chunks| && ShowsPrefixes(log, chunks, n, flat) && LoadOf(ts, chunks, n + 1, flat)
    ensures forall e: Event :: e.Update? ==> ShowsPrefixes(log + [e, Merge(ts)], chunks, n + 1, flat)
  {
    PrefixesStay(log, chunks, n, flat);
    assert ShowsPrefix(ts, chunks, n + 1, flat);
  }

  method MergePage(snapshot: seq<Thread>, ms: seq<Message>, flat: bool) returns (page: seq<Thread>, merged: seq<Thread>)
    ensures !flat || UniqueIds(ms) ==> IsGrouping(page, ms, flat)
    ensures merged == Merged(snapshot, SortThreads(page)) && |merged| == |snapshot| + |page|
  {
    page := GroupThreads(ms, flat);
    merged := MergeSorted(snapshot, SortThreads(page));
    SortKeepsLength(page);
    MergedLength(snapshot, SortThreads(page));
  }

  /** The fill ends where a one-shot load of the same messages ends, however the walk cuts them. */
  lemma FillIsOneShot(a: seq<Thread>, b: seq<Thread>, cut: seq<seq<Message>>, ms: seq<Message>, flat: bool)
    requires IsLoad(a, Joined(cut), flat) && IsLoad(b, ms, flat) && Joined(cut) == ms
    ensures a == b
  {
    GroupingUnique(a, b, ms, flat);
  }
}
