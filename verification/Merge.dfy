/** The list merges behind MergeThreads, on values (src/core/view.go). */
module Merge {
  import opened Mail
  import opened Diff
  import Retain
  import Tree

  // ---- Messages ----

  predicate MsgsSorted(ms: seq<Message>) {
    forall i, j :: 0 <= i < j < |ms| ==> MsgRankLess(MsgRank(ms[i]), MsgRank(ms[j]))
  }

  /** A thread's message list: sorted, one message per id. */
  predicate ValidMsgs(ms: seq<Message>) {
    MsgsSorted(ms) && Tree.UniqueIds(ms)
  }

  /** The snapshot's fields on the retained message; attachments and paths stay. */
  function Reconciled(cur: Message, now: Message): Message {
    now.(id := cur.id, atts := cur.atts, paths := cur.paths)
  }

  /** The merged message has the files of x and every other field of the snapshot's. */
  ghost predicate TookFrom(m: Message, x: Message, now: Message) {
    && m.atts == x.atts && m.paths == x.paths
    && m.id == x.id == now.id && m.threadID == now.threadID && m.timestamp == now.timestamp
    && m.author == now.author && m.subject == now.subject && m.references == now.references
    && m.tags == now.tags && m.nilTags == now.nilTags
  }

  function MsgRanks(ms: seq<Message>): (r: seq<Rank>)
    ensures |r| == |ms| && forall k :: 0 <= k < |ms| ==> r[k] == MsgRank(ms[k])
  {
    Retain.Ranks(ms, MsgRank)
  }

  /** Which of the held and the incoming message of one id the replay keeps. */
  ghost function Survivor(was: seq<Message>, now: seq<Message>, p: nat, k: nat): Message
    requires p < |was| && k < |now|
  {
    if Retain.Kept(MsgRanks(was), MsgRanks(now), MsgRankLess, p, k) then was[p] else now[k]
  }

  /** The incoming list with fields reconciled. A message the list already had keeps its own
      attachments and paths exactly when the replay kept it; any other takes the incoming ones. */
  ghost predicate MergedMsgs(was: seq<Message>, now: seq<Message>, r: seq<Message>) {
    && |r| == |now|
    && (forall k, p :: 0 <= k < |now| && 0 <= p < |was| && was[p].id == now[k].id ==> TookFrom(r[k], Survivor(was, now, p, k), now[k]))
    && (forall k :: 0 <= k < |now| && (forall p :: 0 <= p < |was| ==> was[p].id != now[k].id) ==> r[k] == now[k])
  }

  lemma SortedRanks(was: seq<Message>, now: seq<Message>)
    requires ValidMsgs(was) && ValidMsgs(now)
    ensures Retain.Sorted(MsgRanks(was), MsgRanks(now), MsgRankLess)
  {
    RankOrders();
  }

  /** A message whose sort key did not change keeps its own attachments and paths, and takes
      everything else from the snapshot. */
  lemma UnmovedKeepsFiles(was: seq<Message>, now: seq<Message>, r: seq<Message>, p: nat, k: nat)
    requires ValidMsgs(was) && ValidMsgs(now) && MergedMsgs(was, now, r)
    requires p < |was| && k < |now| && MsgRank(was[p]) == MsgRank(now[k])
    ensures r[k].atts == was[p].atts && r[k].paths == was[p].paths
    ensures r[k] == now[k].(atts := was[p].atts, paths := was[p].paths)
  {
    SortedRanks(was, now);
    Retain.UnmovedKept(MsgRanks(was), MsgRanks(now), MsgRankLess, p, k);
    assert TookFrom(r[k], Survivor(was, now, p, k), now[k]);
  }

  /** Replays the diff in place: incoming ids in order, old elements exactly where they are kept. */
  ghost predicate Replaced(was: seq<Message>, now: seq<Message>, r: seq<Message>) {
    && |r| == |now|
    && (forall k :: 0 <= k < |now| ==> r[k].id == now[k].id && (r[k] == now[k] || r[k] in was))
    && (forall k, p :: 0 <= k < |now| && 0 <= p < |was| && was[p].id == now[k].id ==> r[k] == Survivor(was, now, p, k))
  }

  lemma ReplayReplaces(was: seq<Message>, now: seq<Message>)
    requires ValidMsgs(was) && ValidMsgs(now)
    ensures var ops := Ops(was, now, By(MsgRankLess, MsgRank), Retain.IdOf(MsgRank));
            Replayable(was, ops) && Replaced(was, now, Replayed(was, ops))
  {
    Retain.NewIds(was, now, MsgRankLess, MsgRank);
    SortedRanks(was, now);
    var r := Replayed(was, Ops(was, now, By(MsgRankLess, MsgRank), Retain.IdOf(MsgRank)));
    forall k, p | 0 <= k < |now| && 0 <= p < |was| && was[p].id == now[k].id ensures r[k] == Survivor(was, now, p, k) {
      Retain.OldObjectExactly(was, now, MsgRankLess, MsgRank, p, k);
    }
  }

  method ReplayMsgs(was: seq<Message>, now: seq<Message>) returns (r: seq<Message>)
    requires ValidMsgs(was) && ValidMsgs(now)
    ensures Replaced(was, now, r)
  {
    var ops := DiffSorted(was, now, By(MsgRankLess, MsgRank), Retain.IdOf(MsgRank));
    ReplayReplaces(was, now);
    var slice := new Slice<Message>(was);
    slice.Apply(ops);
    r := slice.data[..slice.len];
  }

  /** Matched keys keep old elements, so the snapshot's fields are copied onto them. */
  method MergeMsgs(was: seq<Message>, now: seq<Message>) returns (r: seq<Message>)
    requires ValidMsgs(was) && ValidMsgs(now)
    ensures MergedMsgs(was, now, r) && ValidMsgs(r)
  {
    r := ReplayMsgs(was, now);
    ghost var replayed := r;
    var i, j := 0, 0;
    while i < |r| && j < |now|
      invariant 0 <= i == j <= |now| == |r|
      invariant forall k :: 0 <= k < i ==> r[k] == Reconciled(replayed[k], now[k])
      invariant forall k :: i <= k < |r| ==> r[k] == replayed[k]
    {
      // the replay left now's key sequence, so the two indexes move together
      assert r[i].id == now[j].id;
      r := r[i := Reconciled(r[i], now[j])];
      i, j := i + 1, j + 1;
    }
    MergedFromReplaced(was, now, replayed, r);
  }

  lemma MergedFromReplaced(was: seq<Message>, now: seq<Message>, replayed: seq<Message>, r: seq<Message>)
    requires ValidMsgs(now) && Replaced(was, now, replayed)
    requires |r| == |now| && forall k :: 0 <= k < |r| ==> r[k] == Reconciled(replayed[k], now[k])
    ensures MergedMsgs(was, now, r) && ValidMsgs(r)
  {
    forall k | 0 <= k < |now| && (forall p :: 0 <= p < |was| ==> was[p].id != now[k].id) ensures r[k] == now[k] {
      assert replayed[k] == now[k];
    }
    assert forall k :: 0 <= k < |now| ==> MsgRank(r[k]) == MsgRank(now[k]) && r[k].id == now[k].id;
  }

  // ---- Threads ----

  /** A thread in a list: which list it comes from and where, and its sort key. */
  datatype Entry = Entry(held: bool, at: nat, date: int, id: string)

  function EntryRank(e: Entry): Rank {
    Rank(e.date, e.id)
  }

  function EntryRanks(es: seq<Entry>): (r: seq<Rank>)
    ensures |r| == |es| && forall k :: 0 <= k < |es| ==> r[k] == EntryRank(es[k])
  {
    Retain.Ranks(es, EntryRank)
  }

  predicate EntriesSorted(es: seq<Entry>) {
    forall i, j :: 0 <= i < j < |es| ==> ThreadRankLess(EntryRank(es[i]), EntryRank(es[j]))
  }

  predicate EntriesUnique(es: seq<Entry>) {
    forall i, j :: 0 <= i < j < |es| ==> es[i].id != es[j].id
  }

  function InsertEntry(e: Entry, es: seq<Entry>): seq<Entry> {
    if es == [] || !ThreadRankLess(EntryRank(es[0]), EntryRank(e)) then [e] + es
    else [es[0]] + InsertEntry(e, es[1..])
  }

  function SortEntries(es: seq<Entry>): seq<Entry> {
    if es == [] then [] else InsertEntry(es[0], SortEntries(es[1..]))
  }

  lemma {:induction false} InsertEntryHolds(e: Entry, es: seq<Entry>)
    ensures multiset(InsertEntry(e, es)) == multiset{e} + multiset(es)
  {
    if es != [] && ThreadRankLess(EntryRank(es[0]), EntryRank(e)) {
      InsertEntryHolds(e, es[1..]);
      assert es == [es[0]] + es[1..];
    }
  }

  predicate After(head: Entry, es: seq<Entry>) {
    forall k :: 0 <= k < |es| ==> ThreadRankLess(EntryRank(head), EntryRank(es[k]))
  }

  lemma AfterHolds(head: Entry, e: Entry, es: seq<Entry>)
    requires After(head, es) && ThreadRankLess(EntryRank(head), EntryRank(e))
    ensures After(head, InsertEntry(e, es))
  {
    InsertEntryHolds(e, es);
    var out := InsertEntry(e, es);
    forall k | 0 <= k < |out| ensures ThreadRankLess(EntryRank(head), EntryRank(out[k])) {
      assert out[k] in multiset(out);
      assert out[k] == e || out[k] in es;
    }
  }

  lemma EntriesOrdered(a: Entry, b: Entry)
    requires a.id != b.id && !ThreadRankLess(EntryRank(b), EntryRank(a))
    ensures ThreadRankLess(EntryRank(a), EntryRank(b))
  {
    StringLessTotal(a.id, b.id);
  }

  lemma AfterFirst(e: Entry, es: seq<Entry>)
    requires es != [] && EntriesSorted(es) && ThreadRankLess(EntryRank(e), EntryRank(es[0]))
    ensures After(e, es)
  {
    RankOrders();
    forall k | 0 <= k < |es| ensures ThreadRankLess(EntryRank(e), EntryRank(es[k])) {
      assert k > 0 ==> ThreadRankLess(EntryRank(es[0]), EntryRank(es[k]));
    }
  }

  lemma {:induction false} InsertEntrySorted(e: Entry, es: seq<Entry>)
    requires EntriesSorted(es) && forall k :: 0 <= k < |es| ==> es[k].id != e.id
    ensures EntriesSorted(InsertEntry(e, es))
  {
    if es == [] {
    } else if ThreadRankLess(EntryRank(es[0]), EntryRank(e)) {
      InsertEntrySorted(e, es[1..]);
      AfterHolds(es[0], e, es[1..]);
    } else {
      EntriesOrdered(e, es[0]);
      AfterFirst(e, es);
    }
  }

  /** Sorting threads of different ids: a strictly sorted permutation. */
  lemma {:induction false} SortEntriesSorts(es: seq<Entry>)
    requires EntriesUnique(es)
    ensures EntriesSorted(SortEntries(es)) && multiset(SortEntries(es)) == multiset(es)
  {
    if es != [] {
      SortEntriesSorts(es[1..]);
      var rest := SortEntries(es[1..]);
      assert es == [es[0]] + es[1..];
      forall k | 0 <= k < |rest| ensures rest[k].id != es[0].id {
        assert rest[k] in multiset(es[1..]);
      }
      InsertEntryHolds(es[0], rest);
      InsertEntrySorted(es[0], rest);
    }
  }

  /** Sorting a sorted list changes nothing: the closing sort of a merge is a no-op. */
  lemma {:induction false} SortedStays(es: seq<Entry>)
    requires EntriesSorted(es)
    ensures SortEntries(es) == es
  {
    if es != [] {
      SortedStays(es[1..]);
      RankOrders();
      if |es| > 1 {
        assert ThreadRankLess(EntryRank(es[0]), EntryRank(es[1]));
      }
    }
  }

  /** What replaying the thread diff leaves: the incoming key sequence; a held thread stays the old
      object exactly where Kept says so. */
  ghost predicate ReplacedEntries(was: seq<Entry>, now: seq<Entry>, r: seq<Entry>) {
    && |r| == |now|
    && (forall k :: 0 <= k < |now| ==> r[k].id == now[k].id && (r[k] == now[k] || r[k] in was))
    && (forall k, p :: 0 <= k < |now| && 0 <= p < |was| && was[p].id == now[k].id ==>
          r[k] == if Retain.Kept(EntryRanks(was), EntryRanks(now), ThreadRankLess, p, k) then was[p] else now[k])
  }

  method ReplayEntries(was: seq<Entry>, now: seq<Entry>) returns (r: seq<Entry>)
    requires EntriesSorted(was) && EntriesSorted(now) && EntriesUnique(was) && EntriesUnique(now)
    ensures ReplacedEntries(was, now, r)
  {
    var ops := DiffSorted(was, now, By(ThreadRankLess, EntryRank), Retain.IdOf(EntryRank));
    EntriesReplay(was, now);
    var slice := new Slice<Entry>(was);
    slice.Apply(ops);
    r := slice.data[..slice.len];
  }

  lemma EntriesReplay(was: seq<Entry>, now: seq<Entry>)
    requires EntriesSorted(was) && EntriesSorted(now) && EntriesUnique(was) && EntriesUnique(now)
    ensures var ops := Ops(was, now, By(ThreadRankLess, EntryRank), Retain.IdOf(EntryRank));
            Replayable(was, ops) && ReplacedEntries(was, now, Replayed(was, ops))
  {
    Retain.NewIds(was, now, ThreadRankLess, EntryRank);
    RankOrders();
    var r := Replayed(was, Ops(was, now, By(ThreadRankLess, EntryRank), Retain.IdOf(EntryRank)));
    forall k | 0 <= k < |now| ensures r[k].id == now[k].id {
      assert EntryRank(r[k]).id == EntryRank(now[k]).id;
    }
    forall k, p | 0 <= k < |now| && 0 <= p < |was| && was[p].id == now[k].id
      ensures r[k] == if Retain.Kept(EntryRanks(was), EntryRanks(now), ThreadRankLess, p, k) then was[p] else now[k]
    {
      Retain.OldObjectExactly(was, now, ThreadRankLess, EntryRank, p, k);
    }
  }
}
