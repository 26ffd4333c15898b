/** What an identity names in the view's contents, and what reading, rewriting or dropping it does
    (src/core/view.go). An identity is a message id, or "t:" and a thread id. */
module Identity {
  import opened Mail
  import opened Rows
  import Merge
  import Resolve

  function IndexOfMsg(ms: seq<Message>, id: string): (j: nat)
    ensures j <= |ms| && (j < |ms| ==> ms[j].id == id)
    ensures j == |ms| <==> !HasId(ms, id)
  {
    if ms == [] then 0
    else if ms[0].id == id then 0
    else
      var j := IndexOfMsg(ms[1..], id);
      assert forall k :: 1 <= k < |ms| ==> ms[k] == ms[1..][k - 1];
      1 + j
  }

  predicate HasId(ms: seq<Message>, id: string) {
    exists k :: 0 <= k < |ms| && ms[k].id == id
  }

  ghost predicate HasMsg(vs: seq<ThreadVal>, id: string) {
    exists k :: 0 <= k < |vs| && HasId(vs[k].msgs, id)
  }

  /** A thread identity names a thread of the view, any other a message. */
  ghost predicate Known(vs: seq<ThreadVal>, identity: string) {
    if "t:" <= identity then exists k :: 0 <= k < |vs| && vs[k].id == identity[2..] else HasMsg(vs, identity)
  }

  function WithMsg(vs: seq<ThreadVal>, i: nat, j: nat, m: Message): seq<ThreadVal>
    requires i < |vs| && j < |vs[i].msgs|
  {
    vs[i := vs[i].(msgs := vs[i].msgs[j := m])]
  }

  lemma SameMsg(vs: seq<ThreadVal>, i: nat, j: nat)
    requires i < |vs| && j < |vs[i].msgs|
    ensures WithMsg(vs, i, j, vs[i].msgs[j]) == vs
  {
    assert vs[i].msgs[j := vs[i].msgs[j]] == vs[i].msgs;
  }

  // ---- Applied tags ----

  /** The first thread with the id, or the number of threads. */
  function ThreadAt(vs: seq<ThreadVal>, id: string): (i: nat)
    ensures i <= |vs| && (i < |vs| ==> vs[i].id == id)
    ensures forall k :: 0 <= k < i ==> vs[k].id != id
  {
    if vs == [] || vs[0].id == id then 0 else 1 + ThreadAt(vs[1..], id)
  }

  /** The first thread that holds the message, or the number of threads. */
  function HolderAt(vs: seq<ThreadVal>, id: string): (i: nat)
    ensures i <= |vs| && (i < |vs| ==> HasId(vs[i].msgs, id))
    ensures forall k :: 0 <= k < i ==> !HasId(vs[k].msgs, id)
  {
    if vs == [] || HasId(vs[0].msgs, id) then 0 else 1 + HolderAt(vs[1..], id)
  }

  /** A message's tags, unless its list is nil. */
  function TagList(m: Message): Option<seq<string>> {
    if m.nilTags && m.tags == [] then None else Some(m.tags)
  }

  /** The summary stub, else the first message. */
  function SummaryAt(ms: seq<Message>): (j: nat)
    ensures ms != [] ==> j < |ms|
  {
    var j := IndexOfMsg(ms, "");
    if j < |ms| then j else 0
  }

  /** The message whose tags an identity stands for: its own, or its thread's summary. */
  function RowMsg(vs: seq<ThreadVal>, identity: string): Option<Message> {
    if "t:" <= identity then
      var i := ThreadAt(vs, identity[2..]);
      if i < |vs| && vs[i].msgs != [] then Some(vs[i].msgs[SummaryAt(vs[i].msgs)]) else None
    else
      var i := HolderAt(vs, identity);
      if i < |vs| then Some(vs[i].msgs[IndexOfMsg(vs[i].msgs, identity)]) else None
  }

  /** The tags an identity carries; none when it is gone, or when its row's tag list is nil. */
  function AppliedTags(vs: seq<ThreadVal>, identity: string): Option<seq<string>> {
    var m := RowMsg(vs, identity);
    if m.Some? then TagList(m.value) else None
  }

  /** Edits the first message with the id. */
  function Edited(vs: seq<ThreadVal>, id: string, edit: Message -> Message): seq<ThreadVal> {
    var i := HolderAt(vs, id);
    if i < |vs| then EditedAt(vs, i, id, edit) else vs
  }

  function EditedAt(vs: seq<ThreadVal>, i: nat, id: string, edit: Message -> Message): seq<ThreadVal>
    requires i < |vs| && HasId(vs[i].msgs, id)
  {
    var j := IndexOfMsg(vs[i].msgs, id);
    WithMsg(vs, i, j, edit(vs[i].msgs[j]))
  }

  function Tagged(tags: seq<string>): Message -> Message {
    (m: Message) => m.(tags := tags, nilTags := false)
  }

  /** A thread's tags live on its summary stub; without one nothing is written. */
  function WithThreadTags(vs: seq<ThreadVal>, id: string, tags: seq<string>): seq<ThreadVal> {
    var i := ThreadAt(vs, id);
    if i < |vs| && HasId(vs[i].msgs, "") then EditedAt(vs, i, "", Tagged(tags)) else vs
  }

  function WithTags(vs: seq<ThreadVal>, identity: string, tags: seq<string>): seq<ThreadVal> {
    if "t:" <= identity then WithThreadTags(vs, identity[2..], tags) else Edited(vs, identity, Tagged(tags))
  }

  /** The view holds a row of the identity's own: the message, or the thread's summary stub. */
  predicate HasRowOf(vs: seq<ThreadVal>, identity: string) {
    if "t:" <= identity then
      var i := ThreadAt(vs, identity[2..]); i < |vs| && HasId(vs[i].msgs, "")
    else HolderAt(vs, identity) < |vs|
  }

  /** The view after an apply wrote the tags: a row that no longer matches the query goes. */
  function Landed(vs: seq<ThreadVal>, identity: string, tags: seq<string>, keeps: bool): seq<ThreadVal> {
    var written := WithTags(vs, identity, tags);
    if keeps then written else WithoutIdentity(written, identity)
  }

  lemma {:induction false} SameIds(ms: seq<Message>, now: seq<Message>, id: string)
    requires |now| == |ms| && forall k :: 0 <= k < |ms| ==> now[k].id == ms[k].id
    ensures IndexOfMsg(now, id) == IndexOfMsg(ms, id) && (HasId(now, id) <==> HasId(ms, id))
  {
    if ms != [] && ms[0].id != id {
      SameIds(ms[1..], now[1..], id);
      assert IndexOfMsg(now, id) == 1 + IndexOfMsg(now[1..], id);
    }
  }

  /** What is written is what is read back, when the identity has a row of its own; else nothing is written. */
  lemma WrittenReadsBack(vs: seq<ThreadVal>, identity: string, tags: seq<string>)
    ensures if HasRowOf(vs, identity) then AppliedTags(WithTags(vs, identity, tags), identity) == Some(tags)
            else WithTags(vs, identity, tags) == vs
  {
    if HasRowOf(vs, identity) {
      var i := if "t:" <= identity then ThreadAt(vs, identity[2..]) else HolderAt(vs, identity);
      var id := if "t:" <= identity then "" else identity;
      var now := WithTags(vs, identity, tags);
      assert now == EditedAt(vs, i, id, Tagged(tags));
      SameIds(vs[i].msgs, now[i].msgs, id);
      assert forall k :: 0 <= k < |vs| && k != i ==> now[k] == vs[k];
      assert if "t:" <= identity then ThreadAt(now, identity[2..]) == i else HolderAt(now, identity) == i;
    }
  }

  /** Writing tags touches the tags of messages with one id, in the named thread only if a thread was
      named, and nothing else of the view. */
  lemma OnlyTagsChange(vs: seq<ThreadVal>, identity: string, tags: seq<string>, i: nat, j: nat)
    requires i < |vs| && j < |vs[i].msgs|
    ensures var now, m := WithTags(vs, identity, tags), vs[i].msgs[j];
            && |now| == |vs| && |now[i].msgs| == |vs[i].msgs| && now[i].(msgs := vs[i].msgs) == vs[i]
            && now[i].msgs[j].(tags := m.tags, nilTags := m.nilTags) == m
            && (now[i].msgs[j] != m ==> if "t:" <= identity then m.id == "" && vs[i].id == identity[2..] else m.id == identity)
  {
    var at := if "t:" <= identity then ThreadAt(vs, identity[2..]) else HolderAt(vs, identity);
    var id := if "t:" <= identity then "" else identity;
    if HasRowOf(vs, identity) {
      assert WithTags(vs, identity, tags) == EditedAt(vs, at, id, Tagged(tags));
    }
  }

  // ---- What an apply writes ----

  /** The ops an apply has to write for an identity: the difference the staged ops make to its tags,
      or none when it has no tags to start from. */
  ghost predicate ResolvedFor(vs: seq<ThreadVal>, identity: string, ops: seq<TagOp>, groups: seq<TagGroup>, resolved: seq<TagOp>) {
    var tags := AppliedTags(vs, identity);
    if tags.None? then resolved == []
    else Resolve.IsDiff(Resolve.SetOf(tags.value), Resolve.SetOf(Resolve.Display(tags.value, ops, groups)), resolved)
  }

  /** The tags the row shows once the ops were written. */
  function WrittenTags(vs: seq<ThreadVal>, identity: string, resolved: seq<TagOp>, groups: seq<TagGroup>): seq<string> {
    var tags := AppliedTags(vs, identity);
    Resolve.Display(if tags.Some? then tags.value else [], resolved, groups)
  }

  /** The ops would change the identity's tags. */
  ghost predicate Changes(vs: seq<ThreadVal>, identity: string, ops: seq<TagOp>, groups: seq<TagGroup>) {
    var tags := AppliedTags(vs, identity);
    tags.Some? && Resolve.Final(Resolve.SetOf(tags.value), ops, groups) != Resolve.SetOf(tags.value)
  }

  lemma ChangesResolve(vs: seq<ThreadVal>, identity: string, ops: seq<TagOp>, groups: seq<TagGroup>, resolved: seq<TagOp>)
    requires Resolve.ValidGroups(groups) && ResolvedFor(vs, identity, ops, groups, resolved)
    ensures resolved != [] <==> Changes(vs, identity, ops, groups)
  {
    var tags := AppliedTags(vs, identity);
    if tags.Some? {
      Resolve.DisplayIsFinal(tags.value, ops, groups);
      Resolve.DiffApplies(Resolve.SetOf(tags.value), Resolve.SetOf(Resolve.Display(tags.value, ops, groups)), resolved);
      Resolve.FirstMember(resolved);
    }
  }

  lemma StillChanges(vs: seq<ThreadVal>, identity: string, ops: seq<TagOp>, groups: seq<TagGroup>, resolved: seq<TagOp>)
    requires Resolve.ValidGroups(groups) && ResolvedFor(vs, identity, ops, groups, resolved) && resolved != []
    ensures Changes(vs, identity, resolved, groups)
    ensures var tags := Resolve.SetOf(AppliedTags(vs, identity).value);
            Resolve.Final(tags, resolved, groups) == Resolve.Final(tags, ops, groups)
  {
    var tags := AppliedTags(vs, identity).value;
    ChangesResolve(vs, identity, ops, groups, resolved);
    Resolve.DisplayIsFinal(tags, ops, groups);
    Resolve.ResolvedAgrees(Resolve.SetOf(tags), ops, groups, resolved);
  }

  /** An entry is dropped without a write, though its ops would change the tags of its row, exactly
      when the row's tag list is nil: a message or summary loaded without tags is taken for one
      that is gone. */
  lemma DroppedUnwritten(vs: seq<ThreadVal>, identity: string, ops: seq<TagOp>, groups: seq<TagGroup>, resolved: seq<TagOp>)
    requires Resolve.ValidGroups(groups) && ResolvedFor(vs, identity, ops, groups, resolved) && RowMsg(vs, identity).Some?
    requires var tags := Resolve.SetOf(RowMsg(vs, identity).value.tags); Resolve.Final(tags, ops, groups) != tags
    ensures var m := RowMsg(vs, identity).value; resolved == [] <==> m.nilTags && m.tags == []
  {
    ChangesResolve(vs, identity, ops, groups, resolved);
  }

  /** One entry's turn in an apply: from contents a to contents b; lost when there was something to
      write and the write failed. */
  ghost predicate Turned(a: seq<ThreadVal>, id: string, ops: seq<TagOp>, groups: seq<TagGroup>, ok: bool, keeps: bool,
                         b: seq<ThreadVal>, lost: bool) {
    exists resolved :: IsTurn(a, id, ops, groups, ok, keeps, b, lost, resolved)
  }

  ghost predicate IsTurn(a: seq<ThreadVal>, id: string, ops: seq<TagOp>, groups: seq<TagGroup>, ok: bool, keeps: bool,
                         b: seq<ThreadVal>, lost: bool, resolved: seq<TagOp>) {
    && ResolvedFor(a, id, ops, groups, resolved)
    && (lost <==> resolved != [] && !ok)
    && b == if lost || resolved == [] then a else Landed(a, id, WrittenTags(a, id, resolved, groups), keeps)
  }

  /** An apply's inputs: what it snapshot, the groups, which writes succeed, which rows still match. */
  datatype Batch = Batch(snapshot: map<string, seq<TagOp>>, groups: seq<TagGroup>, writes: string -> bool, keeps: string -> bool)

  /** The contents after each of the turns taken so far, and which entries were lost. */
  ghost predicate Flushed(b: Batch, order: seq<string>, states: seq<seq<ThreadVal>>, failed: set<string>) {
    && |states| == |order| + 1 && Resolve.NoDuplicates(order)
    && forall k :: 0 <= k < |order| ==> TurnAt(b, order, states, failed, k)
  }

  ghost predicate TurnAt(b: Batch, order: seq<string>, states: seq<seq<ThreadVal>>, failed: set<string>, k: nat)
    requires k < |order| && |states| == |order| + 1
  {
    var id := order[k];
    id in b.snapshot && Turned(states[k], id, b.snapshot[id], b.groups, b.writes(id), b.keeps(id), states[k + 1], id in failed)
  }

  lemma FlushedStep(b: Batch, order: seq<string>, states: seq<seq<ThreadVal>>, failed: set<string>, id: string,
                    now: seq<ThreadVal>, lost: bool)
    requires Flushed(b, order, states, failed) && id !in order && id !in failed && id in b.snapshot
    requires Turned(states[|order|], id, b.snapshot[id], b.groups, b.writes(id), b.keeps(id), now, lost)
    ensures Flushed(b, order + [id], states + [now], if lost then failed + {id} else failed)
  {
    var ids, all, out := order + [id], states + [now], if lost then failed + {id} else failed;
    forall k | 0 <= k < |ids| ensures TurnAt(b, ids, all, out, k) {
      if k < |order| {
        assert TurnAt(b, order, states, failed, k);
        assert ids[k] == order[k] && all[k] == states[k] && all[k + 1] == states[k + 1];
      }
    }
  }

  /** Once an apply landed on a row of its own, applying the same ops again has nothing to write. */
  lemma LandedIsQuiet(vs: seq<ThreadVal>, identity: string, ops: seq<TagOp>, groups: seq<TagGroup>, resolved: seq<TagOp>, again: seq<TagOp>)
    requires Resolve.ValidGroups(groups) && resolved != [] && HasRowOf(vs, identity)
    requires ResolvedFor(vs, identity, ops, groups, resolved)
    requires ResolvedFor(Landed(vs, identity, WrittenTags(vs, identity, resolved, groups), true), identity, ops, groups, again)
    ensures again == []
  {
    var tags, now := AppliedTags(vs, identity).value, WrittenTags(vs, identity, resolved, groups);
    WrittenReadsBack(vs, identity, now);
    StillChanges(vs, identity, ops, groups, resolved);
    Resolve.DisplayIsFinal(tags, resolved, groups);
    Resolve.FinalIdempotent(Resolve.SetOf(tags), ops, groups);
    Resolve.DisplayIsFinal(now, ops, groups);
    Resolve.FirstMember(again);
  }

  // ---- Dropping an identity ----

  function WithoutMsg(ms: seq<Message>, id: string): seq<Message> {
    if ms == [] then []
    else WithoutMsg(ms[..|ms| - 1], id) + if ms[|ms| - 1].id != id then [ms[|ms| - 1]] else []
  }

  lemma {:induction false} WithoutMember(ms: seq<Message>, id: string)
    ensures forall m :: m in WithoutMsg(ms, id) <==> m in ms && m.id != id
  {
    if ms != [] {
      WithoutMember(ms[..|ms| - 1], id);
      assert ms == ms[..|ms| - 1] + [ms[|ms| - 1]];
    }
  }

  lemma {:induction false} WithoutValid(ms: seq<Message>, id: string)
    requires Merge.ValidMsgs(ms)
    ensures Merge.ValidMsgs(WithoutMsg(ms, id))
  {
    if ms != [] {
      var front := ms[..|ms| - 1];
      WithoutValid(front, id);
      WithoutMember(front, id);
      var out := WithoutMsg(front, id);
      forall k | 0 <= k < |out|
        ensures MsgRankLess(MsgRank(out[k]), MsgRank(ms[|ms| - 1])) && out[k].id != ms[|ms| - 1].id
      {
        assert out[k] in front;
      }
    }
  }

  /** The view without an identity. */
  function WithoutIdentity(vs: seq<ThreadVal>, identity: string): seq<ThreadVal> {
    if "t:" <= identity then WithoutThread(vs, identity[2..]) else WithoutMessage(vs, identity)
  }

  function WithoutThread(vs: seq<ThreadVal>, id: string): seq<ThreadVal> {
    var i := ThreadAt(vs, id);
    if i < |vs| then vs[..i] + vs[i + 1..] else vs
  }

  /** The first holder loses the message; a thread left empty goes too. */
  function WithoutMessage(vs: seq<ThreadVal>, id: string): seq<ThreadVal> {
    var i := HolderAt(vs, id);
    if i == |vs| then vs
    else
      var left := WithoutMsg(vs[i].msgs, id);
      if left == [] then vs[..i] + vs[i + 1..] else vs[i := vs[i].(msgs := left)]
  }

  predicate DistinctIds(vs: seq<ThreadVal>) {
    forall i, k :: 0 <= i < k < |vs| ==> vs[i].id != vs[k].id
  }

  lemma CutMembers<T>(s: seq<T>, i: nat)
    requires i < |s|
    ensures var cut := s[..i] + s[i + 1..];
            && (forall k :: 0 <= k < |cut| ==> cut[k] == s[if k < i then k else k + 1])
            && forall k :: 0 <= k < |s| && k != i ==> s[k] in cut
  {
    var cut := s[..i] + s[i + 1..];
    forall k | 0 <= k < |s| && k != i ensures s[k] in cut {
      assert cut[if k < i then k else k - 1] == s[k];
    }
  }

  /** A dropped thread is gone; every other stays. */
  lemma ThreadIsGone(vs: seq<ThreadVal>, id: string)
    requires DistinctIds(vs)
    ensures forall v <- WithoutThread(vs, id) :: v.id != id
    ensures forall v <- vs :: v.id != id ==> v in WithoutThread(vs, id)
  {
    var i := ThreadAt(vs, id);
    if i < |vs| {
      CutMembers(vs, i);
    }
  }

  /** A dropped message is gone when one thread only held it; every other thread stays as it was. */
  lemma MessageIsGone(vs: seq<ThreadVal>, id: string)
    requires forall i, k :: 0 <= i < k < |vs| && HasId(vs[i].msgs, id) ==> !HasId(vs[k].msgs, id)
    ensures !HasMsg(WithoutMessage(vs, id), id)
    ensures forall v <- vs :: !HasId(v.msgs, id) ==> v in WithoutMessage(vs, id)
  {
    var i, now := HolderAt(vs, id), WithoutMessage(vs, id);
    if i < |vs| {
      CutMembers(vs, i);
      WithoutMember(vs[i].msgs, id);
      forall k | 0 <= k < |now| ensures !HasId(now[k].msgs, id) {
        if |now| == |vs| && k == i {
          assert now[k].msgs == WithoutMsg(vs[i].msgs, id);
        } else if |now| == |vs| {
          assert now[k] == vs[k];
        } else {
          assert now[k] == vs[if k < i then k else k + 1];
        }
      }
      forall v | v in vs && !HasId(v.msgs, id) ensures v in now {
        var k :| 0 <= k < |vs| && vs[k] == v;
        assert k != i;
        if |now| == |vs| {
          assert now[k] == v;
        }
      }
    }
  }
}
