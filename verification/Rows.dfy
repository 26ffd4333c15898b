/** The materialized rows as a function of the view's state: flatten, window, staged ops,
    display filter (src/core/view.go). */
module Rows {
  import opened Mail
  import opened Tree
  import Resolve
  import Staging
  import Window

  /** Attachments and paths are read through the shared message, not the row model. */
  function Bare(m: Message): (r: Message)
    ensures r.id == m.id && r.threadID == m.threadID && r.timestamp == m.timestamp && r.author == m.author && r.subject == m.subject
    ensures r.tags == m.tags && r.nilTags == m.nilTags && r.references == m.references
  {
    m.(paths := [], atts := [])
  }

  function Bared(ms: seq<Message>): (r: seq<Message>)
    ensures |r| == |ms| && forall k :: 0 <= k < |ms| ==> r[k] == Bare(ms[k])
  {
    seq(|ms|, k requires 0 <= k < |ms| => Bare(ms[k]))
  }

  datatype ThreadVal = ThreadVal(id: string, lastDate: int, collapsed: bool, winStart: nat, msgs: seq<Message>)

  datatype Settings = Settings(groups: seq<TagGroup>, filter: string, winRows: nat, msgDesc: bool, threaded: bool)

  function Expanded(v: ThreadVal, s: Settings): seq<Row> {
    Flatten(TreeOf(Bared(v.msgs)), v.id, false, s.threaded, s.msgDesc)
  }

  function FlatThread(v: ThreadVal, s: Settings): seq<Row> {
    Flatten(TreeOf(Bared(v.msgs)), v.id, v.collapsed, s.threaded, s.msgDesc)
  }

  function ThreadRows(v: ThreadVal, s: Settings): seq<Row> {
    Window.Emitted(FlatThread(v, s), v.id, v.winStart, s.winRows)
  }

  function AllRows(vs: seq<ThreadVal>, s: Settings): seq<Row> {
    if vs == [] then [] else AllRows(vs[..|vs| - 1], s) + ThreadRows(vs[|vs| - 1], s)
  }

  // ---- Staged ops ----

  /** The key a row's staged ops hang under: its message, else its thread. */
  function Identity(r: Row, m: Message, staged: Staging.Staged): string {
    if m.id == "" || (m.id !in staged && r.threadID != "") then "t:" + r.threadID else m.id
  }

  function StagedRow(r: Row, staged: Staging.Staged, groups: seq<TagGroup>): Row {
    if r.msg.None? then r
    else
      var id := Identity(r, r.msg.value, staged);
      if id in staged then r.(staged := true, stagedTags := Resolve.Display(r.msg.value.tags, staged[id], groups)) else r
  }

  /** A row shows staged ops exactly when there are some for its message or, failing that, for its
      thread; it shows the tags those ops lead to, and is otherwise untouched. */
  lemma StagedShows(r: Row, staged: Staging.Staged, groups: seq<TagGroup>)
    requires r.msg.Some? && !r.staged && r.stagedTags == []
    ensures var s, m, thread := StagedRow(r, staged, groups), r.msg.value, "t:" + r.threadID;
            && s.(staged := false, stagedTags := []) == r
            && (m.id != "" && m.id in staged ==> s.staged && s.stagedTags == Resolve.Display(m.tags, staged[m.id], groups))
            && (m.id !in staged || m.id == "" ==>
                  (r.threadID != "" || m.id == "" ==>
                     (s.staged <==> thread in staged) && (s.staged ==> s.stagedTags == Resolve.Display(m.tags, staged[thread], groups)))
                  && (r.threadID == "" && m.id != "" ==> !s.staged))
  {
  }

  function StagedRows(rows: seq<Row>, staged: Staging.Staged, groups: seq<TagGroup>): (r: seq<Row>)
    ensures |r| == |rows| && forall k :: 0 <= k < |rows| ==> r[k] == StagedRow(rows[k], staged, groups)
  {
    seq(|rows|, k requires 0 <= k < |rows| => StagedRow(rows[k], staged, groups))
  }

  function Full(vs: seq<ThreadVal>, s: Settings, staged: Staging.Staged): seq<Row> {
    StagedRows(AllRows(vs, s), staged, s.groups)
  }

  // ---- The display filter ----

  function LowerChar(c: char): char {
    if 'A' <= c <= 'Z' then c - 'A' + 'a' else c
  }

  function Lower(s: string): (r: string)
    ensures |r| == |s|
  {
    if s == "" then "" else [LowerChar(s[0])] + Lower(s[1..])
  }

  predicate Contains(s: string, part: string) {
    part <= s || (s != "" && Contains(s[1..], part))
  }

  predicate RowMatches(r: Row, f: string) {
    r.msg.Some? && (Contains(Lower(r.msg.value.author), f) || Contains(Lower(r.msg.value.subject), f)
                    || exists t :: t in r.msg.value.tags && Contains(t, f))
  }

  /** The full indexes the filter lets through. */
  function FilterIdx(rows: seq<Row>, f: string): (r: seq<nat>)
    ensures forall k :: 0 <= k < |r| ==> r[k] < |rows|
  {
    if rows == [] then []
    else FilterIdx(rows[..|rows| - 1], f) + if RowMatches(rows[|rows| - 1], f) then [|rows| - 1] else []
  }

  function Pick(rows: seq<Row>, idx: seq<nat>): (r: seq<Row>)
    requires forall k :: 0 <= k < |idx| ==> idx[k] < |rows|
    ensures |r| == |idx| && forall k :: 0 <= k < |idx| ==> r[k] == rows[idx[k]]
  {
    seq(|idx|, k requires 0 <= k < |idx| => rows[idx[k]])
  }

  function Filtered(full: seq<Row>, f: string): seq<Row> {
    if f == "" then full else Pick(full, FilterIdx(full, f))
  }

  /** A from-scratch flatten, window, stage, filter. */
  function Fresh(vs: seq<ThreadVal>, s: Settings, staged: Staging.Staged): seq<Row> {
    Filtered(Full(vs, s, staged), s.filter)
  }

  // ---- What the filter finds ----

  predicate IsUpper(c: char) {
    'A' <= c <= 'Z'
  }

  /** The same letter, in whatever case. */
  predicate SameLetter(a: char, b: char) {
    a == b || (IsUpper(a) && b == a - 'A' + 'a') || (IsUpper(b) && a == b - 'A' + 'a')
  }

  /** The text occurs in s, whatever the case of either. */
  ghost predicate Found(s: string, text: string) {
    exists i: nat :: FoundAt(s, text, i)
  }

  predicate FoundAt(s: string, text: string, i: nat) {
    i + |text| <= |s| && forall k :: 0 <= k < |text| ==> SameLetter(s[i + k], text[k])
  }

  /** The text, put in lower case, occurs in the tag as it is spelled. */
  ghost predicate TagFound(t: string, text: string) {
    exists i: nat :: TagFoundAt(t, text, i)
  }

  predicate TagFoundAt(t: string, text: string, i: nat) {
    FoundAt(t, text, i) && forall k :: i <= k < i + |text| ==> !IsUpper(t[k])
  }

  predicate PartAt(s: string, part: string, i: nat) {
    i + |part| <= |s| && s[i..i + |part|] == part
  }

  lemma BehindStart(s: string, part: string, i: nat)
    requires PartAt(s, part, i) && !(part <= s)
    ensures i > 0
  {
  }

  lemma PartShifts(s: string, part: string, i: nat)
    requires s != "" && i + 1 + |part| <= |s|
    ensures PartAt(s[1..], part, i) <==> PartAt(s, part, i + 1)
  {
    var n := |part|;
    var a, b := s[1..][i..i + n], s[i + 1..i + 1 + n];
    assert forall k :: 0 <= k < n ==> a[k] == b[k];
    assert a == b;
  }

  lemma {:induction false} ContainsAt(s: string, part: string)
    ensures Contains(s, part) <==> exists i: nat :: PartAt(s, part, i)
  {
    if part <= s {
      assert PartAt(s, part, 0);
    } else if s != "" {
      ContainsAt(s[1..], part);
      if i: nat :| PartAt(s[1..], part, i) {
        PartShifts(s, part, i);
      }
      if i: nat :| PartAt(s, part, i) {
        BehindStart(s, part, i);
        PartShifts(s, part, i - 1);
      }
    }
  }

  lemma {:induction false} LowerAt(s: string, k: nat)
    requires k < |s|
    ensures Lower(s)[k] == LowerChar(s[k])
  {
    if k > 0 {
      LowerAt(s[1..], k - 1);
    }
  }

  lemma PartIs(s: string, part: string, i: nat)
    ensures PartAt(s, part, i) <==> i + |part| <= |s| && forall k :: i <= k < i + |part| ==> s[k] == part[k - i]
  {
    if i + |part| <= |s| {
      var own := s[i..i + |part|];
      assert forall k :: i <= k < i + |part| ==> own[k - i] == s[k];
      if forall k :: i <= k < i + |part| ==> s[k] == part[k - i] {
        assert forall k :: 0 <= k < |part| ==> own[k] == s[i + k] == part[k];
        assert own == part;
      }
    }
  }

  lemma LowerFinds(s: string, text: string, i: nat)
    ensures PartAt(Lower(s), Lower(text), i) <==> FoundAt(s, text, i)
  {
    PartIs(Lower(s), Lower(text), i);
    if i + |text| <= |s| {
      forall k | i <= k < i + |text| ensures Lower(s)[k] == Lower(text)[k - i] <==> SameLetter(s[k], text[k - i]) {
        LowerAt(s, k);
        LowerAt(text, k - i);
      }
    }
  }

  lemma LowerTagFinds(t: string, text: string, i: nat)
    ensures PartAt(t, Lower(text), i) <==> TagFoundAt(t, text, i)
  {
    PartIs(t, Lower(text), i);
    if i + |text| <= |t| {
      forall k | i <= k < i + |text| ensures t[k] == Lower(text)[k - i] <==> SameLetter(t[k], text[k - i]) && !IsUpper(t[k]) {
        LowerAt(text, k - i);
      }
    }
  }

  lemma ContainsFinds(s: string, text: string)
    ensures Contains(Lower(s), Lower(text)) <==> Found(s, text)
    ensures Contains(s, Lower(text)) <==> TagFound(s, text)
  {
    ContainsAt(Lower(s), Lower(text));
    ContainsAt(s, Lower(text));
    forall i: nat
      ensures PartAt(Lower(s), Lower(text), i) <==> FoundAt(s, text, i)
      ensures PartAt(s, Lower(text), i) <==> TagFoundAt(s, text, i)
    {
      LowerFinds(s, text, i);
      LowerTagFinds(s, text, i);
    }
  }

  /** The display filter keeps a row whose author or subject holds the text in any case, or one of
      whose tags holds it in lower case. */
  lemma FilterFinds(r: Row, text: string)
    ensures RowMatches(r, Lower(text)) <==>
              r.msg.Some? && (Found(r.msg.value.author, text) || Found(r.msg.value.subject, text)
                              || exists t :: t in r.msg.value.tags && TagFound(t, text))
  {
    if r.msg.Some? {
      ContainsFinds(r.msg.value.author, text);
      ContainsFinds(r.msg.value.subject, text);
      forall t ensures Contains(t, Lower(text)) <==> TagFound(t, text) {
        ContainsFinds(t, text);
      }
    }
  }

  /** A tag is found in any case, as author and subject are, exactly when it has no upper-case letter:
      typed as it is spelled, a tag with one is not found. */
  lemma TagCaseExactly(t: string)
    ensures (forall text :: TagFound(t, text) <==> Found(t, text)) <==> (forall k :: 0 <= k < |t| ==> !IsUpper(t[k]))
  {
    if forall k :: 0 <= k < |t| ==> !IsUpper(t[k]) {
      forall text ensures TagFound(t, text) <==> Found(t, text) {
        if Found(t, text) {
          var i: nat :| FoundAt(t, text, i);
          assert TagFoundAt(t, text, i);
        }
        if TagFound(t, text) {
          var i: nat :| TagFoundAt(t, text, i);
          assert FoundAt(t, text, i);
        }
      }
    } else {
      assert FoundAt(t, t, 0);
      assert !TagFound(t, t);
    }
  }

  predicate Increasing(idx: seq<nat>) {
    forall i, j :: 0 <= i < j < |idx| ==> idx[i] < idx[j]
  }

  /** The filtered-to-full map is strictly increasing, and a full index is in it exactly when its row matches. */
  lemma {:induction false} FilterIdxIncreasing(rows: seq<Row>, f: string)
    ensures Increasing(FilterIdx(rows, f))
    ensures forall i :: 0 <= i < |rows| ==> (i in FilterIdx(rows, f) <==> RowMatches(rows[i], f))
  {
    if rows != [] {
      var front := rows[..|rows| - 1];
      FilterIdxIncreasing(front, f);
      forall i | 0 <= i < |rows| ensures i in FilterIdx(rows, f) <==> RowMatches(rows[i], f) {
        if i < |front| {
          assert front[i] == rows[i];
          assert i in FilterIdx(rows, f) <==> i in FilterIdx(front, f);
        }
      }
    }
  }

  /** full -> filtered. */
  function Inverse(idx: seq<nat>): map<nat, nat> {
    if idx == [] then map[] else Inverse(idx[..|idx| - 1])[idx[|idx| - 1] := |idx| - 1]
  }

  /** The two maps undo each other. */
  lemma {:induction false} InverseUndoes(idx: seq<nat>)
    requires Increasing(idx)
    ensures forall k :: 0 <= k < |idx| ==> idx[k] in Inverse(idx) && Inverse(idx)[idx[k]] == k
    ensures forall i <- Inverse(idx) :: Inverse(idx)[i] < |idx| && idx[Inverse(idx)[i]] == i
  {
    if idx != [] {
      var front := idx[..|idx| - 1];
      InverseUndoes(front);
      forall k | 0 <= k < |idx| ensures idx[k] in Inverse(idx) && Inverse(idx)[idx[k]] == k {
        if k < |front| {
          assert front[k] == idx[k];
        }
      }
    }
  }

  // ---- What the rows do not depend on ----

  /** The parts of a thread its rows show. */
  predicate SameFace(a: ThreadVal, b: ThreadVal) {
    a.id == b.id && a.collapsed == b.collapsed && a.winStart == b.winStart && Bared(a.msgs) == Bared(b.msgs)
  }

  lemma {:induction false} SameFaces(a: seq<ThreadVal>, b: seq<ThreadVal>, s: Settings)
    requires |a| == |b| && forall k :: 0 <= k < |a| ==> SameFace(a[k], b[k])
    ensures AllRows(a, s) == AllRows(b, s)
  {
    if a != [] {
      SameFaces(a[..|a| - 1], b[..|b| - 1], s);
      assert SameFace(a[|a| - 1], b[|b| - 1]);
    }
  }

  // ---- Finding a row ----

  predicate Holds(r: Row, id: string) {
    r.msg.Some? && r.msg.value.id == id
  }

  predicate Shows(rows: seq<Row>, id: string) {
    exists k :: 0 <= k < |rows| && Holds(rows[k], id)
  }

  lemma ShowsAppend(a: seq<Row>, b: seq<Row>, id: string)
    requires Shows(a, id) || Shows(b, id)
    ensures Shows(a + b, id)
  {
    if Shows(a, id) {
      var k :| 0 <= k < |a| && Holds(a[k], id);
      assert Holds((a + b)[k], id);
    } else {
      var k :| 0 <= k < |b| && Holds(b[k], id);
      assert Holds((a + b)[|a| + k], id);
    }
  }

  lemma {:induction false} RowOfThread(vs: seq<ThreadVal>, s: Settings, i: nat, id: string)
    requires i < |vs| && Shows(ThreadRows(vs[i], s), id)
    ensures Shows(AllRows(vs, s), id)
  {
    var front, last := vs[..|vs| - 1], vs[|vs| - 1];
    if i < |front| {
      assert front[i] == vs[i];
      RowOfThread(front, s, i, id);
    } else {
      assert vs[i] == last;
    }
    ShowsAppend(AllRows(front, s), ThreadRows(last, s), id);
  }

  /** Expanded and slid to the revealing start, the thread's rows hold the message. */
  lemma RevealedRow(v: ThreadVal, s: Settings, at: nat, id: string)
    requires at < |Expanded(v, s)| && Holds(Expanded(v, s)[at], id)
    ensures var now := v.(collapsed := false, winStart := Window.RevealStart(|Expanded(v, s)|, s.winRows, v.winStart, at));
            Shows(ThreadRows(now, s), id)
  {
    var full := Expanded(v, s);
    Window.RevealedIsShown(full, v.id, v.winStart, s.winRows, at);
    var rows := Window.Emitted(full, v.id, Window.RevealStart(|full|, s.winRows, v.winStart, at), s.winRows);
    var k :| 0 <= k < |rows| && rows[k].msg == full[at].msg;
    assert Holds(rows[k], id);
  }
}
