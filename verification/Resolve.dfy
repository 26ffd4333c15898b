/** Tag ops and exclusive groups (src/core/resolve.go). */
module Resolve {
  import opened Mail

  /** What config load enforces: no tag is blank or listed twice, in one group or in two. */
  predicate ValidGroups(groups: seq<TagGroup>) {
    && (forall g :: 0 <= g < |groups| ==> "" !in groups[g] && NoDuplicates(groups[g]))
    && forall g, h, t :: 0 <= g < h < |groups| && t in groups[g] ==> t !in groups[h]
  }

  predicate NoDuplicates(s: seq<string>) {
    forall i, j :: 0 <= i < j < |s| ==> s[i] != s[j]
  }

  function Front<T>(s: seq<T>): seq<T>
    requires s != []
  {
    s[..|s| - 1]
  }

  function Last<T>(s: seq<T>): T
    requires s != []
  {
    s[|s| - 1]
  }

  function SetOf(s: seq<string>): set<string> {
    set t | t in s
  }

  /** The tags after the ops, groups ignored: every tag follows its last op. */
  function After(tags: set<string>, ops: seq<TagOp>): set<string> {
    if ops == [] then tags
    else
      var s := After(tags, Front(ops));
      if Last(ops).add then s + {Last(ops).tag} else s - {Last(ops).tag}
  }

  predicate Touched(g: TagGroup, ops: seq<TagOp>) {
    exists i :: 0 <= i < |ops| && ops[i].tag in g
  }

  /** The last member the ops add, or "". */
  function LastAdd(g: TagGroup, ops: seq<TagOp>): string {
    if ops == [] then ""
    else if Last(ops).add && Last(ops).tag in g then Last(ops).tag
    else LastAdd(g, Front(ops))
  }

  /** The first member in list order that is present, or "". */
  function FirstPresent(g: TagGroup, present: set<string>): string {
    if g == [] then "" else if g[0] in present then g[0] else FirstPresent(g[1..], present)
  }

  function Keep(g: TagGroup, ops: seq<TagOp>, present: set<string>): string {
    var last := LastAdd(g, ops);
    if last != "" && last in present then last else FirstPresent(g, present)
  }

  /** The member a group keeps, or "" when the ops leave it alone or empty. */
  function Winner(g: TagGroup, tags: set<string>, ops: seq<TagOp>): string {
    if Touched(g, ops) then Keep(g, ops, After(tags, ops)) else ""
  }

  predicate Survives(t: string, groups: seq<TagGroup>, n: nat, tags: set<string>, ops: seq<TagOp>)
    requires n <= |groups|
  {
    forall g :: 0 <= g < n && t in groups[g] && Winner(groups[g], tags, ops) != "" ==> t == Winner(groups[g], tags, ops)
  }

  /** The resolved tag set: the ops' outcome, less every loser of a touched group. */
  function Final(tags: set<string>, ops: seq<TagOp>, groups: seq<TagGroup>): set<string> {
    set t | t in After(tags, ops) && Survives(t, groups, |groups|, tags, ops)
  }

  // ---- The display order ----

  function Dedup(s: seq<string>): (r: seq<string>)
    ensures forall t :: t in r <==> t in s
    ensures NoDuplicates(r)
  {
    if s == [] then []
    else
      assert forall t :: t in s <==> t in Front(s) || t == Last(s);
      if Last(s) in Front(s) then Dedup(Front(s)) else Dedup(Front(s)) + [Last(s)]
  }

  /** The input slot of the first member that is not the winner, or |tags|. */
  function FirstDrop(g: TagGroup, w: string, tags: seq<string>, n: nat): nat
    requires n <= |tags|
    ensures FirstDrop(g, w, tags, n) <= |tags|
    ensures FirstDrop(g, w, tags, n) < n || FirstDrop(g, w, tags, n) == |tags|
  {
    if n == 0 then |tags|
    else if FirstDrop(g, w, tags, n - 1) < n - 1 then FirstDrop(g, w, tags, n - 1)
    else if tags[n - 1] in g && tags[n - 1] != w then n - 1
    else |tags|
  }

  /** The winners that render in dropped slot i. */
  function SlotWinners(groups: seq<TagGroup>, n: nat, tags: seq<string>, ops: seq<TagOp>, i: nat): seq<string>
    requires n <= |groups|
  {
    if n == 0 then []
    else
      var w := Winner(groups[n - 1], SetOf(tags), ops);
      SlotWinners(groups, n - 1, tags, ops, i)
        + (if w != "" && FirstDrop(groups[n - 1], w, tags, |tags|) == i then [w] else [])
  }

  /** Slot i: a survivor in place, or the winners whose first dropped member sat here. */
  function Slot(tags: seq<string>, ops: seq<TagOp>, groups: seq<TagGroup>, i: nat): seq<string>
    requires i < |tags|
  {
    if tags[i] in Final(SetOf(tags), ops, groups) then [tags[i]] else SlotWinners(groups, |groups|, tags, ops, i)
  }

  function Slots(tags: seq<string>, ops: seq<TagOp>, groups: seq<TagGroup>, n: nat): seq<string>
    requires n <= |tags|
  {
    if n == 0 then [] else Slots(tags, ops, groups, n - 1) + Slot(tags, ops, groups, n - 1)
  }

  function Additions(ops: seq<TagOp>, final: set<string>): seq<string> {
    if ops == [] then []
    else Additions(Front(ops), final) + (if Last(ops).tag in final then [Last(ops).tag] else [])
  }

  /** The display arm: slots, then the remaining additions in op order, first occurrences only. */
  function Display(tags: seq<string>, ops: seq<TagOp>, groups: seq<TagGroup>): seq<string> {
    Dedup(Slots(tags, ops, groups, |tags|) + Additions(ops, Final(SetOf(tags), ops, groups)))
  }

  // ---- What resolution promises ----

  lemma {:induction false} LastAddMember(g: TagGroup, ops: seq<TagOp>)
    ensures LastAdd(g, ops) == "" || (LastAdd(g, ops) in g && exists i :: 0 <= i < |ops| && ops[i] == TagOp(LastAdd(g, ops), true))
  {
    if ops != [] {
      LastAddMember(g, Front(ops));
      assert Last(ops) == ops[|ops| - 1];
    }
  }

  lemma {:induction false} FirstPresentMember(g: TagGroup, present: set<string>)
    ensures FirstPresent(g, present) == "" || (FirstPresent(g, present) in g && FirstPresent(g, present) in present)
    ensures "" !in g && FirstPresent(g, present) == "" ==> forall t :: t in g ==> t !in present
  {
    if g != [] {
      FirstPresentMember(g[1..], present);
    }
  }

  lemma WinnerWins(g: TagGroup, tags: set<string>, ops: seq<TagOp>)
    ensures var w := Winner(g, tags, ops); w != "" ==> w in g && w in After(tags, ops) && Touched(g, ops)
  {
    LastAddMember(g, ops);
    FirstPresentMember(g, After(tags, ops));
  }

  lemma WinnerSurvives(groups: seq<TagGroup>, k: nat, tags: set<string>, ops: seq<TagOp>)
    requires ValidGroups(groups) && k < |groups|
    ensures var w := Winner(groups[k], tags, ops); w != "" ==> w in Final(tags, ops, groups)
  {
    WinnerWins(groups[k], tags, ops);
  }

  /** A touched group keeps exactly its winner: the last ADD still present, else the first member present. */
  lemma GroupExclusive(groups: seq<TagGroup>, k: nat, tags: set<string>, ops: seq<TagOp>)
    requires ValidGroups(groups) && k < |groups| && Touched(groups[k], ops)
    ensures var final, w := Final(tags, ops, groups), Keep(groups[k], ops, After(tags, ops));
            && (forall t :: t in groups[k] ==> (t in final <==> t == w))
            && (w == "" <==> forall t :: t in groups[k] ==> t !in After(tags, ops))
  {
    var w := Winner(groups[k], tags, ops);
    WinnerWins(groups[k], tags, ops);
    FirstPresentMember(groups[k], After(tags, ops));
    WinnerSurvives(groups, k, tags, ops);
  }

  lemma {:induction false} AfterUntouched(t: string, tags: set<string>, ops: seq<TagOp>)
    requires forall i :: 0 <= i < |ops| ==> ops[i].tag != t
    ensures t in After(tags, ops) <==> t in tags
  {
    if ops != [] {
      assert Last(ops).tag != t;
      AfterUntouched(t, tags, Front(ops));
    }
  }

  /** Untouched groups keep every member they had. */
  lemma UntouchedUnchanged(groups: seq<TagGroup>, k: nat, tags: set<string>, ops: seq<TagOp>, t: string)
    requires ValidGroups(groups) && k < |groups| && !Touched(groups[k], ops) && t in groups[k]
    ensures t in Final(tags, ops, groups) <==> t in tags
  {
    AfterUntouched(t, tags, ops);
  }

  /** The last op on a tag, as a verdict: Some(added), or None without an op. */
  function Verdict(t: string, ops: seq<TagOp>): Option<bool> {
    if ops == [] then None
    else if Last(ops).tag == t then Some(Last(ops).add)
    else Verdict(t, Front(ops))
  }

  lemma {:induction false} AfterVerdict(t: string, tags: set<string>, ops: seq<TagOp>)
    ensures t in After(tags, ops) <==> if Verdict(t, ops).Some? then Verdict(t, ops).value else t in tags
  {
    if ops != [] {
      AfterVerdict(t, tags, Front(ops));
    }
  }

  /** ops[i] is the last op on the tag. */
  predicate LastOpAt(ops: seq<TagOp>, t: string, i: nat) {
    i < |ops| && ops[i].tag == t && forall j :: i < j < |ops| ==> ops[j].tag != t
  }

  lemma {:induction false} AfterIs(t: string, tags: set<string>, ops: seq<TagOp>)
    ensures forall i: nat :: LastOpAt(ops, t, i) ==> (t in After(tags, ops) <==> ops[i].add)
    ensures (forall i :: 0 <= i < |ops| ==> ops[i].tag != t) ==> (t in After(tags, ops) <==> t in tags)
  {
    if ops != [] {
      AfterIs(t, tags, Front(ops));
      forall i: nat | LastOpAt(ops, t, i) ensures t in After(tags, ops) <==> ops[i].add {
        if i < |ops| - 1 {
          assert Last(ops).tag != t && LastOpAt(Front(ops), t, i);
        }
      }
    }
  }

  /** Soft tags follow their last op. */
  lemma SoftFollowsLastOp(groups: seq<TagGroup>, tags: set<string>, ops: seq<TagOp>, t: string)
    requires forall k :: 0 <= k < |groups| ==> t !in groups[k]
    ensures t in Final(tags, ops, groups) <==> if Verdict(t, ops).Some? then Verdict(t, ops).value else t in tags
    ensures forall i: nat :: LastOpAt(ops, t, i) ==> (t in Final(tags, ops, groups) <==> ops[i].add)
    ensures (forall i :: 0 <= i < |ops| ==> ops[i].tag != t) ==> (t in Final(tags, ops, groups) <==> t in tags)
  {
    AfterVerdict(t, tags, ops);
    AfterIs(t, tags, ops);
  }

  // ---- Which member a group keeps ----

  predicate AddsMember(g: TagGroup, op: TagOp) {
    op.add && op.tag in g
  }

  /** ops[i] is the last op that adds a member of the group. */
  predicate LastAddAt(g: TagGroup, ops: seq<TagOp>, i: nat) {
    i < |ops| && AddsMember(g, ops[i]) && forall j :: i < j < |ops| ==> !AddsMember(g, ops[j])
  }

  /** The k-th member is present, and none before it. */
  predicate FirstPresentAt(g: TagGroup, present: set<string>, k: nat) {
    k < |g| && g[k] in present && forall j :: 0 <= j < k ==> g[j] !in present
  }

  lemma {:induction false} LastAddIs(g: TagGroup, ops: seq<TagOp>)
    ensures forall i: nat :: LastAddAt(g, ops, i) ==> LastAdd(g, ops) == ops[i].tag
    ensures (forall i: nat :: !LastAddAt(g, ops, i)) ==> LastAdd(g, ops) == ""
  {
    if ops != [] {
      LastAddIs(g, Front(ops));
      var n := |ops| - 1;
      if AddsMember(g, ops[n]) {
        assert LastAddAt(g, ops, n);
        assert forall i: nat :: LastAddAt(g, ops, i) ==> i == n;
      } else {
        assert forall i: nat :: LastAddAt(g, ops, i) <==> LastAddAt(g, Front(ops), i);
      }
    }
  }

  lemma {:induction false} FirstPresentIs(g: TagGroup, present: set<string>)
    ensures forall k: nat :: FirstPresentAt(g, present, k) ==> FirstPresent(g, present) == g[k]
  {
    if g != [] && g[0] !in present {
      FirstPresentIs(g[1..], present);
      forall k: nat | FirstPresentAt(g, present, k) ensures FirstPresent(g, present) == g[k] {
        assert FirstPresentAt(g[1..], present, k - 1);
      }
    }
  }

  /** Of a touched group one member at most is left: the one the last adding op added, unless a later
      op took it away; then the first in the group's order that the ops leave. */
  lemma GroupPrecedence(groups: seq<TagGroup>, k: nat, tags: set<string>, ops: seq<TagOp>, i: nat)
    requires ValidGroups(groups) && k < |groups| && Touched(groups[k], ops)
    ensures var g, final, left := groups[k], Final(tags, ops, groups), After(tags, ops);
            && (LastAddAt(g, ops, i) && ops[i].tag in left ==> forall t <- g :: t in final <==> t == ops[i].tag)
            && ((forall l: nat :: !LastAddAt(g, ops, l)) || (LastAddAt(g, ops, i) && ops[i].tag !in left) ==>
                  && (forall m: nat :: FirstPresentAt(g, left, m) ==> forall t <- g :: t in final <==> t == g[m])
                  && ((forall t <- g :: t !in left) ==> forall t <- g :: t !in final))
  {
    GroupExclusive(groups, k, tags, ops);
    LastAddIs(groups[k], ops);
    FirstPresentIs(groups[k], After(tags, ops));
  }

  // ---- The display is the resolved set ----

  lemma {:induction false} SlotWinnersFinal(groups: seq<TagGroup>, n: nat, tags: seq<string>, ops: seq<TagOp>, i: nat)
    requires ValidGroups(groups) && n <= |groups|
    ensures forall t :: t in SlotWinners(groups, n, tags, ops, i) ==> t in Final(SetOf(tags), ops, groups)
  {
    if n > 0 {
      SlotWinnersFinal(groups, n - 1, tags, ops, i);
      WinnerSurvives(groups, n - 1, SetOf(tags), ops);
    }
  }

  lemma SlotFinal(tags: seq<string>, ops: seq<TagOp>, groups: seq<TagGroup>, i: nat)
    requires ValidGroups(groups) && i < |tags|
    ensures forall t :: t in Slot(tags, ops, groups, i) ==> t in Final(SetOf(tags), ops, groups)
    ensures tags[i] in Final(SetOf(tags), ops, groups) ==> tags[i] in Slot(tags, ops, groups, i)
  {
    SlotWinnersFinal(groups, |groups|, tags, ops, i);
  }

  lemma SlotJoins(slots: seq<string>, slot: seq<string>, tags: seq<string>, n: nat, final: set<string>)
    requires 0 < n <= |tags| && (forall t :: t in slots || t in slot ==> t in final)
    requires forall k :: 0 <= k < n - 1 && tags[k] in final ==> tags[k] in slots
    requires tags[n - 1] in final ==> tags[n - 1] in slot
    ensures forall t :: t in slots + slot ==> t in final
    ensures forall k :: 0 <= k < n && tags[k] in final ==> tags[k] in slots + slot
  {
  }

  lemma {:induction false} SlotsFinal(tags: seq<string>, ops: seq<TagOp>, groups: seq<TagGroup>, n: nat, final: set<string>)
    requires ValidGroups(groups) && n <= |tags| && final == Final(SetOf(tags), ops, groups)
    ensures forall t :: t in Slots(tags, ops, groups, n) ==> t in final
    ensures forall k :: 0 <= k < n && tags[k] in final ==> tags[k] in Slots(tags, ops, groups, n)
  {
    if n > 0 {
      SlotsFinal(tags, ops, groups, n - 1, final);
      SlotFinal(tags, ops, groups, n - 1);
      SlotJoins(Slots(tags, ops, groups, n - 1), Slot(tags, ops, groups, n - 1), tags, n, final);
    }
  }

  lemma {:induction false} AdditionsFinal(ops: seq<TagOp>, final: set<string>)
    ensures forall t :: t in Additions(ops, final) ==> t in final
    ensures forall k :: 0 <= k < |ops| && ops[k].tag in final ==> ops[k].tag in Additions(ops, final)
  {
    if ops != [] {
      AdditionsFinal(Front(ops), final);
      assert forall k :: 0 <= k < |ops| - 1 ==> ops[k] == Front(ops)[k];
    }
  }

  lemma {:induction false} AfterSource(t: string, tags: set<string>, ops: seq<TagOp>)
    requires t in After(tags, ops)
    ensures t in tags || exists i :: 0 <= i < |ops| && ops[i].tag == t
  {
    if ops != [] && t in After(tags, Front(ops)) {
      AfterSource(t, tags, Front(ops));
    } else if ops != [] {
      assert ops[|ops| - 1].tag == t;
    }
  }

  /** The displayed tags are duplicate-free and are exactly the resolved set. */
  lemma DisplayIsFinal(tags: seq<string>, ops: seq<TagOp>, groups: seq<TagGroup>)
    requires ValidGroups(groups)
    ensures NoDuplicates(Display(tags, ops, groups))
    ensures SetOf(Display(tags, ops, groups)) == Final(SetOf(tags), ops, groups)
  {
    var final := Final(SetOf(tags), ops, groups);
    SlotsFinal(tags, ops, groups, |tags|, final);
    AdditionsFinal(ops, final);
    forall t | t in final ensures t in Display(tags, ops, groups) {
      AfterSource(t, SetOf(tags), ops);
      if t in tags {
        var k :| 0 <= k < |tags| && tags[k] == t;
      }
    }
  }

  // ---- Resolving again changes nothing ----

  lemma {:induction false} FirstPresentStable(g: TagGroup, a: set<string>, b: set<string>)
    requires NoDuplicates(g) && "" !in g
    requires forall t :: t in g && t in b ==> t in a
    requires FirstPresent(g, a) == "" || FirstPresent(g, a) in b
    ensures FirstPresent(g, b) == FirstPresent(g, a)
  {
    if g != [] {
      assert g[0] in g;
      assert forall t :: t in g[1..] ==> t in g;
      FirstPresentMember(g[1..], a);
      if g[0] !in a {
        FirstPresentStable(g[1..], a, b);
      }
    }
  }

  lemma WinnerStable(groups: seq<TagGroup>, k: nat, tags: set<string>, ops: seq<TagOp>)
    requires ValidGroups(groups) && k < |groups| && Touched(groups[k], ops)
    ensures Keep(groups[k], ops, After(Final(tags, ops, groups), ops)) == Keep(groups[k], ops, After(tags, ops))
  {
    var g, a := groups[k], After(tags, ops);
    var final := Final(tags, ops, groups);
    var b := After(final, ops);
    GroupExclusive(groups, k, tags, ops);
    LastAddMember(g, ops);
    FirstPresentMember(g, a);
    var w := Keep(g, ops, a);
    forall t | t in g && t in b ensures t in a {
      AfterVerdict(t, tags, ops);
      AfterVerdict(t, final, ops);
    }
    if w != "" {
      AfterVerdict(w, tags, ops);
      AfterVerdict(w, final, ops);
    }
    var last := LastAdd(g, ops);
    if last != "" {
      AddVerdict(last, ops);
      AfterVerdict(last, tags, ops);
      AfterVerdict(last, final, ops);
    }
    if last == "" || last !in a {
      FirstPresentStable(g, a, b);
    }
  }

  lemma {:induction false} AddVerdict(t: string, ops: seq<TagOp>)
    requires exists i :: 0 <= i < |ops| && ops[i].tag == t
    ensures Verdict(t, ops).Some?
  {
    if ops != [] && Last(ops).tag != t {
      var i :| 0 <= i < |ops| && ops[i].tag == t;
      assert Front(ops)[i].tag == t;
      AddVerdict(t, Front(ops));
    }
  }

  /** Resolution is idempotent: the resolved set resolves to itself under the same ops. */
  lemma FinalIdempotent(tags: set<string>, ops: seq<TagOp>, groups: seq<TagGroup>)
    requires ValidGroups(groups)
    ensures Final(Final(tags, ops, groups), ops, groups) == Final(tags, ops, groups)
  {
    var final := Final(tags, ops, groups);
    var again := Final(final, ops, groups);
    forall t ensures t in again <==> t in final {
      AfterVerdict(t, tags, ops);
      AfterVerdict(t, final, ops);
      if k :| 0 <= k < |groups| && t in groups[k] {
        if Touched(groups[k], ops) {
          WinnerStable(groups, k, tags, ops);
          GroupExclusive(groups, k, tags, ops);
          GroupExclusive(groups, k, final, ops);
        } else {
          UntouchedUnchanged(groups, k, tags, ops, t);
          UntouchedUnchanged(groups, k, final, ops, t);
        }
      } else {
        SoftFollowsLastOp(groups, tags, ops, t);
        SoftFollowsLastOp(groups, final, ops, t);
      }
    }
  }

  // ---- The minimal op set ----

  predicate SortedByTag(ops: seq<TagOp>) {
    forall i, j :: 0 <= i < j < |ops| ==> StringLess(ops[i].tag, ops[j].tag)
  }

  /** The symmetric difference of two tag sets as ops, sorted by tag. */
  ghost predicate IsDiff(a: set<string>, b: set<string>, ops: seq<TagOp>) {
    && SortedByTag(ops)
    && forall t, add :: TagOp(t, add) in ops <==> if add then t in b && t !in a else t in a && t !in b
  }

  function InsertOp(op: TagOp, ops: seq<TagOp>): seq<TagOp> {
    if ops == [] || StringLess(op.tag, ops[0].tag) then [op] + ops else [ops[0]] + InsertOp(op, ops[1..])
  }

  lemma {:induction false} InsertOpSorted(op: TagOp, ops: seq<TagOp>)
    requires SortedByTag(ops) && forall i :: 0 <= i < |ops| ==> ops[i].tag != op.tag
    ensures SortedByTag(InsertOp(op, ops))
    ensures forall o :: o in InsertOp(op, ops) <==> o == op || o in ops
  {
    RankOrders();
    if ops != [] {
      assert ops == [ops[0]] + ops[1..];
      StringLessTotal(op.tag, ops[0].tag);
      if StringLess(op.tag, ops[0].tag) {
        forall j | 0 < j < |ops| ensures StringLess(op.tag, ops[j].tag) {
          StringLessTransitive(op.tag, ops[0].tag, ops[j].tag);
        }
      } else {
        InsertOpSorted(op, ops[1..]);
        var rest := InsertOp(op, ops[1..]);
        forall j | 0 <= j < |rest| ensures StringLess(ops[0].tag, rest[j].tag) {
          assert rest[j] in rest;
        }
      }
    }
  }

  /** diffTags: the sets are walked in any order, the batch is sorted. */
  method DiffTags(a: seq<string>, b: seq<string>) returns (ops: seq<TagOp>)
    ensures IsDiff(SetOf(a), SetOf(b), ops)
  {
    var have, want := SetOf(a), SetOf(b);
    ops := [];
    var rest := want;
    while rest != {}
      invariant rest <= want && SortedByTag(ops)
      invariant forall t, add :: TagOp(t, add) in ops <==> add && t in want - rest && t !in have
      decreases rest
    {
      var t :| t in rest;
      rest := rest - {t};
      if t !in have {
        InsertOpSorted(TagOp(t, true), ops);
        ops := InsertOp(TagOp(t, true), ops);
      }
    }
    rest := have;
    while rest != {}
      invariant rest <= have && SortedByTag(ops)
      invariant forall t, add :: TagOp(t, add) in ops <==> if add then t in want && t !in have else t in have - rest && t !in want
      decreases rest
    {
      var t :| t in rest;
      rest := rest - {t};
      if t !in want {
        forall i | 0 <= i < |ops| ensures ops[i].tag != t {
          assert TagOp(ops[i].tag, ops[i].add) in ops;
        }
        InsertOpSorted(TagOp(t, false), ops);
        ops := InsertOp(TagOp(t, false), ops);
      }
    }
  }

  lemma {:induction false} DiffUnique(a: set<string>, b: set<string>, x: seq<TagOp>, y: seq<TagOp>)
    requires SortedByTag(x) && SortedByTag(y) && forall o :: o in x <==> o in y
    ensures x == y
  {
    RankOrders();
    FirstMember(x);
    FirstMember(y);
    if x != [] {
      if x[0] != y[0] {
        var i :| 0 <= i < |y| && y[i] == x[0];
        var j :| 0 <= j < |x| && x[j] == y[0];
        StringLessTransitive(x[0].tag, y[0].tag, x[0].tag);
        StringLessIrreflexive(x[0].tag);
      }
      forall o ensures o in x[1..] <==> o in y[1..] {
        TailMember(x, o);
        TailMember(y, o);
      }
      DiffUnique(a, b, x[1..], y[1..]);
    }
  }

  lemma FirstMember(x: seq<TagOp>)
    ensures x == [] || TagOp(x[0].tag, x[0].add) in x
  {
  }

  lemma TailMember(x: seq<TagOp>, o: TagOp)
    requires x != [] && SortedByTag(x)
    ensures o in x[1..] <==> o in x && o != x[0]
  {
    if o in x[1..] {
      var i :| 0 <= i < |x[1..]| && x[1..][i] == o;
      assert x[i + 1] == o;
      StringLessIrreflexive(o.tag);
    }
  }

  /** Applying the resolved ops takes the old tags to the new ones. */
  lemma DiffApplies(a: set<string>, b: set<string>, ops: seq<TagOp>)
    requires IsDiff(a, b, ops)
    ensures After(a, ops) == b
  {
    forall t ensures t in After(a, ops) <==> t in b {
      AfterVerdict(t, a, ops);
      VerdictMember(t, ops);
      assert TagOp(t, true) in ops <==> t in b && t !in a;
      assert TagOp(t, false) in ops <==> t in a && t !in b;
    }
  }

  lemma {:induction false} VerdictMember(t: string, ops: seq<TagOp>)
    ensures Verdict(t, ops).Some? ==> TagOp(t, Verdict(t, ops).value) in ops
    ensures Verdict(t, ops).None? ==> forall add :: TagOp(t, add) !in ops
  {
    if ops != [] {
      VerdictMember(t, Front(ops));
      assert ops == Front(ops) + [Last(ops)];
    }
  }

  /** No shorter op list does: every tag that changes needs an op of its own. */
  lemma DiffShortest(a: set<string>, b: set<string>, ops: seq<TagOp>, other: seq<TagOp>)
    requires IsDiff(a, b, ops) && After(a, other) == b
    ensures |ops| <= |other|
  {
    var tags := set i | 0 <= i < |ops| :: ops[i].tag;
    OpTagCount(ops);
    var named := set i | 0 <= i < |other| :: other[i].tag;
    NamedCount(other);
    forall t | t in tags ensures t in named {
      var i :| 0 <= i < |ops| && ops[i].tag == t;
      assert TagOp(t, ops[i].add) in ops;
      AfterVerdict(t, a, other);
      VerdictMember(t, other);
      if t !in named {
        AfterUntouched(t, a, other);
      }
    }
    SubsetCard(tags, named);
  }

  lemma {:induction false} SubsetCard(a: set<string>, b: set<string>)
    requires a <= b
    ensures |a| <= |b|
  {
    assert b == a + (b - a);
  }

  lemma {:induction false} OpTagCount(ops: seq<TagOp>)
    requires SortedByTag(ops)
    ensures |set i | 0 <= i < |ops| :: ops[i].tag| == |ops|
  {
    var tags := set i | 0 <= i < |ops| :: ops[i].tag;
    if ops != [] {
      var front := Front(ops);
      OpTagCount(front);
      assert tags == (set i | 0 <= i < |front| :: front[i].tag) + {Last(ops).tag};
      assert Last(ops).tag !in (set i | 0 <= i < |front| :: front[i].tag) by {
        StringLessIrreflexive(Last(ops).tag);
      }
    }
  }

  lemma {:induction false} NamedCount(ops: seq<TagOp>)
    ensures |set i | 0 <= i < |ops| :: ops[i].tag| <= |ops|
  {
    var tags := set i | 0 <= i < |ops| :: ops[i].tag;
    if ops != [] {
      var front := Front(ops);
      NamedCount(front);
      assert tags == (set i | 0 <= i < |front| :: front[i].tag) + {Last(ops).tag};
    }
  }

  /** Re-resolving the displayed tags with the same ops yields no ops. */
  lemma ResolveAgainIsQuiet(tags: seq<string>, ops: seq<TagOp>, groups: seq<TagGroup>, resolved: seq<TagOp>)
    requires ValidGroups(groups)
    requires var shown := Display(tags, ops, groups);
             IsDiff(SetOf(shown), SetOf(Display(shown, ops, groups)), resolved)
    ensures resolved == []
  {
    var shown := Display(tags, ops, groups);
    DisplayIsFinal(tags, ops, groups);
    DisplayIsFinal(shown, ops, groups);
    FinalIdempotent(SetOf(tags), ops, groups);
    FirstMember(resolved);
  }

  /** The resolved ops lead where the staged ones did: a write may resolve them again. */
  lemma ResolvedAgrees(tags: set<string>, ops: seq<TagOp>, groups: seq<TagGroup>, resolved: seq<TagOp>)
    requires ValidGroups(groups) && IsDiff(tags, Final(tags, ops, groups), resolved)
    ensures Final(tags, resolved, groups) == Final(tags, ops, groups)
  {
    var final := Final(tags, ops, groups);
    DiffApplies(tags, final, resolved);
    forall k, t | 0 <= k < |groups| && t in groups[k] && t in final
      ensures Winner(groups[k], tags, resolved) == "" || Winner(groups[k], tags, resolved) == t
    {
      if Touched(groups[k], resolved) {
        WinnerWins(groups[k], tags, resolved);
        LoneMember(tags, ops, groups, resolved, k);
      }
    }
  }

  /** A group the resolved ops touch is one the staged ops touched, so it has one member left. */
  lemma LoneMember(tags: set<string>, ops: seq<TagOp>, groups: seq<TagGroup>, resolved: seq<TagOp>, k: nat)
    requires ValidGroups(groups) && IsDiff(tags, Final(tags, ops, groups), resolved)
    requires k < |groups| && Touched(groups[k], resolved)
    ensures forall t, u :: t in groups[k] && u in groups[k] && t in Final(tags, ops, groups) && u in Final(tags, ops, groups) ==> t == u
  {
    if Touched(groups[k], ops) {
      GroupExclusive(groups, k, tags, ops);
    } else {
      var i :| 0 <= i < |resolved| && resolved[i].tag in groups[k];
      assert TagOp(resolved[i].tag, resolved[i].add) in resolved;
      UntouchedUnchanged(groups, k, tags, ops, resolved[i].tag);
    }
  }

  // ---- The loops of ResolveOps ----

  method ResolveOps(tags: seq<string>, ops: seq<TagOp>, groups: seq<TagGroup>)
    returns (newTags: seq<string>, resolved: seq<TagOp>)
    requires ValidGroups(groups)
    ensures newTags == Display(tags, ops, groups)
    ensures IsDiff(SetOf(tags), SetOf(newTags), resolved)
  {
    var present, touched, lastAdd := ApplyOps(tags, ops, groups);
    var winners;
    present, winners := DropLosers(SetOf(tags), ops, groups, present, touched, lastAdd);
    newTags := Render(tags, ops, groups, present, winners);
    resolved := DiffTags(tags, newTags);
  }

  /** Applies the ops one by one and notes what each group saw. */
  method ApplyOps(tags: seq<string>, ops: seq<TagOp>, groups: seq<TagGroup>)
    returns (present: set<string>, touched: seq<bool>, lastAdd: seq<string>)
    ensures present == After(SetOf(tags), ops)
    ensures |touched| == |lastAdd| == |groups|
    ensures forall g :: 0 <= g < |groups| ==> touched[g] == Touched(groups[g], ops) && lastAdd[g] == LastAdd(groups[g], ops)
  {
    present := SetOf(tags);
    touched := seq(|groups|, _ => false);
    lastAdd := seq(|groups|, _ => "");
    for n := 0 to |ops|
      invariant present == After(SetOf(tags), ops[..n])
      invariant |touched| == |lastAdd| == |groups|
      invariant forall g :: 0 <= g < |groups| ==>
                  touched[g] == Touched(groups[g], ops[..n]) && lastAdd[g] == LastAdd(groups[g], ops[..n])
    {
      var op := ops[n];
      assert Front(ops[..n + 1]) == ops[..n] && Last(ops[..n + 1]) == op;
      for g := 0 to |groups|
        invariant |touched| == |lastAdd| == |groups|
        invariant forall h :: 0 <= h < |groups| ==>
                    touched[h] == Touched(groups[h], if h < g then ops[..n + 1] else ops[..n])
        invariant forall h :: 0 <= h < |groups| ==>
                    lastAdd[h] == LastAdd(groups[h], if h < g then ops[..n + 1] else ops[..n])
      {
        TouchedStep(groups[g], ops, n);
        if op.tag in groups[g] {
          touched := touched[g := true];
          if op.add {
            lastAdd := lastAdd[g := op.tag];
          }
        }
      }
      if op.add {
        present := present + {op.tag};
      } else {
        present := present - {op.tag};
      }
    }
    assert ops[..|ops|] == ops;
  }

  lemma TouchedStep(g: TagGroup, ops: seq<TagOp>, n: nat)
    requires n < |ops|
    ensures Touched(g, ops[..n + 1]) <==> Touched(g, ops[..n]) || ops[n].tag in g
  {
    if Touched(g, ops[..n]) {
      var i :| 0 <= i < n && ops[..n][i].tag in g;
      assert ops[..n + 1][i].tag in g;
    }
    if ops[n].tag in g {
      assert ops[..n + 1][n].tag in g;
    }
    if Touched(g, ops[..n + 1]) && ops[n].tag !in g {
      var i :| 0 <= i < n + 1 && ops[..n + 1][i].tag in g;
      assert ops[..n][i].tag in g;
    }
  }

  /** Every touched group keeps its winner; the other members leave the set. */
  method DropLosers(tags: set<string>, ops: seq<TagOp>, groups: seq<TagGroup>,
                    after: set<string>, touched: seq<bool>, lastAdd: seq<string>)
    returns (present: set<string>, winners: seq<string>)
    requires ValidGroups(groups) && after == After(tags, ops) && |touched| == |lastAdd| == |groups|
    requires forall g :: 0 <= g < |groups| ==> touched[g] == Touched(groups[g], ops) && lastAdd[g] == LastAdd(groups[g], ops)
    ensures present == Final(tags, ops, groups) && |winners| == |groups|
    ensures forall g :: 0 <= g < |groups| ==> winners[g] == Winner(groups[g], tags, ops)
  {
    present, winners := after, [];
    for g := 0 to |groups|
      invariant |winners| == g && forall h :: 0 <= h < g ==> winners[h] == Winner(groups[h], tags, ops)
      invariant present == set t | t in after && Survives(t, groups, g, tags, ops)
    {
      var keep := "";
      if touched[g] {
        if lastAdd[g] != "" && lastAdd[g] in present {
          keep := lastAdd[g];
        } else {
          keep := FirstIn(groups[g], present);
        }
      }
      StillPresent(groups, g, tags, ops, present);
      winners := winners + [keep];
      if keep != "" {
        present := present - (set t | t in groups[g] && t != keep);
      }
    }
  }

  method FirstIn(g: TagGroup, present: set<string>) returns (keep: string)
    ensures keep == FirstPresent(g, present)
  {
    for i := 0 to |g|
      invariant FirstPresent(g, present) == FirstPresent(g[i..], present)
    {
      assert g[i..][1..] == g[i + 1..];
      if g[i] in present {
        return g[i];
      }
    }
    keep := "";
  }

  /** Earlier groups dropped none of this group's members. */
  lemma StillPresent(groups: seq<TagGroup>, g: nat, tags: set<string>, ops: seq<TagOp>, present: set<string>)
    requires ValidGroups(groups) && g < |groups|
    requires present == set t | t in After(tags, ops) && Survives(t, groups, g, tags, ops)
    ensures Keep(groups[g], ops, present) == Keep(groups[g], ops, After(tags, ops))
    ensures FirstPresent(groups[g], present) == FirstPresent(groups[g], After(tags, ops))
    ensures LastAdd(groups[g], ops) != "" ==> (LastAdd(groups[g], ops) in present <==> LastAdd(groups[g], ops) in After(tags, ops))
  {
    LastAddMember(groups[g], ops);
    assert forall t :: t in groups[g] ==> (t in present <==> t in After(tags, ops));
    FirstPresentSame(groups[g], present, After(tags, ops));
  }

  lemma {:induction false} FirstPresentSame(g: TagGroup, a: set<string>, b: set<string>)
    requires forall t :: t in g ==> (t in a <==> t in b)
    ensures FirstPresent(g, a) == FirstPresent(g, b)
  {
    if g != [] {
      assert g[0] in g && forall t :: t in g[1..] ==> t in g;
      FirstPresentSame(g[1..], a, b);
    }
  }

  lemma DedupStep(s: seq<string>, t: string)
    ensures Dedup(s + [t]) == if t in s then Dedup(s) else Dedup(s) + [t]
  {
    assert Front(s + [t]) == s && Last(s + [t]) == t;
  }

  /** Appends t unless it was seen. */
  method AddUnseen(newTags: seq<string>, seen: set<string>, t: string, ghost raw: seq<string>)
    returns (tags1: seq<string>, seen1: set<string>)
    requires newTags == Dedup(raw) && seen == SetOf(raw)
    ensures tags1 == Dedup(raw + [t]) && seen1 == SetOf(raw + [t])
  {
    DedupStep(raw, t);
    tags1, seen1 := newTags, seen;
    if t !in seen {
      tags1, seen1 := newTags + [t], seen + {t};
    }
  }

  function DropSlot(g: TagGroup, w: string, tags: seq<string>): int {
    var at := FirstDrop(g, w, tags, |tags|);
    if at == |tags| then -1 else at
  }

  /** The input slot where a group's winner renders, or -1. */
  method FirstDropOf(g: TagGroup, w: string, tags: seq<string>) returns (at: int)
    ensures at == DropSlot(g, w, tags)
  {
    for i := 0 to |tags|
      invariant FirstDrop(g, w, tags, i) == |tags|
    {
      if tags[i] in g && tags[i] != w {
        DropStays(g, w, tags, i + 1, |tags|);
        return i;
      }
    }
    at := -1;
  }

  lemma {:induction false} DropStays(g: TagGroup, w: string, tags: seq<string>, n: nat, m: nat)
    requires n <= m <= |tags| && FirstDrop(g, w, tags, n) < n
    ensures FirstDrop(g, w, tags, m) == FirstDrop(g, w, tags, n)
  {
    if n < m {
      DropStays(g, w, tags, n, m - 1);
    }
  }

  /** The winners that render in dropped slot i, in group order. */
  method SlotFill(tags: seq<string>, ghost ops: seq<TagOp>, groups: seq<TagGroup>, winners: seq<string>, drops: seq<int>,
                  i: nat, newTags: seq<string>, seen: set<string>, ghost raw: seq<string>)
    returns (tags1: seq<string>, seen1: set<string>)
    requires |winners| == |drops| == |groups| && i < |tags|
    requires forall g :: 0 <= g < |groups| ==> winners[g] == Winner(groups[g], SetOf(tags), ops)
    requires forall g :: 0 <= g < |groups| && winners[g] != "" ==> drops[g] == DropSlot(groups[g], winners[g], tags)
    requires newTags == Dedup(raw) && seen == SetOf(raw)
    ensures var all := raw + SlotWinners(groups, |groups|, tags, ops, i); tags1 == Dedup(all) && seen1 == SetOf(all)
  {
    tags1, seen1 := newTags, seen;
    ghost var now := raw;
    for g := 0 to |groups|
      invariant now == raw + SlotWinners(groups, g, tags, ops, i)
      invariant tags1 == Dedup(now) && seen1 == SetOf(now)
    {
      if winners[g] != "" && drops[g] == i {
        tags1, seen1 := AddUnseen(tags1, seen1, winners[g], now);
        now := now + [winners[g]];
      }
    }
  }

  /** The display arm. */
  method Render(tags: seq<string>, ops: seq<TagOp>, groups: seq<TagGroup>, present: set<string>, winners: seq<string>)
    returns (newTags: seq<string>)
    requires present == Final(SetOf(tags), ops, groups) && |winners| == |groups|
    requires forall g :: 0 <= g < |groups| ==> winners[g] == Winner(groups[g], SetOf(tags), ops)
    ensures newTags == Display(tags, ops, groups)
  {
    var drops := DropSlots(tags, groups, winners);
    var seen;
    newTags, seen := RenderSlots(tags, ops, groups, present, winners, drops);
    newTags := RenderAdditions(tags, ops, groups, present, newTags, seen);
  }

  method DropSlots(tags: seq<string>, groups: seq<TagGroup>, winners: seq<string>) returns (drops: seq<int>)
    requires |winners| == |groups|
    ensures |drops| == |groups|
    ensures forall g :: 0 <= g < |groups| && winners[g] != "" ==> drops[g] == DropSlot(groups[g], winners[g], tags)
  {
    drops := [];
    for g := 0 to |groups|
      invariant |drops| == g
      invariant forall h :: 0 <= h < g && winners[h] != "" ==> drops[h] == DropSlot(groups[h], winners[h], tags)
    {
      var at := -1;
      if winners[g] != "" {
        at := FirstDropOf(groups[g], winners[g], tags);
      }
      drops := drops + [at];
    }
  }

  method RenderSlots(tags: seq<string>, ghost ops: seq<TagOp>, groups: seq<TagGroup>, present: set<string>,
                     winners: seq<string>, drops: seq<int>)
    returns (newTags: seq<string>, seen: set<string>)
    requires present == Final(SetOf(tags), ops, groups) && |winners| == |drops| == |groups|
    requires forall g :: 0 <= g < |groups| ==> winners[g] == Winner(groups[g], SetOf(tags), ops)
    requires forall g :: 0 <= g < |groups| && winners[g] != "" ==> drops[g] == DropSlot(groups[g], winners[g], tags)
    ensures newTags == Dedup(Slots(tags, ops, groups, |tags|)) && seen == SetOf(Slots(tags, ops, groups, |tags|))
  {
    seen := {};
    newTags := [];
    for i := 0 to |tags|
      invariant newTags == Dedup(Slots(tags, ops, groups, i)) && seen == SetOf(Slots(tags, ops, groups, i))
    {
      ghost var raw := Slots(tags, ops, groups, i);
      if tags[i] !in present {
        newTags, seen := SlotFill(tags, ops, groups, winners, drops, i, newTags, seen, raw);
      } else {
        newTags, seen := AddUnseen(newTags, seen, tags[i], raw);
      }
    }
  }

  method RenderAdditions(tags: seq<string>, ops: seq<TagOp>, ghost groups: seq<TagGroup>, present: set<string>,
                         slots: seq<string>, seen0: set<string>)
    returns (newTags: seq<string>)
    requires present == Final(SetOf(tags), ops, groups)
    requires slots == Dedup(Slots(tags, ops, groups, |tags|)) && seen0 == SetOf(Slots(tags, ops, groups, |tags|))
    ensures newTags == Display(tags, ops, groups)
  {
    ghost var raw := Slots(tags, ops, groups, |tags|);
    ghost var front := raw;
    var seen := seen0;
    newTags := slots;
    for n := 0 to |ops|
      invariant raw == front + Additions(ops[..n], present)
      invariant newTags == Dedup(raw) && seen == SetOf(raw)
    {
      assert Front(ops[..n + 1]) == ops[..n] && Last(ops[..n + 1]) == ops[n];
      if ops[n].tag in present {
        newTags, seen := AddUnseen(newTags, seen, ops[n].tag, raw);
        raw := raw + [ops[n].tag];
      }
    }
    assert ops[..|ops|] == ops;
  }
}
