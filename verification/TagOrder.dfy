/** The order in which a message's resolved tags are displayed (src/core/resolve.go). */
module TagOrder {
  import opened Mail
  import opened Resolve

  /** a stands before b. */
  predicate Before(s: seq<string>, a: string, b: string) {
    exists i, j :: 0 <= i < j < |s| && s[i] == a && s[j] == b
  }

  lemma BeforeExtends(s: seq<string>, more: seq<string>, a: string, b: string)
    requires Before(s, a, b)
    ensures Before(s + more, a, b)
  {
    var i, j :| 0 <= i < j < |s| && s[i] == a && s[j] == b;
    assert (s + more)[i] == a && (s + more)[j] == b;
  }

  lemma BeforeLast(s: seq<string>, a: string, b: string)
    requires a in s
    ensures Before(s + [b], a, b)
  {
    var i :| 0 <= i < |s| && s[i] == a;
    assert (s + [b])[i] == a && (s + [b])[|s|] == b;
  }

  /** First occurrences keep their order: what one part holds comes before what only a later part holds. */
  lemma {:induction false} DedupOrders(x: seq<string>, y: seq<string>, a: string, b: string)
    requires a in x && b !in x && b in y
    ensures Before(Dedup(x + y), a, b)
  {
    var s := x + y;
    assert Last(s) == Last(y) && Front(s) == x + Front(y);
    assert a in Front(s);
    if b in Front(y) {
      DedupOrders(x, Front(y), a, b);
      BeforeExtends(Dedup(Front(s)), [Last(s)], a, b);
    } else {
      assert b == Last(s) && b !in Front(s);
      BeforeLast(Dedup(Front(s)), a, b);
    }
  }

  // ---- What sits in the slots ----

  /** Every group of the tag is left alone by the ops. */
  predicate Loose(t: string, groups: seq<TagGroup>, ops: seq<TagOp>) {
    forall g :: 0 <= g < |groups| && t in groups[g] ==> !Touched(groups[g], ops)
  }

  /** Group g's winner takes the place of its first dropped member, the i-th tag. */
  predicate Replaces(groups: seq<TagGroup>, g: nat, tags: seq<string>, ops: seq<TagOp>, i: nat, t: string) {
    && g < |groups| && t != "" && Winner(groups[g], SetOf(tags), ops) == t
    && FirstDrop(groups[g], t, tags, |tags|) == i
  }

  lemma {:induction false} SlotWinnersAre(groups: seq<TagGroup>, n: nat, tags: seq<string>, ops: seq<TagOp>, i: nat, t: string)
    requires n <= |groups|
    ensures t in SlotWinners(groups, n, tags, ops, i) <==> exists g: nat :: g < n && Replaces(groups, g, tags, ops, i, t)
  {
    if n > 0 {
      SlotWinnersAre(groups, n - 1, tags, ops, i, t);
      var w := Winner(groups[n - 1], SetOf(tags), ops);
      var own := if w != "" && FirstDrop(groups[n - 1], w, tags, |tags|) == i then [w] else [];
      assert t in own <==> Replaces(groups, n - 1, tags, ops, i, t);
    }
  }

  lemma LooseNeverReplaces(groups: seq<TagGroup>, tags: seq<string>, ops: seq<TagOp>, i: nat, t: string)
    requires Loose(t, groups, ops)
    ensures t !in SlotWinners(groups, |groups|, tags, ops, i)
  {
    SlotWinnersAre(groups, |groups|, tags, ops, i, t);
    forall g: nat | Replaces(groups, g, tags, ops, i, t) ensures false {
      WinnerWins(groups[g], SetOf(tags), ops);
    }
  }

  lemma {:induction false} SlotsHold(tags: seq<string>, ops: seq<TagOp>, groups: seq<TagGroup>, n: nat, t: string)
    requires n <= |tags|
    ensures t in Slots(tags, ops, groups, n) <==> exists i: nat :: i < n && t in Slot(tags, ops, groups, i)
  {
    if n > 0 {
      SlotsHold(tags, ops, groups, n - 1, t);
    }
  }

  lemma {:induction false} SlotsSplit(tags: seq<string>, ops: seq<TagOp>, groups: seq<TagGroup>, n: nat, m: nat) returns (rest: seq<string>)
    requires n <= m <= |tags|
    ensures Slots(tags, ops, groups, m) == Slots(tags, ops, groups, n) + rest
  {
    if m == n {
      rest := [];
    } else {
      rest := SlotsSplit(tags, ops, groups, n, m - 1);
      assert Slots(tags, ops, groups, n) + (rest + Slot(tags, ops, groups, m - 1)) == Slots(tags, ops, groups, n) + rest + Slot(tags, ops, groups, m - 1);
      rest := rest + Slot(tags, ops, groups, m - 1);
    }
  }

  lemma PartsOrder(x: seq<string>, y: seq<string>, z: seq<string>, a: string, b: string)
    requires a in x && b !in x && b in x + y + z
    ensures Before(Dedup(x + y + z), a, b)
  {
    assert x + y + z == x + (y + z);
    DedupOrders(x, y + z, a, b);
  }

  /** What sits in an early slot is displayed before what sits in no slot up to then, and later. */
  lemma SlotOrders(tags: seq<string>, ops: seq<TagOp>, groups: seq<TagGroup>, i: nat, a: string, b: string)
    requires i < |tags| && a in Slot(tags, ops, groups, i) && forall k :: 0 <= k <= i ==> b !in Slot(tags, ops, groups, k)
    requires b in Slots(tags, ops, groups, |tags|) + Additions(ops, Final(SetOf(tags), ops, groups))
    ensures Before(Display(tags, ops, groups), a, b)
  {
    var x := Slots(tags, ops, groups, i + 1);
    var rest := SlotsSplit(tags, ops, groups, i + 1, |tags|);
    assert a in x && b !in x by {
      SlotsHold(tags, ops, groups, i + 1, a);
      SlotsHold(tags, ops, groups, i + 1, b);
    }
    PartsOrder(x, rest, Additions(ops, Final(SetOf(tags), ops, groups)), a, b);
  }

  // ---- The display order ----

  lemma StaysOut(tags: seq<string>, ops: seq<TagOp>, groups: seq<TagGroup>, i: nat, t: string)
    requires i < |tags| && tags[i] != t && Loose(t, groups, ops)
    ensures t !in Slot(tags, ops, groups, i)
  {
    LooseNeverReplaces(groups, tags, ops, i, t);
  }

  /** Tags the ops leave alone keep the order they had. */
  lemma SurvivorsKeepOrder(tags: seq<string>, ops: seq<TagOp>, groups: seq<TagGroup>, i: nat, j: nat)
    requires NoDuplicates(tags) && i < j < |tags| && Loose(tags[j], groups, ops)
    requires tags[i] in Final(SetOf(tags), ops, groups) && tags[j] in Final(SetOf(tags), ops, groups)
    ensures Before(Display(tags, ops, groups), tags[i], tags[j])
  {
    forall k | 0 <= k <= i ensures tags[j] !in Slot(tags, ops, groups, k) {
      StaysOut(tags, ops, groups, k, tags[j]);
    }
    SlotsHold(tags, ops, groups, |tags|, tags[j]);
    assert tags[j] in Slot(tags, ops, groups, j);
    SlotOrders(tags, ops, groups, i, tags[i], tags[j]);
  }

  /** New tags come after every tag that stays. */
  lemma AdditionsFollow(tags: seq<string>, ops: seq<TagOp>, groups: seq<TagGroup>, i: nat, t: string)
    requires ValidGroups(groups) && i < |tags| && tags[i] in Final(SetOf(tags), ops, groups)
    requires t !in tags && t in Final(SetOf(tags), ops, groups) && Loose(t, groups, ops)
    ensures Before(Display(tags, ops, groups), tags[i], t)
  {
    forall k | 0 <= k <= i ensures t !in Slot(tags, ops, groups, k) {
      StaysOut(tags, ops, groups, k, t);
    }
    AfterIs(t, SetOf(tags), ops);
    AdditionsFinal(ops, Final(SetOf(tags), ops, groups));
    SlotOrders(tags, ops, groups, i, tags[i], t);
  }

  lemma {:induction false} FirstDropIs(g: TagGroup, w: string, tags: seq<string>, n: nat, i: nat)
    requires i < n <= |tags| && tags[i] in g && tags[i] != w && forall k :: 0 <= k < i ==> tags[k] !in g || tags[k] == w
    ensures FirstDrop(g, w, tags, n) == i
  {
    if n > i + 1 {
      FirstDropIs(g, w, tags, n - 1, i);
    } else {
      NoDropBefore(g, w, tags, i);
    }
  }

  lemma {:induction false} NoDropBefore(g: TagGroup, w: string, tags: seq<string>, n: nat)
    requires n <= |tags| && forall k :: 0 <= k < n ==> tags[k] !in g || tags[k] == w
    ensures FirstDrop(g, w, tags, n) == |tags|
  {
    if n > 0 {
      NoDropBefore(g, w, tags, n - 1);
    }
  }

  /** The i-th tag is the group's first, and the ops leave the group with w instead, which is new. */
  predicate Switched(tags: seq<string>, ops: seq<TagOp>, groups: seq<TagGroup>, g: nat, i: nat, w: string) {
    && g < |groups| && i < |tags| && w in groups[g] && w !in tags && w in Final(SetOf(tags), ops, groups)
    && tags[i] in groups[g] && forall k :: 0 <= k < i ==> tags[k] !in groups[g]
  }

  /** The new member is the group's winner, and sits in the dropped one's slot and in no other. */
  lemma SwitchedSlot(tags: seq<string>, ops: seq<TagOp>, groups: seq<TagGroup>, g: nat, i: nat, w: string)
    requires ValidGroups(groups) && Switched(tags, ops, groups, g, i, w)
    ensures w in Slot(tags, ops, groups, i)
    ensures forall k :: 0 <= k < |tags| && k != i ==> w !in Slot(tags, ops, groups, k)
  {
    AfterIs(w, SetOf(tags), ops);
    assert Touched(groups[g], ops);
    GroupExclusive(groups, g, SetOf(tags), ops);
    assert Winner(groups[g], SetOf(tags), ops) == w != "";
    FirstDropIs(groups[g], w, tags, |tags|, i);
    assert tags[i] !in Final(SetOf(tags), ops, groups);
    SlotWinnersAre(groups, |groups|, tags, ops, i, w);
    assert Replaces(groups, g, tags, ops, i, w);
    forall k | 0 <= k < |tags| && k != i ensures w !in Slot(tags, ops, groups, k) {
      SlotWinnersAre(groups, |groups|, tags, ops, k, w);
      forall h: nat | Replaces(groups, h, tags, ops, k, w) ensures false {
        WinnerWins(groups[h], SetOf(tags), ops);
      }
    }
  }

  /** A switched group's new member takes the place of the old one among the tags the ops leave alone. */
  lemma SwitchTakesPlace(tags: seq<string>, ops: seq<TagOp>, groups: seq<TagGroup>, g: nat, i: nat, w: string, j: nat)
    requires ValidGroups(groups) && NoDuplicates(tags) && Switched(tags, ops, groups, g, i, w)
    requires j < |tags| && j != i && tags[j] in Final(SetOf(tags), ops, groups) && Loose(tags[j], groups, ops)
    ensures Before(Display(tags, ops, groups), if j < i then tags[j] else w, if j < i then w else tags[j])
  {
    SwitchedSlot(tags, ops, groups, g, i, w);
    if j < i {
      SlotsHold(tags, ops, groups, |tags|, w);
      SlotOrders(tags, ops, groups, j, tags[j], w);
    } else {
      forall k | 0 <= k <= i ensures tags[j] !in Slot(tags, ops, groups, k) {
        StaysOut(tags, ops, groups, k, tags[j]);
      }
      assert tags[j] in Slot(tags, ops, groups, j);
      SlotsHold(tags, ops, groups, |tags|, tags[j]);
      SlotOrders(tags, ops, groups, i, w, tags[j]);
    }
  }
}
