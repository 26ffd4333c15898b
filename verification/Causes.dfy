/** Why the rules give a message a tag, and which folder it moves to (src/filter/filter.go). */
module Causes {
  import opened Mail
  import opened Classify
  import opened Resolve

  // ---- The account ----

  /** The path lies in the account's folder space. */
  predicate LiesUnder(e: Engine, a: nat, path: string)
    requires a < |e.accounts|
  {
    HasPrefix(path, e.accounts[a].acc.folder + "/")
  }

  /** The p-th path is the first that lies in any account's space, and account a the first it lies in. */
  predicate PlacedAt(e: Engine, paths: seq<string>, p: nat, a: nat) {
    && p < |paths| && a < |e.accounts| && LiesUnder(e, a, paths[p])
    && (forall b :: 0 <= b < a ==> !LiesUnder(e, b, paths[p]))
    && (forall q, b :: 0 <= q < p && 0 <= b < |e.accounts| ==> !LiesUnder(e, b, paths[q]))
  }

  lemma {:induction false} AccountAtIs(e: Engine, n: nat, path: string) returns (a: nat)
    requires n <= |e.accounts| && forall b :: 0 <= b < n ==> !LiesUnder(e, b, path)
    ensures var r := AccountAt(e.accounts[n..], path);
            if r.None? then forall b :: 0 <= b < |e.accounts| ==> !LiesUnder(e, b, path)
            else a < |e.accounts| && r == Some(e.accounts[a]) && LiesUnder(e, a, path) && forall b :: 0 <= b < a ==> !LiesUnder(e, b, path)
    decreases |e.accounts| - n
  {
    a := n;
    if n < |e.accounts| && !LiesUnder(e, n, path) {
      assert e.accounts[n..][1..] == e.accounts[n + 1..];
      a := AccountAtIs(e, n + 1, path);
    }
  }

  lemma {:induction false} AccountFrom(e: Engine, paths: seq<string>, n: nat) returns (p: nat, a: nat)
    requires n <= |paths| && forall q, b :: 0 <= q < n && 0 <= b < |e.accounts| ==> !LiesUnder(e, b, paths[q])
    ensures var r := AccountOf(e, paths[n..]);
            if r.None? then forall q, b :: 0 <= q < |paths| && 0 <= b < |e.accounts| ==> !LiesUnder(e, b, paths[q])
            else PlacedAt(e, paths, p, a) && r == Some(e.accounts[a])
    decreases |paths| - n
  {
    p, a := n, 0;
    if n < |paths| {
      assert e.accounts[0..] == e.accounts && paths[n..][0] == paths[n];
      a := AccountAtIs(e, 0, paths[n]);
      if AccountAt(e.accounts, paths[n]).None? {
        assert paths[n..][1..] == paths[n + 1..];
        p, a := AccountFrom(e, paths, n + 1);
      }
    }
  }

  /** A message belongs to the account of its first path that lies in any account's folder space, and
      to none when no path does. */
  lemma AccountIs(e: Engine, paths: seq<string>, p: nat, a: nat)
    ensures PlacedAt(e, paths, p, a) ==> AccountOf(e, paths) == Some(e.accounts[a])
    ensures AccountOf(e, paths) == None <==> forall q, b :: 0 <= q < |paths| && 0 <= b < |e.accounts| ==> !LiesUnder(e, b, paths[q])
  {
    assert paths[0..] == paths;
    var q, b := AccountFrom(e, paths, 0);
    if PlacedAt(e, paths, p, a) && PlacedAt(e, paths, q, b) {
      assert p == q && a == b;
    }
  }

  // ---- The tags ----

  /** Some group up to the n-th lists the tag, and a file of the message lies where it lives. */
  ghost predicate FolderCause(e: Engine, ar: AccountRule, paths: seq<string>, glob: (string, string) -> bool, n: nat, t: string) {
    Located(ar, paths, glob, t) && exists g :: 0 <= g < n && g < |e.emissions| && t in e.emissions[g]
  }

  /** One of the first n header rules hits the message and adds the tag, which it does not carry. */
  predicate HeaderCause(e: Engine, hits: seq<bool>, tags: seq<string>, n: nat, t: string)
    requires n <= |e.headerRules| && |hits| == |e.headerRules|
  {
    t !in tags && exists k :: 0 <= k < n && hits[k] && t in e.headerRules[k].add
  }

  lemma {:induction false} FolderTagsAre(e: Engine, ar: AccountRule, paths: seq<string>, glob: (string, string) -> bool, n: nat, t: string)
    requires n <= |e.emissions|
    ensures t in FolderTags(e, ar, paths, glob, n) <==> FolderCause(e, ar, paths, glob, n, t)
  {
    if n > 0 {
      FolderTagsAre(e, ar, paths, glob, n - 1, t);
      FilterIn(e.emissions[n - 1], Here(ar, paths, glob));
    }
  }

  lemma {:induction false} HeaderTagsAre(e: Engine, hits: seq<bool>, tags: seq<string>, n: nat, t: string)
    requires n <= |e.headerRules| && |hits| == |e.headerRules|
    ensures t in HeaderTags(e, hits, tags, n) <==> HeaderCause(e, hits, tags, n, t)
  {
    if n > 0 {
      HeaderTagsAre(e, hits, tags, n - 1, t);
      FilterIn(e.headerRules[n - 1].add, Missing(tags));
    }
  }

  /** The account's own tag, when the message does not carry it. */
  predicate AccountCause(ar: AccountRule, tags: seq<string>, t: string) {
    t == ar.acc.folder && t !in tags
  }

  /** The rules add exactly the tags with a cause: the account's, a folder's, a header rule's; the
      first two only for a message some account owns. */
  lemma TagCauses(e: Engine, m: Message, hits: seq<bool>, glob: (string, string) -> bool, t: string)
    requires |hits| == |e.headerRules|
    ensures var ar := AccountOf(e, m.paths);
            t in RuleTags(e, m, hits, glob) <==>
              || (ar.Some? && AccountCause(ar.value, m.tags, t))
              || (ar.Some? && FolderCause(e, ar.value, m.paths, glob, |e.emissions|, t))
              || HeaderCause(e, hits, m.tags, |e.headerRules|, t)
  {
    HeaderTagsAre(e, hits, m.tags, |e.headerRules|, t);
    var ar := AccountOf(e, m.paths);
    if ar.Some? {
      FolderTagsAre(e, ar.value, m.paths, glob, |e.emissions|, t);
    }
  }

  /** Classification takes no soft tag away, and adds exactly those with a cause. */
  lemma SoftOutcome(e: Engine, m: Message, hits: seq<bool>, glob: (string, string) -> bool, t: string)
    requires ValidGroups(e.groups) && SoftRules(e) && |hits| == |e.headerRules| && InNoGroup(t, e.groups)
    ensures t in Outcome(e, m, hits, glob) <==> t in m.tags || t in RuleTags(e, m, hits, glob)
  {
    if t in m.tags || t in RuleTags(e, m, hits, glob) {
      SoftLands(e, m, hits, glob, t);
    } else {
      var adds := Dedup(RuleTags(e, m, hits, glob));
      DisplayIsFinal(m.tags, Adds(adds), e.groups);
      AfterAdds(SetOf(m.tags), adds);
      assert t !in SetOf(Outcome(e, m, hits, glob));
    }
  }

  // ---- The move ----

  predicate AddsHomed(op: TagOp, ar: AccountRule) {
    op.add && op.tag in ar.rules
  }

  /** The account has folders for the tag, and no file of the message lies in one. */
  predicate Misplaced(tag: string, ar: AccountRule, paths: seq<string>, glob: (string, string) -> bool) {
    tag in ar.rules && ar.rules[tag] != [] && !InFolder(paths, ar.acc.folder, ar.rules[tag], glob)
  }

  lemma {:induction false} FirstAddedIs(ops: seq<TagOp>, ar: AccountRule)
    ensures forall i :: 0 <= i < |ops| && AddsHomed(ops[i], ar) && (forall j :: 0 <= j < i ==> !AddsHomed(ops[j], ar)) ==>
              FirstAdded(ops, ar.rules) == ops[i].tag
    ensures (forall i :: 0 <= i < |ops| ==> !AddsHomed(ops[i], ar)) ==> FirstAdded(ops, ar.rules) == ""
  {
    if ops != [] && !AddsHomed(ops[0], ar) {
      FirstAddedIs(ops[1..], ar);
      assert forall i :: 1 <= i < |ops| ==> ops[i] == ops[1..][i - 1];
    }
  }

  lemma {:induction false} FirstAwayIs(tags: seq<string>, ar: AccountRule, paths: seq<string>, glob: (string, string) -> bool)
    ensures forall i :: 0 <= i < |tags| && Misplaced(tags[i], ar, paths, glob) && (forall j :: 0 <= j < i ==> !Misplaced(tags[j], ar, paths, glob)) ==>
              FirstAway(tags, ar, paths, glob) == tags[i]
    ensures (forall i :: 0 <= i < |tags| ==> !Misplaced(tags[i], ar, paths, glob)) ==> FirstAway(tags, ar, paths, glob) == ""
  {
    if tags != [] && !Misplaced(tags[0], ar, paths, glob) {
      FirstAwayIs(tags[1..], ar, paths, glob);
      assert forall i :: 1 <= i < |tags| ==> tags[i] == tags[1..][i - 1];
    }
  }

  /** A message follows the first tag it gains that has folders; gaining none, the first tag it ends up
      with that has folders none of its files lies in; else it stays. No rule is for the empty tag. */
  lemma MoveFollows(ar: AccountRule, ops: seq<TagOp>, final: seq<string>, paths: seq<string>, glob: (string, string) -> bool, i: nat)
    requires "" !in ar.rules
    ensures i < |ops| && AddsHomed(ops[i], ar) && (forall j :: 0 <= j < i ==> !AddsHomed(ops[j], ar)) ==>
              MoveTag(ar, ops, final, paths, glob) == ops[i].tag
    ensures (forall j :: 0 <= j < |ops| ==> !AddsHomed(ops[j], ar)) ==>
              && (i < |final| && Misplaced(final[i], ar, paths, glob) && (forall j :: 0 <= j < i ==> !Misplaced(final[j], ar, paths, glob)) ==>
                    MoveTag(ar, ops, final, paths, glob) == final[i])
              && ((forall j :: 0 <= j < |final| ==> !Misplaced(final[j], ar, paths, glob)) ==> MoveTag(ar, ops, final, paths, glob) == "")
  {
    FirstAddedIs(ops, ar);
    FirstAwayIs(final, ar, paths, glob);
  }
}
