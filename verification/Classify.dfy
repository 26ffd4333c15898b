/** Rule classification of mail (src/filter/filter.go). */
module Classify {
  import opened Mail
  import opened Resolve

  /** Folder-group emission order, lowest priority first: the last member added wins. */
  const FOLDER_EMISSION: seq<string> := ["inbox", "spam", "pending", "draft", "sent", "deleted", "archive"]

  datatype Account = Account(
    name: string, readOnly: bool, folder: string,
    moves: map<string, seq<string>>, preset: map<string, seq<string>>, folders: map<string, string>)

  /** A content rule: the soft tags it adds where its query hits. */
  datatype HeaderRule = HeaderRule(add: seq<string>)

  datatype AccountRule = AccountRule(acc: Account, rules: map<string, seq<string>>, inbox: seq<string>)

  datatype Engine = Engine(
    groups: seq<TagGroup>, emissions: seq<seq<string>>, accounts: seq<AccountRule>, headerRules: seq<HeaderRule>)

  /** Moves override the preset, the preset the detected folders. */
  function Candidates(a: Account, tag: string): seq<string> {
    if tag in a.moves then a.moves[tag]
    else if tag in a.preset then a.preset[tag]
    else if tag in a.folders && a.folders[tag] != "" then [a.folders[tag]]
    else []
  }

  function Filter(s: seq<string>, keep: string -> bool): seq<string> {
    if s == [] then [] else Filter(Front(s), keep) + (if keep(Last(s)) then [Last(s)] else [])
  }

  function MemberOf(g: seq<string>): string -> bool {
    t => t in g
  }

  function IsCustom(): string -> bool {
    t => t !in FOLDER_EMISSION
  }

  /** Custom tags first, in group order, then the folder tags by rising priority. */
  function Emission(g: TagGroup): seq<string> {
    Filter(g, IsCustom()) + Filter(FOLDER_EMISSION, MemberOf(g))
  }

  /** The folder tags of an account that have somewhere to live. */
  ghost predicate RulesFor(a: Account, groups: seq<TagGroup>, ar: AccountRule) {
    && ar.acc == a
    && (forall t :: t in ar.rules <==> t != "inbox" && Candidates(a, t) != [] && exists g :: 0 <= g < |groups| && t in groups[g])
    && (forall t :: t in ar.rules ==> ar.rules[t] == Candidates(a, t))
    && ar.inbox == if exists g :: 0 <= g < |groups| && "inbox" in groups[g] then Candidates(a, "inbox") else []
  }

  ghost predicate BuiltFrom(e: Engine, groups: seq<TagGroup>, accounts: seq<Account>) {
    && e.groups == groups && |e.emissions| == |groups| && |e.accounts| == |accounts|
    && (forall g :: 0 <= g < |groups| ==> e.emissions[g] == Emission(groups[g]))
    && (forall a :: 0 <= a < |accounts| ==> RulesFor(accounts[a], groups, e.accounts[a]))
  }

  /** Resolves the emission orders and the account rules once. */
  method New(groups: seq<TagGroup>, accounts: seq<Account>, headerRules: seq<HeaderRule>) returns (e: Engine)
    ensures BuiltFrom(e, groups, accounts) && e.headerRules == headerRules
  {
    var emissions := [];
    for g := 0 to |groups|
      invariant |emissions| == g && forall h :: 0 <= h < g ==> emissions[h] == Emission(groups[h])
    {
      var order := EmissionOrder(groups[g]);
      emissions := emissions + [order];
    }
    var accs := [];
    for a := 0 to |accounts|
      invariant |accs| == a && forall b :: 0 <= b < a ==> RulesFor(accounts[b], groups, accs[b])
    {
      var ar := ResolveRules(accounts[a], groups);
      accs := accs + [ar];
    }
    e := Engine(groups, emissions, accs, headerRules);
  }

  method EmissionOrder(g: TagGroup) returns (order: seq<string>)
    ensures order == Emission(g)
  {
    order := [];
    for i := 0 to |g|
      invariant order == Filter(g[..i], IsCustom())
    {
      assert Front(g[..i + 1]) == g[..i];
      if g[i] !in FOLDER_EMISSION {
        order := order + [g[i]];
      }
    }
    assert g[..|g|] == g;
    ghost var head := order;
    for i := 0 to |FOLDER_EMISSION|
      invariant order == head + Filter(FOLDER_EMISSION[..i], MemberOf(g))
    {
      assert Front(FOLDER_EMISSION[..i + 1]) == FOLDER_EMISSION[..i];
      if FOLDER_EMISSION[i] in g {
        order := order + [FOLDER_EMISSION[i]];
      }
    }
    assert FOLDER_EMISSION[..|FOLDER_EMISSION|] == FOLDER_EMISSION;
  }

  method ResolveRules(a: Account, groups: seq<TagGroup>) returns (ar: AccountRule)
    ensures RulesFor(a, groups, ar)
  {
    var rules: map<string, seq<string>> := map[];
    var inbox: seq<string> := [];
    for g := 0 to |groups|
      invariant forall t :: t in rules <==> t != "inbox" && Candidates(a, t) != [] && exists h :: 0 <= h < g && t in groups[h]
      invariant forall t :: t in rules ==> rules[t] == Candidates(a, t)
      invariant inbox == if exists h :: 0 <= h < g && "inbox" in groups[h] then Candidates(a, "inbox") else []
    {
      ghost var before := rules;
      ghost var inboxBefore := inbox;
      for i := 0 to |groups[g]|
        invariant forall t :: t in rules <==> t in before || (t != "inbox" && Candidates(a, t) != [] && t in groups[g][..i])
        invariant forall t :: t in rules ==> rules[t] == Candidates(a, t)
        invariant inbox == if "inbox" in groups[g][..i] then Candidates(a, "inbox") else inboxBefore
      {
        var tag := groups[g][i];
        assert forall t :: t in groups[g][..i + 1] <==> t in groups[g][..i] || t == tag;
        if tag == "inbox" {
          inbox := Candidates(a, tag);
        } else if Candidates(a, tag) != [] {
          rules := rules[tag := Candidates(a, tag)];
        }
      }
      assert groups[g][..|groups[g]|] == groups[g];
    }
    ar := AccountRule(a, rules, inbox);
  }

  // ---- Locations ----

  predicate HasPrefix(s: string, p: string) {
    p <= s
  }

  /** The first segment of a relative path. */
  function FirstSegment(s: string): string {
    if s == "" || s[0] == '/' then "" else [s[0]] + FirstSegment(s[1..])
  }

  predicate IsGlob(c: string) {
    '*' in c || '?' in c || '[' in c
  }

  /** A path relative to the folder space lies in one of the candidates; glob matches a first segment. */
  predicate InCandidate(rel: string, c: string, glob: (string, string) -> bool) {
    || rel == c
    || HasPrefix(rel, c + "/")
    || (IsGlob(c) && glob(c, FirstSegment(rel)))
  }

  predicate InFolder(paths: seq<string>, folder: string, cs: seq<string>, glob: (string, string) -> bool) {
    exists p, c :: 0 <= p < |paths| && 0 <= c < |cs| && HasPrefix(paths[p], folder + "/")
                   && InCandidate(paths[p][|folder| + 1..], cs[c], glob)
  }

  /** The account whose folder space holds the first path that lies in any. */
  function AccountOf(e: Engine, paths: seq<string>): Option<AccountRule> {
    if paths == [] then None
    else
      var here := AccountAt(e.accounts, paths[0]);
      if here.Some? then here else AccountOf(e, paths[1..])
  }

  function AccountAt(accs: seq<AccountRule>, path: string): Option<AccountRule> {
    if accs == [] then None
    else if HasPrefix(path, accs[0].acc.folder + "/") then Some(accs[0])
    else AccountAt(accs[1..], path)
  }

  function HomesOf(ar: AccountRule, tag: string): seq<string> {
    if tag in ar.rules && ar.rules[tag] != [] then ar.rules[tag]
    else if tag == "inbox" then ar.inbox
    else []
  }

  /** A file of the message lies where the tag lives. */
  predicate Located(ar: AccountRule, paths: seq<string>, glob: (string, string) -> bool, tag: string) {
    HomesOf(ar, tag) != [] && InFolder(paths, ar.acc.folder, HomesOf(ar, tag), glob)
  }

  // ---- The rule emissions ----

  function Here(ar: AccountRule, paths: seq<string>, glob: (string, string) -> bool): string -> bool {
    t => Located(ar, paths, glob, t)
  }

  function Missing(tags: seq<string>): string -> bool {
    t => t !in tags
  }

  function Adds(tags: seq<string>): (ops: seq<TagOp>)
    ensures |ops| == |tags| && forall i :: 0 <= i < |ops| ==> ops[i] == TagOp(tags[i], true)
  {
    seq(|tags|, i requires 0 <= i < |tags| => TagOp(tags[i], true))
  }

  /** The located tags of the first n groups, in emission order. */
  function FolderTags(e: Engine, ar: AccountRule, paths: seq<string>, glob: (string, string) -> bool, n: nat): seq<string>
    requires n <= |e.emissions|
  {
    if n == 0 then []
    else FolderTags(e, ar, paths, glob, n - 1) + Filter(e.emissions[n - 1], Here(ar, paths, glob))
  }

  /** The tags the first n header rules add and the message lacks. */
  function HeaderTags(e: Engine, hits: seq<bool>, tags: seq<string>, n: nat): seq<string>
    requires n <= |e.headerRules| && |hits| == |e.headerRules|
  {
    if n == 0 then []
    else HeaderTags(e, hits, tags, n - 1) + (if hits[n - 1] then Filter(e.headerRules[n - 1].add, Missing(tags)) else [])
  }

  /** Every tag the rules add to the message, in emission order: account, folders, headers. */
  function RuleTags(e: Engine, m: Message, hits: seq<bool>, glob: (string, string) -> bool): seq<string>
    requires |hits| == |e.headerRules|
  {
    var ar := AccountOf(e, m.paths);
    (if ar.Some? then
       (if ar.value.acc.folder in m.tags then [] else [ar.value.acc.folder])
         + FolderTags(e, ar.value, m.paths, glob, |e.emissions|)
     else []) + HeaderTags(e, hits, m.tags, |e.headerRules|)
  }

  datatype Entry = Entry(id: string, account: string, folder: string, paths: seq<string>, ops: seq<TagOp>)

  predicate ReadOnly(e: Engine, m: Message) {
    AccountOf(e, m.paths).Some? && AccountOf(e, m.paths).value.acc.readOnly
  }

  /** The tags after classification. */
  function Outcome(e: Engine, m: Message, hits: seq<bool>, glob: (string, string) -> bool): seq<string>
    requires |hits| == |e.headerRules|
  {
    Display(m.tags, Adds(Dedup(RuleTags(e, m, hits, glob))), e.groups)
  }

  // ---- The loops of classify ----

  /** The first added tag that has a folder to move to. */
  function FirstAdded(ops: seq<TagOp>, rules: map<string, seq<string>>): string {
    if ops == [] then "" else if ops[0].add && ops[0].tag in rules then ops[0].tag else FirstAdded(ops[1..], rules)
  }

  /** The first carried tag whose folder holds no file of the message. */
  function FirstAway(tags: seq<string>, ar: AccountRule, paths: seq<string>, glob: (string, string) -> bool): string {
    if tags == [] then ""
    else if tags[0] in ar.rules && ar.rules[tags[0]] != [] && !InFolder(paths, ar.acc.folder, ar.rules[tags[0]], glob) then tags[0]
    else FirstAway(tags[1..], ar, paths, glob)
  }

  /** The tag whose folder the files must follow to, or "". */
  function MoveTag(ar: AccountRule, resolved: seq<TagOp>, final: seq<string>, paths: seq<string>, glob: (string, string) -> bool): string {
    var added := FirstAdded(resolved, ar.rules);
    if added != "" then added else FirstAway(final, ar, paths, glob)
  }

  method Classify(e: Engine, m: Message, hits: seq<bool>, glob: (string, string) -> bool) returns (entry: Entry)
    requires ValidGroups(e.groups) && |hits| == |e.headerRules|
    ensures ReadOnly(e, m) ==> entry.ops == [] && entry.folder == ""
    ensures !ReadOnly(e, m) ==> IsDiff(SetOf(m.tags), SetOf(Outcome(e, m, hits, glob)), entry.ops)
    ensures !ReadOnly(e, m) ==>
              var ar := AccountOf(e, m.paths);
              entry.folder == if ar.None? then "" else MoveTag(ar.value, entry.ops, Outcome(e, m, hits, glob), m.paths, glob)
    ensures entry.ops != [] || entry.folder != "" ==> entry.id == m.id && entry.paths == m.paths
  {
    var ar := AccountOf(e, m.paths);
    if ar.Some? && ar.value.acc.readOnly {
      return Entry(m.id, "", "", [], []);
    }
    var raw := Emit(e, m, hits, glob);
    var uniq := Unique(raw);
    var final, resolved := ResolveOps(m.tags, Adds(uniq), e.groups);
    var folder := "";
    if ar.Some? {
      folder := FindMoveTag(ar.value, resolved, final, m.paths, glob);
    }
    if uniq == [] && folder == "" {
      NoAddsNoOps(m.tags, e.groups, resolved);
      return Entry("", "", "", [], []);
    }
    entry := Entry(m.id, if ar.Some? then ar.value.acc.name else "", folder, m.paths, resolved);
  }

  method Emit(e: Engine, m: Message, hits: seq<bool>, glob: (string, string) -> bool) returns (raw: seq<string>)
    requires |hits| == |e.headerRules|
    ensures raw == RuleTags(e, m, hits, glob)
  {
    var ar := AccountOf(e, m.paths);
    raw := [];
    if ar.Some? {
      if ar.value.acc.folder !in m.tags {
        raw := [ar.value.acc.folder];
      }
      var located := EmitFolders(e, ar.value, m.paths, glob);
      raw := raw + located;
    }
    var header := EmitHeaders(e, hits, m.tags);
    raw := raw + header;
  }

  method EmitFolders(e: Engine, ar: AccountRule, paths: seq<string>, glob: (string, string) -> bool) returns (raw: seq<string>)
    ensures raw == FolderTags(e, ar, paths, glob, |e.emissions|)
  {
    raw := [];
    for g := 0 to |e.emissions|
      invariant raw == FolderTags(e, ar, paths, glob, g)
    {
      var located := EmitGroup(e.emissions[g], ar, paths, glob);
      raw := raw + located;
    }
  }

  method EmitGroup(order: seq<string>, ar: AccountRule, paths: seq<string>, glob: (string, string) -> bool) returns (raw: seq<string>)
    ensures raw == Filter(order, Here(ar, paths, glob))
  {
    raw := [];
    for i := 0 to |order|
      invariant raw == Filter(order[..i], Here(ar, paths, glob))
    {
      assert Front(order[..i + 1]) == order[..i];
      var cs := HomesOf(ar, order[i]);
      if cs != [] && InFolder(paths, ar.acc.folder, cs, glob) {
        raw := raw + [order[i]];
      }
    }
    assert order[..|order|] == order;
  }

  method EmitHeaders(e: Engine, hits: seq<bool>, tags: seq<string>) returns (raw: seq<string>)
    requires |hits| == |e.headerRules|
    ensures raw == HeaderTags(e, hits, tags, |e.headerRules|)
  {
    raw := [];
    for r := 0 to |e.headerRules|
      invariant raw == HeaderTags(e, hits, tags, r)
    {
      if hits[r] {
        ghost var before := raw;
        var add := e.headerRules[r].add;
        for i := 0 to |add|
          invariant raw == before + Filter(add[..i], Missing(tags))
        {
          assert Front(add[..i + 1]) == add[..i];
          if add[i] !in tags {
            raw := raw + [add[i]];
          }
        }
        assert add[..|add|] == add;
      }
    }
  }

  /** One op per tag: the first emission wins. */
  method Unique(raw: seq<string>) returns (uniq: seq<string>)
    ensures uniq == Dedup(raw)
  {
    uniq := [];
    var seen: set<string> := {};
    for i := 0 to |raw|
      invariant uniq == Dedup(raw[..i]) && seen == SetOf(raw[..i])
    {
      assert raw[..i + 1] == raw[..i] + [raw[i]];
      uniq, seen := AddUnseen(uniq, seen, raw[i], raw[..i]);
    }
    assert raw[..|raw|] == raw;
  }

  method FindMoveTag(ar: AccountRule, resolved: seq<TagOp>, final: seq<string>, paths: seq<string>, glob: (string, string) -> bool)
    returns (folder: string)
    ensures folder == MoveTag(ar, resolved, final, paths, glob)
  {
    var i := 0;
    while i < |resolved| && !(resolved[i].add && resolved[i].tag in ar.rules)
      invariant 0 <= i <= |resolved| && FirstAdded(resolved, ar.rules) == FirstAdded(resolved[i..], ar.rules)
    {
      i := i + 1;
    }
    folder := if i < |resolved| then resolved[i].tag else "";
    if folder == "" {
      i := 0;
      while i < |final| && !(final[i] in ar.rules && ar.rules[final[i]] != [] && !InFolder(paths, ar.acc.folder, ar.rules[final[i]], glob))
        invariant 0 <= i <= |final| && FirstAway(final, ar, paths, glob) == FirstAway(final[i..], ar, paths, glob)
      {
        i := i + 1;
      }
      folder := if i < |final| then final[i] else "";
    }
  }

  lemma NoAddsNoOps(tags: seq<string>, groups: seq<TagGroup>, resolved: seq<TagOp>)
    requires ValidGroups(groups) && IsDiff(SetOf(tags), SetOf(Display(tags, [], groups)), resolved)
    ensures resolved == []
  {
    DisplayIsFinal(tags, [], groups);
    assert SetOf(Display(tags, [], groups)) == SetOf(tags);
    FirstMember(resolved);
  }

  // ---- The fixpoint ----

  predicate InNoGroup(t: string, groups: seq<TagGroup>) {
    forall g :: 0 <= g < |groups| ==> t !in groups[g]
  }

  /** Header rules add soft tags only, and account tags lie outside every group. */
  ghost predicate SoftRules(e: Engine) {
    && (forall r, i :: 0 <= r < |e.headerRules| && 0 <= i < |e.headerRules[r].add| ==> InNoGroup(e.headerRules[r].add[i], e.groups))
    && (forall a :: 0 <= a < |e.accounts| ==> InNoGroup(e.accounts[a].acc.folder, e.groups))
    && |e.emissions| == |e.groups| && forall g :: 0 <= g < |e.groups| ==> e.emissions[g] == Emission(e.groups[g])
  }

  lemma {:induction false} FilterIn(s: seq<string>, p: string -> bool)
    ensures forall t :: t in Filter(s, p) <==> t in s && p(t)
  {
    if s != [] {
      FilterIn(Front(s), p);
      assert forall t :: t in s <==> t in Front(s) || t == Last(s);
    }
  }

  lemma {:induction false} FilterAppend(a: seq<string>, b: seq<string>, p: string -> bool)
    ensures Filter(a + b, p) == Filter(a, p) + Filter(b, p)
  {
    if b == [] {
      assert a + b == a;
    } else {
      assert Front(a + b) == a + Front(b);
      FilterAppend(a, Front(b), p);
    }
  }

  lemma {:induction false} FilterNone(s: seq<string>, p: string -> bool)
    requires forall i :: 0 <= i < |s| ==> !p(s[i])
    ensures Filter(s, p) == []
  {
    if s != [] {
      FilterNone(Front(s), p);
    }
  }

  lemma {:induction false} FilterAll(s: seq<string>, p: string -> bool)
    requires forall i :: 0 <= i < |s| ==> p(s[i])
    ensures Filter(s, p) == s
  {
    if s != [] {
      var front, last := s[..|s| - 1], s[|s| - 1];
      assert p(last);
      forall i | 0 <= i < |front| ensures p(front[i]) {
        assert front[i] == s[i];
      }
      FilterAll(front, p);
      FilterStep(front, last, p);
      assert s == front + [last];
    }
  }

  lemma FilterStep(s: seq<string>, t: string, p: string -> bool)
    ensures Filter(s + [t], p) == Filter(s, p) + (if p(t) then [t] else [])
  {
    assert Front(s + [t]) == s && Last(s + [t]) == t;
  }

  lemma DedupFilterStep(front: seq<string>, t: string, p: string -> bool)
    requires Filter(Dedup(front), p) == Dedup(Filter(front, p))
    ensures Filter(Dedup(front + [t]), p) == Dedup(Filter(front + [t], p))
  {
    DedupStep(front, t);
    FilterStep(front, t, p);
    FilterStep(Dedup(front), t, p);
    var kept := Filter(front, p);
    FilterIn(front, p);
    DedupStep(kept, t);
    if !p(t) {
      assert kept + [] == kept && Filter(Dedup(front), p) + [] == Filter(Dedup(front), p);
    } else if t in front {
      assert t in kept;
    } else {
      assert t !in kept;
    }
  }

  lemma {:induction false} DedupFilter(s: seq<string>, p: string -> bool)
    ensures Filter(Dedup(s), p) == Dedup(Filter(s, p))
  {
    if s != [] {
      DedupFilter(Front(s), p);
      DedupFilterStep(Front(s), Last(s), p);
      assert s == Front(s) + [Last(s)];
    }
  }

  lemma {:induction false} AfterAdds(tags: set<string>, adds: seq<string>)
    ensures After(tags, Adds(adds)) == tags + SetOf(adds)
  {
    if adds != [] {
      assert Front(Adds(adds)) == Adds(Front(adds));
      assert forall t :: t in adds <==> t in Front(adds) || t == Last(adds);
      AfterAdds(tags, Front(adds));
    }
  }

  /** For added tags, what a group sees are the added members, in order. */
  lemma {:induction false} GroupSees(g: TagGroup, adds: seq<string>)
    ensures var seen := Filter(adds, MemberOf(g));
            && (Touched(g, Adds(adds)) <==> seen != [])
            && LastAdd(g, Adds(adds)) == if seen == [] then "" else Last(seen)
  {
    var ops := Adds(adds);
    FilterIn(adds, MemberOf(g));
    if adds != [] {
      assert Front(ops) == Adds(Front(adds)) && Last(ops) == TagOp(Last(adds), true);
      GroupSees(g, Front(adds));
      TouchedStep(g, ops, |ops| - 1);
      assert ops[..|ops| - 1 + 1] == ops;
    }
  }

  lemma EmissionIn(g: TagGroup)
    ensures forall t :: t in Emission(g) <==> t in g
  {
    FilterIn(g, IsCustom());
    FilterIn(FOLDER_EMISSION, MemberOf(g));
  }

  lemma OwnSeen(groups: seq<TagGroup>, n: nat, k: nat, p: string -> bool)
    requires ValidGroups(groups) && n < |groups| && k < |groups|
    ensures var own := Filter(Emission(groups[n]), p);
            Filter(own, MemberOf(groups[k])) == if n == k then own else []
  {
    var own := Filter(Emission(groups[n]), p);
    FilterIn(Emission(groups[n]), p);
    EmissionIn(groups[n]);
    assert forall i :: 0 <= i < |own| ==> own[i] in own;
    if n == k {
      FilterAll(own, MemberOf(groups[k]));
    } else {
      FilterNone(own, MemberOf(groups[k]));
    }
  }

  predicate EmitsAs(e: Engine, g: nat)
    requires g < |e.emissions| && g < |e.groups|
  {
    e.emissions[g] == Emission(e.groups[g])
  }

  /** What group k sees of the folder tags of the first n groups. */
  function SeenBy(e: Engine, ar: AccountRule, paths: seq<string>, glob: (string, string) -> bool, n: nat, k: nat): seq<string>
    requires n <= |e.emissions| && k < |e.groups|
  {
    Filter(FolderTags(e, ar, paths, glob, n), MemberOf(e.groups[k]))
  }

  lemma SeenStep(e: Engine, ar: AccountRule, paths: seq<string>, glob: (string, string) -> bool, n: nat, k: nat)
    requires ValidGroups(e.groups) && n < |e.emissions| == |e.groups| && k < |e.groups| && EmitsAs(e, n)
    ensures SeenBy(e, ar, paths, glob, n + 1, k) ==
              SeenBy(e, ar, paths, glob, n, k) + if n == k then Filter(e.emissions[k], Here(ar, paths, glob)) else []
  {
    FilterAppend(FolderTags(e, ar, paths, glob, n), Filter(e.emissions[n], Here(ar, paths, glob)), MemberOf(e.groups[k]));
    OwnSeen(e.groups, n, k, Here(ar, paths, glob));
  }

  /** A list that grows at step k only. */
  lemma {:induction false} GrowsOnce(seen: nat -> seq<string>, own: seq<string>, n: nat, k: nat)
    requires seen(0) == [] && forall i: nat :: i < n ==> seen(i + 1) == seen(i) + if i == k then own else []
    ensures seen(n) == if k < n then own else []
  {
    if n > 0 {
      GrowsOnce(seen, own, n - 1, k);
      assert seen(n - 1 + 1) == seen(n - 1) + if n - 1 == k then own else [];
    }
  }

  /** Group k sees exactly its own located tags, in its emission order. */
  lemma FolderTagsOf(e: Engine, ar: AccountRule, paths: seq<string>, glob: (string, string) -> bool, n: nat, k: nat)
    requires ValidGroups(e.groups) && n <= |e.emissions| == |e.groups| && k < |e.groups|
    requires forall g {:trigger EmitsAs(e, g)} :: 0 <= g < |e.groups| ==> EmitsAs(e, g)
    ensures SeenBy(e, ar, paths, glob, n, k) == if k < n then Filter(e.emissions[k], Here(ar, paths, glob)) else []
  {
    var own := Filter(e.emissions[k], Here(ar, paths, glob));
    var seen: nat -> seq<string> := (i: nat) => if i <= n then SeenBy(e, ar, paths, glob, i, k) else [];
    forall i: nat | i < n ensures seen(i + 1) == seen(i) + if i == k then own else [] {
      assert EmitsAs(e, i);
      SeenStep(e, ar, paths, glob, i, k);
    }
    GrowsOnce(seen, own, n, k);
  }

  /** The tags the folder rules emit for the message. */
  function Folders(e: Engine, m: Message, glob: (string, string) -> bool): seq<string> {
    var ar := AccountOf(e, m.paths);
    if ar.Some? then FolderTags(e, ar.value, m.paths, glob, |e.emissions|) else []
  }

  lemma {:induction false} AccountListed(e: Engine, paths: seq<string>)
    ensures AccountOf(e, paths).Some? ==> AccountOf(e, paths).value in e.accounts
  {
    if paths != [] {
      AccountAtListed(e.accounts, paths[0]);
      AccountListed(e, paths[1..]);
    }
  }

  lemma {:induction false} AccountAtListed(accs: seq<AccountRule>, path: string)
    ensures AccountAt(accs, path).Some? ==> AccountAt(accs, path).value in accs
  {
    if accs != [] {
      AccountAtListed(accs[1..], path);
    }
  }

  lemma {:induction false} HeaderTagsSoft(e: Engine, hits: seq<bool>, tags: seq<string>, n: nat)
    requires SoftRules(e) && n <= |e.headerRules| && |hits| == |e.headerRules|
    ensures forall t :: t in HeaderTags(e, hits, tags, n) ==> InNoGroup(t, e.groups) && t !in tags
  {
    if n > 0 {
      HeaderTagsSoft(e, hits, tags, n - 1);
      FilterIn(e.headerRules[n - 1].add, Missing(tags));
    }
  }

  /** Tags a message already carries are not emitted again. */
  lemma {:induction false} HeaderTagsQuiet(e: Engine, hits: seq<bool>, tags: seq<string>, later: seq<string>, n: nat)
    requires n <= |e.headerRules| && |hits| == |e.headerRules|
    requires forall t :: t in tags || t in HeaderTags(e, hits, tags, n) ==> t in later || InAGroup(e, t)
    requires forall r, i :: 0 <= r < n && 0 <= i < |e.headerRules[r].add| ==> !InAGroup(e, e.headerRules[r].add[i])
    ensures HeaderTags(e, hits, later, n) == []
  {
    if n > 0 {
      HeaderTagsQuiet(e, hits, tags, later, n - 1);
      if hits[n - 1] {
        var add := e.headerRules[n - 1].add;
        FilterIn(add, Missing(tags));
        forall i | 0 <= i < |add| ensures add[i] in later {
          assert add[i] in add;
          assert !InAGroup(e, e.headerRules[n - 1].add[i]);
        }
        FilterNone(add, Missing(later));
      }
    }
  }

  predicate InAGroup(e: Engine, t: string) {
    !InNoGroup(t, e.groups)
  }

  lemma AccountSoft(e: Engine, m: Message)
    requires SoftRules(e)
    ensures var ar := AccountOf(e, m.paths); ar.Some? ==> InNoGroup(ar.value.acc.folder, e.groups)
  {
    AccountListed(e, m.paths);
  }

  /** Of all the emissions, a group sees its located folder tags only. */
  lemma GroupsSeeFolders(e: Engine, m: Message, hits: seq<bool>, glob: (string, string) -> bool, k: nat)
    requires SoftRules(e) && |hits| == |e.headerRules| && k < |e.groups|
    ensures Filter(RuleTags(e, m, hits, glob), MemberOf(e.groups[k])) == Filter(Folders(e, m, glob), MemberOf(e.groups[k]))
  {
    var p, ar := MemberOf(e.groups[k]), AccountOf(e, m.paths);
    var headers := HeaderTags(e, hits, m.tags, |e.headerRules|);
    HeaderTagsSoft(e, hits, m.tags, |e.headerRules|);
    assert forall i :: 0 <= i < |headers| ==> headers[i] in headers;
    FilterNone(headers, p);
    AccountSoft(e, m);
    if ar.Some? {
      var own := if ar.value.acc.folder in m.tags then [] else [ar.value.acc.folder];
      FilterNone(own, p);
      FilterMiddle(own, Folders(e, m, glob), headers, p);
    } else {
      assert [] + headers == headers && Filter(headers, p) == [];
    }
  }

  lemma FilterMiddle(a: seq<string>, b: seq<string>, c: seq<string>, p: string -> bool)
    requires Filter(a, p) == [] && Filter(c, p) == []
    ensures Filter(a + b + c, p) == Filter(b, p)
  {
    FilterAppend(a, b, p);
    FilterAppend(a + b, c, p);
  }

  /** Two emissions that every group sees alike and that add the same tags resolve alike. */
  lemma SameOutcome(groups: seq<TagGroup>, tags: set<string>, a: seq<string>, b: seq<string>)
    requires forall k :: 0 <= k < |groups| ==> Filter(a, MemberOf(groups[k])) == Filter(b, MemberOf(groups[k]))
    requires tags + SetOf(a) == tags + SetOf(b)
    ensures Final(tags, Adds(a), groups) == Final(tags, Adds(b), groups)
  {
    AfterAdds(tags, a);
    AfterAdds(tags, b);
    forall k | 0 <= k < |groups| ensures Winner(groups[k], tags, Adds(a)) == Winner(groups[k], tags, Adds(b)) {
      GroupSees(groups[k], a);
      GroupSees(groups[k], b);
    }
  }

  lemma RuleTagsMember(e: Engine, m: Message, hits: seq<bool>, glob: (string, string) -> bool, t: string)
    requires SoftRules(e) && |hits| == |e.headerRules|
    ensures t in RuleTags(e, m, hits, glob) ==>
              t in Folders(e, m, glob) || (InNoGroup(t, e.groups) && (t in HeaderTags(e, hits, m.tags, |e.headerRules|) || IsAccountTag(e, m, t)))
    ensures t in Folders(e, m, glob) || t in HeaderTags(e, hits, m.tags, |e.headerRules|) ==> t in RuleTags(e, m, hits, glob)
    ensures IsAccountTag(e, m, t) && t !in m.tags ==> t in RuleTags(e, m, hits, glob)
  {
    HeaderTagsSoft(e, hits, m.tags, |e.headerRules|);
    AccountSoft(e, m);
  }

  predicate IsAccountTag(e: Engine, m: Message, t: string) {
    AccountOf(e, m.paths).Some? && t == AccountOf(e, m.paths).value.acc.folder
  }

  /** Soft tags that were carried or emitted are carried afterwards. */
  lemma SoftLands(e: Engine, m: Message, hits: seq<bool>, glob: (string, string) -> bool, t: string)
    requires ValidGroups(e.groups) && SoftRules(e) && |hits| == |e.headerRules|
    requires InNoGroup(t, e.groups) && (t in m.tags || t in RuleTags(e, m, hits, glob))
    ensures t in Outcome(e, m, hits, glob)
  {
    var adds := Dedup(RuleTags(e, m, hits, glob));
    DisplayIsFinal(m.tags, Adds(adds), e.groups);
    AfterAdds(SetOf(m.tags), adds);
    assert t in SetOf(Outcome(e, m, hits, glob));
  }

  lemma HeadersQuietAfter(e: Engine, m: Message, later: seq<string>, hits: seq<bool>, glob: (string, string) -> bool)
    requires ValidGroups(e.groups) && SoftRules(e) && |hits| == |e.headerRules|
    requires forall t :: t in Outcome(e, m, hits, glob) ==> t in later
    ensures HeaderTags(e, hits, later, |e.headerRules|) == []
  {
    forall t | (t in m.tags || t in HeaderTags(e, hits, m.tags, |e.headerRules|)) && InNoGroup(t, e.groups)
      ensures t in later
    {
      RuleTagsMember(e, m, hits, glob, t);
      SoftLands(e, m, hits, glob, t);
    }
    HeaderTagsQuiet(e, hits, m.tags, later, |e.headerRules|);
  }

  lemma AccountQuietAfter(e: Engine, m: Message, hits: seq<bool>, glob: (string, string) -> bool)
    requires ValidGroups(e.groups) && SoftRules(e) && |hits| == |e.headerRules|
    ensures AccountOf(e, m.paths).Some? ==> AccountOf(e, m.paths).value.acc.folder in Outcome(e, m, hits, glob)
  {
    var ar := AccountOf(e, m.paths);
    AccountSoft(e, m);
    if ar.Some? {
      RuleTagsMember(e, m, hits, glob, ar.value.acc.folder);
      SoftLands(e, m, hits, glob, ar.value.acc.folder);
    }
  }

  /** After classification only folder tags are emitted again. */
  lemma EmitsFoldersOnly(e: Engine, m: Message, m2: Message, hits: seq<bool>, glob: (string, string) -> bool)
    requires ValidGroups(e.groups) && SoftRules(e) && |hits| == |e.headerRules|
    requires m2.paths == m.paths && SetOf(m2.tags) == SetOf(Outcome(e, m, hits, glob))
    ensures RuleTags(e, m2, hits, glob) == Folders(e, m, glob)
  {
    forall t | t in Outcome(e, m, hits, glob) ensures t in m2.tags {
      assert t in SetOf(m2.tags);
    }
    HeadersQuietAfter(e, m, m2.tags, hits, glob);
    AccountQuietAfter(e, m, hits, glob);
    NothingButFolders(e, m, m2, hits, glob);
  }

  lemma NothingButFolders(e: Engine, m: Message, m2: Message, hits: seq<bool>, glob: (string, string) -> bool)
    requires |hits| == |e.headerRules| && m2.paths == m.paths
    requires HeaderTags(e, hits, m2.tags, |e.headerRules|) == []
    requires AccountOf(e, m.paths).Some? ==> AccountOf(e, m.paths).value.acc.folder in m2.tags
    ensures RuleTags(e, m2, hits, glob) == Folders(e, m, glob)
  {
    var ar := AccountOf(e, m.paths);
    if ar.Some? {
      assert RuleTags(e, m2, hits, glob) == [] + FolderTags(e, ar.value, m.paths, glob, |e.emissions|) + [];
    }
  }

  /** Classification is a fixpoint: once an entry's ops landed, and while its files stay and the rule hits hold,
      classifying the message again yields no ops. */
  lemma ClassifyFixpoint(e: Engine, m: Message, m2: Message, hits: seq<bool>, glob: (string, string) -> bool,
                         ops: seq<TagOp>, again: seq<TagOp>)
    requires ValidGroups(e.groups) && SoftRules(e) && |hits| == |e.headerRules|
    requires IsDiff(SetOf(m.tags), SetOf(Outcome(e, m, hits, glob)), ops)
    requires m2.paths == m.paths && SetOf(m2.tags) == After(SetOf(m.tags), ops)
    requires IsDiff(SetOf(m2.tags), SetOf(Outcome(e, m2, hits, glob)), again)
    ensures again == []
  {
    DiffApplies(SetOf(m.tags), SetOf(Outcome(e, m, hits, glob)), ops);
    EmitsFoldersOnly(e, m, m2, hits, glob);
    var first, second := Dedup(RuleTags(e, m, hits, glob)), Dedup(Folders(e, m, glob));
    var landed := SetOf(m2.tags);
    DisplayIsFinal(m.tags, Adds(first), e.groups);
    DisplayIsFinal(m2.tags, Adds(second), e.groups);
    FinalIdempotent(SetOf(m.tags), Adds(first), e.groups);
    forall k | 0 <= k < |e.groups| ensures Filter(first, MemberOf(e.groups[k])) == Filter(second, MemberOf(e.groups[k])) {
      GroupsSeeFolders(e, m, hits, glob, k);
      DedupFilter(RuleTags(e, m, hits, glob), MemberOf(e.groups[k]));
      DedupFilter(Folders(e, m, glob), MemberOf(e.groups[k]));
    }
    assert landed + SetOf(first) == landed + SetOf(second) by {
      forall t ensures t in landed + SetOf(first) <==> t in landed + SetOf(second) {
        RuleTagsMember(e, m, hits, glob, t);
        if t in RuleTags(e, m, hits, glob) && t !in Folders(e, m, glob) {
          SoftLands(e, m, hits, glob, t);
        }
      }
    }
    SameOutcome(e.groups, landed, first, second);
    FirstMember(again);
  }

  /** The folder tag that survives in a group is the last one, in emission order, that a file of the message lives under. */
  lemma SurvivingFolder(e: Engine, m: Message, hits: seq<bool>, glob: (string, string) -> bool, k: nat)
    requires ValidGroups(e.groups) && SoftRules(e) && |hits| == |e.headerRules| && k < |e.groups|
    requires AccountOf(e, m.paths).Some?
    ensures var located := Filter(e.emissions[k], Here(AccountOf(e, m.paths).value, m.paths, glob));
            forall t :: t in e.groups[k] ==>
              (t in Outcome(e, m, hits, glob) <==> if located == [] then t in m.tags else t == Last(located))
  {
    var ar := AccountOf(e, m.paths).value;
    var located := Filter(e.emissions[k], Here(ar, m.paths, glob));
    var adds := Dedup(RuleTags(e, m, hits, glob));
    DisplayIsFinal(m.tags, Adds(adds), e.groups);
    GroupsSeeFolders(e, m, hits, glob, k);
    FolderTagsOf(e, ar, m.paths, glob, |e.emissions|, k);
    DedupFilter(RuleTags(e, m, hits, glob), MemberOf(e.groups[k]));
    LocatedDistinct(e.groups[k], Here(ar, m.paths, glob));
    GroupSees(e.groups[k], adds);
    assert forall t :: t in Outcome(e, m, hits, glob) <==> t in SetOf(Outcome(e, m, hits, glob));
    if located != [] {
      AfterAdds(SetOf(m.tags), adds);
      FilterIn(adds, MemberOf(e.groups[k]));
      assert Last(located) in located;
      GroupExclusive(e.groups, k, SetOf(m.tags), Adds(adds));
    } else {
      forall t | t in e.groups[k] ensures t in Outcome(e, m, hits, glob) <==> t in m.tags {
        UntouchedUnchanged(e.groups, k, SetOf(m.tags), Adds(adds), t);
      }
    }
  }

  lemma {:induction false} FilterDistinct(s: seq<string>, p: string -> bool)
    requires NoDuplicates(s)
    ensures NoDuplicates(Filter(s, p))
  {
    if s != [] {
      FilterDistinct(Front(s), p);
      FilterIn(Front(s), p);
    }
  }

  lemma {:induction false} DedupDistinct(s: seq<string>)
    requires NoDuplicates(s)
    ensures Dedup(s) == s
  {
    if s != [] {
      DedupDistinct(Front(s));
    }
  }

  lemma LocatedDistinct(g: TagGroup, p: string -> bool)
    requires NoDuplicates(g)
    ensures Dedup(Filter(Emission(g), p)) == Filter(Emission(g), p)
  {
    FilterDistinct(g, IsCustom());
    FilterDistinct(FOLDER_EMISSION, MemberOf(g));
    FilterIn(g, IsCustom());
    FilterIn(FOLDER_EMISSION, MemberOf(g));
    assert NoDuplicates(Emission(g)) by {
      var a, b := Filter(g, IsCustom()), Filter(FOLDER_EMISSION, MemberOf(g));
      forall i, j | 0 <= i < j < |a + b| ensures (a + b)[i] != (a + b)[j] {
        assert i < |a| ==> a[i] in a;
        assert j >= |a| ==> b[j - |a|] in b;
      }
    }
    FilterDistinct(Emission(g), p);
    DedupDistinct(Filter(Emission(g), p));
  }

  // ---- Which folder tag survives ----

  /** c is a place the account keeps the tag's mail in: its moves override its preset, which overrides
      the folder found for the tag. */
  predicate IsHome(a: Account, tag: string, c: string) {
    if tag in a.moves then c in a.moves[tag]
    else if tag in a.preset then c in a.preset[tag]
    else tag in a.folders && c == a.folders[tag] && c != ""
  }

  /** The path is the place, lies below it, or has a first segment the place's pattern matches; both
      below the account's folder. */
  ghost predicate LiesIn(a: Account, path: string, c: string, glob: (string, string) -> bool) {
    a.folder + "/" <= path &&
    var rel := path[|a.folder| + 1..];
    || rel == c || c + "/" <= rel
    || (('*' in c || '?' in c || '[' in c) && exists seg :: IsFirstSegment(seg, rel) && glob(c, seg))
  }

  predicate IsFirstSegment(seg: string, rel: string) {
    '/' !in seg && (seg == rel || seg + "/" <= rel)
  }

  /** Some file of the message lies where the account keeps the tag. */
  ghost predicate Lives(a: Account, paths: seq<string>, glob: (string, string) -> bool, tag: string) {
    exists p: nat, c :: p < |paths| && IsHome(a, tag, c) && LiesIn(a, paths[p], c, glob)
  }

  lemma {:induction false} FirstSegmentIs(rel: string)
    ensures forall seg :: IsFirstSegment(seg, rel) <==> seg == FirstSegment(rel)
  {
    if rel == "" || rel[0] == '/' {
      forall seg | seg != "" ensures !IsFirstSegment(seg, rel) {
        assert seg[0] in seg;
      }
    } else {
      FirstSegmentIs(rel[1..]);
      var first := FirstSegment(rel[1..]);
      assert IsFirstSegment(first, rel[1..]);
      SegmentGrows(first, rel);
      forall seg | IsFirstSegment(seg, rel) ensures seg == [rel[0]] + first {
        SegmentShrinks(seg, rel);
      }
    }
  }

  lemma SegmentGrows(first: string, rel: string)
    requires rel != "" && rel[0] != '/' && IsFirstSegment(first, rel[1..])
    ensures IsFirstSegment([rel[0]] + first, rel)
  {
    if first != rel[1..] {
      assert ([rel[0]] + first) + "/" == [rel[0]] + (first + "/");
      assert rel == [rel[0]] + rel[1..];
    }
  }

  lemma SegmentShrinks(seg: string, rel: string)
    requires rel != "" && rel[0] != '/' && IsFirstSegment(seg, rel)
    ensures seg != "" && seg[0] == rel[0] && IsFirstSegment(seg[1..], rel[1..])
  {
    assert seg != "" by {
      assert ("" + "/")[0] == '/';
    }
    if seg != rel {
      assert (seg + "/")[1..] == seg[1..] + "/";
    }
  }

  lemma HomesAre(a: Account, groups: seq<TagGroup>, ar: AccountRule, g: nat, tag: string)
    requires RulesFor(a, groups, ar) && g < |groups| && tag in groups[g]
    ensures forall c :: c in HomesOf(ar, tag) <==> IsHome(a, tag, c)
  {
  }

  lemma InCandidateLies(a: Account, path: string, c: string, glob: (string, string) -> bool)
    ensures LiesIn(a, path, c, glob) <==> HasPrefix(path, a.folder + "/") && InCandidate(path[|a.folder| + 1..], c, glob)
  {
    if a.folder + "/" <= path {
      FirstSegmentIs(path[|a.folder| + 1..]);
    }
  }

  lemma LocatedLives(a: Account, groups: seq<TagGroup>, ar: AccountRule, g: nat, paths: seq<string>, glob: (string, string) -> bool, tag: string)
    requires RulesFor(a, groups, ar) && g < |groups| && tag in groups[g]
    ensures Located(ar, paths, glob, tag) <==> Lives(a, paths, glob, tag)
  {
    HomesAre(a, groups, ar, g, tag);
    var cs := HomesOf(ar, tag);
    if Located(ar, paths, glob, tag) {
      var p, c :| 0 <= p < |paths| && 0 <= c < |cs| && HasPrefix(paths[p], a.folder + "/") && InCandidate(paths[p][|a.folder| + 1..], cs[c], glob);
      InCandidateLies(a, paths[p], cs[c], glob);
      assert cs[c] in cs;
    }
    if Lives(a, paths, glob, tag) {
      var p: nat, c :| p < |paths| && IsHome(a, tag, c) && LiesIn(a, paths[p], c, glob);
      InCandidateLies(a, paths[p], c, glob);
      assert c in cs;
      var i :| 0 <= i < |cs| && cs[i] == c;
      assert InFolder(paths, a.folder, cs, glob);
    }
  }

  predicate IsFolderName(t: string) {
    t == "archive" || t == "deleted" || t == "sent" || t == "draft" || t == "pending" || t == "spam" || t == "inbox"
  }

  lemma {:induction false} FilterTwice(s: seq<string>, p: string -> bool, q: string -> bool, both: string -> bool)
    requires forall t :: both(t) <==> p(t) && q(t)
    ensures Filter(Filter(s, p), q) == Filter(s, both)
  {
    if s != [] {
      FilterTwice(Front(s), p, q, both);
      FilterAppend(Filter(Front(s), p), if p(Last(s)) then [Last(s)] else [], q);
      if p(Last(s)) {
        FilterStep([], Last(s), q);
        assert [] + [Last(s)] == [Last(s)];
      }
    }
  }

  /** Of the tags of a group that pass, in emission order, the last one is the strongest folder tag, or
      without any the last custom tag. */
  ghost predicate Strongest(g: TagGroup, p: string -> bool, t: string) {
    && t in g && p(t)
    && (t == "deleted" ==> !Has(g, p, "archive"))
    && (t == "sent" ==> !Has(g, p, "archive") && !Has(g, p, "deleted"))
    && (t == "draft" ==> !Has(g, p, "archive") && !Has(g, p, "deleted") && !Has(g, p, "sent"))
    && (t == "pending" ==> !Has(g, p, "archive") && !Has(g, p, "deleted") && !Has(g, p, "sent") && !Has(g, p, "draft"))
    && (t == "spam" ==> !Has(g, p, "archive") && !Has(g, p, "deleted") && !Has(g, p, "sent") && !Has(g, p, "draft") && !Has(g, p, "pending"))
    && (t == "inbox" || !IsFolderName(t) ==>
          !Has(g, p, "archive") && !Has(g, p, "deleted") && !Has(g, p, "sent") && !Has(g, p, "draft") && !Has(g, p, "pending") && !Has(g, p, "spam"))
    && (!IsFolderName(t) ==> !Has(g, p, "inbox") && exists i: nat :: i < |g| && g[i] == t && forall j :: i < j < |g| ==> IsFolderName(g[j]) || !p(g[j]))
  }

  predicate Has(g: TagGroup, p: string -> bool, t: string) {
    t in g && p(t)
  }

  function Passing(g: TagGroup, p: string -> bool): string -> bool {
    t => t in g && p(t)
  }

  lemma {:induction false} LastPlace(s: seq<string>, p: string -> bool) returns (i: nat)
    requires Filter(s, p) != []
    ensures i < |s| && p(s[i]) && (forall j :: i < j < |s| ==> !p(s[j])) && Last(Filter(s, p)) == s[i]
  {
    if p(Last(s)) {
      i := |s| - 1;
    } else {
      i := LastPlace(Front(s), p);
    }
  }

  lemma FolderNames()
    ensures forall t :: t in FOLDER_EMISSION <==> IsFolderName(t)
  {
  }

  lemma FolderLastIsStrongest(g: TagGroup, p: string -> bool)
    requires Filter(FOLDER_EMISSION, Passing(g, p)) != []
    ensures Strongest(g, p, Last(Filter(FOLDER_EMISSION, Passing(g, p))))
  {
    var i := LastPlace(FOLDER_EMISSION, Passing(g, p));
    FolderIsStrongest(g, p, i);
  }

  /** Filtering custom tags and folder tags together ends with a folder tag, if there is one. */
  lemma LastOfEmission(a: seq<string>, order: seq<string>, g: TagGroup, p: string -> bool)
    ensures Filter(a + Filter(order, MemberOf(g)), p) == Filter(a, p) + Filter(order, Passing(g, p))
  {
    FilterAppend(a, Filter(order, MemberOf(g)), p);
    FilterTwice(order, MemberOf(g), p, Passing(g, p));
  }

  lemma LastIsStrongest(g: TagGroup, p: string -> bool)
    requires Filter(Emission(g), p) != []
    ensures Strongest(g, p, Last(Filter(Emission(g), p)))
  {
    LastOfEmission(Filter(g, IsCustom()), FOLDER_EMISSION, g, p);
    if Filter(FOLDER_EMISSION, Passing(g, p)) != [] {
      FolderLastIsStrongest(g, p);
    } else {
      NoFolder(g, p);
      CustomIsStrongest(g, p);
    }
  }

  function CustomPassing(p: string -> bool): string -> bool {
    t => t !in FOLDER_EMISSION && p(t)
  }

  lemma CustomIsStrongest(g: TagGroup, p: string -> bool)
    requires Filter(Emission(g), p) != [] && Filter(FOLDER_EMISSION, Passing(g, p)) == []
    requires forall t :: IsFolderName(t) ==> !Has(g, p, t)
    ensures Strongest(g, p, Last(Filter(Emission(g), p)))
  {
    var customs := Filter(Filter(g, IsCustom()), p);
    LastOfEmission(Filter(g, IsCustom()), FOLDER_EMISSION, g, p);
    assert customs + [] == customs;
    FilterTwice(g, IsCustom(), p, CustomPassing(p));
    var i := LastPlace(g, CustomPassing(p));
    FolderNames();
  }

  lemma NoFolder(g: TagGroup, p: string -> bool)
    requires Filter(FOLDER_EMISSION, Passing(g, p)) == []
    ensures forall t :: IsFolderName(t) ==> !Has(g, p, t)
  {
    FilterIn(FOLDER_EMISSION, Passing(g, p));
    FolderNames();
    forall t | IsFolderName(t) ensures !Has(g, p, t) {
      assert t !in Filter(FOLDER_EMISSION, Passing(g, p));
    }
  }

  lemma FolderIsStrongest(g: TagGroup, p: string -> bool, i: nat)
    requires i < |FOLDER_EMISSION| && Passing(g, p)(FOLDER_EMISSION[i])
    requires forall j :: i < j < |FOLDER_EMISSION| ==> !Passing(g, p)(FOLDER_EMISSION[j])
    ensures Strongest(g, p, FOLDER_EMISSION[i])
  {
    assert forall j :: i < j < |FOLDER_EMISSION| ==> !Has(g, p, FOLDER_EMISSION[j]);
    assert FOLDER_EMISSION[6] == "archive" && FOLDER_EMISSION[5] == "deleted" && FOLDER_EMISSION[4] == "sent"
      && FOLDER_EMISSION[3] == "draft" && FOLDER_EMISSION[2] == "pending" && FOLDER_EMISSION[1] == "spam" && FOLDER_EMISSION[0] == "inbox";
  }

  /** For an engine built from a configuration: archive beats deleted beats sent beats draft beats
      pending beats spam beats inbox beats every custom tag of the group. The message ends with the
      strongest tag that one of its files lives under, and no other of the group; without any, with
      what it had. */
  lemma FolderPriority(e: Engine, groups: seq<TagGroup>, accounts: seq<Account>, a: nat, m: Message, hits: seq<bool>,
                       glob: (string, string) -> bool, k: nat)
    requires BuiltFrom(e, groups, accounts) && ValidGroups(groups) && SoftRules(e) && |hits| == |e.headerRules| && k < |groups|
    requires a < |accounts| && AccountOf(e, m.paths) == Some(e.accounts[a])
    ensures forall t :: t in groups[k] ==>
              (t in Outcome(e, m, hits, glob) <==>
                 if exists s :: s in groups[k] && Lives(accounts[a], m.paths, glob, s)
                 then Strongest(groups[k], Here(e.accounts[a], m.paths, glob), t) else t in m.tags)
    ensures forall t :: t in groups[k] ==> (Here(e.accounts[a], m.paths, glob)(t) <==> Lives(accounts[a], m.paths, glob, t))
  {
    var p := Here(e.accounts[a], m.paths, glob);
    SurvivingFolder(e, m, hits, glob, k);
    forall t | t in groups[k] ensures p(t) <==> Lives(accounts[a], m.paths, glob, t) {
      LocatedLives(accounts[a], groups, e.accounts[a], k, m.paths, glob, t);
    }
    var located := Filter(e.emissions[k], p);
    FilterIn(e.emissions[k], p);
    EmissionIn(groups[k]);
    if located != [] {
      assert Last(located) in located;
      LastIsStrongest(groups[k], p);
      forall t | t in groups[k] && Strongest(groups[k], p, t) ensures t == Last(located) {
        StrongestUnique(groups[k], p, t, Last(located));
      }
    } else {
      forall s | s in groups[k] ensures !Lives(accounts[a], m.paths, glob, s) {
        assert s !in located;
      }
    }
  }

  lemma StrongestUnique(g: TagGroup, p: string -> bool, s: string, t: string)
    requires Strongest(g, p, s) && Strongest(g, p, t)
    ensures s == t
  {
    assert Has(g, p, s) && Has(g, p, t);
    if !IsFolderName(s) && !IsFolderName(t) {
      var i: nat :| i < |g| && g[i] == s && forall j :: i < j < |g| ==> IsFolderName(g[j]) || !p(g[j]);
      var j: nat :| j < |g| && g[j] == t && forall l :: j < l < |g| ==> IsFolderName(g[l]) || !p(g[l]);
      assert !(i < j) && !(j < i);
    }
  }
}
