/** The copy, index-add, index-remove, delete sequence of the mail mover (src/filter/mover.go). */
module Mover {
  import opened Mail
  import Classify

  /** A file below the mail root: maildir/sub/name. */
  datatype Path = Path(maildir: string, sub: string, name: string)

  type Content = string

  /** Files on disk, and the index's (path, message) pairs. */
  datatype World = World(fs: map<Path, Content>, index: set<(Path, string)>)

  datatype Entry = Entry(id: string, account: string, folder: string, paths: seq<Path>)

  /** One file's outcome: no destination means it stays, and skip says why. */
  datatype MoveEntry = MoveEntry(id: string, from: Path, to: Option<Path>, skip: string)

  datatype Copy = Copy(src: Path, dst: Path)

  // ---- Folder resolution ----

  function DropDigits(s: string): string {
    if s != "" && '0' <= s[0] <= '9' then DropDigits(s[1..]) else s
  }

  /** Removes the first ",U=digits" marker. */
  function StripUID(name: string): string {
    if |name| < 3 then name
    else if name[..3] == ",U=" then DropDigits(name[3..])
    else [name[0]] + StripUID(name[1..])
  }

  function BaseName(p: string): string {
    if p == "" then "" else if p[|p| - 1] == '/' then "" else BaseName(p[..|p| - 1]) + [p[|p| - 1]]
  }

  /** The disk as folder resolution sees it: directories, and sorted glob matches, both below a folder space. */
  datatype Disk = Disk(isDir: (string, string) -> bool, glob: (string, string) -> seq<string>)

  function FirstDir(disk: Disk, space: string, names: seq<string>): Option<string> {
    if names == [] then None
    else if disk.isDir(space, names[0]) then Some(BaseName(names[0]))
    else FirstDir(disk, space, names[1..])
  }

  function Found(disk: Disk, space: string, c: string): Option<string> {
    if Classify.IsGlob(c) then FirstDir(disk, space, disk.glob(space, c))
    else if disk.isDir(space, c) then Some(c)
    else None
  }

  function FirstFound(disk: Disk, space: string, cs: seq<string>): Option<string> {
    if cs == [] then None
    else if Found(disk, space, cs[0]).Some? then Found(disk, space, cs[0])
    else FirstFound(disk, space, cs[1..])
  }

  /** The first candidate that exists, else the first candidate. */
  function ResolveFolder(disk: Disk, space: string, cs: seq<string>): string
    requires cs != []
  {
    var found := FirstFound(disk, space, cs);
    space + "/" + if found.Some? then found.value else cs[0]
  }

  /** The name is what follows the last slash of the path, or all of it when it has none. */
  predicate Splits(p: string, dir: string, name: string) {
    p == dir + name && '/' !in name && (dir == "" || dir[|dir| - 1] == '/')
  }

  ghost predicate IsBaseName(name: string, p: string) {
    exists dir :: Splits(p, dir, name)
  }

  lemma {:induction false} BaseNameIs(p: string) returns (dir: string)
    ensures Splits(p, dir, BaseName(p))
  {
    if p == "" {
      dir := "";
    } else if p[|p| - 1] == '/' {
      dir := p;
    } else {
      dir := BaseNameIs(p[..|p| - 1]);
      BaseNameGrows(p[..|p| - 1], dir, BaseName(p[..|p| - 1]), p[|p| - 1]);
      assert p == p[..|p| - 1] + [p[|p| - 1]];
    }
  }

  lemma BaseNameGrows(p: string, dir: string, name: string, c: char)
    requires Splits(p, dir, name) && c != '/'
    ensures Splits(p + [c], dir, name + [c])
  {
  }

  /** The k-th name is the first that is a directory. */
  predicate FirstDirAt(disk: Disk, space: string, names: seq<string>, k: nat) {
    k < |names| && disk.isDir(space, names[k]) && forall j :: 0 <= j < k ==> !disk.isDir(space, names[j])
  }

  /** The candidate is on disk as a folder of that name: a plain one under its own, a pattern under
      the base name of its first match that is a directory. */
  ghost predicate OnDisk(disk: Disk, space: string, c: string, name: string) {
    if Classify.IsGlob(c) then exists k: nat :: FirstDirAt(disk, space, disk.glob(space, c), k) && IsBaseName(name, disk.glob(space, c)[k])
    else disk.isDir(space, c) && name == c
  }

  lemma {:induction false} FirstDirIs(disk: Disk, space: string, names: seq<string>)
    ensures var r := FirstDir(disk, space, names);
            if r.Some? then exists k: nat :: FirstDirAt(disk, space, names, k) && IsBaseName(r.value, names[k])
            else forall k :: 0 <= k < |names| ==> !disk.isDir(space, names[k])
  {
    if names != [] {
      if disk.isDir(space, names[0]) {
        var dir := BaseNameIs(names[0]);
        assert FirstDirAt(disk, space, names, 0);
      } else {
        FirstDirIs(disk, space, names[1..]);
        var r := FirstDir(disk, space, names[1..]);
        if r.Some? {
          var k: nat :| FirstDirAt(disk, space, names[1..], k) && IsBaseName(r.value, names[1..][k]);
          assert FirstDirAt(disk, space, names, k + 1);
        } else {
          forall k | 0 <= k < |names| ensures !disk.isDir(space, names[k]) {
            assert k > 0 ==> names[k] == names[1..][k - 1];
          }
        }
      }
    }
  }

  lemma FoundIs(disk: Disk, space: string, c: string)
    ensures var r := Found(disk, space, c);
            if r.Some? then OnDisk(disk, space, c, r.value) else forall name :: !OnDisk(disk, space, c, name)
  {
    FirstDirIs(disk, space, disk.glob(space, c));
  }

  /** The k-th candidate is the first on disk, under that name. */
  ghost predicate FirstOnDisk(disk: Disk, space: string, cs: seq<string>, k: nat, name: string) {
    k < |cs| && OnDisk(disk, space, cs[k], name) && forall j, other :: 0 <= j < k ==> !OnDisk(disk, space, cs[j], other)
  }

  lemma {:induction false} FirstFoundIs(disk: Disk, space: string, cs: seq<string>)
    ensures var r := FirstFound(disk, space, cs);
            if r.Some? then exists k: nat :: FirstOnDisk(disk, space, cs, k, r.value)
            else forall k, name :: 0 <= k < |cs| ==> !OnDisk(disk, space, cs[k], name)
  {
    if cs != [] {
      FoundIs(disk, space, cs[0]);
      var here := Found(disk, space, cs[0]);
      if here.Some? {
        assert FirstOnDisk(disk, space, cs, 0, here.value);
      } else {
        FirstFoundIs(disk, space, cs[1..]);
        var r := FirstFound(disk, space, cs[1..]);
        if r.Some? {
          var k: nat :| FirstOnDisk(disk, space, cs[1..], k, r.value);
          forall j, other | 0 <= j < k + 1 ensures !OnDisk(disk, space, cs[j], other) {
            assert j > 0 ==> cs[j] == cs[1..][j - 1];
          }
          assert FirstOnDisk(disk, space, cs, k + 1, r.value);
        } else {
          forall k, name | 0 <= k < |cs| ensures !OnDisk(disk, space, cs[k], name) {
            assert k > 0 ==> cs[k] == cs[1..][k - 1];
          }
        }
      }
    }
  }

  /** Files move to the first candidate that is on disk or, when none is, to the first one. */
  lemma ResolvesFirst(disk: Disk, space: string, cs: seq<string>)
    requires cs != []
    ensures (exists k: nat, name :: FirstOnDisk(disk, space, cs, k, name) && ResolveFolder(disk, space, cs) == space + "/" + name)
            || ((forall k, name :: 0 <= k < |cs| ==> !OnDisk(disk, space, cs[k], name)) && ResolveFolder(disk, space, cs) == space + "/" + cs[0])
  {
    FirstFoundIs(disk, space, cs);
  }

  function Tags(a: Classify.Account): set<string> {
    set t | t in a.moves.Keys + a.preset.Keys + a.folders.Keys && Classify.Candidates(a, t) != []
  }

  function TargetsOf(a: Classify.Account, disk: Disk): map<string, string> {
    map t | t in Tags(a) :: ResolveFolder(disk, a.folder, Classify.Candidates(a, t))
  }

  function InboxTree(a: Classify.Account, disk: Disk): string {
    var cs := Classify.Candidates(a, "inbox");
    if cs != [] then ResolveFolder(disk, a.folder, cs) else a.folder + "/INBOX"
  }

  type Targets = map<string, map<string, string>>

  predicate Involves(entries: seq<Entry>, accounts: map<string, Classify.Account>, name: string) {
    name in accounts && !accounts[name].readOnly && exists i :: 0 <= i < |entries| && entries[i].folder != "" && entries[i].account == name
  }

  function TreesFor(a: Classify.Account, disk: Disk): set<string> {
    TargetsOf(a, disk).Values + {InboxTree(a, disk)}
  }

  /** Writable accounts some entry moves in: their targets, and as managed trees the inbox tree
      and every target. */
  ghost predicate Resolved(targets: Targets, managed: map<string, set<string>>, entries: seq<Entry>,
                           accounts: map<string, Classify.Account>, disk: Disk)
  {
    && targets.Keys == managed.Keys
    && (forall name :: name in targets <==> Involves(entries, accounts, name))
    && (forall name <- targets :: targets[name] == TargetsOf(accounts[name], disk) && managed[name] == TreesFor(accounts[name], disk))
  }

  lemma InvolvesStep(entries: seq<Entry>, i: nat, accounts: map<string, Classify.Account>)
    requires i < |entries|
    ensures forall name :: Involves(entries[..i + 1], accounts, name) <==>
              Involves(entries[..i], accounts, name) || Involves([entries[i]], accounts, name)
  {
    forall name ensures Involves(entries[..i + 1], accounts, name) <==>
                          Involves(entries[..i], accounts, name) || Involves([entries[i]], accounts, name)
    {
      var now, was := entries[..i + 1], entries[..i];
      if Involves(was, accounts, name) {
        var j :| 0 <= j < i && was[j].folder != "" && was[j].account == name;
        assert now[j].account == name;
      }
      if Involves([entries[i]], accounts, name) {
        assert now[i].account == name;
      }
      if Involves(now, accounts, name) {
        var j :| 0 <= j <= i && now[j].folder != "" && now[j].account == name;
        assert j < i ==> was[j].account == name;
        assert j == i ==> [entries[i]][0].account == name;
      }
    }
  }

  method ResolveAccounts(entries: seq<Entry>, accounts: map<string, Classify.Account>, disk: Disk)
    returns (targets: Targets, managed: map<string, set<string>>)
    ensures Resolved(targets, managed, entries, accounts, disk)
  {
    targets, managed := map[], map[];
    for i := 0 to |entries|
      invariant Resolved(targets, managed, entries[..i], accounts, disk)
    {
      InvolvesStep(entries, i, accounts);
      var e := entries[i];
      assert forall name :: Involves([e], accounts, name) <==> Involves([e], accounts, e.account) && name == e.account;
      assert Involves([e], accounts, e.account) <==> e.account in accounts && !accounts[e.account].readOnly && e.folder != "" by {
        assert [e][0].account == e.account;
      }
      if e.folder != "" && e.account !in targets && e.account in accounts && !accounts[e.account].readOnly {
        targets := targets[e.account := TargetsOf(accounts[e.account], disk)];
        managed := managed[e.account := TreesFor(accounts[e.account], disk)];
      }
    }
    assert entries[..|entries|] == entries;
  }

  /** The maildir is the tree's root or below it. */
  predicate Under(maildir: string, tree: string) {
    maildir == tree || Classify.HasPrefix(maildir, tree + "/")
  }

  // ---- The plan: which files move where ----

  datatype Plan = Plan(moves: seq<MoveEntry>, copies: seq<Copy>, files: set<Path>)

  function Target(targets: Targets, e: Entry): string {
    if e.folder != "" && e.account in targets && e.folder in targets[e.account] then targets[e.account][e.folder] else ""
  }

  /** Some file of the message already lives in the target tree. */
  predicate Home(paths: seq<Path>, target: string) {
    exists k :: 0 <= k < |paths| && Under(paths[k].maildir, target)
  }

  predicate Managed(trees: set<string>, maildir: string) {
    exists t :: t in trees && Under(maildir, t)
  }

  function Destination(target: string, f: Path): Path {
    Path(target, f.sub, StripUID(f.name))
  }

  function Decide(files: set<Path>, id: string, f: Path, target: string, trees: set<string>, home: bool): MoveEntry {
    if f !in files then MoveEntry(id, f, None, "source gone")
    else if !Managed(trees, f.maildir) then MoveEntry(id, f, None, "not managed")
    else if home then MoveEntry(id, f, None, "already home")
    else if Destination(target, f) in files then MoveEntry(id, f, None, "dest exists")
    else MoveEntry(id, f, Some(Destination(target, f)), "")
  }

  function Extended(p: Plan, me: MoveEntry, dry: bool): Plan {
    if me.to.Some? && !dry
    then Plan(p.moves + [me], p.copies + [Copy(me.from, me.to.value)], p.files + {me.to.value})
    else p.(moves := p.moves + [me])
  }

  function PlanPaths(p: Plan, e: Entry, n: nat, target: string, trees: set<string>, dry: bool): Plan
    requires n <= |e.paths|
  {
    if n == 0 then p
    else
      var before := PlanPaths(p, e, n - 1, target, trees, dry);
      Extended(before, Decide(before.files, e.id, e.paths[n - 1], target, trees, Home(e.paths, target)), dry)
  }

  function TreesOf(managed: map<string, set<string>>, account: string): set<string> {
    if account in managed then managed[account] else {}
  }

  function PlanEntries(files: set<Path>, entries: seq<Entry>, n: nat, targets: Targets,
                       managed: map<string, set<string>>, dry: bool): Plan
    requires n <= |entries|
  {
    if n == 0 then Plan([], [], files)
    else
      var before := PlanEntries(files, entries, n - 1, targets, managed, dry);
      var e := entries[n - 1];
      var target := Target(targets, e);
      if target == "" then before
      else PlanPaths(before, e, |e.paths|, target, TreesOf(managed, e.account), dry)
  }

  /** A planned move takes a managed file of an away message to its own folder's tree, keeping
      its cur/new directory. */
  ghost predicate Warranted(me: MoveEntry, entries: seq<Entry>, targets: Targets, managed: map<string, set<string>>) {
    me.to.Some? ==> exists i :: 0 <= i < |entries| && WarrantedBy(me, entries[i], targets, managed)
  }

  ghost predicate WarrantedBy(me: MoveEntry, e: Entry, targets: Targets, managed: map<string, set<string>>) {
    && e.folder != "" && Target(targets, e) != "" && me.id == e.id && me.from in e.paths
    && me.to == Some(Destination(Target(targets, e), me.from))
    && Managed(TreesOf(managed, e.account), me.from.maildir)
    && !Home(e.paths, Target(targets, e))
  }

  lemma {:induction false} PathsWarranted(p: Plan, e: Entry, n: nat, targets: Targets, managed: map<string, set<string>>, dry: bool)
    requires n <= |e.paths| && Target(targets, e) != ""
    ensures var after := PlanPaths(p, e, n, Target(targets, e), TreesOf(managed, e.account), dry);
            && |after.moves| == |p.moves| + n && p.moves <= after.moves
            && (forall k :: |p.moves| <= k < |after.moves| ==>
                  after.moves[k].from == e.paths[k - |p.moves|]
                  && (after.moves[k].to.Some? ==> WarrantedBy(after.moves[k], e, targets, managed)))
  {
    if n > 0 {
      PathsWarranted(p, e, n - 1, targets, managed, dry);
    }
  }

  ghost predicate AllWarranted(moves: seq<MoveEntry>, entries: seq<Entry>, targets: Targets, managed: map<string, set<string>>) {
    forall k :: 0 <= k < |moves| ==> Warranted(moves[k], entries, targets, managed)
  }

  lemma {:induction false} PlanWarranted(files: set<Path>, entries: seq<Entry>, n: nat, targets: Targets,
                                         managed: map<string, set<string>>, dry: bool)
    requires n <= |entries|
    ensures AllWarranted(PlanEntries(files, entries, n, targets, managed, dry).moves, entries, targets, managed)
  {
    if n > 0 {
      PlanWarranted(files, entries, n - 1, targets, managed, dry);
      var before := PlanEntries(files, entries, n - 1, targets, managed, dry);
      var after := PlanEntries(files, entries, n, targets, managed, dry);
      var e := entries[n - 1];
      if Target(targets, e) == "" {
        assert after == before;
      } else {
        PathsWarranted(before, e, |e.paths|, targets, managed, dry);
        forall k | 0 <= k < |after.moves| ensures Warranted(after.moves[k], entries, targets, managed) {
          if k < |before.moves| {
            assert after.moves[k] == before.moves[k];
            assert Warranted(before.moves[k], entries, targets, managed);
          } else if after.moves[k].to.Some? {
            assert WarrantedBy(after.moves[k], entries[n - 1], targets, managed);
          }
        }
      }
    }
  }

  /** An mbsync marker starts here. */
  predicate Marked(name: string, i: nat) {
    i + 3 <= |name| && name[i] == ',' && name[i + 1] == 'U' && name[i + 2] == '='
  }

  lemma {:induction false} DigitsDropped(s: string, e: nat)
    requires e <= |s| && (forall k :: 0 <= k < e ==> '0' <= s[k] <= '9') && (e < |s| ==> !('0' <= s[e] <= '9'))
    ensures DropDigits(s) == s[e..]
  {
    if e > 0 {
      DigitsDropped(s[1..], e - 1);
      assert s[1..][e - 1..] == s[e..];
    } else {
      assert s[0..] == s;
    }
  }

  lemma MarkIs(name: string)
    requires |name| >= 3
    ensures Marked(name, 0) <==> name[..3] == ",U="
  {
    assert name[..3][0] == name[0] && name[..3][1] == name[1] && name[..3][2] == name[2];
  }

  lemma {:induction false} UnmarkedStays(name: string)
    requires forall i: nat :: !Marked(name, i)
    ensures StripUID(name) == name
  {
    if |name| >= 3 {
      assert !Marked(name, 0);
      MarkIs(name);
      forall i: nat ensures !Marked(name[1..], i) {
        assert !Marked(name, i + 1);
      }
      UnmarkedStays(name[1..]);
    }
  }

  lemma MarkShifts(name: string, i: nat)
    requires name != "" && 0 < i && Marked(name, i) && forall j: nat :: j < i ==> !Marked(name, j)
    ensures Marked(name[1..], i - 1) && forall j: nat :: j < i - 1 ==> !Marked(name[1..], j)
  {
    forall j: nat | j < i - 1 ensures !Marked(name[1..], j) {
      assert !Marked(name, j + 1);
    }
  }

  lemma Rejoined(name: string, i: nat, e: nat)
    requires 0 < i <= e <= |name|
    ensures [name[0]] + (name[1..][..i - 1] + name[1..][e - 1..]) == name[..i] + name[e..]
  {
  }

  /** The first marker goes, up to its last digit; everything around it stays. */
  lemma {:induction false} MarkStripped(name: string, i: nat, e: nat)
    requires Marked(name, i) && forall j: nat :: j < i ==> !Marked(name, j)
    requires i + 3 <= e <= |name| && (forall k :: i + 3 <= k < e ==> '0' <= name[k] <= '9') && (e < |name| ==> !('0' <= name[e] <= '9'))
    ensures StripUID(name) == name[..i] + name[e..]
  {
    MarkIs(name);
    if i == 0 {
      DigitsDropped(name[3..], e - 3);
      assert name[3..][e - 3..] == name[e..];
    } else {
      assert !Marked(name, 0);
      MarkShifts(name, i);
      assert forall k :: 0 <= k < |name| - 1 ==> name[1..][k] == name[k + 1];
      MarkStripped(name[1..], i - 1, e - 1);
      Rejoined(name, i, e);
    }
  }

  /** The files on disk when the q-th decision is made: a live run sees its own copies. */
  function FilesAt(files: set<Path>, moves: seq<MoveEntry>, q: nat, dry: bool): set<Path>
    requires q <= |moves|
  {
    if q == 0 then files
    else FilesAt(files, moves, q - 1, dry) + if moves[q - 1].to.Some? && !dry then {moves[q - 1].to.value} else {}
  }

  /** The file lies in its target's tree or below it. */
  predicate InTree(p: Path, tree: string) {
    p.maildir == tree || tree + "/" <= p.maildir
  }

  /** What becomes of file f of entry e when the given files are on disk: it moves if and only if it
      is there, in a managed tree, no file of its message is home, and the name is free. If it
      stays, the reason says which of these failed first. */
  ghost predicate Answers(me: MoveEntry, files: set<Path>, e: Entry, f: Path, target: string, trees: set<string>) {
    var there, managed := f in files, exists t :: t in trees && InTree(f, t);
    var home := exists g :: g in e.paths && InTree(g, target);
    var dst := Path(target, f.sub, StripUID(f.name));
    && me.id == e.id && me.from == f
    && me.to == (if there && managed && !home && dst !in files then Some(dst) else None)
    && (me.to.Some? <==> me.skip == "")
    && (me.skip == "source gone" <==> !there)
    && (me.skip == "not managed" <==> there && !managed)
    && (me.skip == "already home" <==> there && managed && home)
    && (me.skip == "dest exists" <==> there && managed && !home && dst in files)
  }

  /** How many answers the entries before the i-th get: one for each path of one with a target. */
  function Offset(entries: seq<Entry>, targets: Targets, i: nat): nat
    requires i <= |entries|
  {
    if i == 0 then 0
    else Offset(entries, targets, i - 1) + if Target(targets, entries[i - 1]) == "" then 0 else |entries[i - 1].paths|
  }

  ghost predicate AnswersPath(moves: seq<MoveEntry>, at: nat, files: set<Path>, e: Entry, k: nat, targets: Targets,
                              managed: map<string, set<string>>, dry: bool)
  {
    at + k < |moves| && k < |e.paths|
    && Answers(moves[at + k], FilesAt(files, moves, at + k, dry), e, e.paths[k], Target(targets, e), TreesOf(managed, e.account))
  }

  /** Every path of every entry with a target gets its answer, in order, and nothing else does. */
  ghost predicate AllAnswered(moves: seq<MoveEntry>, files: set<Path>, entries: seq<Entry>, n: nat, targets: Targets,
                              managed: map<string, set<string>>, dry: bool)
    requires n <= |entries|
  {
    && |moves| == Offset(entries, targets, n)
    && forall i: nat :: i < n && Target(targets, entries[i]) != "" ==>
         PathsAnswer(moves, Offset(entries, targets, i), files, entries[i], |entries[i].paths|, targets, managed, dry)
  }

  lemma DecideAnswers(files: set<Path>, e: Entry, f: Path, target: string, trees: set<string>)
    ensures Answers(Decide(files, e.id, f, target, trees, Home(e.paths, target)), files, e, f, target, trees)
  {
    forall p: Path, t ensures InTree(p, t) <==> Under(p.maildir, t) {
    }
    if Home(e.paths, target) {
      var k :| 0 <= k < |e.paths| && Under(e.paths[k].maildir, target);
      assert e.paths[k] in e.paths && InTree(e.paths[k], target);
    }
  }

  lemma {:induction false} FilesAtPrefix(files: set<Path>, moves: seq<MoveEntry>, more: seq<MoveEntry>, q: nat, dry: bool)
    requires q <= |moves| && moves <= more
    ensures FilesAt(files, more, q, dry) == FilesAt(files, moves, q, dry)
  {
    if q > 0 {
      FilesAtPrefix(files, moves, more, q - 1, dry);
    }
  }

  lemma AnswersMore(before: seq<MoveEntry>, after: seq<MoveEntry>, at: nat, files: set<Path>, e: Entry, k: nat, targets: Targets,
                    managed: map<string, set<string>>, dry: bool)
    requires before <= after && AnswersPath(before, at, files, e, k, targets, managed, dry)
    ensures AnswersPath(after, at, files, e, k, targets, managed, dry)
  {
    FilesAtPrefix(files, before, after, at + k, dry);
  }

  ghost predicate PathsAnswer(moves: seq<MoveEntry>, at: nat, files: set<Path>, e: Entry, n: nat, targets: Targets,
                              managed: map<string, set<string>>, dry: bool)
  {
    forall k: nat :: k < n ==> AnswersPath(moves, at, files, e, k, targets, managed, dry)
  }

  lemma PathsAnswerMore(before: seq<MoveEntry>, after: seq<MoveEntry>, at: nat, files: set<Path>, e: Entry, n: nat, targets: Targets,
                        managed: map<string, set<string>>, dry: bool)
    requires before <= after && PathsAnswer(before, at, files, e, n, targets, managed, dry)
    ensures PathsAnswer(after, at, files, e, n, targets, managed, dry)
  {
    forall k: nat | k < n ensures AnswersPath(after, at, files, e, k, targets, managed, dry) {
      AnswersMore(before, after, at, files, e, k, targets, managed, dry);
    }
  }

  lemma ExtendedFiles(files: set<Path>, p: Plan, me: MoveEntry, dry: bool)
    requires p.files == FilesAt(files, p.moves, |p.moves|, dry)
    ensures var now := Extended(p, me, dry);
            && now.moves == p.moves + [me] && now.files == FilesAt(files, now.moves, |now.moves|, dry)
            && FilesAt(files, now.moves, |p.moves|, dry) == p.files
  {
    FilesAtPrefix(files, p.moves, p.moves + [me], |p.moves|, dry);
  }

  lemma {:induction false} PathsAnswered(files: set<Path>, p: Plan, e: Entry, n: nat, targets: Targets,
                                         managed: map<string, set<string>>, dry: bool)
    requires n <= |e.paths| && p.files == FilesAt(files, p.moves, |p.moves|, dry)
    ensures var after := PlanPaths(p, e, n, Target(targets, e), TreesOf(managed, e.account), dry);
            && after.files == FilesAt(files, after.moves, |after.moves|, dry)
            && p.moves <= after.moves && |after.moves| == |p.moves| + n
            && PathsAnswer(after.moves, |p.moves|, files, e, n, targets, managed, dry)
  {
    if n > 0 {
      PathsAnswered(files, p, e, n - 1, targets, managed, dry);
      PathAnswered(files, PlanPaths(p, e, n - 1, Target(targets, e), TreesOf(managed, e.account), dry), |p.moves|, e, n - 1, targets, managed, dry);
    }
  }

  lemma PathAnswered(files: set<Path>, before: Plan, at: nat, e: Entry, n: nat, targets: Targets, managed: map<string, set<string>>, dry: bool)
    requires n < |e.paths| && before.files == FilesAt(files, before.moves, |before.moves|, dry)
    requires |before.moves| == at + n && PathsAnswer(before.moves, at, files, e, n, targets, managed, dry)
    ensures var target, trees := Target(targets, e), TreesOf(managed, e.account);
            var after := Extended(before, Decide(before.files, e.id, e.paths[n], target, trees, Home(e.paths, target)), dry);
            && after.files == FilesAt(files, after.moves, |after.moves|, dry)
            && before.moves <= after.moves && |after.moves| == at + n + 1
            && PathsAnswer(after.moves, at, files, e, n + 1, targets, managed, dry)
  {
    var target, trees := Target(targets, e), TreesOf(managed, e.account);
    var me := Decide(before.files, e.id, e.paths[n], target, trees, Home(e.paths, target));
    ExtendedFiles(files, before, me, dry);
    DecideAnswers(before.files, e, e.paths[n], target, trees);
    var now := before.moves + [me];
    PathsAnswerMore(before.moves, now, at, files, e, n, targets, managed, dry);
    assert now[at + n] == me;
    assert AnswersPath(now, at, files, e, n, targets, managed, dry);
  }

  /** The plan answers for every file: who moves must move, and who stays is told why. */
  lemma {:induction false} PlanAnswers(files: set<Path>, entries: seq<Entry>, n: nat, targets: Targets,
                                       managed: map<string, set<string>>, dry: bool)
    requires n <= |entries|
    ensures var p := PlanEntries(files, entries, n, targets, managed, dry);
            && p.files == FilesAt(files, p.moves, |p.moves|, dry)
            && AllAnswered(p.moves, files, entries, n, targets, managed, dry)
  {
    if n > 0 {
      PlanAnswers(files, entries, n - 1, targets, managed, dry);
      var before, after := PlanEntries(files, entries, n - 1, targets, managed, dry), PlanEntries(files, entries, n, targets, managed, dry);
      var e := entries[n - 1];
      if Target(targets, e) != "" {
        PathsAnswered(files, before, e, |e.paths|, targets, managed, dry);
      }
      AnsweredMore(before.moves, after.moves, files, entries, n - 1, e, targets, managed, dry);
    }
  }

  lemma AnsweredMore(before: seq<MoveEntry>, after: seq<MoveEntry>, files: set<Path>, entries: seq<Entry>, n: nat, e: Entry,
                     targets: Targets, managed: map<string, set<string>>, dry: bool)
    requires n < |entries| && before <= after && AllAnswered(before, files, entries, n, targets, managed, dry)
    requires e == entries[n] && |after| == Offset(entries, targets, n + 1)
    requires Target(targets, e) != "" ==> PathsAnswer(after, |before|, files, e, |e.paths|, targets, managed, dry)
    ensures AllAnswered(after, files, entries, n + 1, targets, managed, dry)
  {
    forall i: nat | i < n + 1 && Target(targets, entries[i]) != ""
      ensures PathsAnswer(after, Offset(entries, targets, i), files, entries[i], |entries[i].paths|, targets, managed, dry)
    {
      if i < n {
        PathsAnswerMore(before, after, Offset(entries, targets, i), files, entries[i], |entries[i].paths|, targets, managed, dry);
      }
    }
  }

  // ---- Safety of every intermediate state ----

  /** The message a file belongs to is read from its content. */
  type MsgOf = Content -> string

  /** The index agrees with the files that exist. */
  ghost predicate Consistent(w: World, msgOf: MsgOf) {
    forall p, m :: (p, m) in w.index && p in w.fs ==> m == msgOf(w.fs[p])
  }

  /** No pre-existing file changed, and every content is still on disk: in place or in a new file. */
  ghost predicate Lossless(w0: World, w: World) {
    && (forall p <- w0.fs :: p in w.fs ==> w.fs[p] == w0.fs[p])
    && (forall p <- w0.fs :: Survives(w0, w, w0.fs[p]) && (p in w.fs || SurvivesAsCopy(w0, w, w0.fs[p])))
  }

  ghost predicate Survives(w0: World, w: World, c: Content) {
    exists q :: q in w.fs && w.fs[q] == c
  }

  ghost predicate SurvivesAsCopy(w0: World, w: World, c: Content) {
    exists q :: q in w.fs && q !in w0.fs && w.fs[q] == c
  }

  /** A message that had an indexed file still has an indexed path (with path operations: one
      whose file exists), so its record and tags live on. */
  ghost predicate Tagged(w0: World, w: World, pathOps: bool) {
    forall p, m :: (p, m) in w0.index && p in w0.fs ==> Kept(w, m, pathOps)
  }

  ghost predicate Kept(w: World, m: string, pathOps: bool) {
    exists q :: (q, m) in w.index && (pathOps ==> q in w.fs)
  }

  /** A deleted source was released by the index first. */
  ghost predicate Released(w0: World, w: World) {
    forall p, m :: p in w0.fs && p !in w.fs ==> (p, m) !in w.index
  }

  ghost predicate Safe(w0: World, w: World, pathOps: bool) {
    Lossless(w0, w) && Tagged(w0, w, pathOps) && (pathOps ==> Released(w0, w))
  }

  /** fs is w0's files plus the copies, each made while its destination was free. */
  ghost predicate Grown(w0: World, fs: map<Path, Content>, copies: seq<Copy>) {
    && (forall p <- w0.fs :: p in fs && fs[p] == w0.fs[p])
    && Paired(w0, fs, copies) && Apart(copies)
    && (forall q <- fs :: q in w0.fs || exists k :: 0 <= k < |copies| && copies[k].dst == q)
  }

  /** The same, stated so that a proof meets the definition only where it names it. */
  ghost predicate HasGrown(w0: World, fs: map<Path, Content>, copies: seq<Copy>) {
    forall w, f, c {:trigger Grown(w, f, c)} :: w == w0 && f == fs && c == copies ==> Grown(w, f, c)
  }

  /** Every copy is there, a new file with its source's content. */
  ghost predicate Paired(w0: World, fs: map<Path, Content>, copies: seq<Copy>) {
    forall k :: 0 <= k < |copies| ==>
      copies[k].src in fs && copies[k].dst in fs && copies[k].dst !in w0.fs && fs[copies[k].dst] == fs[copies[k].src]
  }

  /** No destination is its own source or an earlier one. */
  ghost predicate Apart(copies: seq<Copy>) {
    forall j, k :: 0 <= j <= k < |copies| ==> copies[k].dst != copies[j].src
  }

  lemma GrownStep(w0: World, fs: map<Path, Content>, copies: seq<Copy>, c: Copy)
    requires Grown(w0, fs, copies) && c.src in fs && c.dst !in fs
    ensures Grown(w0, fs[c.dst := fs[c.src]], copies + [c])
  {
    PairsStep(w0, fs, copies, c);
    ApartStep(w0, fs, copies, c);
    DestinationsCover(w0, fs, copies, c);
  }

  lemma PairsStep(w0: World, fs: map<Path, Content>, copies: seq<Copy>, c: Copy)
    requires (forall p <- w0.fs :: p in fs) && Paired(w0, fs, copies) && c.src in fs && c.dst !in fs
    ensures Paired(w0, fs[c.dst := fs[c.src]], copies + [c])
  {
    var now, grown := copies + [c], fs[c.dst := fs[c.src]];
    forall k | 0 <= k < |now|
      ensures now[k].src in grown && now[k].dst in grown && now[k].dst !in w0.fs && grown[now[k].dst] == grown[now[k].src]
    {
      if k < |copies| {
        assert now[k] == copies[k];
      }
    }
  }

  /** The new destination was no file, so it is no source so far. */
  lemma ApartStep(w0: World, fs: map<Path, Content>, copies: seq<Copy>, c: Copy)
    requires Paired(w0, fs, copies) && Apart(copies) && c.src in fs && c.dst !in fs
    ensures Apart(copies + [c])
  {
    var now := copies + [c];
    forall j, k | 0 <= j <= k < |now| ensures now[k].dst != now[j].src {
      if k < |copies| {
        assert now[k] == copies[k] && now[j] == copies[j];
      } else if j < |copies| {
        assert now[j] == copies[j];
      }
    }
  }

  lemma DestinationsCover(w0: World, fs: map<Path, Content>, copies: seq<Copy>, c: Copy)
    requires Grown(w0, fs, copies)
    ensures forall q <- fs.Keys + {c.dst} :: q in w0.fs || exists k :: 0 <= k < |copies + [c]| && (copies + [c])[k].dst == q
  {
    var now := copies + [c];
    forall q | q in fs.Keys + {c.dst} ensures q in w0.fs || exists k :: 0 <= k < |now| && now[k].dst == q {
      if q == c.dst {
        assert now[|copies|].dst == q;
      } else if q !in w0.fs {
        var k :| 0 <= k < |copies| && copies[k].dst == q;
        assert now[k].dst == q;
      }
    }
  }

  /** One more copy on disk. */
  lemma CopyGrows(w0: World, fs: map<Path, Content>, copies: seq<Copy>, f: Path, dst: Path, pathOps: bool)
    requires Grown(w0, fs, copies) && f in fs && dst !in fs
    ensures HasGrown(w0, fs[dst := fs[f]], copies + [Copy(f, dst)]) && Safe(w0, World(fs[dst := fs[f]], w0.index), pathOps)
    ensures fs[dst := fs[f]].Keys == fs.Keys + {dst}
  {
    GrownStep(w0, fs, copies, Copy(f, dst));
    SafeWhileCopying(w0, fs[dst := fs[f]], copies + [Copy(f, dst)], pathOps);
  }

  predicate IsSource(copies: seq<Copy>, n: nat, p: Path)
    requires n <= |copies|
  {
    exists k :: 0 <= k < n && copies[k].src == p
  }

  /** Copy k was copied on, step by step, up to the last one. */
  ghost predicate Chain(copies: seq<Copy>, k: nat, last: nat)
    decreases |copies| - k
  {
    k < |copies| && (k == last || exists j: nat :: k < j && j < |copies| && copies[j].src == copies[k].dst && Chain(copies, j, last))
  }

  /** Follows a copied file to a copy that is itself no source. */
  lemma {:induction false} Survivor(w0: World, fs: map<Path, Content>, copies: seq<Copy>, k: nat) returns (last: nat)
    requires Grown(w0, fs, copies) && k < |copies|
    ensures last < |copies| && !IsSource(copies, |copies|, copies[last].dst) && Chain(copies, k, last)
    ensures fs[copies[last].dst] == fs[copies[k].src]
    decreases |copies| - k
  {
    if IsSource(copies, |copies|, copies[k].dst) {
      var j :| 0 <= j < |copies| && copies[j].src == copies[k].dst;
      last := Survivor(w0, fs, copies, j);
    } else {
      last := k;
    }
  }

  lemma SafeWhileCopying(w0: World, fs: map<Path, Content>, copies: seq<Copy>, pathOps: bool)
    requires Grown(w0, fs, copies)
    ensures Safe(w0, World(fs, w0.index), pathOps)
  {
    var w := World(fs, w0.index);
    forall p | p in w0.fs ensures Survives(w0, w, w0.fs[p]) {
    }
    forall p, m | (p, m) in w0.index && p in w0.fs ensures Kept(w, m, pathOps) {
      assert (p, m) in w.index;
    }
  }

  function Added(index: set<(Path, string)>, fs: map<Path, Content>, copies: seq<Copy>, n: nat, msgOf: MsgOf): set<(Path, string)>
    requires n <= |copies| && forall k :: 0 <= k < n ==> copies[k].dst in fs
  {
    index + set k | 0 <= k < n :: (copies[k].dst, msgOf(fs[copies[k].dst]))
  }

  function Dropped(index: set<(Path, string)>, copies: seq<Copy>, n: nat): set<(Path, string)>
    requires n <= |copies|
  {
    set pm | pm in index && !IsSource(copies, n, pm.0)
  }

  function Deleted(fs: map<Path, Content>, copies: seq<Copy>, n: nat): map<Path, Content>
    requires n <= |copies|
  {
    map p | p in fs && !IsSource(copies, n, p) :: fs[p]
  }

  lemma SafeWhileAdding(w0: World, fs: map<Path, Content>, copies: seq<Copy>, n: nat, msgOf: MsgOf, pathOps: bool)
    requires Grown(w0, fs, copies) && n <= |copies|
    ensures Safe(w0, World(fs, Added(w0.index, fs, copies, n, msgOf)), pathOps)
  {
    var w := World(fs, Added(w0.index, fs, copies, n, msgOf));
    forall p | p in w0.fs ensures Survives(w0, w, w0.fs[p]) {
    }
    forall p, m | (p, m) in w0.index && p in w0.fs ensures Kept(w, m, pathOps) {
      assert (p, m) in w.index;
    }
  }

  /** Once every copy is indexed, any prefix of releases and then any prefix of deletes is safe. */
  lemma SafeWhileReleasing(w0: World, fs: map<Path, Content>, copies: seq<Copy>, n: nat, d: nat, msgOf: MsgOf)
    requires Grown(w0, fs, copies) && Consistent(w0, msgOf) && n <= |copies| && d <= |copies| && (d > 0 ==> n == |copies|)
    ensures Safe(w0, World(Deleted(fs, copies, d), Dropped(Added(w0.index, fs, copies, |copies|, msgOf), copies, n)), true)
  {
    var w := World(Deleted(fs, copies, d), Dropped(Added(w0.index, fs, copies, |copies|, msgOf), copies, n));
    DeletesLossless(w0, fs, copies, d, w);
    forall p, m | (p, m) in w0.index && p in w0.fs ensures Kept(w, m, true) {
      if IsSource(copies, n, p) || IsSource(copies, d, p) {
        var k :| 0 <= k < |copies| && copies[k].src == p;
        var last := Survivor(w0, fs, copies, k);
        var q := copies[last].dst;
        assert (q, msgOf(fs[q])) in Added(w0.index, fs, copies, |copies|, msgOf);
        assert (q, m) in w.index && q in w.fs;
      } else {
        assert (p, m) in w.index && p in w.fs;
      }
    }
  }

  lemma DeletesLossless(w0: World, fs: map<Path, Content>, copies: seq<Copy>, d: nat, w: World)
    requires Grown(w0, fs, copies) && d <= |copies| && w.fs == Deleted(fs, copies, d)
    ensures Lossless(w0, w)
  {
    forall p | p in w0.fs ensures Survives(w0, w, w0.fs[p]) && (p in w.fs || SurvivesAsCopy(w0, w, w0.fs[p])) {
      if IsSource(copies, d, p) {
        var k :| 0 <= k < d && copies[k].src == p;
        var last := Survivor(w0, fs, copies, k);
        assert copies[last].dst in w.fs && w.fs[copies[last].dst] == w0.fs[p];
      } else {
        assert p in w.fs && w.fs[p] == w0.fs[p];
      }
    }
  }

  /** A backend without path operations: the files go, the index catches up with the next run. */
  lemma SafeWithoutPathOps(w0: World, fs: map<Path, Content>, copies: seq<Copy>, n: nat, d: nat, msgOf: MsgOf)
    requires Grown(w0, fs, copies) && n <= |copies| && d <= |copies|
    ensures Safe(w0, World(Deleted(fs, copies, d), Added(w0.index, fs, copies, n, msgOf)), false)
  {
    var w := World(Deleted(fs, copies, d), Added(w0.index, fs, copies, n, msgOf));
    DeletesLossless(w0, fs, copies, d, w);
    forall p, m | (p, m) in w0.index && p in w0.fs ensures Kept(w, m, false) {
      assert (p, m) in w.index;
    }
  }

  /** The copies behind a report's moves. */
  function CopiesOf(moves: seq<MoveEntry>): seq<Copy> {
    if moves == [] then []
    else
      var last := moves[|moves| - 1];
      CopiesOf(moves[..|moves| - 1]) + if last.to.Some? then [Copy(last.from, last.to.value)] else []
  }

  lemma CopiesMore(p: Plan, me: MoveEntry)
    requires p.copies == CopiesOf(p.moves)
    ensures Extended(p, me, false).copies == CopiesOf(Extended(p, me, false).moves)
  {
    assert (p.moves + [me])[..|p.moves|] == p.moves;
  }

  lemma {:induction false} PathsCopies(p: Plan, e: Entry, n: nat, target: string, trees: set<string>)
    requires n <= |e.paths| && p.copies == CopiesOf(p.moves)
    ensures var after := PlanPaths(p, e, n, target, trees, false); after.copies == CopiesOf(after.moves)
  {
    if n > 0 {
      PathsCopies(p, e, n - 1, target, trees);
      var before := PlanPaths(p, e, n - 1, target, trees, false);
      CopiesMore(before, Decide(before.files, e.id, e.paths[n - 1], target, trees, Home(e.paths, target)));
    }
  }

  lemma {:induction false} PlanCopies(files: set<Path>, entries: seq<Entry>, n: nat, targets: Targets, managed: map<string, set<string>>)
    requires n <= |entries|
    ensures var p := PlanEntries(files, entries, n, targets, managed, false); p.copies == CopiesOf(p.moves)
  {
    if n > 0 {
      PlanCopies(files, entries, n - 1, targets, managed);
      var e := entries[n - 1];
      if Target(targets, e) != "" {
        PathsCopies(PlanEntries(files, entries, n - 1, targets, managed, false), e, |e.paths|, Target(targets, e), TreesOf(managed, e.account));
      }
    }
  }

  /** A move that went through: the source is gone, and its content lies at the destination, or
      where that was copied on to. */
  ghost predicate Landed(was: map<Path, Content>, now: map<Path, Content>, moves: seq<MoveEntry>, me: MoveEntry) {
    me.to.Some? ==>
      me.from !in now && exists k: nat, last: nat :: LandedAt(was, now, CopiesOf(moves), me, k, last)
  }

  ghost predicate LandedAt(was: map<Path, Content>, now: map<Path, Content>, copies: seq<Copy>, me: MoveEntry, k: nat, last: nat)
    requires me.to.Some?
  {
    && k < |copies| && last < |copies| && copies[k] == Copy(me.from, me.to.value) && Chain(copies, k, last)
    && copies[last].dst in now && (me.from in was ==> now[copies[last].dst] == was[me.from])
  }

  lemma {:induction false} MoveIsCopied(moves: seq<MoveEntry>, q: nat) returns (k: nat)
    requires q < |moves| && moves[q].to.Some?
    ensures k < |CopiesOf(moves)| && CopiesOf(moves)[k] == Copy(moves[q].from, moves[q].to.value)
  {
    var front := moves[..|moves| - 1];
    if q < |front| {
      k := MoveIsCopied(front, q);
    } else {
      k := |CopiesOf(front)|;
    }
  }

  /** After all copies and all deletes, every planned move has landed. */
  lemma MovesLand(w0: World, fs: map<Path, Content>, moves: seq<MoveEntry>)
    requires Grown(w0, fs, CopiesOf(moves))
    ensures forall q :: 0 <= q < |moves| ==> Landed(w0.fs, Deleted(fs, CopiesOf(moves), |CopiesOf(moves)|), moves, moves[q])
  {
    forall q | 0 <= q < |moves| && moves[q].to.Some?
      ensures Landed(w0.fs, Deleted(fs, CopiesOf(moves), |CopiesOf(moves)|), moves, moves[q])
    {
      MoveLands(w0, fs, moves, q, CopiesOf(moves));
    }
  }

  lemma MoveLands(w0: World, fs: map<Path, Content>, moves: seq<MoveEntry>, q: nat, copies: seq<Copy>)
    requires copies == CopiesOf(moves) && Grown(w0, fs, copies) && q < |moves| && moves[q].to.Some?
    ensures Landed(w0.fs, Deleted(fs, copies, |copies|), moves, moves[q])
  {
    var k := MoveIsCopied(moves, q);
    var last := Survivor(w0, fs, copies, k);
    assert IsSource(copies, |copies|, copies[k].src);
    assert LandedAt(w0.fs, Deleted(fs, copies, |copies|), copies, moves[q], k, last);
  }

  lemma SafeAtStart(w0: World, pathOps: bool)
    ensures Safe(w0, w0, pathOps)
  {
    assert Grown(w0, w0.fs, []);
    SafeWhileCopying(w0, w0.fs, [], pathOps);
    assert World(w0.fs, w0.index) == w0;
  }

  /** Every copy indexed and every source released; without path operations, the index as it
      was or with the copies added. */
  ghost predicate Deletable(w0: World, fs: map<Path, Content>, copies: seq<Copy>, index: set<(Path, string)>, msgOf: MsgOf, pathOps: bool)
    requires Grown(w0, fs, copies)
  {
    var added := Added(w0.index, fs, copies, |copies|, msgOf);
    if pathOps then index == Dropped(added, copies, |copies|) else index == added || index == w0.index
  }

  lemma DeleteSafe(w0: World, fs: map<Path, Content>, copies: seq<Copy>, d: nat, index: set<(Path, string)>, msgOf: MsgOf, pathOps: bool)
    requires Grown(w0, fs, copies) && Consistent(w0, msgOf) && d <= |copies|
    requires Deletable(w0, fs, copies, index, msgOf, pathOps)
    ensures Safe(w0, World(Deleted(fs, copies, d), index), pathOps)
  {
    if pathOps {
      SafeWhileReleasing(w0, fs, copies, |copies|, d, msgOf);
    } else if index == w0.index {
      AddedNone(w0.index, fs, copies, msgOf);
      SafeWithoutPathOps(w0, fs, copies, 0, d, msgOf);
    } else {
      SafeWithoutPathOps(w0, fs, copies, |copies|, d, msgOf);
    }
  }

  /** Every prefix of the deletes is safe. */
  ghost predicate SafeDeletes(w0: World, fs: map<Path, Content>, copies: seq<Copy>, index: set<(Path, string)>, pathOps: bool) {
    forall d :: 0 <= d <= |copies| ==> Safe(w0, World(Deleted(fs, copies, d), index), pathOps)
  }

  lemma DeletesSafe(w0: World, fs: map<Path, Content>, copies: seq<Copy>, index: set<(Path, string)>, msgOf: MsgOf, pathOps: bool)
    requires Grown(w0, fs, copies) && Consistent(w0, msgOf) && Deletable(w0, fs, copies, index, msgOf, pathOps)
    ensures SafeDeletes(w0, fs, copies, index, pathOps)
  {
    forall d: nat | d <= |copies| ensures Safe(w0, World(Deleted(fs, copies, d), index), pathOps) {
      DeleteSafe(w0, fs, copies, d, index, msgOf, pathOps);
    }
  }

  function Unnamed(index: set<(Path, string)>, p: Path): set<(Path, string)> {
    set pm | pm in index && pm.0 != p
  }

  lemma AddedNone(index: set<(Path, string)>, fs: map<Path, Content>, copies: seq<Copy>, msgOf: MsgOf)
    ensures Added(index, fs, copies, 0, msgOf) == index
  {
  }

  lemma AddedPair(index: set<(Path, string)>, fs: map<Path, Content>, copies: seq<Copy>, n: nat, msgOf: MsgOf)
    requires n < |copies| && forall k :: 0 <= k <= n ==> copies[k].dst in fs
    ensures Added(index, fs, copies, n + 1, msgOf) == Added(index, fs, copies, n, msgOf) + {(copies[n].dst, msgOf(fs[copies[n].dst]))}
  {
  }

  lemma AddedStep(w0: World, fs: map<Path, Content>, copies: seq<Copy>, n: nat, msgOf: MsgOf, pathOps: bool)
    requires Grown(w0, fs, copies) && n < |copies|
    ensures var now := Added(w0.index, fs, copies, n, msgOf) + {(copies[n].dst, msgOf(fs[copies[n].dst]))};
            now == Added(w0.index, fs, copies, n + 1, msgOf) && Safe(w0, World(fs, now), pathOps)
  {
    AddedPair(w0.index, fs, copies, n, msgOf);
    SafeWhileAdding(w0, fs, copies, n + 1, msgOf, pathOps);
  }

  lemma DroppedNone(index: set<(Path, string)>, copies: seq<Copy>)
    ensures Dropped(index, copies, 0) == index
  {
  }

  lemma SourceStep(copies: seq<Copy>, n: nat)
    requires n < |copies|
    ensures forall p :: IsSource(copies, n + 1, p) <==> IsSource(copies, n, p) || p == copies[n].src
  {
    forall p ensures IsSource(copies, n + 1, p) <==> IsSource(copies, n, p) || p == copies[n].src {
      assert copies[n].src == p ==> IsSource(copies, n + 1, p);
    }
  }

  lemma DroppedNext(index: set<(Path, string)>, copies: seq<Copy>, n: nat)
    requires n < |copies|
    ensures Unnamed(Dropped(index, copies, n), copies[n].src) == Dropped(index, copies, n + 1)
  {
    SourceStep(copies, n);
  }

  lemma DroppedStep(w0: World, fs: map<Path, Content>, copies: seq<Copy>, n: nat, msgOf: MsgOf)
    requires Grown(w0, fs, copies) && Consistent(w0, msgOf) && n < |copies|
    ensures var index := Added(w0.index, fs, copies, |copies|, msgOf);
            var now := Unnamed(Dropped(index, copies, n), copies[n].src);
            now == Dropped(index, copies, n + 1) && Safe(w0, World(fs, now), true)
  {
    var index := Added(w0.index, fs, copies, |copies|, msgOf);
    DroppedNext(index, copies, n);
    DeletedNone(fs, copies);
    SafeWhileReleasing(w0, fs, copies, n + 1, 0, msgOf);
  }

  lemma DeletedNone(fs: map<Path, Content>, copies: seq<Copy>)
    ensures Deleted(fs, copies, 0) == fs
  {
  }

  lemma DeletedStep(fs: map<Path, Content>, copies: seq<Copy>, d: nat)
    requires d < |copies|
    ensures Deleted(fs, copies, d) - {copies[d].src} == Deleted(fs, copies, d + 1)
  {
    SourceStep(copies, d);
  }

  // ---- The mover ----

  /** A backend's answer to a path operation; a failing one stops after n paths. */
  datatype Reply = Done | Unsupported | Broke(n: nat)

  /** The flock: free, held by another process past any wait, or not to be taken at all. */
  datatype Lock = Free | Held | Unusable

  /** What another process writes under the k-th copy's name after the mover found it free and before
      the rename. */
  type Arrivals = nat -> Option<Content>

  /** What goes wrong: which copies, how the index answers, which deletes; and what arrives late. */
  datatype Faults = Faults(copyFails: nat -> bool, late: Arrivals, add: Reply, remove: Reply, deleteFails: nat -> bool)

  datatype Outcome =
    | Moved(moves: seq<MoveEntry>)
    | Skipped
    | LockFailed
    | CopyFailed
    | AddFailed
    | RemoveFailed
    | DeleteFailed

  predicate PathOps(f: Faults) {
    !f.add.Unsupported? && !f.remove.Unsupported?
  }

  /** How many of n paths a path operation got through. */
  function Through(r: Reply, n: nat): nat {
    match r
    case Done => n
    case Unsupported => 0
    case Broke(k) => if k < n then k else n
  }

  /** The names a rename took over from a late arrival. */
  ghost function Overwritten(copies: seq<Copy>, late: Arrivals): set<Path> {
    set k | 0 <= k < |copies| && late(k).Some? :: copies[k].dst
  }

  lemma OverwrittenMore(copies: seq<Copy>, late: Arrivals, c: Copy)
    ensures Overwritten(copies + [c], late) == Overwritten(copies, late) + if late(|copies|).Some? then {c.dst} else {}
  {
    var now := copies + [c];
    forall p ensures p in Overwritten(now, late) <==> p in Overwritten(copies, late) + if late(|copies|).Some? then {c.dst} else {} {
      if p in Overwritten(copies, late) {
        var k :| 0 <= k < |copies| && late(k).Some? && copies[k].dst == p;
        assert now[k].dst == p;
      }
      if p == c.dst && late(|copies|).Some? {
        assert now[|copies|].dst == p;
      }
    }
  }

  /** A file another process adds under a free name harms nothing. */
  lemma SafeWithArrival(w0: World, w: World, dst: Path, c: Content, pathOps: bool)
    requires Safe(w0, w, pathOps) && dst !in w0.fs && dst !in w.fs
    ensures Safe(w0, World(w.fs[dst := c], w.index), pathOps)
  {
    var now := World(w.fs[dst := c], w.index);
    forall p | p in w0.fs ensures Survives(w0, now, w0.fs[p]) && (p in now.fs || SurvivesAsCopy(w0, now, w0.fs[p])) {
      var q :| q in w.fs && w.fs[q] == w0.fs[p];
      assert q in now.fs && now.fs[q] == w0.fs[p];
      if p !in w.fs {
        var r :| r in w.fs && r !in w0.fs && w.fs[r] == w0.fs[p];
        assert r in now.fs && now.fs[r] == w0.fs[p];
      }
    }
    forall p, m | (p, m) in w0.index && p in w0.fs ensures Kept(now, m, pathOps) {
      assert Kept(w, m, pathOps);
      var q :| (q, m) in w.index && (pathOps ==> q in w.fs);
      assert (q, m) in now.index;
    }
  }

  ghost predicate AllSafe(w0: World, states: seq<World>, pathOps: bool) {
    forall k :: 0 <= k < |states| ==> Safe(w0, states[k], pathOps)
  }

  class Mover {
    var world: World
    /** Every state the disk and the index went through. */
    ghost var trace: seq<World>
    /** Files of other processes a rename replaced. */
    ghost var overwritten: set<Path>
    const dryRun: bool
    const lockStrict: bool
    const msgOf: MsgOf

    constructor (world: World, dryRun: bool, lockStrict: bool, msgOf: MsgOf)
      ensures this.world == world && trace == [] && overwritten == {}
      ensures this.dryRun == dryRun && this.lockStrict == lockStrict && this.msgOf == msgOf
    {
      this.world, this.dryRun, this.lockStrict, this.msgOf := world, dryRun, lockStrict, msgOf;
      trace, overwritten := [], {};
    }

    /** One effect on the disk or the index. */
    method Step(w: World, ghost w0: World, ghost pathOps: bool)
      requires Safe(w0, w, pathOps) && AllSafe(w0, trace, pathOps)
      modifies `world, `trace
      ensures world == w && trace == old(trace) + [w] && AllSafe(w0, trace, pathOps)
    {
      world := w;
      trace := trace + [w];
    }

    /** Copying has got as far as the plan says. */
    ghost predicate Copying(w0: World, plan: Plan, late: Arrivals, pathOps: bool)
      reads this
    {
      && world.index == w0.index && plan.files == world.fs.Keys
      && HasGrown(w0, world.fs, plan.copies)
      && AllSafe(w0, trace, pathOps)
      && (dryRun ==> world == w0 && plan.copies == [])
      && overwritten == Overwritten(plan.copies, late)
    }

    /** The copy is published under its name in one step: a temp file is renamed onto it. The rename
        replaces whatever took the name since the mover looked. */
    method CopyFile(plan: Plan, me: MoveEntry, late: Arrivals, ghost w0: World, ghost pathOps: bool)
      requires !dryRun && Copying(w0, plan, late, pathOps)
      requires me.to.Some? && me.from in world.fs && me.to.value !in world.fs
      modifies `world, `trace, `overwritten
      ensures Copying(w0, Extended(plan, me, false), late, pathOps)
      ensures world.fs == old(world.fs)[me.to.value := old(world.fs)[me.from]]
      ensures overwritten == old(overwritten) + if late(|plan.copies|).Some? then {me.to.value} else {}
    {
      var f, dst := me.from, me.to.value;
      var fs := world.fs;
      assert Grown(w0, fs, plan.copies);
      OverwrittenMore(plan.copies, late, Copy(f, dst));
      Arrive(plan.copies, dst, late(|plan.copies|), w0, pathOps);
      CopyGrows(w0, fs, plan.copies, f, dst, pathOps);
      Step(World(fs[dst := fs[f]], world.index), w0, pathOps);
    }

    /** Another process may take the name. */
    method Arrive(ghost copies: seq<Copy>, dst: Path, c: Option<Content>, ghost w0: World, ghost pathOps: bool)
      requires Grown(w0, world.fs, copies) && world.index == w0.index && dst !in world.fs && AllSafe(w0, trace, pathOps)
      modifies `world, `trace, `overwritten
      ensures world.index == w0.index && AllSafe(w0, trace, pathOps)
      ensures overwritten == old(overwritten) + if c.Some? then {dst} else {}
    {
      if c.Some? {
        SafeWhileCopying(w0, world.fs, copies, pathOps);
        SafeWithArrival(w0, world, dst, c.value, pathOps);
        Step(World(world.fs[dst := c.value], world.index), w0, pathOps);
        overwritten := overwritten + {dst};
      }
    }

    /** Decides one file and copies it if it moves. */
    method MoveFile(before: Plan, id: string, f: Path, target: string, trees: set<string>, home: bool,
                    copyFails: nat -> bool, late: Arrivals, ghost w0: World, ghost pathOps: bool) returns (ok: bool, plan: Plan)
      requires Copying(w0, before, late, pathOps)
      modifies `world, `trace, `overwritten
      ensures Copying(w0, plan, late, pathOps)
      ensures ok ==> plan == Extended(before, Decide(before.files, id, f, target, trees, home), dryRun)
    {
      var me := Decide(world.fs.Keys, id, f, target, trees, home);
      plan := before;
      ok := true;
      if me.to.Some? && !dryRun {
        if copyFails(|before.copies|) {
          return false, before;
        }
        CopyFile(before, me, late, w0, pathOps);
      }
      plan := Extended(before, me, dryRun);
    }

    /** All of one message's files; home is decided for the message. */
    method CopyPaths(before: Plan, e: Entry, target: string, trees: set<string>, copyFails: nat -> bool, late: Arrivals,
                     ghost w0: World, ghost pathOps: bool) returns (ok: bool, plan: Plan)
      requires Copying(w0, before, late, pathOps)
      modifies `world, `trace, `overwritten
      ensures Copying(w0, plan, late, pathOps)
      ensures ok ==> plan == PlanPaths(before, e, |e.paths|, target, trees, dryRun)
    {
      plan := before;
      ok := true;
      var home := Home(e.paths, target);
      for k := 0 to |e.paths|
        invariant Copying(w0, plan, late, pathOps) && ok && plan == PlanPaths(before, e, k, target, trees, dryRun)
      {
        ok, plan := MoveFile(plan, e.id, e.paths[k], target, trees, home, copyFails, late, w0, pathOps);
        if !ok {
          return;
        }
      }
    }

    /** One entry's files, when its folder has a target. */
    method CopyEntry(before: Plan, e: Entry, targets: Targets, managed: map<string, set<string>>, copyFails: nat -> bool,
                     late: Arrivals, ghost w0: World, ghost pathOps: bool) returns (ok: bool, plan: Plan)
      requires Copying(w0, before, late, pathOps)
      modifies `world, `trace, `overwritten
      ensures Copying(w0, plan, late, pathOps)
      ensures var target := Target(targets, e);
              ok ==> plan == if target == "" then before else PlanPaths(before, e, |e.paths|, target, TreesOf(managed, e.account), dryRun)
    {
      var target := Target(targets, e);
      if target == "" {
        return true, before;
      }
      ok, plan := CopyPaths(before, e, target, TreesOf(managed, e.account), copyFails, late, w0, pathOps);
    }

    method CopyAll(entries: seq<Entry>, targets: Targets, managed: map<string, set<string>>, copyFails: nat -> bool, late: Arrivals,
                   ghost pathOps: bool) returns (ok: bool, plan: Plan)
      requires trace == [] && overwritten == {}
      modifies `world, `trace, `overwritten
      ensures Copying(old(world), plan, late, pathOps)
      ensures ok ==> plan == PlanEntries(old(world).fs.Keys, entries, |entries|, targets, managed, dryRun)
    {
      ghost var w0 := world;
      plan := Plan([], [], world.fs.Keys);
      assert Grown(w0, w0.fs, []);
      ok := true;
      for i := 0 to |entries|
        invariant Copying(w0, plan, late, pathOps) && ok
        invariant plan == PlanEntries(w0.fs.Keys, entries, i, targets, managed, dryRun)
      {
        ok, plan := CopyEntry(plan, entries[i], targets, managed, copyFails, late, w0, pathOps);
        if !ok {
          return;
        }
      }
    }

    /** Indexes the copies, one path at a time. */
    method AddPaths(copies: seq<Copy>, reply: Reply, ghost w0: World, ghost pathOps: bool)
      requires Grown(w0, world.fs, copies) && world.index == w0.index && AllSafe(w0, trace, pathOps)
      modifies `world, `trace
      ensures AllSafe(w0, trace, pathOps) && world.fs == old(world.fs)
      ensures world.index == Added(w0.index, world.fs, copies, Through(reply, |copies|), msgOf)
    {
      ghost var fs := world.fs;
      AddedNone(w0.index, fs, copies, msgOf);
      for n := 0 to Through(reply, |copies|)
        invariant world.fs == fs && AllSafe(w0, trace, pathOps)
        invariant world.index == Added(w0.index, fs, copies, n, msgOf)
      {
        var pair := (copies[n].dst, msgOf(world.fs[copies[n].dst]));
        AddedStep(w0, fs, copies, n, msgOf, pathOps);
        Step(World(world.fs, world.index + {pair}), w0, pathOps);
      }
    }

    /** Takes the sources out of the index, one path at a time. */
    method RemovePaths(copies: seq<Copy>, reply: Reply, ghost w0: World)
      requires Grown(w0, world.fs, copies) && Consistent(w0, msgOf) && AllSafe(w0, trace, true)
      requires world.index == Added(w0.index, world.fs, copies, |copies|, msgOf)
      modifies `world, `trace
      ensures AllSafe(w0, trace, true) && world.fs == old(world.fs)
      ensures world.index == Dropped(old(world.index), copies, Through(reply, |copies|))
    {
      ghost var fs, index := world.fs, world.index;
      DroppedNone(index, copies);
      for n := 0 to Through(reply, |copies|)
        invariant world.fs == fs && AllSafe(w0, trace, true) && world.index == Dropped(index, copies, n)
      {
        DroppedStep(w0, fs, copies, n, msgOf);
        Step(World(world.fs, Unnamed(world.index, copies[n].src)), w0, true);
      }
    }

    /** Deletes the sources in order; one already gone is fine. */
    method DeleteSources(copies: seq<Copy>, deleteFails: nat -> bool, ghost w0: World, ghost fs: map<Path, Content>, ghost pathOps: bool)
      returns (ok: bool)
      requires world.fs == fs && AllSafe(w0, trace, pathOps) && SafeDeletes(w0, fs, copies, world.index, pathOps)
      modifies `world, `trace
      ensures AllSafe(w0, trace, pathOps) && world.index == old(world.index)
      ensures Safe(w0, world, pathOps)
      ensures ok ==> world.fs == Deleted(fs, copies, |copies|)
    {
      ok := true;
      DeletedNone(fs, copies);
      for d := 0 to |copies|
        invariant ok && AllSafe(w0, trace, pathOps) && world == World(Deleted(fs, copies, d), old(world.index))
      {
        var p := copies[d].src;
        if p in world.fs && deleteFails(d) {
          ok := false;
          return;
        }
        DeletedStep(fs, copies, d);
        Step(World(world.fs - {p}, world.index), w0, pathOps);
      }
    }

    /** The index moves off the sources before any source goes. */
    method Publish(plan: Plan, faults: Faults, ghost w0: World) returns (out: Outcome)
      requires Copying(w0, plan, faults.late, PathOps(faults)) && Consistent(w0, msgOf) && !dryRun
      modifies `world, `trace
      ensures AllSafe(w0, trace, PathOps(faults)) && Safe(w0, world, PathOps(faults))
      ensures out.Moved? || out.AddFailed? || out.RemoveFailed? || out.DeleteFailed?
      ensures out.Moved? ==> out.moves == plan.moves && world.fs == Deleted(old(world.fs), plan.copies, |plan.copies|)
      ensures out.AddFailed? || out.RemoveFailed? ==> world.fs == old(world.fs)
    {
      ghost var fs := world.fs;
      assert Grown(w0, fs, plan.copies);
      AddPaths(plan.copies, faults.add, w0, PathOps(faults));
      SafeWhileAdding(w0, fs, plan.copies, Through(faults.add, |plan.copies|), msgOf, PathOps(faults));
      if faults.add.Broke? {
        return AddFailed;
      }
      if faults.add.Done? && !faults.remove.Unsupported? {
        RemovePaths(plan.copies, faults.remove, w0);
        DeletedNone(fs, plan.copies);
        SafeWhileReleasing(w0, fs, plan.copies, Through(faults.remove, |plan.copies|), 0, msgOf);
        if faults.remove.Broke? {
          return RemoveFailed;
        }
      }
      AddedNone(w0.index, fs, plan.copies, msgOf);
      DeletesSafe(w0, fs, plan.copies, world.index, msgOf, PathOps(faults));
      var ok := DeleteSources(plan.copies, faults.deleteFails, w0, fs, PathOps(faults));
      out := if ok then Moved(plan.moves) else DeleteFailed;
    }

    /** Moves every entry's files. Whatever fails, and wherever a crash stops it, every state it
        passes through is safe. */
    method Move(entries: seq<Entry>, accounts: map<string, Classify.Account>, disk: Disk, lock: Lock, faults: Faults)
      returns (out: Outcome, targets: Targets, managed: map<string, set<string>>)
      requires Consistent(world, msgOf) && trace == [] && overwritten == {}
      modifies this
      ensures AllSafe(old(world), trace, PathOps(faults)) && Safe(old(world), world, PathOps(faults))
      ensures dryRun ==> world == old(world)
      ensures (forall k :: faults.late(k).None?) ==> overwritten == {}
      ensures out.Moved? ==>
                overwritten == Overwritten(PlanEntries(old(world).fs.Keys, entries, |entries|, targets, managed, dryRun).copies, faults.late)
      ensures !out.Moved? && !out.DeleteFailed? ==> forall p <- old(world).fs :: p in world.fs
      ensures out.Skipped? || out.LockFailed? ==> !dryRun && lock != Free && world == old(world)
      ensures out.Moved? ==> Resolved(targets, managed, entries, accounts, disk)
      ensures out.Moved? ==>
                var plan := PlanEntries(old(world).fs.Keys, entries, |entries|, targets, managed, dryRun);
                && out.moves == plan.moves && AllWarranted(out.moves, entries, targets, managed)
                && AllAnswered(out.moves, old(world).fs.Keys, entries, |entries|, targets, managed, dryRun)
                && (forall k :: 0 <= k < |plan.copies| ==>
                      (plan.copies[k].dst in world.fs || IsSource(plan.copies, |plan.copies|, plan.copies[k].dst))
                      && plan.copies[k].src !in world.fs)
      ensures out.Moved? && !dryRun ==>
                forall q :: 0 <= q < |out.moves| ==> Landed(old(world).fs, world.fs, out.moves, out.moves[q])
    {
      ghost var w0 := world;
      SafeAtStart(w0, PathOps(faults));
      targets, managed := map[], map[];
      if !dryRun && lock != Free {
        out := if lock == Held && !lockStrict then Skipped else LockFailed;
        return;
      }
      targets, managed := ResolveAccounts(entries, accounts, disk);
      var ok, plan := CopyAll(entries, targets, managed, faults.copyFails, faults.late, PathOps(faults));
      assert Grown(w0, world.fs, plan.copies);
      SafeWhileCopying(w0, world.fs, plan.copies, PathOps(faults));
      if !ok {
        out := CopyFailed;
        return;
      }
      PlanWarranted(w0.fs.Keys, entries, |entries|, targets, managed, dryRun);
      PlanAnswers(w0.fs.Keys, entries, |entries|, targets, managed, dryRun);
      if !dryRun {
        PlanCopies(w0.fs.Keys, entries, |entries|, targets, managed);
        MovesLand(w0, world.fs, plan.moves);
        DeletedNone(world.fs, plan.copies);
      }
      if dryRun || |plan.copies| == 0 {
        out := Moved(plan.moves);
        return;
      }
      out := Publish(plan, faults, w0);
    }
  }
}
