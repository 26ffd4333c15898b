/** The reference tree and its flatten into index rows (src/core/view.go). */
module Tree {
  import opened Mail

  datatype Node = Node(msg: Option<Message>, children: seq<Node>, forest: bool)

  predicate UniqueIds(msgs: seq<Message>) {
    forall i, j :: 0 <= i < j < |msgs| ==> msgs[i].id != msgs[j].id
  }

  /** The node map: the last message with the id. */
  function Find(msgs: seq<Message>, id: string): (r: Option<nat>)
    ensures r.Some? ==> r.value < |msgs| && msgs[r.value].id == id
    ensures r.None? ==> forall i :: 0 <= i < |msgs| ==> msgs[i].id != id
  {
    if msgs == [] then None
    else if msgs[|msgs| - 1].id == id then Some(|msgs| - 1)
    else Find(msgs[..|msgs| - 1], id)
  }

  /** The nearest present reference among the first k, scanned in reverse. */
  function ParentScan(msgs: seq<Message>, m: Message, k: nat): (r: Option<nat>)
    requires k <= |m.references|
    ensures r.Some? ==> r.value < |msgs|
  {
    if k == 0 then None
    else
      var ref := m.references[k - 1];
      if ref != m.id && Find(msgs, ref).Some? then Find(msgs, ref) else ParentScan(msgs, m, k - 1)
  }

  function ParentOf(msgs: seq<Message>, i: nat): (r: Option<nat>)
    requires i < |msgs|
    ensures r.Some? ==> r.value < |msgs|
  {
    ParentScan(msgs, msgs[i], |msgs[i].references|)
  }

  /** The messages among the first n that hang under parent p (the roots for None), in list order. */
  function Hanging(msgs: seq<Message>, p: Option<nat>, n: nat): (r: seq<nat>)
    requires n <= |msgs|
    ensures |r| <= n && forall k :: 0 <= k < |r| ==> r[k] < n && ParentOf(msgs, r[k]) == p
  {
    if n == 0 then []
    else Hanging(msgs, p, n - 1) + (if ParentOf(msgs, n - 1) == p then [n - 1] else [])
  }

  function ChildrenOf(msgs: seq<Message>, i: nat): seq<nat> {
    Hanging(msgs, Some(i), |msgs|)
  }

  function Roots(msgs: seq<Message>): seq<nat> {
    Hanging(msgs, None, |msgs|)
  }

  /** The parent chain of i ends at a root after d steps. */
  predicate HasDepth(msgs: seq<Message>, i: nat, d: nat)
    decreases d
  {
    i < |msgs| &&
    if d == 0 then ParentOf(msgs, i) == None
    else ParentOf(msgs, i).Some? && HasDepth(msgs, ParentOf(msgs, i).value, d - 1)
  }

  ghost predicate Reaches(msgs: seq<Message>, i: nat) {
    exists d: nat :: HasDepth(msgs, i, d)
  }

  lemma {:induction false} DepthUnique(msgs: seq<Message>, i: nat, d: nat, e: nat)
    requires HasDepth(msgs, i, d) && HasDepth(msgs, i, e)
    ensures d == e
    decreases d
  {
    if d > 0 && e > 0 {
      DepthUnique(msgs, ParentOf(msgs, i).value, d - 1, e - 1);
    }
  }

  ghost predicate DepthAtMost(msgs: seq<Message>, i: nat, d: int) {
    exists e :: 0 <= e <= d && HasDepth(msgs, i, e)
  }

  /** i and its ancestors, d + 1 different messages. */
  lemma {:induction false} DepthBound(msgs: seq<Message>, i: nat, d: nat) returns (chain: set<nat>)
    requires HasDepth(msgs, i, d)
    ensures |chain| == d + 1
    ensures forall j :: j in chain ==> j < |msgs| && DepthAtMost(msgs, j, d)
    ensures d < |msgs|
    decreases d
  {
    assert HasDepth(msgs, i, d);
    if d == 0 {
      chain := {i};
    } else {
      var above := DepthBound(msgs, ParentOf(msgs, i).value, d - 1);
      assert i !in above by {
        if i in above {
          var e :| 0 <= e <= d - 1 && HasDepth(msgs, i, e);
          DepthUnique(msgs, i, d, e);
        }
      }
      chain := above + {i};
      forall j | j in above ensures DepthAtMost(msgs, j, d) {
        var e :| 0 <= e <= d - 1 && HasDepth(msgs, j, e);
      }
    }
    SetBound(chain, |msgs|);
  }

  lemma {:induction false} SetBound(s: set<nat>, n: nat)
    requires forall j :: j in s ==> j < n
    ensures |s| <= n
  {
    if n > 0 {
      SetBound(s - {n - 1}, n - 1);
    }
  }

  lemma DepthFits(msgs: seq<Message>, i: nat, d: nat)
    requires HasDepth(msgs, i, d)
    ensures d < |msgs|
  {
    var chain := DepthBound(msgs, i, d);
  }

  // ---- The tree, as a value ----

  function TreeAt(msgs: seq<Message>, i: nat, d: nat): Node
    requires HasDepth(msgs, i, d)
    decreases |msgs| - d, |msgs| + 1
  {
    DepthFits(msgs, i, d);
    Node(Some(msgs[i]), TreesAt(msgs, ChildrenOf(msgs, i), d + 1, i), false)
  }

  function TreesAt(msgs: seq<Message>, kids: seq<nat>, d: nat, p: nat): seq<Node>
    requires d > 0 && HasDepth(msgs, p, d - 1) && d <= |msgs|
    requires |kids| <= |msgs|
    requires forall k :: 0 <= k < |kids| ==> kids[k] < |msgs| && ParentOf(msgs, kids[k]) == Some(p)
    decreases |msgs| - d + 1, |kids|
  {
    if kids == [] then []
    else [TreeAt(msgs, kids[0], d)] + TreesAt(msgs, kids[1..], d, p)
  }

  /** The whole tree: one root stands alone, several hang under a synthetic one. */
  function TreeOf(msgs: seq<Message>): Option<Node> {
    var roots := Roots(msgs);
    if roots == [] then None
    else if |roots| == 1 then Some(TreeAt(msgs, roots[0], 0))
    else Some(Node(None, RootTrees(msgs, roots), |roots| == |msgs|))
  }

  function RootTrees(msgs: seq<Message>, roots: seq<nat>): seq<Node>
    requires forall k :: 0 <= k < |roots| ==> roots[k] < |msgs| && ParentOf(msgs, roots[k]) == None
  {
    if roots == [] then [] else [TreeAt(msgs, roots[0], 0)] + RootTrees(msgs, roots[1..])
  }

  lemma FindUnique(msgs: seq<Message>, i: nat)
    requires UniqueIds(msgs) && i < |msgs|
    ensures Find(msgs, msgs[i].id) == Some(i)
  {
  }

  /** The reference names another message of the list. */
  predicate NamesOther(msgs: seq<Message>, i: nat, ref: string)
    requires i < |msgs|
  {
    ref != msgs[i].id && exists p :: 0 <= p < |msgs| && msgs[p].id == ref
  }

  /** Of the first n references, the k-th is the last to name another message, and that one is p. */
  predicate NearestAt(msgs: seq<Message>, i: nat, n: nat, k: nat, p: nat)
    requires i < |msgs| && n <= |msgs[i].references|
  {
    && k < n && p < |msgs| && p != i && msgs[i].references[k] == msgs[p].id
    && forall l :: k < l < n ==> !NamesOther(msgs, i, msgs[i].references[l])
  }

  lemma {:induction false} ScanNearest(msgs: seq<Message>, i: nat, n: nat)
    requires UniqueIds(msgs) && i < |msgs| && n <= |msgs[i].references|
    ensures var r := ParentScan(msgs, msgs[i], n);
            if r.None? then forall l :: 0 <= l < n ==> !NamesOther(msgs, i, msgs[i].references[l])
            else exists k: nat :: NearestAt(msgs, i, n, k, r.value)
  {
    if n > 0 {
      var ref := msgs[i].references[n - 1];
      if ref != msgs[i].id && Find(msgs, ref).Some? {
        assert NearestAt(msgs, i, n, n - 1, Find(msgs, ref).value);
      } else {
        ScanNearest(msgs, i, n - 1);
        assert !NamesOther(msgs, i, ref);
        var r := ParentScan(msgs, msgs[i], n - 1);
        if r.Some? {
          var k: nat :| NearestAt(msgs, i, n - 1, k, r.value);
          assert NearestAt(msgs, i, n, k, r.value);
        }
      }
    }
  }

  /** A message hangs under p exactly when its last reference to any other message of the list is to
      p; it is a root exactly when no reference names another message. */
  lemma ParentNearest(msgs: seq<Message>, i: nat, p: nat)
    requires UniqueIds(msgs) && i < |msgs|
    ensures var refs := msgs[i].references;
            && (ParentOf(msgs, i) == None <==> forall l :: 0 <= l < |refs| ==> !NamesOther(msgs, i, refs[l]))
            && (ParentOf(msgs, i) == Some(p) <==> exists k: nat :: NearestAt(msgs, i, |refs|, k, p))
  {
    var refs := msgs[i].references;
    ScanNearest(msgs, i, |refs|);
    if k: nat :| NearestAt(msgs, i, |refs|, k, p) {
      assert NamesOther(msgs, i, refs[k]);
      var q := ParentOf(msgs, i).value;
      var l: nat :| NearestAt(msgs, i, |refs|, l, q);
      assert NamesOther(msgs, i, refs[l]);
    }
  }

  ghost predicate NodeMap(nodes: map<string, nat>, msgs: seq<Message>) {
    && (forall id :: id in nodes ==> nodes[id] < |msgs| && msgs[nodes[id]].id == id)
    && (forall k :: 0 <= k < |msgs| ==> msgs[k].id in nodes)
  }

  /** Scans the references in reverse so the nearest present ancestor wins. */
  method FindParent(nodes: map<string, nat>, msgs: seq<Message>, i: nat) returns (parent: Option<nat>)
    requires UniqueIds(msgs) && NodeMap(nodes, msgs) && i < |msgs|
    ensures parent == ParentOf(msgs, i)
  {
    var m := msgs[i];
    var k := |m.references|;
    while k > 0
      invariant 0 <= k <= |m.references|
      invariant ParentScan(msgs, m, k) == ParentOf(msgs, i)
    {
      k := k - 1;
      var ref := m.references[k];
      if ref != m.id && ref in nodes {
        FindUnique(msgs, nodes[ref]);
        return Some(nodes[ref]);
      }
    }
    parent := None;
  }

  method IndexNodes(msgs: seq<Message>) returns (nodes: map<string, nat>)
    ensures NodeMap(nodes, msgs)
  {
    nodes := map[];
    for i := 0 to |msgs|
      invariant forall id :: id in nodes ==> nodes[id] < i && msgs[nodes[id]].id == id
      invariant forall k :: 0 <= k < i ==> msgs[k].id in nodes
    {
      nodes := nodes[msgs[i].id := i];
    }
  }

  lemma HangingStep(msgs: seq<Message>, p: Option<nat>, i: nat)
    requires i < |msgs|
    ensures Hanging(msgs, p, i + 1) == Hanging(msgs, p, i) + if ParentOf(msgs, i) == p then [i] else []
  {
  }

  ghost predicate HungUpTo(msgs: seq<Message>, children: seq<seq<nat>>, i: nat)
    requires i <= |msgs|
  {
    |children| == |msgs| && forall p :: 0 <= p < |msgs| ==> children[p] == Hanging(msgs, Some(p), i)
  }

  /** Message i joins its parent's list and no other. */
  lemma HangStep(msgs: seq<Message>, children: seq<seq<nat>>, i: nat)
    requires i < |msgs| && HungUpTo(msgs, children, i)
    ensures var p := ParentOf(msgs, i);
            HungUpTo(msgs, if p.None? then children else children[p.value := children[p.value] + [i]], i + 1)
  {
    var p := ParentOf(msgs, i);
    var now := if p.None? then children else children[p.value := children[p.value] + [i]];
    forall q | 0 <= q < |msgs| ensures now[q] == Hanging(msgs, Some(q), i + 1) {
      HangingStep(msgs, Some(q), i);
    }
  }

  method HangAll(msgs: seq<Message>, nodes: map<string, nat>) returns (children: seq<seq<nat>>, roots: seq<nat>)
    requires UniqueIds(msgs) && NodeMap(nodes, msgs)
    ensures roots == Roots(msgs) && HungUpTo(msgs, children, |msgs|)
  {
    children := seq(|msgs|, _ => []);
    roots := [];
    for i := 0 to |msgs|
      invariant roots == Hanging(msgs, None, i) && HungUpTo(msgs, children, i)
    {
      children, roots := HangOne(msgs, nodes, children, roots, i);
    }
  }

  method HangOne(msgs: seq<Message>, nodes: map<string, nat>, was: seq<seq<nat>>, above: seq<nat>, i: nat)
    returns (children: seq<seq<nat>>, roots: seq<nat>)
    requires UniqueIds(msgs) && NodeMap(nodes, msgs) && i < |msgs|
    requires above == Hanging(msgs, None, i) && HungUpTo(msgs, was, i)
    ensures roots == Hanging(msgs, None, i + 1) && HungUpTo(msgs, children, i + 1)
  {
    var parent := FindParent(nodes, msgs, i);
    HangingStep(msgs, None, i);
    HangStep(msgs, was, i);
    children, roots := was, above;
    if parent.None? {
      roots := roots + [i];
    } else {
      children := children[parent.value := children[parent.value] + [i]];
    }
  }

  /** The node map, the child lists and the roots, built by appending. */
  method BuildTree(msgs: seq<Message>) returns (root: Option<Node>)
    requires UniqueIds(msgs)
    ensures root == TreeOf(msgs)
  {
    var nodes := IndexNodes(msgs);
    var children, roots := HangAll(msgs, nodes);
    if roots == [] {
      return None;
    }
    root := Assemble(msgs, children, roots);
  }

  /** The linked nodes read as a value: child lists become the children of their node. */
  method Assemble(msgs: seq<Message>, children: seq<seq<nat>>, roots: seq<nat>) returns (root: Option<Node>)
    requires roots == Roots(msgs) && roots != []
    requires |children| == |msgs| && forall p :: 0 <= p < |msgs| ==> children[p] == ChildrenOf(msgs, p)
    ensures root == TreeOf(msgs)
  {
    if |roots| == 1 {
      var n := Link(msgs, children, roots[0], 0);
      return Some(n);
    }
    var nodes := LinkRoots(msgs, children, roots);
    root := Some(Node(None, nodes, |roots| == |msgs|));
  }

  method LinkRoots(msgs: seq<Message>, children: seq<seq<nat>>, roots: seq<nat>) returns (nodes: seq<Node>)
    requires forall k :: 0 <= k < |roots| ==> roots[k] < |msgs| && ParentOf(msgs, roots[k]) == None
    requires |children| == |msgs| && forall p :: 0 <= p < |msgs| ==> children[p] == ChildrenOf(msgs, p)
    ensures nodes == RootTrees(msgs, roots)
  {
    nodes := [];
    for k := 0 to |roots|
      invariant nodes + RootTrees(msgs, roots[k..]) == RootTrees(msgs, roots)
    {
      assert roots[k..][1..] == roots[k + 1..];
      var n := Link(msgs, children, roots[k], 0);
      nodes := nodes + [n];
    }
    assert roots[|roots|..] == [];
  }

  method Link(msgs: seq<Message>, children: seq<seq<nat>>, i: nat, ghost d: nat) returns (node: Node)
    requires HasDepth(msgs, i, d)
    requires |children| == |msgs| && forall p :: 0 <= p < |msgs| ==> children[p] == ChildrenOf(msgs, p)
    ensures node == TreeAt(msgs, i, d)
    decreases |msgs| - d
  {
    DepthFits(msgs, i, d);
    var kids, nodes := children[i], [];
    for k := 0 to |kids|
      invariant nodes + TreesAt(msgs, kids[k..], d + 1, i) == TreesAt(msgs, kids, d + 1, i)
    {
      assert ParentOf(msgs, kids[k]) == Some(i) && HasDepth(msgs, kids[k], d + 1);
      DepthFits(msgs, kids[k], d + 1);
      var n := Link(msgs, children, kids[k], d + 1);
      LinkStep(msgs, kids, k, d + 1, i, nodes, n);
      nodes := nodes + [n];
    }
    assert kids[|kids|..] == [];
    node := Node(Some(msgs[i]), nodes, false);
  }

  lemma LinkStep(msgs: seq<Message>, kids: seq<nat>, k: nat, d: nat, p: nat, nodes: seq<Node>, n: Node)
    requires d > 0 && HasDepth(msgs, p, d - 1) && d <= |msgs| && |kids| <= |msgs| && k < |kids|
    requires forall j :: 0 <= j < |kids| ==> kids[j] < |msgs| && ParentOf(msgs, kids[j]) == Some(p)
    requires n == TreeAt(msgs, kids[k], d)
    ensures nodes + TreesAt(msgs, kids[k..], d, p) == nodes + [n] + TreesAt(msgs, kids[k + 1..], d, p)
  {
    assert kids[k..][1..] == kids[k + 1..];
  }

  // ---- The flatten ----

  datatype Row = Row(
    msg: Option<Message>, threadID: string, depth: nat, root: bool, siblings: seq<bool>, count: nat,
    marker: bool, more: nat, moreTop: nat, staged: bool, stagedTags: seq<string>, collapsed: bool, desc: bool)

  /** What a thread's walk carries along. */
  datatype Walker = Walker(threadID: string, count: nat, skipDeleted: bool, desc: bool)

  function MsgRow(w: Walker, m: Message, depth: nat, siblings: seq<bool>): Row {
    Row(Some(m), w.threadID, depth, depth == 0, siblings, w.count, false, 0, 0, false, [], false, w.desc)
  }

  function MarkerRow(w: Walker, depth: nat, siblings: seq<bool>): Row {
    Row(None, w.threadID, depth, false, siblings, w.count, true, 0, 0, false, [], false, w.desc)
  }

  function Size(n: Node): (k: nat)
    ensures k >= 1
  {
    1 + SizeAll(n.children)
  }

  function SizeAll(ns: seq<Node>): nat {
    if ns == [] then 0 else Size(ns[0]) + SizeAll(ns[1..])
  }

  function Max(a: int, b: int): int {
    if b > a then b else a
  }

  /** The newest timestamp anywhere in the subtree. */
  function SubtreeMax(n: Node): int
    decreases Size(n), 0
  {
    MaxAll(if n.msg.Some? then n.msg.value.timestamp else 0, n.children)
  }

  function MaxAll(m: int, ns: seq<Node>): int
    decreases SizeAll(ns), 1
  {
    if ns == [] then m else MaxAll(Max(m, SubtreeMax(ns[0])), ns[1..])
  }

  /** Stable insertion: before everything at least as new. */
  function Inserted(x: Node, ns: seq<Node>): (r: seq<Node>)
    ensures SizeAll(r) == Size(x) + SizeAll(ns) && |r| == |ns| + 1
  {
    if ns == [] || SubtreeMax(x) <= SubtreeMax(ns[0]) then [x] + ns
    else
      var rest := Inserted(x, ns[1..]);
      assert ([ns[0]] + rest)[1..] == rest;
      [ns[0]] + rest
  }

  function StableSorted(ns: seq<Node>): (r: seq<Node>)
    ensures SizeAll(r) == SizeAll(ns) && |r| == |ns|
  {
    if ns == [] then [] else Inserted(ns[0], StableSorted(ns[1..]))
  }

  function OrderedChildren(ns: seq<Node>, desc: bool): (r: seq<Node>)
    ensures SizeAll(r) == SizeAll(ns) && |r| == |ns|
  {
    if !desc || |ns| <= 1 then ns else StableSorted(ns)
  }

  function Hides(w: Walker, n: Node): bool {
    w.skipDeleted && n.msg.Some? && "deleted" in n.msg.value.tags && n.children == []
  }

  /** Depth-first rows of a subtree. */
  function Walk(w: Walker, n: Node, depth: nat, siblings: seq<bool>): seq<Row>
    decreases Size(n), 0
  {
    var kids := OrderedChildren(n.children, w.desc);
    if n.msg.None? then
      if n.forest then WalkAll(w, kids, 0, depth, None)
      else [MarkerRow(w, depth, siblings)] + WalkAll(w, kids, 0, depth + 1, Some(siblings))
    else if Hides(w, n) then []
    else [MsgRow(w, n.msg.value, depth, siblings)] + WalkAll(w, kids, 0, depth + 1, Some(siblings))
  }

  /** The rows of a sibling list, of which the first i are done; chain is the parent's sibling chain. */
  function WalkAll(w: Walker, kids: seq<Node>, i: nat, depth: nat, chain: Option<seq<bool>>): seq<Row>
    decreases SizeAll(kids), 1
  {
    if kids == [] then []
    else
      var hasBelow := if w.desc then i != 0 else |kids| != 1;
      var siblings := if chain.None? then [] else [hasBelow] + chain.value;
      Walk(w, kids[0], depth, siblings) + WalkAll(w, kids[1..], i + 1, depth, chain)
  }

  function Reversed<T>(s: seq<T>): (r: seq<T>)
    ensures |r| == |s| && forall k :: 0 <= k < |s| ==> r[k] == s[|s| - 1 - k]
  {
    seq(|s|, k requires 0 <= k < |s| => s[|s| - 1 - k])
  }

  /** Every message of the tree, in stored depth-first order. */
  function Stored(n: Node): seq<Message> {
    (if n.msg.Some? then [n.msg.value] else []) + StoredAll(n.children)
  }

  function StoredAll(ns: seq<Node>): seq<Message> {
    if ns == [] then [] else Stored(ns[0]) + StoredAll(ns[1..])
  }

  function Count(root: Option<Node>): nat {
    if root.None? then 0 else |Stored(root.value)|
  }

  /** The newest of the messages that pass, the first one on ties. */
  function Newest(ms: seq<Message>, pass: Message -> bool): Option<Message> {
    if ms == [] then None
    else
      var best, m := Newest(ms[..|ms| - 1], pass), ms[|ms| - 1];
      if pass(m) && (best.None? || m.timestamp > best.value.timestamp) then Some(m) else best
  }

  /** What a collapsed thread shows: the newest unread message, else the newest. */
  function CollapseMsg(root: Node, skipDeleted: bool): Option<Message> {
    var kept := (m: Message) => !skipDeleted || "deleted" !in m.tags;
    var unread := Newest(Stored(root), (m: Message) => kept(m) && "unread" in m.tags);
    if unread.Some? then unread else Newest(Stored(root), kept)
  }

  function SummaryRow(id: string, root: Node, count: nat, skipDeleted: bool): Row {
    Row(CollapseMsg(root, skipDeleted), id, 0, false, [], count, false, 0, 0, false, [], true, false)
  }

  function Flatten(root: Option<Node>, id: string, collapsed: bool, skipDeleted: bool, desc: bool): seq<Row> {
    if root.None? then []
    else if collapsed then [SummaryRow(id, root.value, Count(root), skipDeleted)]
    else
      var rows := Walk(Walker(id, Count(root), skipDeleted, desc), root.value, 0, []);
      if desc then Reversed(rows) else rows
  }

  lemma {:induction false} NewestIsNewest(ms: seq<Message>, pass: Message -> bool)
    ensures var r := Newest(ms, pass);
            && (r.Some? <==> exists k :: 0 <= k < |ms| && pass(ms[k]))
            && (r.Some? ==> r.value in ms && pass(r.value))
            && (r.Some? ==> forall k :: 0 <= k < |ms| && pass(ms[k]) ==> ms[k].timestamp <= r.value.timestamp)
  {
    if ms != [] {
      var front := ms[..|ms| - 1];
      NewestIsNewest(front, pass);
      assert forall k :: 0 <= k < |front| ==> front[k] == ms[k];
      var r := Newest(front, pass);
      assert r.Some? ==> r.value in ms;
    }
  }

  // ---- What the flatten emits ----

  function MsgsOf(rows: seq<Row>): seq<Message> {
    if rows == [] then []
    else (if rows[0].msg.Some? then [rows[0].msg.value] else []) + MsgsOf(rows[1..])
  }

  lemma {:induction false} MsgsOfAppend(a: seq<Row>, b: seq<Row>)
    ensures MsgsOf(a + b) == MsgsOf(a) + MsgsOf(b)
  {
    if a == [] {
      assert a + b == b;
    } else {
      assert a + b == [a[0]] + (a[1..] + b) && a == [a[0]] + a[1..];
      MsgsOfAppend(a[1..], b);
      TopRow(a[0], a[1..] + b);
      TopRow(a[0], a[1..]);
    }
  }

  /** The messages a walk may show: all of the subtree but the childless deleted ones. */
  function Visible(w: Walker, n: Node): multiset<Message>
    decreases Size(n), 0
  {
    if n.msg.None? then VisibleAll(w, n.children)
    else if Hides(w, n) then multiset{}
    else multiset{n.msg.value} + VisibleAll(w, n.children)
  }

  function VisibleAll(w: Walker, ns: seq<Node>): multiset<Message>
    decreases SizeAll(ns), 1
  {
    if ns == [] then multiset{} else Visible(w, ns[0]) + VisibleAll(w, ns[1..])
  }

  lemma {:induction false} SortVisible(w: Walker, ns: seq<Node>)
    ensures VisibleAll(w, StableSorted(ns)) == VisibleAll(w, ns)
  {
    if ns != [] {
      SortVisible(w, ns[1..]);
      InsertVisible(w, ns[0], StableSorted(ns[1..]));
    }
  }

  lemma {:induction false} InsertVisible(w: Walker, x: Node, ns: seq<Node>)
    ensures VisibleAll(w, Inserted(x, ns)) == Visible(w, x) + VisibleAll(w, ns)
  {
    if ns == [] || SubtreeMax(x) <= SubtreeMax(ns[0]) {
      assert ([x] + ns)[1..] == ns;
    } else {
      InsertVisible(w, x, ns[1..]);
      assert Inserted(x, ns)[1..] == Inserted(x, ns[1..]);
    }
  }

  lemma {:induction false} WalkEmits(w: Walker, n: Node, depth: nat, siblings: seq<bool>)
    ensures multiset(MsgsOf(Walk(w, n, depth, siblings))) == Visible(w, n)
    decreases Size(n), 0
  {
    var kids := OrderedChildren(n.children, w.desc);
    if w.desc && |n.children| > 1 {
      SortVisible(w, n.children);
    }
    if n.msg.None? && n.forest {
      WalkAllEmits(w, kids, 0, depth, None);
    } else if !Hides(w, n) {
      var below := WalkAll(w, kids, 0, depth + 1, Some(siblings));
      WalkAllEmits(w, kids, 0, depth + 1, Some(siblings));
      var top := if n.msg.None? then MarkerRow(w, depth, siblings) else MsgRow(w, n.msg.value, depth, siblings);
      TopRow(top, below);
    }
  }

  lemma TopRow(top: Row, below: seq<Row>)
    ensures MsgsOf([top] + below) == (if top.msg.Some? then [top.msg.value] else []) + MsgsOf(below)
  {
    assert ([top] + below)[1..] == below;
  }

  lemma {:induction false} WalkAllEmits(w: Walker, kids: seq<Node>, i: nat, depth: nat, chain: Option<seq<bool>>)
    ensures multiset(MsgsOf(WalkAll(w, kids, i, depth, chain))) == VisibleAll(w, kids)
    decreases SizeAll(kids), 1
  {
    if kids != [] {
      var hasBelow := if w.desc then i != 0 else |kids| != 1;
      var siblings := if chain.None? then [] else [hasBelow] + chain.value;
      WalkEmits(w, kids[0], depth, siblings);
      WalkAllEmits(w, kids[1..], i + 1, depth, chain);
      MsgsOfAppend(Walk(w, kids[0], depth, siblings), WalkAll(w, kids[1..], i + 1, depth, chain));
    }
  }

  // ---- Which messages the tree holds ----

  /** i, at depth d, lies on the parent chain of j, at depth e. */
  predicate Under(msgs: seq<Message>, j: nat, e: nat, i: nat, d: nat)
    requires HasDepth(msgs, j, e)
    decreases e
  {
    if e < d then false
    else if e == d then i == j
    else Under(msgs, ParentOf(msgs, j).value, e - 1, i, d)
  }

  lemma {:induction false} HangingComplete(msgs: seq<Message>, p: Option<nat>, n: nat, j: nat)
    requires j < n <= |msgs|
    ensures j in Hanging(msgs, p, n) <==> ParentOf(msgs, j) == p
  {
    if j < n - 1 {
      HangingComplete(msgs, p, n - 1, j);
    }
  }

  lemma {:induction false} HangingDistinct(msgs: seq<Message>, p: Option<nat>, n: nat)
    requires n <= |msgs|
    ensures Increasing(Hanging(msgs, p, n))
  {
    if n > 0 {
      HangingDistinct(msgs, p, n - 1);
    }
  }

  predicate Increasing(s: seq<nat>) {
    forall a, b :: 0 <= a < b < |s| ==> s[a] < s[b]
  }

  lemma {:induction false} UnderUnique(msgs: seq<Message>, j: nat, e: nat, a: nat, b: nat, d: nat)
    requires HasDepth(msgs, j, e) && Under(msgs, j, e, a, d) && Under(msgs, j, e, b, d)
    ensures a == b && a < |msgs|
    decreases e
  {
    if e > d {
      UnderUnique(msgs, ParentOf(msgs, j).value, e - 1, a, b, d);
    }
  }

  /** One step up from depth d + 1. */
  lemma {:induction false} UnderStep(msgs: seq<Message>, j: nat, e: nat, c: nat, d: nat)
    requires HasDepth(msgs, j, e) && Under(msgs, j, e, c, d + 1)
    ensures HasDepth(msgs, c, d + 1) && Under(msgs, j, e, ParentOf(msgs, c).value, d)
    decreases e
  {
    if e > d + 1 {
      UnderStep(msgs, ParentOf(msgs, j).value, e - 1, c, d);
    }
  }

  /** The ancestor of j at depth d. */
  lemma {:induction false} Ancestor(msgs: seq<Message>, j: nat, e: nat, d: nat) returns (c: nat)
    requires HasDepth(msgs, j, e) && d <= e
    ensures HasDepth(msgs, c, d) && Under(msgs, j, e, c, d)
    decreases e
  {
    if e == d {
      c := j;
    } else {
      c := Ancestor(msgs, ParentOf(msgs, j).value, e - 1, d);
    }
  }

  /** A message the flatten leaves out: deleted, and nothing hangs under it. */
  predicate Dropped(msgs: seq<Message>, skipDeleted: bool, j: nat)
    requires j < |msgs|
  {
    skipDeleted && "deleted" in msgs[j].tags && ChildrenOf(msgs, j) == []
  }

  lemma {:induction false} CountAt(msgs: seq<Message>, w: Walker, i: nat, d: nat, j: nat, e: nat)
    requires UniqueIds(msgs) && HasDepth(msgs, i, d) && HasDepth(msgs, j, e)
    ensures Visible(w, TreeAt(msgs, i, d))[msgs[j]] ==
              if Under(msgs, j, e, i, d) && !Dropped(msgs, w.skipDeleted, j) then 1 else 0
    decreases |msgs| - d, |msgs| + 1
  {
    DepthFits(msgs, i, d);
    var kids := ChildrenOf(msgs, i);
    HangingDistinct(msgs, Some(i), |msgs|);
    CountKids(msgs, w, kids, d + 1, i, j, e);
    CountJoin(msgs, w, i, d, j, e, VisibleAll(w, TreesAt(msgs, kids, d + 1, i)));
  }

  lemma CountJoin(msgs: seq<Message>, w: Walker, i: nat, d: nat, j: nat, e: nat, below: multiset<Message>)
    requires UniqueIds(msgs) && HasDepth(msgs, i, d) && HasDepth(msgs, j, e) && d < |msgs|
    requires below == VisibleAll(w, TreesAt(msgs, ChildrenOf(msgs, i), d + 1, i))
    requires below[msgs[j]] == if UnderSome(msgs, j, e, ChildrenOf(msgs, i), d + 1) && !Dropped(msgs, w.skipDeleted, j) then 1 else 0
    ensures Visible(w, TreeAt(msgs, i, d))[msgs[j]] ==
              if Under(msgs, j, e, i, d) && !Dropped(msgs, w.skipDeleted, j) then 1 else 0
  {
    VisibleAt(msgs, w, i, d);
    UnderKids(msgs, i, d, j, e);
    CountSplit(msgs[i], msgs[j], below);
    assert j == i || msgs[j].id != msgs[i].id;
  }

  lemma CountSplit(a: Message, b: Message, rest: multiset<Message>)
    ensures (multiset{a} + rest)[b] == (if a == b then 1 else 0) + rest[b]
  {
  }

  lemma VisibleAt(msgs: seq<Message>, w: Walker, i: nat, d: nat)
    requires HasDepth(msgs, i, d) && d < |msgs|
    ensures var below := VisibleAll(w, TreesAt(msgs, ChildrenOf(msgs, i), d + 1, i));
            && Visible(w, TreeAt(msgs, i, d)) == (if Dropped(msgs, w.skipDeleted, i) then multiset{} else multiset{msgs[i]} + below)
            && (ChildrenOf(msgs, i) == [] ==> below == multiset{})
  {
    var kids := ChildrenOf(msgs, i);
    assert kids == [] <==> TreesAt(msgs, kids, d + 1, i) == [];
  }

  ghost predicate UnderSome(msgs: seq<Message>, j: nat, e: nat, kids: seq<nat>, d: nat)
    requires HasDepth(msgs, j, e)
  {
    exists k :: 0 <= k < |kids| && Under(msgs, j, e, kids[k], d)
  }

  /** Below i is i itself or below exactly the children of i. */
  lemma UnderKids(msgs: seq<Message>, i: nat, d: nat, j: nat, e: nat)
    requires HasDepth(msgs, i, d) && HasDepth(msgs, j, e)
    ensures Under(msgs, j, e, i, d) <==> j == i || UnderSome(msgs, j, e, ChildrenOf(msgs, i), d + 1)
    ensures j == i ==> !UnderSome(msgs, j, e, ChildrenOf(msgs, i), d + 1)
  {
    var kids := ChildrenOf(msgs, i);
    if j == i {
      DepthUnique(msgs, i, d, e);
    } else if UnderSome(msgs, j, e, kids, d + 1) {
      var k :| 0 <= k < |kids| && Under(msgs, j, e, kids[k], d + 1);
      UnderStep(msgs, j, e, kids[k], d);
    } else if e > d && Under(msgs, j, e, i, d) {
      var c := Ancestor(msgs, j, e, d + 1);
      UnderStep(msgs, j, e, c, d);
      UnderUnique(msgs, j, e, i, ParentOf(msgs, c).value, d);
      HangingComplete(msgs, Some(i), |msgs|, c);
    }
  }

  lemma {:induction false} CountKids(msgs: seq<Message>, w: Walker, kids: seq<nat>, d: nat, p: nat, j: nat, e: nat)
    requires UniqueIds(msgs) && d > 0 && HasDepth(msgs, p, d - 1) && d <= |msgs| && |kids| <= |msgs|
    requires HasDepth(msgs, j, e)
    requires forall k :: 0 <= k < |kids| ==> kids[k] < |msgs| && ParentOf(msgs, kids[k]) == Some(p)
    requires Increasing(kids)
    ensures VisibleAll(w, TreesAt(msgs, kids, d, p))[msgs[j]] ==
              if UnderSome(msgs, j, e, kids, d) && !Dropped(msgs, w.skipDeleted, j) then 1 else 0
    decreases |msgs| - d + 1, |kids|
  {
    if kids != [] {
      var rest := kids[1..];
      CountAt(msgs, w, kids[0], d, j, e);
      CountKids(msgs, w, rest, d, p, j, e);
      assert TreesAt(msgs, kids, d, p)[1..] == TreesAt(msgs, rest, d, p);
      if Under(msgs, j, e, kids[0], d) {
        forall k | 0 <= k < |rest| ensures !Under(msgs, j, e, rest[k], d) {
          assert rest[k] == kids[k + 1] && kids[0] < kids[k + 1];
          if Under(msgs, j, e, rest[k], d) {
            UnderUnique(msgs, j, e, kids[0], rest[k], d);
          }
        }
      } else {
        assert forall k :: 0 <= k < |rest| ==> rest[k] == kids[k + 1];
      }
    }
  }

  ghost predicate AllReach(msgs: seq<Message>, ms: multiset<Message>) {
    forall m :: m in ms ==> exists j: nat :: j < |msgs| && msgs[j] == m && Reaches(msgs, j)
  }

  lemma {:induction false} VisibleReaches(msgs: seq<Message>, w: Walker, i: nat, d: nat)
    requires HasDepth(msgs, i, d)
    ensures AllReach(msgs, Visible(w, TreeAt(msgs, i, d)))
    decreases |msgs| - d, |msgs| + 1
  {
    DepthFits(msgs, i, d);
    assert Reaches(msgs, i);
    VisibleAt(msgs, w, i, d);
    KidsReach(msgs, w, ChildrenOf(msgs, i), d + 1, i);
  }

  lemma {:induction false} KidsReach(msgs: seq<Message>, w: Walker, kids: seq<nat>, d: nat, p: nat)
    requires d > 0 && HasDepth(msgs, p, d - 1) && d <= |msgs| && |kids| <= |msgs|
    requires forall k :: 0 <= k < |kids| ==> kids[k] < |msgs| && ParentOf(msgs, kids[k]) == Some(p)
    ensures AllReach(msgs, VisibleAll(w, TreesAt(msgs, kids, d, p)))
    decreases |msgs| - d + 1, |kids|
  {
    if kids != [] {
      VisibleReaches(msgs, w, kids[0], d);
      KidsReach(msgs, w, kids[1..], d, p);
      assert TreesAt(msgs, kids, d, p)[1..] == TreesAt(msgs, kids[1..], d, p);
    }
  }

  lemma {:induction false} CountRoots(msgs: seq<Message>, w: Walker, roots: seq<nat>, j: nat, e: nat)
    requires UniqueIds(msgs) && HasDepth(msgs, j, e) && Increasing(roots)
    requires forall k :: 0 <= k < |roots| ==> roots[k] < |msgs| && ParentOf(msgs, roots[k]) == None
    ensures VisibleAll(w, RootTrees(msgs, roots))[msgs[j]] ==
              if UnderSome(msgs, j, e, roots, 0) && !Dropped(msgs, w.skipDeleted, j) then 1 else 0
    ensures AllReach(msgs, VisibleAll(w, RootTrees(msgs, roots)))
  {
    if roots != [] {
      var rest := roots[1..];
      CountAt(msgs, w, roots[0], 0, j, e);
      VisibleReaches(msgs, w, roots[0], 0);
      CountRoots(msgs, w, rest, j, e);
      assert RootTrees(msgs, roots)[1..] == RootTrees(msgs, rest);
      assert forall k :: 0 <= k < |rest| ==> rest[k] == roots[k + 1];
      forall k | 0 <= k < |rest| && Under(msgs, j, e, roots[0], 0) ensures !Under(msgs, j, e, rest[k], 0) {
        assert roots[0] < roots[k + 1];
        if Under(msgs, j, e, rest[k], 0) {
          UnderUnique(msgs, j, e, roots[0], rest[k], 0);
        }
      }
      UnderSomeSplit(msgs, j, e, roots, 0);
    }
  }

  lemma UnderSomeSplit(msgs: seq<Message>, j: nat, e: nat, kids: seq<nat>, d: nat)
    requires HasDepth(msgs, j, e) && kids != []
    ensures UnderSome(msgs, j, e, kids, d) <==> Under(msgs, j, e, kids[0], d) || UnderSome(msgs, j, e, kids[1..], d)
  {
    assert forall k :: 0 <= k < |kids| - 1 ==> kids[1..][k] == kids[k + 1];
    if UnderSome(msgs, j, e, kids, d) && !Under(msgs, j, e, kids[0], d) {
      var k :| 0 <= k < |kids| && Under(msgs, j, e, kids[k], d);
      assert kids[1..][k - 1] == kids[k];
    }
  }

  /** Every message that reaches a root hangs under one of the roots. */
  lemma UnderARoot(msgs: seq<Message>, j: nat, e: nat)
    requires HasDepth(msgs, j, e)
    ensures UnderSome(msgs, j, e, Roots(msgs), 0)
  {
    var r := Ancestor(msgs, j, e, 0);
    HangingComplete(msgs, None, |msgs|, r);
    var k :| 0 <= k < |Roots(msgs)| && Roots(msgs)[k] == r;
  }

  lemma {:induction false} MsgsOfReversed(rows: seq<Row>)
    ensures multiset(MsgsOf(Reversed(rows))) == multiset(MsgsOf(rows))
  {
    if rows != [] {
      var top, rest := [rows[0]], rows[1..];
      MsgsOfReversed(rest);
      assert Reversed(rows) == Reversed(rest) + top && rows == top + rest;
      MsgsOfAppend(Reversed(rest), top);
      MsgsOfAppend(top, rest);
      SwapCount(MsgsOf(Reversed(rest)), MsgsOf(rest), MsgsOf(top));
    }
  }

  lemma SwapCount(a: seq<Message>, b: seq<Message>, c: seq<Message>)
    requires multiset(a) == multiset(b)
    ensures multiset(a + c) == multiset(c + b)
  {
  }

  lemma TreeCount(msgs: seq<Message>, w: Walker, j: nat, e: nat)
    requires UniqueIds(msgs) && HasDepth(msgs, j, e)
    ensures TreeOf(msgs).Some?
    ensures Visible(w, TreeOf(msgs).value)[msgs[j]] == if Dropped(msgs, w.skipDeleted, j) then 0 else 1
    ensures AllReach(msgs, Visible(w, TreeOf(msgs).value))
  {
    var roots := Roots(msgs);
    UnderARoot(msgs, j, e);
    if |roots| == 1 {
      CountAt(msgs, w, roots[0], 0, j, e);
      VisibleReaches(msgs, w, roots[0], 0);
    } else {
      HangingDistinct(msgs, None, |msgs|);
      CountRoots(msgs, w, roots, j, e);
    }
  }

  /** The flatten shows exactly the messages whose nearest-present-reference chain reaches a root,
      each once, but for the childless deleted ones of a threaded view. */
  lemma FlattenEmits(msgs: seq<Message>, id: string, skipDeleted: bool, desc: bool, j: nat)
    requires UniqueIds(msgs) && j < |msgs|
    ensures var shown := multiset(MsgsOf(Flatten(TreeOf(msgs), id, false, skipDeleted, desc)));
            && shown[msgs[j]] == (if Reaches(msgs, j) && !Dropped(msgs, skipDeleted, j) then 1 else 0)
            && forall m :: m in shown ==> m in msgs
  {
    var root := TreeOf(msgs);
    if root.None? {
      if Reaches(msgs, j) {
        var e :| HasDepth(msgs, j, e);
        UnderARoot(msgs, j, e);
      }
    } else {
      var w := Walker(id, Count(root), skipDeleted, desc);
      WalkEmits(w, root.value, 0, []);
      MsgsOfReversed(Walk(w, root.value, 0, []));
      var r := Roots(msgs)[0];
      assert HasDepth(msgs, r, 0);
      TreeCount(msgs, w, r, 0);
      if Reaches(msgs, j) {
        var e :| HasDepth(msgs, j, e);
        TreeCount(msgs, w, j, e);
      }
    }
  }

  // ---- Depths and nesting ----

  /** The row's message hangs directly under the earlier row's, or is a root under the marker row. */
  ghost predicate IsParentRow(msgs: seq<Message>, a: Row, b: Row) {
    && b.msg.Some?
    && exists j: nat :: j < |msgs| && msgs[j] == b.msg.value &&
         if a.msg.None? then ParentOf(msgs, j) == None
         else ParentOf(msgs, j).Some? && msgs[ParentOf(msgs, j).value] == a.msg.value
  }

  /** The nearest earlier row one level up is the parent's row: subtrees are contiguous. */
  ghost predicate HasParentRow(msgs: seq<Message>, rows: seq<Row>, q: nat)
    requires q < |rows|
  {
    exists p :: 0 <= p < q && rows[p].depth + 1 == rows[q].depth && IsParentRow(msgs, rows[p], rows[q])
                && forall k :: p < k < q ==> rows[k].depth >= rows[q].depth
  }

  /** The row is a message at its true depth, and at the block's own depth one that hangs under p. */
  ghost predicate WellPlaced(msgs: seq<Message>, row: Row, depth: nat, d: nat, p: Option<nat>) {
    && row.depth >= depth && row.msg.Some?
    && exists j: nat :: j < |msgs| && msgs[j] == row.msg.value && HasDepth(msgs, j, d + row.depth - depth)
                        && (row.depth == depth ==> ParentOf(msgs, j) == p)
  }

  /** A block of sibling subtrees: rows are well placed, and deeper rows have their parent's row. */
  ghost predicate Nested(msgs: seq<Message>, rows: seq<Row>, depth: nat, d: nat, p: Option<nat>) {
    forall q {:trigger RowNested(msgs, rows, q, depth, d, p)} :: 0 <= q < |rows| ==> RowNested(msgs, rows, q, depth, d, p)
  }

  ghost predicate RowNested(msgs: seq<Message>, rows: seq<Row>, q: nat, depth: nat, d: nat, p: Option<nat>)
    requires q < |rows|
  {
    WellPlaced(msgs, rows[q], depth, d, p) && (rows[q].depth > depth ==> HasParentRow(msgs, rows, q))
  }

  lemma NestedDeep(msgs: seq<Message>, rows: seq<Row>, depth: nat, d: nat, p: Option<nat>)
    requires Nested(msgs, rows, depth, d, p)
    ensures forall q :: 0 <= q < |rows| ==> rows[q].depth >= depth
  {
    forall q | 0 <= q < |rows| ensures rows[q].depth >= depth {
      assert RowNested(msgs, rows, q, depth, d, p);
    }
  }

  lemma ParentRowShift(msgs: seq<Message>, a: seq<Row>, b: seq<Row>, r: nat)
    requires r < |b| && HasParentRow(msgs, b, r)
    ensures HasParentRow(msgs, a + b, |a| + r)
  {
    var o :| 0 <= o < r && b[o].depth + 1 == b[r].depth && IsParentRow(msgs, b[o], b[r])
             && forall k :: o < k < r ==> b[k].depth >= b[r].depth;
    var rows, q := a + b, |a| + r;
    assert rows[|a| + o] == b[o] && rows[q] == b[r];
    forall k | |a| + o < k < q ensures rows[k].depth >= rows[q].depth {
      assert rows[k] == b[k - |a|];
    }
  }

  lemma ParentRowPrefix(msgs: seq<Message>, a: seq<Row>, b: seq<Row>, q: nat)
    requires q < |a| && HasParentRow(msgs, a, q)
    ensures HasParentRow(msgs, a + b, q)
  {
    var o :| 0 <= o < q && a[o].depth + 1 == a[q].depth && IsParentRow(msgs, a[o], a[q])
             && forall k :: o < k < q ==> a[k].depth >= a[q].depth;
    var rows := a + b;
    assert rows[o] == a[o] && rows[q] == a[q];
    forall k | o < k < q ensures rows[k].depth >= rows[q].depth {
      assert rows[k] == a[k];
    }
  }

  lemma RowAppend(msgs: seq<Message>, a: seq<Row>, b: seq<Row>, depth: nat, d: nat, p: Option<nat>, q: nat)
    requires q < |a| && RowNested(msgs, a, q, depth, d, p)
    ensures RowNested(msgs, a + b, q, depth, d, p)
  {
    assert (a + b)[q] == a[q];
    if a[q].depth > depth {
      ParentRowPrefix(msgs, a, b, q);
    }
  }

  lemma RowShift(msgs: seq<Message>, a: seq<Row>, b: seq<Row>, depth: nat, d: nat, p: Option<nat>, q: nat)
    requires q < |b| && RowNested(msgs, b, q, depth, d, p)
    ensures RowNested(msgs, a + b, |a| + q, depth, d, p)
  {
    assert (a + b)[|a| + q] == b[q];
    if b[q].depth > depth {
      ParentRowShift(msgs, a, b, q);
    }
  }

  lemma NestedAppend(msgs: seq<Message>, a: seq<Row>, b: seq<Row>, depth: nat, d: nat, p: Option<nat>)
    requires Nested(msgs, a, depth, d, p) && Nested(msgs, b, depth, d, p)
    ensures Nested(msgs, a + b, depth, d, p)
  {
    forall q | 0 <= q < |a + b| ensures RowNested(msgs, a + b, q, depth, d, p) {
      if q < |a| {
        RowAppend(msgs, a, b, depth, d, p, q);
      } else {
        RowShift(msgs, a, b, depth, d, p, q - |a|);
      }
    }
  }

  lemma TopParent(msgs: seq<Message>, top: Row, below: seq<Row>, r: nat)
    requires r < |below| && below[r].depth == top.depth + 1 && IsParentRow(msgs, top, below[r])
    requires forall k :: 0 <= k < |below| ==> below[k].depth > top.depth
    ensures HasParentRow(msgs, [top] + below, r + 1)
  {
    var rows := [top] + below;
    assert rows[0] == top && rows[r + 1] == below[r];
    forall k | 0 < k < r + 1 ensures rows[k].depth >= rows[r + 1].depth {
      assert rows[k] == below[k - 1];
    }
  }

  lemma PlacedUnder(msgs: seq<Message>, top: Row, row: Row, d: nat, i: Option<nat>)
    requires i.Some? ==> i.value < |msgs|
    requires top.msg == (if i.Some? then Some(msgs[i.value]) else None)
    requires WellPlaced(msgs, row, top.depth + 1, d, i) && row.depth == top.depth + 1
    ensures IsParentRow(msgs, top, row)
  {
  }

  /** The children's block under its parent's row, or the roots under the marker row. */
  lemma NestedUnder(msgs: seq<Message>, top: Row, below: seq<Row>, d: nat, i: Option<nat>, r: nat)
    requires i.Some? ==> i.value < |msgs|
    requires top.msg == (if i.Some? then Some(msgs[i.value]) else None)
    requires Nested(msgs, below, top.depth + 1, d, i) && r < |below|
    ensures HasParentRow(msgs, [top] + below, r + 1)
  {
    assert RowNested(msgs, below, r, top.depth + 1, d, i);
    if below[r].depth > top.depth + 1 {
      ParentRowShift(msgs, [top], below, r);
    } else {
      NestedDeep(msgs, below, top.depth + 1, d, i);
      PlacedUnder(msgs, top, below[r], d, i);
      TopParent(msgs, top, below, r);
    }
  }

  lemma PlacedDeeper(msgs: seq<Message>, row: Row, depth: nat, d: nat, p: Option<nat>, q: Option<nat>)
    requires WellPlaced(msgs, row, depth + 1, d + 1, p)
    ensures WellPlaced(msgs, row, depth, d, q)
  {
  }

  lemma NestedBelow(msgs: seq<Message>, top: Row, below: seq<Row>, i: nat, d: nat, q: nat)
    requires HasDepth(msgs, i, d) && top.msg == Some(msgs[i]) && 0 < q <= |below|
    requires Nested(msgs, below, top.depth + 1, d + 1, Some(i))
    ensures RowNested(msgs, [top] + below, q, top.depth, d, ParentOf(msgs, i))
  {
    assert ([top] + below)[q] == below[q - 1];
    assert RowNested(msgs, below, q - 1, top.depth + 1, d + 1, Some(i));
    PlacedDeeper(msgs, below[q - 1], top.depth, d, Some(i), ParentOf(msgs, i));
    NestedUnder(msgs, top, below, d + 1, Some(i), q - 1);
  }

  lemma NestedTop(msgs: seq<Message>, top: Row, below: seq<Row>, i: nat, d: nat)
    requires HasDepth(msgs, i, d) && top.msg == Some(msgs[i])
    requires Nested(msgs, below, top.depth + 1, d + 1, Some(i))
    ensures Nested(msgs, [top] + below, top.depth, d, ParentOf(msgs, i))
  {
    var rows, p := [top] + below, ParentOf(msgs, i);
    assert WellPlaced(msgs, top, top.depth, d, p);
    assert RowNested(msgs, rows, 0, top.depth, d, p);
    forall q | 0 < q < |rows| ensures RowNested(msgs, rows, q, top.depth, d, p) {
      NestedBelow(msgs, top, below, i, d, q);
    }
  }

  lemma {:induction false} NestedWalk(msgs: seq<Message>, w: Walker, i: nat, d: nat, depth: nat, siblings: seq<bool>)
    requires HasDepth(msgs, i, d)
    ensures Nested(msgs, Walk(w, TreeAt(msgs, i, d), depth, siblings), depth, d, ParentOf(msgs, i))
    decreases |msgs| - d, |msgs| + 1
  {
    DepthFits(msgs, i, d);
    var n := TreeAt(msgs, i, d);
    if !Hides(w, n) {
      var order := OrderedKids(msgs, ChildrenOf(msgs, i), d + 1, i, w.desc);
      NestedKids(msgs, w, order, d + 1, i, 0, depth + 1, Some(siblings));
      NestedTop(msgs, MsgRow(w, msgs[i], depth, siblings), WalkAll(w, TreesAt(msgs, order, d + 1, i), 0, depth + 1, Some(siblings)), i, d);
    }
  }

  lemma {:induction false} NestedKids(
      msgs: seq<Message>, w: Walker, kids: seq<nat>, d: nat, p: nat, n: nat, depth: nat, chain: Option<seq<bool>>)
    requires d > 0 && HasDepth(msgs, p, d - 1) && d <= |msgs| && |kids| <= |msgs|
    requires forall k :: 0 <= k < |kids| ==> kids[k] < |msgs| && ParentOf(msgs, kids[k]) == Some(p)
    ensures Nested(msgs, WalkAll(w, TreesAt(msgs, kids, d, p), n, depth, chain), depth, d, Some(p))
    decreases |msgs| - d + 1, |kids|
  {
    if kids != [] {
      var trees := TreesAt(msgs, kids, d, p);
      assert trees[1..] == TreesAt(msgs, kids[1..], d, p) && trees[0] == TreeAt(msgs, kids[0], d);
      var hasBelow := if w.desc then n != 0 else |trees| != 1;
      var siblings := if chain.None? then [] else [hasBelow] + chain.value;
      NestedWalk(msgs, w, kids[0], d, depth, siblings);
      NestedKids(msgs, w, kids[1..], d, p, n + 1, depth, chain);
      NestedAppend(msgs, Walk(w, trees[0], depth, siblings), WalkAll(w, trees[1..], n + 1, depth, chain), depth, d, Some(p));
    }
  }

  /** Ordering the child trees is ordering the children. */
  lemma {:induction false} OrderedKids(msgs: seq<Message>, kids: seq<nat>, d: nat, p: nat, desc: bool) returns (order: seq<nat>)
    requires d > 0 && HasDepth(msgs, p, d - 1) && d <= |msgs| && |kids| <= |msgs|
    requires forall k :: 0 <= k < |kids| ==> kids[k] < |msgs| && ParentOf(msgs, kids[k]) == Some(p)
    ensures |order| == |kids| && forall k :: 0 <= k < |order| ==> order[k] < |msgs| && ParentOf(msgs, order[k]) == Some(p)
    ensures TreesAt(msgs, order, d, p) == OrderedChildren(TreesAt(msgs, kids, d, p), desc)
  {
    if !desc || |TreesAt(msgs, kids, d, p)| <= 1 {
      TreesLength(msgs, kids, d, p);
      order := kids;
    } else {
      order := SortedKids(msgs, kids, d, p);
    }
  }

  lemma {:induction false} TreesLength(msgs: seq<Message>, kids: seq<nat>, d: nat, p: nat)
    requires d > 0 && HasDepth(msgs, p, d - 1) && d <= |msgs| && |kids| <= |msgs|
    requires forall k :: 0 <= k < |kids| ==> kids[k] < |msgs| && ParentOf(msgs, kids[k]) == Some(p)
    ensures |TreesAt(msgs, kids, d, p)| == |kids|
  {
    if kids != [] {
      TreesLength(msgs, kids[1..], d, p);
    }
  }

  lemma {:induction false} SortedKids(msgs: seq<Message>, kids: seq<nat>, d: nat, p: nat) returns (order: seq<nat>)
    requires d > 0 && HasDepth(msgs, p, d - 1) && d <= |msgs| && |kids| <= |msgs|
    requires forall k :: 0 <= k < |kids| ==> kids[k] < |msgs| && ParentOf(msgs, kids[k]) == Some(p)
    ensures |order| == |kids| && forall k :: 0 <= k < |order| ==> order[k] < |msgs| && ParentOf(msgs, order[k]) == Some(p)
    ensures TreesAt(msgs, order, d, p) == StableSorted(TreesAt(msgs, kids, d, p))
  {
    if kids == [] {
      order := [];
    } else {
      var rest := SortedKids(msgs, kids[1..], d, p);
      assert TreesAt(msgs, kids, d, p)[1..] == TreesAt(msgs, kids[1..], d, p);
      order := InsertedKid(msgs, kids[0], rest, d, p);
    }
  }

  lemma {:induction false} InsertedKid(msgs: seq<Message>, x: nat, kids: seq<nat>, d: nat, p: nat) returns (order: seq<nat>)
    requires d > 0 && HasDepth(msgs, p, d - 1) && d <= |msgs| && |kids| < |msgs|
    requires x < |msgs| && ParentOf(msgs, x) == Some(p)
    requires forall k :: 0 <= k < |kids| ==> kids[k] < |msgs| && ParentOf(msgs, kids[k]) == Some(p)
    ensures |order| == |kids| + 1 && forall k :: 0 <= k < |order| ==> order[k] < |msgs| && ParentOf(msgs, order[k]) == Some(p)
    ensures TreesAt(msgs, order, d, p) == Inserted(TreeAt(msgs, x, d), TreesAt(msgs, kids, d, p))
  {
    var trees := TreesAt(msgs, kids, d, p);
    if kids == [] || SubtreeMax(TreeAt(msgs, x, d)) <= SubtreeMax(trees[0]) {
      order := [x] + kids;
      assert order[1..] == kids;
    } else {
      assert trees[1..] == TreesAt(msgs, kids[1..], d, p);
      var rest := InsertedKid(msgs, x, kids[1..], d, p);
      order := [kids[0]] + rest;
      assert order[1..] == rest;
    }
  }

  lemma {:induction false} NestedRoots(msgs: seq<Message>, w: Walker, roots: seq<nat>, n: nat, depth: nat, chain: Option<seq<bool>>)
    requires forall k :: 0 <= k < |roots| ==> roots[k] < |msgs| && ParentOf(msgs, roots[k]) == None
    ensures Nested(msgs, WalkAll(w, RootTrees(msgs, roots), n, depth, chain), depth, 0, None)
  {
    if roots != [] {
      var trees := RootTrees(msgs, roots);
      assert trees[1..] == RootTrees(msgs, roots[1..]) && trees[0] == TreeAt(msgs, roots[0], 0);
      var hasBelow := if w.desc then n != 0 else |trees| != 1;
      var siblings := if chain.None? then [] else [hasBelow] + chain.value;
      NestedWalk(msgs, w, roots[0], 0, depth, siblings);
      NestedRoots(msgs, w, roots[1..], n + 1, depth, chain);
      NestedAppend(msgs, Walk(w, trees[0], depth, siblings), WalkAll(w, trees[1..], n + 1, depth, chain), depth, 0, None);
    }
  }

  lemma {:induction false} SortedRoots(msgs: seq<Message>, roots: seq<nat>) returns (order: seq<nat>)
    requires forall k :: 0 <= k < |roots| ==> roots[k] < |msgs| && ParentOf(msgs, roots[k]) == None
    ensures |order| == |roots| && forall k :: 0 <= k < |order| ==> order[k] < |msgs| && ParentOf(msgs, order[k]) == None
    ensures RootTrees(msgs, order) == StableSorted(RootTrees(msgs, roots))
  {
    if roots == [] {
      order := [];
    } else {
      var rest := SortedRoots(msgs, roots[1..]);
      assert RootTrees(msgs, roots)[1..] == RootTrees(msgs, roots[1..]);
      order := InsertedRoot(msgs, roots[0], rest);
    }
  }

  lemma {:induction false} InsertedRoot(msgs: seq<Message>, x: nat, roots: seq<nat>) returns (order: seq<nat>)
    requires x < |msgs| && ParentOf(msgs, x) == None
    requires forall k :: 0 <= k < |roots| ==> roots[k] < |msgs| && ParentOf(msgs, roots[k]) == None
    ensures |order| == |roots| + 1 && forall k :: 0 <= k < |order| ==> order[k] < |msgs| && ParentOf(msgs, order[k]) == None
    ensures RootTrees(msgs, order) == Inserted(TreeAt(msgs, x, 0), RootTrees(msgs, roots))
  {
    var trees := RootTrees(msgs, roots);
    if roots == [] || SubtreeMax(TreeAt(msgs, x, 0)) <= SubtreeMax(trees[0]) {
      order := [x] + roots;
      assert order[1..] == roots;
    } else {
      assert trees[1..] == RootTrees(msgs, roots[1..]);
      var rest := InsertedRoot(msgs, x, roots[1..]);
      order := [roots[0]] + rest;
      assert order[1..] == rest;
    }
  }

  /** The walk of a whole thread before any reversal. */
  function ThreadWalk(msgs: seq<Message>, id: string, skipDeleted: bool, desc: bool): seq<Row>
    requires TreeOf(msgs).Some?
  {
    Walk(Walker(id, Count(TreeOf(msgs)), skipDeleted, desc), TreeOf(msgs).value, 0, [])
  }

  /** True when the thread shows the synthetic marker row. */
  predicate HasMarker(msgs: seq<Message>) {
    1 < |Roots(msgs)| < |msgs|
  }

  /** Depths are chain lengths, one more under the marker; each row's parent row is the nearest earlier row
      one level up, so parents come first and subtrees are contiguous. Desc reads the same rows backwards. */
  lemma FlattenNests(msgs: seq<Message>, id: string, skipDeleted: bool, desc: bool)
    requires TreeOf(msgs).Some?
    ensures var rows := ThreadWalk(msgs, id, skipDeleted, desc);
            && Flatten(TreeOf(msgs), id, false, skipDeleted, desc) == (if desc then Reversed(rows) else rows)
            && (!HasMarker(msgs) ==> Nested(msgs, rows, 0, 0, None))
            && (HasMarker(msgs) ==> rows != [] && rows[0].msg.None? && rows[0].depth == 0
                                    && Nested(msgs, rows[1..], 1, 0, None)
                                    && forall q :: 1 <= q < |rows| ==> HasParentRow(msgs, rows, q))
  {
    var roots := Roots(msgs);
    var w := Walker(id, Count(TreeOf(msgs)), skipDeleted, desc);
    if |roots| == 1 {
      NestedWalk(msgs, w, roots[0], 0, 0, []);
    } else {
      var order := OrderedRoots(msgs, roots, desc);
      if |roots| == |msgs| {
        NestedRoots(msgs, w, order, 0, 0, None);
      } else {
        MarkerNests(msgs, w, order);
      }
    }
  }

  lemma OrderedRoots(msgs: seq<Message>, roots: seq<nat>, desc: bool) returns (order: seq<nat>)
    requires forall k :: 0 <= k < |roots| ==> roots[k] < |msgs| && ParentOf(msgs, roots[k]) == None
    ensures |order| == |roots| && forall k :: 0 <= k < |order| ==> order[k] < |msgs| && ParentOf(msgs, order[k]) == None
    ensures RootTrees(msgs, order) == OrderedChildren(RootTrees(msgs, roots), desc)
  {
    RootsLength(msgs, roots);
    if desc && |roots| > 1 {
      order := SortedRoots(msgs, roots);
    } else {
      order := roots;
    }
  }

  lemma MarkerNests(msgs: seq<Message>, w: Walker, order: seq<nat>)
    requires forall k :: 0 <= k < |order| ==> order[k] < |msgs| && ParentOf(msgs, order[k]) == None
    ensures var rows := [MarkerRow(w, 0, [])] + WalkAll(w, RootTrees(msgs, order), 0, 1, Some([]));
            && Nested(msgs, rows[1..], 1, 0, None)
            && forall q :: 1 <= q < |rows| ==> HasParentRow(msgs, rows, q)
  {
    NestedRoots(msgs, w, order, 0, 1, Some([]));
    var top, below := MarkerRow(w, 0, []), WalkAll(w, RootTrees(msgs, order), 0, 1, Some([]));
    assert ([top] + below)[1..] == below;
    forall q | 1 <= q < |below| + 1 ensures HasParentRow(msgs, [top] + below, q) {
      NestedUnder(msgs, top, below, 0, None, q - 1);
    }
  }

  lemma {:induction false} RootsLength(msgs: seq<Message>, roots: seq<nat>)
    requires forall k :: 0 <= k < |roots| ==> roots[k] < |msgs| && ParentOf(msgs, roots[k]) == None
    ensures |RootTrees(msgs, roots)| == |roots|
  {
    if roots != [] {
      RootsLength(msgs, roots[1..]);
    }
  }

  // ---- Newest first ----

  lemma {:induction false} MaxAllBound(m: int, ns: seq<Node>)
    ensures MaxAll(m, ns) >= m && forall k :: 0 <= k < |ns| ==> MaxAll(m, ns) >= SubtreeMax(ns[k])
    ensures MaxAll(m, ns) == m || exists k :: 0 <= k < |ns| && MaxAll(m, ns) == SubtreeMax(ns[k])
    decreases |ns|
  {
    if ns != [] {
      MaxAllBound(Max(m, SubtreeMax(ns[0])), ns[1..]);
      assert forall k :: 1 <= k < |ns| ==> ns[k] == ns[1..][k - 1];
    }
  }

  ghost predicate Ascending(ns: seq<Node>) {
    forall a, b :: 0 <= a < b < |ns| ==> SubtreeMax(ns[a]) <= SubtreeMax(ns[b])
  }

  lemma {:induction false} InsertHolds(x: Node, ns: seq<Node>)
    ensures multiset(Inserted(x, ns)) == multiset{x} + multiset(ns)
  {
    if ns != [] && SubtreeMax(x) > SubtreeMax(ns[0]) {
      InsertHolds(x, ns[1..]);
      assert ns == [ns[0]] + ns[1..];
    }
  }

  lemma {:induction false} InsertAscending(x: Node, ns: seq<Node>)
    requires Ascending(ns)
    ensures Ascending(Inserted(x, ns))
  {
    if ns != [] && SubtreeMax(x) > SubtreeMax(ns[0]) {
      var rest := Inserted(x, ns[1..]);
      InsertAscending(x, ns[1..]);
      InsertHolds(x, ns[1..]);
      forall b | 0 <= b < |rest| ensures SubtreeMax(ns[0]) <= SubtreeMax(rest[b]) {
        assert rest[b] in multiset(rest);
        assert rest[b] == x || rest[b] in ns[1..];
      }
      LeadAscending(ns[0], rest);
    } else if ns != [] {
      forall b | 0 <= b < |ns| ensures SubtreeMax(x) <= SubtreeMax(ns[b]) {
        assert b > 0 ==> SubtreeMax(ns[0]) <= SubtreeMax(ns[b]);
      }
      LeadAscending(x, ns);
    }
  }

  lemma LeadAscending(x: Node, ns: seq<Node>)
    requires Ascending(ns) && forall b :: 0 <= b < |ns| ==> SubtreeMax(x) <= SubtreeMax(ns[b])
    ensures Ascending([x] + ns)
  {
  }

  lemma {:induction false} SortAscending(ns: seq<Node>)
    ensures Ascending(StableSorted(ns)) && multiset(StableSorted(ns)) == multiset(ns)
  {
    if ns != [] {
      SortAscending(ns[1..]);
      InsertAscending(ns[0], StableSorted(ns[1..]));
      InsertHolds(ns[0], StableSorted(ns[1..]));
      assert ns == [ns[0]] + ns[1..];
    }
  }

  /** Children are never older than their parents, and no node is hidden. */
  ghost predicate GrowsNewer(w: Walker, n: Node)
    decreases Size(n), 0
  {
    && !Hides(w, n)
    && (n.msg.Some? ==> forall k :: 0 <= k < |n.children| ==>
          n.children[k].msg.Some? && n.children[k].msg.value.timestamp >= n.msg.value.timestamp)
    && AllGrowNewer(w, n.children)
  }

  ghost predicate AllGrowNewer(w: Walker, ns: seq<Node>)
    decreases SizeAll(ns), 1
  {
    ns == [] || (GrowsNewer(w, ns[0]) && AllGrowNewer(w, ns[1..]))
  }

  lemma {:induction false} GrowsNewerAt(w: Walker, ns: seq<Node>, n: Node)
    requires AllGrowNewer(w, ns) && n in ns
    ensures GrowsNewer(w, n) && Size(n) <= SizeAll(ns)
  {
    if n != ns[0] {
      assert n in ns[1..];
      GrowsNewerAt(w, ns[1..], n);
    }
  }

  lemma {:induction false} WalkAllLast(w: Walker, kids: seq<Node>, i: nat, depth: nat, chain: Option<seq<bool>>)
    returns (siblings: seq<bool>)
    requires kids != [] && !Hides(w, kids[|kids| - 1]) && kids[|kids| - 1].msg.Some?
    ensures var last := Walk(w, kids[|kids| - 1], depth, siblings);
            var rows := WalkAll(w, kids, i, depth, chain);
            last != [] && rows != [] && rows[|rows| - 1] == last[|last| - 1]
    decreases |kids|
  {
    var hasBelow := if w.desc then i != 0 else |kids| != 1;
    siblings := if chain.None? then [] else [hasBelow] + chain.value;
    var first, rest := Walk(w, kids[0], depth, siblings), WalkAll(w, kids[1..], i + 1, depth, chain);
    assert WalkAll(w, kids, i, depth, chain) == first + rest;
    if |kids| == 1 {
      assert rest == [];
    } else {
      siblings := WalkAllLast(w, kids[1..], i + 1, depth, chain);
      assert kids[1..][|kids| - 2] == kids[|kids| - 1];
    }
    LastOfConcat(first, rest);
  }

  lemma LastOfConcat(a: seq<Row>, b: seq<Row>)
    ensures b != [] ==> a + b != [] && (a + b)[|a + b| - 1] == b[|b| - 1]
    ensures b == [] ==> a + b == a
  {
  }

  ghost predicate EndsNewest(rows: seq<Row>, newest: int) {
    rows != [] && rows[|rows| - 1].msg.Some? && rows[|rows| - 1].msg.value.timestamp == newest
  }

  /** The last row of a sibling list is the last row of its newest member. */
  lemma {:induction false} WalkAllEndsNewest(w: Walker, ns: seq<Node>, depth: nat, chain: Option<seq<bool>>)
    returns (last: Node)
    requires w.desc && ns != [] && AllGrowNewer(w, ns) && forall k :: 0 <= k < |ns| ==> ns[k].msg.Some?
    ensures last in ns && forall k :: 0 <= k < |ns| ==> SubtreeMax(ns[k]) <= SubtreeMax(last)
    ensures EndsNewest(WalkAll(w, OrderedChildren(ns, true), 0, depth, chain), SubtreeMax(last))
    decreases SizeAll(ns), 1
  {
    var kids := OrderedChildren(ns, true);
    LastIsMax(ns);
    last := kids[|kids| - 1];
    assert last in multiset(kids);
    GrowsNewerAt(w, ns, last);
    var s := WalkAllLast(w, kids, 0, depth, chain);
    WalkEndsNewest(w, last, depth, s);
  }

  /** In a tree that grows newer, the desc walk ends at a newest message. */
  lemma {:induction false} WalkEndsNewest(w: Walker, n: Node, depth: nat, siblings: seq<bool>)
    requires w.desc && GrowsNewer(w, n) && n.msg.Some?
    ensures EndsNewest(Walk(w, n, depth, siblings), SubtreeMax(n))
    decreases Size(n), 0
  {
    if n.children != [] {
      var last := WalkAllEndsNewest(w, n.children, depth + 1, Some(siblings));
      MaxAllBound(n.msg.value.timestamp, n.children);
      MaxAllBound(last.msg.value.timestamp, last.children);
      assert SubtreeMax(n) == SubtreeMax(last);
      var below := WalkAll(w, OrderedChildren(n.children, true), 0, depth + 1, Some(siblings));
      assert Walk(w, n, depth, siblings) == [MsgRow(w, n.msg.value, depth, siblings)] + below;
    }
  }

  lemma LastIsMax(ns: seq<Node>)
    requires ns != []
    ensures var kids := OrderedChildren(ns, true);
            && multiset(kids) == multiset(ns)
            && forall k :: 0 <= k < |ns| ==> SubtreeMax(ns[k]) <= SubtreeMax(kids[|kids| - 1])
  {
    var kids := OrderedChildren(ns, true);
    SortAscending(ns);
    forall k | 0 <= k < |ns| ensures SubtreeMax(ns[k]) <= SubtreeMax(kids[|kids| - 1]) {
      assert ns[k] in multiset(ns);
      assert ns[k] in kids;
      var j :| 0 <= j < |kids| && kids[j] == ns[k];
    }
  }

  lemma {:induction false} VisibleBound(w: Walker, n: Node)
    requires n.msg.Some?
    requires AllMessages(n)
    ensures forall m :: m in Visible(w, n) ==> m.timestamp <= SubtreeMax(n)
    decreases Size(n), 0
  {
    MaxAllBound(n.msg.value.timestamp, n.children);
    VisibleAllBound(w, n.children, SubtreeMax(n));
  }

  /** No synthetic node below. */
  ghost predicate AllMessages(n: Node)
    decreases Size(n), 0
  {
    n.msg.Some? && AllAreMessages(n.children)
  }

  ghost predicate AllAreMessages(ns: seq<Node>)
    decreases SizeAll(ns), 1
  {
    ns == [] || (AllMessages(ns[0]) && AllAreMessages(ns[1..]))
  }

  lemma {:induction false} VisibleAllBound(w: Walker, ns: seq<Node>, bound: int)
    requires AllAreMessages(ns) && forall k :: 0 <= k < |ns| ==> SubtreeMax(ns[k]) <= bound
    ensures forall m :: m in VisibleAll(w, ns) ==> m.timestamp <= bound
    decreases SizeAll(ns), 1
  {
    if ns != [] {
      VisibleBound(w, ns[0]);
      VisibleAllBound(w, ns[1..], bound);
    }
  }

  ghost predicate NeverOlder(msgs: seq<Message>) {
    forall j :: 0 <= j < |msgs| && ParentOf(msgs, j).Some? ==> msgs[ParentOf(msgs, j).value].timestamp <= msgs[j].timestamp
  }

  ghost predicate NoneDropped(msgs: seq<Message>, skipDeleted: bool) {
    forall j :: 0 <= j < |msgs| ==> !Dropped(msgs, skipDeleted, j)
  }

  lemma {:induction false} TreeGrowsNewer(msgs: seq<Message>, w: Walker, i: nat, d: nat)
    requires NeverOlder(msgs) && NoneDropped(msgs, w.skipDeleted) && HasDepth(msgs, i, d)
    ensures GrowsNewer(w, TreeAt(msgs, i, d)) && AllMessages(TreeAt(msgs, i, d))
    decreases |msgs| - d, |msgs| + 1
  {
    DepthFits(msgs, i, d);
    var kids := ChildrenOf(msgs, i);
    TreesGrowNewer(msgs, w, kids, d + 1, i);
    assert !Dropped(msgs, w.skipDeleted, i);
  }

  lemma {:induction false} TreesGrowNewer(msgs: seq<Message>, w: Walker, kids: seq<nat>, d: nat, p: nat)
    requires NeverOlder(msgs) && NoneDropped(msgs, w.skipDeleted)
    requires d > 0 && HasDepth(msgs, p, d - 1) && d <= |msgs| && |kids| <= |msgs|
    requires forall k :: 0 <= k < |kids| ==> kids[k] < |msgs| && ParentOf(msgs, kids[k]) == Some(p)
    ensures AllGrowNewer(w, TreesAt(msgs, kids, d, p)) && AllAreMessages(TreesAt(msgs, kids, d, p))
    ensures |TreesAt(msgs, kids, d, p)| == |kids|
    ensures forall k :: 0 <= k < |kids| ==> var n := TreesAt(msgs, kids, d, p)[k];
              n.msg.Some? && n.msg.value.timestamp >= msgs[p].timestamp
    decreases |msgs| - d + 1, |kids|
  {
    if kids != [] {
      var trees := TreesAt(msgs, kids, d, p);
      assert trees[1..] == TreesAt(msgs, kids[1..], d, p);
      TreeGrowsNewer(msgs, w, kids[0], d);
      TreesGrowNewer(msgs, w, kids[1..], d, p);
    }
  }

  lemma {:induction false} RootsGrowNewer(msgs: seq<Message>, w: Walker, roots: seq<nat>)
    requires NeverOlder(msgs) && NoneDropped(msgs, w.skipDeleted)
    requires forall k :: 0 <= k < |roots| ==> roots[k] < |msgs| && ParentOf(msgs, roots[k]) == None
    ensures var trees := RootTrees(msgs, roots);
            && |trees| == |roots| && AllGrowNewer(w, trees) && AllAreMessages(trees)
            && forall k :: 0 <= k < |trees| ==> trees[k].msg.Some?
  {
    if roots != [] {
      assert RootTrees(msgs, roots)[1..] == RootTrees(msgs, roots[1..]);
      TreeGrowsNewer(msgs, w, roots[0], 0);
      RootsGrowNewer(msgs, w, roots[1..]);
    }
  }

  /** The walk of the whole thread ends at a newest of its messages. */
  ghost predicate EndsAtNewest(w: Walker, root: Node, rows: seq<Row>) {
    && rows != [] && rows[|rows| - 1].msg.Some?
    && forall m :: m in Visible(w, root) ==> m.timestamp <= rows[|rows| - 1].msg.value.timestamp
  }

  lemma LoneRootEnds(msgs: seq<Message>, w: Walker, r: nat)
    requires NeverOlder(msgs) && NoneDropped(msgs, w.skipDeleted) && HasDepth(msgs, r, 0) && w.desc
    ensures EndsAtNewest(w, TreeAt(msgs, r, 0), Walk(w, TreeAt(msgs, r, 0), 0, []))
  {
    TreeGrowsNewer(msgs, w, r, 0);
    WalkEndsNewest(w, TreeAt(msgs, r, 0), 0, []);
    VisibleBound(w, TreeAt(msgs, r, 0));
  }

  lemma ManyRootsEnd(msgs: seq<Message>, w: Walker, roots: seq<nat>, forest: bool)
    requires NeverOlder(msgs) && NoneDropped(msgs, w.skipDeleted) && roots != [] && w.desc
    requires forall k :: 0 <= k < |roots| ==> roots[k] < |msgs| && ParentOf(msgs, roots[k]) == None
    ensures var n := Node(None, RootTrees(msgs, roots), forest); EndsAtNewest(w, n, Walk(w, n, 0, []))
  {
    RootsGrowNewer(msgs, w, roots);
    SyntheticEnds(w, RootTrees(msgs, roots), forest);
  }

  lemma SyntheticEnds(w: Walker, trees: seq<Node>, forest: bool)
    requires w.desc && trees != [] && AllGrowNewer(w, trees) && AllAreMessages(trees)
    requires forall k :: 0 <= k < |trees| ==> trees[k].msg.Some?
    ensures var n := Node(None, trees, forest); EndsAtNewest(w, n, Walk(w, n, 0, []))
  {
    var n := Node(None, trees, forest);
    var depth := if forest then 0 else 1;
    var chain: Option<seq<bool>> := if forest then None else Some([]);
    var last := WalkAllEndsNewest(w, trees, depth, chain);
    VisibleAllBound(w, trees, SubtreeMax(last));
    SyntheticWalk(w, trees, forest);
  }

  lemma SyntheticWalk(w: Walker, trees: seq<Node>, forest: bool)
    ensures var n := Node(None, trees, forest);
            && Visible(w, n) == VisibleAll(w, trees)
            && Walk(w, n, 0, []) ==
                 if forest then WalkAll(w, OrderedChildren(trees, w.desc), 0, 0, None)
                 else [MarkerRow(w, 0, [])] + WalkAll(w, OrderedChildren(trees, w.desc), 0, 1, Some([]))
  {
  }

  /** When no child is older than its parent and nothing is hidden, a desc thread opens on a newest message. */
  lemma DescOpensNewest(msgs: seq<Message>, id: string, skipDeleted: bool, j: nat)
    requires UniqueIds(msgs) && NeverOlder(msgs) && NoneDropped(msgs, skipDeleted)
    requires j < |msgs| && Reaches(msgs, j)
    ensures var rows := Flatten(TreeOf(msgs), id, false, skipDeleted, true);
            rows != [] && rows[0].msg.Some? && msgs[j].timestamp <= rows[0].msg.value.timestamp
  {
    var e :| HasDepth(msgs, j, e);
    var w := Walker(id, Count(TreeOf(msgs)), skipDeleted, true);
    var roots := Roots(msgs);
    TreeCount(msgs, w, j, e);
    assert !Dropped(msgs, skipDeleted, j);
    if |roots| == 1 {
      LoneRootEnds(msgs, w, roots[0]);
    } else {
      ManyRootsEnd(msgs, w, roots, |roots| == |msgs|);
    }
    OpensWithLast(w, TreeOf(msgs).value, msgs[j], Walk(w, TreeOf(msgs).value, 0, []));
  }

  lemma OpensWithLast(w: Walker, root: Node, m: Message, rows: seq<Row>)
    requires EndsAtNewest(w, root, rows) && Visible(w, root)[m] == 1
    ensures var shown := Reversed(rows); shown != [] && shown[0].msg.Some? && m.timestamp <= shown[0].msg.value.timestamp
  {
    assert m in Visible(w, root);
  }
}
