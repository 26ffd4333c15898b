/** What every row of a thread says of it, and what the row of a collapsed thread shows
    (src/core/view.go). */
module Summary {
  import opened Mail
  import opened Tree
  import Marks
  import Window

  // ---- The messages of a tree ----

  lemma {:induction false} StoredIsVisible(w: Walker, n: Node)
    requires !w.skipDeleted
    ensures multiset(Stored(n)) == Visible(w, n)
    decreases Size(n), 0
  {
    StoredAllIsVisible(w, n.children);
  }

  lemma {:induction false} StoredAllIsVisible(w: Walker, ns: seq<Node>)
    requires !w.skipDeleted
    ensures multiset(StoredAll(ns)) == VisibleAll(w, ns)
    decreases SizeAll(ns), 1
  {
    if ns != [] {
      StoredIsVisible(w, ns[0]);
      StoredAllIsVisible(w, ns[1..]);
    }
  }

  /** A thread's tree holds every message whose reference chain reaches a root, once, and no other. */
  lemma TreeHolds(msgs: seq<Message>, m: Message)
    requires UniqueIds(msgs) && TreeOf(msgs).Some?
    ensures m in Stored(TreeOf(msgs).value) <==> exists j: nat :: j < |msgs| && msgs[j] == m && Reaches(msgs, j)
  {
    var root, w := TreeOf(msgs).value, Walker("", 0, false, false);
    StoredIsVisible(w, root);
    assert m in Stored(root) <==> m in multiset(Stored(root));
    var r := Roots(msgs)[0];
    assert HasDepth(msgs, r, 0);
    TreeCount(msgs, w, r, 0);
    if j: nat :| j < |msgs| && msgs[j] == m && Reaches(msgs, j) {
      var e :| HasDepth(msgs, j, e);
      TreeCount(msgs, w, j, e);
    }
  }

  /** As many rows as the tree has messages, when nothing is hidden. */
  lemma CountIsShown(root: Node, id: string, desc: bool)
    ensures Count(Some(root)) == |MsgsOf(Flatten(Some(root), id, false, false, desc))|
  {
    var w := Walker(id, Count(Some(root)), false, desc);
    StoredIsVisible(w, root);
    WalkEmits(w, root, 0, []);
    MsgsOfReversed(Walk(w, root, 0, []));
    SameSize(Stored(root), MsgsOf(Flatten(Some(root), id, false, false, desc)));
  }

  lemma SameSize(a: seq<Message>, b: seq<Message>)
    requires multiset(a) == multiset(b)
    ensures |a| == |b|
  {
    assert |multiset(a)| == |a| && |multiset(b)| == |b|;
  }

  // ---- Every row ----

  /** The row names its thread, counts its messages and knows the order; it is the root row when it shows
      a message at depth 0, and the marker when it shows none. */
  predicate Faces(r: Row, id: string, count: nat, desc: bool) {
    && r.threadID == id && r.count == count && r.desc == desc
    && (r.root <==> r.depth == 0 && r.msg.Some?) && (r.marker <==> r.msg.None?)
    && !r.collapsed && !r.staged && r.more == 0 && r.moreTop == 0
  }

  ghost predicate AllFace(rows: seq<Row>, w: Walker) {
    forall k :: 0 <= k < |rows| ==> Faces(rows[k], w.threadID, w.count, w.desc)
  }

  lemma FaceAppend(a: seq<Row>, b: seq<Row>, w: Walker)
    requires AllFace(a, w) && AllFace(b, w)
    ensures AllFace(a + b, w)
  {
  }

  lemma {:induction false} WalkFaces(w: Walker, n: Node, depth: nat, siblings: seq<bool>)
    ensures AllFace(Walk(w, n, depth, siblings), w)
    decreases Size(n), 0
  {
    WalkAllFaces(w, OrderedChildren(n.children, w.desc), 0, depth, None);
    WalkAllFaces(w, OrderedChildren(n.children, w.desc), 0, depth + 1, Some(siblings));
    TopFaces(w, n, depth, siblings, WalkAll(w, OrderedChildren(n.children, w.desc), 0, depth + 1, Some(siblings)));
  }

  lemma TopFaces(w: Walker, n: Node, depth: nat, siblings: seq<bool>, below: seq<Row>)
    requires AllFace(WalkAll(w, OrderedChildren(n.children, w.desc), 0, depth, None), w) && AllFace(below, w)
    requires below == WalkAll(w, OrderedChildren(n.children, w.desc), 0, depth + 1, Some(siblings))
    ensures AllFace(Walk(w, n, depth, siblings), w)
  {
    FaceAppend([if n.msg.None? then MarkerRow(w, depth, siblings) else MsgRow(w, n.msg.value, depth, siblings)], below, w);
  }

  lemma {:induction false} WalkAllFaces(w: Walker, kids: seq<Node>, i: nat, depth: nat, chain: Option<seq<bool>>)
    ensures AllFace(WalkAll(w, kids, i, depth, chain), w)
    decreases SizeAll(kids), 1
  {
    if kids != [] {
      var hasBelow := if w.desc then i != 0 else |kids| != 1;
      var siblings := if chain.None? then [] else [hasBelow] + chain.value;
      WalkFaces(w, kids[0], depth, siblings);
      WalkAllFaces(w, kids[1..], i + 1, depth, chain);
      FaceAppend(Walk(w, kids[0], depth, siblings), WalkAll(w, kids[1..], i + 1, depth, chain), w);
    }
  }

  /** Every row of an expanded thread names it and counts all its messages, hidden ones too. */
  lemma RowsFace(root: Node, id: string, skipDeleted: bool, desc: bool)
    ensures var all := |MsgsOf(Flatten(Some(root), id, false, false, desc))|;
            forall k :: 0 <= k < |Flatten(Some(root), id, false, skipDeleted, desc)| ==>
              Faces(Flatten(Some(root), id, false, skipDeleted, desc)[k], id, all, desc)
  {
    CountIsShown(root, id, desc);
    var w := Walker(id, Count(Some(root)), skipDeleted, desc);
    WalkFaces(w, root, 0, []);
    assert AllFace(Reversed(Walk(w, root, 0, [])), w);
  }

  // ---- The indent ----

  /** With nothing hidden, a nested row's indent ends in a branch when another row on its level follows,
      with nothing shallower between, else in the leaf of the view's order. */
  lemma TipShows(msgs: seq<Message>, id: string, skipDeleted: bool, desc: bool, q: nat, g: Window.Glyphs)
    requires TreeOf(msgs).Some? && (skipDeleted ==> forall k :: 0 <= k < |msgs| ==> "deleted" !in msgs[k].tags)
    requires var full := Flatten(TreeOf(msgs), id, false, skipDeleted, desc); q < |full| && full[q].depth > 0
    ensures var full := Flatten(TreeOf(msgs), id, false, skipDeleted, desc);
            && Window.Drawable(full[q])
            && EndsIn(Window.Prefix(full[q], g), if Marks.HasAfter(full, q) then g.branch else if desc then g.leafDesc else g.leaf)
  {
    Window.FlattenChained(msgs, id, false, skipDeleted, desc);
    Marks.MarksRight(msgs, id, skipDeleted, desc);
    RowsFace(TreeOf(msgs).value, id, skipDeleted, desc);
    TipLast(Flatten(TreeOf(msgs), id, false, skipDeleted, desc)[q], g);
  }

  predicate EndsIn(s: string, part: string) {
    |part| <= |s| && s[|s| - |part|..] == part
  }

  lemma TipLast(r: Row, g: Window.Glyphs)
    requires Window.Drawable(r) && r.depth > 0
    ensures EndsIn(Window.Prefix(r, g), Window.Tip(r, g))
  {
  }

  // ---- The collapsed row ----

  /** The message is in the thread's tree and may be shown. */
  ghost predicate Shown(msgs: seq<Message>, skipDeleted: bool, m: Message) {
    (exists j: nat :: j < |msgs| && msgs[j] == m && Reaches(msgs, j)) && !(skipDeleted && "deleted" in m.tags)
  }

  ghost predicate ShownUnread(msgs: seq<Message>, skipDeleted: bool, m: Message) {
    Shown(msgs, skipDeleted, m) && "unread" in m.tags
  }

  /** m is one of a kind, and none of the kind is newer. */
  ghost predicate NewestOf(m: Message, kind: Message -> bool) {
    kind(m) && forall o :: kind(o) ==> o.timestamp <= m.timestamp
  }

  lemma NewestStored(ms: seq<Message>, pass: Message -> bool, kind: Message -> bool)
    requires forall m :: kind(m) <==> m in ms && pass(m)
    ensures Newest(ms, pass).Some? <==> exists m :: kind(m)
    ensures Newest(ms, pass).Some? ==> NewestOf(Newest(ms, pass).value, kind)
  {
    NewestIsNewest(ms, pass);
    if m :| kind(m) {
      var k :| 0 <= k < |ms| && ms[k] == m;
    }
    forall o | kind(o) && Newest(ms, pass).Some? ensures o.timestamp <= Newest(ms, pass).value.timestamp {
      var k :| 0 <= k < |ms| && ms[k] == o;
    }
  }

  /** A collapsed thread is one row: it shows a newest unread message if there is one to show, else a
      newest message, else none. */
  lemma CollapsedShows(msgs: seq<Message>, id: string, skipDeleted: bool, desc: bool)
    requires UniqueIds(msgs) && TreeOf(msgs).Some?
    ensures var rows := Flatten(TreeOf(msgs), id, true, skipDeleted, desc);
            && |rows| == 1 && rows[0].threadID == id && rows[0].collapsed && rows[0].depth == 0
            && rows[0].count == |MsgsOf(Flatten(TreeOf(msgs), id, false, false, desc))|
            && (rows[0].msg.Some? <==> exists m :: Shown(msgs, skipDeleted, m))
            && (rows[0].msg.Some? ==>
                  var shown := rows[0].msg.value;
                  if exists m :: ShownUnread(msgs, skipDeleted, m)
                  then NewestOf(shown, (m: Message) => ShownUnread(msgs, skipDeleted, m))
                  else NewestOf(shown, (m: Message) => Shown(msgs, skipDeleted, m)))
  {
    var root := TreeOf(msgs).value;
    CountIsShown(root, id, desc);
    forall m ensures m in Stored(root) && (!skipDeleted || "deleted" !in m.tags) <==> Shown(msgs, skipDeleted, m) {
      TreeHolds(msgs, m);
    }
    CollapseMsgIs(root, skipDeleted, (m: Message) => Shown(msgs, skipDeleted, m), (m: Message) => ShownUnread(msgs, skipDeleted, m));
  }

  lemma CollapseMsgIs(root: Node, skipDeleted: bool, kind: Message -> bool, unread: Message -> bool)
    requires forall m :: kind(m) <==> m in Stored(root) && (!skipDeleted || "deleted" !in m.tags)
    requires forall m :: unread(m) <==> kind(m) && "unread" in m.tags
    ensures var r := CollapseMsg(root, skipDeleted);
            && (r.Some? <==> exists m :: kind(m))
            && (r.Some? ==> if exists m :: unread(m) then NewestOf(r.value, unread) else NewestOf(r.value, kind))
  {
    var kept := (m: Message) => !skipDeleted || "deleted" !in m.tags;
    NewestStored(Stored(root), (m: Message) => kept(m) && "unread" in m.tags, unread);
    NewestStored(Stored(root), kept, kind);
  }
}
