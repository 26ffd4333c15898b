/** The reconciling poll and its persisted floor (src/app/app.go, src/app/classify.go). */
module Poll {
  import opened Mail

  /** Revision r of the database is the r-th write; `own` marks the poll's own classification writes. */
  datatype Write = Write(id: string, own: bool)

  function At(log: seq<Write>, r: nat): Write
    requires 0 < r <= |log|
  {
    log[r - 1]
  }

  /** What happens before one worker call: other writers' writes, a floor persisted by another
      process (0 for none), and whether the call fails. */
  datatype Turn = Turn(writes: seq<string>, peer: nat, ok: bool)

  datatype FloorFile = Missing | Unreadable | Corrupt | Value(floor: nat)

  /** One applied poll: it classified (lo, cur] and left the floor at closed. */
  datatype Window = Window(lo: nat, cur: nat, closed: nat, seen: set<string>)

  datatype Outcome =
    | Quiet
    | Failed
    | Reviewed(lo: nat, cur: nat)
    | Applied(lo: nat, cur: nat, persisted: bool)

  function Level(file: FloorFile): int {
    if file.Value? then file.floor else -1
  }

  /** The message's lastmod: the latest revision that touched it. */
  function Lastmod(log: seq<Write>, id: string): nat {
    if log == [] then 0
    else if log[|log| - 1].id == id then |log|
    else Lastmod(log[..|log| - 1], id)
  }

  lemma {:induction false} LastmodIs(log: seq<Write>, id: string, r: nat)
    ensures Lastmod(log, id) <= |log|
    ensures Lastmod(log, id) > 0 ==> log[Lastmod(log, id) - 1].id == id
    ensures 0 < r <= |log| && At(log, r).id == id ==> r <= Lastmod(log, id)
  {
    if log != [] && log[|log| - 1].id != id {
      LastmodIs(log[..|log| - 1], id, r);
    }
  }

  function Touched(log: seq<Write>): set<string> {
    set k | 0 <= k < |log| :: log[k].id
  }

  /** The window query lastmod:lo+1..cur. */
  function InWindow(log: seq<Write>, lo: nat, cur: nat): set<string> {
    set id | id in Touched(log) && lo < Lastmod(log, id) <= cur
  }

  /** A window's query misses a message it should see only when someone wrote it again before
      the query ran. */
  ghost predicate Sees(log: seq<Write>, w: Window) {
    && w.lo < w.cur <= w.closed <= |log|
    && (forall r :: w.lo < r <= w.cur ==> At(log, r).id in w.seen || Rewritten(log, At(log, r).id, w.cur, w.closed))
    && (forall id <- w.seen :: exists r :: w.lo < r <= w.cur && At(log, r).id == id)
  }

  ghost predicate Rewritten(log: seq<Write>, id: string, lo: nat, hi: nat)
    requires hi <= |log|
  {
    exists r :: lo < r <= hi && At(log, r) == Write(id, false)
  }

  lemma QuerySees(log: seq<Write>, lo: nat, cur: nat)
    requires lo < cur <= |log| && forall r :: cur < r <= |log| ==> !At(log, r).own
    ensures Sees(log, Window(lo, cur, |log|, InWindow(log, lo, cur)))
  {
    var w := Window(lo, cur, |log|, InWindow(log, lo, cur));
    forall r | lo < r <= cur ensures At(log, r).id in w.seen || Rewritten(log, At(log, r).id, cur, |log|) {
      var id := At(log, r).id;
      LastmodIs(log, id, r);
      var last := Lastmod(log, id);
      if last > cur {
        assert At(log, last) == Write(id, false);
      }
    }
    forall id | id in w.seen ensures exists r :: lo < r <= cur && At(log, r).id == id {
      LastmodIs(log, id, 0);
      assert At(log, Lastmod(log, id)).id == id;
    }
  }

  lemma SeesLater(log: seq<Write>, more: seq<Write>, w: Window, closed: nat)
    requires Sees(log, w) && log <= more && w.closed <= closed <= |more|
    ensures Sees(more, w.(closed := closed))
  {
    forall r | w.lo < r <= w.cur ensures At(more, r).id in w.seen || Rewritten(more, At(more, r).id, w.cur, closed) {
      if At(log, r).id !in w.seen {
        var r' :| w.cur < r' <= w.closed && At(log, r') == Write(At(log, r).id, false);
        assert At(more, r') == Write(At(more, r).id, false);
      }
    }
    forall id | id in w.seen ensures exists r :: w.lo < r <= w.cur && At(more, r).id == id {
      var r :| w.lo < r <= w.cur && At(log, r).id == id;
      assert At(more, r).id == id;
    }
  }

  // ---- The windows of a run ----

  /** Each window starts where the one before left the floor. */
  predicate Chained(ws: seq<Window>) {
    && (forall i :: 0 <= i < |ws| ==> ws[i].lo < ws[i].cur <= ws[i].closed)
    && (forall i :: 0 <= i < |ws| - 1 ==> ws[i + 1].lo == ws[i].closed)
  }

  predicate Spanned(w: Window, r: nat) {
    w.lo < r <= w.closed
  }

  predicate Classified(w: Window, r: nat) {
    w.lo < r <= w.cur
  }

  /** Between the window's revision read and the closing one. */
  predicate InGap(w: Window, r: nat) {
    w.cur < r <= w.closed
  }

  lemma {:induction false} ChainOrdered(ws: seq<Window>, i: nat, j: nat)
    requires Chained(ws) && i < j < |ws|
    ensures ws[i].closed <= ws[j].lo
  {
    if i + 1 < j {
      ChainOrdered(ws, i, j - 1);
    }
  }

  lemma {:induction false} ChainCovers(ws: seq<Window>, r: nat)
    requires Chained(ws) && ws != [] && ws[0].lo < r <= ws[|ws| - 1].closed
    ensures exists i :: 0 <= i < |ws| && Spanned(ws[i], r)
  {
    var init := ws[..|ws| - 1];
    if ws[|ws| - 1].lo < r {
      assert Spanned(ws[|ws| - 1], r);
    } else {
      ChainCovers(init, r);
      var i :| 0 <= i < |init| && Spanned(init[i], r);
      assert ws[i] == init[i];
    }
  }

  /** Windows are disjoint, and a revision between the baseline and the floor is missed by all
      of them exactly when it landed in some poll's gap. */
  lemma MissedExactlyInGap(ws: seq<Window>, r: nat)
    requires Chained(ws) && ws != [] && ws[0].lo < r <= ws[|ws| - 1].closed
    ensures (forall i :: 0 <= i < |ws| ==> !Classified(ws[i], r)) <==> exists i :: 0 <= i < |ws| && InGap(ws[i], r)
    ensures forall i, j :: 0 <= i < j < |ws| ==> !(Classified(ws[i], r) && Classified(ws[j], r))
  {
    ChainCovers(ws, r);
    var k :| 0 <= k < |ws| && Spanned(ws[k], r);
    forall i | 0 <= i < |ws| && i != k ensures !Spanned(ws[i], r) {
      if i < k {
        ChainOrdered(ws, i, k);
      } else {
        ChainOrdered(ws, k, i);
      }
    }
    if InGap(ws[k], r) {
      assert forall i :: 0 <= i < |ws| && i != k ==> !Classified(ws[i], r);
    } else {
      assert Classified(ws[k], r);
    }
  }

  /** No other writer's write landed between a poll's window and its closing revision read. */
  ghost predicate QuietGaps(log: seq<Write>, ws: seq<Window>) {
    forall i, r: nat :: 0 <= i < |ws| && InGap(ws[i], r) && r <= |log| ==> At(log, r).own
  }

  /** Exactly one window classifies the write, and its query names the message. */
  ghost predicate OnceIn(log: seq<Write>, ws: seq<Window>, r: nat)
    requires 0 < r <= |log|
  {
    exists i :: 0 <= i < |ws| && Classified(ws[i], r) && At(log, r).id in ws[i].seen
                && forall j :: 0 <= j < |ws| && j != i ==> !Classified(ws[j], r)
  }

  /** Under quiet gaps every foreign write past the baseline is classified by exactly one poll. */
  lemma ClassifiedOnce(log: seq<Write>, ws: seq<Window>, r: nat)
    requires Chained(ws) && ws != [] && ws[0].lo < r <= ws[|ws| - 1].closed
    requires (forall i :: 0 <= i < |ws| ==> Sees(log, ws[i])) && ws[|ws| - 1].closed <= |log|
    requires QuietGaps(log, ws) && !At(log, r).own
    ensures OnceIn(log, ws, r)
  {
    MissedExactlyInGap(ws, r);
    var i :| 0 <= i < |ws| && Classified(ws[i], r);
    forall r': nat | ws[i].cur < r' <= ws[i].closed ensures At(log, r').own {
      assert InGap(ws[i], r');
    }
  }

  // ---- The poller ----

  const ID_CHUNK := 1000

  function Foreign(ids: seq<string>): seq<Write> {
    seq(|ids|, k requires 0 <= k < |ids| => Write(ids[k], false))
  }

  /** From one script to what is left of it, the calls all succeeded if and only if ok. */
  predicate Ran(was: seq<Turn>, left: seq<Turn>, ok: bool) {
    |left| <= |was| && left == was[|was| - |left|..] && (ok <==> forall k :: 0 <= k < |was| - |left| ==> was[k].ok)
  }

  /** The messages the poll itself wrote, in order. */
  function OwnIds(log: seq<Write>): seq<string> {
    if log == [] then []
    else OwnIds(log[..|log| - 1]) + if log[|log| - 1].own then [log[|log| - 1].id] else []
  }

  lemma {:induction false} OwnForeign(log: seq<Write>, ids: seq<string>)
    ensures OwnIds(log + Foreign(ids)) == OwnIds(log)
  {
    if ids == [] {
      assert log + Foreign(ids) == log;
    } else {
      assert (log + Foreign(ids))[..|log| + |ids| - 1] == log + Foreign(ids[..|ids| - 1]);
      OwnForeign(log, ids[..|ids| - 1]);
    }
  }

  lemma OwnWrite(log: seq<Write>, id: string)
    ensures OwnIds(log + [Write(id, true)]) == OwnIds(log) + [id]
  {
    assert (log + [Write(id, true)])[..|log|] == log;
  }

  /** The worker calls made, and how many of them failed. */
  datatype Tally = Tally(calls: nat, failed: nat)

  /** n more calls that all succeeded, or that stopped at the first failure. */
  predicate Made(was: Tally, now: Tally, n: nat, ok: bool) {
    if ok then now == Tally(was.calls + n, was.failed)
    else now.failed == was.failed + 1 && was.calls < now.calls <= was.calls + n
  }

  /** The whole plan was written, or, when a call failed, some of its start. */
  predicate Wrote(was: seq<string>, now: seq<string>, plan: seq<string>, ok: bool) {
    was <= now <= was + plan && (ok ==> now == was + plan)
  }

  /** A window whose classification takes n calls fails at the first one that does; otherwise a
      review ends there and any other window reads the revision once more, to close. */
  predicate Reported(was: Tally, now: Tally, n: nat, out: Outcome, review: bool, persistOk: bool) {
    match out
    case Failed => Made(was, now, n, false)
    case Reviewed(_, _) => review && Made(was, now, n, true)
    case Applied(_, _, persisted) =>
      && !review
      && (if persisted then persistOk && Made(was, now, n + 1, true)
          else (!persistOk && Made(was, now, n + 1, true)) || now == Tally(was.calls + n + 1, was.failed + 1))
    case Quiet => false
  }

  class Poller {
    var log: seq<Write>
    var script: seq<Turn>
    var file: FloorFile
    const dryRun: bool
    /** Whether the backend indexes new mail on request, and how many header rules there are. */
    const canIndex: bool
    const headerRules: nat
    /** The applied polls whose floor was persisted. */
    ghost var windows: seq<Window>
    /** No other process has moved the floor. */
    ghost var alone: bool
    ghost var tally: Tally
    /** The messages the log says the poll itself wrote, in order. */
    ghost var written: seq<string>

    ghost predicate Valid()
      reads this
    {
      && written == OwnIds(log)
      && (forall i :: 0 <= i < |windows| ==> Sees(log, windows[i]))
      && (alone ==> Chained(windows))
      && (alone && windows != [] ==> file == Value(windows[|windows| - 1].closed))
    }

    constructor (log: seq<Write>, script: seq<Turn>, file: FloorFile, dryRun: bool, canIndex: bool, headerRules: nat)
      ensures Valid() && alone && windows == [] && this.dryRun == dryRun
      ensures this.canIndex == canIndex && this.headerRules == headerRules
      ensures this.log == log && this.script == script && this.file == file
    {
      this.log, this.script, this.file, this.dryRun := log, script, file, dryRun;
      this.canIndex, this.headerRules := canIndex, headerRules;
      windows, alone := [], true;
      tally, written := Tally(0, 0), OwnIds(log);
    }

    /** The parsed floor; a missing, unreadable or corrupt file is no floor. */
    method ReadFloor() returns (floor: nat, have: bool)
      ensures have <==> file.Value?
      ensures have ==> file == Value(floor)
    {
      match file {
        case Value(v) => return v, true;
        case _ => return 0, false;
      }
    }

    /** Keeps the higher of the stored and the given floor. */
    method WriteFloor(v: nat)
      modifies `file
      ensures file == Value(if Level(old(file)) > v then Level(old(file)) else v)
    {
      if file.Value? && file.floor > v {
        return;
      }
      file := Value(v);
    }

    /** One worker call. */
    method Call() returns (ok: bool)
      requires Valid()
      modifies `log, `script, `file, `alone, `tally
      ensures Valid() && old(log) <= log && Level(file) >= Level(old(file)) && (alone ==> old(alone) && file == old(file))
      ensures Made(old(tally), tally, 1, ok)
      ensures forall r :: |old(log)| < r <= |log| ==> !At(log, r).own
      ensures old(script) == [] ==> ok && script == [] && log == old(log) && alone == old(alone) && file == old(file)
      ensures old(script) != [] ==>
                var turn := old(script)[0];
                && ok == turn.ok && script == old(script)[1..] && log == old(log) + Foreign(turn.writes)
                && (turn.peer == 0 ==> alone == old(alone) && file == old(file))
    {
      tally := Tally(tally.calls + 1, tally.failed + if script == [] || script[0].ok then 0 else 1);
      if script == [] {
        return true;
      }
      var turn := script[0];
      ghost var was := log;
      OwnForeign(log, turn.writes);
      script, log := script[1..], log + Foreign(turn.writes);
      forall i | 0 <= i < |windows| ensures Sees(log, windows[i]) {
        SeesLater(was, log, windows[i], windows[i].closed);
      }
      if turn.peer > 0 {
        WriteFloor(turn.peer);
        alone := false;
      }
      ok := turn.ok;
    }

    /** The database update finds these messages. */
    method Index(found: seq<string>)
      requires Valid()
      modifies `log
      ensures Valid() && log == old(log) + Foreign(found)
    {
      ghost var was := log;
      OwnForeign(log, found);
      log := log + Foreign(found);
      forall i | 0 <= i < |windows| ensures Sees(log, windows[i]) {
        SeesLater(was, log, windows[i], windows[i].closed);
      }
    }

    /** One tag write of the classifier. */
    method Tag(id: string)
      requires Valid()
      modifies `log, `written
      ensures Valid() && log == old(log) + [Write(id, true)] && written == old(written) + [id]
    {
      ghost var was := log;
      OwnWrite(log, id);
      log, written := log + [Write(id, true)], written + [id];
      forall i | 0 <= i < |windows| ensures Sees(log, windows[i]) {
        SeesLater(was, log, windows[i], windows[i].closed);
      }
    }

    /** The classifier's own writes, one call each; a failure stops it half-way. */
    method Classify(plan: seq<string>) returns (ok: bool)
      requires Valid()
      modifies `log, `script, `file, `alone, `tally, `written
      ensures Valid() && old(log) <= log && Level(file) >= Level(old(file)) && (alone ==> old(alone) && file == old(file))
      ensures old(script) == [] ==> ok && script == [] && alone == old(alone) && file == old(file)
      ensures old(script) == [] && plan == [] ==> log == old(log)
      ensures Ran(old(script), script, ok) && Made(old(tally), tally, |plan|, ok)
      ensures ok ==> written == old(written) + plan
      ensures !ok ==> 0 < tally.calls - old(tally).calls <= |plan| && written == old(written) + plan[..tally.calls - old(tally).calls - 1]
    {
      ok := true;
      for k := 0 to |plan|
        invariant Valid() && old(log) <= log && Level(file) >= Level(old(file)) && (alone ==> old(alone) && file == old(file))
        invariant ok && Ran(old(script), script, ok) && Made(old(tally), tally, k, true) && written == old(written) + plan[..k]
        invariant (old(script) == [] ==> script == [] && alone == old(alone) && file == old(file))
        invariant old(script) == [] && k == 0 ==> log == old(log)
      {
        ok := Call();
        if !ok {
          return;
        }
        Tag(plan[k]);
        assert plan[..k + 1] == plan[..k] + [plan[k]];
      }
    }

    /** The calls of ReadInputs: one for the snapshots, one for each header rule and chunk of ids. */
    function Reads(n: nat): nat {
      1 + headerRules * ((n + ID_CHUNK - 1) / ID_CHUNK)
    }

    /** The calls of a window in which these messages are seen and the rules ask for that many writes. */
    function Needed(seen: set<string>, writes: nat): nat {
      1 + if seen == {} then 0 else Reads(|seen|) + if dryRun then 0 else writes
    }

    /** The reads before classifying n messages: their snapshots, then each header rule's query, a chunk
        of ids at a time. */
    method ReadInputs(n: nat) returns (ok: bool)
      requires Valid()
      modifies `log, `script, `file, `alone, `tally
      ensures Valid() && old(log) <= log && Level(file) >= Level(old(file)) && (alone ==> old(alone) && file == old(file))
      ensures old(script) == [] ==> ok && script == [] && log == old(log) && alone == old(alone) && file == old(file)
      ensures old(script) != [] && !old(script)[0].ok ==> !ok
      ensures Ran(old(script), script, ok) && Made(old(tally), tally, Reads(n), ok)
    {
      ok := Call();
      for k := 0 to headerRules * ((n + ID_CHUNK - 1) / ID_CHUNK)
        invariant Valid() && old(log) <= log && Level(file) >= Level(old(file)) && (alone ==> old(alone) && file == old(file))
        invariant old(script) == [] ==> ok && script == [] && log == old(log) && alone == old(alone) && file == old(file)
        invariant old(script) != [] && !old(script)[0].ok ==> !ok
        invariant Ran(old(script), script, ok) && Made(old(tally), tally, 1 + k, ok)
      {
        if !ok {
          return;
        }
        ok := Call();
      }
    }

    /** Reads the inputs and, unless this is a dry run, writes what the rules say. */
    method RunFilter(lo: nat, cur: nat, ids: set<string>, plan: seq<string>) returns (ok: bool)
      requires Valid() && Sees(log, Window(lo, cur, |log|, ids))
      modifies `log, `script, `file, `alone, `tally, `written
      ensures Valid() && old(log) <= log && Level(file) >= Level(old(file)) && (alone ==> old(alone) && file == old(file))
      ensures old(script) == [] ==> ok && script == [] && alone == old(alone) && file == old(file)
      ensures old(script) != [] && !old(script)[0].ok ==> !ok
      ensures Ran(old(script), script, ok) && Sees(log, Window(lo, cur, |log|, ids))
      ensures Made(old(tally), tally, Reads(|ids|) + if dryRun then 0 else |plan|, ok)
      ensures Wrote(old(written), written, if dryRun then [] else plan, ok)
    {
      ghost var was := log;
      ok := ReadInputs(|ids|);
      if ok && !dryRun {
        ok := Classify(plan);
      }
      SeesLater(was, log, Window(lo, cur, |was|, ids), |log|);
    }

    /** Moves the floor to the end of the window. */
    method Persist(ghost w: Window)
      requires Valid() && Sees(log, w) && w.closed == |log|
      requires alone && windows != [] ==> w.lo == windows[|windows| - 1].closed
      requires alone ==> Level(file) <= w.lo
      modifies `file, `windows
      ensures Valid() && windows == old(windows) + [w] && Level(file) >= Level(old(file)) && Level(file) >= |log|
    {
      WriteFloor(|log|);
      windows := windows + [w];
    }

    /** Reads the closing revision and persists it as the floor. */
    method CloseWindow(lo: nat, cur: nat, seen: set<string>, persistOk: bool) returns (persisted: bool)
      requires Valid() && Sees(log, Window(lo, cur, |log|, seen))
      requires alone && windows != [] ==> lo == windows[|windows| - 1].closed
      requires alone ==> Level(file) <= lo
      modifies `log, `script, `file, `alone, `windows, `tally
      ensures Valid() && old(log) <= log && Level(file) >= Level(old(file)) && (alone ==> old(alone))
      ensures persisted <==> persistOk && Made(old(tally), tally, 1, true)
      ensures Made(old(tally), tally, 1, true) || Made(old(tally), tally, 1, false)
      ensures !persisted ==> windows == old(windows) && (alone ==> file == old(file))
      ensures persisted ==> |old(log)| <= |log| && windows == old(windows) + [Window(lo, cur, |log|, seen)] && Level(file) >= |log|
      ensures old(script) == [] ==> persisted == persistOk && alone == old(alone) && log == old(log)
    {
      ghost var was := log;
      var ok := Call();
      if !ok || !persistOk {
        return false;
      }
      SeesLater(was, log, Window(lo, cur, |was|, seen), |log|);
      Persist(Window(lo, cur, |log|, seen));
      persisted := true;
    }

    /** Indexes new mail, reads the floor (a first run starts at its own discovery), then the revision. */
    method OpenWindow(found: seq<string>) returns (lo: nat, cur: nat, out: Outcome)
      requires Valid()
      modifies `log, `script, `file, `alone, `tally
      ensures Valid() && old(log) <= log && Level(file) >= Level(old(file)) && (alone ==> old(alone) && file == old(file))
      ensures canIndex ==> Made(old(tally), tally, 2, !out.Failed?)
      ensures out.Quiet? || out.Failed? || out == Reviewed(lo, cur)
      ensures out.Reviewed? ==> |old(log)| <= cur == |log| && lo < cur && (alone ==> Level(file) <= lo)
      ensures out.Reviewed? && alone ==> if old(file).Value? then lo == old(file).floor else |old(log)| <= lo
      ensures !canIndex ==> out.Quiet?
      ensures canIndex && old(script) != [] && !old(script)[0].ok ==> out.Failed?
      ensures out.Failed? ==> canIndex && old(script) != []
      ensures old(script) == [] && canIndex ==>
                && script == [] && alone == old(alone) && file == old(file) && log == old(log) + Foreign(found)
                && (out.Quiet? <==> |log| <= if file.Value? then file.floor else |old(log)|)
    {
      lo, cur, out := 0, 0, Quiet;
      var ok := Call();
      if !canIndex {
        return;
      }
      if !ok {
        return 0, 0, Failed;
      }
      var pre := |log|;
      Index(found);
      var have;
      lo, have := ReadFloor();
      if !have {
        lo := pre;
      }
      ok := Call();
      if !ok {
        return 0, 0, Failed;
      }
      cur := |log|;
      if cur > lo {
        out := Reviewed(lo, cur);
      }
    }

    /** The ids of the window, as of the query. */
    method QueryWindow(lo: nat, cur: nat) returns (ok: bool, ids: set<string>)
      requires Valid() && lo < cur == |log|
      modifies `log, `script, `file, `alone, `tally
      ensures Valid() && old(log) <= log && Level(file) >= Level(old(file)) && (alone ==> old(alone) && file == old(file))
      ensures Made(old(tally), tally, 1, ok)
      ensures ok ==> Sees(log, Window(lo, cur, |log|, ids)) && ids == InWindow(log, lo, cur)
      ensures old(script) == [] ==> ok && script == [] && log == old(log) && alone == old(alone)
      ensures old(script) != [] ==>
                script == old(script)[1..] && ok == old(script)[0].ok && log == old(log) + Foreign(old(script)[0].writes)
    {
      ok := Call();
      ids := InWindow(log, lo, cur);
      QuerySees(log, lo, cur);
    }

    /** Classifies the messages of a window and closes it. An empty window's report does not carry
        the dry-run mark. */
    method FilterWindow(lo: nat, cur: nat, ids: set<string>, plan: seq<string>, persistOk: bool) returns (out: Outcome)
      requires Valid() && Sees(log, Window(lo, cur, |log|, ids))
      requires alone && windows != [] ==> lo == windows[|windows| - 1].closed
      requires alone ==> Level(file) <= lo
      modifies `log, `script, `file, `alone, `windows, `tally, `written
      ensures Valid() && old(log) <= log && Level(file) >= Level(old(file)) && (alone ==> old(alone))
      ensures Reported(old(tally), tally, Needed(ids, |plan|) - 1, out, dryRun && ids != {}, persistOk)
      ensures Wrote(old(written), written, if dryRun || ids == {} then [] else plan, !out.Failed?)
      ensures out == Failed || out == Reviewed(lo, cur) || out == Applied(lo, cur, true) || out == Applied(lo, cur, false)
      ensures out != Applied(lo, cur, true) ==> windows == old(windows) && (alone ==> file == old(file))
      ensures out == Applied(lo, cur, true) ==>
                windows == old(windows) + [Window(lo, cur, |log|, ids)] && Level(file) >= |log| && (dryRun ==> ids == {})
      ensures old(script) == [] ==> alone == old(alone) && out != Failed && (persistOk ==> out != Applied(lo, cur, false))
      ensures old(script) == [] && ids == {} ==> log == old(log)
    {
      if ids != {} {
        var ok := RunFilter(lo, cur, ids, plan);
        if !ok {
          return Failed;
        }
        if dryRun {
          return Reviewed(lo, cur);
        }
      }
      var persisted := CloseWindow(lo, cur, ids, persistOk);
      out := Applied(lo, cur, persisted);
    }

    /** Classifies (lo, cur] and closes the window. */
    method ClassifyWindow(lo: nat, cur: nat, plan: seq<string>, persistOk: bool) returns (out: Outcome, ghost seen: set<string>)
      requires Valid() && lo < cur == |log|
      requires alone && windows != [] ==> lo == windows[|windows| - 1].closed
      requires alone ==> Level(file) <= lo
      modifies `log, `script, `file, `alone, `windows, `tally, `written
      ensures Valid() && old(log) <= log && Level(file) >= Level(old(file)) && (alone ==> old(alone))
      ensures Reported(old(tally), tally, Needed(seen, |plan|), out, dryRun && seen != {}, persistOk)
      ensures Wrote(old(written), written, if dryRun || seen == {} then [] else plan, !out.Failed?)
      ensures out == Failed || out == Reviewed(lo, cur) || out == Applied(lo, cur, true) || out == Applied(lo, cur, false)
      ensures out != Applied(lo, cur, true) ==> windows == old(windows) && (alone ==> file == old(file))
      ensures out == Applied(lo, cur, true) ==>
                windows == old(windows) + [Window(lo, cur, |log|, seen)] && Level(file) >= |log| && (dryRun ==> seen == {})
      ensures old(script) == [] ==> seen == InWindow(old(log), lo, cur) && alone == old(alone)
      ensures old(script) == [] && persistOk ==> (out.Reviewed? <==> dryRun && seen != {}) && (out.Reviewed? || out.Applied?)
      ensures old(script) != [] && old(script)[0].ok ==> seen == InWindow(old(log) + Foreign(old(script)[0].writes), lo, cur)
      ensures |old(script)| == 1 && old(script)[0].ok && persistOk && seen == {} ==>
                out == Applied(lo, cur, true) && log == old(log) + Foreign(old(script)[0].writes)
    {
      seen := {};
      var ok, ids := QueryWindow(lo, cur);
      if !ok {
        return Failed, {};
      }
      seen := ids;
      out := FilterWindow(lo, cur, ids, plan, persistOk);
    }

    /** One reconciling poll. */
    method PollReconcile(found: seq<string>, plan: seq<string>, persistOk: bool) returns (out: Outcome, ghost seen: set<string>)
      requires Valid()
      modifies `log, `script, `file, `alone, `windows, `tally, `written
      ensures Valid() && old(log) <= log && Level(file) >= Level(old(file)) && (alone ==> old(alone))
      ensures canIndex && !out.Quiet? ==>
                Reported(old(tally), tally, 2 + Needed(seen, |plan|), out, dryRun && seen != {}, persistOk)
      ensures !canIndex ==> out.Quiet?
      ensures canIndex && out.Quiet? ==> Made(old(tally), tally, 2, true)
      ensures Wrote(old(written), written, if dryRun || seen == {} then [] else plan, !out.Failed?)
      ensures out.Applied? && alone && !old(file).Value? ==> |old(log)| <= out.lo
      ensures !(out.Applied? && out.persisted) ==> windows == old(windows) && (alone ==> file == old(file))
      ensures out.Applied? ==> out.lo < out.cur && |old(log)| <= out.cur <= |log|
      ensures out.Applied? && alone && old(file).Value? ==> out.lo == old(file).floor
      ensures out.Applied? && out.persisted ==>
                windows == old(windows) + [Window(out.lo, out.cur, |log|, seen)] && Level(file) >= |log| && (dryRun ==> seen == {})
    {
      var lo, cur;
      lo, cur, out := OpenWindow(found);
      seen := {};
      if out.Reviewed? {
        out, seen := ClassifyWindow(lo, cur, plan, persistOk);
      }
    }
  }

  datatype PollRun = PollRun(found: seq<string>, plan: seq<string>, persistOk: bool)

  /** Any run of polls of one process, against any writes and failures: the floor never falls,
      windows are disjoint, and with quiet gaps every foreign write between the baseline and the
      floor is classified by exactly one poll. */
  method RunPolls(p: Poller, polls: seq<PollRun>)
    requires p.Valid()
    modifies p
    ensures p.Valid() && old(p.log) <= p.log && Level(p.file) >= Level(old(p.file)) && old(p.windows) <= p.windows
    ensures p.alone && QuietGaps(p.log, p.windows) && p.windows != [] ==>
              p.file == Value(p.windows[|p.windows| - 1].closed)
              && forall r {:trigger At(p.log, r)} :: p.windows[0].lo < r <= p.file.floor && !At(p.log, r).own ==> OnceIn(p.log, p.windows, r)
  {
    for k := 0 to |polls|
      invariant p.Valid() && old(p.log) <= p.log && Level(p.file) >= Level(old(p.file)) && old(p.windows) <= p.windows
    {
      var out, seen := p.PollReconcile(polls[k].found, polls[k].plan, polls[k].persistOk);
    }
    if p.alone && QuietGaps(p.log, p.windows) && p.windows != [] {
      forall r | p.windows[0].lo < r <= p.file.floor && !At(p.log, r).own ensures OnceIn(p.log, p.windows, r) {
        ClassifiedOnce(p.log, p.windows, r);
      }
    }
  }

  /** A dry run can move the floor: the one message of the window is written again before the
      window query, the empty report reads as applied, and no later window reaches the message. */
  method DryRunLosesWrite() returns (p: Poller)
    ensures fresh(p) && p.Valid() && p.dryRun && |p.windows| == 1
    ensures p.log == [Write("m", false), Write("m", false)] && Level(p.file) >= 2
    ensures p.windows[0].seen == {} && InGap(p.windows[0], 2)
  {
    var log := [Write("m", false)];
    p := new Poller(log, [Turn(["m"], 0, true)], Value(0), true, true, 0);
    var later := log + Foreign(["m"]);
    assert later == [Write("m", false), Write("m", false)];
    assert Lastmod(later, "m") == 2;
    assert InWindow(later, 0, 1) == {};
    var out, seen := p.ClassifyWindow(0, 1, [], true);
  }
}
