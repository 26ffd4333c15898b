/** The lastmod refresh cycle against a database that other writers keep changing (src/app/refresh.go). */
module Refresh {
  import opened Mail
  import opened Fill

  // ---- The database ----

  /** One listed unit: a thread, or one message in a flat view. `stub` is the index summary,
      `full` the fetched content. */
  datatype Rec = Rec(lastmod: nat, hits: set<string>, stub: Thread, full: Thread)

  type Units = map<string, Rec>

  datatype Db = Db(uuid: nat, rev: nat, threads: Units, mails: Units)

  function UnitsOf(db: Db, flat: bool): Units {
    if flat then db.mails else db.threads
  }

  ghost predicate ValidUnits(units: Units, rev: nat) {
    forall id <- units :: units[id].lastmod <= rev && units[id].stub.id == id && units[id].full.id == id
  }

  ghost predicate ValidDb(db: Db) {
    ValidUnits(db.threads, db.rev) && ValidUnits(db.mails, db.rev)
  }

  /** Nothing is deleted, and whatever differs carries a later lastmod. */
  ghost predicate UnitsLater(a: Units, rev: nat, b: Units) {
    && (forall id <- a :: id in b)
    && (forall id <- b :: (id in a && a[id] == b[id]) || b[id].lastmod > rev)
  }

  ghost predicate Later(a: Db, b: Db) {
    && a.uuid == b.uuid && a.rev <= b.rev
    && UnitsLater(a.threads, a.rev, b.threads)
    && UnitsLater(a.mails, a.rev, b.mails)
  }

  /** Any number of foreign writes, or a rebuilt database under a new uuid. */
  ghost predicate Next(a: Db, b: Db) {
    ValidDb(b) && (Later(a, b) || b.uuid > a.uuid)
  }

  ghost predicate Rose(units: Units, rev: nat) {
    exists id :: id in units && units[id].lastmod > rev
  }

  /** Some write landed after a. */
  ghost predicate Bumped(a: Db, b: Db) {
    a.uuid != b.uuid || (Rose(b.threads, a.rev) && Rose(b.mails, a.rev))
  }

  lemma NextTrans(a: Db, b: Db, c: Db)
    requires ValidDb(a) && Next(a, b) && Next(b, c)
    ensures Next(a, c)
  {
  }

  lemma RoseStays(a: Units, rev: nat, b: Units, floor: nat)
    requires UnitsLater(a, rev, b) && Rose(a, floor) && floor <= rev
    ensures Rose(b, floor)
  {
    var id :| id in a && a[id].lastmod > floor;
    assert id in b;
  }

  lemma BumpedStays(a: Db, b: Db, c: Db)
    requires Next(a, b) && Next(b, c) && (Bumped(a, b) || Bumped(b, c))
    ensures Bumped(a, c)
  {
    if a.uuid == b.uuid == c.uuid {
      if Bumped(a, b) {
        RoseStays(b.threads, b.rev, c.threads, a.rev);
        RoseStays(b.mails, b.rev, c.mails, a.rev);
      } else {
        var x :| x in c.threads && c.threads[x].lastmod > b.rev;
        var y :| y in c.mails && c.mails[y].lastmod > b.rev;
      }
    }
  }

  // ---- Worker calls ----

  datatype Query =
    | All(query: string)
    | Changed(lo: nat, hi: nat)
    | Among(query: string, ids: set<string>)

  predicate Matches(q: Query, id: string, rec: Rec) {
    match q
    case All(query) => query in rec.hits
    case Changed(lo, hi) => lo <= rec.lastmod <= hi
    case Among(query, ids) => id in ids && query in rec.hits
  }

  /** The query's result: each matching unit's summary, once, in some order. */
  ghost predicate ResultOf(page: seq<Thread>, units: Units, q: Query) {
    && UniqueThreads(page)
    && (forall k :: 0 <= k < |page| ==>
          page[k].id in units && Matches(q, page[k].id, units[page[k].id]) && page[k] == units[page[k].id].stub)
    && (forall id <- units :: Matches(q, id, units[id]) ==> Listed(page, id))
  }

  method Enumerate(units: Units, q: Query) returns (page: seq<Thread>)
    requires forall id <- units :: units[id].stub.id == id
    ensures ResultOf(page, units, q)
  {
    page := [];
    var rest := units.Keys;
    while rest != {}
      invariant rest <= units.Keys && UniqueThreads(page)
      invariant forall k :: 0 <= k < |page| ==>
                  page[k].id in units && page[k].id !in rest
                  && Matches(q, page[k].id, units[page[k].id]) && page[k] == units[page[k].id].stub
      invariant forall id :: id in units && id !in rest && Matches(q, id, units[id]) ==> Listed(page, id)
      decreases rest
    {
      var id :| id in rest;
      rest := rest - {id};
      if Matches(q, id, units[id]) {
        ghost var before := page;
        page := page + [units[id].stub];
        assert page[|before|].id == id;
        ListedMore(before, units[id].stub);
      }
    }
  }

  lemma ListedMore(ts: seq<Thread>, t: Thread)
    ensures forall id :: Listed(ts + [t], id) <==> Listed(ts, id) || id == t.id
  {
    forall id | Listed(ts, id) || id == t.id ensures Listed(ts + [t], id) {
      if id == t.id {
        assert (ts + [t])[|ts|].id == id;
      } else {
        var i :| 0 <= i < |ts| && ts[i].id == id;
        assert (ts + [t])[i].id == id;
      }
    }
  }

  /** What happens before one worker call reads: foreign writes, threads the apply path took off the
      view, threads opened; and whether the call fails, after how many rows. An apply writes, asks
      the database, then removes: `dropped` are removals since whose write nothing was read, `late`
      those whose write an earlier call may have seen. */
  datatype Turn = Turn(db: Db, dropped: set<string>, late: set<string>, hydrated: set<string>, ok: bool, emitted: nat)

  ghost predicate Script(db: Db, script: seq<Turn>)
    decreases |script|
  {
    ValidDb(db) &&
    (script != [] ==>
       && Next(db, script[0].db)
       && (script[0].dropped != {} ==> Bumped(db, script[0].db))
       && Script(script[0].db, script[1..]))
  }

  predicate AllOk(script: seq<Turn>) {
    forall k :: 0 <= k < |script| ==> script[k].ok
  }

  /** The threads that are open now and before every call to come. */
  function Always(hydrated: set<string>, script: seq<Turn>): set<string>
    decreases |script|
  {
    if script == [] then hydrated else hydrated * Always(script[0].hydrated, script[1..])
  }

  /** The threads that are open now or before some call to come. */
  function Ever(hydrated: set<string>, script: seq<Turn>): set<string>
    decreases |script|
  {
    if script == [] then hydrated else hydrated + Ever(script[0].hydrated, script[1..])
  }

  lemma StillOpen(hydrated: set<string>, script: seq<Turn>)
    ensures Always(hydrated, script) <= hydrated <= Ever(hydrated, script)
    ensures script != [] ==>
              && Always(hydrated, script) <= Always(script[0].hydrated, script[1..])
              && Ever(script[0].hydrated, script[1..]) <= Ever(hydrated, script)
  {
  }

  lemma EverLess(hydrated: set<string>, script: seq<Turn>)
    ensures Ever({}, script) <= Ever(hydrated, script)
  {
  }

  /** What a loop over threads can see: the database as of the last call, the open threads, and
      what the next calls meet. */
  datatype Moment = Moment(db: Db, hydrated: set<string>, script: seq<Turn>)

  function Called(m: Moment): Moment {
    if m.script == [] then m else Moment(m.script[0].db, m.script[0].hydrated, m.script[1..])
  }

  /** The moment a loop that fetches the open threads of ts reaches the k-th. */
  function Reached(m: Moment, flat: bool, ts: seq<Thread>, k: nat): Moment
    requires k <= |ts|
  {
    if k == 0 then m
    else
      var before := Reached(m, flat, ts, k - 1);
      if !flat && ts[k - 1].id in before.hydrated then Called(before) else before
  }

  function ContentOf(units: Units, id: string): Thread {
    if id in units then units[id].full else Thread(id, 0, [])
  }

  /** What such a loop makes of the k-th thread: an open one is replaced by its content. */
  function Afresh(m: Moment, flat: bool, ts: seq<Thread>, k: nat): Thread
    requires k < |ts|
  {
    var at := Reached(m, flat, ts, k);
    if !flat && ts[k].id in at.hydrated then ContentOf(UnitsOf(Called(at).db, flat), ts[k].id) else ts[k]
  }

  function Without(ids: seq<string>, gone: set<string>): seq<string> {
    if ids == [] then []
    else (if ids[0] in gone then [] else [ids[0]]) + Without(ids[1..], gone)
  }

  lemma {:induction false} WithoutNone(ids: seq<string>)
    ensures Without(ids, {}) == ids
  {
    if ids != [] {
      WithoutNone(ids[1..]);
    }
  }

  lemma {:induction false} WithoutBoth(ids: seq<string>, a: set<string>, b: set<string>)
    ensures Without(Without(ids, a), b) == Without(ids, a + b)
  {
    if ids != [] {
      var rest := Without(ids[1..], a);
      WithoutBoth(ids[1..], a, b);
      if ids[0] in a {
        assert Without(ids, a) == rest && Without(ids, a + b) == Without(ids[1..], a + b);
      } else {
        assert ([ids[0]] + rest)[1..] == rest;
      }
    }
  }

  lemma WithoutTwice(ids: seq<string>, taken: set<string>, dropped: set<string>, late: set<string>)
    ensures Without(Without(ids, dropped), taken + late) == Without(Without(Without(ids, taken), dropped), late)
  {
    WithoutBoth(ids, dropped, taken + late);
    WithoutBoth(ids, taken, dropped);
    WithoutBoth(ids, taken + dropped, late);
    assert dropped + (taken + late) == taken + dropped + late;
  }

  lemma {:induction false} WithoutLists(ids: seq<string>, gone: set<string>)
    ensures forall id :: id in Without(ids, gone) <==> id in ids && id !in gone
  {
    if ids != [] {
      WithoutLists(ids[1..], gone);
      assert ids == [ids[0]] + ids[1..];
    }
  }

  // ---- What the refresher has caught up with ----

  function Ids(ts: seq<Thread>): seq<string> {
    seq(|ts|, k requires 0 <= k < |ts| => ts[k].id)
  }

  ghost predicate Current(t: Thread, units: Units) {
    t.id in units && (t == units[t.id].stub || t == units[t.id].full)
  }

  /** Up to revision rev the snapshot is the query result. */
  ghost predicate Caught(units: Units, rev: nat, query: string, snapshot: seq<Thread>) {
    && (forall id <- units :: units[id].lastmod <= rev ==> (query in units[id].hits <==> Listed(snapshot, id)))
    && (forall k :: 0 <= k < |snapshot| ==>
          snapshot[k].id in units && (units[snapshot[k].id].lastmod <= rev ==> Current(snapshot[k], units)))
  }

  /** The view shows the snapshot, or a write past the cursor will bring another merge. */
  ghost predicate Viewed(units: Units, rev: nat, snapshot: seq<Thread>, shown: seq<string>) {
    shown == Ids(snapshot) || Rose(units, rev)
  }

  lemma CaughtLater(a: Units, top: nat, b: Units, rev: nat, query: string, snapshot: seq<Thread>)
    requires UnitsLater(a, top, b) && rev <= top && Caught(a, rev, query, snapshot)
    ensures Caught(b, rev, query, snapshot)
  {
  }

  /** Everything the view should list, and nothing else. */
  ghost predicate Exact(units: Units, query: string, snapshot: seq<Thread>, shown: seq<string>) {
    && Sorted(snapshot) && UniqueThreads(snapshot)
    && shown == Ids(snapshot)
    && (forall id <- units :: query in units[id].hits <==> id in shown)
    && (forall k :: 0 <= k < |snapshot| ==> Current(snapshot[k], units))
  }

  /** At quiescence the snapshot and the view are exactly the query result: nothing missed,
      nothing resurrected. */
  lemma QuiescentIsExact(units: Units, rev: nat, query: string, snapshot: seq<Thread>, shown: seq<string>)
    requires ValidUnits(units, rev) && Sorted(snapshot) && UniqueThreads(snapshot)
    requires Caught(units, rev, query, snapshot) && Viewed(units, rev, snapshot, shown)
    ensures Exact(units, query, snapshot, shown)
  {
    assert shown == Ids(snapshot);
    forall id ensures id in shown <==> Listed(snapshot, id) {
      IdsListed(snapshot, id);
    }
  }

  /** The snapshot is exact, and the view lists exactly the query's threads that no late removal took. */
  ghost predicate ExactBut(units: Units, query: string, snapshot: seq<Thread>, shown: seq<string>, taken: set<string>) {
    && Exact(units, query, snapshot, Ids(snapshot))
    && shown == Without(Ids(snapshot), taken)
    && (forall id <- units :: id in shown <==> query in units[id].hits && id !in taken)
  }

  lemma LateIsAllThatLacks(units: Units, query: string, snapshot: seq<Thread>, due: seq<string>, taken: set<string>)
    requires Exact(units, query, snapshot, due)
    ensures ExactBut(units, query, snapshot, Without(due, taken), taken)
    ensures taken == {} ==> Exact(units, query, snapshot, Without(due, taken))
  {
    WithoutLists(due, taken);
    WithoutNone(due);
  }

  lemma IdsListed(ts: seq<Thread>, id: string)
    ensures id in Ids(ts) <==> Listed(ts, id)
  {
    if Listed(ts, id) {
      var i :| 0 <= i < |ts| && ts[i].id == id;
      assert Ids(ts)[i] == id;
    }
  }

  // ---- One incremental cycle, read by read ----

  /** The changed set, judged by any later database: complete and current for [lo, hi]. */
  ghost predicate PageOf(units: Units, page: seq<Thread>, lo: nat, hi: nat) {
    && (forall id <- units :: lo <= units[id].lastmod <= hi ==> Listed(page, id))
    && (forall k :: 0 <= k < |page| ==>
          && page[k].id in units
          && (units[page[k].id].lastmod <= hi ==> lo <= units[page[k].id].lastmod && page[k] == units[page[k].id].stub))
  }

  /** Membership answered for the first n changed threads. */
  ghost predicate AliveOf(units: Units, alive: set<string>, page: seq<Thread>, n: nat, hi: nat, query: string)
    requires n <= |page|
  {
    && (forall id <- alive :: Listed(page[..n], id))
    && (forall k :: 0 <= k < n ==>
          page[k].id in units && (units[page[k].id].lastmod <= hi ==> (page[k].id in alive <==> query in units[page[k].id].hits)))
  }

  /** The merge input: exactly the changed threads that match. */
  ghost predicate KeptOf(units: Units, kept: seq<Thread>, lo: nat, hi: nat, query: string) {
    && UniqueThreads(kept)
    && (forall id <- units :: lo <= units[id].lastmod <= hi && query in units[id].hits ==> Listed(kept, id))
    && (forall k :: 0 <= k < |kept| ==>
          && kept[k].id in units
          && (units[kept[k].id].lastmod <= hi ==>
                lo <= units[kept[k].id].lastmod && query in units[kept[k].id].hits && Current(kept[k], units)))
  }

  /** Unit id is among ts: with its full content if its thread is in open, with its summary if it is
      not in ever. A flat row has nothing to open. */
  predicate Delivered(units: Units, id: string, ts: seq<Thread>, open: set<string>, ever: set<string>, flat: bool) {
    id in units && (!flat && id in open ==> units[id].full in ts) && (flat || id !in ever ==> units[id].stub in ts)
  }

  predicate Due(units: Units, id: string, lo: nat, hi: nat, query: string) {
    id in units && lo <= units[id].lastmod <= hi && query in units[id].hits
  }

  /** Every matching unit last written in lo..hi is delivered. */
  ghost predicate Fetched(units: Units, lo: nat, hi: nat, query: string, ts: seq<Thread>, open: set<string>, ever: set<string>, flat: bool) {
    forall id {:trigger Delivered(units, id, ts, open, ever, flat)} ::
      Due(units, id, lo, hi, query) ==> Delivered(units, id, ts, open, ever, flat)
  }

  /** The i-th thread, while the fetching is at thread k: what comes later still has its summary. */
  predicate FetchedAt(units: Units, hi: nat, t: Thread, i: nat, k: nat, open: set<string>, ever: set<string>, flat: bool) {
    t.id in units && units[t.id].lastmod <= hi ==>
      && (k <= i ==> t == units[t.id].stub)
      && (i < k && !flat && t.id in open ==> t == units[t.id].full)
      && (i < k && (flat || t.id !in ever) ==> t == units[t.id].stub)
  }

  ghost predicate FetchedTo(units: Units, hi: nat, ts: seq<Thread>, k: nat, open: set<string>, ever: set<string>, flat: bool) {
    forall i: nat {:trigger FetchedAt(units, hi, ts[i], i, k, open, ever, flat)} ::
      i < |ts| ==> FetchedAt(units, hi, ts[i], i, k, open, ever, flat)
  }

  lemma FetchedToLater(a: Units, top: nat, b: Units, hi: nat, ts: seq<Thread>, k: nat, open: set<string>, ever: set<string>, flat: bool)
    requires UnitsLater(a, top, b) && hi <= top && FetchedTo(a, hi, ts, k, open, ever, flat)
    ensures FetchedTo(b, hi, ts, k, open, ever, flat)
  {
    forall i: nat | i < |ts| ensures FetchedAt(b, hi, ts[i], i, k, open, ever, flat) {
      assert FetchedAt(a, hi, ts[i], i, k, open, ever, flat);
    }
  }

  /** One more thread: left alone when it is closed, replaced by its content when it is open. */
  lemma FetchedToNext(units: Units, hi: nat, ts: seq<Thread>, k: nat, fetch: bool, open: set<string>, ever: set<string>, flat: bool)
    requires k < |ts| && FetchedTo(units, hi, ts, k, open, ever, flat) && ContentOf(units, ts[k].id).id == ts[k].id
    requires if fetch then !flat && ts[k].id in ever else flat || ts[k].id !in open
    ensures FetchedTo(units, hi, if fetch then ts[k := ContentOf(units, ts[k].id)] else ts, k + 1, open, ever, flat)
  {
    var now := if fetch then ts[k := ContentOf(units, ts[k].id)] else ts;
    forall i: nat | i < |now| ensures FetchedAt(units, hi, now[i], i, k + 1, open, ever, flat) {
      assert FetchedAt(units, hi, ts[i], i, k, open, ever, flat);
    }
  }

  lemma FetchedToEnd(units: Units, lo: nat, hi: nat, query: string, ts: seq<Thread>, open: set<string>, ever: set<string>, flat: bool)
    requires KeptOf(units, ts, lo, hi, query) && FetchedTo(units, hi, ts, |ts|, open, ever, flat)
    ensures Fetched(units, lo, hi, query, ts, open, ever, flat)
  {
    forall id | Due(units, id, lo, hi, query) ensures Delivered(units, id, ts, open, ever, flat) {
      var i: nat :| i < |ts| && ts[i].id == id;
      assert FetchedAt(units, hi, ts[i], i, |ts|, open, ever, flat);
    }
  }

  lemma StillFetched(a: Db, b: Db, flat: bool, lo: nat, hi: nat, query: string, ts: seq<Thread>, open: set<string>, ever: set<string>)
    requires Next(a, b) && a.uuid == b.uuid && hi <= a.rev && Fetched(UnitsOf(a, flat), lo, hi, query, ts, open, ever, flat)
    ensures Fetched(UnitsOf(b, flat), lo, hi, query, ts, open, ever, flat)
  {
    var was, now := UnitsOf(a, flat), UnitsOf(b, flat);
    forall id | Due(now, id, lo, hi, query) ensures Delivered(now, id, ts, open, ever, flat) {
      assert was[id] == now[id] && Delivered(was, id, ts, open, ever, flat);
    }
  }

  /** No changed thread that stopped matching is still carried over. */
  ghost predicate Cleared(units: Units, snapshot: seq<Thread>, lo: nat, hi: nat, query: string) {
    forall id <- units :: lo <= units[id].lastmod <= hi && query !in units[id].hits ==> !Listed(snapshot, id)
  }

  lemma PageLater(a: Units, top: nat, b: Units, page: seq<Thread>, lo: nat, hi: nat)
    requires UnitsLater(a, top, b) && hi <= top && PageOf(a, page, lo, hi)
    ensures PageOf(b, page, lo, hi)
  {
  }

  lemma AliveLater(a: Units, top: nat, b: Units, alive: set<string>, page: seq<Thread>, n: nat, hi: nat, query: string)
    requires n <= |page| && UnitsLater(a, top, b) && hi <= top && AliveOf(a, alive, page, n, hi, query)
    ensures AliveOf(b, alive, page, n, hi, query)
  {
  }

  /** One more intersect query extends the answer. */
  lemma AliveGrows(units: Units, alive: set<string>, page: seq<Thread>, lo: nat, hi: nat, rev: nat, query: string, hits: seq<Thread>)
    requires lo <= hi <= |page| && UniqueThreads(page) && AliveOf(units, alive, page, lo, rev, query)
    requires forall k :: 0 <= k < |page| ==> page[k].id in units
    requires ResultOf(hits, units, Among(query, set t | t in Ids(page[lo..hi])))
    ensures AliveOf(units, alive + (set t | t in Ids(hits)), page, hi, rev, query)
  {
    var among := set t | t in Ids(page[lo..hi]);
    var more := set t | t in Ids(hits);
    forall id | id in more ensures id in among {
      var k :| 0 <= k < |hits| && Ids(hits)[k] == id;
      assert hits[k].id in among;
    }
    forall id | id in alive + more ensures Listed(page[..hi], id) {
      if id in alive {
        var k :| 0 <= k < lo && page[..lo][k].id == id;
        assert page[..hi][k].id == id;
      } else {
        assert id in Ids(page[lo..hi]);
        var k :| 0 <= k < hi - lo && Ids(page[lo..hi])[k] == id;
        assert page[..hi][lo + k].id == id;
      }
    }
    forall k | 0 <= k < hi && units[page[k].id].lastmod <= rev
      ensures page[k].id in alive + more <==> query in units[page[k].id].hits
    {
      SliceIds(page, lo, hi, k);
      IdsListed(hits, page[k].id);
    }
  }

  /** With different ids, a slice lists an element's id only when it holds the element. */
  lemma SliceIds(page: seq<Thread>, lo: nat, hi: nat, k: nat)
    requires lo <= hi <= |page| && k < |page| && UniqueThreads(page)
    ensures page[k].id in Ids(page[lo..hi]) <==> lo <= k < hi
    ensures Listed(page[..lo], page[k].id) <==> k < lo
  {
    if lo <= k < hi {
      assert Ids(page[lo..hi])[k - lo] == page[k].id;
    }
    if k < lo {
      assert page[..lo][k].id == page[k].id;
    }
  }

  /** The threads whose id is (or is not) among ids, in order. */
  function Picked(ts: seq<Thread>, ids: set<string>, wanted: bool): seq<Thread> {
    if ts == [] then []
    else (if (ts[0].id in ids) == wanted then [ts[0]] else []) + Picked(ts[1..], ids, wanted)
  }

  lemma {:induction false} PickedMember(ts: seq<Thread>, ids: set<string>, wanted: bool, t: Thread)
    ensures t in Picked(ts, ids, wanted) <==> t in ts && (t.id in ids) == wanted
  {
    if ts != [] {
      PickedMember(ts[1..], ids, wanted, t);
      assert ts == [ts[0]] + ts[1..];
    }
  }

  lemma PickedListed(ts: seq<Thread>, ids: set<string>, wanted: bool, id: string)
    ensures Listed(Picked(ts, ids, wanted), id) <==> Listed(ts, id) && (id in ids) == wanted
  {
    var out := Picked(ts, ids, wanted);
    if Listed(out, id) {
      var i :| 0 <= i < |out| && out[i].id == id;
      PickedMember(ts, ids, wanted, out[i]);
    }
    if Listed(ts, id) && (id in ids) == wanted {
      var i :| 0 <= i < |ts| && ts[i].id == id;
      PickedMember(ts, ids, wanted, ts[i]);
    }
  }

  lemma {:induction false} PickedOrdered(ts: seq<Thread>, ids: set<string>, wanted: bool)
    ensures Sorted(ts) ==> Sorted(Picked(ts, ids, wanted))
    ensures UniqueThreads(ts) ==> UniqueThreads(Picked(ts, ids, wanted))
  {
    if ts != [] {
      PickedOrdered(ts[1..], ids, wanted);
      var rest := Picked(ts[1..], ids, wanted);
      forall k | 0 <= k < |rest| ensures rest[k] in ts[1..] {
        PickedMember(ts[1..], ids, wanted, rest[k]);
      }
    }
  }

  method Pick(ts: seq<Thread>, ids: set<string>, wanted: bool) returns (out: seq<Thread>)
    ensures out == Picked(ts, ids, wanted)
  {
    out := [];
    for k := 0 to |ts|
      invariant out + Picked(ts[k..], ids, wanted) == Picked(ts, ids, wanted)
    {
      assert ts[k..][1..] == ts[k + 1..];
      if (ts[k].id in ids) == wanted {
        out := out + [ts[k]];
      }
    }
  }

  lemma KeptFromPage(units: Units, page: seq<Thread>, alive: set<string>, lo: nat, hi: nat, query: string)
    requires PageOf(units, page, lo, hi) && UniqueThreads(page) && AliveOf(units, alive, page, |page|, hi, query)
    ensures KeptOf(units, Picked(page, alive, true), lo, hi, query)
  {
    var kept := Picked(page, alive, true);
    PickedOrdered(page, alive, true);
    forall id | id in units && lo <= units[id].lastmod <= hi && query in units[id].hits ensures Listed(kept, id) {
      var k :| 0 <= k < |page| && page[k].id == id;
      PickedListed(page, alive, true, id);
    }
    forall k | 0 <= k < |kept| ensures kept[k] in page && kept[k].id in alive {
      PickedMember(page, alive, true, kept[k]);
    }
    forall k | 0 <= k < |kept| && kept[k].id in units && units[kept[k].id].lastmod <= hi
      ensures lo <= units[kept[k].id].lastmod && query in units[kept[k].id].hits && kept[k] == units[kept[k].id].stub
    {
      assert kept[k] in page;
      var i :| 0 <= i < |page| && page[i] == kept[k];
    }
  }

  lemma PageFetched(units: Units, page: seq<Thread>, alive: set<string>, lo: nat, hi: nat, open: set<string>, ever: set<string>, flat: bool)
    requires PageOf(units, page, lo, hi)
    ensures FetchedTo(units, hi, Picked(page, alive, true), 0, open, ever, flat)
  {
    var kept := Picked(page, alive, true);
    forall i: nat | i < |kept| ensures FetchedAt(units, hi, kept[i], i, 0, open, ever, flat) {
      PickedMember(page, alive, true, kept[i]);
    }
  }

  /** Pruned threads: changed, and not matching as far as [.., hi] goes. */
  ghost predicate GoneOf(units: Units, gone: set<string>, lo: nat, hi: nat, query: string) {
    && (forall id <- gone :: id in units && (units[id].lastmod <= hi ==> query !in units[id].hits))
    && (forall id <- units :: lo <= units[id].lastmod <= hi && query !in units[id].hits ==> id in gone)
  }

  lemma GoneFromPage(units: Units, page: seq<Thread>, alive: set<string>, lo: nat, hi: nat, query: string)
    requires PageOf(units, page, lo, hi) && UniqueThreads(page) && AliveOf(units, alive, page, |page|, hi, query)
    ensures GoneOf(units, (set t | t in Ids(page)) - alive, lo, hi, query)
  {
    var gone := (set t | t in Ids(page)) - alive;
    forall id | id in gone ensures id in units && (units[id].lastmod <= hi ==> query !in units[id].hits) {
      var k :| 0 <= k < |page| && Ids(page)[k] == id;
      assert page[k].id == id;
    }
    forall id | id in units && lo <= units[id].lastmod <= hi && query !in units[id].hits ensures id in gone {
      var k :| 0 <= k < |page| && page[k].id == id;
      assert Ids(page)[k] == id;
    }
  }

  /** Dropping pruned threads from the carry-over loses nothing the cursor vouches for. */
  lemma PruneSafe(units: Units, gone: set<string>, lo: nat, hi: nat, query: string, snapshot: seq<Thread>, shown: seq<string>)
    requires lo <= hi && GoneOf(units, gone, lo, hi, query)
    requires Caught(units, lo, query, snapshot) && Viewed(units, lo, snapshot, shown)
    ensures Caught(units, lo, query, Picked(snapshot, gone, false))
    ensures Viewed(units, lo, Picked(snapshot, gone, false), shown)
    ensures Cleared(units, Picked(snapshot, gone, false), lo, hi, query)
  {
    var out := Picked(snapshot, gone, false);
    forall id ensures Listed(out, id) <==> Listed(snapshot, id) && id !in gone {
      PickedListed(snapshot, gone, false, id);
    }
    forall k | 0 <= k < |out| ensures out[k] in snapshot {
      PickedMember(snapshot, gone, false, out[k]);
    }
    if !Rose(units, lo) {
      forall k | 0 <= k < |snapshot| ensures snapshot[k].id !in gone {
        assert snapshot[k].id in units && Listed(snapshot, snapshot[k].id);
      }
      PickedAll(snapshot, gone);
    }
  }

  lemma {:induction false} PickedAll(ts: seq<Thread>, gone: set<string>)
    requires forall k :: 0 <= k < |ts| ==> ts[k].id !in gone
    ensures Picked(ts, gone, false) == ts
  {
    if ts != [] {
      PickedAll(ts[1..], gone);
    }
  }

  function Carried(snapshot: seq<Thread>, kept: seq<Thread>): seq<Thread> {
    Picked(snapshot, set t | t in Ids(kept), false) + kept
  }

  lemma CarriedMember(snapshot: seq<Thread>, kept: seq<Thread>)
    ensures forall id :: Listed(Carried(snapshot, kept), id) <==> Listed(snapshot, id) || Listed(kept, id)
    ensures forall t :: t in Carried(snapshot, kept) <==> (t in snapshot && !Listed(kept, t.id)) || t in kept
    ensures UniqueThreads(snapshot) && UniqueThreads(kept) ==> UniqueThreads(Carried(snapshot, kept))
  {
    var ids := set t | t in Ids(kept);
    var rest := Picked(snapshot, ids, false);
    forall id ensures id in ids <==> Listed(kept, id) {
      IdsListed(kept, id);
    }
    forall id ensures Listed(rest + kept, id) <==> Listed(snapshot, id) || Listed(kept, id) {
      PickedListed(snapshot, ids, false, id);
      ListedConcat(rest, kept, id);
    }
    forall t ensures t in rest + kept <==> (t in snapshot && !Listed(kept, t.id)) || t in kept {
      PickedMember(snapshot, ids, false, t);
    }
    PickedOrdered(snapshot, ids, false);
    if UniqueThreads(snapshot) && UniqueThreads(kept) {
      forall i, j | 0 <= i < |rest| && 0 <= j < |kept| ensures rest[i].id != kept[j].id {
        PickedMember(snapshot, ids, false, rest[i]);
        assert Listed(kept, kept[j].id);
      }
    }
  }

  lemma ListedConcat(a: seq<Thread>, b: seq<Thread>, id: string)
    ensures Listed(a + b, id) <==> Listed(a, id) || Listed(b, id)
  {
    if Listed(a, id) {
      var i :| 0 <= i < |a| && a[i].id == id;
      assert (a + b)[i].id == id;
    }
    if Listed(b, id) {
      var i :| 0 <= i < |b| && b[i].id == id;
      assert (a + b)[|a| + i].id == id;
    }
  }

  lemma ListedPermuted(a: seq<Thread>, b: seq<Thread>)
    requires multiset(a) == multiset(b)
    ensures forall id :: Listed(a, id) <==> Listed(b, id)
    ensures forall t :: t in a <==> t in b
  {
    forall id ensures Listed(a, id) <==> Listed(b, id) {
      if Listed(a, id) {
        ListedIn(a, b, id);
      }
      if Listed(b, id) {
        ListedIn(b, a, id);
      }
    }
    forall t ensures t in a <==> t in b {
      assert t in a <==> t in multiset(a);
      assert t in b <==> t in multiset(b);
    }
  }

  /** The merge catches the snapshot up to hi. */
  lemma MergeCatchesUp(units: Units, lo: nat, hi: nat, query: string, snapshot: seq<Thread>, kept: seq<Thread>, out: seq<Thread>)
    requires lo <= hi && Caught(units, lo, query, snapshot) && Cleared(units, snapshot, lo, hi, query)
    requires KeptOf(units, kept, lo, hi, query) && multiset(out) == multiset(Carried(snapshot, kept))
    ensures Caught(units, hi, query, out)
  {
    CarriedMember(snapshot, kept);
    ListedPermuted(Carried(snapshot, kept), out);
    forall id | id in units && units[id].lastmod <= hi ensures query in units[id].hits <==> Listed(out, id) {
    }
    forall k | 0 <= k < |out|
      ensures out[k].id in units && (units[out[k].id].lastmod <= hi ==> Current(out[k], units))
    {
      assert out[k] in out;
      if out[k] in snapshot {
        assert Listed(snapshot, out[k].id);
      }
    }
  }

  ghost predicate OwnIds(units: Units) {
    forall id <- units :: units[id].stub.id == id && units[id].full.id == id
  }

  lemma PrunedFetched(units: Units, gone: set<string>, from: nat, lo: nat, hi: nat, query: string, snapshot: seq<Thread>,
                      open: set<string>, ever: set<string>, flat: bool)
    requires OwnIds(units) && lo <= hi && GoneOf(units, gone, lo, hi, query)
    requires Fetched(units, from, lo, query, snapshot, open, ever, flat)
    ensures Fetched(units, from, lo, query, Picked(snapshot, gone, false), open, ever, flat)
  {
    forall id | Due(units, id, from, lo, query)
      ensures Delivered(units, id, Picked(snapshot, gone, false), open, ever, flat)
    {
      assert Delivered(units, id, snapshot, open, ever, flat) && id !in gone;
      PickedMember(snapshot, gone, false, units[id].full);
      PickedMember(snapshot, gone, false, units[id].stub);
    }
  }

  /** After the merge, what the carry-over had fetched and what this window fetched. */
  lemma MergeFetched(units: Units, from: nat, lo: nat, hi: nat, query: string, snapshot: seq<Thread>, kept: seq<Thread>, out: seq<Thread>,
                     open: set<string>, ever: set<string>, flat: bool)
    requires OwnIds(units) && lo <= hi && KeptOf(units, kept, lo, hi, query)
    requires forall t :: t in out <==> (t in snapshot && !Listed(kept, t.id)) || t in kept
    requires Fetched(units, from, lo, query, snapshot, open, ever, flat) && Fetched(units, lo, hi, query, kept, open, ever, flat)
    ensures Fetched(units, from, hi, query, out, open, ever, flat) && Fetched(units, lo, hi, query, out, open, ever, flat)
  {
    forall id | Due(units, id, lo, hi, query) ensures Delivered(units, id, out, open, ever, flat) {
      assert Delivered(units, id, kept, open, ever, flat);
    }
    forall id | Due(units, id, from, hi, query) ensures Delivered(units, id, out, open, ever, flat) {
      if units[id].lastmod >= lo {
        assert Due(units, id, lo, hi, query);
      } else {
        assert Delivered(units, id, snapshot, open, ever, flat) && !Listed(kept, id);
      }
    }
  }

  lemma ClearedLater(a: Units, top: nat, b: Units, snapshot: seq<Thread>, lo: nat, hi: nat, query: string)
    requires UnitsLater(a, top, b) && hi <= top && Cleared(a, snapshot, lo, hi, query)
    ensures Cleared(b, snapshot, lo, hi, query)
  {
  }

  // ---- The refresher ----

  /** From a to b: any writes; if threads left the view meanwhile, a write says so. */
  ghost predicate Spans(a: Db, shownA: seq<string>, b: Db, shownB: seq<string>) {
    Next(a, b) && (shownB == shownA || Bumped(a, b))
  }

  lemma SpansTrans(a: Db, shownA: seq<string>, b: Db, shownB: seq<string>, c: Db, shownC: seq<string>)
    requires ValidDb(a) && Spans(a, shownA, b, shownB) && Spans(b, shownB, c, shownC)
    ensures Spans(a, shownA, c, shownC)
  {
    NextTrans(a, b, c);
    if Bumped(a, b) || Bumped(b, c) {
      BumpedStays(a, b, c);
    }
  }

  /** The next call fails before its first row. */
  predicate Mute(script: seq<Turn>) {
    script != [] && !script[0].ok && script[0].emitted == 0
  }

  /** A reload whose pre-query and walk both fail before their first row. */
  predicate MuteReload(script: seq<Turn>) {
    |script| >= 3 && Mute(script[1..]) && Mute(script[2..])
  }

  /** A cycle that sees a new uuid and loses its whole reload. */
  predicate LostReload(script: seq<Turn>, uuid: nat) {
    |script| >= 5 && script[0].ok && script[1].ok && script[1].db.uuid != uuid && MuteReload(script[2..])
  }

  const PRUNE_CHUNK := 1000
  const FIRST_LOAD_ROWS := 100

  function Min(a: nat, b: nat): nat {
    if a < b then a else b
  }

  lemma StillTracking(a: Db, shownA: seq<string>, b: Db, shownB: seq<string>, flat: bool, rev: nat, query: string, snapshot: seq<Thread>)
    requires Spans(a, shownA, b, shownB) && a.uuid <= b.uuid
    requires rev <= a.rev && Caught(UnitsOf(a, flat), rev, query, snapshot) && Viewed(UnitsOf(a, flat), rev, snapshot, shownA)
    ensures a.uuid == b.uuid ==> Caught(UnitsOf(b, flat), rev, query, snapshot) && Viewed(UnitsOf(b, flat), rev, snapshot, shownB)
  {
    if a.uuid == b.uuid {
      CaughtLater(UnitsOf(a, flat), a.rev, UnitsOf(b, flat), rev, query, snapshot);
      if Rose(UnitsOf(a, flat), rev) {
        RoseStays(UnitsOf(a, flat), a.rev, UnitsOf(b, flat), rev);
      } else if shownB != shownA {
        var id :| id in UnitsOf(b, flat) && UnitsOf(b, flat)[id].lastmod > a.rev;
      }
    }
  }

  lemma NothingChanged(units: Units, lo: nat, hi: nat, query: string, snapshot: seq<Thread>, shown: seq<string>)
    requires PageOf(units, [], lo, hi) && Caught(units, lo, query, snapshot) && Viewed(units, lo, snapshot, shown)
    ensures Caught(units, hi, query, snapshot) && Viewed(units, hi, snapshot, shown)
  {
    if Rose(units, lo) {
      var id :| id in units && units[id].lastmod > lo;
      assert !(lo <= units[id].lastmod <= hi) by {
        assert lo <= units[id].lastmod <= hi ==> Listed([], id);
      }
      assert Rose(units, hi);
    }
  }

  lemma NothingFetched(units: Units, from: nat, lo: nat, hi: nat, query: string, snapshot: seq<Thread>,
                       open: set<string>, ever: set<string>, flat: bool)
    requires PageOf(units, [], lo, hi) && Fetched(units, from, lo, query, snapshot, open, ever, flat)
    ensures Fetched(units, from, hi, query, snapshot, open, ever, flat) && Fetched(units, lo, hi, query, snapshot, open, ever, flat)
  {
    forall id ensures !Due(units, id, lo, hi, query) {
      assert !Listed([], id);
    }
    forall id | Due(units, id, from, hi, query) ensures Delivered(units, id, snapshot, open, ever, flat) {
      assert !Due(units, id, lo, hi, query);
    }
  }

  lemma NoWindow(units: Units, lo: nat, hi: nat, query: string, ts: seq<Thread>, open: set<string>, ever: set<string>, flat: bool)
    requires lo > hi
    ensures Fetched(units, lo, hi, query, ts, open, ever, flat)
  {
    forall id ensures !Due(units, id, lo, hi, query) {
    }
  }

  lemma NoneGone(page: seq<Thread>, alive: set<string>, snapshot: seq<Thread>)
    ensures |Picked(page, alive, true)| == |page| ==>
              Picked(snapshot, (set t | t in Ids(page)) - alive, false) == snapshot
  {
    AllPicked(page, alive);
    if |Picked(page, alive, true)| == |page| {
      var gone := (set t | t in Ids(page)) - alive;
      assert forall k :: 0 <= k < |page| ==> Ids(page)[k] in alive;
      assert gone == {};
      PickedAll(snapshot, gone);
    }
  }

  lemma {:induction false} AllPicked(page: seq<Thread>, alive: set<string>)
    ensures |Picked(page, alive, true)| <= |page|
    ensures |Picked(page, alive, true)| == |page| ==> forall k :: 0 <= k < |page| ==> page[k].id in alive
  {
    if page != [] {
      AllPicked(page[1..], alive);
      assert forall k :: 1 <= k < |page| ==> page[k] == page[1..][k - 1];
    }
  }

  lemma KeptStep(a: Units, top: nat, b: Units, kept: seq<Thread>, k: nat, t: Thread, lo: nat, hi: nat, query: string)
    requires UnitsLater(a, top, b) && hi <= top && KeptOf(a, kept, lo, hi, query) && k < |kept| && t.id == kept[k].id
    ensures KeptOf(b, kept, lo, hi, query)
    ensures t.id in b && t == b[t.id].full ==> KeptOf(b, kept[k := t], lo, hi, query)
  {
    var now := kept[k := t];
    forall id | Listed(kept, id) ensures Listed(now, id) {
      var i :| 0 <= i < |kept| && kept[i].id == id;
      assert now[i].id == id;
    }
  }

  lemma UniqueUpdated(ts: seq<Thread>, k: nat, t: Thread)
    requires UniqueThreads(ts) && k < |ts| && t.id == ts[k].id
    ensures UniqueThreads(ts[k := t])
  {
  }

  lemma ChangedIsPage(units: Units, raw: seq<Thread>, page: seq<Thread>, lo: nat, hi: nat)
    requires ResultOf(raw, units, Changed(lo, hi)) && multiset(raw) == multiset(page)
    ensures PageOf(units, page, lo, hi)
  {
    ListedPermuted(raw, page);
    forall id | id in units && lo <= units[id].lastmod <= hi ensures Listed(page, id) {
      assert Matches(Changed(lo, hi), id, units[id]);
    }
    forall k | 0 <= k < |page| ensures page[k] in raw {
    }
  }

  lemma WalkCatchesUp(units: Units, rev: nat, query: string, page: seq<Thread>, snapshot: seq<Thread>)
    requires ResultOf(page, units, All(query)) && multiset(snapshot) == multiset(page)
    ensures Caught(units, rev, query, snapshot)
  {
    ListedPermuted(page, snapshot);
    forall id | id in units ensures query in units[id].hits <==> Listed(snapshot, id) {
      assert Matches(All(query), id, units[id]) <==> query in units[id].hits;
    }
    forall k | 0 <= k < |snapshot| ensures Current(snapshot[k], units) {
      assert snapshot[k] in page;
    }
  }

  datatype Step = Tick | Switch(query: string, flat: bool)

  class Refresher {
    // the database as of the last call, and what precedes each coming one
    var db: Db
    var script: seq<Turn>
    // the view, as far as the refresher uses it
    var query: string
    var flat: bool
    /** What the view owes to its merges and to removals on time; and what late removals took since. */
    var due: seq<string>
    var taken: set<string>
    var hydrated: set<string>
    // the refresher's own state
    var uuid: nat
    var rPrev: nat
    var snapshot: seq<Thread>
    /** Whether the last reload's walk ran to its end. */
    ghost var complete: bool
    /** Threads watched as open all along, those that ever may be, and since which revision. */
    ghost var open: set<string>
    ghost var ever: set<string>
    ghost var from: nat

    ghost predicate Watched()
      reads `hydrated, `script, `open, `ever
    {
      open <= Always(hydrated, script) && Ever(hydrated, script) <= ever
    }

    /** The thread ids the view shows. */
    function Shown(): seq<string>
      reads `due, `taken
    {
      Without(due, taken)
    }

    ghost predicate Tracking()
      reads this
    {
      && Caught(UnitsOf(db, flat), rPrev, query, snapshot)
      && Viewed(UnitsOf(db, flat), rPrev, snapshot, due)
    }

    ghost predicate Valid()
      reads this
    {
      && Script(db, script)
      && uuid <= db.uuid && (uuid == db.uuid ==> rPrev <= db.rev)
      && Sorted(snapshot) && UniqueThreads(snapshot)
      && (complete && uuid == db.uuid ==> Tracking())
      && Watched() && (uuid == db.uuid ==> Fetched(UnitsOf(db, flat), from, rPrev, query, snapshot, open, ever, flat))
    }

    /** Watches the threads open from now on. */
    ghost method Watch()
      requires Valid()
      modifies `open, `ever, `from
      ensures Valid() && open == Always(hydrated, script) && ever == Ever(hydrated, script) && from == rPrev + 1
    {
      open, ever, from := Always(hydrated, script), Ever(hydrated, script), rPrev + 1;
    }

    /** uuid 0 stands for the empty uuid no database has: the first cycle reloads. */
    constructor (db: Db, script: seq<Turn>, query: string, flat: bool, rPrev: nat)
      requires Script(db, script) && db.uuid > 0
      ensures Valid() && this.db == db && this.script == script && this.query == query && this.flat == flat
      ensures uuid == 0 && snapshot == [] && taken == {}
    {
      this.db, this.script, this.query, this.flat, this.rPrev := db, script, query, flat, rPrev;
      due, taken, hydrated, uuid, snapshot, complete := [], {}, {}, 0, [], false;
      open, ever, from := Always({}, script), Ever({}, script), rPrev + 1;
    }

    /** One worker call: it reads whatever the database has become by then. */
    method Call() returns (ok: bool, emitted: nat)
      requires Script(db, script)
      modifies `db, `script, `due, `taken, `hydrated
      ensures old(Watched()) ==> Watched()
      ensures Script(db, script) && Spans(old(db), old(due), db, due)
      ensures AllOk(old(script)) ==> ok && AllOk(script)
      ensures Now() == Called(old(Now()))
      ensures old(script) == [] ==> script == [] && db == old(db) && taken <= old(taken)
      ensures old(script) != [] ==>
                script == old(script)[1..] && db == old(script)[0].db && ok == old(script)[0].ok && emitted == old(script)[0].emitted
                && taken == old(taken) + old(script)[0].late
                && Shown() == Without(Without(old(Shown()), old(script)[0].dropped), old(script)[0].late)
    {
      if script == [] {
        return true, 0;
      }
      var turn := script[0];
      StillOpen(hydrated, script);
      WithoutNone(due);
      db, script, hydrated := turn.db, script[1..], turn.hydrated;
      WithoutTwice(due, taken, turn.dropped, turn.late);
      due, taken := Without(due, turn.dropped), taken + turn.late;
      return turn.ok, turn.emitted;
    }

    /** A failing query has still emitted part of its result. */
    method Query(q: Query) returns (ok: bool, page: seq<Thread>)
      requires Script(db, script)
      modifies `db, `script, `due, `taken, `hydrated
      ensures old(Watched()) ==> Watched()
      ensures Script(db, script) && Spans(old(db), old(due), db, due)
      ensures AllOk(old(script)) ==> ok && AllOk(script)
      ensures old(script) == [] ==> script == [] && db == old(db) && taken <= old(taken)
      ensures UniqueThreads(page) && (ok ==> ResultOf(page, UnitsOf(db, flat), q))
      ensures old(script) != [] ==> script == old(script)[1..] && db == old(script)[0].db
      ensures Mute(old(script)) ==> !ok && page == []
    {
      var emitted: nat;
      ok, emitted := Call();
      page := Enumerate(UnitsOf(db, flat), q);
      if !ok {
        page := page[..Min(emitted, |page|)];
      }
    }

    /** Replaces the view's thread set (src/core/view.go). */
    method MergeThreads()
      modifies `due, `taken
      ensures due == Ids(snapshot) && taken == {} && Shown() == Ids(snapshot)
    {
      due, taken := Ids(snapshot), {};
      WithoutNone(due);
    }

    method Load(page: seq<Thread>)
      requires UniqueThreads(page)
      modifies `due, `taken, `snapshot
      ensures due == Ids(snapshot) && taken == {} && Sorted(snapshot) && UniqueThreads(snapshot)
      ensures multiset(snapshot) == multiset(page)
    {
      snapshot := SortThreads(page);
      SortThreadsSorts(page);
      UniqueByMultiset(page, snapshot);
      MergeThreads();
    }

    /** Count, then the pre-query paints the first rows, even of a failing one. */
    method LoadHead()
      requires Script(db, script) && Sorted(snapshot) && UniqueThreads(snapshot)
      modifies `db, `script, `due, `taken, `hydrated, `snapshot
      ensures old(Watched()) ==> Watched()
      ensures Script(db, script) && Next(old(db), db) && Sorted(snapshot) && UniqueThreads(snapshot)
      ensures AllOk(old(script)) ==> AllOk(script)
      ensures old(script) == [] ==> script == [] && db == old(db) && taken <= old(taken)
      ensures |old(script)| >= 2 ==> script == old(script)[2..]
      ensures |old(script)| >= 2 && Mute(old(script)[1..]) ==> snapshot == old(snapshot)
    {
      ghost var db0 := db;
      var counted, _ := Call();
      ghost var db1 := db;
      var _, head := Query(All(query));
      NextTrans(db0, db1, db);
      if head != [] {
        Load(head[..Min(FIRST_LOAD_ROWS, |head|)]);
      }
    }

    /** The full walk replaces the snapshot with what it emitted; an empty result clears the view. */
    method Walk() returns (ok: bool)
      requires Script(db, script) && Sorted(snapshot) && UniqueThreads(snapshot)
      modifies `db, `script, `due, `taken, `hydrated, `snapshot, `complete
      ensures old(Watched()) ==> Watched()
      ensures Script(db, script) && Next(old(db), db) && Sorted(snapshot) && UniqueThreads(snapshot)
      ensures ok == complete && (AllOk(old(script)) ==> ok && AllOk(script))
      ensures old(script) == [] ==> script == [] && db == old(db) && taken <= old(taken)
      ensures complete ==> due == Ids(snapshot) && taken == {} && Caught(UnitsOf(db, flat), db.rev, query, snapshot)
      ensures Mute(old(script)) ==> !ok && snapshot == old(snapshot) && db == old(script)[0].db
    {
      var page: seq<Thread>;
      ok, page := Query(All(query));
      complete := ok;
      if ok || page != [] {
        Load(page);
        if ok {
          WalkCatchesUp(UnitsOf(db, flat), db.rev, query, page, snapshot);
        }
      }
    }

    /** Head first, then the walk. */
    method FullReload() returns (ok: bool)
      requires Script(db, script) && Sorted(snapshot) && UniqueThreads(snapshot)
      modifies `db, `script, `due, `taken, `hydrated, `snapshot, `complete
      ensures old(Watched()) ==> Watched()
      ensures Script(db, script) && Next(old(db), db) && Sorted(snapshot) && UniqueThreads(snapshot)
      ensures ok == complete && (AllOk(old(script)) ==> ok && AllOk(script))
      ensures old(script) == [] ==> script == [] && db == old(db) && taken <= old(taken)
      ensures complete ==> due == Ids(snapshot) && taken == {} && Caught(UnitsOf(db, flat), db.rev, query, snapshot)
      ensures MuteReload(old(script)) ==> !ok && snapshot == old(snapshot) && db == old(script)[2].db
    {
      ghost var db0 := db;
      LoadHead();
      ghost var db1 := db;
      ok := Walk();
      NextTrans(db0, db1, db);
    }

    /** The view drops its threads; nothing is open any more. */
    method Reset()
      requires Watched()
      modifies `due, `taken, `hydrated, `open, `from
      ensures Watched() && due == [] && taken == {} && hydrated == {} && from == rPrev + 1
    {
      EverLess(hydrated, script);
      due, taken, hydrated, open, from := [], {}, {}, {}, rPrev + 1;
    }

    /** A reload leaves a valid refresher, whatever it loaded. */
    lemma ReloadValid(was: Db)
      requires Script(db, script) && Next(was, db) && uuid <= was.uuid && (uuid == was.uuid ==> rPrev <= was.rev)
      requires Sorted(snapshot) && UniqueThreads(snapshot) && Watched() && from > rPrev
      requires complete ==> due == Ids(snapshot) && Caught(UnitsOf(db, flat), db.rev, query, snapshot)
      ensures Valid()
    {
      NoWindow(UnitsOf(db, flat), from, rPrev, query, snapshot, open, ever, flat);
    }

    /** A view switch or a changed view section. */
    method OnConfig(query: string, flat: bool) returns (ok: bool)
      requires Valid()
      modifies this
      ensures Valid() && uuid == old(uuid) && rPrev == old(rPrev) && Next(old(db), db)
      ensures this.query == query && this.flat == flat && ok == complete
      ensures AllOk(old(script)) ==> ok && AllOk(script)
    {
      this.query, this.flat := query, flat;
      Reset();
      ok := FullReload();
      ReloadValid(old(db));
    }

    /** The query for threads touched in prev..cur, as merge input. */
    method ChangedPage(lo: nat, hi: nat) returns (ok: bool, page: seq<Thread>)
      requires Script(db, script) && hi <= db.rev
      modifies `db, `script, `due, `taken, `hydrated
      ensures old(Watched()) ==> Watched()
      ensures Script(db, script) && Spans(old(db), old(due), db, due)
      ensures AllOk(old(script)) ==> ok && AllOk(script)
      ensures old(script) == [] ==> script == [] && db == old(db) && taken <= old(taken)
      ensures ok ==> UniqueThreads(page) && PageOf(UnitsOf(db, flat), page, lo, hi)
    {
      var raw: seq<Thread>;
      ok, raw := Query(Changed(lo, hi));
      page := SortThreads(raw);
      SortThreadsSorts(raw);
      UniqueByMultiset(raw, page);
      if ok {
        ChangedIsPage(UnitsOf(db, flat), raw, page, lo, hi);
      }
    }

    /** Which changed threads still match, asked in bounded batches. */
    method Membership(page: seq<Thread>, lo: nat, hi: nat) returns (ok: bool, alive: set<string>)
      requires Script(db, script) && UniqueThreads(page) && uuid <= db.uuid
      requires db.uuid == uuid ==> hi <= db.rev && PageOf(UnitsOf(db, flat), page, lo, hi)
      modifies `db, `script, `due, `taken, `hydrated
      ensures old(Watched()) ==> Watched()
      ensures Script(db, script) && Spans(old(db), old(due), db, due)
      ensures AllOk(old(script)) ==> ok && AllOk(script)
      ensures old(script) == [] ==> script == [] && db == old(db) && taken <= old(taken)
      ensures ok && db.uuid == uuid ==>
                PageOf(UnitsOf(db, flat), page, lo, hi) && AliveOf(UnitsOf(db, flat), alive, page, |page|, hi, query)
    {
      ghost var db0, due0 := db, due;
      alive := {};
      ok := true;
      var k := 0;
      while k < |page|
        invariant 0 <= k <= |page| && Script(db, script) && Spans(db0, due0, db, due) && ok
        invariant old(Watched()) ==> Watched()
        invariant AllOk(old(script)) ==> AllOk(script)
        invariant old(script) == [] ==> script == [] && db == db0 && taken <= old(taken)
        invariant db.uuid == uuid ==>
                    hi <= db.rev && PageOf(UnitsOf(db, flat), page, lo, hi) && AliveOf(UnitsOf(db, flat), alive, page, k, hi, query)
      {
        var next := Min(k + PRUNE_CHUNK, |page|);
        var hits: seq<Thread>;
        ghost var db1, due1 := db, due;
        ok, hits := Query(Among(query, set t | t in Ids(page[k..next])));
        SpansTrans(db0, due0, db1, due1, db, due);
        if !ok {
          return;
        }
        if db.uuid == uuid {
          var a, b := UnitsOf(db1, flat), UnitsOf(db, flat);
          PageLater(a, db1.rev, b, page, lo, hi);
          AliveLater(a, db1.rev, b, alive, page, k, hi, query);
          AliveGrows(b, alive, page, k, next, hi, query, hits);
        }
        alive := alive + set t | t in Ids(hits);
        k := next;
      }
    }

    /** Drops the changed threads that no longer match from the carry-over; the rest are merge input. */
    method Prune(page: seq<Thread>, hi: nat) returns (ok: bool, kept: seq<Thread>)
      requires Valid() && rPrev <= hi && UniqueThreads(page)
      requires db.uuid == uuid ==> hi <= db.rev && PageOf(UnitsOf(db, flat), page, rPrev, hi)
      modifies `db, `script, `due, `taken, `hydrated, `snapshot
      ensures Valid() && Next(old(db), db)
      ensures AllOk(old(script)) ==> ok && AllOk(script)
      ensures old(script) == [] ==> script == [] && db == old(db) && taken <= old(taken)
      ensures ok ==> UniqueThreads(kept)
      ensures ok && db.uuid == uuid ==> hi <= db.rev && KeptOf(UnitsOf(db, flat), kept, rPrev, hi, query)
      ensures ok && db.uuid == uuid ==> FetchedTo(UnitsOf(db, flat), hi, kept, 0, open, ever, flat)
      ensures ok && complete && db.uuid == uuid ==> Cleared(UnitsOf(db, flat), snapshot, rPrev, hi, query)
    {
      ghost var db0, due0 := db, due;
      var alive: set<string>;
      ok, alive := Membership(page, rPrev, hi);
      StillValid(db0, due0);
      if !ok {
        return false, [];
      }
      kept := Sift(page, alive, hi);
    }

    method Sift(page: seq<Thread>, alive: set<string>, hi: nat) returns (kept: seq<Thread>)
      requires Valid() && rPrev <= hi && UniqueThreads(page)
      requires db.uuid == uuid ==>
                 PageOf(UnitsOf(db, flat), page, rPrev, hi) && AliveOf(UnitsOf(db, flat), alive, page, |page|, hi, query)
      modifies `snapshot
      ensures Valid() && UniqueThreads(kept)
      ensures db.uuid == uuid ==>
                KeptOf(UnitsOf(db, flat), kept, rPrev, hi, query) && FetchedTo(UnitsOf(db, flat), hi, kept, 0, open, ever, flat)
      ensures complete && db.uuid == uuid ==> Cleared(UnitsOf(db, flat), snapshot, rPrev, hi, query)
    {
      kept := Pick(page, alive, true);
      PickedOrdered(page, alive, true);
      var gone := (set t | t in Ids(page)) - alive;
      var rest := Pick(snapshot, gone, false);
      PickedOrdered(snapshot, gone, false);
      if db.uuid == uuid {
        KeptFromPage(UnitsOf(db, flat), page, alive, rPrev, hi, query);
        GoneFromPage(UnitsOf(db, flat), page, alive, rPrev, hi, query);
        PageFetched(UnitsOf(db, flat), page, alive, rPrev, hi, open, ever, flat);
      }
      NoneGone(page, alive, snapshot);
      Forget(gone, rest, |kept| != |page|, hi);
    }

    /** The pruned threads leave the carry-over. */
    method Forget(ghost gone: set<string>, rest: seq<Thread>, some: bool, ghost hi: nat)
      requires Valid() && rPrev <= hi && rest == Picked(snapshot, gone, false) && Sorted(rest) && UniqueThreads(rest)
      requires !some ==> rest == snapshot
      requires db.uuid == uuid ==> GoneOf(UnitsOf(db, flat), gone, rPrev, hi, query)
      modifies `snapshot
      ensures Valid() && snapshot == rest
      ensures complete && db.uuid == uuid ==> Cleared(UnitsOf(db, flat), snapshot, rPrev, hi, query)
    {
      if db.uuid == uuid {
        PrunedFetched(UnitsOf(db, flat), gone, from, rPrev, hi, query, snapshot, open, ever, flat);
        if complete {
          PruneSafe(UnitsOf(db, flat), gone, rPrev, hi, query, snapshot, due);
        }
      }
      if some {
        snapshot := rest;
      }
    }

    /** One thread's full content; nothing when the call fails. */
    method FetchThread(id: string) returns (t: Option<Thread>)
      requires Script(db, script)
      modifies `db, `script, `due, `taken, `hydrated
      ensures old(Watched()) ==> Watched()
      ensures Script(db, script) && Spans(old(db), old(due), db, due)
      ensures AllOk(old(script)) ==> t.Some? && AllOk(script)
      ensures old(script) == [] ==> script == [] && db == old(db) && taken <= old(taken)
      ensures Now() == Called(old(Now()))
      ensures t.Some? <==> old(script) == [] || old(script)[0].ok
      ensures t.Some? ==> t.value == ContentOf(UnitsOf(db, flat), id)
    {
      var ok, emitted := Call();
      t := if ok then Some(ContentOf(UnitsOf(db, flat), id)) else None;
    }

    /** The merge input, fetched up to thread k. */
    ghost predicate Fetching(ts: seq<Thread>, k: nat, hi: nat)
      reads this
    {
      && UniqueThreads(ts)
      && (db.uuid == uuid ==>
            && hi <= db.rev && KeptOf(UnitsOf(db, flat), ts, rPrev, hi, query)
            && FetchedTo(UnitsOf(db, flat), hi, ts, k, open, ever, flat))
      && (complete && db.uuid == uuid ==> Cleared(UnitsOf(db, flat), snapshot, rPrev, hi, query))
    }

    function Now(): Moment
      reads `db, `hydrated, `script
    {
      Moment(db, hydrated, script)
    }

    /** Opened threads re-fetch their content; a flat row is its own message and does not. */
    method Refetch(changed: seq<Thread>, hi: nat) returns (ok: bool, kept: seq<Thread>)
      requires Valid() && rPrev <= hi && Fetching(changed, 0, hi)
      modifies `db, `script, `due, `taken, `hydrated
      ensures Valid() && Next(old(db), db)
      ensures AllOk(old(script)) ==> ok && AllOk(script)
      ensures old(script) == [] ==> script == [] && db == old(db) && taken <= old(taken)
      ensures ok ==> Fetching(kept, |kept|, hi)
      ensures ok && db.uuid == uuid ==> Fetched(UnitsOf(db, flat), rPrev, hi, query, kept, open, ever, flat)
      ensures ok ==> |kept| == |changed| && forall k :: 0 <= k < |changed| ==> kept[k] == Afresh(old(Now()), flat, changed, k)
    {
      kept := changed;
      ok := true;
      ghost var db0, m0 := db, Now();
      for k := 0 to |changed|
        invariant |kept| == |changed| && Valid() && Next(db0, db) && Fetching(kept, k, hi)
        invariant AllOk(old(script)) ==> AllOk(script)
        invariant ok && (old(script) == [] ==> script == [] && db == db0 && taken <= old(taken))
        invariant Now() == Reached(m0, flat, changed, k)
        invariant forall i :: k <= i < |changed| ==> kept[i] == changed[i]
        invariant forall i :: 0 <= i < k ==> kept[i] == Afresh(m0, flat, changed, i)
      {
        ghost var db1 := db;
        ok, kept := RefetchAt(kept, k, hi);
        NextTrans(db0, db1, db);
        if !ok {
          return;
        }
      }
      if db.uuid == uuid {
        FetchedToEnd(UnitsOf(db, flat), rPrev, hi, query, kept, open, ever, flat);
      }
    }

    method RefetchAt(was: seq<Thread>, k: nat, hi: nat) returns (ok: bool, kept: seq<Thread>)
      requires Valid() && rPrev <= hi && k < |was| && Fetching(was, k, hi)
      modifies `db, `script, `due, `taken, `hydrated
      ensures Valid() && Next(old(db), db)
      ensures AllOk(old(script)) ==> ok && AllOk(script)
      ensures old(script) == [] ==> script == [] && db == old(db) && taken <= old(taken)
      ensures ok ==> Fetching(kept, k + 1, hi)
      ensures if !flat && was[k].id in old(hydrated)
              then
                && Now() == Called(old(Now())) && (ok <==> old(script) == [] || old(script)[0].ok)
                && (ok ==> kept == was[k := ContentOf(UnitsOf(db, flat), was[k].id)])
              else ok && kept == was && Now() == old(Now())
    {
      StillOpen(hydrated, script);
      if !flat && was[k].id in hydrated {
        ok, kept := RefetchOne(was, k, hi);
        return;
      }
      if db.uuid == uuid {
        FetchedToNext(UnitsOf(db, flat), hi, was, k, false, open, ever, flat);
      }
      return true, was;
    }

    method RefetchOne(was: seq<Thread>, k: nat, hi: nat) returns (ok: bool, kept: seq<Thread>)
      requires Valid() && rPrev <= hi && k < |was| && Fetching(was, k, hi)
      requires !flat && was[k].id in ever
      modifies `db, `script, `due, `taken, `hydrated
      ensures Valid() && Next(old(db), db)
      ensures AllOk(old(script)) ==> ok && AllOk(script)
      ensures old(script) == [] ==> script == [] && db == old(db) && taken <= old(taken)
      ensures ok ==> Fetching(kept, k + 1, hi)
      ensures ok <==> (old(script) == [] || old(script)[0].ok)
      ensures Now() == Called(old(Now())) && (ok ==> kept == was[k := ContentOf(UnitsOf(db, flat), was[k].id)])
    {
      ghost var db1, due1 := db, due;
      var fetched := FetchThread(was[k].id);
      ok := fetched.Some?;
      ghost var t := ContentOf(UnitsOf(db, flat), was[k].id);
      if db.uuid == uuid {
        KeptStep(UnitsOf(db1, flat), db1.rev, UnitsOf(db, flat), was, k, t, rPrev, hi, query);
        FetchedToLater(UnitsOf(db1, flat), db1.rev, UnitsOf(db, flat), hi, was, k, open, ever, flat);
        FetchedToNext(UnitsOf(db, flat), hi, was, k, true, open, ever, flat);
        if complete {
          ClearedLater(UnitsOf(db1, flat), db1.rev, UnitsOf(db, flat), snapshot, rPrev, hi, query);
        }
      }
      StillValid(db1, due1);
      UniqueUpdated(was, k, t);
      kept := if ok then was[k := fetched.value] else was;
    }

    /** Carries the unchanged threads over and replaces the view's thread set. */
    method Merge(kept: seq<Thread>)
      requires Sorted(snapshot) && UniqueThreads(snapshot) && UniqueThreads(kept)
      modifies `due, `taken, `snapshot
      ensures Sorted(snapshot) && UniqueThreads(snapshot) && due == Ids(snapshot) && taken == {}
      ensures multiset(snapshot) == multiset(Carried(old(snapshot), kept))
    {
      var rest := Pick(snapshot, set t | t in Ids(kept), false);
      CarriedMember(snapshot, kept);
      Load(rest + kept);
    }

    /** The cycle once the revision is read. */
    method Catch(seen: nat, rev: nat) returns (done: bool)
      requires Valid() && seen == db.uuid && rev == db.rev
      modifies this
      ensures Valid() && Next(old(db), db) && query == old(query) && flat == old(flat)
      ensures AllOk(old(script)) ==> done && AllOk(script)
      ensures done ==> uuid == seen && rPrev == rev
      ensures !done && uuid == old(uuid) ==> rPrev == old(rPrev)
      ensures old(script) == [] ==> script == [] && db == old(db) && taken <= old(taken)
      ensures complete == old(complete) || uuid != old(uuid)
      ensures uuid == seen && uuid >= old(uuid) && (seen != old(uuid) ==> rPrev == rev)
      ensures uuid == old(uuid) ==> open == old(open) && ever == old(ever) && from == old(from)
      ensures seen != old(uuid) && MuteReload(old(script)) ==> snapshot == old(snapshot) && db == old(script)[2].db
    {
      if seen != uuid {
        done := FullReload();
        uuid, rPrev, from := seen, rev, rev + 1;
        NoWindow(UnitsOf(db, flat), from, rPrev, query, snapshot, open, ever, flat);
        return;
      }
      if rev == rPrev {
        return true;
      }
      done := Increment(rev);
    }

    /** One window: the changed threads, or nothing but a new cursor. */
    method Increment(rev: nat) returns (done: bool)
      requires Valid() && uuid == db.uuid && rPrev <= rev == db.rev
      modifies `db, `script, `due, `taken, `hydrated, `snapshot, `rPrev
      ensures Valid() && Next(old(db), db)
      ensures AllOk(old(script)) ==> done && AllOk(script)
      ensures rPrev == if done then rev else old(rPrev)
      ensures old(script) == [] ==> script == [] && db == old(db) && taken <= old(taken)
      ensures done && db.uuid == uuid ==> Fetched(UnitsOf(db, flat), old(rPrev), rev, query, snapshot, open, ever, flat)
    {
      ghost var db0, due0 := db, due;
      var ok, page := ChangedPage(rPrev, rev);
      StillValid(db0, due0);
      if !ok {
        return false;
      }
      ghost var db1 := db;
      if |page| > 0 {
        done := Absorb(page, rev);
        NextTrans(db0, db1, db);
      } else {
        Skip(rev);
        done := true;
      }
    }

    /** Moves the cursor over a window that changed no thread. */
    method Skip(rev: nat)
      requires Valid() && rPrev <= rev
      requires db.uuid == uuid ==> rev <= db.rev && PageOf(UnitsOf(db, flat), [], rPrev, rev)
      modifies `rPrev
      ensures Valid() && rPrev == rev
      ensures db.uuid == uuid ==> Fetched(UnitsOf(db, flat), old(rPrev), rev, query, snapshot, open, ever, flat)
    {
      if uuid == db.uuid {
        NothingFetched(UnitsOf(db, flat), from, rPrev, rev, query, snapshot, open, ever, flat);
        if complete {
          NothingChanged(UnitsOf(db, flat), rPrev, rev, query, snapshot, due);
        }
      }
      rPrev := rev;
    }

    /** Merges, then moves the cursor. */
    method Advance(kept: seq<Thread>, rev: nat)
      requires Valid() && rPrev <= rev && UniqueThreads(kept)
      requires db.uuid == uuid ==> rev <= db.rev && KeptOf(UnitsOf(db, flat), kept, rPrev, rev, query)
      requires db.uuid == uuid ==> Fetched(UnitsOf(db, flat), rPrev, rev, query, kept, open, ever, flat)
      requires complete && db.uuid == uuid ==> Cleared(UnitsOf(db, flat), snapshot, rPrev, rev, query)
      modifies `due, `taken, `snapshot, `rPrev
      ensures Valid() && rPrev == rev && taken == {}
      ensures db.uuid == uuid ==> Fetched(UnitsOf(db, flat), old(rPrev), rev, query, snapshot, open, ever, flat)
      ensures forall t :: t in snapshot <==> t in kept || (t in old(snapshot) && !Listed(kept, t.id))
    {
      ghost var before := snapshot;
      Merge(kept);
      CarriedMember(before, kept);
      ListedPermuted(Carried(before, kept), snapshot);
      if uuid == db.uuid {
        MergeFetched(UnitsOf(db, flat), from, rPrev, rev, query, before, kept, snapshot, open, ever, flat);
        if complete {
          MergeCatchesUp(UnitsOf(db, flat), rPrev, rev, query, before, kept, snapshot);
        }
      }
      rPrev := rev;
    }

    /** Prune, re-fetch, merge; the cursor advances only when all went through. */
    method Absorb(page: seq<Thread>, rev: nat) returns (done: bool)
      requires Valid() && rPrev <= rev && UniqueThreads(page)
      requires db.uuid == uuid ==> rev <= db.rev && PageOf(UnitsOf(db, flat), page, rPrev, rev)
      modifies `db, `script, `due, `taken, `hydrated, `snapshot, `rPrev
      ensures Valid() && Next(old(db), db)
      ensures AllOk(old(script)) ==> done && AllOk(script)
      ensures rPrev == if done then rev else old(rPrev)
      ensures old(script) == [] ==> script == [] && db == old(db) && taken <= old(taken)
      ensures done && db.uuid == uuid ==> Fetched(UnitsOf(db, flat), old(rPrev), rev, query, snapshot, open, ever, flat)
    {
      ghost var db0 := db;
      var ok, kept := Prune(page, rev);
      if !ok {
        return false;
      }
      ghost var db1 := db;
      ok, kept := Refetch(kept, rev);
      NextTrans(db0, db1, db);
      if !ok {
        return false;
      }
      Advance(kept, rev);
      done := true;
    }

    /** A call leaves the promises about the snapshot as they were. */
    lemma StillValid(was: Db, owed: seq<string>)
      requires Script(db, script) && uuid <= was.uuid && (uuid == was.uuid ==> rPrev <= was.rev)
      requires Sorted(snapshot) && UniqueThreads(snapshot) && Watched() && Spans(was, owed, db, due)
      requires uuid == was.uuid ==> Fetched(UnitsOf(was, flat), from, rPrev, query, snapshot, open, ever, flat)
      requires complete && uuid == was.uuid ==>
                 Caught(UnitsOf(was, flat), rPrev, query, snapshot) && Viewed(UnitsOf(was, flat), rPrev, snapshot, owed)
      ensures Valid()
    {
      if uuid == db.uuid {
        StillFetched(was, db, flat, from, rPrev, query, snapshot, open, ever);
        if complete {
          StillTracking(was, owed, db, due, flat, rPrev, query, snapshot);
        }
      }
    }

    /** Reopen, then read the revision. */
    method ReadRevision() returns (ok: bool)
      requires Valid()
      modifies `db, `script, `due, `taken, `hydrated
      ensures Valid() && Next(old(db), db)
      ensures AllOk(old(script)) ==> ok && AllOk(script)
      ensures old(script) == [] ==> script == [] && db == old(db) && taken <= old(taken)
      ensures |old(script)| >= 2 && old(script)[0].ok && old(script)[1].ok ==>
                ok && script == old(script)[2..] && db == old(script)[1].db
    {
      ghost var db0, due0 := db, due;
      var emitted;
      ok, emitted := Call();
      ghost var db1, due1 := db, due;
      StillValid(db0, due0);
      if !ok {
        return;
      }
      ok, emitted := Call();
      StillValid(db1, due1);
      NextTrans(db0, db1, db);
    }

    /** One refresh cycle. It reports whether every call it needed went through. */
    method Cycle() returns (done: bool)
      requires Valid()
      modifies this
      ensures Valid() && Next(old(db), db) && query == old(query) && flat == old(flat)
      ensures AllOk(old(script)) ==> done && AllOk(script)
      ensures done && db.uuid == old(db.uuid) ==> uuid == db.uuid && rPrev >= old(db.rev)
      ensures !done && uuid == old(uuid) ==> rPrev == old(rPrev)
      ensures old(script) == [] ==> script == [] && db == old(db) && taken <= old(taken)
      ensures uuid >= old(uuid) && (complete == old(complete) || uuid != old(uuid))
      ensures uuid == old(uuid) ==> open == old(open) && ever == old(ever) && from == old(from)
      ensures LostReload(old(script), old(uuid)) ==>
                && uuid == old(script)[1].db.uuid && rPrev == old(script)[1].db.rev
                && snapshot == old(snapshot) && db == old(script)[4].db
    {
      ghost var db0 := db;
      var ok := ReadRevision();
      if !ok {
        return false;
      }
      ghost var db1 := db;
      done := Catch(db.uuid, db.rev);
      NextTrans(db0, db1, db);
    }

    /** Once the writes have stopped, one cycle after a completed reload makes the view exact. */
    method Settle()
      requires Valid() && script == []
      modifies this
      ensures Valid() && db == old(db) && uuid == db.uuid && rPrev == db.rev
      ensures complete ==> ExactBut(UnitsOf(db, flat), query, snapshot, Shown(), taken) && taken <= old(taken)
      ensures complete && taken == {} ==> Exact(UnitsOf(db, flat), query, snapshot, Shown())
      ensures uuid == old(uuid) ==>
                Fetched(UnitsOf(db, flat), old(rPrev) + 1, rPrev, query, snapshot, old(hydrated), old(hydrated), flat)
    {
      Watch();
      var done := Cycle();
      if complete {
        QuiescentIsExact(UnitsOf(db, flat), db.rev, query, snapshot, due);
        LateIsAllThatLacks(UnitsOf(db, flat), query, snapshot, due, taken);
      }
    }

    /** Any run of cycles and view switches against any interleaving of writes and failures:
        the cursor's promise holds throughout. Quiet at the end means exact. */
    method Run(steps: seq<Step>)
      requires Valid()
      modifies this
      ensures Valid() && Next(old(db), db)
      ensures complete && uuid == db.uuid && rPrev == db.rev ==> ExactBut(UnitsOf(db, flat), query, snapshot, Shown(), taken)
      ensures complete && uuid == db.uuid && rPrev == db.rev && taken == {} ==> Exact(UnitsOf(db, flat), query, snapshot, Shown())
      ensures uuid == old(uuid) == db.uuid && (forall k :: 0 <= k < |steps| ==> steps[k].Tick?) ==>
                Fetched(UnitsOf(db, flat), old(rPrev) + 1, rPrev, query, snapshot,
                        old(Always(hydrated, script)), old(Ever(hydrated, script)), flat)
    {
      ghost var db0 := db;
      Watch();
      for k := 0 to |steps|
        invariant Valid() && Next(db0, db) && uuid >= old(uuid)
        invariant uuid == old(uuid) && (forall i :: 0 <= i < k ==> steps[i].Tick?) ==>
                    && open == old(Always(hydrated, script)) && ever == old(Ever(hydrated, script)) && from == old(rPrev) + 1
      {
        ghost var db1 := db;
        match steps[k] {
          case Tick => var done := Cycle();
          case Switch(query, flat) => var done := OnConfig(query, flat);
        }
        NextTrans(db0, db1, db);
      }
      if complete && uuid == db.uuid && rPrev == db.rev {
        QuiescentIsExact(UnitsOf(db, flat), rPrev, query, snapshot, due);
        LateIsAllThatLacks(UnitsOf(db, flat), query, snapshot, due, taken);
      }
    }
  }

  /** A reload whose walk fails still moves the cursor: the thread it did not load is lost to
      every later quiet cycle. */
  method FailedReloadLoses() returns (r: Refresher)
    ensures fresh(r) && r.Valid() && r.uuid == r.db.uuid && r.rPrev == r.db.rev
    ensures !Exact(UnitsOf(r.db, r.flat), r.query, r.snapshot, r.Shown())
  {
    var t := Thread("t", 0, []);
    var db := Db(1, 5, map["t" := Rec(5, {"q"}, t, t)], map[]);
    var up, down := Turn(db, {}, {}, {}, true, 0), Turn(db, {}, {}, {}, false, 0);
    var script := [up, up, up, down, down];
    assert Script(db, script[5..]) && Script(db, script[4..]) && Script(db, script[3..]) && Script(db, script[2..]) && Script(db, script[1..]);
    assert script[2..][1..] == script[3..] && script[2..][2..] == script[4..];
    r := new Refresher(db, script, "q", false, 0);
    var done := r.Cycle();
    assert "q" in UnitsOf(db, false)["t"].hits;
  }
}
