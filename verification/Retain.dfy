/** Which old objects survive a diff replay, in terms of the two lists (src/core/diff.go). */
module Retain {
  import opened Mail
  import opened Diff

  type Order = (Rank, Rank) -> bool

  // ---- The merge walk, on sort keys ----

  predicate Meet(a: seq<Rank>, b: seq<Rank>, i: nat, j: nat) {
    i < |a| && j < |b| && a[i].id == b[j].id
  }

  predicate Leave(a: seq<Rank>, b: seq<Rank>, lt: Order, i: nat, j: nat) {
    i < |a| && !Meet(a, b, i, j) && (j >= |b| || lt(a[i], b[j]))
  }

  predicate Enter(a: seq<Rank>, b: seq<Rank>, lt: Order, i: nat, j: nat) {
    j < |b| && !Meet(a, b, i, j) && (i >= |a| || !lt(a[i], b[j]))
  }

  /** How far the walk is in each list. */
  datatype Spot = Spot(i: nat, j: nat)

  function Next(a: seq<Rank>, b: seq<Rank>, lt: Order, s: Spot): Spot {
    if Meet(a, b, s.i, s.j) then Spot(s.i + 1, s.j + 1)
    else if Leave(a, b, lt, s.i, s.j) then Spot(s.i + 1, s.j)
    else if Enter(a, b, lt, s.i, s.j) then Spot(s.i, s.j + 1)
    else s
  }

  function Walked(a: seq<Rank>, b: seq<Rank>, lt: Order, n: nat): (s: Spot)
    ensures s.i <= |a| && s.j <= |b|
  {
    if n == 0 then Spot(0, 0) else Next(a, b, lt, Walked(a, b, lt, n - 1))
  }

  ghost predicate Visits(a: seq<Rank>, b: seq<Rank>, lt: Order, i: nat, j: nat) {
    exists n: nat :: Walked(a, b, lt, n) == Spot(i, j)
  }

  lemma VisitsNext(a: seq<Rank>, b: seq<Rank>, lt: Order, i: nat, j: nat)
    requires Visits(a, b, lt, i, j)
    ensures var s := Next(a, b, lt, Spot(i, j)); Visits(a, b, lt, s.i, s.j)
  {
    var n: nat :| Walked(a, b, lt, n) == Spot(i, j);
    assert Walked(a, b, lt, n + 1) == Next(a, b, lt, Spot(i, j));
  }

  lemma {:induction false} Onward(a: seq<Rank>, b: seq<Rank>, lt: Order, n: nat, m: nat)
    requires n <= m
    ensures Walked(a, b, lt, n).i <= Walked(a, b, lt, m).i && Walked(a, b, lt, n).j <= Walked(a, b, lt, m).j
  {
    if n < m {
      Onward(a, b, lt, n, m - 1);
    }
  }

  lemma PassesOn(a: seq<Rank>, b: seq<Rank>, lt: Order, n: nat, m: nat)
    requires n < m
    ensures var s, t := Next(a, b, lt, Walked(a, b, lt, n)), Walked(a, b, lt, m); s.i <= t.i && s.j <= t.j
  {
    Onward(a, b, lt, n + 1, m);
  }

  /** The walk leaves a row once. */
  lemma RowOnce(a: seq<Rank>, b: seq<Rank>, lt: Order, i: nat, j: nat, k: nat)
    requires Visits(a, b, lt, i, j) && Visits(a, b, lt, i, k)
    requires Meet(a, b, i, j) || Leave(a, b, lt, i, j)
    requires Meet(a, b, i, k) || Leave(a, b, lt, i, k)
    ensures j == k
  {
    var n: nat :| Walked(a, b, lt, n) == Spot(i, j);
    var m: nat :| Walked(a, b, lt, m) == Spot(i, k);
    if n < m {
      PassesOn(a, b, lt, n, m);
    } else if m < n {
      PassesOn(a, b, lt, m, n);
    }
  }

  /** The walk leaves a column once. */
  lemma ColumnOnce(a: seq<Rank>, b: seq<Rank>, lt: Order, i: nat, k: nat, j: nat)
    requires Visits(a, b, lt, i, j) && Visits(a, b, lt, k, j)
    requires Meet(a, b, i, j) || Enter(a, b, lt, i, j)
    requires Meet(a, b, k, j) || Enter(a, b, lt, k, j)
    ensures i == k
  {
    var n: nat :| Walked(a, b, lt, n) == Spot(i, j);
    var m: nat :| Walked(a, b, lt, m) == Spot(k, j);
    if n < m {
      PassesOn(a, b, lt, n, m);
    } else if m < n {
      PassesOn(a, b, lt, m, n);
    }
  }

  /** Two spots of the walk are in order. */
  lemma InOrder(a: seq<Rank>, b: seq<Rank>, lt: Order, i: nat, j: nat, k: nat, l: nat)
    requires Visits(a, b, lt, i, j) && Visits(a, b, lt, k, l)
    ensures (i <= k && j <= l) || (k <= i && l <= j)
  {
    var n: nat :| Walked(a, b, lt, n) == Spot(i, j);
    var m: nat :| Walked(a, b, lt, m) == Spot(k, l);
    if n <= m {
      Onward(a, b, lt, n, m);
    } else {
      Onward(a, b, lt, m, n);
    }
  }

  /** Where the walk leaves row i. */
  lemma {:induction false} RowLeft(a: seq<Rank>, b: seq<Rank>, lt: Order, n: nat, i: nat) returns (j: nat)
    requires i < Walked(a, b, lt, n).i
    ensures Visits(a, b, lt, i, j) && j <= Walked(a, b, lt, n).j && (Meet(a, b, i, j) || Leave(a, b, lt, i, j))
    ensures Meet(a, b, i, j) ==> j < Walked(a, b, lt, n).j
  {
    var s := Walked(a, b, lt, n - 1);
    if i < s.i {
      j := RowLeft(a, b, lt, n - 1, i);
    } else {
      j := s.j;
    }
  }

  /** Where the walk leaves column j. */
  lemma {:induction false} ColumnLeft(a: seq<Rank>, b: seq<Rank>, lt: Order, n: nat, j: nat) returns (i: nat)
    requires j < Walked(a, b, lt, n).j
    ensures Visits(a, b, lt, i, j) && i <= Walked(a, b, lt, n).i && (Meet(a, b, i, j) || Enter(a, b, lt, i, j))
    ensures Meet(a, b, i, j) ==> i < Walked(a, b, lt, n).i
  {
    var s := Walked(a, b, lt, n - 1);
    if j < s.j {
      i := ColumnLeft(a, b, lt, n - 1, j);
    } else {
      i := s.i;
    }
  }

  /** The walk ends. */
  lemma {:induction false} Ends(a: seq<Rank>, b: seq<Rank>, lt: Order, n: nat)
    ensures var s := Walked(a, b, lt, n); s.i + s.j >= n || (s.i == |a| && s.j == |b|)
  {
    if n > 0 {
      Ends(a, b, lt, n - 1);
    }
  }

  // ---- What the walk carries over ----

  /** The walk drops p at column c and has kept elements only since, up to (i, j). */
  ghost predicate Pending(a: seq<Rank>, b: seq<Rank>, lt: Order, p: nat, c: nat, i: nat, j: nat) {
    if j <= c || i <= p + 1 then Visits(a, b, lt, p, c) && Leave(a, b, lt, p, c) && i == p + 1 && j == c
    else Meet(a, b, i - 1, j - 1) && Pending(a, b, lt, p, c, i - 1, j - 1)
  }

  lemma {:induction false} PendingVisits(a: seq<Rank>, b: seq<Rank>, lt: Order, p: nat, c: nat, i: nat, j: nat)
    requires Pending(a, b, lt, p, c, i, j)
    ensures Visits(a, b, lt, i, j) && c <= j && i == p + 1 + (j - c)
    decreases j
  {
    if j <= c || i <= p + 1 {
      VisitsNext(a, b, lt, p, c);
    } else {
      PendingVisits(a, b, lt, p, c, i - 1, j - 1);
      VisitsNext(a, b, lt, i - 1, j - 1);
    }
  }

  /** The remove of p and the insert of q collapse into a move. */
  ghost predicate Moves(a: seq<Rank>, b: seq<Rank>, lt: Order, p: nat, q: nat) {
    exists c: nat :: MovesFrom(a, b, lt, p, c, q)
  }

  ghost predicate MovesFrom(a: seq<Rank>, b: seq<Rank>, lt: Order, p: nat, c: nat, q: nat) {
    p < |a| && q < |b| && a[p].id == b[q].id && c <= q && Pending(a, b, lt, p, c, p + 1 + (q - c), q) && Enter(a, b, lt, p + 1 + (q - c), q)
  }

  ghost predicate Carries(a: seq<Rank>, b: seq<Rank>, lt: Order, p: nat, q: nat) {
    Visits(a, b, lt, p, q) || Moves(a, b, lt, p, q)
  }

  predicate UniqueRanks(a: seq<Rank>) {
    forall i, j :: 0 <= i < j < |a| ==> a[i].id != a[j].id
  }

  /** open names the drop that is pending at (i, j). */
  ghost predicate Tracks(a: seq<Rank>, b: seq<Rank>, lt: Order, i: nat, j: nat, open: Option<nat>) {
    && (open.Some? ==> exists c: nat :: Pending(a, b, lt, open.value, c, i, j))
    && forall p: nat, c: nat :: Pending(a, b, lt, p, c, i, j) ==> open == Some(p)
  }

  lemma TracksMeet(a: seq<Rank>, b: seq<Rank>, lt: Order, i: nat, j: nat, open: Option<nat>)
    requires Visits(a, b, lt, i, j) && Meet(a, b, i, j) && Tracks(a, b, lt, i, j, open)
    ensures Tracks(a, b, lt, i + 1, j + 1, open)
  {
    if open.Some? {
      var c: nat :| Pending(a, b, lt, open.value, c, i, j);
      PendingVisits(a, b, lt, open.value, c, i, j);
      assert Pending(a, b, lt, open.value, c, i + 1, j + 1);
    }
    var x, y := i + 1, j + 1;
    forall p: nat, c: nat | Pending(a, b, lt, p, c, x, y) ensures open == Some(p) {
      if y <= c || x <= p + 1 {
        RowOnce(a, b, lt, i, j, c);
      } else {
        assert Pending(a, b, lt, p, c, x - 1, y - 1);
      }
    }
  }

  lemma TracksLeave(a: seq<Rank>, b: seq<Rank>, lt: Order, i: nat, j: nat)
    requires Visits(a, b, lt, i, j) && Leave(a, b, lt, i, j)
    ensures Tracks(a, b, lt, i + 1, j, Some(i))
  {
    assert Pending(a, b, lt, i, j, i + 1, j);
    var x := i + 1;
    forall p: nat, c: nat | Pending(a, b, lt, p, c, x, j) ensures p == i {
      if c < j && p < i {
        PendingVisits(a, b, lt, p, c, i, j - 1);
        RowOnce(a, b, lt, i, j, j - 1);
      }
    }
  }

  lemma TracksEnter(a: seq<Rank>, b: seq<Rank>, lt: Order, i: nat, j: nat)
    requires Visits(a, b, lt, i, j) && Enter(a, b, lt, i, j)
    ensures Tracks(a, b, lt, i, j + 1, None)
  {
    var y := j + 1;
    forall p: nat, c: nat | Pending(a, b, lt, p, c, i, y) ensures false {
      if y <= c || i <= p + 1 {
        InOrder(a, b, lt, i, j, p, c);
      } else {
        PendingVisits(a, b, lt, p, c, i - 1, j);
        ColumnOnce(a, b, lt, i, i - 1, j);
      }
    }
  }

  /** At an entered column, the partner is carried exactly if its drop is pending. */
  lemma EnteredCarries(a: seq<Rank>, b: seq<Rank>, lt: Order, i: nat, j: nat, open: Option<nat>, p: nat)
    requires UniqueRanks(a) && Visits(a, b, lt, i, j) && Enter(a, b, lt, i, j) && Tracks(a, b, lt, i, j, open)
    requires p < |a| && a[p].id == b[j].id
    ensures Carries(a, b, lt, p, j) <==> open == Some(p)
  {
    if Visits(a, b, lt, p, j) {
      assert Meet(a, b, p, j);
      ColumnOnce(a, b, lt, p, i, j);
    }
    if Moves(a, b, lt, p, j) {
      var c: nat :| MovesFrom(a, b, lt, p, c, j);
      PendingVisits(a, b, lt, p, c, p + 1 + (j - c), j);
      ColumnOnce(a, b, lt, p + 1 + (j - c), i, j);
    }
    if open == Some(p) {
      var c: nat :| Pending(a, b, lt, p, c, i, j);
      PendingVisits(a, b, lt, p, c, i, j);
      assert MovesFrom(a, b, lt, p, c, j);
    }
  }

  // ---- The replay, element by element ----

  function Ranks<T>(s: seq<T>, rank: T -> Rank): (r: seq<Rank>)
    ensures |r| == |s| && forall k :: 0 <= k < |s| ==> r[k] == rank(s[k])
  {
    seq(|s|, k requires 0 <= k < |s| => rank(s[k]))
  }

  function IdOf<T>(rank: T -> Rank): T -> string {
    x => rank(x).id
  }

  /** From position j on, r holds the old element where the walk carries it over, else the new one. */
  ghost predicate Survives<T>(was: seq<T>, now: seq<T>, lt: Order, rank: T -> Rank, r: seq<T>, j: nat) {
    var a, b := Ranks(was, rank), Ranks(now, rank);
    && j + |r| == |now|
    && forall p, q :: 0 <= p < |was| && j <= q < |now| && a[p].id == b[q].id ==>
         r[q - j] == if Carries(a, b, lt, p, q) then was[p] else now[q]
  }

  lemma SurvivesMore<T>(was: seq<T>, now: seq<T>, lt: Order, rank: T -> Rank, x: T, tail: seq<T>, j: nat)
    requires j < |now| && Survives(was, now, lt, rank, tail, j + 1)
    requires var a, b := Ranks(was, rank), Ranks(now, rank);
             forall p :: 0 <= p < |was| && a[p].id == b[j].id ==> x == if Carries(a, b, lt, p, j) then was[p] else now[j]
    ensures Survives(was, now, lt, rank, [x] + tail, j)
  {
    var a, b, r := Ranks(was, rank), Ranks(now, rank), [x] + tail;
    forall p, q | 0 <= p < |was| && j <= q < |now| && a[p].id == b[q].id
      ensures r[q - j] == if Carries(a, b, lt, p, q) then was[p] else now[q]
    {
      if q > j {
        assert r[q - j] == tail[q - (j + 1)];
      }
    }
  }

  lemma MetSurvives<T>(was: seq<T>, now: seq<T>, lt: Order, rank: T -> Rank, i: nat, j: nat, tail: seq<T>)
    requires UniqueRanks(Ranks(was, rank)) && Meet(Ranks(was, rank), Ranks(now, rank), i, j)
    requires Visits(Ranks(was, rank), Ranks(now, rank), lt, i, j) && Survives(was, now, lt, rank, tail, j + 1)
    ensures Survives(was, now, lt, rank, [was[i]] + tail, j)
  {
    SurvivesMore(was, now, lt, rank, was[i], tail, j);
  }

  lemma EnteredSurvives<T>(was: seq<T>, now: seq<T>, lt: Order, rank: T -> Rank, i: nat, j: nat, open: Option<nat>, tail: seq<T>)
    requires UniqueRanks(Ranks(was, rank)) && Visits(Ranks(was, rank), Ranks(now, rank), lt, i, j)
    requires Enter(Ranks(was, rank), Ranks(now, rank), lt, i, j) && Tracks(Ranks(was, rank), Ranks(now, rank), lt, i, j, open)
    requires (open.Some? ==> open.value < |was|) && Survives(was, now, lt, rank, tail, j + 1)
    ensures Survives(was, now, lt, rank, [Taken(was, now, IdOf(rank), j, open)] + tail, j)
  {
    var a, b, x := Ranks(was, rank), Ranks(now, rank), Taken(was, now, IdOf(rank), j, open);
    forall p | 0 <= p < |was| && a[p].id == b[j].id ensures x == if Carries(a, b, lt, p, j) then was[p] else now[j] {
      EnteredCarries(a, b, lt, i, j, open, p);
    }
    SurvivesMore(was, now, lt, rank, x, tail, j);
  }

  lemma WalksAlike<T>(was: seq<T>, now: seq<T>, lt: Order, rank: T -> Rank, i: nat, j: nat)
    ensures var a, b := Ranks(was, rank), Ranks(now, rank);
            && (Meet(a, b, i, j) <==> Keeps(was, now, IdOf(rank), i, j))
            && (Leave(a, b, lt, i, j) <==> Drops(was, now, By(lt, rank), IdOf(rank), i, j))
            && (Enter(a, b, lt, i, j) <==> Takes(was, now, By(lt, rank), IdOf(rank), i, j))
  {
  }

  lemma {:induction false} LeftSurvives<T>(was: seq<T>, now: seq<T>, lt: Order, rank: T -> Rank, i: nat, j: nat, open: Option<nat>)
    requires UniqueRanks(Ranks(was, rank)) && UniqueRanks(Ranks(now, rank))
    requires i <= |was| && j <= |now| && (open.Some? ==> open.value < |was|)
    requires Visits(Ranks(was, rank), Ranks(now, rank), lt, i, j) && Tracks(Ranks(was, rank), Ranks(now, rank), lt, i, j, open)
    ensures Survives(was, now, lt, rank, Left(was, now, By(lt, rank), IdOf(rank), i, j, open), j)
    decreases |was| - i + |now| - j
  {
    var a, b := Ranks(was, rank), Ranks(now, rank);
    var less, key := By(lt, rank), IdOf(rank);
    VisitsNext(a, b, lt, i, j);
    WalksAlike(was, now, lt, rank, i, j);
    if Meet(a, b, i, j) {
      TracksMeet(a, b, lt, i, j, open);
      LeftSurvives(was, now, lt, rank, i + 1, j + 1, open);
      MetSurvives(was, now, lt, rank, i, j, Left(was, now, less, key, i + 1, j + 1, open));
    } else if Leave(a, b, lt, i, j) {
      TracksLeave(a, b, lt, i, j);
      LeftSurvives(was, now, lt, rank, i + 1, j, Some(i));
    } else if j < |now| {
      TracksEnter(a, b, lt, i, j);
      LeftSurvives(was, now, lt, rank, i, j + 1, None);
      EnteredSurvives(was, now, lt, rank, i, j, open, Left(was, now, less, key, i, j + 1, None));
    }
  }

  /** The replay leaves the new ids in order, on new or old elements. */
  lemma NewIds<T>(was: seq<T>, now: seq<T>, lt: Order, rank: T -> Rank)
    ensures var ops := Ops(was, now, By(lt, rank), IdOf(rank));
            Replayable(was, ops) && |Replayed(was, ops)| == |now|
    ensures var r := Replayed(was, Ops(was, now, By(lt, rank), IdOf(rank)));
            forall k :: 0 <= k < |now| ==> rank(r[k]).id == rank(now[k]).id && (r[k] == now[k] || r[k] in was)
  {
    DiffReplay(was, now, By(lt, rank), IdOf(rank));
    var r := Replayed(was, Ops(was, now, By(lt, rank), IdOf(rank)));
    forall k | 0 <= k < |now| ensures rank(r[k]).id == rank(now[k]).id {
      assert IdOf(rank)(r[k]) == IdOf(rank)(now[k]);
    }
  }

  lemma StartTracks(a: seq<Rank>, b: seq<Rank>, lt: Order)
    ensures Visits(a, b, lt, 0, 0) && Tracks(a, b, lt, 0, 0, None)
  {
    assert Walked(a, b, lt, 0) == Spot(0, 0);
  }

  lemma ReplaySurvives<T>(was: seq<T>, now: seq<T>, lt: Order, rank: T -> Rank)
    requires UniqueRanks(Ranks(was, rank)) && UniqueRanks(Ranks(now, rank))
    ensures var ops := Ops(was, now, By(lt, rank), IdOf(rank));
            Replayable(was, ops) && Survives(was, now, lt, rank, Replayed(was, ops), 0)
  {
    StartTracks(Ranks(was, rank), Ranks(now, rank), lt);
    ReplayedIsLeft(was, now, By(lt, rank), IdOf(rank));
    LeftSurvives(was, now, lt, rank, 0, 0, None);
  }

  // ---- The same, read off the two lists ----

  predicate Ordered(a: seq<Rank>, lt: Order) {
    forall i, j :: 0 <= i < j < |a| ==> lt(a[i], a[j])
  }

  /** The element before a[i] sorts before b[j], or was itself carried over to an earlier place. */
  ghost predicate HeldPassed(a: seq<Rank>, b: seq<Rank>, lt: Order, i: nat, j: nat)
    requires i < |a| && j < |b|
    decreases i + j, 0
  {
    i == 0 || lt(a[i - 1], b[j]) || exists q: nat :: q < j && a[i - 1].id == b[q].id && Arrives(a, b, lt, i - 1, q)
  }

  /** The element before b[j] sorts before a[i], or is a held one that was itself carried over. */
  ghost predicate NewPassed(a: seq<Rank>, b: seq<Rank>, lt: Order, i: nat, j: nat)
    requires i < |a| && j < |b|
    decreases i + j, 0
  {
    j == 0 || lt(b[j - 1], a[i]) || exists p: nat :: p < i && a[p].id == b[j - 1].id && Arrives(a, b, lt, p, j - 1)
  }

  /** Everything before a[i] and before b[j] is out of the way when the walk gets to either. */
  ghost predicate Arrives(a: seq<Rank>, b: seq<Rank>, lt: Order, i: nat, j: nat)
    requires i < |a| && j < |b|
    decreases i + j, 1
  {
    HeldPassed(a, b, lt, i, j) && NewPassed(a, b, lt, i, j)
  }

  /** Neither a[i] nor b[j] has its partner before the other. */
  predicate Apart(a: seq<Rank>, b: seq<Rank>, i: nat, j: nat)
    requires i < |a| && j < |b|
  {
    (forall q :: 0 <= q < j ==> b[q].id != a[i].id) && (forall p :: 0 <= p < i ==> a[p].id != b[j].id)
  }

  ghost predicate Sorted(a: seq<Rank>, b: seq<Rank>, lt: Order) {
    StrictOrder(lt) && Ordered(a, lt) && Ordered(b, lt) && UniqueRanks(a) && UniqueRanks(b)
  }

  lemma MetApart(a: seq<Rank>, b: seq<Rank>, i: nat, j: nat)
    requires UniqueRanks(a) && UniqueRanks(b) && Meet(a, b, i, j)
    ensures Apart(a, b, i, j)
  {
  }

  lemma NotAfter(x: Rank, y: Rank, lt: Order)
    requires StrictOrder(lt) && x.id != y.id && !lt(x, y)
    ensures lt(y, x)
  {
  }

  lemma AllBelow(a: seq<Rank>, lt: Order, n: nat, x: Rank)
    requires StrictOrder(lt) && Ordered(a, lt) && 0 < n <= |a| && lt(a[n - 1], x)
    ensures forall k :: 0 <= k < n ==> lt(a[k], x)
  {
    assert forall k :: 0 <= k < n - 1 ==> lt(a[k], a[n - 1]);
  }

  /** The walk reaches exactly the spots where both sides are out of the way. */
  lemma {:induction false} VisitsArrives(a: seq<Rank>, b: seq<Rank>, lt: Order, i: nat, j: nat)
    requires Sorted(a, b, lt) && i < |a| && j < |b| && Apart(a, b, i, j) && Visits(a, b, lt, i, j)
    ensures Arrives(a, b, lt, i, j)
    decreases i + j, 1
  {
    HeldOut(a, b, lt, i, j);
    NewOut(a, b, lt, i, j);
  }

  lemma {:induction false} HeldOut(a: seq<Rank>, b: seq<Rank>, lt: Order, i: nat, j: nat)
    requires Sorted(a, b, lt) && i < |a| && j < |b| && Apart(a, b, i, j) && Visits(a, b, lt, i, j)
    ensures HeldPassed(a, b, lt, i, j)
    decreases i + j, 0
  {
    if i > 0 {
      var n: nat :| Walked(a, b, lt, n) == Spot(i, j);
      var c := RowLeft(a, b, lt, n, i - 1);
      if Meet(a, b, i - 1, c) {
        MetApart(a, b, i - 1, c);
        VisitsArrives(a, b, lt, i - 1, c);
      } else {
        assert c < j ==> lt(b[c], b[j]);
      }
    }
  }

  lemma {:induction false} NewOut(a: seq<Rank>, b: seq<Rank>, lt: Order, i: nat, j: nat)
    requires Sorted(a, b, lt) && i < |a| && j < |b| && Apart(a, b, i, j) && Visits(a, b, lt, i, j)
    ensures NewPassed(a, b, lt, i, j)
    decreases i + j, 0
  {
    if j > 0 {
      var n: nat :| Walked(a, b, lt, n) == Spot(i, j);
      var p := ColumnLeft(a, b, lt, n, j - 1);
      if Meet(a, b, p, j - 1) {
        MetApart(a, b, p, j - 1);
        VisitsArrives(a, b, lt, p, j - 1);
      } else {
        NotAfter(a[p], b[j - 1], lt);
        assert p < i ==> lt(a[p], a[i]);
      }
    }
  }

  lemma {:induction false} ArrivesVisits(a: seq<Rank>, b: seq<Rank>, lt: Order, i: nat, j: nat)
    requires Sorted(a, b, lt) && i < |a| && j < |b| && Apart(a, b, i, j) && Arrives(a, b, lt, i, j)
    ensures Visits(a, b, lt, i, j)
    decreases i + j, 1
  {
    var n := |a| + |b|;
    Ends(a, b, lt, n);
    var c := RowLeft(a, b, lt, n, i);
    var p := ColumnLeft(a, b, lt, n, j);
    RowNotBefore(a, b, lt, i, j, c);
    ColumnNotBefore(a, b, lt, i, j, p);
    InOrder(a, b, lt, i, c, p, j);
  }

  /** The walk does not leave row i before column j. */
  lemma {:induction false} RowNotBefore(a: seq<Rank>, b: seq<Rank>, lt: Order, i: nat, j: nat, c: nat)
    requires Sorted(a, b, lt) && i < |a| && j < |b| && Apart(a, b, i, j) && NewPassed(a, b, lt, i, j)
    requires Visits(a, b, lt, i, c) && (Meet(a, b, i, c) || Leave(a, b, lt, i, c))
    ensures j <= c
    decreases i + j, 0
  {
    if j > 0 {
      if lt(b[j - 1], a[i]) {
        AllBelow(b, lt, j, a[i]);
      } else {
        var p: nat :| p < i && a[p].id == b[j - 1].id && Arrives(a, b, lt, p, j - 1);
        MetApart(a, b, p, j - 1);
        ArrivesVisits(a, b, lt, p, j - 1);
        var s := Next(a, b, lt, Spot(i, c));
        VisitsNext(a, b, lt, i, c);
        VisitsNext(a, b, lt, p, j - 1);
        InOrder(a, b, lt, s.i, s.j, p + 1, j);
      }
    }
  }

  /** The walk does not leave column j before row i. */
  lemma {:induction false} ColumnNotBefore(a: seq<Rank>, b: seq<Rank>, lt: Order, i: nat, j: nat, p: nat)
    requires Sorted(a, b, lt) && i < |a| && j < |b| && Apart(a, b, i, j) && HeldPassed(a, b, lt, i, j)
    requires Visits(a, b, lt, p, j) && (Meet(a, b, p, j) || Enter(a, b, lt, p, j))
    ensures i <= p
    decreases i + j, 0
  {
    if i > 0 {
      if lt(a[i - 1], b[j]) {
        AllBelow(a, lt, i, b[j]);
      } else {
        var q: nat :| q < j && a[i - 1].id == b[q].id && Arrives(a, b, lt, i - 1, q);
        MetApart(a, b, i - 1, q);
        ArrivesVisits(a, b, lt, i - 1, q);
        var s := Next(a, b, lt, Spot(p, j));
        VisitsNext(a, b, lt, p, j);
        VisitsNext(a, b, lt, i - 1, q);
        InOrder(a, b, lt, s.i, s.j, i, q + 1);
      }
    }
  }

  // ---- The exact condition ----

  /** Held element p and new element q are one: the walk carries the old object to its new place
      when both sides are out of the way as they meet, or when the two lists agree, element for
      element, between the old place and the new one. */
  ghost predicate Kept(a: seq<Rank>, b: seq<Rank>, lt: Order, p: nat, q: nat)
    requires p < |a| && q < |b|
  {
    Arrives(a, b, lt, p, q) || exists c: nat :: KeptOver(a, b, lt, p, c, q)
  }

  ghost predicate KeptOver(a: seq<Rank>, b: seq<Rank>, lt: Order, p: nat, c: nat, q: nat)
    requires p < |a| && q < |b|
  {
    && c < q && lt(a[p], b[c]) && Arrives(a, b, lt, p, c) && AgreeFrom(a, b, p + 1, c, q)
    && (p + 1 + (q - c) < |a| ==> lt(b[q], a[p + 1 + (q - c)]))
  }

  /** From row i and column c on the lists hold the same ids, up to column q. */
  predicate AgreeFrom(a: seq<Rank>, b: seq<Rank>, i: nat, c: nat, q: nat)
    requires q <= |b|
    decreases q - c
  {
    c >= q || (i < |a| && a[i].id == b[c].id && AgreeFrom(a, b, i + 1, c + 1, q))
  }

  lemma {:induction false} AgreeMore(a: seq<Rank>, b: seq<Rank>, i: nat, c: nat, q: nat)
    requires c <= q < |b| && AgreeFrom(a, b, i, c, q) && Meet(a, b, i + (q - c), q)
    ensures AgreeFrom(a, b, i, c, q + 1)
    decreases q - c
  {
    if c < q {
      AgreeMore(a, b, i + 1, c + 1, q);
    }
  }

  lemma {:induction false} AgreeLess(a: seq<Rank>, b: seq<Rank>, i: nat, c: nat, q: nat)
    requires c <= q < |b| && AgreeFrom(a, b, i, c, q + 1)
    ensures AgreeFrom(a, b, i, c, q) && Meet(a, b, i + (q - c), q)
    decreases q - c
  {
    if c < q {
      AgreeLess(a, b, i + 1, c + 1, q);
    }
  }

  lemma {:induction false} PendingAgrees(a: seq<Rank>, b: seq<Rank>, lt: Order, p: nat, c: nat, i: nat, j: nat)
    requires j <= |b| && Pending(a, b, lt, p, c, i, j)
    ensures c <= j && i == p + 1 + (j - c) && AgreeFrom(a, b, p + 1, c, j)
    decreases j
  {
    if c < j && p + 1 < i {
      PendingAgrees(a, b, lt, p, c, i - 1, j - 1);
      AgreeMore(a, b, p + 1, c, j - 1);
    }
  }

  lemma {:induction false} AgreesPending(a: seq<Rank>, b: seq<Rank>, lt: Order, p: nat, c: nat, q: nat)
    requires c <= q <= |b| && Visits(a, b, lt, p, c) && Leave(a, b, lt, p, c) && AgreeFrom(a, b, p + 1, c, q)
    ensures Pending(a, b, lt, p, c, p + 1 + (q - c), q)
    decreases q
  {
    if c < q {
      AgreeLess(a, b, p + 1, c, q - 1);
      AgreesPending(a, b, lt, p, c, q - 1);
    }
  }

  lemma MovesKept(a: seq<Rank>, b: seq<Rank>, lt: Order, p: nat, c: nat, q: nat)
    requires Sorted(a, b, lt) && MovesFrom(a, b, lt, p, c, q)
    ensures KeptOver(a, b, lt, p, c, q)
  {
    var i := p + 1 + (q - c);
    PendingAgrees(a, b, lt, p, c, i, q);
    PendingVisits(a, b, lt, p, c, p + 1 + (q - c), q);
    DropSpot(a, b, lt, p, c, i, q);
    assert c < q && a[p + 1].id == b[c].id;
    VisitsArrives(a, b, lt, p, c);
    if i < |a| {
      NotAfter(a[i], b[q], lt);
    }
  }

  lemma {:induction false} DropSpot(a: seq<Rank>, b: seq<Rank>, lt: Order, p: nat, c: nat, i: nat, j: nat)
    requires Pending(a, b, lt, p, c, i, j)
    ensures Visits(a, b, lt, p, c) && Leave(a, b, lt, p, c)
    decreases j
  {
    if c < j && p + 1 < i {
      DropSpot(a, b, lt, p, c, i - 1, j - 1);
    }
  }

  lemma KeptMoves(a: seq<Rank>, b: seq<Rank>, lt: Order, p: nat, c: nat, q: nat)
    requires Sorted(a, b, lt) && p < |a| && q < |b| && a[p].id == b[q].id && KeptOver(a, b, lt, p, c, q)
    ensures MovesFrom(a, b, lt, p, c, q)
  {
    assert a[p + 1].id == b[c].id;
    assert Apart(a, b, p, c);
    ArrivesVisits(a, b, lt, p, c);
    AgreesPending(a, b, lt, p, c, q);
  }

  /** What the walk carries over is exactly what the condition on the lists says. */
  lemma KeptExactly(a: seq<Rank>, b: seq<Rank>, lt: Order, p: nat, q: nat)
    requires Sorted(a, b, lt) && p < |a| && q < |b| && a[p].id == b[q].id
    ensures Carries(a, b, lt, p, q) <==> Kept(a, b, lt, p, q)
  {
    MetApart(a, b, p, q);
    if Visits(a, b, lt, p, q) {
      VisitsArrives(a, b, lt, p, q);
    }
    if Arrives(a, b, lt, p, q) {
      ArrivesVisits(a, b, lt, p, q);
    }
    forall c: nat | MovesFrom(a, b, lt, p, c, q) ensures KeptOver(a, b, lt, p, c, q) {
      MovesKept(a, b, lt, p, c, q);
    }
    forall c: nat | KeptOver(a, b, lt, p, c, q) ensures MovesFrom(a, b, lt, p, c, q) {
      KeptMoves(a, b, lt, p, c, q);
    }
  }

  /** Replaying the diff of two sorted lists keeps the old object of a common element if and only
      if Kept says so, and takes the new one otherwise. */
  lemma OldObjectExactly<T>(was: seq<T>, now: seq<T>, lt: Order, rank: T -> Rank, p: nat, q: nat)
    requires Sorted(Ranks(was, rank), Ranks(now, rank), lt)
    requires p < |was| && q < |now| && rank(was[p]).id == rank(now[q]).id
    ensures var ops := Ops(was, now, By(lt, rank), IdOf(rank));
            && Replayable(was, ops) && |Replayed(was, ops)| == |now|
            && Replayed(was, ops)[q] == if Kept(Ranks(was, rank), Ranks(now, rank), lt, p, q) then was[p] else now[q]
  {
    ReplaySurvives(was, now, lt, rank);
    KeptExactly(Ranks(was, rank), Ranks(now, rank), lt, p, q);
  }

  // ---- Plain cases ----

  /** An element whose sort key did not change is kept. */
  lemma UnmovedKept(a: seq<Rank>, b: seq<Rank>, lt: Order, p: nat, q: nat)
    requires Sorted(a, b, lt) && p < |a| && q < |b| && a[p] == b[q]
    ensures Kept(a, b, lt, p, q)
  {
    assert HeldPassed(a, b, lt, p, q) && NewPassed(a, b, lt, p, q);
  }

  /** Every other common element has its old sort key. */
  predicate Lone(a: seq<Rank>, b: seq<Rank>, p: nat) {
    forall x, y :: 0 <= x < |a| && 0 <= y < |b| && x != p && a[x].id == b[y].id ==> a[x] == b[y]
  }

  /** Between the old place of p and the new place q both lists hold the same elements. */
  predicate SameBetween(a: seq<Rank>, b: seq<Rank>, lt: Order, p: nat, c: nat, q: nat)
    requires p < |a| && q < |b|
  {
    && c < q && lt(a[p], b[c]) && (c == 0 || lt(b[c - 1], a[p])) && AgreeFrom(a, b, p + 1, c, q)
    && (p + 1 + (q - c) < |a| ==> lt(b[q], a[p + 1 + (q - c)]))
  }

  lemma LoneArrives(a: seq<Rank>, b: seq<Rank>, lt: Order, p: nat, j: nat)
    requires Sorted(a, b, lt) && p < |a| && j < |b| && Lone(a, b, p)
    ensures Arrives(a, b, lt, p, j) <==> (p == 0 || lt(a[p - 1], b[j])) && (j == 0 || lt(b[j - 1], a[p]))
  {
    if p > 0 {
      forall y: nat | y < j && a[p - 1].id == b[y].id ensures lt(a[p - 1], b[j]) {
        assert a[p - 1] == b[y];
      }
    }
    if j > 0 {
      forall x: nat | x < p && a[x].id == b[j - 1].id ensures lt(b[j - 1], a[p]) {
        assert a[x] == b[j - 1];
      }
    }
  }

  /** One element changes its place and no other common one does. Moving forward it keeps its object
      if and only if it passes no held element; moving back, if and only if it passes no new one,
      or exactly the same elements in both lists. */
  lemma LoneMove(a: seq<Rank>, b: seq<Rank>, lt: Order, p: nat, q: nat)
    requires Sorted(a, b, lt) && p < |a| && q < |b| && a[p].id == b[q].id && Lone(a, b, p)
    ensures lt(b[q], a[p]) ==> (Kept(a, b, lt, p, q) <==> p == 0 || lt(a[p - 1], b[q]))
    ensures lt(a[p], b[q]) ==>
              (Kept(a, b, lt, p, q) <==> q == 0 || lt(b[q - 1], a[p]) || exists c: nat :: SameBetween(a, b, lt, p, c, q))
  {
    LoneArrives(a, b, lt, p, q);
    forall c: nat | c < q ensures KeptOver(a, b, lt, p, c, q) <==> SameBetween(a, b, lt, p, c, q) {
      LoneArrives(a, b, lt, p, c);
    }
  }

  /** The commonest case: a thread that overtakes a held one arrives as the new object. */
  lemma OvertakingArrivesNew(a: seq<Rank>, b: seq<Rank>, lt: Order, p: nat, q: nat, x: nat)
    requires Sorted(a, b, lt) && x < p < |a| && q < |b| && a[p].id == b[q].id && Lone(a, b, p) && lt(b[q], a[x])
    ensures !Kept(a, b, lt, p, q)
  {
    LoneMove(a, b, lt, p, q);
    assert x < p - 1 ==> lt(a[x], a[p - 1]);
  }
}
