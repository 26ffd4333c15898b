/** The sorted diff and its in-place replay (src/core/diff.go). */
module Diff {
  import opened Mail

  datatype Op<T> =
    | Insert(item: T, to: nat)
    | Remove(key: string, from: nat)
    | Move(key: string, from: nat, to: nat)

  /** The merge walk from position (i, j): what the loops of DiffSorted still emit. */
  function RawOps<T>(was: seq<T>, now: seq<T>, less: (T, T) -> bool, key: T -> string, i: nat, j: nat): seq<Op<T>>
    requires i <= |was| && j <= |now|
    decreases |was| - i + |now| - j
  {
    if i < |was| && j < |now| then
      if key(was[i]) == key(now[j]) then RawOps(was, now, less, key, i + 1, j + 1)
      else if less(was[i], now[j]) then [Remove(key(was[i]), j)] + RawOps(was, now, less, key, i + 1, j)
      else [Insert(now[j], j)] + RawOps(was, now, less, key, i, j + 1)
    else if i < |was| then [Remove(key(was[i]), j)] + RawOps(was, now, less, key, i + 1, j)
    else if j < |now| then [Insert(now[j], j)] + RawOps(was, now, less, key, i, j + 1)
    else []
  }

  predicate Collapses<T>(ops: seq<Op<T>>, key: T -> string) {
    |ops| >= 2 && ops[0].Remove? && ops[1].Insert? && key(ops[1].item) == ops[0].key
  }

  /** Adjacent remove-then-insert pairs of one key become moves. */
  function Collapsed<T>(ops: seq<Op<T>>, key: T -> string): seq<Op<T>> {
    if ops == [] then []
    else if Collapses(ops, key) then [Move(ops[0].key, ops[0].from, ops[1].to)] + Collapsed(ops[2..], key)
    else [ops[0]] + Collapsed(ops[1..], key)
  }

  function Ops<T>(was: seq<T>, now: seq<T>, less: (T, T) -> bool, key: T -> string): seq<Op<T>> {
    Collapsed(RawOps(was, now, less, key, 0, 0), key)
  }

  /** Emitting the next op keeps what is emitted plus what is still to come. */
  lemma Emit<T>(done: seq<T>, x: T, rest: seq<T>)
    ensures done + ([x] + rest) == (done + [x]) + rest
  {
  }

  method DiffSorted<T>(was: seq<T>, now: seq<T>, less: (T, T) -> bool, key: T -> string) returns (ops: seq<Op<T>>)
    ensures ops == Ops(was, now, less, key)
  {
    var raw: seq<Op<T>> := [];
    var i, j := 0, 0;
    ghost var all := RawOps(was, now, less, key, 0, 0);
    while i < |was| && j < |now|
      invariant 0 <= i <= |was| && 0 <= j <= |now|
      invariant raw + RawOps(was, now, less, key, i, j) == all
      decreases |was| - i + |now| - j
    {
      if key(was[i]) == key(now[j]) {
        i, j := i + 1, j + 1;
      } else if less(was[i], now[j]) {
        Emit(raw, Remove(key(was[i]), j), RawOps(was, now, less, key, i + 1, j));
        raw := raw + [Remove(key(was[i]), j)];
        i := i + 1;
      } else {
        Emit(raw, Insert(now[j], j), RawOps(was, now, less, key, i, j + 1));
        raw := raw + [Insert(now[j], j)];
        j := j + 1;
      }
    }
    while i < |was|
      invariant 0 <= i <= |was| && 0 <= j <= |now|
      invariant i < |was| ==> j == |now|
      invariant raw + RawOps(was, now, less, key, i, j) == all
    {
      Emit(raw, Remove(key(was[i]), j), RawOps(was, now, less, key, i + 1, j));
      raw := raw + [Remove(key(was[i]), j)];
      i := i + 1;
    }
    while j < |now|
      invariant i == |was| && 0 <= j <= |now|
      invariant raw + RawOps(was, now, less, key, i, j) == all
    {
      Emit(raw, Insert(now[j], j), RawOps(was, now, less, key, i, j + 1));
      raw := raw + [Insert(now[j], j)];
      j := j + 1;
    }
    assert raw == all;
    ops := CollapseMoves(raw, key);
  }

  method CollapseMoves<T>(ops: seq<Op<T>>, key: T -> string) returns (out: seq<Op<T>>)
    ensures out == Collapsed(ops, key)
  {
    out := [];
    var i := 0;
    while i < |ops|
      invariant 0 <= i <= |ops|
      invariant out + Collapsed(ops[i..], key) == Collapsed(ops, key)
    {
      var op := ops[i];
      if op.Remove? && i + 1 < |ops| && ops[i + 1].Insert? && key(ops[i + 1].item) == op.key {
        assert Collapses(ops[i..], key) && ops[i..][2..] == ops[i + 2..];
        Emit(out, Move(op.key, op.from, ops[i + 1].to), Collapsed(ops[i + 2..], key));
        out := out + [Move(op.key, op.from, ops[i + 1].to)];
        i := i + 2;
      } else {
        assert !Collapses(ops[i..], key) && ops[i..][1..] == ops[i + 1..];
        Emit(out, op, Collapsed(ops[i + 1..], key));
        out := out + [op];
        i := i + 1;
      }
    }
  }

  // ---- Replay on sequences ----

  function RemovedAt<T>(items: seq<T>, i: nat): seq<T>
    requires i < |items|
  {
    items[..i] + items[i + 1..]
  }

  function InsertedAt<T>(items: seq<T>, item: T, i: nat): seq<T>
    requires i <= |items|
  {
    items[..i] + [item] + items[i..]
  }

  lemma ShiftedIn<T>(was: seq<T>, now: seq<T>, item: T, i: nat)
    requires i <= |was| && |now| == |was| + 1 && now[i] == item
    requires forall m :: 0 <= m < i ==> now[m] == was[m]
    requires forall m :: i < m < |now| ==> now[m] == was[m - 1]
    ensures now == InsertedAt(was, item, i)
  {
  }

  /** The op's indices are in bounds for the current list. */
  predicate InBounds<T>(items: seq<T>, op: Op<T>) {
    match op
    case Insert(_, to) => to <= |items|
    case Remove(_, from) => from < |items|
    case Move(_, from, to) => from < |items| && to < |items|
  }

  function Applied<T>(items: seq<T>, op: Op<T>): seq<T>
    requires InBounds(items, op)
  {
    match op
    case Insert(item, to) => InsertedAt(items, item, to)
    case Remove(_, from) => RemovedAt(items, from)
    case Move(_, from, to) => InsertedAt(RemovedAt(items, from), items[from], to)
  }

  predicate Replayable<T>(items: seq<T>, ops: seq<Op<T>>)
    decreases |ops|
  {
    ops == [] || (InBounds(items, ops[0]) && Replayable(Applied(items, ops[0]), ops[1..]))
  }

  function Replayed<T>(items: seq<T>, ops: seq<Op<T>>): seq<T>
    requires Replayable(items, ops)
    decreases |ops|
  {
    if ops == [] then items else Replayed(Applied(items, ops[0]), ops[1..])
  }

  // ---- The in-place replay ----

  /** A Go slice: a length over a backing array that grows when full. */
  class Slice<T(0)> {
    var data: array<T>
    var len: nat

    ghost predicate Valid()
      reads this
    {
      len <= data.Length
    }

    ghost function Contents(): seq<T>
      requires Valid()
      reads this, data
    {
      data[..len]
    }

    constructor (items: seq<T>)
      ensures Valid() && fresh(data) && Contents() == items
    {
      data := new T[|items|](i requires 0 <= i < |items| => items[i]);
      len := |items|;
      new;
      assert data[..len] == items;
    }

    method RemoveAt(i: nat)
      requires Valid() && i < len
      modifies this`len, data
      ensures Valid() && data == old(data)
      ensures Contents() == RemovedAt(old(Contents()), i)
    {
      ghost var was := Contents();
      var k := i;
      while k + 1 < len
        invariant i <= k < len == |was| <= data.Length
        invariant forall m :: 0 <= m < i ==> data[m] == was[m]
        invariant forall m :: i <= m < k ==> data[m] == was[m + 1]
        invariant forall m :: k < m < len ==> data[m] == was[m]
      {
        data[k] := data[k + 1];
        k := k + 1;
      }
      len := len - 1;
    }

    /** Appending's reallocation. */
    method Reserve()
      requires Valid()
      modifies `data
      ensures Valid() && len < data.Length && (data == old(data) || fresh(data))
      ensures Contents() == old(Contents())
    {
      if len == data.Length {
        var bigger := new T[2 * len + 1];
        forall m | 0 <= m < len {
          bigger[m] := data[m];
        }
        data := bigger;
      }
    }

    method InsertAt(item: T, i: nat)
      requires Valid() && i <= len
      modifies this, data
      ensures Valid() && (data == old(data) || fresh(data))
      ensures Contents() == InsertedAt(old(Contents()), item, i)
    {
      Reserve();
      ghost var was := Contents();
      ShiftUp(i);
      data[i] := item;
      ShiftedIn(was, Contents(), item, i);
    }

    /** Makes room at i. */
    method ShiftUp(i: nat)
      requires Valid() && i <= len < data.Length
      modifies this`len, data
      ensures Valid() && len == old(len) + 1
      ensures forall m :: 0 <= m < i ==> data[m] == old(Contents())[m]
      ensures forall m :: i < m < len ==> data[m] == old(Contents())[m - 1]
    {
      ghost var was := Contents();
      var k := len;
      len := len + 1;
      while k > i
        invariant i <= k < len == |was| + 1 <= data.Length
        invariant forall m :: 0 <= m < k ==> data[m] == was[m]
        invariant forall m :: k < m < len ==> data[m] == was[m - 1]
      {
        data[k] := data[k - 1];
        k := k - 1;
      }
    }

    method ApplyOne(op: Op<T>)
      requires Valid() && InBounds(Contents(), op)
      modifies this, data
      ensures Valid() && (data == old(data) || fresh(data))
      ensures Contents() == Applied(old(Contents()), op)
    {
      match op {
        case Insert(item, to) => InsertAt(item, to);
        case Remove(_, from) => RemoveAt(from);
        case Move(_, from, to) =>
          var item := data[from];
          RemoveAt(from);
          InsertAt(item, to);
      }
    }

    method Apply(ops: seq<Op<T>>)
      requires Valid() && Replayable(Contents(), ops)
      modifies this, data
      ensures Valid() && (data == old(data) || fresh(data))
      ensures Contents() == Replayed(old(Contents()), ops)
    {
      ghost var start := Contents();
      var n := 0;
      while n < |ops|
        invariant 0 <= n <= |ops|
        invariant Valid() && (data == old(data) || fresh(data))
        invariant Replayable(Contents(), ops[n..])
        invariant Replayed(Contents(), ops[n..]) == Replayed(start, ops)
      {
        assert ops[n..][0] == ops[n] && ops[n..][1..] == ops[n + 1..];
        ApplyOne(ops[n]);
        n := n + 1;
      }
    }
  }

  // ---- Replay theorems ----

  predicate SameKeys<T>(a: seq<T>, b: seq<T>, key: T -> string) {
    |a| == |b| && forall k :: 0 <= k < |a| ==> key(a[k]) == key(b[k])
  }

  /** The walk is about to keep, drop or take an element. */
  predicate Keeps<T>(was: seq<T>, now: seq<T>, key: T -> string, i: nat, j: nat) {
    i < |was| && j < |now| && key(was[i]) == key(now[j])
  }

  predicate Drops<T>(was: seq<T>, now: seq<T>, less: (T, T) -> bool, key: T -> string, i: nat, j: nat) {
    i < |was| && !Keeps(was, now, key, i, j) && (j >= |now| || less(was[i], now[j]))
  }

  predicate Takes<T>(was: seq<T>, now: seq<T>, less: (T, T) -> bool, key: T -> string, i: nat, j: nat) {
    j < |now| && !Keeps(was, now, key, i, j) && (i >= |was| || !less(was[i], now[j]))
  }

  lemma RawKeep<T>(was: seq<T>, now: seq<T>, less: (T, T) -> bool, key: T -> string, i: nat, j: nat, done: seq<T>)
    requires Keeps(was, now, key, i, j)
    ensures RawOps(was, now, less, key, i, j) == RawOps(was, now, less, key, i + 1, j + 1)
    ensures done + was[i..] == (done + [was[i]]) + was[i + 1..]
  {
  }

  lemma RawTake<T>(was: seq<T>, now: seq<T>, less: (T, T) -> bool, key: T -> string, i: nat, j: nat, done: seq<T>)
    requires i <= |was| && |done| == j && Takes(was, now, less, key, i, j)
    ensures var items, ops := done + was[i..], RawOps(was, now, less, key, i, j);
            && ops != [] && ops[0] == Insert(now[j], j) && ops[1..] == RawOps(was, now, less, key, i, j + 1)
            && InBounds(items, ops[0]) && Applied(items, ops[0]) == (done + [now[j]]) + was[i..]
  {
    assert InsertedAt(done + was[i..], now[j], j) == (done + [now[j]]) + was[i..];
  }

  /** What the replayed diff leaves from position j on, when the walk stands at (i, j). `open` is the
      element the last op removed, if nothing but kept elements came since: an insert of its key
      then collapses with the remove, and the old element moves. */
  function Left<T>(was: seq<T>, now: seq<T>, less: (T, T) -> bool, key: T -> string, i: nat, j: nat, open: Option<nat>): seq<T>
    requires i <= |was| && j <= |now| && (open.Some? ==> open.value < |was|)
    decreases |was| - i + |now| - j
  {
    if Keeps(was, now, key, i, j) then [was[i]] + Left(was, now, less, key, i + 1, j + 1, open)
    else if Drops(was, now, less, key, i, j) then Left(was, now, less, key, i + 1, j, Some(i))
    else if j < |now| then [Taken(was, now, key, j, open)] + Left(was, now, less, key, i, j + 1, None)
    else []
  }

  function Taken<T>(was: seq<T>, now: seq<T>, key: T -> string, j: nat, open: Option<nat>): T
    requires j < |now| && (open.Some? ==> open.value < |was|)
  {
    if open.Some? && key(was[open.value]) == key(now[j]) then was[open.value] else now[j]
  }

  /** Replaying the ops over items is defined and leaves r. */
  predicate Yields<T(==)>(items: seq<T>, ops: seq<Op<T>>, r: seq<T>) {
    Replayable(items, ops) && Replayed(items, ops) == r
  }

  lemma HeadApplied<T>(items: seq<T>, op: Op<T>, rest: seq<Op<T>>, r: seq<T>)
    requires InBounds(items, op) && Yields(Applied(items, op), rest, r)
    ensures Yields(items, [op] + rest, r)
  {
    assert ([op] + rest)[1..] == rest;
  }

  lemma FirstApplied<T>(items: seq<T>, op: Op<T>, rest: seq<Op<T>>, key: T -> string, r: seq<T>)
    requires InBounds(items, op) && Yields(Applied(items, op), Collapsed(rest, key), r) && !Collapses([op] + rest, key)
    ensures Yields(items, Collapsed([op] + rest, key), r)
  {
    assert ([op] + rest)[1..] == rest;
    HeadApplied(items, op, Collapsed(rest, key), r);
  }

  lemma PairApplied<T>(done: seq<T>, tail: seq<T>, x: T, c: nat, item: T, rest: seq<Op<T>>, key: T -> string, r: seq<T>)
    requires c <= |done| && key(item) == key(x) && Yields((done + [x]) + tail, Collapsed(rest, key), r)
    ensures Yields(InsertedAt(done + tail, x, c), Collapsed([Remove(key(x), c)] + ([Insert(item, |done|)] + rest), key), r)
  {
    var ops, items := [Remove(key(x), c)] + ([Insert(item, |done|)] + rest), InsertedAt(done + tail, x, c);
    var op: Op<T> := Move(key(x), c, |done|);
    assert ops[2..] == rest;
    RemovesInserted(done + tail, x, c);
    assert InsertedAt(done + tail, x, |done|) == (done + [x]) + tail;
    HeadApplied(items, op, Collapsed(rest, key), r);
  }

  lemma RemovesInserted<T>(items: seq<T>, x: T, c: nat)
    requires c <= |items|
    ensures InsertedAt(items, x, c)[c] == x && RemovedAt(InsertedAt(items, x, c), c) == items
  {
  }

  /** The replay leaves exactly what Left says. */
  lemma {:induction false} LeftByReplay<T>(
      was: seq<T>, now: seq<T>, less: (T, T) -> bool, key: T -> string, i: nat, j: nat, done: seq<T>)
    requires i <= |was| && j <= |now| && |done| == j
    ensures Yields(done + was[i..], Collapsed(RawOps(was, now, less, key, i, j), key), done + Left(was, now, less, key, i, j, None))
    decreases |was| - i + |now| - j
  {
    if Keeps(was, now, key, i, j) {
      RawKeep(was, now, less, key, i, j, done);
      LeftByReplay(was, now, less, key, i + 1, j + 1, done + [was[i]]);
      Emit(done, was[i], Left(was, now, less, key, i + 1, j + 1, None));
    } else if Drops(was, now, less, key, i, j) {
      LeftOpen(was, now, less, key, i + 1, j, done, i, j);
      assert InsertedAt(done + was[i + 1..], was[i], j) == done + was[i..];
    } else if j < |now| {
      RawTake(was, now, less, key, i, j, done);
      LeftByReplay(was, now, less, key, i, j + 1, done + [now[j]]);
      FirstApplied(done + was[i..], Insert(now[j], j), RawOps(was, now, less, key, i, j + 1), key, done + [now[j]] + Left(was, now, less, key, i, j + 1, None));
      Emit(done, now[j], Left(was, now, less, key, i, j + 1, None));
    } else {
      assert done + was[i..] == done + [];
    }
  }

  /** The same while the remove of was[p] at c has yet to be emitted. */
  lemma {:induction false} LeftOpen<T>(
      was: seq<T>, now: seq<T>, less: (T, T) -> bool, key: T -> string, i: nat, j: nat, done: seq<T>, p: nat, c: nat)
    requires i <= |was| && c <= j <= |now| && |done| == j && p < |was|
    ensures Yields(InsertedAt(done + was[i..], was[p], c),
                   Collapsed([Remove(key(was[p]), c)] + RawOps(was, now, less, key, i, j), key),
                   done + Left(was, now, less, key, i, j, Some(p)))
    decreases |was| - i + |now| - j
  {
    if Keeps(was, now, key, i, j) {
      RawKeep(was, now, less, key, i, j, done);
      LeftOpen(was, now, less, key, i + 1, j + 1, done + [was[i]], p, c);
      Emit(done, was[i], Left(was, now, less, key, i + 1, j + 1, Some(p)));
    } else if Drops(was, now, less, key, i, j) {
      LeftOpen(was, now, less, key, i + 1, j, done, i, j);
      assert InsertedAt(done + was[i + 1..], was[i], j) == done + was[i..];
      OpenClosed(done, was[i..], was[p], c, RawOps(was, now, less, key, i, j), key, done + Left(was, now, less, key, i + 1, j, Some(i)));
    } else if j < |now| {
      OpenTaken(was, now, less, key, i, j, done, p, c);
    } else {
      OpenClosed(done, was[i..], was[p], c, [], key, done + []);
    }
  }

  /** The pending remove is an op of its own when no insert follows it. */
  lemma OpenClosed<T>(done: seq<T>, tail: seq<T>, x: T, c: nat, rest: seq<Op<T>>, key: T -> string, r: seq<T>)
    requires c <= |done| && Yields(done + tail, Collapsed(rest, key), r) && (rest == [] || rest[0].Remove?)
    ensures Yields(InsertedAt(done + tail, x, c), Collapsed([Remove(key(x), c)] + rest, key), r)
  {
    RemovesInserted(done + tail, x, c);
    FirstApplied(InsertedAt(done + tail, x, c), Remove(key(x), c), rest, key, r);
  }

  lemma {:induction false} OpenTaken<T>(
      was: seq<T>, now: seq<T>, less: (T, T) -> bool, key: T -> string, i: nat, j: nat, done: seq<T>, p: nat, c: nat)
    requires i <= |was| && c <= j && |done| == j && p < |was| && Takes(was, now, less, key, i, j)
    ensures Yields(InsertedAt(done + was[i..], was[p], c),
                   Collapsed([Remove(key(was[p]), c)] + RawOps(was, now, less, key, i, j), key),
                   done + Left(was, now, less, key, i, j, Some(p)))
    decreases |was| - i + |now| - j, 0
  {
    var rest, left := RawOps(was, now, less, key, i, j + 1), Left(was, now, less, key, i, j + 1, None);
    var x := Taken(was, now, key, j, Some(p));
    LeftByReplay(was, now, less, key, i, j + 1, done + [x]);
    Emit(done, x, left);
    if key(was[p]) == key(now[j]) {
      PairApplied(done, was[i..], was[p], c, now[j], rest, key, done + [x] + left);
    } else {
      RawTake(was, now, less, key, i, j, done);
      RemovesInserted(done + was[i..], was[p], c);
      FirstApplied(done + was[i..], Insert(now[j], j), rest, key, done + [x] + left);
      FirstApplied(InsertedAt(done + was[i..], was[p], c), Remove(key(was[p]), c), [Insert(now[j], j)] + rest, key, done + [x] + left);
    }
  }

  /** r stands for now from position j on: the same keys, each element new or old. */
  predicate StandsFor<T(==)>(r: seq<T>, was: seq<T>, now: seq<T>, key: T -> string, j: nat) {
    j + |r| == |now| && forall k :: 0 <= k < |r| ==> key(r[k]) == key(now[j + k]) && (r[k] == now[j + k] || r[k] in was)
  }

  lemma StandsForMore<T>(x: T, tail: seq<T>, was: seq<T>, now: seq<T>, key: T -> string, j: nat)
    requires j < |now| && key(x) == key(now[j]) && (x == now[j] || x in was) && StandsFor(tail, was, now, key, j + 1)
    ensures StandsFor([x] + tail, was, now, key, j)
  {
    var r := [x] + tail;
    forall k | 0 <= k < |r| ensures key(r[k]) == key(now[j + k]) && (r[k] == now[j + k] || r[k] in was) {
      if k > 0 {
        assert r[k] == tail[k - 1] && j + 1 + (k - 1) == j + k;
      }
    }
  }

  /** Left has the new keys, and its elements are new or old ones. */
  lemma {:induction false} LeftKeys<T>(was: seq<T>, now: seq<T>, less: (T, T) -> bool, key: T -> string, i: nat, j: nat, open: Option<nat>)
    requires i <= |was| && j <= |now| && (open.Some? ==> open.value < |was|)
    ensures StandsFor(Left(was, now, less, key, i, j, open), was, now, key, j)
    decreases |was| - i + |now| - j
  {
    if Keeps(was, now, key, i, j) {
      LeftKeys(was, now, less, key, i + 1, j + 1, open);
      StandsForMore(was[i], Left(was, now, less, key, i + 1, j + 1, open), was, now, key, j);
    } else if Drops(was, now, less, key, i, j) {
      LeftKeys(was, now, less, key, i + 1, j, Some(i));
    } else if j < |now| {
      LeftKeys(was, now, less, key, i, j + 1, None);
      StandsForMore(Taken(was, now, key, j, open), Left(was, now, less, key, i, j + 1, None), was, now, key, j);
    }
  }

  lemma ReplayedIsLeft<T>(was: seq<T>, now: seq<T>, less: (T, T) -> bool, key: T -> string)
    ensures Yields(was, Ops(was, now, less, key), Left(was, now, less, key, 0, 0, None))
  {
    assert [] + was[0..] == was && [] + Left(was, now, less, key, 0, 0, None) == Left(was, now, less, key, 0, 0, None);
    LeftByReplay(was, now, less, key, 0, 0, []);
  }

  /** Replaying a diff lands on the new key sequence, for any two lists and any comparison. */
  lemma DiffReplay<T>(was: seq<T>, now: seq<T>, less: (T, T) -> bool, key: T -> string)
    ensures Replayable(was, Ops(was, now, less, key))
    ensures SameKeys(Replayed(was, Ops(was, now, less, key)), now, key)
    ensures forall k :: 0 <= k < |now| ==>
              var r := Replayed(was, Ops(was, now, less, key))[k]; r == now[k] || r in was
  {
    ReplayedIsLeft(was, now, less, key);
    LeftKeys(was, now, less, key, 0, 0, None);
  }

  // ---- Sorted inputs ----

  /** Comparing elements by a rank. */
  function By<T, R>(lt: (R, R) -> bool, rank: T -> R): (T, T) -> bool {
    (x: T, y: T) => lt(rank(x), rank(y))
  }

  ghost predicate SortedBy<T, R>(s: seq<T>, lt: (R, R) -> bool, rank: T -> R) {
    forall i, j :: 0 <= i < j < |s| ==> lt(rank(s[i]), rank(s[j]))
  }

  predicate UniqueKeys<T>(s: seq<T>, key: T -> string) {
    forall i, j :: 0 <= i < j < |s| ==> key(s[i]) != key(s[j])
  }

  function Keys<T>(s: seq<T>, key: T -> string): (ks: seq<string>)
    ensures |ks| == |s| && forall k :: 0 <= k < |s| ==> ks[k] == key(s[k])
  {
    seq(|s|, k requires 0 <= k < |s| => key(s[k]))
  }

  /** The number of elements of s whose key t also carries. */
  function Common<T>(s: seq<T>, t: seq<T>, key: T -> string): nat {
    if s == [] then 0
    else (if key(s[0]) in Keys(t, key) then 1 else 0) + Common(s[1..], t, key)
  }

  lemma {:induction false} CommonDrop<T>(s: seq<T>, t: seq<T>, key: T -> string)
    requires t != [] && key(t[0]) !in Keys(s, key)
    ensures Common(s, t, key) == Common(s, t[1..], key)
  {
    if s != [] {
      assert key(s[0]) == Keys(s, key)[0];
      assert forall k :: k in Keys(s[1..], key) ==> k in Keys(s, key) by {
        assert Keys(s[1..], key) == Keys(s, key)[1..];
      }
      assert Keys(t, key) == [key(t[0])] + Keys(t[1..], key);
      CommonDrop(s[1..], t, key);
    }
  }

  lemma AbsentFromTail<T>(s: seq<T>, j: nat, x: T, lt: (string, string) -> bool, key: T -> string)
    requires StrictOrder(lt) && SortedBy(s, lt, key) && j < |s| && lt(key(x), key(s[j]))
    ensures key(x) !in Keys(s[j..], key)
  {
    var ks := Keys(s[j..], key);
    forall k | 0 <= k < |ks| ensures ks[k] != key(x) {
      assert ks[k] == key(s[j + k]);
      assert k > 0 ==> lt(key(s[j]), key(s[j + k]));
    }
  }

  lemma {:induction false} FirstInsert<T>(
      was: seq<T>, now: seq<T>, less: (T, T) -> bool, key: T -> string, i: nat, j: nat)
    requires i <= |was| && j <= |now|
    ensures var ops := RawOps(was, now, less, key, i, j);
            ops != [] && ops[0].Insert? ==> key(ops[0].item) in Keys(now[j..], key)
    decreases |was| - i + |now| - j
  {
    if j < |now| {
      assert key(now[j]) == Keys(now[j..], key)[0];
      assert Keys(now[j..], key)[1..] == Keys(now[j + 1..], key);
      if i < |was| && key(was[i]) == key(now[j]) {
        FirstInsert(was, now, less, key, i + 1, j + 1);
      }
    }
  }

  lemma CollapsedStep<T>(op: Op<T>, rest: seq<Op<T>>, key: T -> string)
    requires Collapsed(rest, key) == rest
    requires !op.Remove? || rest == [] || !rest[0].Insert? || key(rest[0].item) != op.key
    ensures Collapsed([op] + rest, key) == [op] + rest
  {
    assert ([op] + rest)[1..] == rest;
  }

  /** Over lists sorted by key no remove is followed by an insert of the same key. */
  lemma {:induction false} RawUncollapsed<T>(
      was: seq<T>, now: seq<T>, lt: (string, string) -> bool, key: T -> string, i: nat, j: nat)
    requires StrictOrder(lt) && SortedBy(was, lt, key) && SortedBy(now, lt, key)
    requires i <= |was| && j <= |now|
    ensures var ops := RawOps(was, now, By(lt, key), key, i, j); Collapsed(ops, key) == ops
    decreases |was| - i + |now| - j
  {
    var less := By(lt, key);
    if i < |was| && j < |now| && key(was[i]) == key(now[j]) {
      RawUncollapsed(was, now, lt, key, i + 1, j + 1);
    } else if i < |was| && (j == |now| || less(was[i], now[j])) {
      RawUncollapsed(was, now, lt, key, i + 1, j);
      FirstInsert(was, now, less, key, i + 1, j);
      if j < |now| {
        AbsentFromTail(now, j, was[i], lt, key);
      }
      CollapsedStep(Remove(key(was[i]), j), RawOps(was, now, less, key, i + 1, j), key);
    } else if j < |now| {
      RawUncollapsed(was, now, lt, key, i, j + 1);
      CollapsedStep(Insert(now[j], j), RawOps(was, now, less, key, i, j + 1), key);
    }
  }

  lemma {:induction false} RawCount<T>(
      was: seq<T>, now: seq<T>, lt: (string, string) -> bool, key: T -> string, i: nat, j: nat)
    requires StrictOrder(lt) && SortedBy(was, lt, key) && SortedBy(now, lt, key)
    requires i <= |was| && j <= |now|
    ensures |RawOps(was, now, By(lt, key), key, i, j)| + 2 * Common(was[i..], now[j..], key) == |was| - i + |now| - j
    decreases |was| - i + |now| - j
  {
    var less := By(lt, key);
    if i < |was| {
      assert was[i..][0] == was[i] && was[i..][1..] == was[i + 1..];
    }
    if j < |now| {
      assert now[j..][0] == now[j] && now[j..][1..] == now[j + 1..];
      assert Keys(now[j..], key)[0] == key(now[j]);
    }
    if i < |was| && j < |now| && key(was[i]) == key(now[j]) {
      RawCount(was, now, lt, key, i + 1, j + 1);
      if i + 1 < |was| {
        AbsentFromTail(was, i + 1, was[i], lt, key);
      }
      CommonDrop(was[i + 1..], now[j..], key);
    } else if i < |was| && (j == |now| || less(was[i], now[j])) {
      RawCount(was, now, lt, key, i + 1, j);
      if j < |now| {
        AbsentFromTail(now, j, was[i], lt, key);
      }
    } else if j < |now| {
      RawCount(was, now, lt, key, i, j + 1);
      if i < |was| {
        AbsentFromTail(was, i, now[j], lt, key);
      }
      CommonDrop(was[i..], now[j..], key);
    }
  }

  // ---- No shorter op list does the job ----

  function KeySet<T>(s: seq<T>, key: T -> string): set<string> {
    set k | k in Keys(s, key)
  }

  function Gap(a: set<string>, b: set<string>): nat {
    |a - b| + |b - a|
  }

  lemma GapAdd(a: set<string>, x: string, b: set<string>)
    ensures Gap(a, b) <= Gap(a + {x}, b) + 1
  {
    var left, mid := b - a, b - (a + {x});
    assert left == mid + (if x in b && x !in a then {x} else {});
    assert a - b <= (a + {x}) - b;
    CardMono(a - b, (a + {x}) - b);
  }

  lemma GapDrop(a: set<string>, x: string, b: set<string>)
    ensures Gap(a, b) <= Gap(a - {x}, b) + 1
  {
    var left, mid := a - b, (a - {x}) - b;
    assert left == mid + (if x in a && x !in b then {x} else {});
    assert b - a <= b - (a - {x});
    CardMono(b - a, b - (a - {x}));
  }

  lemma GapStep(a: set<string>, x: string, b: set<string>)
    ensures Gap(a, b) <= Gap(a + {x}, b) + 1
    ensures Gap(a, b) <= Gap(a - {x}, b) + 1
  {
    GapAdd(a, x, b);
    GapDrop(a, x, b);
  }

  lemma {:induction false} CardMono(a: set<string>, b: set<string>)
    requires a <= b
    ensures |a| <= |b|
  {
    assert b == a + (b - a);
  }

  lemma InsertedKeys<T>(items: seq<T>, item: T, i: nat, key: T -> string)
    requires i <= |items|
    ensures KeySet(InsertedAt(items, item, i), key) == KeySet(items, key) + {key(item)}
  {
    var r := InsertedAt(items, item, i);
    assert Keys(r, key) == Keys(items, key)[..i] + [key(item)] + Keys(items, key)[i..];
    assert Keys(items, key) == Keys(items, key)[..i] + Keys(items, key)[i..];
  }

  lemma OpMovesOneKey<T>(items: seq<T>, op: Op<T>, key: T -> string, b: set<string>)
    requires InBounds(items, op)
    ensures Gap(KeySet(items, key), b) <= Gap(KeySet(Applied(items, op), key), b) + 1
    ensures op.Move? ==> KeySet(Applied(items, op), key) == KeySet(items, key)
  {
    match op
    case Insert(item, to) =>
      InsertedKeys(items, item, to, key);
      GapStep(KeySet(items, key), key(item), b);
    case Remove(_, from) =>
      var r := RemovedAt(items, from);
      InsertedKeys(r, items[from], from, key);
      assert InsertedAt(r, items[from], from) == items;
      GapStep(KeySet(items, key), key(items[from]), b);
      assert KeySet(r, key) == KeySet(items, key) || KeySet(r, key) == KeySet(items, key) - {key(items[from])};
    case Move(_, from, to) =>
      var r := RemovedAt(items, from);
      InsertedKeys(r, items[from], from, key);
      assert InsertedAt(r, items[from], from) == items;
      InsertedKeys(r, items[from], to, key);
  }

  lemma {:induction false} ReplayClosesGap<T>(items: seq<T>, ops: seq<Op<T>>, key: T -> string)
    requires Replayable(items, ops)
    ensures Gap(KeySet(items, key), KeySet(Replayed(items, ops), key)) <= |ops|
    decreases |ops|
  {
    if ops != [] {
      OpMovesOneKey(items, ops[0], key, KeySet(Replayed(items, ops), key));
      ReplayClosesGap(Applied(items, ops[0]), ops[1..], key);
    }
  }

  lemma KeySetStep<T>(s: seq<T>, key: T -> string)
    requires s != [] && UniqueKeys(s, key)
    ensures KeySet(s, key) == {key(s[0])} + KeySet(s[1..], key)
    ensures key(s[0]) !in KeySet(s[1..], key)
  {
    assert Keys(s, key) == [key(s[0])] + Keys(s[1..], key);
    var ks := Keys(s[1..], key);
    forall k | 0 <= k < |ks| ensures ks[k] != key(s[0]) {
      assert ks[k] == key(s[k + 1]);
    }
  }

  lemma OverlapStep(x: string, rest: set<string>, other: set<string>)
    requires x !in rest
    ensures |{x} + rest| == |rest| + 1
    ensures |({x} + rest) * other| == |rest * other| + if x in other then 1 else 0
  {
    if x in other {
      assert ({x} + rest) * other == {x} + rest * other;
    } else {
      assert ({x} + rest) * other == rest * other;
    }
  }

  lemma {:induction false} CommonIsOverlap<T>(s: seq<T>, t: seq<T>, key: T -> string)
    requires UniqueKeys(s, key)
    ensures |KeySet(s, key)| == |s|
    ensures Common(s, t, key) == |KeySet(s, key) * KeySet(t, key)|
  {
    if s != [] {
      KeySetStep(s, key);
      CommonIsOverlap(s[1..], t, key);
      OverlapStep(key(s[0]), KeySet(s[1..], key), KeySet(t, key));
    }
  }

  lemma GapOfOverlap(a: set<string>, b: set<string>)
    ensures Gap(a, b) == |a| + |b| - 2 * |a * b|
  {
    assert a == (a - b) + a * b && b == (b - a) + a * b;
  }

  /** Under one strict total order on keys the diff has |was| + |now| - 2 * common ops,
      and no op list that reaches now's keys is shorter. */
  lemma DiffMinimal<T>(was: seq<T>, now: seq<T>, lt: (string, string) -> bool, key: T -> string, other: seq<Op<T>>)
    requires StrictOrder(lt) && SortedBy(was, lt, key) && SortedBy(now, lt, key)
    requires Replayable(was, other) && SameKeys(Replayed(was, other), now, key)
    ensures |Ops(was, now, By(lt, key), key)| == |was| + |now| - 2 * Common(was, now, key)
    ensures |Ops(was, now, By(lt, key), key)| <= |other|
  {
    assert was[0..] == was && now[0..] == now;
    RawCount(was, now, lt, key, 0, 0);
    RawUncollapsed(was, now, lt, key, 0, 0);
    ReplayClosesGap(was, other, key);
    assert Keys(Replayed(was, other), key) == Keys(now, key);
    SortedUniqueKeys(was, lt, key);
    SortedUniqueKeys(now, lt, key);
    CommonIsOverlap(was, now, key);
    CommonIsOverlap(now, was, key);
    GapOfOverlap(KeySet(was, key), KeySet(now, key));
  }

  lemma SortedUniqueKeys<T>(s: seq<T>, lt: (string, string) -> bool, key: T -> string)
    requires StrictOrder(lt) && SortedBy(s, lt, key)
    ensures UniqueKeys(s, key)
  {
  }
}
