/** Messages, tags and the two sort orders (src/core/types.go, src/core/compare.go). */
module Mail {
  datatype Option<+T> = None | Some(value: T)

  /** nilTags: the tag list is nil, not merely empty (the cgo backend's form of "no tags"). */
  datatype Message = Message(
    id: string, threadID: string, timestamp: int, author: string, subject: string,
    tags: seq<string>, references: seq<string>, paths: seq<string>, atts: seq<string>, nilTags: bool)

  datatype TagOp = TagOp(tag: string, add: bool)

  /** An exclusive tag group: at most one member applies. */
  type TagGroup = seq<string>

  /** Byte order of ids. */
  predicate StringLess(a: string, b: string) {
    if b == "" then false
    else if a == "" then true
    else if a[0] != b[0] then a[0] < b[0]
    else StringLess(a[1..], b[1..])
  }

  /** What a list is sorted on: a date, ties broken by id. */
  datatype Rank = Rank(date: int, id: string)

  /** Threads: newest first, then id. */
  predicate ThreadRankLess(a: Rank, b: Rank) {
    if a.date != b.date then a.date > b.date else StringLess(a.id, b.id)
  }

  /** Messages: oldest first, then id. */
  predicate MsgRankLess(a: Rank, b: Rank) {
    if a.date != b.date then a.date < b.date else StringLess(a.id, b.id)
  }

  function MsgRank(m: Message): Rank {
    Rank(m.timestamp, m.id)
  }

  predicate MsgLess(a: Message, b: Message) {
    MsgRankLess(MsgRank(a), MsgRank(b))
  }

  lemma {:induction false} StringLessIrreflexive(a: string)
    ensures !StringLess(a, a)
  {
    if a != "" {
      StringLessIrreflexive(a[1..]);
    }
  }

  lemma {:induction false} StringLessTotal(a: string, b: string)
    ensures a == b || StringLess(a, b) || StringLess(b, a)
  {
    if a != "" && b != "" && a[0] == b[0] {
      StringLessTotal(a[1..], b[1..]);
      assert a == [a[0]] + a[1..] && b == [b[0]] + b[1..];
    }
  }

  lemma {:induction false} StringLessTransitive(a: string, b: string, c: string)
    requires StringLess(a, b) && StringLess(b, c)
    ensures StringLess(a, c)
  {
    if a != "" && b != "" && a[0] == b[0] && b[0] == c[0] {
      StringLessTransitive(a[1..], b[1..], c[1..]);
    }
  }

  ghost predicate StrictOrder<R(!new)>(lt: (R, R) -> bool) {
    && (forall a :: !lt(a, a))
    && (forall a, b, c :: lt(a, b) && lt(b, c) ==> lt(a, c))
    && (forall a, b :: a == b || lt(a, b) || lt(b, a))
  }

  /** Both orders are strict and total: a list has one sorted arrangement. */
  lemma RankOrders()
    ensures StrictOrder(ThreadRankLess) && StrictOrder(MsgRankLess)
  {
    forall a: string, b: string
      ensures !StringLess(a, a) && (a == b || StringLess(a, b) || StringLess(b, a))
    {
      StringLessIrreflexive(a);
      StringLessTotal(a, b);
    }
    forall a: string, b: string, c: string | StringLess(a, b) && StringLess(b, c)
      ensures StringLess(a, c)
    {
      StringLessTransitive(a, b, c);
    }
  }

  /** The strings agree up to k, where a ends or has the smaller character. */
  predicate SortsAt(a: string, b: string, k: nat) {
    k <= |a| && k < |b| && a[..k] == b[..k] && (k == |a| || a[k] < b[k])
  }

  /** StringLess is the order of a dictionary. */
  lemma {:induction false} StringLessIs(a: string, b: string)
    ensures StringLess(a, b) <==> exists k: nat :: SortsAt(a, b, k)
  {
    if a == "" && b != "" {
      assert SortsAt(a, b, 0);
    } else if a != "" && b != "" {
      if a[0] < b[0] {
        assert SortsAt(a, b, 0);
      } else if a[0] == b[0] {
        StringLessIs(a[1..], b[1..]);
        if k: nat :| SortsAt(a[1..], b[1..], k) {
          assert a[..k + 1] == [a[0]] + a[1..][..k] && b[..k + 1] == [b[0]] + b[1..][..k];
          assert SortsAt(a, b, k + 1);
        }
        if k: nat :| SortsAt(a, b, k) {
          assert k > 0 && a[1..][..k - 1] == a[..k][1..] && b[1..][..k - 1] == b[..k][1..];
          assert SortsAt(a[1..], b[1..], k - 1);
        }
      } else {
        forall k: nat ensures !SortsAt(a, b, k) {
          assert k > 0 && k <= |a| && k <= |b| ==> a[..k][0] == a[0] && b[..k][0] == b[0];
        }
      }
    }
  }

  /** Of two threads the newer one comes first, of two messages the older one; equally old ones come
      in the order of their ids. */
  lemma RankDirections(a: Rank, b: Rank)
    ensures a.date > b.date ==> ThreadRankLess(a, b) && MsgRankLess(b, a)
    ensures a.date == b.date ==> (ThreadRankLess(a, b) <==> exists k: nat :: SortsAt(a.id, b.id, k))
    ensures a.date == b.date ==> (MsgRankLess(a, b) <==> exists k: nat :: SortsAt(a.id, b.id, k))
  {
    StringLessIs(a.id, b.id);
  }
}
