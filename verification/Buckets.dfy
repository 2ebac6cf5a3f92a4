/** What a chained hash table holds, bucket by bucket: the head's item first,
    then the chain in pointer order.  The operations here are the specification
    of the pointer code in `HashTable`, and their laws are proved here. */
module Buckets {
  import opened Wrappers
  import opened KeyHash

  // Keys and data live outside the table; a datum is known by its address.
  type Data = int

  datatype Item = Item(key: Key, data: Data)

  type Bucket = seq<Item>
  type Table = seq<Bucket>

  function Empty(size: nat): (t: Table)
    ensures |t| == size
  {
    seq(size, _ => [])
  }

  /** Position of the first item with the key, or the length when there is none. */
  function FirstMatch(b: Bucket, key: Key): (j: nat)
    ensures j <= |b|
    ensures j < |b| ==> b[j].key == key
    ensures forall i :: 0 <= i < j ==> b[i].key != key
  {
    if b == [] || b[0].key == key then 0 else 1 + FirstMatch(b[1..], key)
  }

  predicate HasKey(b: Bucket, key: Key) {
    FirstMatch(b, key) < |b|
  }

  /** A new item takes the head slot when that is free and otherwise the front of the chain. */
  function Push(b: Bucket, x: Item): Bucket {
    if b == [] then [x] else [b[0], x] + b[1..]
  }

  function RemoveAt(b: Bucket, j: nat): Bucket
    requires j < |b|
  {
    b[..j] + b[j + 1..]
  }

  predicate Refused(t: Table, dups: bool, key: Key)
    requires |t| > 0
  {
    !dups && HasKey(t[Index(key, |t|)], key)
  }

  function Insert(t: Table, dups: bool, x: Item): (r: Table)
    requires |t| > 0
    ensures |r| == |t|
  {
    var h := Index(x.key, |t|);
    if Refused(t, dups, x.key) then t else t[h := Push(t[h], x)]
  }

  function Locate(t: Table, key: Key): (r: Option<Data>)
    requires |t| > 0
  {
    var b := t[Index(key, |t|)];
    var j := FirstMatch(b, key);
    if j < |b| then Some(b[j].data) else None
  }

  function Delete(t: Table, key: Key): (r: Table)
    requires |t| > 0
    ensures |r| == |t|
  {
    var h := Index(key, |t|);
    var j := FirstMatch(t[h], key);
    if j < |t[h]| then t[h := RemoveAt(t[h], j)] else t
  }

  /** The address `ht_delete_key` hands back: that of the record it unlinks. */
  function DeleteReturns(t: Table, key: Key): (r: Option<Data>)
    requires |t| > 0
  {
    var b := t[Index(key, |t|)];
    var j := FirstMatch(b, key);
    if j == |b| then None else if j == 0 && |b| > 1 then Some(b[1].data) else Some(b[j].data)
  }

  /** The order in which a resize visits a table: last bucket first, each head before its chain. */
  function Visit(t: Table): seq<Item> {
    if t == [] then [] else t[|t| - 1] + Visit(t[..|t| - 1])
  }

  function InsertAll(t: Table, dups: bool, xs: seq<Item>): (r: Table)
    requires |t| > 0
    ensures |r| == |t|
    decreases |xs|
  {
    if xs == [] then t else InsertAll(Insert(t, dups, xs[0]), dups, xs[1..])
  }

  /** The new table of a resize; size zero is refused. */
  function Resize(t: Table, dups: bool, size: nat): (r: Table)
    requires |t| > 0
    ensures |r| > 0
  {
    if size == 0 then t else InsertAll(Empty(size), dups, Visit(t))
  }

  /** The whole of `ht_insert_key`: an insertion that lengthened a chain doubles the
      table when implicit resizing is on and the load threshold was crossed. */
  function InsertKey(t: Table, dups: bool, implicitResize: bool, crossed: bool, x: Item): (r: Table)
    requires |t| > 0
    ensures |r| > 0
  {
    var r := Insert(t, dups, x);
    if Regrows(t, dups, implicitResize, crossed, x.key) then Resize(r, dups, 2 * |t|) else r
  }

  predicate Regrows(t: Table, dups: bool, implicitResize: bool, crossed: bool, key: Key)
    requires |t| > 0
  {
    !Refused(t, dups, key) && t[Index(key, |t|)] != [] && implicitResize && crossed
  }

  /** Number of items that sit in chain records rather than in head slots. */
  function Chained(t: Table): nat {
    if t == [] then 0 else ChainLength(t[|t| - 1]) + Chained(t[..|t| - 1])
  }

  function ChainLength(b: Bucket): nat {
    if b == [] then 0 else |b| - 1
  }

  // ---------- Table invariants ----------

  ghost predicate WellPlaced(t: Table) {
    |t| > 0 && forall h, j :: 0 <= h < |t| && 0 <= j < |t[h]| ==> Index(t[h][j].key, |t|) == h
  }

  ghost predicate DistinctKeys(b: Bucket) {
    forall i, j :: 0 <= i < j < |b| ==> b[i].key != b[j].key
  }

  ghost predicate Unique(t: Table) {
    forall h :: 0 <= h < |t| ==> DistinctKeys(t[h])
  }

  /** What every reachable table satisfies. */
  ghost predicate Good(t: Table, dups: bool) {
    WellPlaced(t) && (!dups ==> Unique(t))
  }

  lemma EmptyIsGood(size: nat, dups: bool)
    requires size > 0
    ensures Good(Empty(size), dups)
    ensures Bag(Empty(size)) == multiset{}
    ensures Chained(Empty(size)) == 0
  {
    EmptyFacts(size);
  }

  lemma {:induction false} EmptyFacts(size: nat)
    ensures Visit(Empty(size)) == []
    ensures Chained(Empty(size)) == 0
  {
    if size > 0 {
      assert Empty(size)[..size - 1] == Empty(size - 1);
      EmptyFacts(size - 1);
    }
  }

  lemma InsertIsGood(t: Table, dups: bool, x: Item)
    requires Good(t, dups)
    ensures Good(Insert(t, dups, x), dups)
  {
    if !dups && !Refused(t, dups, x.key) {
      var b := t[Index(x.key, |t|)];
      assert forall i :: 0 <= i < |b| ==> b[i].key != x.key;
      assert DistinctKeys(Push(b, x));
    }
  }

  lemma DeleteIsGood(t: Table, dups: bool, key: Key)
    requires Good(t, dups)
    ensures Good(Delete(t, key), dups)
  {
  }

  lemma {:induction false} InsertAllIsGood(t: Table, dups: bool, xs: seq<Item>)
    requires Good(t, dups)
    ensures Good(InsertAll(t, dups, xs), dups)
    decreases |xs|
  {
    if xs != [] {
      InsertIsGood(t, dups, xs[0]);
      InsertAllIsGood(Insert(t, dups, xs[0]), dups, xs[1..]);
    }
  }

  lemma ResizeIsGood(t: Table, dups: bool, size: nat)
    requires Good(t, dups)
    ensures Good(Resize(t, dups, size), dups)
  {
    if size > 0 {
      EmptyIsGood(size, dups);
      InsertAllIsGood(Empty(size), dups, Visit(t));
    }
  }

  // ---------- Conservation: the multiset of items ----------

  ghost function Bag(t: Table): multiset<Item> {
    multiset(Visit(t))
  }

  lemma Cancel(a: multiset<Item>, b: multiset<Item>, c: multiset<Item>, d: multiset<Item>)
    requires a + c == b + (c + d)
    ensures a == b + d
  {
    forall x
      ensures a[x] == (b + d)[x]
    {
      assert (a + c)[x] == (b + (c + d))[x];
    }
  }

  lemma Exchange(r: multiset<Item>, a: multiset<Item>, b: multiset<Item>, c: multiset<Item>, d: multiset<Item>)
    requires a + c == b + d
    ensures (r + a) + c == (r + b) + d
  {
    assert (r + a) + c == r + (a + c);
    assert (r + b) + d == r + (b + d);
  }

  lemma VisitLast(t: Table)
    requires t != []
    ensures Bag(t) == multiset(t[|t| - 1]) + Bag(t[..|t| - 1])
  {
  }

  lemma ChainedLast(t: Table)
    requires t != []
    ensures Chained(t) == ChainLength(t[|t| - 1]) + Chained(t[..|t| - 1])
  {
  }

  lemma SwapEnds(a: multiset<Item>, r: multiset<Item>, b: multiset<Item>)
    ensures (a + r) + b == (b + r) + a
  {
  }

  /** Replacing one bucket exchanges exactly its items and its chain length. */
  lemma {:induction false} ReplaceBucket(t: Table, h: nat, b: Bucket)
    requires h < |t|
    ensures Bag(t[h := b]) + multiset(t[h]) == Bag(t) + multiset(b)
    ensures Chained(t[h := b]) + ChainLength(t[h]) == Chained(t) + ChainLength(b)
    decreases |t|
  {
    var n := |t| - 1;
    VisitLast(t);
    VisitLast(t[h := b]);
    ChainedLast(t);
    ChainedLast(t[h := b]);
    hide Bag, Chained, ChainLength;
    if h == n {
      assert t[h := b][..n] == t[..n];
      SwapEnds(multiset(b), Bag(t[..n]), multiset(t[n]));
    } else {
      assert t[h := b][..n] == t[..n][h := b];
      ReplaceBucket(t[..n], h, b);
      Exchange(multiset(t[n]), Bag(t[..n][h := b]), Bag(t[..n]), multiset(t[h]), multiset(b));
    }
  }

  /** Insertion never shortens the chains, deletion never lengthens them. */
  lemma ChainedGrows(t: Table, dups: bool, x: Item)
    requires |t| > 0
    ensures Chained(Insert(t, dups, x)) >= Chained(t)
  {
    if !Refused(t, dups, x.key) {
      var h := Index(x.key, |t|);
      ReplaceBucket(t, h, Push(t[h], x));
    }
  }

  /** The table is rebuilt exactly when implicit resizing is on, the threshold was crossed
      and the insertion lengthened a chain. */
  lemma RegrowsExactly(t: Table, dups: bool, implicitResize: bool, crossed: bool, x: Item)
    requires |t| > 0
    ensures Regrows(t, dups, implicitResize, crossed, x.key)
            <==> implicitResize && crossed && Chained(Insert(t, dups, x)) > Chained(t)
  {
    var h := Index(x.key, |t|);
    ReplaceBucket(t, h, Push(t[h], x));
  }

  lemma ChainedShrinks(t: Table, key: Key)
    requires |t| > 0
    ensures Chained(Delete(t, key)) <= Chained(t)
  {
    var h := Index(key, |t|);
    var j := FirstMatch(t[h], key);
    if j < |t[h]| {
      ReplaceBucket(t, h, RemoveAt(t[h], j));
    }
  }

  lemma PushBag(b: Bucket, x: Item)
    ensures multiset(Push(b, x)) == multiset(b) + multiset{x}
  {
    if b != [] {
      assert b == [b[0]] + b[1..];
      assert Push(b, x) == [b[0]] + [x] + b[1..];
    }
  }

  lemma RemoveBag(b: Bucket, j: nat)
    requires j < |b|
    ensures multiset(b) == multiset(RemoveAt(b, j)) + multiset{b[j]}
  {
    assert b == b[..j] + [b[j]] + b[j + 1..];
  }

  /** Insert adds exactly the new item, or nothing when it refuses. */
  lemma InsertBag(t: Table, dups: bool, x: Item)
    requires |t| > 0
    ensures Bag(Insert(t, dups, x)) == if Refused(t, dups, x.key) then Bag(t) else Bag(t) + multiset{x}
  {
    var h := Index(x.key, |t|);
    if !Refused(t, dups, x.key) {
      ReplaceBucket(t, h, Push(t[h], x));
      PushBag(t[h], x);
      Cancel(Bag(Insert(t, dups, x)), Bag(t), multiset(t[h]), multiset{x});
    }
  }

  /** Delete removes exactly one item with the key, or nothing when there is none. */
  lemma DeleteBag(t: Table, key: Key)
    requires |t| > 0
    ensures var h := Index(key, |t|); var j := FirstMatch(t[h], key);
            if j < |t[h]|
            then t[h][j].key == key && Bag(t) == Bag(Delete(t, key)) + multiset{t[h][j]}
            else Delete(t, key) == t
  {
    var h := Index(key, |t|);
    var j := FirstMatch(t[h], key);
    if j < |t[h]| {
      ReplaceBucket(t, h, RemoveAt(t[h], j));
      RemoveBag(t[h], j);
      Cancel(Bag(t), Bag(Delete(t, key)), multiset(RemoveAt(t[h], j)), multiset{t[h][j]});
    }
  }

  lemma {:induction false} InVisit(t: Table, x: Item)
    ensures x in Visit(t) <==> exists h :: 0 <= h < |t| && x in t[h]
    decreases |t|
  {
    if t != [] {
      var n := |t| - 1;
      InVisit(t[..n], x);
      assert x in Visit(t) <==> x in t[n] || x in Visit(t[..n]);
      hide Visit;
      assert forall h :: 0 <= h < n ==> t[..n][h] == t[h];
    }
  }

  ghost predicate DistinctSeq(xs: seq<Item>) {
    forall i, j :: 0 <= i < j < |xs| ==> xs[i].key != xs[j].key
  }

  /** In a table without duplicates the whole visit has distinct keys. */
  lemma {:induction false} VisitDistinct(t: Table, size: nat)
    requires size > 0
    requires forall h, j :: 0 <= h < |t| && 0 <= j < |t[h]| ==> Index(t[h][j].key, size) == h
    requires Unique(t)
    ensures DistinctSeq(Visit(t))
    decreases |t|
  {
    if t != [] {
      var n := |t| - 1;
      VisitDistinct(t[..n], size);
      forall x | x in Visit(t[..n])
        ensures Index(x.key, size) < n
      {
        InVisit(t[..n], x);
      }
      assert DistinctKeys(t[n]);
    }
  }

  lemma SplitFirst(xs: seq<Item>, a: multiset<Item>)
    requires xs != []
    ensures (a + multiset{xs[0]}) + multiset(xs[1..]) == a + multiset(xs)
  {
    assert xs == [xs[0]] + xs[1..];
  }

  ghost predicate AllFresh(t: Table, dups: bool, xs: seq<Item>)
    requires |t| > 0
  {
    !dups ==> DistinctSeq(xs) && forall x :: x in xs ==> !Refused(t, dups, x.key)
  }

  lemma AllFreshAfter(t: Table, dups: bool, xs: seq<Item>)
    requires |t| > 0 && xs != [] && AllFresh(t, dups, xs)
    ensures !Refused(t, dups, xs[0].key)
    ensures AllFresh(Insert(t, dups, xs[0]), dups, xs[1..])
  {
    if !dups {
      forall x | x in xs[1..]
        ensures !Refused(Insert(t, dups, xs[0]), dups, x.key)
      {
        NotRefusedAfter(t, dups, xs[0], x.key);
      }
    }
  }

  /** Inserting fresh distinct keys is never refused, so nothing is lost. */
  lemma {:induction false} InsertAllBag(t: Table, dups: bool, xs: seq<Item>)
    requires |t| > 0 && AllFresh(t, dups, xs)
    ensures Bag(InsertAll(t, dups, xs)) == Bag(t) + multiset(xs)
    decreases |xs|
  {
    if xs != [] {
      InsertBag(t, dups, xs[0]);
      AllFreshAfter(t, dups, xs);
      InsertAllBag(Insert(t, dups, xs[0]), dups, xs[1..]);
      SplitFirst(xs, Bag(t));
    }
  }

  lemma NotRefusedAfter(t: Table, dups: bool, x: Item, key: Key)
    requires |t| > 0 && key != x.key && !Refused(t, dups, key)
    ensures !Refused(Insert(t, dups, x), dups, key)
  {
    var h := Index(key, |t|);
    var b := Insert(t, dups, x)[h];
    if !dups {
      var j := FirstMatch(b, key);
      assert b == t[h] || b == Push(t[h], x);
      assert forall i :: 0 <= i < |t[h]| ==> t[h][i].key != key;
      assert forall i :: 0 <= i < |b| ==> b[i].key != key;
    }
  }

  /** A resize to any positive size keeps the multiset of items, duplicates or not. */
  lemma ResizeBag(t: Table, dups: bool, size: nat)
    requires Good(t, dups)
    ensures Bag(Resize(t, dups, size)) == Bag(t)
  {
    if size > 0 {
      EmptyIsGood(size, dups);
      if !dups {
        VisitDistinct(t, |t|);
      }
      InsertAllBag(Empty(size), dups, Visit(t));
    }
  }

  /** Each insertion a resize makes succeeds: no prefix of the visit holds a later key. */
  lemma ResizeNeverRefused(t: Table, dups: bool, size: nat, k: nat)
    requires Good(t, dups) && size > 0 && k < |Visit(t)|
    ensures !Refused(InsertAll(Empty(size), dups, Visit(t)[..k]), dups, Visit(t)[k].key)
  {
    if !dups {
      VisitDistinct(t, |t|);
      var xs, key := Visit(t)[..k], Visit(t)[k].key;
      assert forall x :: x in xs ==> x.key != key;
      InsertAllNotRefused(Empty(size), dups, xs, key);
    }
  }

  lemma {:induction false} InsertAllNotRefused(t: Table, dups: bool, xs: seq<Item>, key: Key)
    requires |t| > 0 && !Refused(t, dups, key)
    requires forall x :: x in xs ==> x.key != key
    ensures !Refused(InsertAll(t, dups, xs), dups, key)
    decreases |xs|
  {
    if xs != [] {
      NotRefusedAfter(t, dups, xs[0], key);
      InsertAllNotRefused(Insert(t, dups, xs[0]), dups, xs[1..], key);
    }
  }

  lemma {:induction false} InsertAllSnoc(t: Table, dups: bool, xs: seq<Item>, x: Item)
    requires |t| > 0
    ensures InsertAll(t, dups, xs + [x]) == Insert(InsertAll(t, dups, xs), dups, x)
    decreases |xs|
  {
    if xs == [] {
      assert xs + [x] == [x];
      assert [x][1..] == [];
    } else {
      assert (xs + [x])[1..] == xs[1..] + [x];
      InsertAllSnoc(Insert(t, dups, xs[0]), dups, xs[1..], x);
    }
  }

  // ---------- Resizing to the same size ----------

  /** The head stays and the chain behind it is turned round. */
  function TurnChain(b: Bucket): (r: Bucket)
    ensures |r| == |b|
  {
    if b == [] then [] else [b[0]] + Reverse(b[1..])
  }

  function TurnAll(t: Table): (r: Table)
    ensures |r| == |t|
  {
    seq(|t|, h requires 0 <= h < |t| => TurnChain(t[h]))
  }

  /** Pushing the items of one bucket, in order, into an empty bucket. */
  function PushAll(b: Bucket, xs: Bucket): Bucket
    decreases |xs|
  {
    if xs == [] then b else PushAll(Push(b, xs[0]), xs[1..])
  }

  lemma {:induction false} PushAllBehindHead(x: Item, done: Bucket, xs: Bucket)
    ensures PushAll([x] + done, xs) == [x] + Reverse(xs) + done
    decreases |xs|
  {
    var none: Bucket := [];
    assert Reverse(none) == none && [x] + none == [x];
    hide Reverse;
    if xs != [] {
      ReverseFirst(xs);
      assert Push([x] + done, xs[0]) == [x] + ([xs[0]] + done);
      PushAllBehindHead(x, [xs[0]] + done, xs[1..]);
      hide PushAll;
      Rebracket([x], Reverse(xs[1..]), [xs[0]], done);
    }
  }

  lemma Rebracket<T>(a: seq<T>, b: seq<T>, c: seq<T>, d: seq<T>)
    ensures (a + b) + (c + d) == (a + (b + c)) + d
  {
  }

  /** Where the items of bucket `h` begin in the visit: behind those of all later buckets. */
  function Later(t: Table, h: nat): nat
    requires h < |t|
    decreases |t|
  {
    if h == |t| - 1 then 0 else |t[|t| - 1]| + Later(t[..|t| - 1], h)
  }

  /** A resize visits later buckets first, and each bucket in its order. */
  lemma {:induction false} VisitAt(t: Table, h: nat, j: nat)
    requires h < |t| && j < |t[h]|
    ensures Later(t, h) + j < |Visit(t)| && Visit(t)[Later(t, h) + j] == t[h][j]
    decreases |t|
  {
    var n := |t| - 1;
    if h < n {
      VisitAt(t[..n], h, j);
    }
  }

  /** The items of some list that belong to bucket `h`. */
  function ForBucket(xs: seq<Item>, size: nat, h: nat): seq<Item>
    requires size > 0
  {
    if xs == [] then [] else (if Index(xs[0].key, size) == h then [xs[0]] else []) + ForBucket(xs[1..], size, h)
  }

  /** Each bucket of a rebuilt table: the first visited item of it stands in the head slot,
      the others behind it, the last visited first. */
  lemma ResizedBucket(t: Table, dups: bool, size: nat, h: nat)
    requires Good(t, dups) && 0 < size && h < size
    ensures |Resize(t, dups, size)| == size
    ensures Resize(t, dups, size)[h] == TurnChain(ForBucket(Visit(t), size, h))
  {
    forall k | 0 <= k < |Visit(t)|
      ensures !Refused(InsertAll(Empty(size), dups, Visit(t)[..k]), dups, Visit(t)[k].key)
    {
      ResizeNeverRefused(t, dups, size, k);
    }
    BucketOfAll(Empty(size), dups, Visit(t), h);
    PushAllTurns(ForBucket(Visit(t), size, h));
  }

  lemma {:induction false} BucketOfAll(t: Table, dups: bool, xs: seq<Item>, h: nat)
    requires h < |t|
    requires forall k {:trigger xs[k]} :: 0 <= k < |xs| ==> !Refused(InsertAll(t, dups, xs[..k]), dups, xs[k].key)
    ensures InsertAll(t, dups, xs)[h] == PushAll(t[h], ForBucket(xs, |t|, h))
    decreases |xs|
  {
    if xs != [] {
      var t' := Insert(t, dups, xs[0]);
      assert xs[..0] == [];
      assert !Refused(t, dups, xs[0].key);
      assert t' == t[Index(xs[0].key, |t|) := Push(t[Index(xs[0].key, |t|)], xs[0])];
      hide Refused, Insert, Push, Index;
      forall k | 0 <= k < |xs[1..]|
        ensures !Refused(InsertAll(t', dups, xs[1..][..k]), dups, xs[1..][k].key)
      {
        assert xs[1..][k] == xs[k + 1];
        assert xs[..k + 1][1..] == xs[1..][..k] && xs[..k + 1][0] == xs[0];
        assert InsertAll(t, dups, xs[..k + 1]) == InsertAll(t', dups, xs[1..][..k]);
      }
      BucketOfAll(t', dups, xs[1..], h);
      var rest := ForBucket(xs[1..], |t|, h);
      assert [] + rest == rest;
      assert ([xs[0]] + rest)[1..] == rest;
    }
  }

  lemma PushAllTurns(b: Bucket)
    ensures PushAll([], b) == TurnChain(b)
  {
    if b != [] {
      assert [b[0]] + [] == [b[0]];
      PushAllBehindHead(b[0], [], b[1..]);
      assert [b[0]] + Reverse(b[1..]) + [] == TurnChain(b);
    }
  }

  lemma NoMatch(b: Bucket, key: Key)
    requires forall y :: y in b ==> y.key != key
    ensures FirstMatch(b, key) == |b|
  {
    assert forall i :: 0 <= i < |b| ==> b[i] in b;
  }

  /** Items that all belong to one bucket only change that bucket. */
  lemma {:induction false} InsertAllInBucket(t: Table, dups: bool, h: nat, xs: Bucket)
    requires h < |t|
    requires forall x :: x in xs ==> Index(x.key, |t|) == h
    requires !dups ==> DistinctKeys(xs) && forall x, y :: x in xs && y in t[h] ==> x.key != y.key
    ensures InsertAll(t, dups, xs) == t[h := PushAll(t[h], xs)]
    decreases |xs|
  {
    if xs == [] {
      assert t[h := t[h]] == t;
    } else {
      var x := xs[0];
      assert Index(x.key, |t|) == h;
      if !dups {
        NoMatch(t[h], x.key);
        assert forall y :: y in Push(t[h], x) ==> y == x || y in t[h];
      }
      var t' := Insert(t, dups, x);
      assert t' == t[h := Push(t[h], x)];
      hide FirstMatch, Push, Insert, Index;
      InsertAllInBucket(t', dups, h, xs[1..]);
      assert t'[h := PushAll(t'[h], xs[1..])] == t[h := PushAll(t[h], xs)];
    }
  }

  lemma {:induction false} InsertAllConcat(t: Table, dups: bool, xs: seq<Item>, ys: seq<Item>)
    requires |t| > 0
    ensures InsertAll(t, dups, xs + ys) == InsertAll(InsertAll(t, dups, xs), dups, ys)
    decreases |xs|
  {
    if xs == [] {
      assert xs + ys == ys;
    } else {
      assert (xs + ys)[1..] == xs[1..] + ys;
      InsertAllConcat(Insert(t, dups, xs[0]), dups, xs[1..], ys);
    }
  }

  /** The first `n` buckets of `t` with their chains turned, the rest from `acc`. */
  function TurnedBelow(t: Table, n: nat, acc: Table): Table
    requires n <= |t| == |acc|
  {
    seq(|t|, h requires 0 <= h < |t| => if h < n then TurnChain(t[h]) else acc[h])
  }

  lemma TurnedStep(t: Table, n: nat, acc: Table)
    requires 0 < n <= |t| == |acc|
    ensures TurnedBelow(t, n - 1, acc[n - 1 := TurnChain(t[n - 1])]) == TurnedBelow(t, n, acc)
  {
    hide TurnChain;
  }

  lemma RebuildOne(t: Table, dups: bool, n: nat, acc: Table)
    requires Good(t, dups) && 0 < n <= |t| == |acc| && acc[n - 1] == []
    ensures InsertAll(acc, dups, Visit(t[..n])) == InsertAll(acc[n - 1 := TurnChain(t[n - 1])], dups, Visit(t[..n - 1]))
  {
    var b := t[n - 1];
    assert t[..n][..n - 1] == t[..n - 1];
    assert Visit(t[..n]) == b + Visit(t[..n - 1]);
    assert forall x :: x in b ==> Index(x.key, |t|) == n - 1;
    assert !dups ==> DistinctKeys(b);
    hide Visit, InsertAll, TurnChain, Good;
    InsertAllConcat(acc, dups, b, Visit(t[..n - 1]));
    InsertAllInBucket(acc, dups, n - 1, b);
    PushAllTurns(b);
  }

  /** The part of the rebuild that walks the first `n` buckets of `t`. */
  lemma {:induction false} RebuildPrefix(t: Table, dups: bool, n: nat, acc: Table)
    requires Good(t, dups) && n <= |t| == |acc|
    requires forall h :: 0 <= h < n ==> acc[h] == []
    ensures InsertAll(acc, dups, Visit(t[..n])) ==
            TurnedBelow(t, n, acc)
    decreases n
  {
    if n == 0 {
      assert t[..0] == [];
    } else {
      RebuildOne(t, dups, n, acc);
      TurnedStep(t, n, acc);
      hide Visit, InsertAll, TurnChain, Good, TurnedBelow;
      RebuildPrefix(t, dups, n - 1, acc[n - 1 := TurnChain(t[n - 1])]);
    }
  }

  /** At an unchanged size every head stays in place and every chain is reversed. */
  lemma ResizeSameSize(t: Table, dups: bool)
    requires Good(t, dups)
    ensures Resize(t, dups, |t|) == TurnAll(t)
  {
    assert t[..|t|] == t;
    RebuildPrefix(t, dups, |t|, Empty(|t|));
  }

  /** Two resizes at an unchanged size restore every chain exactly. */
  lemma ResizeTwiceRestores(t: Table, dups: bool)
    requires Good(t, dups)
    ensures Resize(Resize(t, dups, |t|), dups, |t|) == t
  {
    ResizeSameSize(t, dups);
    ResizeIsGood(t, dups, |t|);
    ResizeSameSize(TurnAll(t), dups);
    forall h | 0 <= h < |t|
      ensures TurnChain(TurnChain(t[h])) == t[h]
    {
      if t[h] != [] {
        assert TurnChain(t[h])[1..] == Reverse(t[h][1..]);
        ReverseTwice(t[h][1..]);
      }
    }
  }

  // ---------- What delete hands back ----------

  /** The documented return value of delete: the deleted item's own data. */
  function DeletedData(t: Table, key: Key): (r: Option<Data>)
    requires |t| > 0
  {
    Locate(t, key)
  }

  /** Delete returns the deleted item's data exactly when it does not promote a
      successor with other data into the head slot. */
  lemma DeleteReturnsItsData(t: Table, key: Key)
    requires |t| > 0
    ensures DeleteReturns(t, key) == DeletedData(t, key)
       <==> var b := t[Index(key, |t|)];
            !(|b| > 1 && b[0].key == key && b[0].data != b[1].data)
  {
  }

  /** Two keys in the only bucket: deleting the head's key hands back the other datum. */
  lemma DeleteReturnsOther(k1: Key, k2: Key)
    requires k1 != k2
    ensures var t := Insert(Insert(Empty(1), false, Item(k1, 10)), false, Item(k2, 20));
            DeletedData(t, k1) == Some(10) && DeleteReturns(t, k1) == Some(20)
  {
    var t0 := Empty(1);
    assert t0[0] == [];
    var t1 := Insert(t0, false, Item(k1, 10));
    assert t1[0] == [Item(k1, 10)];
    assert FirstMatch(t1[0], k2) == 1;
    var t2 := Insert(t1, false, Item(k2, 20));
    assert t2[0] == [Item(k1, 10), Item(k2, 20)];
  }
}
