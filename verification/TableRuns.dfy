/** Whole runs of the hash table against a plain map. */
module TableRuns {
  import opened Wrappers
  import opened KeyHash
  import opened Buckets
  import Tables = HashTable

  datatype Op =
    | Put(key: Key, data: Data, crossed: bool)
    | Get(key: Key)
    | Remove(key: Key)
    | Grow(size: nat)

  datatype Outcome =
    | Code(code: int)
    | Found(data: Option<Data>)
    | Deleted(found: bool)

  const EEXIST: int := -1
  const EINVAL: int := -1

  function StepTable(t: Table, implicitResize: bool, op: Op): (r: (Table, Outcome))
    requires |t| > 0
    ensures |r.0| > 0
  {
    match op
    case Put(key, data, crossed) =>
      (InsertKey(t, false, implicitResize, crossed, Item(key, data)),
       Code(if Refused(t, false, key) then EEXIST else 0))
    case Get(key) => (t, Found(Locate(t, key)))
    case Remove(key) => (Delete(t, key), Deleted(DeleteReturns(t, key).Some?))
    case Grow(size) => (Resize(t, false, size), Code(if size == 0 then EINVAL else 0))
  }

  function StepMap(m: map<Key, Data>, op: Op): (map<Key, Data>, Outcome) {
    match op
    case Put(key, data, _) => if key in m then (m, Code(EEXIST)) else (m[key := data], Code(0))
    case Get(key) => (m, Found(if key in m then Some(m[key]) else None))
    case Remove(key) => (m - {key}, Deleted(key in m))
    case Grow(size) => (m, Code(if size == 0 then EINVAL else 0))
  }

  function RunTable(t: Table, implicitResize: bool, ops: seq<Op>): (r: (Table, seq<Outcome>))
    requires |t| > 0
    ensures |r.0| > 0
    decreases |ops|
  {
    if ops == [] then (t, []) else
      var (t', o) := StepTable(t, implicitResize, ops[0]);
      var (t'', os) := RunTable(t', implicitResize, ops[1..]);
      (t'', [o] + os)
  }

  function RunMap(m: map<Key, Data>, ops: seq<Op>): (map<Key, Data>, seq<Outcome>)
    decreases |ops|
  {
    if ops == [] then (m, []) else
      var (m', o) := StepMap(m, ops[0]);
      var (m'', os) := RunMap(m', ops[1..]);
      (m'', [o] + os)
  }

  /** The table holds exactly the pairs of the map. */
  ghost predicate Represents(t: Table, m: map<Key, Data>) {
    && Good(t, false)
    && forall x: Item :: x in Bag(t) <==> x.key in m && m[x.key] == x.data
  }

  /** Locate finds precisely the pairs that are somewhere in the table. */
  lemma LocateIsMembership(t: Table, key: Key, data: Data)
    requires Good(t, false)
    ensures Locate(t, key) == Some(data) <==> Item(key, data) in Bag(t)
  {
    var h := Index(key, |t|);
    var j := FirstMatch(t[h], key);
    InVisit(t, Item(key, data));
    if Item(key, data) in Visit(t) {
      var g :| 0 <= g < |t| && Item(key, data) in t[g];
      var i :| 0 <= i < |t[g]| && t[g][i] == Item(key, data);
      assert Index(t[g][i].key, |t|) == g;
      assert DistinctKeys(t[h]);
      assert i == j;
    } else if j < |t[h]| {
      assert t[h][j] in t[h];
    }
  }

  lemma LocateReadsMap(t: Table, m: map<Key, Data>, key: Key)
    requires Represents(t, m)
    ensures Locate(t, key) == if key in m then Some(m[key]) else None
    ensures Refused(t, false, key) <==> key in m
  {
    if key in m {
      LocateIsMembership(t, key, m[key]);
      assert Item(key, m[key]) in Bag(t);
    }
    match Locate(t, key)
    case Some(d) => LocateIsMembership(t, key, d);
    case None =>
  }

  lemma InsertRepresents(t: Table, m: map<Key, Data>, x: Item)
    requires Represents(t, m)
    ensures Represents(Insert(t, false, x), if x.key in m then m else m[x.key := x.data])
  {
    LocateReadsMap(t, m, x.key);
    InsertIsGood(t, false, x);
    InsertBag(t, false, x);
    hide Good, Refused, Insert, Locate, Bag;
  }

  lemma ResizeRepresents(t: Table, m: map<Key, Data>, size: nat)
    requires Represents(t, m)
    ensures Represents(Resize(t, false, size), m)
  {
    ResizeIsGood(t, false, size);
    ResizeBag(t, false, size);
  }

  /** Without duplicates no item with a deleted key is left. */
  lemma DeletedIsGone(t: Table, key: Key)
    requires Good(t, false)
    ensures Locate(Delete(t, key), key) == None
  {
    var h := Index(key, |t|);
    var j := FirstMatch(t[h], key);
    assert DistinctKeys(t[h]);
    if j < |t[h]| {
      var b := RemoveAt(t[h], j);
      assert forall i :: 0 <= i < |b| ==> b[i] == t[h][if i < j then i else i + 1];
      assert forall i :: 0 <= i < |b| ==> b[i].key != key;
    }
  }

  lemma DeleteKeepsOthers(t: Table, key: Key, x: Item)
    requires |t| > 0 && x.key != key
    ensures x in Bag(Delete(t, key)) <==> x in Bag(t)
  {
    DeleteBag(t, key);
  }

  lemma DeleteRepresents(t: Table, m: map<Key, Data>, key: Key)
    requires Represents(t, m)
    ensures Represents(Delete(t, key), m - {key})
  {
    DeleteIsGood(t, false, key);
    forall x: Item
      ensures x in Bag(Delete(t, key)) <==> x.key in m - {key} && (m - {key})[x.key] == x.data
    {
      if x.key == key {
        DeletedIsGone(t, key);
        LocateIsMembership(Delete(t, key), key, x.data);
      } else {
        DeleteKeepsOthers(t, key, x);
      }
    }
  }

  lemma StepRefines(t: Table, implicitResize: bool, m: map<Key, Data>, op: Op)
    requires Represents(t, m)
    ensures Represents(StepTable(t, implicitResize, op).0, StepMap(m, op).0)
    ensures StepTable(t, implicitResize, op).1 == StepMap(m, op).1
  {
    match op
    case Put(key, data, crossed) =>
      LocateReadsMap(t, m, key);
      InsertRepresents(t, m, Item(key, data));
      ResizeRepresents(Insert(t, false, Item(key, data)), StepMap(m, op).0, 2 * |t|);
    case Get(key) => LocateReadsMap(t, m, key);
    case Remove(key) =>
      LocateReadsMap(t, m, key);
      DeleteRepresents(t, m, key);
    case Grow(size) => ResizeRepresents(t, m, size);
  }

  lemma {:induction false} RunRefines(t: Table, implicitResize: bool, m: map<Key, Data>, ops: seq<Op>)
    requires Represents(t, m)
    ensures Represents(RunTable(t, implicitResize, ops).0, RunMap(m, ops).0)
    ensures RunTable(t, implicitResize, ops).1 == RunMap(m, ops).1
    decreases |ops|
  {
    if ops != [] {
      StepRefines(t, implicitResize, m, ops[0]);
      RunRefines(StepTable(t, implicitResize, ops[0]).0, implicitResize, StepMap(m, ops[0]).0, ops[1..]);
    }
  }

  /** Without duplicates, every run from a created table answers as a map does
      and ends holding exactly the map's pairs. */
  lemma TableIsAMap(size: nat, implicitResize: bool, ops: seq<Op>)
    requires size > 0
    ensures RunTable(Empty(size), implicitResize, ops).1 == RunMap(map[], ops).1
    ensures Represents(RunTable(Empty(size), implicitResize, ops).0, RunMap(map[], ops).0)
  {
    EmptyIsGood(size, false);
    RunRefines(Empty(size), implicitResize, map[], ops);
  }

  // ---------- Objects, and their overflow slabs ----------

  /** The largest number of chained items since the last rebuild, kept step by step. */
  function StepPeak(t: Table, implicitResize: bool, op: Op, peak: nat): nat
    requires |t| > 0
  {
    var chained := Chained(StepTable(t, implicitResize, op).0);
    if Rebuilds(t, implicitResize, op) then chained else if peak < chained then chained else peak
  }

  /** The operation replaces the table by a new one. */
  predicate Rebuilds(t: Table, implicitResize: bool, op: Op)
    requires |t| > 0
  {
    match op
    case Put(key, _, crossed) => Regrows(t, false, implicitResize, crossed, key)
    case Grow(size) => size > 0
    case _ => false
  }

  /** The table after the first `k` operations. */
  function After(t: Table, implicitResize: bool, ops: seq<Op>, k: nat): (r: Table)
    requires |t| > 0 && k <= |ops|
    ensures |r| > 0
  {
    if k == 0 then t else StepTable(After(t, implicitResize, ops, k - 1), implicitResize, ops[k - 1]).0
  }

  function Peak(t: Table, implicitResize: bool, ops: seq<Op>, k: nat): nat
    requires |t| > 0 && k <= |ops|
  {
    if k == 0 then Chained(t)
    else StepPeak(After(t, implicitResize, ops, k - 1), implicitResize, ops[k - 1], Peak(t, implicitResize, ops, k - 1))
  }

  /** How many of the first `k` operations end with the last rebuild. */
  function LastRebuild(t: Table, implicitResize: bool, ops: seq<Op>, k: nat): (r: nat)
    requires |t| > 0 && k <= |ops|
    ensures r <= k
  {
    if k == 0 then 0
    else if Rebuilds(After(t, implicitResize, ops, k - 1), implicitResize, ops[k - 1]) then k
    else LastRebuild(t, implicitResize, ops, k - 1)
  }

  /** `n` is the largest number of items in chains at any point from the last rebuild on. */
  ghost predicate IsPeak(t: Table, implicitResize: bool, ops: seq<Op>, k: nat, n: nat)
    requires |t| > 0 && k <= |ops|
  {
    var r := LastRebuild(t, implicitResize, ops, k);
    && (forall i :: r <= i <= k ==> Chained(After(t, implicitResize, ops, i)) <= n)
    && (exists i :: r <= i <= k && Chained(After(t, implicitResize, ops, i)) == n)
  }

  lemma {:induction false} PeakIsPeak(t: Table, implicitResize: bool, ops: seq<Op>, k: nat)
    requires |t| > 0 && k <= |ops|
    ensures IsPeak(t, implicitResize, ops, k, Peak(t, implicitResize, ops, k))
  {
    hide Chained, StepTable, Rebuilds;
    if k == 0 {
      assert Chained(After(t, implicitResize, ops, 0)) == Chained(t);
    } else {
      PeakIsPeak(t, implicitResize, ops, k - 1);
      var n, r := Peak(t, implicitResize, ops, k - 1), LastRebuild(t, implicitResize, ops, k - 1);
      var i :| r <= i <= k - 1 && Chained(After(t, implicitResize, ops, i)) == n;
      assert Chained(After(t, implicitResize, ops, k)) == Chained(StepTable(After(t, implicitResize, ops, k - 1), implicitResize, ops[k - 1]).0);
    }
  }

  lemma {:induction false} RunIsAfter(t: Table, implicitResize: bool, ops: seq<Op>, k: nat)
    requires |t| > 0 && k <= |ops|
    ensures RunTable(t, implicitResize, ops[..k]).0 == After(t, implicitResize, ops, k)
    ensures k < |ops| ==> RunTable(t, implicitResize, ops[..k + 1]).1
                          == RunTable(t, implicitResize, ops[..k]).1 + [StepTable(After(t, implicitResize, ops, k), implicitResize, ops[k]).1]
    decreases k
  {
    hide StepTable;
    if k > 0 {
      RunIsAfter(t, implicitResize, ops, k - 1);
      assert ops[..k] == ops[..k - 1] + [ops[k - 1]];
      RunSnoc(t, implicitResize, ops[..k - 1], ops[k - 1]);
    }
    if k < |ops| {
      assert ops[..k + 1] == ops[..k] + [ops[k]];
      RunSnoc(t, implicitResize, ops[..k], ops[k]);
    }
  }

  lemma {:induction false} RunSnoc(t: Table, implicitResize: bool, ops: seq<Op>, op: Op)
    requires |t| > 0
    ensures var (t', os) := RunTable(t, implicitResize, ops);
            RunTable(t, implicitResize, ops + [op]) == (StepTable(t', implicitResize, op).0, os + [StepTable(t', implicitResize, op).1])
    decreases |ops|
  {
    hide StepTable;
    var (t', os) := RunTable(t, implicitResize, ops);
    if ops == [] {
      var (next, o) := StepTable(t, implicitResize, op);
      assert ops + [op] == [op] && [op][1..] == [];
      assert RunTable(next, implicitResize, []) == (next, []);
      assert [o] + [] == [o] && os + [o] == [o];
    } else {
      assert (ops + [op])[0] == ops[0] && (ops + [op])[1..] == ops[1..] + [op];
      var (next, o) := StepTable(t, implicitResize, ops[0]);
      RunSnoc(next, implicitResize, ops[1..], op);
      Concat3([o], RunTable(next, implicitResize, ops[1..]).1, [StepTable(t', implicitResize, op).1]);
    }
  }

  /** One operation on a table object: the outcome and the new contents are the
      specification's, and so is the peak. */
  method Apply(ht: Tables.HashTable, op: Op) returns (outcome: Outcome)
    requires ht.Valid() && !ht.dupsAllowed
    modifies ht, ht.entries
    ensures ht.Valid() && fresh(ht.entries - old(ht.entries))
    ensures |old(ht.items)| > 0
    ensures (ht.items, outcome) == StepTable(old(ht.items), ht.resizeImplicit, op)
    ensures ht.peak == StepPeak(old(ht.items), ht.resizeImplicit, op, old(ht.peak))
  {
    hide Tables.Ok, InsertKey, Delete, DeleteReturns, Locate, Resize, Refused, Chained, Regrows;
    Tables.NotEmpty(ht.Now(), ht.dupsAllowed);
    Tables.PeakCovers(ht.Now(), ht.dupsAllowed);
    match op
    case Put(key, data, crossed) =>
      RegrowsExactly(ht.items, false, ht.resizeImplicit, crossed, Item(key, data));
      var ret := ht.InsertKey(key, data, crossed);
      outcome := Code(ret);
    case Get(key) =>
      var data := ht.LocateKey(key);
      outcome := Found(data);
    case Remove(key) =>
      ChainedShrinks(ht.items, key);
      var data := ht.DeleteKey(key);
      outcome := Deleted(data.Some?);
    case Grow(size) =>
      var ret := ht.Resize(size);
      outcome := Code(ret);
  }

  /** Any sequence of operations on a new table object gives a map's outcomes; the object
      ends holding exactly the map's pairs; and it has as many overflow slabs as the
      largest number of chained items since its last rebuild needs. */
  method Operate(size: nat, implicitResize: bool, ops: seq<Op>) returns (ht: Tables.HashTable, outcomes: seq<Outcome>)
    requires size > 0
    ensures fresh(ht) && ht.Valid()
    ensures outcomes == RunMap(map[], ops).1 && Represents(ht.items, RunMap(map[], ops).0)
    ensures IsPeak(Empty(size), implicitResize, ops, |ops|, ht.peak)
    ensures |ht.table| > 0 && |ht.slabs| - 1 == (ht.peak + |ht.table| - 1) / |ht.table|
  {
    hide Tables.Ok, StepTable, Chained, StepPeak, RunTable;
    ht := new Tables.HashTable(size, false, implicitResize);
    outcomes := [];
    EmptyFacts(size);
    RunNothing(Empty(size), implicitResize, ops);
    var k := 0;
    while k < |ops|
      invariant 0 <= k <= |ops|
      invariant fresh(ht) && fresh(ht.entries) && ht.Valid() && !ht.dupsAllowed && ht.resizeImplicit == implicitResize
      invariant ht.items == After(Empty(size), implicitResize, ops, k)
      invariant ht.peak == Peak(Empty(size), implicitResize, ops, k)
      invariant outcomes == RunTable(Empty(size), implicitResize, ops[..k]).1
    {
      RunIsAfter(Empty(size), implicitResize, ops, k);
      var outcome := Apply(ht, ops[k]);
      outcomes := outcomes + [outcome];
      k := k + 1;
    }
    assert ops[..k] == ops;
    RunIsAfter(Empty(size), implicitResize, ops, k);
    PeakIsPeak(Empty(size), implicitResize, ops, k);
    TableIsAMap(size, implicitResize, ops);
    Tables.NotEmpty(ht.Now(), false);
    Tables.SlabsMatchPeak(ht.Now(), false);
  }

  lemma RunNothing(t: Table, implicitResize: bool, ops: seq<Op>)
    requires |t| > 0
    ensures RunTable(t, implicitResize, ops[..0]) == (t, [])
  {
    assert ops[..0] == [];
  }
}
