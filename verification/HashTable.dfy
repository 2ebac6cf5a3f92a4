/** The chained hash table of libhashtable: entry records linked by pointers,
    slabs of records, a shared free chain, promotion on delete, and resize by
    re-insertion and swapping.  Lock and allocation calls are taken to succeed;
    `LockCoupling` models the locks. */
module HashTable {
  import opened Wrappers
  import opened KeyHash
  import opened Buckets

  /** One record of a slab. */
  class Entry {
    var next: Entry?
    var key: Key
    var data: Data
    var occupied: bool

    constructor ()
      ensures next == null && !occupied
    {
      next, key, data, occupied := null, [], 0, false;
    }
  }

  type Slab = seq<Entry>

  // ---------- The records as values ----------

  /** The fields of a record at one moment. */
  datatype Rec = Rec(next: Entry?, key: Key, data: Data, occupied: bool)

  /** Which list holds a record, and where: a place counted from the list's end,
      or `Head` for the slot in the table proper. */
  datatype Place = Head(bucket: nat) | Chain(bucket: nat, fromEnd: nat) | Free(fromEnd: nat)

  /** Everything the table's fields and records say at one moment. */
  datatype State = State(
    mem: map<Entry, Rec>,          // every record of every slab
    table: Slab,
    slabs: seq<Slab>,              // newest first; the table's own slab is the last
    freechain: Entry?,
    items: Table,                  // the contents, bucket by bucket
    chains: seq<seq<Entry>>,       // each bucket's records, head slot first
    free: seq<Entry>,              // the free chain's records
    place: map<Entry, Place>,
    peak: nat)                     // most records chained at once since this table was built

  ghost function First(c: seq<Entry>): Entry? {
    if c == [] then null else c[0]
  }

  ghost function NextOf(c: seq<Entry>, j: nat): Entry? {
    if j + 1 < |c| then c[j + 1] else null
  }

  /** The list is linked by its next pointers. */
  ghost predicate Linked(mem: map<Entry, Rec>, c: seq<Entry>) {
    && (forall j {:trigger c[j]} :: 0 <= j < |c| ==> c[j] in mem)
    && (forall j {:trigger mem[c[j]].next} :: 0 <= j < |c| ==> mem[c[j]].next == NextOf(c, j))
  }

  /** The records of one bucket hold its items, in order. */
  ghost predicate Holds(mem: map<Entry, Rec>, c: seq<Entry>, b: Bucket) {
    && Linked(mem, c)
    && |c| == (if b == [] then 1 else |b|)
    && (forall j {:trigger c[j]} :: 0 <= j < |c| ==> mem[c[j]].occupied == (b != []))
    && (forall j {:trigger b[j]} {:trigger c[j]} :: 0 <= j < |b| ==> mem[c[j]].key == b[j].key && mem[c[j]].data == b[j].data)
  }

  ghost predicate HoldsFree(mem: map<Entry, Rec>, f: seq<Entry>) {
    && Linked(mem, f)
    && (forall j {:trigger f[j]} :: 0 <= j < |f| ==> !mem[f[j]].occupied)
  }

  ghost function BucketPlace(h: nat, n: nat, j: nat): Place
    requires j < n
  {
    if j == 0 then Head(h) else Chain(h, n - j)
  }

  ghost predicate PlacedBucket(place: map<Entry, Place>, c: seq<Entry>, h: nat) {
    forall j {:trigger c[j]} :: 0 <= j < |c| ==> c[j] in place && place[c[j]] == BucketPlace(h, |c|, j)
  }

  ghost predicate PlacedFree(place: map<Entry, Place>, f: seq<Entry>) {
    forall j {:trigger f[j]} :: 0 <= j < |f| ==> f[j] in place && place[f[j]] == Free(|f| - j)
  }

  /** The record stands in the list its place names. */
  ghost predicate Stands(chains: seq<seq<Entry>>, f: seq<Entry>, e: Entry, p: Place) {
    match p
    case Head(h) => h < |chains| && |chains[h]| > 0 && chains[h][0] == e
    case Chain(h, k) => h < |chains| && 0 < k < |chains[h]| && chains[h][|chains[h]| - k] == e
    case Free(k) => 0 < k <= |f| && f[|f| - k] == e
  }

  ghost predicate Shape(s: State) {
    && |s.table| > 0
    && |s.items| == |s.chains| == |s.table|
    && (forall h {:trigger s.chains[h]} :: 0 <= h < |s.table| ==> First(s.chains[h]) == s.table[h])
    && s.freechain == First(s.free)
  }

  /** Every record is in exactly one place: a head slot, one chain, or the free chain. */
  ghost predicate Partition(s: State) {
    && s.place.Keys == s.mem.Keys
    && (forall h {:trigger s.chains[h]} :: 0 <= h < |s.chains| ==> PlacedBucket(s.place, s.chains[h], h))
    && PlacedFree(s.place, s.free)
    && (forall e {:trigger s.place[e]} :: e in s.place ==> Stands(s.chains, s.free, e, s.place[e]))
  }

  ghost predicate Contents(s: State) {
    && |s.chains| == |s.items|
    && (forall h {:trigger s.chains[h]} :: 0 <= h < |s.chains| ==> Holds(s.mem, s.chains[h], s.items[h]))
    && HoldsFree(s.mem, s.free)
  }

  /** The records of all slabs. */
  ghost function Records(slabs: seq<Slab>): seq<Entry> {
    if slabs == [] then [] else slabs[0] + Records(slabs[1..])
  }

  ghost function Elements(c: seq<Entry>): set<Entry> {
    set e | e in c
  }

  /** The records in use are exactly the slabs' records, no two of which are the same. */
  ghost predicate Owned(entries: set<Entry>, slabs: seq<Slab>) {
    AllDistinct(Records(slabs)) && entries == Elements(Records(slabs))
  }

  /** The slabs account for all records, and their number for the peak. */
  ghost predicate Accounted(s: State) {
    && s.slabs != [] && s.slabs[|s.slabs| - 1] == s.table
    && (forall i :: 0 <= i < |s.slabs| ==> |s.slabs[i]| == |s.table|)
    && Chained(s.items) + |s.free| == |s.table| * (|s.slabs| - 1)
    && Chained(s.items) <= s.peak <= |s.table| * (|s.slabs| - 1)
    && (|s.slabs| > 1 ==> |s.table| * (|s.slabs| - 2) < s.peak)
    && Owned(s.mem.Keys, s.slabs)
  }

  ghost predicate Structure(s: State) {
    Shape(s) && Partition(s) && Contents(s)
  }

  ghost predicate Ok(s: State, dups: bool) {
    Structure(s) && Accounted(s) && Good(s.items, dups)
  }

  // ---------- Frames ----------

  lemma HoldsFrame(mem: map<Entry, Rec>, c: seq<Entry>, b: Bucket, e: Entry, r: Rec)
    requires Holds(mem, c, b) && e !in c
    ensures Holds(mem[e := r], c, b)
  {
    assert forall j {:trigger c[j]} :: 0 <= j < |c| ==> c[j] != e;
  }

  lemma HoldsFreeFrame(mem: map<Entry, Rec>, f: seq<Entry>, e: Entry, r: Rec)
    requires HoldsFree(mem, f) && e !in f
    ensures HoldsFree(mem[e := r], f)
  {
    assert forall j {:trigger f[j]} :: 0 <= j < |f| ==> f[j] != e;
  }

  /** A record placed in one bucket is in no other list. */
  lemma Elsewhere(s: State, h: nat, j: nat)
    requires Partition(s) && h < |s.chains| && j < |s.chains[h]|
    ensures s.chains[h][j] !in s.free
    ensures forall g {:trigger s.chains[g]} :: 0 <= g < |s.chains| && g != h ==> s.chains[h][j] !in s.chains[g]
    ensures forall i :: 0 <= i < |s.chains[h]| && i != j ==> s.chains[h][i] != s.chains[h][j]
  {
    var c := s.chains[h];
    assert PlacedBucket(s.place, c, h);
    var e := c[j];
    forall g | 0 <= g < |s.chains| && g != h
      ensures e !in s.chains[g]
    {
      assert PlacedBucket(s.place, s.chains[g], g);
    }
  }

  /** Rewriting a record of bucket `h` leaves the other lists as they were. */
  lemma OtherBuckets(s: State, h: nat, j: nat, r: Rec)
    requires Partition(s) && Contents(s) && h < |s.chains| && j < |s.chains[h]|
    ensures var mem := s.mem[s.chains[h][j] := r];
            && HoldsFree(mem, s.free)
            && (forall g {:trigger s.chains[g]} :: 0 <= g < |s.chains| && g != h ==> Holds(mem, s.chains[g], s.items[g]))
  {
    var e := s.chains[h][j];
    Elsewhere(s, h, j);
    HoldsFreeFrame(s.mem, s.free, e, r);
    forall g | 0 <= g < |s.chains| && g != h
      ensures Holds(s.mem[e := r], s.chains[g], s.items[g])
    {
      HoldsFrame(s.mem, s.chains[g], s.items[g], e, r);
    }
  }

  lemma HeadRecord(s: State, h: nat)
    requires Shape(s) && Contents(s) && h < |s.table|
    ensures |s.chains[h]| > 0 && s.chains[h][0] == s.table[h] && s.table[h] in s.mem
    ensures Holds(s.mem, s.chains[h], s.items[h])
  {
    assert First(s.chains[h]) == s.table[h];
  }

  // ---------- A bucket's head slot is filled or cleared ----------

  /** The head record gets new contents; the pointers stay. */
  ghost function HeadSet(s: State, h: nat, r: Rec, b: Bucket): State
    requires h < |s.items| && h < |s.table|
  {
    s.(mem := s.mem[s.table[h] := r], items := s.items[h := b])
  }

  lemma HeadSetStructure(s: State, h: nat, r: Rec, b: Bucket)
    requires Structure(s) && h < |s.table| && s.table[h] in s.mem
    requires Holds(s.mem[s.table[h] := r], s.chains[h], b)
    ensures Structure(HeadSet(s, h, r, b))
  {
    HeadRecord(s, h);
    OtherBuckets(s, h, 0, r);
  }

  lemma HeadSetAccounted(s: State, h: nat, r: Rec, b: Bucket)
    requires Accounted(s) && h < |s.items| && h < |s.table| && s.table[h] in s.mem
    requires ChainLength(b) == ChainLength(s.items[h])
    ensures Accounted(HeadSet(s, h, r, b))
  {
    hide Owned;
    ReplaceBucket(s.items, h, b);
    assert HeadSet(s, h, r, b).mem.Keys == s.mem.Keys;
  }

  lemma FilledOk(s: State, dups: bool, h: nat, r: Rec, x: Item)
    requires Ok(s, dups) && h < |s.table| && s.items[h] == [] && h == Index(x.key, |s.table|)
    requires s.table[h] in s.mem && r == s.mem[s.table[h]].(key := x.key, data := x.data, occupied := true)
    ensures Ok(HeadSet(s, h, r, [x]), dups)
    ensures HeadSet(s, h, r, [x]).items == Insert(s.items, dups, x)
  {
    hide Partition, Good, Accounted;
    HeadRecord(s, h);
    HeadSetStructure(s, h, r, [x]);
    HeadSetAccounted(s, h, r, [x]);
    assert s.items[h := [x]] == Insert(s.items, dups, x);
    InsertIsGood(s.items, dups, x);
  }

  lemma ClearedOk(s: State, dups: bool, h: nat, r: Rec, key: Key)
    requires Ok(s, dups) && h < |s.table| && h == Index(key, |s.table|)
    requires |s.items[h]| == 1 && s.items[h][0].key == key
    requires s.table[h] in s.mem && r == s.mem[s.table[h]].(occupied := false)
    ensures Ok(HeadSet(s, h, r, []), dups)
    ensures HeadSet(s, h, r, []).items == Delete(s.items, key)
  {
    hide Partition, Good, Accounted;
    HeadRecord(s, h);
    HeadSetStructure(s, h, r, []);
    HeadSetAccounted(s, h, r, []);
    assert RemoveAt(s.items[h], 0) == [];
    assert s.items[h := []] == Delete(s.items, key);
    DeleteIsGood(s.items, dups, key);
  }

  // ---------- Records join the free chain ----------

  /** A new record of a slab is dangled from the free chain. */
  ghost function Dangled(s: State, e: Entry, r: Rec): State {
    s.(mem := s.mem[e := r], freechain := e, free := [e] + s.free, place := s.place[e := Free(|s.free| + 1)])
  }

  lemma DangledStructure(s: State, e: Entry, r: Rec)
    requires Structure(s) && e !in s.mem
    requires !r.occupied && r.next == s.freechain
    ensures Structure(Dangled(s, e, r))
  {
    DangledContents(s, e, r);
    DangledPartition(s, e, r);
  }

  lemma DangledContents(s: State, e: Entry, r: Rec)
    requires Shape(s) && Contents(s) && e !in s.mem
    requires !r.occupied && r.next == s.freechain
    ensures Contents(Dangled(s, e, r))
  {
    var s' := Dangled(s, e, r);
    forall h | 0 <= h < |s.chains|
      ensures Holds(s'.mem, s'.chains[h], s'.items[h])
    {
      HoldsFrame(s.mem, s.chains[h], s.items[h], e, r);
    }
    HoldsFreeFrame(s.mem, s.free, e, r);
    assert forall j {:trigger s'.free[j]} :: 1 <= j < |s'.free| ==> s'.free[j] == s.free[j - 1];
  }

  lemma DangledPartition(s: State, e: Entry, r: Rec)
    requires Partition(s) && e !in s.mem
    ensures Partition(Dangled(s, e, r))
  {
    var s' := Dangled(s, e, r);
    forall h | 0 <= h < |s.chains|
      ensures PlacedBucket(s'.place, s'.chains[h], h)
    {
      assert PlacedBucket(s.place, s.chains[h], h);
    }
    assert forall j {:trigger s'.free[j]} :: 1 <= j < |s'.free| ==> s'.free[j] == s.free[j - 1];
    forall g | g in s'.place
      ensures Stands(s'.chains, s'.free, g, s'.place[g])
    {
      assert g != e ==> Stands(s.chains, s.free, g, s.place[g]);
    }
  }

  function Max(a: nat, b: nat): nat {
    if a < b then b else a
  }

  // ---------- A free record is hung behind a head ----------

  ghost function Hung(s: State, h: nat, x: Item): State
    requires h < |s.chains| && h < |s.items| && |s.chains[h]| > 0 && s.free != []
    requires s.chains[h][0] in s.mem
  {
    var c, e := s.chains[h], s.free[0];
    var items := s.items[h := Push(s.items[h], x)];
    s.(mem := s.mem[e := Rec(s.mem[c[0]].next, x.key, x.data, true)][c[0] := s.mem[c[0]].(next := e)],
       freechain := First(s.free[1..]),
       free := s.free[1..],
       chains := s.chains[h := [c[0], e] + c[1..]],
       place := s.place[e := Chain(h, |c|)],
       items := items,
       peak := Max(s.peak, Chained(items)))
  }

  lemma FreeRecord(s: State)
    requires Partition(s) && s.free != []
    ensures s.free[0] !in s.free[1..]
    ensures forall h {:trigger s.chains[h]} :: 0 <= h < |s.chains| ==> s.free[0] !in s.chains[h]
  {
    var e := s.free[0];
    forall h | 0 <= h < |s.chains|
      ensures e !in s.chains[h]
    {
      assert PlacedBucket(s.place, s.chains[h], h);
    }
    assert forall j {:trigger s.free[j]} :: 1 <= j < |s.free| ==> s.place[s.free[j]] != s.place[e];
  }

  /** The rest of the free chain, when two records outside it are written. */
  lemma FreeTail(mem: map<Entry, Rec>, f: seq<Entry>, e: Entry, r: Rec, c: Entry, q: Rec)
    requires HoldsFree(mem, f) && f != [] && e !in f[1..] && c !in f
    ensures HoldsFree(mem[e := r][c := q], f[1..])
  {
    assert forall j {:trigger f[1..][j]} :: 0 <= j < |f[1..]| ==> f[1..][j] == f[j + 1];
    assert HoldsFree(mem, f[1..]);
    hide HoldsFree;
    HoldsFreeFrame(mem, f[1..], e, r);
    HoldsFreeFrame(mem[e := r], f[1..], c, q);
  }

  lemma HungContents(s: State, h: nat, x: Item)
    requires Structure(s) && h < |s.table| && s.items[h] != [] && s.free != []
    requires |s.chains[h]| > 0 && s.chains[h][0] in s.mem
    ensures Contents(Hung(s, h, x))
  {
    var s', c, e := Hung(s, h, x), s.chains[h], s.free[0];
    var r, q := Rec(s.mem[c[0]].next, x.key, x.data, true), s.mem[c[0]].(next := e);
    assert e in s.mem && Holds(s.mem, c, s.items[h]);
    FreeRecord(s);
    Elsewhere(s, h, 0);
    HungBucket(s.mem, c, s.items[h], e, x);
    hide Holds, HoldsFree, Push, Partition, Chained, First;
    FreeTail(s.mem, s.free, e, r, c[0], q);
    assert s'.mem == s.mem[e := r][c[0] := q] && s'.free == s.free[1..];
    assert s'.items == s.items[h := Push(s.items[h], x)] && s'.chains == s.chains[h := [c[0], e] + c[1..]];
    hide Hung;
    forall g | 0 <= g < |s.chains| && g != h
      ensures Holds(s'.mem, s'.chains[g], s'.items[g])
    {
      HoldsFrame(s.mem, s.chains[g], s.items[g], e, r);
      HoldsFrame(s.mem[e := r], s.chains[g], s.items[g], c[0], q);
    }
  }

  lemma HungBucket(mem: map<Entry, Rec>, c: seq<Entry>, b: Bucket, e: Entry, x: Item)
    requires Holds(mem, c, b) && b != [] && e !in c && e in mem
    requires forall i {:trigger c[i]} :: 0 < i < |c| ==> c[i] != c[0]
    ensures Holds(mem[e := Rec(mem[c[0]].next, x.key, x.data, true)][c[0] := mem[c[0]].(next := e)],
                  [c[0], e] + c[1..], Push(b, x))
  {
    var c' := [c[0], e] + c[1..];
    var b' := Push(b, x);
    assert forall i {:trigger c'[i]} :: 2 <= i < |c'| ==> c'[i] == c[i - 1];
    assert forall i {:trigger b'[i]} :: 2 <= i < |b'| ==> b'[i] == b[i - 1];
  }

  lemma HungPlaced(s: State, h: nat, x: Item)
    requires Structure(s) && h < |s.table| && s.free != []
    requires |s.chains[h]| > 0 && s.chains[h][0] in s.mem
    ensures var s' := Hung(s, h, x);
            && (forall g {:trigger s'.chains[g]} :: 0 <= g < |s'.chains| ==> PlacedBucket(s'.place, s'.chains[g], g))
            && PlacedFree(s'.place, s'.free)
  {
    hide Contents, Push, Chained;
    var s', c, e := Hung(s, h, x), s.chains[h], s.free[0];
    FreeRecord(s);
    forall g | 0 <= g < |s.chains|
      ensures PlacedBucket(s'.place, s'.chains[g], g)
    {
      assert PlacedBucket(s.place, s.chains[g], g);
      assert g == h ==> forall i {:trigger s'.chains[h][i]} :: 2 <= i < |s'.chains[h]| ==> s'.chains[h][i] == c[i - 1];
    }
    assert forall j {:trigger s'.free[j]} :: 0 <= j < |s'.free| ==> s'.free[j] == s.free[j + 1];
  }

  lemma HungStands(s: State, h: nat, x: Item, g: Entry)
    requires Structure(s) && h < |s.table| && s.free != []
    requires |s.chains[h]| > 0 && s.chains[h][0] in s.mem && g in s.place
    ensures Stands(Hung(s, h, x).chains, Hung(s, h, x).free, g, Hung(s, h, x).place[g])
  {
    hide Contents, Push, Chained;
    var c, e := s.chains[h], s.free[0];
    if g != e {
      assert Stands(s.chains, s.free, g, s.place[g]);
      var c' := [c[0], e] + c[1..];
      assert forall i {:trigger c'[i]} :: 2 <= i < |c'| ==> c'[i] == c[i - 1];
    }
  }

  lemma HungPartition(s: State, h: nat, x: Item)
    requires Structure(s) && h < |s.table| && s.free != []
    requires |s.chains[h]| > 0 && s.chains[h][0] in s.mem
    ensures Partition(Hung(s, h, x))
  {
    hide Contents, Push, Chained, Stands;
    var s' := Hung(s, h, x);
    HungPlaced(s, h, x);
    forall g | g in s'.place
      ensures Stands(s'.chains, s'.free, g, s'.place[g])
    {
      assert g in s.place;
      HungStands(s, h, x, g);
    }
  }

  /** The free chain has a record for the next insertion, and the slabs are still accounted for. */
  ghost predicate Supplied(s: State) {
    && s.slabs != [] && s.slabs[|s.slabs| - 1] == s.table
    && (forall i :: 0 <= i < |s.slabs| ==> |s.slabs[i]| == |s.table|)
    && s.free != []
    && Chained(s.items) + |s.free| == |s.table| * (|s.slabs| - 1)
    && Chained(s.items) <= s.peak <= |s.table| * (|s.slabs| - 1)
    && (|s.slabs| > 1 ==>
          || |s.table| * (|s.slabs| - 2) < s.peak
          || |s.table| * (|s.slabs| - 2) == s.peak == Chained(s.items))
    && Owned(s.mem.Keys, s.slabs)
  }

  lemma HungAccounted(s: State, h: nat, x: Item)
    requires Supplied(s) && h < |s.items| && h < |s.chains| && |s.chains[h]| > 0 && s.chains[h][0] in s.mem
    requires s.items[h] != [] && s.free[0] in s.mem
    ensures Accounted(Hung(s, h, x))
  {
    hide Owned;
    ReplaceBucket(s.items, h, Push(s.items[h], x));
    assert Hung(s, h, x).mem.Keys == s.mem.Keys;
  }

  lemma FreeInMemory(s: State)
    requires Contents(s) && s.free != []
    ensures s.free[0] in s.mem
  {
  }

  lemma HungFields(s: State, h: nat, x: Item)
    requires h < |s.chains| && h < |s.items| && |s.chains[h]| > 0 && s.free != []
    requires s.chains[h][0] in s.mem && s.free[0] in s.mem && s.free[0] != s.chains[h][0]
    requires s.mem[s.free[0]].next == First(s.free[1..])
    ensures var s', c, e := Hung(s, h, x), s.chains[h], s.free[0];
            && s'.mem == s.mem[e := Rec(s.mem[c[0]].next, x.key, x.data, true)][c[0] := s.mem[c[0]].(next := e)]
            && s'.free == s.free[1..] && s'.chains == s.chains[h := [c[0], e] + c[1..]]
            && s'.freechain == s.mem[e].next && s'.peak == Max(s.peak, Chained(s'.items))
            && s' == State(s'.mem, s.table, s.slabs, s'.freechain, s'.items, s'.chains, s'.free, s'.place, s'.peak)
  {
  }

  lemma HungOk(s: State, dups: bool, h: nat, x: Item)
    requires Structure(s) && Supplied(s) && Good(s.items, dups)
    requires h < |s.table| && h == Index(x.key, |s.table|) && s.items[h] != [] && !Refused(s.items, dups, x.key)
    requires |s.chains[h]| > 0 && s.chains[h][0] in s.mem
    ensures Ok(Hung(s, h, x), dups)
    ensures Hung(s, h, x).items == Insert(s.items, dups, x)
  {
    FreeInMemory(s);
    hide Partition, Contents, Accounted, Good;
    HungContents(s, h, x);
    HungPartition(s, h, x);
    HungAccounted(s, h, x);
    InsertIsGood(s.items, dups, x);
  }

  // ---------- A chain record is unlinked and freed ----------

  ghost function Unlinked(s: State, h: nat, j: nat): State
    requires h < |s.chains| && h < |s.items| && 0 < j < |s.chains[h]| && j < |s.items[h]|
    requires s.chains[h][j - 1] in s.mem && s.chains[h][j] in s.mem
  {
    var c := s.chains[h];
    var p, e := c[j - 1], c[j];
    s.(mem := s.mem[p := s.mem[p].(next := s.mem[e].next)][e := s.mem[e].(next := s.freechain, occupied := false)],
       freechain := e,
       free := [e] + s.free,
       chains := s.chains[h := c[..j] + c[j + 1..]],
       place := MovedPlaces(s.place, h, |c| - j, |s.free|),
       items := s.items[h := RemoveAt(s.items[h], j)])
  }

  /** Records before the unlinked one come one closer to the chain's end. */
  ghost function MovedPlace(p: Place, h: nat, k: nat, free: nat): Place {
    if p == Chain(h, k) then Free(free + 1)
    else if p.Chain? && p.bucket == h && p.fromEnd > k then Chain(h, p.fromEnd - 1)
    else p
  }

  ghost function MovedPlaces(place: map<Entry, Place>, h: nat, k: nat, free: nat): map<Entry, Place> {
    map g | g in place :: MovedPlace(place[g], h, k, free)
  }

  ghost predicate AllDistinct(c: seq<Entry>) {
    forall i, k {:trigger c[i], c[k]} :: 0 <= i < k < |c| ==> c[i] != c[k]
  }

  ghost function Cut(mem: map<Entry, Rec>, c: seq<Entry>, j: nat, r: Rec): map<Entry, Rec>
    requires 0 < j < |c| && c[j - 1] in mem && c[j] in mem
  {
    mem[c[j - 1] := mem[c[j - 1]].(next := mem[c[j]].next)][c[j] := r]
  }

  lemma CutLinked(mem: map<Entry, Rec>, c: seq<Entry>, j: nat, r: Rec)
    requires Linked(mem, c) && AllDistinct(c) && 0 < j < |c|
    ensures Linked(Cut(mem, c, j, r), c[..j] + c[j + 1..])
  {
    var mem', c' := Cut(mem, c, j, r), c[..j] + c[j + 1..];
    forall i | 0 <= i < |c'|
      ensures c'[i] in mem' && mem'[c'[i]].next == NextOf(c', i)
    {
      var k := if i < j then i else i + 1;
      assert c'[i] == c[k];
      assert mem[c[j]].next == NextOf(c, j);
      assert mem[c[k]].next == NextOf(c, k);
    }
  }

  lemma UnlinkedBucket(mem: map<Entry, Rec>, c: seq<Entry>, b: Bucket, j: nat, r: Rec)
    requires Holds(mem, c, b) && AllDistinct(c) && 0 < j < |c| && j < |b|
    ensures Holds(Cut(mem, c, j, r), c[..j] + c[j + 1..], RemoveAt(b, j))
  {
    var mem', c', b' := Cut(mem, c, j, r), c[..j] + c[j + 1..], RemoveAt(b, j);
    CutLinked(mem, c, j, r);
    hide Linked;
    forall i | 0 <= i < |c'|
      ensures mem'[c'[i]].occupied && mem'[c'[i]].key == b'[i].key && mem'[c'[i]].data == b'[i].data
    {
      var k := if i < j then i else i + 1;
      assert c'[i] == c[k] && b'[i] == b[k];
    }
  }

  lemma ChainDistinct(s: State, h: nat)
    requires Partition(s) && h < |s.chains|
    ensures AllDistinct(s.chains[h])
  {
    var c := s.chains[h];
    assert PlacedBucket(s.place, c, h);
    forall i, k | 0 <= i < k < |c|
      ensures c[i] != c[k]
    {
      assert BucketPlace(h, |c|, i) != BucketPlace(h, |c|, k);
    }
  }

  /** A freed record in front of the free chain. */
  lemma FreePushed(mem: map<Entry, Rec>, f: seq<Entry>, e: Entry, r: Rec)
    requires HoldsFree(mem, f) && e !in f && !r.occupied && r.next == First(f)
    ensures HoldsFree(mem[e := r], [e] + f)
  {
    HoldsFreeFrame(mem, f, e, r);
    var mem', f' := mem[e := r], [e] + f;
    assert HoldsFree(mem', f);
    forall i | 0 <= i < |f'|
      ensures f'[i] in mem' && mem'[f'[i]].next == NextOf(f', i) && !mem'[f'[i]].occupied
    {
      if i > 0 {
        assert f'[i] == f[i - 1];
        assert mem'[f[i - 1]].next == NextOf(f, i - 1);
      }
    }
  }

  lemma UnlinkedContents(s: State, h: nat, j: nat)
    requires Structure(s) && h < |s.table| && 0 < j < |s.chains[h]| && j < |s.items[h]|
    requires s.chains[h][j - 1] in s.mem && s.chains[h][j] in s.mem
    ensures Contents(Unlinked(s, h, j))
  {
    var s', c := Unlinked(s, h, j), s.chains[h];
    var p, e := c[j - 1], c[j];
    var rp, re := s.mem[p].(next := s.mem[e].next), s.mem[e].(next := s.freechain, occupied := false);
    Elsewhere(s, h, j - 1);
    Elsewhere(s, h, j);
    ChainDistinct(s, h);
    UnlinkedBucket(s.mem, c, s.items[h], j, re);
    hide Holds, HoldsFree, Partition, AllDistinct;
    assert Holds(s'.mem, s'.chains[h], s'.items[h]);
    forall g | 0 <= g < |s.chains| && g != h
      ensures Holds(s'.mem, s'.chains[g], s'.items[g])
    {
      HoldsFrame(s.mem, s.chains[g], s.items[g], p, rp);
      HoldsFrame(s.mem[p := rp], s.chains[g], s.items[g], e, re);
    }
    HoldsFreeFrame(s.mem, s.free, p, rp);
    FreePushed(s.mem[p := rp], s.free, e, re);
  }

  /** The places in the bucket that lost its `j`-th record. */
  lemma CutPlaced(place: map<Entry, Place>, c: seq<Entry>, h: nat, j: nat, free: nat)
    requires PlacedBucket(place, c, h) && 0 < j < |c|
    ensures PlacedBucket(MovedPlaces(place, h, |c| - j, free), c[..j] + c[j + 1..], h)
  {
    var c' := c[..j] + c[j + 1..];
    forall i | 0 <= i < |c'|
      ensures c'[i] in place && MovedPlace(place[c'[i]], h, |c| - j, free) == BucketPlace(h, |c'|, i)
    {
      assert c'[i] == c[if i < j then i else i + 1];
    }
  }

  lemma OtherPlaced(place: map<Entry, Place>, c: seq<Entry>, g: nat, h: nat, k: nat, free: nat)
    requires PlacedBucket(place, c, g) && g != h
    ensures PlacedBucket(MovedPlaces(place, h, k, free), c, g)
  {
  }

  lemma PushedPlaced(place: map<Entry, Place>, f: seq<Entry>, e: Entry, h: nat, k: nat)
    requires PlacedFree(place, f) && e in place && place[e] == Chain(h, k)
    ensures PlacedFree(MovedPlaces(place, h, k, |f|), [e] + f)
  {
    var f' := [e] + f;
    assert forall i {:trigger f'[i]} :: 1 <= i < |f'| ==> f'[i] == f[i - 1];
  }

  lemma UnlinkedPlaced(s: State, h: nat, j: nat)
    requires Shape(s) && Partition(s) && h < |s.table| && 0 < j < |s.chains[h]| && j < |s.items[h]|
    requires s.chains[h][j - 1] in s.mem && s.chains[h][j] in s.mem
    ensures var s' := Unlinked(s, h, j);
            && (forall g {:trigger s'.chains[g]} :: 0 <= g < |s'.chains| ==> PlacedBucket(s'.place, s'.chains[g], g))
            && PlacedFree(s'.place, s'.free)
  {
    var s', c := Unlinked(s, h, j), s.chains[h];
    assert PlacedBucket(s.place, c, h);
    assert c[j] in s.place && s.place[c[j]] == Chain(h, |c| - j);
    assert s'.place == MovedPlaces(s.place, h, |c| - j, |s.free|) && s'.free == [c[j]] + s.free;
    assert s'.chains == s.chains[h := c[..j] + c[j + 1..]];
    hide PlacedBucket, PlacedFree, MovedPlaces, Stands, Unlinked, RemoveAt;
    CutPlaced(s.place, c, h, j, |s.free|);
    forall g | 0 <= g < |s.chains| && g != h
      ensures PlacedBucket(s'.place, s'.chains[g], g)
    {
      assert PlacedBucket(s.place, s.chains[g], g);
      OtherPlaced(s.place, s.chains[g], g, h, |c| - j, |s.free|);
    }
    PushedPlaced(s.place, s.free, c[j], h, |c| - j);
  }

  lemma UnlinkedStands(c: seq<Entry>, s: State, h: nat, j: nat, g: Entry)
    requires Partition(s) && h < |s.chains| && h < |s.items| && c == s.chains[h]
    requires 0 < j < |c| && j < |s.items[h]| && c[j - 1] in s.mem && c[j] in s.mem
    requires g in s.place && PlacedBucket(s.place, c, h)
    ensures Stands(Unlinked(s, h, j).chains, Unlinked(s, h, j).free, g, Unlinked(s, h, j).place[g])
  {
    hide RemoveAt, PlacedFree;
    var c', p := c[..j] + c[j + 1..], s.place[g];
    assert Stands(s.chains, s.free, g, p);
    if p.Chain? && p.bucket == h {
      var i := |c| - p.fromEnd;
      assert c[i] == g;
      assert i < j ==> c'[i] == c[i];
      assert i > j ==> c'[i - 1] == c[i];
    }
    if p.Free? {
      assert ([c[j]] + s.free)[|s.free| + 1 - p.fromEnd] == s.free[|s.free| - p.fromEnd];
    }
  }

  lemma UnlinkedPartition(s: State, h: nat, j: nat)
    requires Shape(s) && Partition(s) && h < |s.table| && 0 < j < |s.chains[h]| && j < |s.items[h]|
    requires s.chains[h][j - 1] in s.mem && s.chains[h][j] in s.mem
    ensures Partition(Unlinked(s, h, j))
  {
    UnlinkedPlaced(s, h, j);
    assert PlacedBucket(s.place, s.chains[h], h);
    forall g | g in s.place
      ensures Stands(Unlinked(s, h, j).chains, Unlinked(s, h, j).free, g, Unlinked(s, h, j).place[g])
    {
      UnlinkedStands(s.chains[h], s, h, j, g);
    }
  }

  lemma UnlinkedAccounted(s: State, h: nat, j: nat)
    requires Accounted(s) && h < |s.chains| && h < |s.items| && 0 < j < |s.chains[h]| && j < |s.items[h]|
    requires s.chains[h][j - 1] in s.mem && s.chains[h][j] in s.mem
    ensures Accounted(Unlinked(s, h, j))
  {
    hide Owned;
    ReplaceBucket(s.items, h, RemoveAt(s.items[h], j));
    assert Unlinked(s, h, j).mem.Keys == s.mem.Keys;
  }

  lemma UnlinkedOk(s: State, h: nat, j: nat)
    requires Structure(s) && Accounted(s) && h < |s.table| && 0 < j < |s.chains[h]| && j < |s.items[h]|
    requires s.chains[h][j - 1] in s.mem && s.chains[h][j] in s.mem
    ensures Structure(Unlinked(s, h, j)) && Accounted(Unlinked(s, h, j))
  {
    hide Partition, Contents, Accounted;
    UnlinkedContents(s, h, j);
    UnlinkedPartition(s, h, j);
    UnlinkedAccounted(s, h, j);
    UnlinkedShape(s, h, j);
  }

  lemma UnlinkedShape(s: State, h: nat, j: nat)
    requires Shape(s) && h < |s.table| && 0 < j < |s.chains[h]| && j < |s.items[h]|
    requires s.chains[h][j - 1] in s.mem && s.chains[h][j] in s.mem
    ensures Shape(Unlinked(s, h, j))
  {
    assert (s.chains[h][..j] + s.chains[h][j + 1..])[0] == s.chains[h][0];
  }

  // ---------- Deleting ----------

  /** The successor's contents are copied into the head slot before it is unlinked. */
  lemma PromotedHolds(mem: map<Entry, Rec>, c: seq<Entry>, b: Bucket, r: Rec)
    requires Holds(mem, c, b) && |b| > 1 && AllDistinct(c)
    requires c[0] in mem && c[1] in mem && r == mem[c[1]].(next := mem[c[0]].next)
    ensures Holds(mem[c[0] := r], c, b[0 := b[1]])
  {
    assert forall j {:trigger c[j]} :: 1 <= j < |c| ==> c[j] != c[0];
  }

  lemma PromotedOk(s: State, h: nat, r: Rec)
    requires Structure(s) && Accounted(s) && h < |s.table| && |s.items[h]| > 1
    requires |s.chains[h]| > 1 && s.chains[h][1] in s.mem && s.table[h] in s.mem
    requires r == s.mem[s.chains[h][1]].(next := s.mem[s.table[h]].next)
    ensures Structure(HeadSet(s, h, r, s.items[h][0 := s.items[h][1]]))
    ensures Accounted(HeadSet(s, h, r, s.items[h][0 := s.items[h][1]]))
  {
    hide Accounted;
    var b := s.items[h][0 := s.items[h][1]];
    HeadRecord(s, h);
    ChainDistinct(s, h);
    PromotedHolds(s.mem, s.chains[h], s.items[h], r);
    hide Holds, AllDistinct;
    HeadSetStructure(s, h, r, b);
    HeadSetAccounted(s, h, r, b);
  }

  lemma RemovePromoted(b: Bucket)
    requires |b| > 1
    ensures RemoveAt(b[0 := b[1]], 1) == RemoveAt(b, 0)
  {
  }

  /** What a caller needs to know about one bucket. */
  lemma BucketFacts(s: State, dups: bool, h: nat)
    requires Ok(s, dups) && h < |s.table|
    ensures |s.items| == |s.chains| == |s.table|
    ensures s.chains[h] != [] && s.chains[h][0] == s.table[h]
    ensures Holds(s.mem, s.chains[h], s.items[h])
  {
    HeadRecord(s, h);
  }

  // ---------- The table object ----------

  ghost function Snap(e: Entry): Rec
    reads e
  {
    Rec(e.next, e.key, e.data, e.occupied)
  }

  ghost predicate Mirrors(mem: map<Entry, Rec>, c: seq<Entry>)
    reads c
  {
    forall j {:trigger c[j]} :: 0 <= j < |c| ==> c[j] in mem && mem[c[j]] == Snap(c[j])
  }

  /** The chain walk of `ht_locate_entry_`: the first record with the key, and the one before it. */
  method WalkChain(head: Entry, key: Key, ghost mem: map<Entry, Rec>, ghost c: seq<Entry>, ghost b: Bucket)
    returns (dhte: Entry?, phte: Entry?)
    requires Holds(mem, c, b) && Mirrors(mem, c) && head == c[0]
    ensures var j := FirstMatch(b, key);
            if j == |b| then dhte == null
            else dhte == c[j] && phte == (if j == 0 then null else c[j - 1])
  {
    dhte, phte := head, null;
    if !dhte.occupied {
      return null, null;
    }
    ghost var j := 0;
    while dhte.key != key
      invariant 0 <= j < |b| && dhte == c[j]
      invariant phte == if j == 0 then null else c[j - 1]
      invariant forall i :: 0 <= i < j ==> b[i].key != key
      decreases |b| - j
    {
      assert mem[c[j]].next == NextOf(c, j);
      phte, dhte := dhte, dhte.next;
      j := j + 1;
      if dhte == null {
        return;
      }
    }
  }

  /** The duplicate walk of `ht_insert_key`, over an occupied bucket. */
  method FindDuplicate(head: Entry, key: Key, dupsAllowed: bool,
                       ghost mem: map<Entry, Rec>, ghost c: seq<Entry>, ghost b: Bucket)
    returns (found: bool)
    requires Holds(mem, c, b) && Mirrors(mem, c) && head == c[0] && b != []
    ensures found <==> !dupsAllowed && HasKey(b, key)
  {
    var ohte: Entry? := head;
    ghost var j := 0;
    while ohte != null
      invariant 0 <= j <= |b| && ohte == (if j < |b| then c[j] else null)
      invariant !dupsAllowed ==> forall i :: 0 <= i < j ==> b[i].key != key
      decreases |b| - j
    {
      if !dupsAllowed && ohte.key == key {
        return true;
      }
      assert mem[c[j]].next == NextOf(c, j);
      ohte := ohte.next;
      j := j + 1;
    }
    return false;
  }

  method CreateSlab(numents: nat) returns (slab: Slab)
    ensures |slab| == numents
    ensures forall j :: 0 <= j < numents ==> fresh(slab[j]) && slab[j].next == null && !slab[j].occupied
    ensures AllDistinct(slab)
  {
    slab := [];
    while |slab| < numents
      invariant |slab| <= numents
      invariant forall j :: 0 <= j < |slab| ==> fresh(slab[j]) && slab[j].next == null && !slab[j].occupied
      invariant AllDistinct(slab)
    {
      var e := new Entry();
      slab := slab + [e];
    }
  }

  class HashTable {
    const dupsAllowed: bool
    const resizeImplicit: bool
    var table: Slab
    var slabs: seq<Slab>
    var freechain: Entry?

    ghost var entries: set<Entry>
    ghost var items: Table
    ghost var chains: seq<seq<Entry>>
    ghost var free: seq<Entry>
    ghost var place: map<Entry, Place>
    ghost var peak: nat

    ghost function Now(): (s: State)
      reads this, entries
    {
      State(map e | e in entries :: Snap(e), table, slabs, freechain, items, chains, free, place, peak)
    }

    ghost predicate Valid()
      reads this, entries
    {
      Ok(Now(), dupsAllowed)
    }

    constructor (numents: nat, dupsAllowed: bool, resizeImplicit: bool)
      requires numents > 0
      ensures Valid() && fresh(entries)
      ensures items == Empty(numents) && |table| == numents
      ensures slabs == [table] && peak == 0
      ensures this.dupsAllowed == dupsAllowed && this.resizeImplicit == resizeImplicit
    {
      this.dupsAllowed, this.resizeImplicit := dupsAllowed, resizeImplicit;
      freechain := null;
      var slab := CreateSlab(numents);
      slabs := [slab];
      table := slab;
      ghost var s := Created(slab, map[]);
      items, chains, free, place, peak := s.items, s.chains, s.free, s.place, s.peak;
      entries := set e | e in slab;
      new;
      hide Ok;
      CreatedOk(slab, Now().mem, dupsAllowed);
      assert Now() == Created(slab, Now().mem);
    }

    method LocateEntry(key: Key) returns (dhte: Entry?, phte: Entry?)
      requires Valid()
      ensures var h := Index(key, |table|); h < |items| == |chains| && var j := FirstMatch(items[h], key);
              if j == |items[h]| then dhte == null
              else j < |chains[h]| && dhte == chains[h][j] && phte == (if j == 0 then null else chains[h][j - 1])
    {
      hide Ok, Index, Holds;
      NotEmpty(Now(), dupsAllowed);
      var h := HashBytes(key, |table|);
      BucketFacts(Now(), dupsAllowed, h);
      BucketLength(Now().mem, chains[h], items[h]);
      dhte, phte := WalkChain(table[h], key, Now().mem, chains[h], items[h]);
    }

    /** `ht_locate_key`. */
    method LocateKey(key: Key) returns (data: Option<Data>)
      requires Valid()
      ensures table != [] && |items| == |table|
      ensures data == Locate(items, key)
    {
      hide Ok, Index, Holds;
      NotEmpty(Now(), dupsAllowed);
      var hte, _ := LocateEntry(key);
      if hte == null {
        return None;
      }
      ghost var h := Index(key, |table|);
      BucketFacts(Now(), dupsAllowed, h);
      MatchFacts(Now().mem, chains[h], items[h], key);
      return Some(hte.data);
    }

    /** One unoccupied record goes to the front of the free chain. */
    method Dangle(ohte: Entry)
      requires Structure(Now()) && ohte !in entries && !ohte.occupied
      modifies this`freechain, this`entries, this`free, this`place, ohte`next
      ensures Structure(Now())
      ensures entries == old(entries) + {ohte} && free == [ohte] + old(free)
    {
      hide Structure;
      ghost var s := Now();
      ohte.next := freechain;
      freechain := ohte;
      ghost var s' := Dangled(s, ohte, Snap(ohte));
      DangledStructure(s, ohte, Snap(ohte));
      entries, free, place := entries + {ohte}, s'.free, s'.place;
      assert Now().mem == s'.mem;
    }

    /** A new slab is put on the slab list and all its records on the free chain. */
    method Refill()
      requires Valid() && free == []
      modifies this`slabs, this`freechain, this`entries, this`free, this`place
      ensures Structure(Now()) && Supplied(Now())
      ensures fresh(entries - old(entries)) && old(entries) <= entries
      ensures items == old(items) && chains == old(chains)
      ensures |slabs| == |old(slabs)| + 1 && slabs[1..] == old(slabs)
      ensures |slabs[0]| == |table| && free == slabs[0] && forall e :: e in slabs[0] ==> fresh(e)
    {
      hide Ok, Structure, Supplied, Accounted;
      NotEmpty(Now(), dupsAllowed);
      StructureOf(Now(), dupsAllowed);
      ghost var before := Now();
      var slab := CreateSlab(|table|);
      slabs := [slab] + slabs;
      SlabListed(before, Now());
      DangleAll(slab);
      assert slab + [] == slab;
      SuppliedAgain(before, Now(), dupsAllowed);
    }

    /** All records of a slab go to the free chain, the first one to its front. */
    method DangleAll(slab: Slab)
      requires Structure(Now()) && AllDistinct(slab)
      requires forall e :: e in slab ==> e !in entries && !e.occupied
      modifies this`freechain, this`entries, this`free, this`place, slab
      ensures Structure(Now())
      ensures entries == old(entries) + Elements(slab) && free == slab + old(free)
    {
      hide Structure, Elements, AllDistinct;
      var k := |slab|;
      NoElements(slab[k..]);
      NothingLeft(slab, free);
      while k != 0
        invariant 0 <= k <= |slab|
        invariant Structure(Now())
        invariant free == slab[k..] + old(free)
        invariant entries == old(entries) + Elements(slab[k..])
        invariant forall e :: e in slab ==> !e.occupied
      {
        k := k - 1;
        TailStep(slab, k, old(free));
        Dangle(slab[k]);
      }
      AllOfIt(slab);
    }

    /** The empty head slot takes the item. */
    method FillHead(ghost h: nat, dhte: Entry, key: Key, data: Data)
      requires Valid() && h < |table| == |items| && dhte == table[h] && h == Index(key, |table|)
      requires items[h] == []
      modifies dhte, this`items
      ensures Valid()
      ensures items == Insert(old(items), dupsAllowed, Item(key, data))
    {
      hide Ok, Index, Holds, Insert;
      ghost var s := Now();
      BucketFacts(s, dupsAllowed, h);
      BucketLength(s.mem, chains[h], items[h]);
      assert chains[h][0] in s.mem;
      dhte.occupied := true;
      dhte.key, dhte.data := key, data;
      items := items[h := [Item(key, data)]];
      FilledOk(s, dupsAllowed, h, Snap(dhte), Item(key, data));
      assert Now() == HeadSet(s, h, Snap(dhte), [Item(key, data)]);
    }

    /** A free record takes the item and is linked in behind the head. */
    method HangEntry(ghost h: nat, dhte: Entry, key: Key, data: Data)
      requires Structure(Now()) && Supplied(Now()) && Good(items, dupsAllowed)
      requires h < |table| == |items| == |chains| && dhte == table[h] && h == Index(key, |table|)
      requires items[h] != [] && !Refused(items, dupsAllowed, key)
      modifies this`freechain, this`items, this`chains, this`free, this`place, this`peak, entries
      ensures Valid()
      ensures items == Insert(old(items), dupsAllowed, Item(key, data))
      ensures peak == Max(old(peak), Chained(items))
      ensures old(free) != [] && free == old(free)[1..]
      ensures h < |old(chains)| && |old(chains)[h]| > 0
      ensures chains == old(chains)[h := [dhte, old(free)[0]] + old(chains)[h][1..]]
    {
      hide Ok, Index, Structure, Supplied, Good, Refused, Insert, Chained, Push, Max;
      ghost var s, x := Now(), Item(key, data);
      HangFacts(s, h);
      ghost var s' := Hung(s, h, x);
      HungFields(s, h, x);
      HungOk(s, dupsAllowed, h, x);
      hide Hung, First;
      TakeFirstFree(dhte, key, data);
      Adopt(s');
    }

    /** The ghost fields follow what was done to the records. */
    ghost method Adopt(s: State)
      requires s == State(Now().mem, table, slabs, freechain, s.items, s.chains, s.free, s.place, s.peak)
      modifies this`items, this`chains, this`free, this`place, this`peak
      ensures Now() == s
    {
      items, chains, free, place, peak := s.items, s.chains, s.free, s.place, s.peak;
    }

    /** The first free record takes the item and is linked in behind `dhte`. */
    method TakeFirstFree(dhte: Entry, key: Key, data: Data)
      requires freechain in entries && dhte in entries && freechain != dhte
      modifies this`freechain, entries
      ensures freechain == old(freechain.next)
      ensures Now().mem == old(Now().mem)[old(freechain) := Rec(old(dhte.next), key, data, true)]
                                         [dhte := old(Now().mem)[dhte].(next := old(freechain))]
    {
      var ohte := freechain;
      freechain := ohte.next;
      LinkBehind(dhte, ohte, key, data);
    }

    /** A second item of a bucket: a free record is taken, from a new slab if need be. */
    method ChainEntry(ghost h: nat, dhte: Entry, key: Key, data: Data)
      requires Valid() && h < |table| == |items| && dhte == table[h] && h == Index(key, |table|)
      requires items[h] != [] && !Refused(items, dupsAllowed, key)
      modifies this, entries
      ensures Valid() && fresh(entries - old(entries))
      ensures items == Insert(old(items), dupsAllowed, Item(key, data)) && table == old(table)
      ensures peak == Max(old(peak), Chained(items))
    {
      hide Ok, Structure, Supplied, Good, Index, Insert, Chained;
      NotEmpty(Now(), dupsAllowed);
      StructureOf(Now(), dupsAllowed);
      if freechain == null {
        FreeEmpty(Now());
        Refill();
      } else {
        SuppliedNow(Now(), dupsAllowed);
      }
      HangEntry(h, dhte, key, data);
    }

    /** `ht_insert_key`; `crossed` is the load threshold's verdict after the insertion. */
    method InsertKey(key: Key, data: Data, crossed: bool) returns (ret: int)
      requires Valid()
      modifies this, entries
      ensures Valid() && fresh(entries - old(entries))
      ensures |old(items)| == |old(table)| > 0
      ensures ret == if Refused(old(items), dupsAllowed, key) then -1 else 0
      ensures items == Buckets.InsertKey(old(items), dupsAllowed, resizeImplicit, crossed, Item(key, data))
      ensures if resizeImplicit && crossed && Chained(Insert(old(items), dupsAllowed, Item(key, data))) > Chained(old(items))
              then |table| == 2 * |old(table)| && peak == Chained(items)
              else table == old(table) && peak == Max(old(peak), Chained(items))
      decreases if resizeImplicit then 3 else 0
    {
      hide Ok, Structure, Supplied, Good, Index, Holds, Insert, FirstMatch, Chained, InsertAll, Visit, Buckets.Resize, Max;
      NotEmpty(Now(), dupsAllowed);
      RegrowsExactly(items, dupsAllowed, resizeImplicit, crossed, Item(key, data));
      var h := HashBytes(key, |table|);
      var dhte := table[h];
      BucketFacts(Now(), dupsAllowed, h);
      HeadOccupied(Now(), h);
      BucketLength(Now().mem, chains[h], items[h]);
      if !dhte.occupied {
        NeverRefusedWhenEmpty(items, dupsAllowed, key);
        FillHead(h, dhte, key, data);
        PeakCovers(Now(), dupsAllowed);
        return 0;
      }
      var found := FindDuplicate(dhte, key, dupsAllowed, Now().mem, chains[h], items[h]);
      if found {
        RefusedInsert(items, dupsAllowed, Item(key, data));
        PeakCovers(Now(), dupsAllowed);
        return -1;
      }
      ChainEntry(h, dhte, key, data);
      if resizeImplicit && crossed {
        NotEmpty(Now(), dupsAllowed);
        ret := Resize(|table| * 2);
        return ret;
      }
      return 0;
    }

    /** `ht_resize`: a new table without implicit resizing is filled, last bucket
        first and each head before its chain, and its pointers are taken over. */
    method Resize(numents: nat) returns (ret: int)
      requires Valid()
      modifies this
      ensures Valid() && fresh(entries - old(entries))
      ensures |old(items)| > 0
      ensures ret == if numents == 0 then -1 else 0
      ensures items == Buckets.Resize(old(items), dupsAllowed, numents)
      ensures if numents == 0 then Now() == old(Now()) else |table| == numents && peak == Chained(items)
      decreases 2, 1
    {
      hide Ok, Structure;
      NotEmpty(Now(), dupsAllowed);
      if numents == 0 {
        return -1;
      }
      var nht := Rebuild(numents);
      TakeOver(nht);
      return 0;
    }

    /** The pointers of the new table are taken over; the old slabs, free chain and
        table go with the old table object. */
    method TakeOver(nht: HashTable)
      requires nht != this
      modifies this
      ensures Now() == nht.Now()
      ensures items == nht.items && entries == nht.entries
    {
      table, slabs, freechain := nht.table, nht.slabs, nht.freechain;
      entries, items, chains, free, place, peak := nht.entries, nht.items, nht.chains, nht.free, nht.place, nht.peak;
      assert Now().mem == nht.Now().mem;
    }

    /** The resize loop over the old buckets. */
    method Rebuild(numents: nat) returns (nht: HashTable)
      requires Valid() && numents > 0
      ensures nht.Valid() && fresh(nht) && fresh(nht.entries) && nht.dupsAllowed == dupsAllowed
      ensures |items| > 0 && nht.items == Buckets.Resize(items, dupsAllowed, numents)
      ensures |nht.table| == numents && nht.peak == Chained(nht.items)
      decreases 2, 0
    {
      hide Ok, Good, Index, Holds, Insert, FirstMatch, Chained, InsertAll, Visit, Structure;
      NotEmpty(Now(), dupsAllowed);
      ghost var s := Now();
      StructureOf(s, dupsAllowed);
      nht := new HashTable(numents, dupsAllowed, false);
      var hte := |table|;
      ghost var visited: seq<Item> := [];
      assert items[..hte] == items;
      InsertAllNone(Empty(numents), dupsAllowed);
      EmptyFacts(numents);
      while hte != 0
        invariant 0 <= hte <= |table|
        invariant nht.Valid() && fresh(nht) && fresh(nht.entries)
        invariant nht.dupsAllowed == dupsAllowed && !nht.resizeImplicit
        invariant visited + Visit(items[..hte]) == Visit(items)
        invariant nht.items == InsertAll(Empty(numents), dupsAllowed, visited)
        invariant |nht.table| == numents && nht.peak == Chained(nht.items)
      {
        hte := hte - 1;
        VisitSplit(items, hte);
        BucketFacts(s, dupsAllowed, hte);
        BucketLength(s.mem, chains[hte], items[hte]);
        nht.Transfer(table[hte], numents, s.mem, chains[hte], items[hte], items, visited, Visit(items[..hte]));
        visited := visited + items[hte];
      }
      VisitNone(items, visited);
    }

    /** The body of the resize loop: one old bucket is inserted into the new table. */
    method Transfer(hte: Entry, ghost size: nat, ghost mem: map<Entry, Rec>, ghost c: seq<Entry>, ghost b: Bucket,
                    ghost t: Table, ghost done: seq<Item>, ghost rest: seq<Item>)
      requires Valid() && !resizeImplicit && size > 0
      requires Holds(mem, c, b) && Mirrors(mem, c) && |c| > 0 && hte == c[0]
      requires forall j {:trigger c[j]} :: 0 <= j < |c| ==> c[j] !in entries
      requires Good(t, dupsAllowed) && Visit(t) == done + b + rest
      requires items == InsertAll(Empty(size), dupsAllowed, done) && peak == Chained(items)
      modifies this, entries
      ensures Valid() && fresh(entries - old(entries))
      ensures items == InsertAll(Empty(size), dupsAllowed, done + b)
      ensures table == old(table) && peak == Chained(items)
      decreases 1
    {
      hide Ok, Good, Index, Insert, FirstMatch, Chained, InsertAll, Visit, Refused, Regrows, Buckets.InsertKey, Max;
      var ret := 0;
      assert b[..0] == [] && done + [] == done;
      if hte.occupied {
        RebuildStep(t, dupsAllowed, size, done, b, rest, 0);
        PlainInsert(items, dupsAllowed, b[0]);
        ret := InsertKey(hte.key, hte.data, false);
        assert ret == 0;
      } else {
        assert done + b == done;
      }
      ghost var j := 0;
      assert mem[c[0]].next == NextOf(c, 0);
      var chte := hte.next;
      while chte != null
        invariant 0 <= j < |c| && chte == NextOf(c, j)
        invariant Valid() && fresh(entries - old(entries))
        invariant Mirrors(mem, c)
        invariant items == InsertAll(Empty(size), dupsAllowed, done + (if b == [] then [] else b[..j + 1]))
        invariant table == old(table) && peak == Chained(items)
        decreases |c| - j
      {
        j := j + 1;
        RebuildStep(t, dupsAllowed, size, done, b, rest, j);
        PlainInsert(items, dupsAllowed, b[j]);
        ret := InsertKey(chte.key, chte.data, false);
        assert ret == 0;
        assert mem[c[j]].next == NextOf(c, j);
        chte := chte.next;
      }
      assert b != [] ==> b[..j + 1] == b;
    }

    /** `ht_delete_key`: the contents lose the first match; the address handed back is
        that of the record that was freed. */
    method DeleteKey(key: Key) returns (data: Option<Data>)
      requires Valid()
      modifies this, entries
      ensures Valid() && entries == old(entries)
      ensures |old(items)| == |old(table)| > 0
      ensures table == old(table) && slabs == old(slabs) && peak == old(peak)
      ensures items == Delete(old(items), key)
      ensures data == DeleteReturns(old(items), key)
    {
      hide Ok, Index, Holds, Structure, Accounted, Good, Delete, DeleteReturns;
      NotEmpty(Now(), dupsAllowed);
      var dhte, phte := LocateEntry(key);
      ghost var h := Index(key, |table|);
      ghost var j := FirstMatch(items[h], key);
      DeleteFacts(items, key);
      if dhte == null {
        return None;
      }
      FoundFacts(Now(), dupsAllowed, key);
      hide FirstMatch, RemoveAt;
      if phte == null {
        if dhte.next == null {
          data := Some(dhte.data);
          ClearHead(h, key, dhte);
          return;
        }
        phte, dhte := dhte, dhte.next;
        data := Some(dhte.data);
        Promote(h, phte, dhte);
        j := 1;
      } else {
        data := Some(dhte.data);
      }
      Unlink(h, j, phte, dhte);
      OkFrom(Now(), dupsAllowed);
    }

    /** A head without a chain is marked unoccupied. */
    method ClearHead(ghost h: nat, key: Key, dhte: Entry)
      requires Valid() && h < |table| == |items| && h == Index(key, |table|) && dhte == table[h]
      requires |items[h]| == 1 && items[h][0].key == key
      modifies dhte`occupied, this`items
      ensures Valid() && items == Delete(old(items), key)
    {
      hide Ok, Index, Holds, Delete;
      ghost var s := Now();
      BucketFacts(s, dupsAllowed, h);
      BucketLength(s.mem, chains[h], items[h]);
      assert chains[h][0] in s.mem;
      dhte.occupied := false;
      items := items[h := []];
      ClearedOk(s, dupsAllowed, h, Snap(dhte), key);
      assert Now() == HeadSet(s, h, Snap(dhte), []);
    }

    /** The head slot `phte` takes the contents of its successor `dhte`. */
    method Promote(ghost h: nat, phte: Entry, dhte: Entry)
      requires Structure(Now()) && Accounted(Now()) && h < |table| == |items| == |chains|
      requires |items[h]| == |chains[h]| > 1 && phte == chains[h][0] == table[h] && dhte == chains[h][1]
      modifies phte`key, phte`data, phte`occupied, this`items
      ensures Structure(Now()) && Accounted(Now())
      ensures items == old(items)[h := old(items)[h][0 := old(items)[h][1]]]
    {
      hide Structure, Accounted;
      ghost var s := Now();
      InMemory(s, h);
      phte.key, phte.data, phte.occupied := dhte.key, dhte.data, dhte.occupied;
      items := items[h := items[h][0 := items[h][1]]];
      PromotedOk(s, h, Snap(phte));
      assert Now() == HeadSet(s, h, Snap(phte), items[h]);
    }

    /** The record `dhte` leaves its chain for the free chain. */
    method Unlink(ghost h: nat, ghost j: nat, phte: Entry, dhte: Entry)
      requires Structure(Now()) && Accounted(Now()) && h < |table| == |items| == |chains|
      requires |items[h]| == |chains[h]| && 0 < j < |items[h]|
      requires phte == chains[h][j - 1] && dhte == chains[h][j]
      modifies phte`next, dhte`next, dhte`occupied, this`freechain, this`items, this`chains, this`free, this`place, this`peak
      ensures Structure(Now()) && Accounted(Now())
      ensures items == old(items)[h := RemoveAt(old(items)[h], j)]
      ensures free == [dhte] + old(free) && peak == old(peak)
      ensures chains == old(chains)[h := old(chains)[h][..j] + old(chains)[h][j + 1..]]
    {
      hide Structure, Accounted;
      ghost var s := Now();
      InMemory(s, h);
      UnlinkedOk(s, h, j);
      assert phte != dhte;
      ghost var s' := Unlinked(s, h, j);
      assert s'.mem == s.mem[phte := s.mem[phte].(next := dhte.next)][dhte := s.mem[dhte].(next := freechain, occupied := false)];
      assert s' == s.(mem := s'.mem, freechain := dhte, free := s'.free, chains := s'.chains, place := s'.place, items := s'.items);
      assert s'.items == items[h := RemoveAt(items[h], j)] && s'.free == [dhte] + free;
      assert s'.chains == chains[h := chains[h][..j] + chains[h][j + 1..]];
      hide RemoveAt, MovedPlaces, AllDistinct, Unlinked;
      FreeAfter(phte, dhte, freechain);
      freechain := dhte;
      assert Now().mem == s'.mem;
      Adopt(s');
    }
  }

  /** Without implicit resizing an insertion only inserts, and the peak is the new count. */
  lemma PlainInsert(t: Table, dups: bool, x: Item)
    requires |t| > 0
    ensures !Regrows(t, dups, false, false, x.key)
    ensures Buckets.InsertKey(t, dups, false, false, x) == Insert(t, dups, x)
    ensures Max(Chained(t), Chained(Insert(t, dups, x))) == Chained(Insert(t, dups, x))
  {
    ChainedGrows(t, dups, x);
  }

  lemma VisitSplit(t: Table, h: nat)
    requires h < |t|
    ensures Visit(t[..h + 1]) == t[h] + Visit(t[..h])
  {
    assert t[..h + 1][..h] == t[..h];
  }

  lemma VisitNone(t: Table, xs: seq<Item>)
    ensures xs + Visit(t[..0]) == xs
  {
  }

  lemma InsertAllNone(t: Table, dups: bool)
    requires |t| > 0
    ensures InsertAll(t, dups, []) == t
  {
  }

  /** Re-inserting the next visited item is never refused. */
  lemma RebuildStep(t: Table, dups: bool, size: nat, done: seq<Item>, b: Bucket, rest: seq<Item>, j: nat)
    requires Good(t, dups) && size > 0 && Visit(t) == done + b + rest && j < |b|
    ensures !Refused(InsertAll(Empty(size), dups, done + b[..j]), dups, b[j].key)
    ensures InsertAll(Empty(size), dups, done + b[..j + 1])
         == Insert(InsertAll(Empty(size), dups, done + b[..j]), dups, b[j])
  {
    hide Good, Refused, Insert, Visit;
    var k := |done| + j;
    assert Visit(t)[..k] == done + b[..j] && Visit(t)[k] == b[j];
    ResizeNeverRefused(t, dups, size, k);
    InsertAllSnoc(Empty(size), dups, done + b[..j], b[j]);
    assert done + b[..j] + [b[j]] == done + b[..j + 1];
  }

  lemma HeadOccupied(s: State, h: nat)
    requires h < |s.chains| && h < |s.items| && s.chains[h] != [] && Holds(s.mem, s.chains[h], s.items[h])
    ensures s.chains[h][0] in s.mem && s.mem[s.chains[h][0]].occupied == (s.items[h] != [])
  {
  }

  lemma NeverRefusedWhenEmpty(t: Table, dups: bool, key: Key)
    requires |t| > 0 && t[Index(key, |t|)] == []
    ensures !Refused(t, dups, key)
  {
  }

  lemma RefusedInsert(t: Table, dups: bool, x: Item)
    requires |t| > 0 && Refused(t, dups, x.key)
    ensures Insert(t, dups, x) == t
  {
  }

  lemma PeakCovers(s: State, dups: bool)
    requires Ok(s, dups)
    ensures Chained(s.items) <= s.peak && Max(s.peak, Chained(s.items)) == s.peak
  {
  }

  /** Every record of every slab stands in exactly one place. */
  lemma OnePlaceEach(s: State, dups: bool, i: nat, j: nat, p: Place)
    requires Ok(s, dups) && i < |s.slabs| && j < |s.slabs[i]|
    ensures s.slabs[i][j] in s.place
    ensures Stands(s.chains, s.free, s.slabs[i][j], p) <==> p == s.place[s.slabs[i][j]]
  {
    SlabRecords(s, dups, i, j);
    StandsOnce(s, dups, s.slabs[i][j], p);
  }

  lemma StandsOnce(s: State, dups: bool, e: Entry, p: Place)
    requires Ok(s, dups) && e in s.mem
    ensures e in s.place && (Stands(s.chains, s.free, e, p) <==> p == s.place[e])
  {
    assert Stands(s.chains, s.free, e, s.place[e]);
    if Stands(s.chains, s.free, e, p) {
      match p
      case Head(h) => assert PlacedBucket(s.place, s.chains[h], h);
      case Chain(h, k) => assert PlacedBucket(s.place, s.chains[h], h);
      case Free(k) =>
    }
  }

  lemma SlabRecords(s: State, dups: bool, i: nat, j: nat)
    requires Ok(s, dups) && i < |s.slabs| && j < |s.slabs[i]|
    ensures s.slabs[i][j] in s.mem
  {
    hide Structure, Good;
    InRecords(s.slabs, i, j);
  }

  lemma TailStep(slab: Slab, k: nat, rest: seq<Entry>)
    requires k < |slab| && AllDistinct(slab)
    ensures slab[k] !in slab[k + 1..]
    ensures [slab[k]] + (slab[k + 1..] + rest) == slab[k..] + rest
    ensures Elements(slab[k..]) == Elements(slab[k + 1..]) + {slab[k]}
    ensures slab[k] !in Elements(slab[k + 1..])
  {
    assert slab[k..] == [slab[k]] + slab[k + 1..];
    assert forall i :: k < i < |slab| ==> slab[i] != slab[k];
  }

  lemma NothingLeft(slab: Slab, rest: seq<Entry>)
    ensures slab[|slab|..] + rest == rest
  {
  }

  lemma AllOfIt(slab: Slab)
    ensures slab[0..] == slab
  {
  }

  lemma NoElements(c: seq<Entry>)
    requires c == []
    ensures Elements(c) == {}
  {
  }

  /** Where a slab's record stands among the records of all slabs. */
  ghost function Offset(slabs: seq<Slab>, i: nat): nat
    requires i <= |slabs|
  {
    if i == 0 then 0 else |slabs[0]| + Offset(slabs[1..], i - 1)
  }

  lemma {:induction false} InRecords(slabs: seq<Slab>, i: nat, j: nat)
    requires i < |slabs| && j < |slabs[i]|
    ensures Offset(slabs, i) + j < |Records(slabs)| && Records(slabs)[Offset(slabs, i) + j] == slabs[i][j]
  {
    if i > 0 {
      InRecords(slabs[1..], i - 1, j);
    }
  }

  lemma {:induction false} OffsetsApart(slabs: seq<Slab>, i: nat, k: nat)
    requires i < k < |slabs|
    ensures Offset(slabs, i) + |slabs[i]| <= Offset(slabs, k)
  {
    if i > 0 {
      OffsetsApart(slabs[1..], i - 1, k - 1);
    }
  }

  /** The records of the slabs are pairwise different, within a slab and across slabs. */
  lemma SlabsApart(s: State, dups: bool, i: nat, j: nat, k: nat, m: nat)
    requires Ok(s, dups) && i < |s.slabs| && j < |s.slabs[i]| && k < |s.slabs| && m < |s.slabs[k]|
    ensures s.slabs[i][j] == s.slabs[k][m] <==> i == k && j == m
  {
    hide Structure, Good;
    InRecords(s.slabs, i, j);
    InRecords(s.slabs, k, m);
    if i < k {
      OffsetsApart(s.slabs, i, k);
    } else if k < i {
      OffsetsApart(s.slabs, k, i);
    }
    hide Records, Offset;
    var rs := Records(s.slabs);
    assert rs[Offset(s.slabs, i) + j] == s.slabs[i][j] && rs[Offset(s.slabs, k) + m] == s.slabs[k][m];
  }

  /** An occupied head slot or chain record hashes to its bucket; an unoccupied head
      has no chain, and nothing on the free chain is occupied. */
  lemma RecordsMatchPlaces(s: State, dups: bool, e: Entry)
    requires Ok(s, dups) && e in s.mem
    ensures match s.place[e]
            case Head(h) =>
              && h < |s.table| && s.table[h] == e
              && (s.mem[e].occupied ==> Index(s.mem[e].key, |s.table|) == h)
              && (!s.mem[e].occupied ==> s.mem[e].next == null)
            case Chain(h, _) => s.mem[e].occupied && Index(s.mem[e].key, |s.table|) == h
            case Free(_) => !s.mem[e].occupied
  {
    hide Index;
    assert Stands(s.chains, s.free, e, s.place[e]);
    match s.place[e]
    case Head(h) =>
      BucketFacts(s, dups, h);
      NextFacts(s.mem, s.chains[h], s.items[h], 0);
      if s.mem[e].occupied {
        assert s.mem[e].key == s.items[h][0].key;
      }
    case Chain(h, k) =>
      BucketFacts(s, dups, h);
      var j := |s.chains[h]| - k;
      assert s.mem[s.chains[h][j]].key == s.items[h][j].key;
    case Free(k) =>
  }

  /** The number of overflow slabs is the peak divided by the slab size, rounded up. */
  lemma SlabsMatchPeak(s: State, dups: bool)
    requires Ok(s, dups)
    ensures |s.slabs| - 1 == (s.peak + |s.table| - 1) / |s.table|
    ensures Chained(s.items) + |s.free| == |s.table| * (|s.slabs| - 1)
  {
    hide Structure, Good;
    NotEmpty(s, dups);
    var n, k := |s.table|, |s.slabs| - 1;
    var x := s.peak + n - 1;
    assert n * k <= x < n * k + n by {
      assert k > 0 ==> n * (k - 1) == n * k - n;
    }
    Quotient(x, n, k);
  }

  lemma Quotient(x: nat, n: nat, k: int)
    requires n > 0 && n * k <= x < n * k + n
    ensures x / n == k
  {
    var q := x / n;
    assert x == n * q + x % n;
    assert q < k ==> n * (q + 1) <= n * k;
    assert q > k ==> n * (k + 1) <= n * q;
  }

  lemma FreeEmpty(s: State)
    requires Structure(s) && s.freechain == null
    ensures s.free == []
  {
  }

  lemma SuppliedNow(s: State, dups: bool)
    requires Ok(s, dups) && s.freechain != null
    ensures Supplied(s)
  {
  }

  /** `ht_create`: an empty table cannot be asked for. */
  method Create(numents: nat, dupsAllowed: bool, resizeImplicit: bool) returns (ht: HashTable?)
    ensures ht == null <==> numents == 0
    ensures ht != null ==> ht.Valid() && fresh(ht) && fresh(ht.entries) && ht.items == Empty(numents)
    ensures ht != null ==> ht.slabs == [ht.table] && |ht.table| == numents && ht.peak == 0
    ensures ht != null ==> ht.dupsAllowed == dupsAllowed && ht.resizeImplicit == resizeImplicit
  {
    if numents == 0 {
      return null;
    }
    ht := new HashTable(numents, dupsAllowed, resizeImplicit);
  }

  lemma InMemory(s: State, h: nat)
    requires Structure(s) && h < |s.chains|
    ensures forall j {:trigger s.chains[h][j]} :: 0 <= j < |s.chains[h]| ==> s.chains[h][j] in s.mem
    ensures AllDistinct(s.chains[h])
  {
    assert Holds(s.mem, s.chains[h], s.items[h]);
    ChainDistinct(s, h);
  }

  lemma NextFacts(mem: map<Entry, Rec>, c: seq<Entry>, b: Bucket, j: nat)
    requires Holds(mem, c, b) && j < |c|
    ensures c[j] in mem && mem[c[j]].next == NextOf(c, j)
  {
  }

  lemma OkFrom(s: State, dups: bool)
    requires Structure(s) && Accounted(s) && Good(s.items, dups)
    ensures Ok(s, dups)
  {
  }

  /** Delete case by case, as the code distinguishes them. */
  lemma DeleteFacts(t: Table, key: Key)
    requires |t| > 0
    ensures var h := Index(key, |t|); var b := t[h]; var j := FirstMatch(b, key);
            if j == |b| then Delete(t, key) == t && DeleteReturns(t, key) == None
            else
              && Delete(t, key) == t[h := RemoveAt(b, j)]
              && (j == 0 && |b| > 1 ==>
                    && t[h := b[0 := b[1]]][h := RemoveAt(b[0 := b[1]], 1)] == Delete(t, key)
                    && DeleteReturns(t, key) == Some(b[1].data))
              && (j != 0 || |b| == 1 ==> DeleteReturns(t, key) == Some(b[j].data))
  {
    hide Index;
    var h := Index(key, |t|);
    if |t[h]| > 1 {
      RemovePromoted(t[h]);
    }
  }

  lemma FoundFacts(s: State, dups: bool, key: Key)
    requires Ok(s, dups) && |s.items| > 0
    requires HasKey(s.items[Index(key, |s.items|)], key)
    ensures Structure(s) && Accounted(s) && Good(Delete(s.items, key), dups)
    ensures |s.items| == |s.chains| == |s.table|
    ensures var h := Index(key, |s.items|); var c, b := s.chains[h], s.items[h]; var j := FirstMatch(b, key);
            && |c| == |b| > j && c[0] == s.table[h]
            && (forall i {:trigger c[i]} :: 0 <= i < |c| ==> c[i] in s.mem && s.mem[c[i]].data == b[i].data)
            && s.mem[c[j]].next == NextOf(c, j)
  {
    hide Index, Holds;
    var h := Index(key, |s.items|);
    StructureOf(s, dups);
    DeleteIsGood(s.items, dups, key);
    assert |s.table| == |s.items|;
    BucketFacts(s, dups, h);
    MatchFacts(s.mem, s.chains[h], s.items[h], key);
    NextFacts(s.mem, s.chains[h], s.items[h], FirstMatch(s.items[h], key));
  }

  method FreeAfter(phte: Entry, dhte: Entry, freechain: Entry?)
    requires phte != dhte
    modifies phte`next, dhte`next, dhte`occupied
    ensures Snap(phte) == old(Snap(phte)).(next := old(dhte.next))
    ensures Snap(dhte) == old(Snap(dhte)).(next := freechain, occupied := false)
  {
    dhte.occupied := false;
    phte.next := dhte.next;
    dhte.next := freechain;
  }

  method LinkBehind(dhte: Entry, ohte: Entry, key: Key, data: Data)
    requires dhte != ohte
    modifies dhte, ohte
    ensures Snap(ohte) == Rec(old(dhte.next), key, data, true)
    ensures Snap(dhte) == old(Snap(dhte)).(next := ohte)
  {
    ohte.next := null;
    ohte.occupied := true;
    ohte.key, ohte.data := key, data;
    ohte.next := dhte.next;
    dhte.next := ohte;
  }

  lemma HangFacts(s: State, h: nat)
    requires Structure(s) && Supplied(s) && h < |s.table|
    ensures h < |s.chains| && h < |s.items| && |s.chains[h]| > 0 && s.chains[h][0] == s.table[h]
    ensures s.table[h] in s.mem
    ensures s.free != [] && s.freechain == s.free[0] && s.freechain in s.mem && s.freechain != s.table[h]
    ensures s.mem[s.freechain].next == First(s.free[1..])
  {
    HeadRecord(s, h);
    FreeRecord(s);
    assert s.free[0] !in s.chains[h];
    assert s.mem[s.free[0]].next == NextOf(s.free, 0);
  }

  lemma StructureOf(s: State, dups: bool)
    requires Ok(s, dups)
    ensures Structure(s) && Accounted(s) && Good(s.items, dups)
  {
  }

  lemma SlabListed(s: State, s': State)
    requires Structure(s) && s' == s.(slabs := s'.slabs)
    ensures Structure(s')
  {
  }

  lemma OwnedAgain(entries: set<Entry>, slabs: seq<Slab>, entries': set<Entry>, slab: Slab)
    requires Owned(entries, slabs) && AllDistinct(slab) && forall e :: e in slab ==> e !in entries
    requires forall e :: e in entries' <==> e in entries || e in slab
    ensures Owned(entries', [slab] + slabs)
  {
    assert ([slab] + slabs)[1..] == slabs;
    assert Records([slab] + slabs) == slab + Records(slabs);
    DistinctConcat(slab, Records(slabs));
  }

  lemma DistinctConcat(a: seq<Entry>, b: seq<Entry>)
    requires AllDistinct(a) && AllDistinct(b) && forall e :: e in a ==> e !in b
    ensures AllDistinct(a + b)
  {
    forall i, k | 0 <= i < k < |a + b|
      ensures (a + b)[i] != (a + b)[k]
    {
      assert k >= |a| ==> (a + b)[k] == b[k - |a|] && (a + b)[k] in b;
      assert i < |a| ==> (a + b)[i] in a;
    }
  }

  lemma SuppliedAgain(s: State, s': State, dups: bool)
    requires Ok(s, dups) && s.free == []
    requires s'.table == s.table && s'.items == s.items && s'.peak == s.peak
    requires |s'.free| == |s.table| && |s'.slabs| > 0 && s'.slabs == [s'.slabs[0]] + s.slabs && |s'.slabs[0]| == |s.table|
    requires AllDistinct(s'.slabs[0]) && forall e :: e in s'.slabs[0] ==> e !in s.mem
    requires forall e :: e in s'.mem <==> e in s.mem || e in s'.slabs[0]
    ensures Supplied(s')
  {
    hide Partition, Contents, Good, Chained;
    OwnedAgain(s.mem.Keys, s.slabs, s'.mem.Keys, s'.slabs[0]);
    hide Owned;
    OneMoreSlab(|s.table|, |s.slabs|);
    var n, k := |s.table|, |s.slabs|;
    assert |s'.slabs| == k + 1 && s'.slabs[k] == s.slabs[k - 1] == s.table;
    assert forall i :: 1 <= i < |s'.slabs| ==> s'.slabs[i] == s.slabs[i - 1];
    assert n * (|s'.slabs| - 1) == n * k && n * (|s'.slabs| - 2) == n * (k - 1);
  }

  lemma OneMoreSlab(n: nat, k: int)
    ensures n * k == n * (k - 1) + n
  {
  }

  lemma MatchFacts(mem: map<Entry, Rec>, c: seq<Entry>, b: Bucket, key: Key)
    requires Holds(mem, c, b) && HasKey(b, key)
    ensures |c| == |b|
    ensures forall j {:trigger c[j]} :: 0 <= j < |c| ==> c[j] in mem && mem[c[j]].data == b[j].data
  {
  }

  /** A freshly created table: one slab, all heads empty. */
  ghost function Created(slab: Slab, mem: map<Entry, Rec>): State
    requires AllDistinct(slab)
  {
    State(mem, slab, [slab], null, Empty(|slab|), seq(|slab|, h requires 0 <= h < |slab| => [slab[h]]), [],
          map j | 0 <= j < |slab| :: slab[j] := Head(j), 0)
  }

  lemma OneSlab(slab: Slab)
    ensures Records([slab]) == slab
  {
    assert [slab][1..] == [];
    assert Records([]) == [];
  }

  lemma CreatedOk(slab: Slab, mem: map<Entry, Rec>, dups: bool)
    requires slab != [] && AllDistinct(slab)
    requires forall e :: e in mem <==> e in slab
    requires forall e :: e in mem ==> mem[e].next == null && !mem[e].occupied
    ensures Ok(Created(slab, mem), dups)
  {
    hide Good;
    EmptyIsGood(|slab|, dups);
    CreatedContents(slab, mem);
    CreatedPartition(slab, mem);
    OneSlab(slab);
    hide Partition, Contents;
  }

  lemma CreatedContents(slab: Slab, mem: map<Entry, Rec>)
    requires AllDistinct(slab)
    requires forall e :: e in mem <==> e in slab
    requires forall e :: e in mem ==> mem[e].next == null && !mem[e].occupied
    ensures Contents(Created(slab, mem))
  {
    forall h | 0 <= h < |slab|
      ensures Holds(mem, [slab[h]], [])
    {
      assert slab[h] in mem;
    }
  }

  lemma CreatedPartition(slab: Slab, mem: map<Entry, Rec>)
    requires AllDistinct(slab)
    requires forall e :: e in mem <==> e in slab
    ensures Partition(Created(slab, mem))
  {
    var s := Created(slab, mem);
    forall h | 0 <= h < |slab|
      ensures PlacedBucket(s.place, s.chains[h], h)
    {
      assert slab[h] in s.place;
    }
    forall e | e in s.place
      ensures Stands(s.chains, s.free, e, s.place[e])
    {
      var h :| 0 <= h < |slab| && slab[h] == e;
      assert s.chains[h][0] == e;
    }
  }

  lemma NotEmpty(s: State, dups: bool)
    requires Ok(s, dups)
    ensures |s.table| > 0
    ensures |s.items| == |s.chains| == |s.table|
  {
  }

  lemma BucketLength(mem: map<Entry, Rec>, c: seq<Entry>, b: Bucket)
    requires Holds(mem, c, b)
    ensures |c| == (if b == [] then 1 else |b|)
    ensures forall j {:trigger c[j]} :: 0 <= j < |c| ==> c[j] in mem
  {
  }
}
