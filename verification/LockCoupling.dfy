/** Locking in libhashtable: any number of concurrent `ht_locate_key` and
    `ht_delete_key` calls as a step system.  Every lock, unlock, pointer read and
    pointer write is a step of its own, and any lock call may fail. */
module LockCoupling {
  import opened Wrappers
  import opened KeyHash

  type Id = nat      // an entry record
  type Tid = nat     // one call
  type Data = int

  datatype Mode = Read | Write
  datatype Op = Locate | Delete

  /** The acquisitions a call makes, in its order. */
  datatype Lock = TableLock | HeadLock | NextLock | SuccessorLock | FreeLock

  /** How a call ended. */
  datatype Result = Missing | Failed(at: Lock) | Answer(data: Data) | Deleted | DeletedHead

  /** Where a call stands.  `prev` and `cur` are phte and dhte of the source. */
  datatype Pc =
    | Begin
    | LockHead
    | AtHead
    | Compare(prev: Option<Id>, cur: Id)                      // the head of the chain walk
    | LockNext(behind: Option<Id>, before: Id, cur: Id)
    | DropBehind(behind: Option<Id>, before: Id, cur: Id)
    | Found(prev: Option<Id>, cur: Id)
    | DropTable(prev: Option<Id>, cur: Id)
    | ReadData(cur: Id)
    | Decide(prev: Option<Id>, cur: Id)
    | LockSuccessor(before: Id, cur: Id)
    | CopyUp(before: Id, cur: Id)
    | Mark(before: Id, cur: Id)
    | LockFree(before: Id, cur: Id)
    | Bypass(before: Id, cur: Id)
    | LinkFree(before: Id, cur: Id)
    | PointFree(before: Id, cur: Id)
    | DropFree(before: Id, cur: Id)
    | Release(rest: seq<Id>, result: Result)
    | Done(result: Result)

  /** What a record holds. */
  datatype Contents = Contents(next: Option<Id>, key: Option<Key>, data: Option<Data>, occupied: bool)

  datatype Change = Change(record: Id, before: Contents, after: Contents)

  /** `wrote` only records what the call has done to the records; no step reads it. */
  datatype Call = Call(op: Op, key: Key, pc: Pc, held: set<Id>, table: bool, free: bool, wrote: seq<Change>) {
    function Mode(): Mode {
      if op == Locate then Read else Write
    }
  }

  /** The table and its records.  `linked` and `pred` only record which records are on
      some chain and what points at them; no step reads them. */
  datatype Heap = Heap(
    next: map<Id, Option<Id>>, key: map<Id, Key>, data: map<Id, Data>, occupied: map<Id, bool>,
    freechain: Option<Id>, linked: set<Id>, pred: map<Id, Id>)

  /** Facts fixed at the start: the head slots, each record's bucket, and an order along chains. */
  datatype Layout = Layout(head: seq<Id>, home: map<Id, nat>, rank: map<Id, nat>, bound: nat)

  datatype State = State(heap: Heap, calls: map<Tid, Call>)

  function HeadOf(l: Layout, key: Key): Id
    requires |l.head| > 0
  {
    l.head[Index(key, |l.head|)]
  }

  function Opt(o: Option<Id>): set<Id> {
    if o.Some? then {o.value} else {}
  }

  function List(o: Option<Id>, e: Id): seq<Id> {
    if o.Some? then [o.value, e] else [e]
  }

  // ---------- Locks ----------

  predicate CanLock(s: State, t: Tid, e: Id)
    requires t in s.calls
  {
    forall u :: u in s.calls && u != t && e in s.calls[u].held ==>
      s.calls[t].Mode() == Read && s.calls[u].Mode() == Read
  }

  predicate CanLockTable(s: State, t: Tid)
    requires t in s.calls
  {
    forall u :: u in s.calls && u != t && s.calls[u].table ==>
      s.calls[t].Mode() == Read && s.calls[u].Mode() == Read
  }

  predicate CanLockFree(s: State, t: Tid) {
    forall u :: u in s.calls && u != t ==> !s.calls[u].free
  }

  /** The record whose lock a call is about to take. */
  function Awaits(l: Layout, c: Call): Option<Id>
    requires |l.head| > 0
  {
    match c.pc
    case LockHead => Some(HeadOf(l, c.key))
    case LockNext(_, _, cur) => Some(cur)
    case LockSuccessor(_, cur) => Some(cur)
    case _ => None
  }

  // ---------- Steps ----------

  /** Whether call `t` can take a step; `fail` asks for a lock call that returns an error. */
  predicate Enabled(l: Layout, s: State, t: Tid, fail: bool) {
    && |l.head| > 0
    && t in s.calls
    && var c := s.calls[t];
       match c.pc
       case Done(_) => false
       case Begin => fail || CanLockTable(s, t)
       case LockFree(_, _) => fail || CanLockFree(s, t)
       case _ => var e := Awaits(l, c); if e.Some? then fail || CanLock(s, t, e.value) else !fail
  }

  function NextOf(h: Heap, e: Id): Option<Id> {
    if e in h.next then h.next[e] else None
  }

  function ContentsOf(h: Heap, e: Id): Contents {
    Contents(NextOf(h, e), if e in h.key then Some(h.key[e]) else None, if e in h.data then Some(h.data[e]) else None,
             e in h.occupied && h.occupied[e])
  }

  /** The call after its step, with the step's write recorded. */
  function StepCall(l: Layout, h: Heap, c: Call, fail: bool): Call
    requires |l.head| > 0
  {
    Advance(l, h, c, fail).(wrote := c.wrote + Writes(h, c))
  }

  /** The record the step writes, if any. */
  function Writes(h: Heap, c: Call): seq<Change> {
    match c.pc
    case Decide(prev, cur) => if prev.None? && NextOf(h, cur).None? then [ChangeOf(h, c, cur)] else []
    case CopyUp(before, _) => [ChangeOf(h, c, before)]
    case Mark(_, cur) => [ChangeOf(h, c, cur)]
    case Bypass(before, _) => [ChangeOf(h, c, before)]
    case LinkFree(_, cur) => [ChangeOf(h, c, cur)]
    case _ => []
  }

  function ChangeOf(h: Heap, c: Call, e: Id): Change {
    Change(e, ContentsOf(h, e), ContentsOf(StepHeap(h, c), e))
  }

  /** Where the call goes next.  Failing locks unwind as the source does. */
  function Advance(l: Layout, h: Heap, c: Call, fail: bool): Call
    requires |l.head| > 0
  {
    match c.pc
    case Begin =>
      if fail then c.(pc := Done(Failed(TableLock))) else c.(pc := LockHead, table := true)
    case LockHead =>
      if fail then c.(pc := Release([], Failed(HeadLock))) else c.(pc := AtHead, held := c.held + {HeadOf(l, c.key)})
    case AtHead =>
      var e := HeadOf(l, c.key);
      if e in h.occupied && h.occupied[e] then c.(pc := Compare(None, e)) else c.(pc := Release([e], Missing))
    case Compare(prev, cur) =>
      if cur in h.key && h.key[cur] == c.key then c.(pc := Found(prev, cur))
      else
        (match NextOf(h, cur)
         case None => c.(pc := Release(List(prev, cur), Missing))
         case Some(n) => c.(pc := LockNext(prev, cur, n)))
    case LockNext(behind, before, cur) =>
      if fail then c.(pc := Release(List(behind, before), Failed(NextLock)))
      else c.(pc := DropBehind(behind, before, cur), held := c.held + {cur})
    case DropBehind(behind, before, cur) =>
      c.(pc := Compare(Some(before), cur), held := c.held - Opt(behind))
    case Found(prev, cur) =>
      if c.op == Locate then c.(pc := DropTable(None, cur), held := c.held - Opt(prev))
      else c.(pc := DropTable(prev, cur))
    case DropTable(prev, cur) =>
      c.(pc := if c.op == Locate then ReadData(cur) else Decide(prev, cur), table := false)
    case ReadData(cur) =>
      c.(pc := Release([cur], Answer(if cur in h.data then h.data[cur] else 0)))
    case Decide(prev, cur) =>
      if prev.Some? then c.(pc := Mark(prev.value, cur))
      else
        (match NextOf(h, cur)
         case None => c.(pc := Done(DeletedHead))
         case Some(n) => c.(pc := LockSuccessor(cur, n)))
    case LockSuccessor(before, cur) =>
      if fail then c.(pc := Release([before], Failed(SuccessorLock))) else c.(pc := CopyUp(before, cur), held := c.held + {cur})
    case CopyUp(before, cur) => c.(pc := Mark(before, cur))
    case Mark(before, cur) => c.(pc := LockFree(before, cur))
    case LockFree(before, cur) =>
      if fail then c.(pc := Release([before, cur], Failed(FreeLock))) else c.(pc := Bypass(before, cur), free := true)
    case Bypass(before, cur) => c.(pc := LinkFree(before, cur))
    case LinkFree(before, cur) => c.(pc := PointFree(before, cur))
    case PointFree(before, cur) => c.(pc := DropFree(before, cur))
    case DropFree(before, cur) => c.(pc := Release([before, cur], Deleted), free := false)
    case Release(rest, result) =>
      if rest != [] then c.(pc := Release(rest[1..], result), held := c.held - {rest[0]})
      else if c.table then c.(pc := Done(result), table := false)
      else c.(pc := Done(result))
    case Done(_) => c
  }

  /** What the step writes to the records. */
  function StepHeap(h: Heap, c: Call): Heap {
    match c.pc
    case Decide(prev, cur) =>
      if prev.None? && NextOf(h, cur).None? then h.(occupied := h.occupied[cur := false]) else h
    case CopyUp(before, cur) =>
      h.(key := h.key[before := if cur in h.key then h.key[cur] else []],
         data := h.data[before := if cur in h.data then h.data[cur] else 0],
         occupied := h.occupied[before := cur in h.occupied && h.occupied[cur]])
    case Mark(before, cur) => h.(occupied := h.occupied[cur := false])
    case Bypass(before, cur) =>
      var n := NextOf(h, cur);
      h.(next := h.next[before := n],
         linked := h.linked - {cur},
         pred := if n.Some? then h.pred[n.value := before] else h.pred)
    case LinkFree(before, cur) => h.(next := h.next[cur := h.freechain])
    case PointFree(before, cur) => h.(freechain := Some(cur))
    case _ => h
  }

  function Step(l: Layout, s: State, t: Tid, fail: bool): State
    requires Enabled(l, s, t, fail)
  {
    State(StepHeap(s.heap, s.calls[t]), s.calls[t := StepCall(l, s.heap, s.calls[t], fail)])
  }

  // ---------- The invariant ----------

  /** `n` is a linked record of the same bucket as `e`, of higher rank, and `e` its `pred`. */
  ghost predicate Follows(l: Layout, h: Heap, e: Id, n: Id) {
    && e in l.home && e in l.rank && n in h.linked && n in l.home && n in l.rank && l.home[n] < |l.head|
    && l.home[n] == l.home[e] && l.rank[n] > l.rank[e]
    && n in h.pred && h.pred[n] == e && n != l.head[l.home[n]]
  }

  /** The chains: every linked record but a head is pointed at by exactly its `pred`, with rising rank. */
  ghost predicate HeapOk(l: Layout, h: Heap) {
    && |l.head| > 0
    && (forall b :: 0 <= b < |l.head| ==>
          l.head[b] in h.linked && l.head[b] in l.home && l.home[l.head[b]] == b)
    && (forall e :: e in h.linked ==>
          && e in h.next && e in h.key && e in h.data && e in h.occupied
          && e in l.home && e in l.rank && l.rank[e] < l.bound && l.home[e] < |l.head|)
    && (forall e :: e in h.linked && h.next[e].Some? ==> Follows(l, h, e, h.next[e].value))
    && (forall n :: n in h.linked && n != l.head[l.home[n]] ==>
          n in h.pred && h.pred[n] in h.linked && h.next[h.pred[n]] == Some(n))
  }

  /** A linked record of the call's bucket. */
  ghost predicate On(l: Layout, h: Heap, c: Call, e: Id)
    requires |l.head| > 0
  {
    e in h.linked && e in l.home && l.home[e] == Index(c.key, |l.head|)
  }

  ghost predicate Pair(l: Layout, h: Heap, c: Call, prev: Option<Id>, cur: Id)
    requires |l.head| > 0
  {
    && On(l, h, c, cur)
    && (prev.None? ==> cur == HeadOf(l, c.key) && Occupied(h, cur))
    && (prev.Some? ==> Adjacent(l, h, c, prev.value, cur))
  }

  ghost predicate Adjacent(l: Layout, h: Heap, c: Call, before: Id, cur: Id)
    requires |l.head| > 0
  {
    On(l, h, c, before) && NextOf(h, before) == Some(cur)
  }

  ghost predicate HasKey(h: Heap, e: Id, key: Key) {
    ContentsOf(h, e).key == Some(key)
  }

  ghost predicate Occupied(h: Heap, e: Id) {
    ContentsOf(h, e).occupied
  }

  /** A head slot's record that took over its successor's contents. */
  ghost predicate Promotion(w: Change, head: Id, key: Key, from: Id, contents: Contents) {
    && w.record == head && w.before.next == Some(from) && w.before.key == Some(key) && w.before.occupied
    && w.after == w.before.(key := contents.key, data := contents.data, occupied := contents.occupied)
  }

  ghost predicate Marking(w: Change) {
    w.after == w.before.(occupied := false)
  }

  /** What a delete has done when it asks for the free chain's lock: a match on a chain is
      marked; a match in a head slot has taken its successor's contents, and the successor
      is marked. */
  ghost predicate HalfDone(l: Layout, key: Key, log: seq<Change>)
    requires |l.head| > 0
  {
    || (|log| == 1 && Marking(log[0]) && log[0].before.key == Some(key))
    || (|log| == 2 && Marking(log[1]) && Promotion(log[0], HeadOf(l, key), key, log[1].record, log[1].before))
  }

  /** The records stand as the log left them. */
  ghost predicate AsLogged(h: Heap, log: seq<Change>) {
    forall i :: 0 <= i < |log| ==> ContentsOf(h, log[i].record) == log[i].after
  }

  /** Ready to be marked. */
  ghost predicate Prepared(l: Layout, h: Heap, c: Call, before: Id, cur: Id)
    requires |l.head| > 0
  {
    if c.wrote == [] then HasKey(h, cur, c.key)
    else
      && |c.wrote| == 1 && before == HeadOf(l, c.key) && ContentsOf(h, before) == c.wrote[0].after
      && Promotion(c.wrote[0], before, c.key, cur, ContentsOf(h, cur))
  }

  ghost predicate Marked(l: Layout, h: Heap, c: Call, before: Id, cur: Id)
    requires |l.head| > 0
  {
    && HalfDone(l, c.key, c.wrote) && AsLogged(h, c.wrote)
    && c.wrote[|c.wrote| - 1].record == cur && (|c.wrote| == 2 ==> before == HeadOf(l, c.key))
  }

  function Elements(es: seq<Id>): set<Id> {
    set e | e in es
  }

  ghost predicate AllDifferent(es: seq<Id>) {
    forall i, j :: 0 <= i < j < |es| ==> es[i] != es[j]
  }

  lemma FirstReleased(es: seq<Id>)
    requires es != [] && AllDifferent(es)
    ensures AllDifferent(es[1..]) && Elements(es) - {es[0]} == Elements(es[1..])
  {
    assert forall e :: e in es <==> e == es[0] || e in es[1..];
    assert es[0] !in es[1..];
  }

  lemma TwoElements(a: Id, b: Id)
    requires a != b
    ensures Elements([a, b]) == {a, b} && AllDifferent([a, b])
  {
  }

  /** What a call knows while it gives its locks back. */
  ghost predicate ReleaseOk(l: Layout, h: Heap, c: Call, rest: seq<Id>, result: Result)
    requires |l.head| > 0
  {
    match result
    case Missing => c.wrote == []
    case Failed(at) =>
      if at == FreeLock
      then
        && c.op == Delete && HalfDone(l, c.key, c.wrote) && |rest| <= 2
        && (|rest| == 2 ==> Marked(l, h, c, rest[0], rest[1]) && Adjacent(l, h, c, rest[0], rest[1]))
      else c.wrote == []
    case Answer(data) =>
      && c.op == Locate && c.wrote == [] && |rest| <= 1
      && (|rest| == 1 ==> On(l, h, c, rest[0]) && HasKey(h, rest[0], c.key) && ContentsOf(h, rest[0]).data == Some(data))
    case Deleted => c.op == Delete
    case DeletedHead => false
  }

  ghost predicate DoneOk(l: Layout, c: Call, result: Result)
    requires |l.head| > 0
  {
    match result
    case Failed(at) => if at == FreeLock then c.op == Delete && HalfDone(l, c.key, c.wrote) else c.wrote == []
    case Missing => c.wrote == []
    case Answer(_) => c.op == Locate && c.wrote == []
    case _ => c.op == Delete
  }

  /** What a call holds and knows at each point. */
  ghost predicate CallOk(l: Layout, h: Heap, c: Call)
    requires |l.head| > 0
  {
    match c.pc
    case Begin => c.held == {} && !c.table && !c.free && c.wrote == []
    case LockHead => c.held == {} && c.table && !c.free && c.wrote == []
    case AtHead => c.held == {HeadOf(l, c.key)} && c.table && !c.free && c.wrote == []
    case Compare(prev, cur) =>
      && c.held == Opt(prev) + {cur} && c.table && !c.free && c.wrote == []
      && Pair(l, h, c, prev, cur)
    case LockNext(behind, before, cur) =>
      && c.held == Opt(behind) + {before} && c.table && !c.free && c.wrote == []
      && Adjacent(l, h, c, before, cur) && (behind.Some? ==> Adjacent(l, h, c, behind.value, before))
    case DropBehind(behind, before, cur) =>
      && c.held == Opt(behind) + {before, cur} && c.table && !c.free && c.wrote == []
      && Adjacent(l, h, c, before, cur) && (behind.Some? ==> Adjacent(l, h, c, behind.value, before))
    case Found(prev, cur) =>
      && c.held == Opt(prev) + {cur} && c.table && !c.free && c.wrote == []
      && Pair(l, h, c, prev, cur) && HasKey(h, cur, c.key)
    case DropTable(prev, cur) =>
      && c.held == Opt(prev) + {cur} && c.table && !c.free && c.wrote == []
      && On(l, h, c, cur) && HasKey(h, cur, c.key)
      && (if c.op == Locate then prev.None? else Pair(l, h, c, prev, cur))
    case ReadData(cur) =>
      && c.op == Locate && c.held == {cur} && !c.table && !c.free && c.wrote == []
      && On(l, h, c, cur) && HasKey(h, cur, c.key)
    case Decide(prev, cur) =>
      && c.op == Delete && c.held == Opt(prev) + {cur} && !c.table && !c.free && c.wrote == []
      && Pair(l, h, c, prev, cur) && HasKey(h, cur, c.key)
    case LockSuccessor(before, cur) =>
      && c.op == Delete && c.held == {before} && !c.table && !c.free && c.wrote == []
      && before == HeadOf(l, c.key) && Adjacent(l, h, c, before, cur) && HasKey(h, before, c.key) && Occupied(h, before)
    case CopyUp(before, cur) =>
      && c.op == Delete && c.held == {before, cur} && !c.table && !c.free && c.wrote == []
      && before == HeadOf(l, c.key) && Adjacent(l, h, c, before, cur) && HasKey(h, before, c.key) && Occupied(h, before)
    case Mark(before, cur) =>
      && c.op == Delete && c.held == {before, cur} && !c.table && !c.free
      && Adjacent(l, h, c, before, cur) && Prepared(l, h, c, before, cur)
    case LockFree(before, cur) =>
      && c.op == Delete && c.held == {before, cur} && !c.table && !c.free
      && Adjacent(l, h, c, before, cur) && Marked(l, h, c, before, cur)
    case Bypass(before, cur) =>
      && c.op == Delete && c.held == {before, cur} && !c.table && c.free && c.wrote != []
      && Adjacent(l, h, c, before, cur)
    case LinkFree(before, cur) =>
      && c.op == Delete && c.held == {before, cur} && !c.table && c.free && c.wrote != []
      && before in h.linked && cur !in h.linked && before != cur
    case PointFree(before, cur) =>
      && c.op == Delete && c.held == {before, cur} && !c.table && c.free && c.wrote != []
      && before in h.linked && cur !in h.linked && before != cur
    case DropFree(before, cur) =>
      && c.op == Delete && c.held == {before, cur} && !c.table && c.free && c.wrote != []
      && before in h.linked && cur !in h.linked && before != cur
    case Release(rest, result) =>
      && c.held == Elements(rest) && !c.free && AllDifferent(rest)
      && ReleaseOk(l, h, c, rest, result)
    case Done(result) =>
      && !c.table && !c.free && DoneOk(l, c, result)
      && c.held == (if result == DeletedHead then {HeadOf(l, c.key)} else {})
  }

  /** Locks are shared only among readers, and the free chain's by nobody. */
  ghost predicate LocksOk(s: State) {
    && (forall t, u, e :: t in s.calls && u in s.calls && t != u && e in s.calls[t].held && e in s.calls[u].held ==>
          s.calls[t].Mode() == Read && s.calls[u].Mode() == Read)
    && (forall t, u :: t in s.calls && u in s.calls && t != u && s.calls[t].table && s.calls[u].table ==>
          s.calls[t].Mode() == Read && s.calls[u].Mode() == Read)
    && (forall t, u :: t in s.calls && u in s.calls && t != u && s.calls[t].free ==> !s.calls[u].free)
  }

  ghost predicate Inv(l: Layout, s: State) {
    && HeapOk(l, s.heap)
    && LocksOk(s)
    && forall t :: t in s.calls ==> CallOk(l, s.heap, s.calls[t]) && PassedOk(l, s.heap, s.calls[t]) && DeletedOk(l, s.heap, s.calls[t])
  }

  /** All chains well formed and no call begun. */
  ghost predicate Init(l: Layout, s: State) {
    HeapOk(l, s.heap) && forall t :: t in s.calls ==> s.calls[t] == Call(s.calls[t].op, s.calls[t].key, Begin, {}, false, false, [])
  }

  lemma InitOk(l: Layout, s: State)
    requires Init(l, s)
    ensures Inv(l, s)
  {
  }

  // ---------- Every step keeps the invariant ----------

  lemma BypassKeepsHeap(l: Layout, h: Heap, c: Call)
    requires HeapOk(l, h) && c.pc.Bypass? && Adjacent(l, h, c, c.pc.before, c.pc.cur)
    ensures HeapOk(l, StepHeap(h, c))
  {
    hide Index;
    var before, cur := c.pc.before, c.pc.cur;
    var h' := StepHeap(h, c);
    assert h.next[before] == Some(cur);
    forall n | n in h'.linked && n != l.head[l.home[n]]
      ensures n in h'.pred && h'.pred[n] in h'.linked && h'.next[h'.pred[n]] == Some(n)
    {
      assert h.next[h.pred[n]] == Some(n);
    }
    forall e | e in h'.linked && h'.next[e].Some?
      ensures Follows(l, h', e, h'.next[e].value)
    {
      assert Follows(l, h, before, cur);
      if e == before {
        assert h.next[cur] == h'.next[e];
        assert Follows(l, h, cur, h'.next[e].value);
      } else {
        assert h.next[e] == h'.next[e];
        assert Follows(l, h, e, h'.next[e].value);
      }
    }
  }

  /** Writing contents, or the pointer of a record off the chains, keeps the chains. */
  lemma SameChains(l: Layout, h: Heap, h': Heap)
    requires HeapOk(l, h) && h'.linked == h.linked && h'.pred == h.pred
    requires forall e :: e in h.linked ==> e in h'.next && h'.next[e] == h.next[e]
    requires forall e :: e in h.linked ==> e in h'.key && e in h'.data && e in h'.occupied
    ensures HeapOk(l, h')
  {
    forall e | e in h'.linked && h'.next[e].Some?
      ensures Follows(l, h', e, h'.next[e].value)
    {
      assert Follows(l, h, e, h.next[e].value);
    }
    hide Follows;
    forall n | n in h'.linked && n != l.head[l.home[n]]
      ensures n in h'.pred && h'.pred[n] in h'.linked && h'.next[h'.pred[n]] == Some(n)
    {
      assert h.next[h.pred[n]] == Some(n);
    }
  }

  lemma StepKeepsHeap(l: Layout, h: Heap, c: Call)
    requires HeapOk(l, h) && CallOk(l, h, c)
    ensures HeapOk(l, StepHeap(h, c))
  {
    hide Index, On, Pair, HasKey;
    if c.pc.Bypass? {
      BypassKeepsHeap(l, h, c);
    } else {
      ContentsOnly(l, h, c);
      hide HeapOk, CallOk, StepHeap;
      SameChains(l, h, StepHeap(h, c));
    }
  }

  /** Only the bypass of a record touches the chains. */
  lemma ContentsOnly(l: Layout, h: Heap, c: Call)
    requires HeapOk(l, h) && CallOk(l, h, c) && !c.pc.Bypass?
    ensures StepHeap(h, c).linked == h.linked && StepHeap(h, c).pred == h.pred
    ensures forall e :: e in h.linked ==> e in StepHeap(h, c).next && StepHeap(h, c).next[e] == h.next[e]
    ensures forall e :: e in h.linked ==> e in StepHeap(h, c).key && e in StepHeap(h, c).data && e in StepHeap(h, c).occupied
  {
    hide Index, On, Pair, HasKey, Follows, PassedTo;
    assert forall e :: e in h.linked ==> e in h.next && e in h.key && e in h.data && e in h.occupied;
    hide HeapOk;
    assert c.pc.LinkFree? ==> c.pc.cur !in h.linked;
    hide CallOk;
  }

  /** The walk down a chain. */
  lemma CompareKeepsCall(l: Layout, h: Heap, c: Call, fail: bool)
    requires HeapOk(l, h) && CallOk(l, h, c) && (c.pc.AtHead? || c.pc.Compare?)
    ensures CallOk(l, StepHeap(h, c), StepCall(l, h, c, fail))
  {
    hide Index;
    assert HeadOf(l, c.key) in h.linked && l.home[HeadOf(l, c.key)] == Index(c.key, |l.head|);
    if c.pc.Compare? && c.pc.prev.Some? {
      assert l.rank[c.pc.cur] > l.rank[c.pc.prev.value];
    }
  }

  lemma AdvanceKeepsCall(l: Layout, h: Heap, c: Call, fail: bool)
    requires HeapOk(l, h) && CallOk(l, h, c) && c.pc.LockNext?
    ensures CallOk(l, StepHeap(h, c), StepCall(l, h, c, fail))
  {
    hide Index;
    assert Follows(l, h, c.pc.before, c.pc.cur);
    if c.pc.behind.Some? {
      assert Follows(l, h, c.pc.behind.value, c.pc.before);
    }
    hide HeapOk;
  }

  lemma DropKeepsCall(l: Layout, h: Heap, c: Call, fail: bool)
    requires HeapOk(l, h) && CallOk(l, h, c) && c.pc.DropBehind?
    ensures CallOk(l, StepHeap(h, c), StepCall(l, h, c, fail))
  {
    hide Index;
    assert Follows(l, h, c.pc.before, c.pc.cur);
    if c.pc.behind.Some? {
      assert Follows(l, h, c.pc.behind.value, c.pc.before);
    }
    hide HeapOk;
  }

  /** From the match to the decision what to do with it. */
  lemma MatchKeepsCall(l: Layout, h: Heap, c: Call, fail: bool)
    requires HeapOk(l, h) && CallOk(l, h, c)
    requires c.pc.Found? || c.pc.DropTable? || c.pc.ReadData?
    ensures CallOk(l, StepHeap(h, c), StepCall(l, h, c, fail))
  {
    hide Index;
  }

  lemma StartKeepsCall(l: Layout, h: Heap, c: Call, fail: bool)
    requires HeapOk(l, h) && CallOk(l, h, c)
    requires c.pc.Begin? || c.pc.LockHead? || c.pc.Decide?
    ensures CallOk(l, StepHeap(h, c), StepCall(l, h, c, fail))
  {
    hide Index;
  }

  /** Promotion and marking. */
  lemma PromoteKeepsCall(l: Layout, h: Heap, c: Call, fail: bool)
    requires HeapOk(l, h) && CallOk(l, h, c)
    requires c.pc.LockSuccessor? || c.pc.CopyUp?
    ensures CallOk(l, StepHeap(h, c), StepCall(l, h, c, fail))
  {
    hide Index;
    assert l.rank[c.pc.cur] > l.rank[c.pc.before];
  }

  lemma MarkKeepsCall(l: Layout, h: Heap, c: Call, fail: bool)
    requires HeapOk(l, h) && CallOk(l, h, c) && c.pc.Mark?
    ensures CallOk(l, StepHeap(h, c), StepCall(l, h, c, fail))
  {
    hide Index;
    assert l.rank[c.pc.cur] > l.rank[c.pc.before];
    hide HeapOk, Marked, Writes;
    MarkKeepsLog(l, h, c);
  }

  lemma LoseKeepsCall(l: Layout, h: Heap, c: Call, fail: bool)
    requires HeapOk(l, h) && CallOk(l, h, c) && c.pc.LockFree?
    ensures CallOk(l, StepHeap(h, c), StepCall(l, h, c, fail))
  {
    hide Index;
    assert Follows(l, h, c.pc.before, c.pc.cur) && c.pc.before != c.pc.cur;
    assert HalfDone(l, c.key, c.wrote);
    assert c.wrote + [] == c.wrote;
    MarkedAnyPc(l, h, c, StepCall(l, h, c, fail), c.pc.before, c.pc.cur);
    hide HeapOk, HalfDone, AsLogged, Adjacent, Follows, ContentsOf, Marked;
    if fail {
      TwoElements(c.pc.before, c.pc.cur);
      hide Elements, AllDifferent;
      LostKeepsCall(l, h, c, StepCall(l, h, c, true), [c.pc.before, c.pc.cur]);
    } else {
      HalfDoneIsSome(l, c.key, c.wrote);
    }
  }

  lemma LostKeepsCall(l: Layout, h: Heap, c: Call, c': Call, rest: seq<Id>)
    requires |l.head| > 0 && CallOk(l, h, c) && c.pc.LockFree? && rest == [c.pc.before, c.pc.cur]
    requires c' == c.(pc := Release(rest, Failed(FreeLock))) && Elements(rest) == c.held && AllDifferent(rest)
    requires Marked(l, h, c', c.pc.before, c.pc.cur) && Adjacent(l, h, c', c.pc.before, c.pc.cur) && HalfDone(l, c.key, c.wrote)
    ensures CallOk(l, h, c')
  {
    hide Index, HalfDone, AsLogged, Adjacent, Marked, Elements, AllDifferent;
    assert rest[0] == c.pc.before && rest[1] == c.pc.cur && |rest| == 2;
  }

  lemma MarkedAnyPc(l: Layout, h: Heap, c: Call, c': Call, before: Id, cur: Id)
    requires |l.head| > 0 && c'.key == c.key && c'.wrote == c.wrote
    ensures Marked(l, h, c', before, cur) == Marked(l, h, c, before, cur)
    ensures Adjacent(l, h, c', before, cur) == Adjacent(l, h, c, before, cur)
  {
    hide Index;
  }

  lemma HalfDoneIsSome(l: Layout, key: Key, log: seq<Change>)
    requires |l.head| > 0 && HalfDone(l, key, log)
    ensures log != []
  {
  }

  lemma MarkKeepsLog(l: Layout, h: Heap, c: Call)
    requires |l.head| > 0 && c.pc.Mark? && c.pc.before != c.pc.cur && Prepared(l, h, c, c.pc.before, c.pc.cur)
    ensures Marked(l, StepHeap(h, c), c.(wrote := c.wrote + Writes(h, c)), c.pc.before, c.pc.cur)
  {
    hide Index;
    var h' := StepHeap(h, c);
    assert ContentsOf(h', c.pc.cur) == ContentsOf(h, c.pc.cur).(occupied := false);
    assert ContentsOf(h', c.pc.before) == ContentsOf(h, c.pc.before);
  }

  /** Unlinking and freeing. */
  lemma UnlinkKeepsCall(l: Layout, h: Heap, c: Call, fail: bool)
    requires HeapOk(l, h) && CallOk(l, h, c)
    requires c.pc.Bypass? || c.pc.LinkFree? || c.pc.PointFree? || c.pc.DropFree?
    ensures CallOk(l, StepHeap(h, c), StepCall(l, h, c, fail))
  {
    hide Index;
    if c.pc.Bypass? {
      assert l.rank[c.pc.cur] > l.rank[c.pc.before];
    }
  }

  lemma ReleaseKeepsCall(l: Layout, h: Heap, c: Call, fail: bool)
    requires |l.head| > 0 && CallOk(l, h, c) && c.pc.Release?
    ensures CallOk(l, StepHeap(h, c), StepCall(l, h, c, fail))
  {
    assert Elements([]) == {};
    assert c.wrote + [] == c.wrote;
    hide Index, ReleaseOk, DoneOk, Elements, AllDifferent;
    KeepsReleaseOk(l, h, c, StepCall(l, h, c, fail));
    if c.pc.rest != [] {
      FirstReleased(c.pc.rest);
    }
  }

  /** What is known while locks are given back outlasts the next one, and the end. */
  lemma KeepsReleaseOk(l: Layout, h: Heap, c: Call, c': Call)
    requires |l.head| > 0 && c.pc.Release? && ReleaseOk(l, h, c, c.pc.rest, c.pc.result)
    requires c'.op == c.op && c'.key == c.key && c'.wrote == c.wrote
    ensures c.pc.rest != [] ==> ReleaseOk(l, h, c', c.pc.rest[1..], c.pc.result)
    ensures DoneOk(l, c', c.pc.result) && c.pc.result != DeletedHead
  {
    hide Index, Marked, HalfDone, Adjacent, On, HasKey, ContentsOf;
  }

  lemma StepKeepsOwn(l: Layout, h: Heap, c: Call, fail: bool)
    requires HeapOk(l, h) && CallOk(l, h, c)
    ensures CallOk(l, StepHeap(h, c), StepCall(l, h, c, fail))
  {
    hide Index, CallOk, StepHeap, StepCall;
    match c.pc
    case AtHead => CompareKeepsCall(l, h, c, fail);
    case Compare(_, _) => CompareKeepsCall(l, h, c, fail);
    case LockNext(_, _, _) => AdvanceKeepsCall(l, h, c, fail);
    case DropBehind(_, _, _) => DropKeepsCall(l, h, c, fail);
    case Release(_, _) => ReleaseKeepsCall(l, h, c, fail);
    case Done(_) => DoneKeepsCall(l, h, c, fail);
    case LockSuccessor(_, _) => PromoteKeepsCall(l, h, c, fail);
    case CopyUp(_, _) => PromoteKeepsCall(l, h, c, fail);
    case Mark(_, _) => MarkKeepsCall(l, h, c, fail);
    case LockFree(_, _) => LoseKeepsCall(l, h, c, fail);
    case Bypass(_, _) => UnlinkKeepsCall(l, h, c, fail);
    case LinkFree(_, _) => UnlinkKeepsCall(l, h, c, fail);
    case PointFree(_, _) => UnlinkKeepsCall(l, h, c, fail);
    case DropFree(_, _) => UnlinkKeepsCall(l, h, c, fail);
    case Begin => StartKeepsCall(l, h, c, fail);
    case LockHead => StartKeepsCall(l, h, c, fail);
    case Decide(_, _) => StartKeepsCall(l, h, c, fail);
    case _ => MatchKeepsCall(l, h, c, fail);
  }

  lemma DoneKeepsCall(l: Layout, h: Heap, c: Call, fail: bool)
    requires |l.head| > 0 && CallOk(l, h, c) && c.pc.Done?
    ensures CallOk(l, StepHeap(h, c), StepCall(l, h, c, fail))
  {
  }

  /** Outside the records `w` nothing was written and nothing unlinked. */
  ghost predicate AgreesOutside(h: Heap, h': Heap, w: set<Id>) {
    && (forall e :: e !in w ==> ContentsOf(h, e) == ContentsOf(h', e))
    && (forall e :: e !in w && e in h.linked ==> e in h'.linked)
    && h'.linked <= h.linked
  }

  /** The records a step may write: the pair of a delete past its walk. */
  function Targets(pc: Pc): set<Id> {
    match pc
    case Decide(_, cur) => {cur}
    case CopyUp(before, cur) => {before, cur}
    case Mark(before, cur) => {before, cur}
    case Bypass(before, cur) => {before, cur}
    case LinkFree(before, cur) => {before, cur}
    case PointFree(before, cur) => {before, cur}
    case _ => {}
  }

  lemma TargetsAreHeld(l: Layout, h: Heap, c: Call)
    requires |l.head| > 0 && CallOk(l, h, c)
    ensures Targets(c.pc) <= c.held
    ensures Targets(c.pc) != {} ==> c.op == Delete
  {
    hide Index, On, Pair, Adjacent, HasKey;
  }

  lemma PointersOnlyTargets(h: Heap, c: Call)
    requires c.pc.Bypass? || c.pc.LinkFree? || c.pc.PointFree?
    ensures AgreesOutside(h, StepHeap(h, c), Targets(c.pc))
  {
  }

  lemma WritesOnlyTargets(h: Heap, c: Call)
    ensures AgreesOutside(h, StepHeap(h, c), Targets(c.pc))
    ensures Targets(c.pc) == {} ==> StepHeap(h, c) == h
  {
    if c.pc.Bypass? || c.pc.LinkFree? || c.pc.PointFree? {
      hide AgreesOutside;
      PointersOnlyTargets(h, c);
    }
  }

  /** What a call knows rests on the records it holds. */
  lemma KnowledgeFrame(l: Layout, h: Heap, h': Heap, w: set<Id>, d: Call)
    requires |l.head| > 0 && CallOk(l, h, d) && AgreesOutside(h, h', w) && w !! d.held
    ensures CallOk(l, h', d)
  {
    hide Index;
    match d.pc
    case LockFree(before, cur) => MarkedFrame(l, h, h', w, d, before, cur);
    case Release(rest, result) => ReleaseFrame(l, h, h', w, d);
    case _ =>
  }

  lemma MarkedFrame(l: Layout, h: Heap, h': Heap, w: set<Id>, d: Call, before: Id, cur: Id)
    requires |l.head| > 0 && Marked(l, h, d, before, cur) && AgreesOutside(h, h', w) && before !in w && cur !in w
    ensures Marked(l, h', d, before, cur)
  {
    hide Index, ContentsOf;
    forall i | 0 <= i < |d.wrote|
      ensures ContentsOf(h', d.wrote[i].record) == d.wrote[i].after
    {
      assert ContentsOf(h, d.wrote[i].record) == d.wrote[i].after;
    }
  }

  lemma ReleaseFrame(l: Layout, h: Heap, h': Heap, w: set<Id>, d: Call)
    requires |l.head| > 0 && CallOk(l, h, d) && d.pc.Release? && AgreesOutside(h, h', w) && w !! d.held
    ensures CallOk(l, h', d)
  {
    hide Index, Marked;
    var rest := d.pc.rest;
    assert forall i :: 0 <= i < |rest| ==> rest[i] in d.held;
    if |rest| == 2 && d.pc.result == Failed(FreeLock) {
      MarkedFrame(l, h, h', w, d, rest[0], rest[1]);
    }
  }

  lemma StepKeepsOther(l: Layout, s: State, t: Tid, u: Tid)
    requires Inv(l, s) && t in s.calls && u in s.calls && u != t
    ensures |l.head| > 0 && CallOk(l, StepHeap(s.heap, s.calls[t]), s.calls[u])
  {
    hide Index, CallOk, StepHeap, AgreesOutside, Targets;
    var c, d := s.calls[t], s.calls[u];
    TargetsAreHeld(l, s.heap, c);
    WritesOnlyTargets(s.heap, c);
    if Targets(c.pc) != {} {
      assert c.Mode() == Write;
      assert c.held !! d.held;
      KnowledgeFrame(l, s.heap, StepHeap(s.heap, c), Targets(c.pc), d);
    }
  }

  /** A step takes at most the lock it awaited. */
  lemma TakesOnlyAwaited(l: Layout, h: Heap, c: Call, fail: bool)
    requires |l.head| > 0
    ensures var c' := StepCall(l, h, c, fail);
            && c'.op == c.op && c'.key == c.key
            && c'.held <= c.held + (if fail then {} else Opt(Awaits(l, c)))
            && (c'.table ==> c.table || (c.pc.Begin? && !fail))
            && (c'.free ==> c.free || (c.pc.LockFree? && !fail))
  {
    TakesOnlyAwaitedRecord(l, h, c, fail);
    TakesOnlyAwaitedChains(l, h, c, fail);
    hide Index, Awaits, Writes, NextOf;
    assert StepCall(l, h, c, fail).op == c.op && StepCall(l, h, c, fail).key == c.key;
    hide StepCall;
  }

  lemma TakesOnlyAwaitedChains(l: Layout, h: Heap, c: Call, fail: bool)
    requires |l.head| > 0
    ensures StepCall(l, h, c, fail).table ==> c.table || (c.pc.Begin? && !fail)
    ensures StepCall(l, h, c, fail).free ==> c.free || (c.pc.LockFree? && !fail)
  {
    hide Index, Writes, NextOf;
  }

  lemma TakesOnlyAwaitedRecord(l: Layout, h: Heap, c: Call, fail: bool)
    requires |l.head| > 0
    ensures StepCall(l, h, c, fail).held <= c.held + (if fail then {} else Opt(Awaits(l, c)))
  {
    hide Index, Writes;
  }

  lemma StepKeepsLocks(l: Layout, s: State, t: Tid, fail: bool)
    requires LocksOk(s) && Enabled(l, s, t, fail)
    ensures LocksOk(Step(l, s, t, fail))
  {
    hide Index, StepHeap, StepCall;
    TakesOnlyAwaited(l, s.heap, s.calls[t], fail);
  }

  lemma StepKeepsInv(l: Layout, s: State, t: Tid, fail: bool)
    requires Inv(l, s) && Enabled(l, s, t, fail)
    ensures Inv(l, Step(l, s, t, fail))
  {
    hide Index, CallOk, PassedOk, DeletedOk, StepHeap, StepCall, LocksOk;
    var s' := Step(l, s, t, fail);
    StepKeepsHeap(l, s.heap, s.calls[t]);
    StepKeepsOwn(l, s.heap, s.calls[t], fail);
    OwnStepKeepsPassed(l, s.heap, s.calls[t], fail);
    OwnStepKeepsDeleted(l, s.heap, s.calls[t], fail);
    StepKeepsLocks(l, s, t, fail);
    forall u | u in s'.calls
      ensures CallOk(l, s'.heap, s'.calls[u]) && PassedOk(l, s'.heap, s'.calls[u]) && DeletedOk(l, s'.heap, s'.calls[u])
    {
      if u != t {
        StepKeepsOther(l, s, t, u);
        OtherStepKeepsPassed(l, s, t, u);
        OtherStepKeepsDeleted(l, s, t, u);
      }
    }
  }

  // ---------- Runs ----------

  datatype Move = Move(call: Tid, fail: bool)

  ghost predicate IsRun(l: Layout, run: seq<State>, moves: seq<Move>) {
    && |run| == |moves| + 1
    && Init(l, run[0])
    && forall i :: 0 <= i < |moves| ==>
         Enabled(l, run[i], moves[i].call, moves[i].fail) && run[i + 1] == Step(l, run[i], moves[i].call, moves[i].fail)
  }

  lemma {:induction false} RunInv(l: Layout, run: seq<State>, moves: seq<Move>, i: nat)
    requires IsRun(l, run, moves) && i < |run|
    ensures Inv(l, run[i])
  {
    hide Index, CallOk, HeapOk, StepHeap, StepCall, Enabled, LocksOk;
    if i == 0 {
      InitOk(l, run[0]);
    } else {
      RunInv(l, run, moves, i - 1);
      StepKeepsInv(l, run[i - 1], moves[i - 1].call, moves[i - 1].fail);
    }
  }

  lemma InRun(l: Layout, run: seq<State>, moves: seq<Move>, i: nat, t: Tid)
    requires IsRun(l, run, moves) && i < |run| && t in run[i].calls
    ensures |l.head| > 0 && HeapOk(l, run[i].heap) && CallOk(l, run[i].heap, run[i].calls[t])
  {
    hide PassedOk, DeletedOk, IsRun, CallOk, LocksOk;
    RunInv(l, run, moves, i);
  }

  // ---------- Being on a chain, by following the pointers ----------

  predicate Reaches(h: Heap, from: Id, e: Id, steps: nat)
    decreases steps
  {
    if steps == 0 then from == e
    else NextOf(h, from).Some? && Reaches(h, NextOf(h, from).value, e, steps - 1)
  }

  /** Following next pointers from the bucket's head slot arrives at `e`. */
  ghost predicate OnChain(l: Layout, h: Heap, bucket: nat, e: Id)
    requires bucket < |l.head|
  {
    exists steps :: Reaches(h, l.head[bucket], e, steps)
  }

  lemma {:induction false} ReachesFurther(h: Heap, from: Id, e: Id, n: Id, steps: nat)
    requires Reaches(h, from, e, steps) && NextOf(h, e) == Some(n)
    ensures Reaches(h, from, n, steps + 1)
    decreases steps
  {
    if steps > 0 {
      ReachesFurther(h, NextOf(h, from).value, e, n, steps - 1);
    } else {
      assert Reaches(h, n, n, 0);
    }
  }

  lemma {:induction false} LinkedIsOnChain(l: Layout, h: Heap, e: Id)
    requires HeapOk(l, h) && e in h.linked
    ensures OnChain(l, h, l.home[e], e)
    decreases l.rank[e]
  {
    if e == l.head[l.home[e]] {
      assert Reaches(h, e, e, 0);
    } else {
      var p := h.pred[e];
      assert h.next[p] == Some(e);
      LinkedIsOnChain(l, h, p);
      var steps :| Reaches(h, l.head[l.home[p]], p, steps);
      ReachesFurther(h, l.head[l.home[p]], p, e, steps);
    }
  }

  lemma {:induction false} ReachedIsLinked(l: Layout, h: Heap, from: Id, e: Id, steps: nat)
    requires HeapOk(l, h) && from in h.linked && Reaches(h, from, e, steps)
    ensures e in h.linked && l.home[e] == l.home[from]
    decreases steps
  {
    if steps > 0 {
      var n := NextOf(h, from).value;
      assert h.next[from] == Some(n);
      ReachedIsLinked(l, h, n, e, steps - 1);
    }
  }

  lemma OnChainIsLinked(l: Layout, h: Heap, bucket: nat, e: Id)
    requires HeapOk(l, h) && bucket < |l.head|
    ensures OnChain(l, h, bucket, e) <==> e in h.linked && l.home[e] == bucket
  {
    if OnChain(l, h, bucket, e) {
      var steps :| Reaches(h, l.head[bucket], e, steps);
      ReachedIsLinked(l, h, l.head[bucket], e, steps);
    }
    if e in h.linked && l.home[e] == bucket {
      LinkedIsOnChain(l, h, e);
    }
  }

  // ---------- The order along a chain ----------

  lemma {:induction false} ReachesBetween(h: Heap, from: Id, e: Id, n: nat, x: Id, m: nat)
    requires Reaches(h, from, e, n) && Reaches(h, from, x, m) && n <= m
    ensures Reaches(h, e, x, m - n)
    decreases n
  {
    if n > 0 {
      ReachesBetween(h, NextOf(h, from).value, e, n - 1, x, m - 1);
    }
  }

  lemma {:induction false} ReachesRises(l: Layout, h: Heap, e: Id, x: Id, n: nat)
    requires HeapOk(l, h) && e in h.linked && Reaches(h, e, x, n)
    ensures x in h.linked && l.rank[e] + n <= l.rank[x]
    ensures n > 0 ==> h.next[e].Some? && l.rank[h.next[e].value] <= l.rank[x]
    decreases n
  {
    if n > 0 {
      var next := NextOf(h, e).value;
      assert Follows(l, h, e, next);
      ReachesRises(l, h, next, x, n - 1);
    }
  }

  /** Ranks order the records of a bucket as its chain does. */
  lemma Ordered(l: Layout, h: Heap, a: Id, b: Id)
    requires HeapOk(l, h) && a in h.linked && b in h.linked && l.home[a] == l.home[b]
    ensures l.rank[a] == l.rank[b] ==> a == b
    ensures l.rank[a] < l.rank[b] ==> h.next[a].Some? && l.rank[h.next[a].value] <= l.rank[b]
  {
    var head := l.head[l.home[a]];
    LinkedIsOnChain(l, h, a);
    LinkedIsOnChain(l, h, b);
    var n: nat :| Reaches(h, head, a, n);
    var m: nat :| Reaches(h, head, b, m);
    if n <= m {
      ReachesBetween(h, head, a, n, b, m);
      ReachesRises(l, h, a, b, m - n);
    } else {
      ReachesBetween(h, head, b, m, a, n);
      ReachesRises(l, h, b, a, n - m);
    }
  }

  lemma HeadIsLowest(l: Layout, h: Heap, e: Id)
    requires HeapOk(l, h) && e in h.linked
    ensures l.rank[l.head[l.home[e]]] <= l.rank[e]
  {
    LinkedIsOnChain(l, h, e);
    var n: nat :| Reaches(h, l.head[l.home[e]], e, n);
    ReachesRises(l, h, l.head[l.home[e]], e, n);
  }

  // ---------- What a walk has left behind ----------

  /** No record of the call's bucket before `cur` has the call's key. */
  ghost predicate PassedTo(l: Layout, h: Heap, c: Call, cur: Id)
    requires |l.head| > 0
  {
    cur in l.rank && forall e :: On(l, h, c, e) && e in l.rank && l.rank[e] < l.rank[cur] ==> !HasKey(h, e, c.key)
  }

  ghost predicate PassedOk(l: Layout, h: Heap, c: Call)
    requires |l.head| > 0
  {
    match c.pc
    case Compare(_, cur) => PassedTo(l, h, c, cur)
    case LockNext(_, _, cur) => PassedTo(l, h, c, cur)
    case DropBehind(_, _, cur) => PassedTo(l, h, c, cur)
    case _ => true
  }

  lemma OwnStepKeepsPassed(l: Layout, h: Heap, c: Call, fail: bool)
    requires HeapOk(l, h) && CallOk(l, h, c) && PassedOk(l, h, c)
    ensures PassedOk(l, StepHeap(h, c), StepCall(l, h, c, fail))
  {
    hide Index;
    if c.pc.AtHead? {
      NothingBeforeHead(l, h, c);
    } else if c.pc.Compare? {
      if !HasKey(h, c.pc.cur, c.key) && NextOf(h, c.pc.cur).Some? {
        NextPassed(l, h, c, c.pc.cur);
      }
      hide PassedTo, HeapOk;
    } else {
      hide PassedTo, HeapOk;
    }
  }

  lemma NothingBeforeHead(l: Layout, h: Heap, c: Call)
    requires HeapOk(l, h)
    ensures PassedTo(l, h, c, HeadOf(l, c.key))
  {
    hide Index;
    forall e | On(l, h, c, e)
      ensures l.rank[HeadOf(l, c.key)] <= l.rank[e]
    {
      HeadIsLowest(l, h, e);
    }
  }

  lemma NextPassed(l: Layout, h: Heap, c: Call, cur: Id)
    requires HeapOk(l, h) && On(l, h, c, cur) && PassedTo(l, h, c, cur) && !HasKey(h, cur, c.key) && NextOf(h, cur).Some?
    ensures PassedTo(l, h, c, NextOf(h, cur).value)
  {
    hide Index, HasKey;
    var n := NextOf(h, cur).value;
    assert Follows(l, h, cur, h.next[cur].value);
    forall e | On(l, h, c, e) && l.rank[e] < l.rank[n]
      ensures !HasKey(h, e, c.key)
    {
      Ordered(l, h, cur, e);
    }
  }

  /** Another call's step gives a record passed by a walk at most the key of another
      passed record. */
  lemma OtherStepKeepsPassed(l: Layout, s: State, t: Tid, u: Tid)
    requires Inv(l, s) && t in s.calls && u in s.calls && u != t
    ensures |l.head| > 0 && PassedOk(l, StepHeap(s.heap, s.calls[t]), s.calls[u])
  {
    hide Index, LocksOk;
    var c, d, h := s.calls[t], s.calls[u], s.heap;
    if d.pc.Compare? || d.pc.LockNext? || d.pc.DropBehind? {
      if c.pc.CopyUp? {
        CopySourcePassed(l, s, t, u);
        hide CallOk, HeapOk, StepCall;
        CopyKeepsPassed(l, h, c, d, d.pc.cur);
      } else {
        KeysStay(h, c);
        hide CallOk, HeapOk, StepHeap;
      }
    }
  }

  lemma KeysStay(h: Heap, c: Call)
    requires !c.pc.CopyUp?
    ensures StepHeap(h, c).linked <= h.linked
    ensures forall e, k :: HasKey(StepHeap(h, c), e, k) ==> HasKey(h, e, k)
  {
    assert StepHeap(h, c).key == h.key;
  }

  /** A head slot that a walk has passed takes its key from a record the walk has passed. */
  lemma CopySourcePassed(l: Layout, s: State, t: Tid, u: Tid)
    requires Inv(l, s) && t in s.calls && u in s.calls && u != t && s.calls[t].pc.CopyUp?
    requires s.calls[u].pc.Compare? || s.calls[u].pc.LockNext? || s.calls[u].pc.DropBehind?
    ensures |l.head| > 0
    ensures var c, d, h := s.calls[t], s.calls[u], s.heap;
            On(l, h, d, c.pc.before) && PassedTo(l, h, d, d.pc.cur) && l.rank[c.pc.before] < l.rank[d.pc.cur] ==>
              On(l, h, d, c.pc.cur) && c.pc.cur in l.rank && l.rank[c.pc.cur] < l.rank[d.pc.cur]
  {
    hide Index, HasKey;
    var c, d, h := s.calls[t], s.calls[u], s.heap;
    assert CallOk(l, h, c) && CallOk(l, h, d);
    if On(l, h, d, c.pc.before) && PassedTo(l, h, d, d.pc.cur) && l.rank[c.pc.before] < l.rank[d.pc.cur] {
      assert Follows(l, h, c.pc.before, c.pc.cur);
      WalkIsLinked(l, h, d);
      Ordered(l, h, c.pc.before, d.pc.cur);
      Ordered(l, h, c.pc.cur, d.pc.cur);
      DifferentRecords(l, s, t, u);
    }
  }

  lemma WalkIsLinked(l: Layout, h: Heap, d: Call)
    requires HeapOk(l, h) && CallOk(l, h, d) && (d.pc.Compare? || d.pc.LockNext? || d.pc.DropBehind?)
    ensures On(l, h, d, d.pc.cur)
  {
    hide Index;
    if d.pc.LockNext? || d.pc.DropBehind? {
      assert Follows(l, h, d.pc.before, d.pc.cur);
    }
  }

  /** The record being copied up is not the one a walk stands before: the walk holds it, or
      holds its predecessor. */
  lemma DifferentRecords(l: Layout, s: State, t: Tid, u: Tid)
    requires Inv(l, s) && t in s.calls && u in s.calls && u != t && s.calls[t].pc.CopyUp?
    requires s.calls[u].pc.Compare? || s.calls[u].pc.LockNext? || s.calls[u].pc.DropBehind?
    ensures s.calls[t].pc.cur != s.calls[u].pc.cur
  {
    hide Index, HasKey;
    var c, d, h := s.calls[t], s.calls[u], s.heap;
    assert CallOk(l, h, c) && CallOk(l, h, d);
    assert c.Mode() == Write && c.pc.before in c.held && c.pc.cur in c.held;
    if d.pc.LockNext? {
      assert Follows(l, h, c.pc.before, c.pc.cur) && Follows(l, h, d.pc.before, d.pc.cur);
      assert d.pc.before in d.held;
    } else {
      assert d.pc.cur in d.held;
    }
  }

  lemma CopyKeepsPassed(l: Layout, h: Heap, c: Call, d: Call, cur: Id)
    requires |l.head| > 0 && c.pc.CopyUp? && PassedTo(l, h, d, cur) && c.pc.cur in h.key
    requires On(l, h, d, c.pc.before) && c.pc.before in l.rank && l.rank[c.pc.before] < l.rank[cur] ==>
               On(l, h, d, c.pc.cur) && c.pc.cur in l.rank && l.rank[c.pc.cur] < l.rank[cur]
    ensures PassedTo(l, StepHeap(h, c), d, cur)
  {
    hide Index;
    var h' := StepHeap(h, c);
    forall e | On(l, h', d, e) && e in l.rank && l.rank[e] < l.rank[cur]
      ensures !HasKey(h', e, d.key)
    {
      assert On(l, h, d, e);
      if e != c.pc.before {
        assert ContentsOf(h', e).key == ContentsOf(h, e).key;
      }
    }
  }

  // ---------- What a successful delete has done ----------

  /** A record marked in `mark` was bypassed by the record of `pass`. */
  ghost predicate Passing(mark: Change, pass: Change) {
    pass.before.next == Some(mark.record) && pass.after == pass.before.(next := mark.after.next)
  }

  /** A marked record whose pointer was turned to the free chain. */
  ghost predicate Freeing(mark: Change, turn: Change) {
    turn.record == mark.record && turn.before == mark.after && turn.after == turn.before.(next := turn.after.next)
  }

  /** The match, or the promoted head's successor, was marked and bypassed. */
  ghost predicate Bypassed(l: Layout, key: Key, log: seq<Change>)
    requires |l.head| > 0
  {
    var n := |log|;
    && 2 <= n && HalfDone(l, key, log[..n - 1]) && Passing(log[n - 2], log[n - 1])
    && (n == 3 ==> log[2].record == HeadOf(l, key) && log[2].before == log[0].after)
  }

  /** It was then turned to the free chain. */
  ghost predicate Freed(l: Layout, key: Key, log: seq<Change>)
    requires |l.head| > 0
  {
    3 <= |log| && Bypassed(l, key, log[..|log| - 1]) && Freeing(log[|log| - 3], log[|log| - 1])
  }

  /** The head slot with the key, and without a chain, was marked unoccupied. */
  ghost predicate ClearedHead(l: Layout, key: Key, log: seq<Change>)
    requires |l.head| > 0
  {
    && |log| == 1 && log[0].record == HeadOf(l, key) && Marking(log[0])
    && log[0].before.key == Some(key) && log[0].before.occupied && log[0].before.next == None
  }

  ghost predicate DeletedOk(l: Layout, h: Heap, c: Call)
    requires |l.head| > 0
  {
    var n := |c.wrote|;
    match c.pc
    case Bypass(before, cur) => Marked(l, h, c, before, cur)
    case LinkFree(before, cur) =>
      && Bypassed(l, c.key, c.wrote) && c.wrote[n - 2].record == cur && c.wrote[n - 1].record == before
      && ContentsOf(h, cur) == c.wrote[n - 2].after
    case PointFree(_, cur) =>
      && Freed(l, c.key, c.wrote) && c.wrote[n - 1].record == cur && ContentsOf(h, cur) == c.wrote[n - 1].after
      && NextOf(h, cur) == h.freechain
    case DropFree(_, cur) =>
      && Freed(l, c.key, c.wrote) && c.wrote[n - 1].record == cur && ContentsOf(h, cur) == c.wrote[n - 1].after
      && h.freechain == Some(cur)
    case Release(_, result) =>
      result == Deleted ==> Freed(l, c.key, c.wrote) && c.wrote[n - 1].record !in h.linked
    case Done(result) =>
      && (result == Deleted ==> Freed(l, c.key, c.wrote) && c.wrote[n - 1].record !in h.linked)
      && (result == DeletedHead ==> ClearedHead(l, c.key, c.wrote))
    case _ => true
  }

  lemma OwnStepKeepsDeleted(l: Layout, h: Heap, c: Call, fail: bool)
    requires HeapOk(l, h) && CallOk(l, h, c) && DeletedOk(l, h, c)
    ensures DeletedOk(l, StepHeap(h, c), StepCall(l, h, c, fail))
  {
    assert |l.head| > 0;
    hide DeletedOk, CallOk, HeapOk, StepHeap, StepCall, Index;
    match c.pc
    case Decide(_, _) => DecideKeepsDeleted(l, h, c, fail);
    case LockFree(_, _) => LockFreeKeepsDeleted(l, h, c, fail);
    case Bypass(_, _) => BypassKeepsDeleted(l, h, c, fail);
    case LinkFree(_, _) => LinkKeepsDeleted(l, h, c, fail);
    case PointFree(_, _) => PointKeepsDeleted(l, h, c, fail);
    case DropFree(_, _) => EndKeepsDeleted(l, h, c, fail);
    case Release(_, _) => EndKeepsDeleted(l, h, c, fail);
    case Done(_) => EndKeepsDeleted(l, h, c, fail);
    case _ => EarlyKeepsDeleted(l, h, c, fail);
  }

  lemma EarlyKeepsDeleted(l: Layout, h: Heap, c: Call, fail: bool)
    requires |l.head| > 0
    requires !c.pc.Decide? && !c.pc.LockFree? && !c.pc.Bypass? && !c.pc.LinkFree? && !c.pc.PointFree? && !c.pc.DropFree?
    requires !c.pc.Release? && !c.pc.Done?
    ensures DeletedOk(l, StepHeap(h, c), StepCall(l, h, c, fail))
  {
    hide Index, StepHeap, Writes;
  }

  lemma DecideKeepsDeleted(l: Layout, h: Heap, c: Call, fail: bool)
    requires HeapOk(l, h) && CallOk(l, h, c) && c.pc.Decide?
    ensures DeletedOk(l, StepHeap(h, c), StepCall(l, h, c, fail))
  {
    hide Index;
    assert [] + Writes(h, c) == Writes(h, c);
    if c.pc.prev.None? && NextOf(h, c.pc.cur).None? {
      assert ContentsOf(StepHeap(h, c), c.pc.cur) == ContentsOf(h, c.pc.cur).(occupied := false);
      hide HeapOk;
    }
  }

  lemma LockFreeKeepsDeleted(l: Layout, h: Heap, c: Call, fail: bool)
    requires |l.head| > 0 && CallOk(l, h, c) && c.pc.LockFree?
    ensures DeletedOk(l, StepHeap(h, c), StepCall(l, h, c, fail))
  {
    hide Index, HalfDone, AsLogged, ContentsOf;
    assert c.wrote + [] == c.wrote;
    MarkedAnyPc(l, h, c, StepCall(l, h, c, fail), c.pc.before, c.pc.cur);
    hide Marked;
  }

  lemma BypassKeepsDeleted(l: Layout, h: Heap, c: Call, fail: bool)
    requires HeapOk(l, h) && CallOk(l, h, c) && c.pc.Bypass? && DeletedOk(l, h, c)
    ensures DeletedOk(l, StepHeap(h, c), StepCall(l, h, c, fail))
  {
    hide Index;
    var before, cur, h' := c.pc.before, c.pc.cur, StepHeap(h, c);
    assert Follows(l, h, before, cur);
    var pass := ChangeOf(h, c, before);
    assert pass.before.next == Some(cur) && ContentsOf(h', cur) == ContentsOf(h, cur);
    assert pass.after == pass.before.(next := NextOf(h, cur));
    var n := |c.wrote|;
    assert ContentsOf(h, c.wrote[n - 1].record) == c.wrote[n - 1].after;
    assert ContentsOf(h, c.wrote[0].record) == c.wrote[0].after;
    assert (c.wrote + [pass])[..n] == c.wrote;
    hide HeapOk, CallOk, HalfDone, ContentsOf;
  }

  lemma LinkKeepsDeleted(l: Layout, h: Heap, c: Call, fail: bool)
    requires |l.head| > 0 && CallOk(l, h, c) && c.pc.LinkFree? && DeletedOk(l, h, c)
    ensures DeletedOk(l, StepHeap(h, c), StepCall(l, h, c, fail))
  {
    hide Index, Bypassed, CallOk;
    var cur, n := c.pc.cur, |c.wrote|;
    var turn := ChangeOf(h, c, cur);
    assert turn.after == turn.before.(next := h.freechain);
    BypassedIsSome(l, c.key, c.wrote);
    assert (c.wrote + [turn])[..n] == c.wrote;
    hide ContentsOf;
  }

  lemma BypassedIsSome(l: Layout, key: Key, log: seq<Change>)
    requires |l.head| > 0 && Bypassed(l, key, log)
    ensures |log| >= 2
  {
  }

  lemma PointKeepsDeleted(l: Layout, h: Heap, c: Call, fail: bool)
    requires |l.head| > 0 && CallOk(l, h, c) && c.pc.PointFree? && DeletedOk(l, h, c)
    ensures DeletedOk(l, StepHeap(h, c), StepCall(l, h, c, fail))
  {
    hide Index, Freed, CallOk;
    assert c.wrote + [] == c.wrote;
  }

  lemma EndKeepsDeleted(l: Layout, h: Heap, c: Call, fail: bool)
    requires |l.head| > 0 && CallOk(l, h, c) && (c.pc.DropFree? || c.pc.Release? || c.pc.Done?) && DeletedOk(l, h, c)
    ensures DeletedOk(l, StepHeap(h, c), StepCall(l, h, c, fail))
  {
    hide Index, Freed, ContentsOf, Elements, AllDifferent, Marked, HalfDone;
    assert c.wrote + [] == c.wrote;
  }

  lemma OtherStepKeepsDeleted(l: Layout, s: State, t: Tid, u: Tid)
    requires Inv(l, s) && t in s.calls && u in s.calls && u != t
    ensures |l.head| > 0 && DeletedOk(l, StepHeap(s.heap, s.calls[t]), s.calls[u])
  {
    hide Index, CallOk, DeletedOk, PassedOk, StepHeap, AgreesOutside, Targets;
    var c, d, h, h' := s.calls[t], s.calls[u], s.heap, StepHeap(s.heap, s.calls[t]);
    TargetsAreHeld(l, h, c);
    WritesOnlyTargets(h, c);
    FreeChainStays(l, s, t, u);
    if Targets(c.pc) != {} {
      assert c.Mode() == Write;
      assert c.held !! d.held;
      DeletedFrame(l, h, h', Targets(c.pc), d);
    } else {
      assert h' == h;
    }
  }

  /** Nobody else turns the free chain while a call holds its lock. */
  lemma FreeChainStays(l: Layout, s: State, t: Tid, u: Tid)
    requires Inv(l, s) && t in s.calls && u in s.calls && u != t
    ensures s.calls[u].free ==> StepHeap(s.heap, s.calls[t]).freechain == s.heap.freechain
    ensures |l.head| > 0
    ensures s.calls[u].pc.PointFree? || s.calls[u].pc.DropFree? ==> s.calls[u].free
  {
    hide Index, PassedOk, DeletedOk;
    assert CallOk(l, s.heap, s.calls[t]) && CallOk(l, s.heap, s.calls[u]);
    hide HeapOk;
  }

  lemma DeletedFrame(l: Layout, h: Heap, h': Heap, w: set<Id>, d: Call)
    requires |l.head| > 0 && CallOk(l, h, d) && DeletedOk(l, h, d) && AgreesOutside(h, h', w) && w !! d.held
    requires d.pc.PointFree? || d.pc.DropFree? ==> h'.freechain == h.freechain
    ensures DeletedOk(l, h', d)
  {
    hide Index, Freed, Bypassed;
    match d.pc
    case Bypass(before, cur) =>
      hide Marked;
      MarkedFrame(l, h, h', w, d, before, cur);
    case LinkFree(_, cur) => assert ContentsOf(h', cur) == ContentsOf(h, cur);
    case PointFree(_, cur) => assert ContentsOf(h', cur) == ContentsOf(h, cur);
    case DropFree(_, cur) => assert ContentsOf(h', cur) == ContentsOf(h, cur);
    case _ =>
  }

  // ---------- What holds in every run ----------

  /** The record a locate call has matched and holds. */
  function MatchOf(c: Call): Option<Id> {
    match c.pc
    case Found(_, cur) => Some(cur)
    case DropTable(_, cur) => Some(cur)
    case ReadData(cur) => Some(cur)
    case Release(rest, Answer(_)) => if rest == [] then None else Some(rest[0])
    case _ => None
  }

  /** The matched record a locate call holds stays on its bucket's chain, under the
      key it matched and with the data it answers, until the call releases it. */
  lemma LocatorKeepsItsMatch(l: Layout, run: seq<State>, moves: seq<Move>, i: nat, t: Tid)
    requires IsRun(l, run, moves) && i < |run| && t in run[i].calls
    requires var c := run[i].calls[t]; c.op == Locate && MatchOf(c).Some?
    ensures |l.head| > 0
    ensures var c, e := run[i].calls[t], MatchOf(run[i].calls[t]).value;
            && e in c.held
            && OnChain(l, run[i].heap, Index(c.key, |l.head|), e)
            && HasKey(run[i].heap, e, c.key)
            && (c.pc.Release? ==> ContentsOf(run[i].heap, e).data == Some(c.pc.result.data))
  {
    hide Index, IsRun, OnChain;
    InRun(l, run, moves, i, t);
    var c := run[i].calls[t];
    OnChainIsLinked(l, run[i].heap, Index(c.key, |l.head|), MatchOf(c).value);
  }

  /** The records of which a call's next step reads a field. */
  function Reads(l: Layout, c: Call): set<Id>
    requires |l.head| > 0
  {
    match c.pc
    case AtHead => {HeadOf(l, c.key)}
    case Compare(_, cur) => {cur}
    case ReadData(cur) => {cur}
    case Decide(_, cur) => {cur}
    case CopyUp(_, cur) => {cur}
    case Bypass(_, cur) => {cur}
    case _ => {}
  }

  /** No call reads, follows or waits for a record that is off its chain. */
  lemma NeverFollowsUnlinked(l: Layout, run: seq<State>, moves: seq<Move>, i: nat, t: Tid)
    requires IsRun(l, run, moves) && i < |run| && t in run[i].calls
    requires |l.head| > 0
    ensures var c, h := run[i].calls[t], run[i].heap;
            var bucket := Index(c.key, |l.head|);
            && (forall e :: e in Reads(l, c) ==>
                  && OnChain(l, h, bucket, e)
                  && (NextOf(h, e).Some? ==> OnChain(l, h, bucket, NextOf(h, e).value)))
            && (Awaits(l, c).Some? ==> OnChain(l, h, bucket, Awaits(l, c).value))
  {
    hide Index, IsRun, OnChain;
    InRun(l, run, moves, i, t);
    var c, h := run[i].calls[t], run[i].heap;
    var bucket := Index(c.key, |l.head|);
    ReadsAreLinked(l, h, c);
    hide CallOk, Reads, Awaits;
    forall e | e in Reads(l, c)
      ensures OnChain(l, h, bucket, e)
      ensures NextOf(h, e).Some? ==> OnChain(l, h, bucket, NextOf(h, e).value)
    {
      OnChainIsLinked(l, h, bucket, e);
      if NextOf(h, e).Some? {
        assert Follows(l, h, e, h.next[e].value);
        OnChainIsLinked(l, h, bucket, NextOf(h, e).value);
      }
    }
    if Awaits(l, c).Some? {
      OnChainIsLinked(l, h, bucket, Awaits(l, c).value);
    }
  }

  lemma ReadsAreLinked(l: Layout, h: Heap, c: Call)
    requires HeapOk(l, h) && CallOk(l, h, c)
    ensures forall e :: e in Reads(l, c) ==> e in h.linked && l.home[e] == Index(c.key, |l.head|)
    ensures Awaits(l, c).Some? ==> Awaits(l, c).value in h.linked && l.home[Awaits(l, c).value] == Index(c.key, |l.head|)
  {
    hide Index;
    assert HeadOf(l, c.key) in h.linked && l.home[HeadOf(l, c.key)] == Index(c.key, |l.head|);
    if c.pc.CopyUp? || c.pc.Bypass? || c.pc.LockNext? || c.pc.LockSuccessor? {
      assert Follows(l, h, c.pc.before, c.pc.cur);
    }
  }

  /** The records a delete call works on, from its match until it unlinks: a record and its
      predecessor, or just a head slot. */
  function PairOf(c: Call): Option<(Option<Id>, Id)> {
    match c.pc
    case Found(prev, cur) => Some((prev, cur))
    case DropTable(prev, cur) => Some((prev, cur))
    case Decide(prev, cur) => Some((prev, cur))
    case LockSuccessor(before, cur) => Some((Some(before), cur))
    case CopyUp(before, cur) => Some((Some(before), cur))
    case Mark(before, cur) => Some((Some(before), cur))
    case LockFree(before, cur) => Some((Some(before), cur))
    case Bypass(before, cur) => Some((Some(before), cur))
    case _ => None
  }

  /** From its match until it unlinks, a delete call's pair stays adjacent on the chain and
      locked by it, but for a head's successor before its lock is taken; a match in a head
      slot is that slot, locked. */
  lemma DeleterPairAdjacent(l: Layout, run: seq<State>, moves: seq<Move>, i: nat, t: Tid)
    requires IsRun(l, run, moves) && i < |run| && t in run[i].calls
    requires run[i].calls[t].op == Delete && PairOf(run[i].calls[t]).Some?
    ensures |l.head| > 0
    ensures var c, h := run[i].calls[t], run[i].heap;
            var (prev, cur) := PairOf(c).value;
            var bucket := Index(c.key, |l.head|);
            && OnChain(l, h, bucket, cur)
            && c.held == Opt(prev) + (if c.pc.LockSuccessor? then {} else {cur})
            && (prev.None? ==> cur == HeadOf(l, c.key))
            && (prev.Some? ==> NextOf(h, prev.value) == Some(cur) && OnChain(l, h, bucket, prev.value))
  {
    hide Index, IsRun, OnChain;
    InRun(l, run, moves, i, t);
    var c, h := run[i].calls[t], run[i].heap;
    var (prev, cur) := PairOf(c).value;
    var bucket := Index(c.key, |l.head|);
    if prev.Some? {
      assert Follows(l, h, prev.value, h.next[prev.value].value);
      OnChainIsLinked(l, h, bucket, prev.value);
    }
    OnChainIsLinked(l, h, bucket, cur);
  }

  /** At each head of the walk loop the entry locks held are exactly those of the
      current record and its immediate predecessor. */
  lemma LoopHeadHoldsTwo(l: Layout, run: seq<State>, moves: seq<Move>, i: nat, t: Tid)
    requires IsRun(l, run, moves) && i < |run| && t in run[i].calls && run[i].calls[t].pc.Compare?
    ensures var c := run[i].calls[t];
            && c.held == (if c.pc.prev.Some? then {c.pc.prev.value, c.pc.cur} else {c.pc.cur})
            && (c.pc.prev.Some? ==> NextOf(run[i].heap, c.pc.prev.value) == Some(c.pc.cur))
  {
    hide Index, IsRun, OnChain;
    InRun(l, run, moves, i, t);
  }

  /** A finished call holds a lock exactly when it deleted a head without a chain,
      whatever lock calls failed; a locate call never does. */
  lemma FinishedHoldsNothing(l: Layout, run: seq<State>, moves: seq<Move>, i: nat, t: Tid)
    requires IsRun(l, run, moves) && i < |run| && t in run[i].calls && run[i].calls[t].pc.Done?
    ensures var c := run[i].calls[t];
            && !c.table && !c.free
            && (c.held != {} <==> c.pc.result == DeletedHead)
            && (c.op == Locate ==> c.held == {})
  {
    hide Index, IsRun, OnChain;
    InRun(l, run, moves, i, t);
  }

  /** The one step that ends a call with its lock held, by the branch it takes. */
  lemma LeakingStep(l: Layout, s: State, t: Tid, fail: bool)
    requires Inv(l, s) && Enabled(l, s, t, fail)
    ensures Step(l, s, t, fail).calls[t].pc == Done(DeletedHead)
       <==> s.calls[t].pc.Decide? && s.calls[t].pc.prev == None && NextOf(s.heap, s.calls[t].pc.cur) == None
  {
    hide Index, HeapOk, LocksOk;
    assert CallOk(l, s.heap, s.calls[t]);
  }

  /** A call waiting for the bucket of such a delete cannot take the lock, and no step of
      another call changes that. */
  lemma LeakBlocks(l: Layout, s: State, t: Tid, u: Tid)
    requires Inv(l, s) && t in s.calls && u in s.calls && t != u
    requires s.calls[u].pc == Done(DeletedHead)
    requires s.calls[t].pc == LockHead && HeadOf(l, s.calls[t].key) == HeadOf(l, s.calls[u].key)
    ensures !Enabled(l, s, t, false)
    ensures forall v, fail :: Enabled(l, s, v, fail) && v != t ==>
              var s' := Step(l, s, v, fail); s'.calls[t] == s.calls[t] && s'.calls[u] == s.calls[u]
  {
    hide Index;
    assert CallOk(l, s.heap, s.calls[u]);
    assert HeadOf(l, s.calls[t].key) in s.calls[u].held;
  }

  /** In every later state of a run such a call stands where it stood and cannot take the
      lock, unless its own lock call fails. */
  lemma {:induction false} LeakBlocksForever(l: Layout, run: seq<State>, moves: seq<Move>, i: nat, j: nat, t: Tid, u: Tid)
    requires IsRun(l, run, moves) && i <= j < |run|
    requires t in run[i].calls && u in run[i].calls && t != u && |l.head| > 0
    requires run[i].calls[u].pc == Done(DeletedHead)
    requires run[i].calls[t].pc == LockHead && HeadOf(l, run[i].calls[t].key) == HeadOf(l, run[i].calls[u].key)
    requires forall k :: i <= k < j ==> moves[k] != Move(t, true)
    ensures t in run[j].calls && u in run[j].calls
    ensures run[j].calls[t] == run[i].calls[t] && run[j].calls[u] == run[i].calls[u]
    ensures !Enabled(l, run[j], t, false)
    decreases j
  {
    hide Inv, Enabled, Step, Init, Index;
    if j > i {
      LeakBlocksForever(l, run, moves, i, j - 1, t, u);
      RunInv(l, run, moves, j - 1);
      LeakBlocks(l, run[j - 1], t, u);
      var m := moves[j - 1];
      assert Enabled(l, run[j - 1], m.call, m.fail) && run[j - 1 + 1] == Step(l, run[j - 1], m.call, m.fail);
      assert m.call != t by {
        assert m == Move(m.call, m.fail);
      }
      StepKeepsCallers(l, run[j - 1], m.call, m.fail);
    }
    RunInv(l, run, moves, j);
    LeakBlocks(l, run[j], t, u);
  }

  lemma StepKeepsCallers(l: Layout, s: State, t: Tid, fail: bool)
    requires Enabled(l, s, t, fail)
    ensures Step(l, s, t, fail).calls.Keys == s.calls.Keys
    ensures forall u :: u in s.calls && u != t ==> Step(l, s, t, fail).calls[u] == s.calls[u]
  {
    hide StepCall, StepHeap;
  }

  // ---------- Absence of deadlock ----------

  /** A holder of an awaited record's lock that itself waits for a record waits further down. */
  lemma HolderWaitsFurther(l: Layout, h: Heap, d: Call, e: Id)
    requires HeapOk(l, h) && CallOk(l, h, d) && e in d.held && e in l.rank && Awaits(l, d).Some?
    ensures Awaits(l, d).value in l.rank && l.rank[Awaits(l, d).value] > l.rank[e]
    ensures l.rank[Awaits(l, d).value] < l.bound
  {
    hide Index;
  }

  lemma AwaitedIsRanked(l: Layout, h: Heap, c: Call)
    requires HeapOk(l, h) && CallOk(l, h, c) && Awaits(l, c).Some?
    ensures Awaits(l, c).value in l.rank && l.rank[Awaits(l, c).value] < l.bound
  {
    hide Index;
  }

  ghost predicate NoLeak(s: State) {
    forall t :: t in s.calls && s.calls[t].pc.Done? ==> s.calls[t].held == {}
  }

  /** Following the holders down the chain ends at a call that can step. */
  lemma {:induction false} Climb(l: Layout, s: State, t: Tid) returns (u: Tid)
    requires Inv(l, s) && NoLeak(s) && t in s.calls && Awaits(l, s.calls[t]).Some?
    requires forall v :: v in s.calls && !s.calls[v].pc.Done? && !s.calls[v].pc.Begin? && !s.calls[v].pc.LockFree? ==>
               Awaits(l, s.calls[v]).Some?
    requires forall v :: v in s.calls ==> !s.calls[v].pc.LockFree?
    ensures Enabled(l, s, u, false)
    decreases l.bound - (if Awaits(l, s.calls[t]).Some? && Awaits(l, s.calls[t]).value in l.rank
                         then l.rank[Awaits(l, s.calls[t]).value] else 0)
  {
    hide Index;
    var e := Awaits(l, s.calls[t]).value;
    AwaitedIsRanked(l, s.heap, s.calls[t]);
    if CanLock(s, t, e) {
      return t;
    }
    var v :| v in s.calls && v != t && e in s.calls[v].held;
    assert CallOk(l, s.heap, s.calls[v]);
    assert Awaits(l, s.calls[v]).Some?;
    HolderWaitsFurther(l, s.heap, s.calls[v], e);
    u := Climb(l, s, v);
  }

  /** While some call is unfinished and no finished call kept a lock, some call can step
      without a failing lock. */
  lemma NoDeadlock(l: Layout, s: State, t: Tid) returns (u: Tid)
    requires Inv(l, s) && NoLeak(s) && t in s.calls && !s.calls[t].pc.Done?
    ensures Enabled(l, s, u, false)
  {
    hide Index, CallOk, CanLock, CanLockTable, CanLockFree;
    if v :| v in s.calls && s.calls[v].pc.LockFree? {
      u := FreeChainMoves(l, s, v);
      return;
    }
    if v :| v in s.calls && !s.calls[v].pc.Done? && !s.calls[v].pc.Begin? && Awaits(l, s.calls[v]).None? {
      return v;
    }
    if v :| v in s.calls && Awaits(l, s.calls[v]).Some? {
      u := Climb(l, s, v);
      return;
    }
    TableIsFree(l, s, t);
    return t;
  }

  /** When every unfinished call is at its start nobody holds the table's lock. */
  lemma TableIsFree(l: Layout, s: State, t: Tid)
    requires Inv(l, s) && t in s.calls
    requires forall v :: v in s.calls ==> s.calls[v].pc.Begin? || s.calls[v].pc.Done?
    ensures CanLockTable(s, t)
  {
    hide Index, LocksOk;
    assert forall v :: v in s.calls ==> CallOk(l, s.heap, s.calls[v]);
  }

  /** Whoever holds the free chain's lock, or can take it, moves. */
  lemma FreeChainMoves(l: Layout, s: State, v: Tid) returns (u: Tid)
    requires Inv(l, s) && v in s.calls && s.calls[v].pc.LockFree?
    ensures Enabled(l, s, u, false)
  {
    hide Index, HeapOk, LocksOk, PassedOk, DeletedOk;
    if CanLockFree(s, v) {
      return v;
    }
    u :| u in s.calls && u != v && s.calls[u].free;
    assert CallOk(l, s.heap, s.calls[u]);
  }

  // ---------- When a call reports failure ----------

  ghost predicate ReportsFailure(c: Call) {
    (c.pc.Release? || c.pc.Done?) && c.pc.result.Failed?
  }

  /** The acquisition a call is about to make. */
  function Acquires(c: Call): Option<Lock> {
    match c.pc
    case Begin => Some(TableLock)
    case LockHead => Some(HeadLock)
    case LockNext(_, _, _) => Some(NextLock)
    case LockSuccessor(_, _) => Some(SuccessorLock)
    case LockFree(_, _) => Some(FreeLock)
    case _ => None
  }

  /** A step turns a call to failure exactly when it is a failing acquisition, and the
      failure names it; a failure once reported stays. */
  lemma FailureIsNamed(l: Layout, s: State, t: Tid, fail: bool)
    requires Enabled(l, s, t, fail)
    ensures var c, c' := s.calls[t], Step(l, s, t, fail).calls[t];
            && (fail ==> !ReportsFailure(c) && ReportsFailure(c') && Acquires(c) == Some(c'.pc.result.at))
            && (!fail ==> (ReportsFailure(c') <==> ReportsFailure(c)))
            && (ReportsFailure(c) ==> ReportsFailure(c') && c'.pc.result == c.pc.result)
  {
    hide Index, Writes, StepHeap, CanLock, CanLockTable, CanLockFree, NextOf;
  }

  ghost predicate FailedBefore(moves: seq<Move>, i: nat, t: Tid)
    requires i <= |moves|
  {
    exists k :: 0 <= k < i && moves[k] == Move(t, true)
  }

  /** In every run a call reports failure exactly when one of its acquisitions has failed. */
  lemma {:induction false} FailureIsDue(l: Layout, run: seq<State>, moves: seq<Move>, i: nat, t: Tid)
    requires IsRun(l, run, moves) && i < |run| && t in run[0].calls
    ensures t in run[i].calls && (ReportsFailure(run[i].calls[t]) <==> FailedBefore(moves, i, t))
  {
    hide Init, Enabled, StepHeap, StepCall, ReportsFailure;
    if i == 0 {
      NothingAtStart(l, run[0], t);
      BeginsWell(run[0].calls[t]);
    } else {
      FailureIsDue(l, run, moves, i - 1, t);
      var m, s := moves[i - 1], run[i - 1];
      assert Enabled(l, s, m.call, m.fail) && run[i - 1 + 1] == Step(l, s, m.call, m.fail);
      EnabledFacts(l, s, m.call, m.fail);
      FailedSnoc(moves, i, t);
      if m.call == t {
        FailureIsNamed(l, s, t, m.fail);
      }
    }
  }

  lemma BeginsWell(c: Call)
    requires c.pc == Begin
    ensures !ReportsFailure(c)
  {
  }

  lemma FailedSnoc(moves: seq<Move>, i: nat, t: Tid)
    requires 0 < i <= |moves|
    ensures FailedBefore(moves, i, t) <==> FailedBefore(moves, i - 1, t) || moves[i - 1] == Move(t, true)
  {
  }

  // ---------- A delete that fails ----------

  ghost predicate SameContents(h: Heap, h': Heap) {
    forall e :: ContentsOf(h, e) == ContentsOf(h', e)
  }

  /** The steps `t` took before state `i` left every record as it was. */
  ghost predicate OwnStepsKeep(run: seq<State>, moves: seq<Move>, i: nat, t: Tid)
    requires i < |run| && |run| == |moves| + 1
  {
    forall k {:trigger moves[k]} :: 0 <= k < i && moves[k].call == t ==> SameContents(run[k].heap, run[k + 1].heap)
  }

  ghost predicate ChangesNothing(log: seq<Change>) {
    forall k :: 0 <= k < |log| ==> log[k].before == log[k].after
  }

  /** A step's record of what it wrote is what it wrote. */
  lemma WritesAreTheStep(h: Heap, c: Call)
    ensures SameContents(h, StepHeap(h, c)) <==> ChangesNothing(Writes(h, c))
  {
    OnlyWrittenChange(h, c);
    hide ContentsOf, StepHeap;
    if Writes(h, c) != [] {
      assert Writes(h, c)[0] == ChangeOf(h, c, Writes(h, c)[0].record);
    }
  }

  lemma OnlyWrittenChange(h: Heap, c: Call)
    ensures forall e :: Writes(h, c) == [] || Writes(h, c)[0].record != e ==> ContentsOf(h, e) == ContentsOf(StepHeap(h, c), e)
  {
    if c.pc.Bypass? || c.pc.LinkFree? {
      PointerWritten(h, c);
    } else if c.pc.Decide? || c.pc.CopyUp? || c.pc.Mark? {
      ContentsWritten(h, c);
    }
  }

  lemma PointerWritten(h: Heap, c: Call)
    requires c.pc.Bypass? || c.pc.LinkFree?
    ensures |Writes(h, c)| == 1
    ensures forall e :: Writes(h, c)[0].record != e ==> ContentsOf(h, e) == ContentsOf(StepHeap(h, c), e)
  {
  }

  lemma ContentsWritten(h: Heap, c: Call)
    requires c.pc.Decide? || c.pc.CopyUp? || c.pc.Mark?
    ensures forall e :: Writes(h, c) == [] || Writes(h, c)[0].record != e ==> ContentsOf(h, e) == ContentsOf(StepHeap(h, c), e)
  {
  }

  lemma {:induction false} LogTellsChanges(l: Layout, run: seq<State>, moves: seq<Move>, i: nat, t: Tid)
    requires IsRun(l, run, moves) && i < |run| && t in run[0].calls
    ensures t in run[i].calls
    ensures OwnStepsKeep(run, moves, i, t) <==> ChangesNothing(run[i].calls[t].wrote)
  {
    hide Init, Enabled, StepHeap, Advance, Writes, SameContents, ChangesNothing;
    if i == 0 {
      NothingAtStart(l, run[0], t);
    } else {
      LogTellsChanges(l, run, moves, i - 1, t);
      var m, s := moves[i - 1], run[i - 1];
      assert Enabled(l, s, m.call, m.fail) && run[i - 1 + 1] == Step(l, s, m.call, m.fail);
      if m.call == t {
        WritesAreTheStep(s.heap, s.calls[t]);
        LogSplits(s.calls[t].wrote, Writes(s.heap, s.calls[t]));
      }
    }
  }

  lemma NothingAtStart(l: Layout, s: State, t: Tid)
    requires Init(l, s) && t in s.calls
    ensures s.calls[t].wrote == [] && s.calls[t].pc == Begin && ChangesNothing(s.calls[t].wrote)
  {
    hide HeapOk;
  }

  lemma LogSplits(a: seq<Change>, b: seq<Change>)
    ensures ChangesNothing(a + b) <==> ChangesNothing(a) && ChangesNothing(b)
  {
    assert forall k :: 0 <= k < |a| ==> (a + b)[k] == a[k];
    assert forall k :: 0 <= k < |b| ==> (a + b)[|a| + k] == b[k];
  }

  /** A call that reports failure has left every record's pointer, key, data and flag as
      they were, exactly when the acquisition that failed was not the free chain's, or its
      match was a chain record that was already marked. */
  lemma FailedDelete(l: Layout, run: seq<State>, moves: seq<Move>, i: nat, t: Tid)
    requires IsRun(l, run, moves) && i < |run| && t in run[0].calls && t in run[i].calls
    requires run[i].calls[t].pc.Done? && run[i].calls[t].pc.result.Failed?
    ensures var c := run[i].calls[t];
            OwnStepsKeep(run, moves, i, t)
            <==> c.pc.result.at != FreeLock || (|c.wrote| == 1 && !c.wrote[0].before.occupied)
  {
    LogTellsChanges(l, run, moves, i, t);
    hide IsRun, OwnStepsKeep, Index, CallOk, HeapOk;
    InRun(l, run, moves, i, t);
    FailedLog(l, run[i].heap, run[i].calls[t]);
  }

  lemma FailedLog(l: Layout, h: Heap, c: Call)
    requires |l.head| > 0 && CallOk(l, h, c) && c.pc.Done? && c.pc.result.Failed?
    ensures ChangesNothing(c.wrote) <==> c.pc.result.at != FreeLock || (|c.wrote| == 1 && !c.wrote[0].before.occupied)
  {
    hide Index, HalfDone;
    if c.pc.result.at == FreeLock {
      HalfDoneChanges(l, c.key, c.wrote);
    }
  }

  lemma HalfDoneChanges(l: Layout, key: Key, log: seq<Change>)
    requires |l.head| > 0 && HalfDone(l, key, log)
    ensures ChangesNothing(log) <==> |log| == 1 && !log[0].before.occupied
  {
    hide Index;
    if |log| == 1 {
      assert log[0].after == log[0].before.(occupied := false);
    } else {
      assert log[0].before.occupied && log[0].after.occupied == log[1].before.occupied;
      assert !log[1].after.occupied;
    }
  }

  /** What such a delete leaves, while it still holds its locks.  Both records are on the
      chain and the second is marked.  Either it is the match, unchanged but for the mark;
      or the match was the head slot, which now holds the successor's key and data, so that
      the successor's item stands twice and the item to delete is gone. */
  lemma LostAtFreeChain(l: Layout, run: seq<State>, moves: seq<Move>, i: nat, t: Tid, before: Id, cur: Id)
    requires IsRun(l, run, moves) && i < |run| && t in run[i].calls
    requires run[i].calls[t].pc == Release([before, cur], Failed(FreeLock))
    ensures |l.head| > 0
    ensures var c, h := run[i].calls[t], run[i].heap;
            var bucket, log := Index(c.key, |l.head|), c.wrote;
            && OnChain(l, h, bucket, before) && OnChain(l, h, bucket, cur) && NextOf(h, before) == Some(cur)
            && !Occupied(h, cur)
            && (|log| == 1 ==>
                  && log[0].record == cur && log[0].before.key == Some(c.key)
                  && ContentsOf(h, cur) == log[0].before.(occupied := false))
            && (|log| != 1 ==>
                  && |log| == 2 && log[0].record == before == HeadOf(l, c.key) && log[1].record == cur
                  && log[0].before.key == Some(c.key) && log[0].before.occupied
                  && ContentsOf(h, before) == log[1].before.(next := Some(cur))
                  && ContentsOf(h, cur) == log[1].before.(occupied := false))
  {
    InRun(l, run, moves, i, t);
    hide IsRun, OnChain, Index;
    var c, h := run[i].calls[t], run[i].heap;
    LostStillHolds(l, h, c, before, cur);
    MarkedFacts(l, h, c, before, cur);
    hide CallOk, Marked, HalfDone, ContentsOf;
    assert Follows(l, h, before, h.next[before].value);
    OnChainIsLinked(l, h, Index(c.key, |l.head|), before);
    OnChainIsLinked(l, h, Index(c.key, |l.head|), cur);
  }

  lemma LostStillHolds(l: Layout, h: Heap, c: Call, before: Id, cur: Id)
    requires |l.head| > 0 && CallOk(l, h, c) && c.pc == Release([before, cur], Failed(FreeLock))
    ensures Marked(l, h, c, before, cur) && Adjacent(l, h, c, before, cur)
  {
    hide Index, Marked, HalfDone;
    assert |c.pc.rest| == 2 && c.pc.rest[0] == before && c.pc.rest[1] == cur;
  }

  lemma MarkedFacts(l: Layout, h: Heap, c: Call, before: Id, cur: Id)
    requires |l.head| > 0 && Marked(l, h, c, before, cur) && NextOf(h, before) == Some(cur)
    ensures var log := c.wrote;
            && !Occupied(h, cur)
            && (|log| == 1 ==>
                  && log[0].record == cur && log[0].before.key == Some(c.key)
                  && ContentsOf(h, cur) == log[0].before.(occupied := false))
            && (|log| != 1 ==>
                  && |log| == 2 && log[0].record == before == HeadOf(l, c.key) && log[1].record == cur
                  && log[0].before.key == Some(c.key) && log[0].before.occupied
                  && ContentsOf(h, before) == log[1].before.(next := Some(cur))
                  && ContentsOf(h, cur) == log[1].before.(occupied := false))
  {
    hide Index;
    assert ContentsOf(h, c.wrote[0].record) == c.wrote[0].after;
    assert ContentsOf(h, before).next == Some(cur);
  }

  /** No record behind a head slot is marked, but by a delete that is about to unlink it. */
  ghost predicate Tidy(l: Layout, s: State)
    requires HeapOk(l, s.heap)
  {
    forall e :: e in s.heap.linked && e != l.head[l.home[e]] && !Occupied(s.heap, e) ==> AboutToGo(s, e)
  }

  ghost predicate AboutToGo(s: State, e: Id) {
    exists t :: t in s.calls && (s.calls[t].pc.LockFree? || s.calls[t].pc.Bypass?) && s.calls[t].pc.cur == e
  }

  predicate LosesFreeChain(s: State, m: Move) {
    m.fail && m.call in s.calls && s.calls[m.call].pc.LockFree?
  }

  /** Only a refused free chain's lock leaves a marked record on a chain. */
  lemma StepKeepsTidy(l: Layout, s: State, t: Tid, fail: bool)
    requires Inv(l, s) && Tidy(l, s) && Enabled(l, s, t, fail) && !LosesFreeChain(s, Move(t, fail))
    ensures HeapOk(l, Step(l, s, t, fail).heap) && Tidy(l, Step(l, s, t, fail))
  {
    hide Index, CallOk, StepHeap, ContentsOf, LocksOk;
    StepKeepsHeap(l, s.heap, s.calls[t]);
    var s', c := Step(l, s, t, fail), s.calls[t];
    forall e | e in s'.heap.linked && e != l.head[l.home[e]] && !Occupied(s'.heap, e)
      ensures AboutToGo(s', e)
    {
      MarkedSince(l, s, t, e);
      if c.pc.Mark? && c.pc.cur == e {
        assert s'.calls[t].pc == LockFree(c.pc.before, e);
      } else {
        var u :| u in s.calls && (s.calls[u].pc.LockFree? || s.calls[u].pc.Bypass?) && s.calls[u].pc.cur == e;
        assert s'.calls[u].pc.LockFree? || s'.calls[u].pc.Bypass?;
      }
    }
  }

  /** A record found marked after a step was marked before, or is marked by that step. */
  lemma MarkedSince(l: Layout, s: State, t: Tid, e: Id)
    requires Inv(l, s) && t in s.calls
    requires e in StepHeap(s.heap, s.calls[t]).linked && e in l.home && l.home[e] < |l.head| && e != l.head[l.home[e]]
    requires !Occupied(StepHeap(s.heap, s.calls[t]), e)
    ensures e in s.heap.linked
    ensures (s.calls[t].pc.Mark? && s.calls[t].pc.cur == e) || !Occupied(s.heap, e)
    ensures s.calls[t].pc.Bypass? ==> s.calls[t].pc.cur != e
  {
    var c := s.calls[t];
    assert CallOk(l, s.heap, c);
    hide LocksOk, Index, PassedOk, DeletedOk, Inv;
    HeadIsHead(l, s.heap, c);
    hide CallOk;
  }

  /** The records whose flag a step writes other than by a mark are head slots. */
  lemma HeadIsHead(l: Layout, h: Heap, c: Call)
    requires |l.head| > 0 && CallOk(l, h, c)
    ensures c.pc.CopyUp? ==> c.pc.before == HeadOf(l, c.key) && On(l, h, c, c.pc.before)
    ensures c.pc.Decide? && c.pc.prev.None? ==> c.pc.cur == HeadOf(l, c.key) && On(l, h, c, c.pc.cur)
  {
    hide Index;
  }

  /** A record a delete is about to copy or to mark is not yet marked in a tidy state. */
  lemma NotYetMarked(l: Layout, s: State, t: Tid)
    requires Inv(l, s) && Tidy(l, s) && t in s.calls && (s.calls[t].pc.CopyUp? || s.calls[t].pc.Mark?)
    ensures Occupied(s.heap, s.calls[t].pc.cur)
  {
    hide Index, ContentsOf, PassedOk;
    var c := s.calls[t];
    assert CallOk(l, s.heap, c);
    assert Follows(l, s.heap, c.pc.before, c.pc.cur);
    forall u | u in s.calls && (s.calls[u].pc.LockFree? || s.calls[u].pc.Bypass?)
      ensures s.calls[u].pc.cur != c.pc.cur
    {
      assert CallOk(l, s.heap, s.calls[u]);
      assert u != t && s.calls[u].pc.cur in s.calls[u].held && c.pc.cur in c.held;
      assert s.calls[u].Mode() == Write;
    }
    assert !AboutToGo(s, c.pc.cur);
  }

  ghost predicate HasLost(c: Call) {
    (c.pc.Release? || c.pc.Done?) && c.pc.result == Failed(FreeLock)
  }

  /** In a run from a table without marked chain records in which no other call is refused
      the free chain's lock, the first record a delete writes was occupied. */
  lemma {:induction false} FirstWriteIsReal(l: Layout, run: seq<State>, moves: seq<Move>, i: nat, t: Tid)
    requires IsRun(l, run, moves) && i < |run| && t in run[0].calls
    requires HeapOk(l, run[0].heap) && Tidy(l, run[0])
    requires forall k :: 0 <= k < i && LosesFreeChain(run[k], moves[k]) ==> moves[k].call == t
    ensures t in run[i].calls && HeapOk(l, run[i].heap)
    ensures !HasLost(run[i].calls[t]) ==> Tidy(l, run[i])
    ensures run[i].calls[t].wrote != [] ==> run[i].calls[t].wrote[0].before.occupied
  {
    hide Init, Enabled, StepHeap, StepCall, Tidy, HeapOk, CallOk, LocksOk, Index;
    if i == 0 {
      NothingAtStart(l, run[0], t);
    } else {
      FirstWriteIsReal(l, run, moves, i - 1, t);
      RunInv(l, run, moves, i - 1);
      var m, s := moves[i - 1], run[i - 1];
      assert Enabled(l, s, m.call, m.fail) && run[i - 1 + 1] == Step(l, s, m.call, m.fail);
      EnabledFacts(l, s, m.call, m.fail);
      StepKeepsHeap(l, s.heap, s.calls[m.call]);
      assert m == Move(m.call, m.fail);
      if m.call == t {
        OwnFirstWrite(l, s, t, m.fail);
      }
      if !HasLost(run[i].calls[t]) && !LosesFreeChain(s, m) {
        LostStaysLost(l, s.heap, s.calls[t], m.fail);
        StepKeepsTidy(l, s, m.call, m.fail);
      }
    }
  }

  lemma EnabledFacts(l: Layout, s: State, t: Tid, fail: bool)
    requires Enabled(l, s, t, fail)
    ensures t in s.calls && |l.head| > 0
  {
  }

  lemma LostStaysLost(l: Layout, h: Heap, c: Call, fail: bool)
    requires |l.head| > 0
    ensures HasLost(c) ==> HasLost(StepCall(l, h, c, fail))
    ensures c.pc.LockFree? && fail ==> HasLost(StepCall(l, h, c, fail))
  {
    hide Index, Writes;
  }

  lemma OwnFirstWrite(l: Layout, s: State, t: Tid, fail: bool)
    requires Inv(l, s) && t in s.calls && |l.head| > 0
    requires !HasLost(s.calls[t]) ==> Tidy(l, s)
    requires s.calls[t].wrote != [] ==> s.calls[t].wrote[0].before.occupied
    ensures var log := StepCall(l, s.heap, s.calls[t], fail).wrote; log != [] ==> log[0].before.occupied
    ensures s.calls[t].pc.LockFree? && fail ==> HasLost(StepCall(l, s.heap, s.calls[t], fail))
  {
    hide Index, LocksOk, HeapOk, Tidy;
    var c := s.calls[t];
    LostStaysLost(l, s.heap, c, fail);
    assert CallOk(l, s.heap, c);
    if c.pc.Mark? {
      NotYetMarked(l, s, t);
    }
    if c.wrote == [] {
      assert c.wrote + Writes(s.heap, c) == Writes(s.heap, c);
    }
  }

  /** So in such a run a failed delete has left the records as they were exactly when the
      acquisition that failed was not the free chain's. */
  lemma FailedDeleteInTidyTable(l: Layout, run: seq<State>, moves: seq<Move>, i: nat, t: Tid)
    requires IsRun(l, run, moves) && i < |run| && t in run[0].calls && t in run[i].calls
    requires run[i].calls[t].pc.Done? && run[i].calls[t].pc.result.Failed?
    requires HeapOk(l, run[0].heap) && Tidy(l, run[0])
    requires forall k :: 0 <= k < i && LosesFreeChain(run[k], moves[k]) ==> moves[k].call == t
    ensures OwnStepsKeep(run, moves, i, t) <==> run[i].calls[t].pc.result.at != FreeLock
  {
    FailedDelete(l, run, moves, i, t);
    FirstWriteIsReal(l, run, moves, i, t);
  }

  // ---------- A delete that succeeds ----------

  /** The step that reports a head slot deleted: the slot held the call's key, occupied and
      without a chain; it is then unoccupied; nothing else changes. */
  lemma DeletesLoneHead(l: Layout, s: State, t: Tid, fail: bool)
    requires Inv(l, s) && Enabled(l, s, t, fail)
    requires Step(l, s, t, fail).calls[t].pc == Done(DeletedHead)
    ensures var c, h, h' := s.calls[t], s.heap, Step(l, s, t, fail).heap;
            var head := HeadOf(l, c.key);
            && HasKey(h, head, c.key) && Occupied(h, head) && NextOf(h, head) == None
            && ContentsOf(h', head) == ContentsOf(h, head).(occupied := false)
            && h'.linked == h.linked && h'.freechain == h.freechain
            && forall e :: e != head ==> ContentsOf(h', e) == ContentsOf(h, e)
  {
    LeakingStep(l, s, t, fail);
    hide Index, HeapOk, LocksOk, PassedOk, DeletedOk;
    assert CallOk(l, s.heap, s.calls[t]);
  }

  /** In every run a call that reported success has deleted an item with its key.  A head
      slot without a chain was marked unoccupied.  Else the log is: for a match on a chain,
      its mark; for a match in a head slot, the copy of its successor's item over it and the
      successor's mark; then the marked record was bypassed by the record that pointed at
      it, and turned to the free chain.  It is on no chain any more. */
  lemma SuccessfulDelete(l: Layout, run: seq<State>, moves: seq<Move>, i: nat, t: Tid)
    requires IsRun(l, run, moves) && i < |run| && t in run[i].calls && |l.head| > 0
    requires run[i].calls[t].pc == Done(Deleted) || run[i].calls[t].pc == Done(DeletedHead)
    ensures var c := run[i].calls[t];
            var log := c.wrote;
            && (c.pc == Done(DeletedHead) ==> ClearedHead(l, c.key, log))
            && (c.pc == Done(Deleted) ==>
                  && Freed(l, c.key, log) && (|log| == 3 || |log| == 4)
                  && log[0].before.key == Some(c.key)
                  && (|log| == 4 ==> log[0].record == HeadOf(l, c.key) && log[0].before.occupied
                                     && log[0].after.key == log[1].before.key && log[0].after.data == log[1].before.data)
                  && OffChains(l, run[i].heap, log[|log| - 1].record))
  {
    RunInv(l, run, moves, i);
    var c, h := run[i].calls[t], run[i].heap;
    assert DeletedOk(l, h, c);
    hide IsRun, OnChain, Index, CallOk, PassedOk, LocksOk;
    if c.pc == Done(Deleted) {
      FreedShape(l, c.key, c.wrote);
      hide Freed;
      UnlinkedIsOff(l, h, c.wrote[|c.wrote| - 1].record);
    }
  }

  ghost predicate OffChains(l: Layout, h: Heap, e: Id) {
    forall bucket :: 0 <= bucket < |l.head| ==> !OnChain(l, h, bucket, e)
  }

  lemma UnlinkedIsOff(l: Layout, h: Heap, e: Id)
    requires HeapOk(l, h) && e !in h.linked
    ensures OffChains(l, h, e)
  {
    hide OnChain;
    forall bucket | 0 <= bucket < |l.head|
      ensures !OnChain(l, h, bucket, e)
    {
      OnChainIsLinked(l, h, bucket, e);
    }
  }

  lemma FreedShape(l: Layout, key: Key, log: seq<Change>)
    requires |l.head| > 0 && Freed(l, key, log)
    ensures |log| == 3 || |log| == 4
    ensures log[0].before.key == Some(key)
    ensures |log| == 4 ==> log[0].record == HeadOf(l, key) && log[0].before.occupied
                           && log[0].after.key == log[1].before.key && log[0].after.data == log[1].before.data
  {
    hide Index;
    var n := |log|;
    var b := log[..n - 1];
    var m := b[..|b| - 1];
    assert m[0] == log[0] && (|m| == 2 ==> m[1] == log[1]);
  }

  /** The log of a call is true: every step changes exactly the records it logs, from and
      to the contents it logs. */
  lemma LogIsTrue(l: Layout, s: State, t: Tid, fail: bool)
    requires Enabled(l, s, t, fail)
    ensures var c, h, h' := s.calls[t], s.heap, Step(l, s, t, fail).heap;
            var log := Step(l, s, t, fail).calls[t].wrote;
            && |c.wrote| <= |log| <= |c.wrote| + 1 && log[..|c.wrote|] == c.wrote
            && forall e :: if |log| > |c.wrote| && log[|c.wrote|].record == e
                           then log[|c.wrote|].before == ContentsOf(h, e) && log[|c.wrote|].after == ContentsOf(h', e)
                           else ContentsOf(h', e) == ContentsOf(h, e)
  {
    var c, h := s.calls[t], s.heap;
    OnlyWrittenChange(h, c);
    OneWrite(h, c);
    hide ContentsOf, StepHeap, Advance, Writes, Index;
  }

  lemma OneWrite(h: Heap, c: Call)
    ensures Writes(h, c) == [] || Writes(h, c) == [ChangeOf(h, c, Writes(h, c)[0].record)]
  {
    hide ContentsOf, StepHeap;
  }

  /** A deleted record is pushed on the free chain: unoccupied, off its chain, and pointing
      at what headed the free chain before. */
  lemma PushedOnFreeChain(l: Layout, run: seq<State>, moves: seq<Move>, i: nat, t: Tid)
    requires IsRun(l, run, moves) && i < |moves| && moves[i].call == t && |l.head| > 0
    requires t in run[i].calls && run[i].calls[t].pc.PointFree?
    ensures var cur, h, h' := run[i].calls[t].pc.cur, run[i].heap, run[i + 1].heap;
            && h'.freechain == Some(cur) && NextOf(h', cur) == h.freechain && !Occupied(h', cur) && cur !in h'.linked
  {
    RunInv(l, run, moves, i);
    var c, h, s := run[i].calls[t], run[i].heap, run[i];
    assert Enabled(l, s, t, moves[i].fail) && run[i + 1] == Step(l, s, t, moves[i].fail);
    assert CallOk(l, h, c) && DeletedOk(l, h, c);
    hide IsRun, Index, HeapOk, LocksOk, PassedOk, Inv;
    assert run[i + 1].heap == StepHeap(h, c);
    hide Step, Enabled;
    PushedFacts(l, h, c);
  }

  lemma PushedFacts(l: Layout, h: Heap, c: Call)
    requires |l.head| > 0 && CallOk(l, h, c) && DeletedOk(l, h, c) && c.pc.PointFree?
    ensures var cur, h' := c.pc.cur, StepHeap(h, c);
            h'.freechain == Some(cur) && NextOf(h', cur) == h.freechain && !Occupied(h', cur) && cur !in h'.linked
  {
    hide Index, Freed;
    FreedIsMarked(l, c.key, c.wrote);
    assert Occupied(h, c.pc.cur) == c.wrote[|c.wrote| - 1].after.occupied;
  }

  lemma FreedIsMarked(l: Layout, key: Key, log: seq<Change>)
    requires |l.head| > 0 && Freed(l, key, log)
    ensures |log| >= 3 && !log[|log| - 1].after.occupied
  {
    hide Index;
    var n := |log|;
    var b := log[..n - 1];
    var m := b[..|b| - 1];
    assert m[|m| - 1] == log[n - 3];
  }

  /** Two locate calls never keep each other waiting. */
  lemma LocatorsShare(l: Layout, s: State, t: Tid)
    requires |l.head| > 0 && t in s.calls && s.calls[t].op == Locate && Awaits(l, s.calls[t]).Some?
    requires forall u :: u in s.calls && s.calls[u].op == Delete ==> Awaits(l, s.calls[t]).value !in s.calls[u].held
    ensures Enabled(l, s, t, false)
  {
    hide Index;
  }

  /** A delete waits for every other holder. */
  lemma DeleteWaits(l: Layout, s: State, t: Tid)
    requires |l.head| > 0 && t in s.calls && s.calls[t].op == Delete && Awaits(l, s.calls[t]).Some?
    ensures Enabled(l, s, t, false) <==> forall u :: u in s.calls && u != t ==> Awaits(l, s.calls[t]).value !in s.calls[u].held
  {
    hide Index;
  }

  // ---------- When a key is reported missing ----------

  /** A walk that reports its key missing is right: at that moment no record of the bucket
      has the key. */
  lemma MissingByWalk(l: Layout, run: seq<State>, moves: seq<Move>, i: nat, t: Tid)
    requires IsRun(l, run, moves) && i < |moves| && moves[i].call == t && |l.head| > 0
    requires t in run[i].calls && run[i].calls[t].pc.Compare?
    requires t in run[i + 1].calls && run[i + 1].calls[t].pc.Release? && run[i + 1].calls[t].pc.result == Missing
    ensures var c, h := run[i].calls[t], run[i + 1].heap;
            forall e :: OnChain(l, h, Index(c.key, |l.head|), e) ==> !HasKey(h, e, c.key)
  {
    RunInv(l, run, moves, i);
    var c, h, s := run[i].calls[t], run[i].heap, run[i];
    assert Enabled(l, s, t, moves[i].fail) && run[i + 1] == Step(l, s, t, moves[i].fail);
    assert CallOk(l, h, c) && PassedOk(l, h, c);
    hide IsRun, OnChain, Index;
    forall e | OnChain(l, h, Index(c.key, |l.head|), e)
      ensures !HasKey(h, e, c.key)
    {
      OnChainIsLinked(l, h, Index(c.key, |l.head|), e);
      Ordered(l, h, c.pc.cur, e);
    }
  }

  /** A head slot that is not occupied has no chain. */
  ghost predicate HeadsTidy(l: Layout, h: Heap) {
    forall b :: 0 <= b < |l.head| && !Occupied(h, l.head[b]) ==> NextOf(h, l.head[b]) == None
  }

  lemma StepKeepsHeadsTidy(l: Layout, s: State, t: Tid)
    requires Inv(l, s) && t in s.calls && Tidy(l, s) && HeadsTidy(l, s.heap)
    ensures HeadsTidy(l, StepHeap(s.heap, s.calls[t]))
  {
    hide Index, LocksOk;
    var c, h, h' := s.calls[t], s.heap, StepHeap(s.heap, s.calls[t]);
    assert CallOk(l, h, c);
    if c.pc.CopyUp? || c.pc.Mark? || c.pc.Bypass? {
      assert Follows(l, h, c.pc.before, c.pc.cur);
    }
    if c.pc.CopyUp? {
      NotYetMarked(l, s, t);
    }
    hide Tidy;
    OnlyWrittenChange(h, c);
    forall b | 0 <= b < |l.head| && !Occupied(h', l.head[b])
      ensures NextOf(h', l.head[b]) == None
    {
      assert l.head[b] in h.linked && (!Occupied(h, l.head[b]) ==> NextOf(h, l.head[b]) == None);
      assert ContentsOf(h', l.head[b]).next == NextOf(h', l.head[b]);
      if Writes(h, c) == [] || Writes(h, c)[0].record != l.head[b] {
        assert ContentsOf(h', l.head[b]) == ContentsOf(h, l.head[b]);
      }
    }
  }

  /** From a table in which no chain record is marked and no unoccupied head slot has a
      chain, both stay so but for deletes under way, until a call is refused the free
      chain's lock. */
  lemma {:induction false} RunStaysTidy(l: Layout, run: seq<State>, moves: seq<Move>, i: nat)
    requires IsRun(l, run, moves) && i < |run| && HeapOk(l, run[0].heap)
    requires Tidy(l, run[0]) && HeadsTidy(l, run[0].heap)
    requires forall k :: 0 <= k < i ==> !LosesFreeChain(run[k], moves[k])
    ensures HeapOk(l, run[i].heap) && Tidy(l, run[i]) && HeadsTidy(l, run[i].heap)
  {
    hide Init, Enabled, StepHeap, StepCall, Tidy, HeadsTidy, HeapOk, CallOk, PassedOk, LocksOk, Index;
    if i > 0 {
      RunStaysTidy(l, run, moves, i - 1);
      RunInv(l, run, moves, i - 1);
      var m, s := moves[i - 1], run[i - 1];
      assert Enabled(l, s, m.call, m.fail) && run[i - 1 + 1] == Step(l, s, m.call, m.fail);
      assert m == Move(m.call, m.fail);
      EnabledFacts(l, s, m.call, m.fail);
      StepKeepsTidy(l, s, m.call, m.fail);
      StepKeepsHeadsTidy(l, s, m.call);
    }
  }

  /** In such runs every call that reports its key missing is right: at that moment no
      occupied record of the bucket has the key. */
  lemma MissingInTidyTable(l: Layout, run: seq<State>, moves: seq<Move>, i: nat, t: Tid)
    requires IsRun(l, run, moves) && i < |moves| && moves[i].call == t && |l.head| > 0
    requires t in run[i].calls && !run[i].calls[t].pc.Release?
    requires t in run[i + 1].calls && run[i + 1].calls[t].pc.Release? && run[i + 1].calls[t].pc.result == Missing
    requires HeapOk(l, run[0].heap) && Tidy(l, run[0]) && HeadsTidy(l, run[0].heap)
    requires forall k :: 0 <= k < i ==> !LosesFreeChain(run[k], moves[k])
    ensures var c, h := run[i].calls[t], run[i + 1].heap;
            forall e :: OnChain(l, h, Index(c.key, |l.head|), e) && Occupied(h, e) ==> !HasKey(h, e, c.key)
  {
    RunStaysTidy(l, run, moves, i);
    var c, h, s := run[i].calls[t], run[i].heap, run[i];
    assert Enabled(l, s, t, moves[i].fail) && run[i + 1] == Step(l, s, t, moves[i].fail);
    MissingComesFrom(l, h, c, moves[i].fail);
    if c.pc.Compare? {
      MissingByWalk(l, run, moves, i, t);
    } else {
      hide IsRun, OnChain, Index;
      forall e | OnChain(l, h, Index(c.key, |l.head|), e)
        ensures !Occupied(h, e)
      {
        OnChainIsLinked(l, h, Index(c.key, |l.head|), e);
        HeadIsLowest(l, h, e);
        Ordered(l, h, HeadOf(l, c.key), e);
      }
    }
  }

  lemma MissingComesFrom(l: Layout, h: Heap, c: Call, fail: bool)
    requires |l.head| > 0 && !c.pc.Release?
    requires StepCall(l, h, c, fail).pc.Release? && StepCall(l, h, c, fail).pc.result == Missing
    ensures c.pc.Compare? || (c.pc.AtHead? && !Occupied(h, HeadOf(l, c.key)))
    ensures StepHeap(h, c) == h
  {
    hide Index, Writes;
  }

  // ---------- Runs end ----------

  /** What a call still has to do, at most: every move of its own makes it less. */
  function Remaining(l: Layout, c: Call): int {
    match c.pc
    case Begin => 18 + 3 * l.bound
    case LockHead => 17 + 3 * l.bound
    case AtHead => 16 + 3 * l.bound
    case Compare(_, cur) => 15 + 3 * RanksLeft(l, cur)
    case LockNext(_, _, cur) => 17 + 3 * RanksLeft(l, cur)
    case DropBehind(_, _, cur) => 16 + 3 * RanksLeft(l, cur)
    case Found(_, _) => 14
    case DropTable(_, _) => 13
    case ReadData(_) => 12
    case Decide(_, _) => 12
    case LockSuccessor(_, _) => 11
    case CopyUp(_, _) => 10
    case Mark(_, _) => 9
    case LockFree(_, _) => 8
    case Bypass(_, _) => 7
    case LinkFree(_, _) => 6
    case PointFree(_, _) => 5
    case DropFree(_, _) => 4
    case Release(rest, _) => 1 + |rest|
    case Done(_) => 0
  }

  function RanksLeft(l: Layout, e: Id): nat {
    if e in l.rank && l.rank[e] < l.bound then l.bound - l.rank[e] else 0
  }

  lemma StepLeavesLess(l: Layout, h: Heap, c: Call, fail: bool)
    requires |l.head| > 0 && HeapOk(l, h) && CallOk(l, h, c) && !c.pc.Done?
    ensures 0 <= Remaining(l, StepCall(l, h, c, fail)) < Remaining(l, c)
  {
    hide CallOk, HeapOk, Remaining, StepCall;
    if c.pc.AtHead? || c.pc.Compare? {
      WalkLeavesLess(l, h, c, fail);
    } else if c.pc.Mark? || c.pc.LockFree? || c.pc.Bypass? || c.pc.LinkFree? || c.pc.PointFree? || c.pc.DropFree? || c.pc.Release? {
      EndLeavesLess(l, h, c, fail);
    } else {
      MatchLeavesLess(l, h, c, fail);
    }
  }

  lemma MatchLeavesLess(l: Layout, h: Heap, c: Call, fail: bool)
    requires |l.head| > 0
    requires c.pc.Begin? || c.pc.LockHead? || c.pc.LockNext? || c.pc.DropBehind? || c.pc.Found? || c.pc.DropTable?
             || c.pc.ReadData? || c.pc.Decide? || c.pc.LockSuccessor? || c.pc.CopyUp?
    ensures 0 <= Remaining(l, StepCall(l, h, c, fail)) < Remaining(l, c)
  {
    hide Index, Writes, RanksLeft, NextOf;
  }

  lemma EndLeavesLess(l: Layout, h: Heap, c: Call, fail: bool)
    requires |l.head| > 0
    requires c.pc.Mark? || c.pc.LockFree? || c.pc.Bypass? || c.pc.LinkFree? || c.pc.PointFree? || c.pc.DropFree? || c.pc.Release?
    ensures 0 <= Remaining(l, StepCall(l, h, c, fail)) < Remaining(l, c)
  {
    hide Index, Writes, RanksLeft, NextOf;
  }

  lemma WalkLeavesLess(l: Layout, h: Heap, c: Call, fail: bool)
    requires HeapOk(l, h) && CallOk(l, h, c) && (c.pc.AtHead? || c.pc.Compare?)
    ensures 0 <= Remaining(l, StepCall(l, h, c, fail)) < Remaining(l, c)
  {
    hide Index, Writes, HasKey;
    if c.pc.Compare? && NextOf(h, c.pc.cur).Some? {
      assert Follows(l, h, c.pc.cur, h.next[c.pc.cur].value);
    }
  }

  /** The moves of one call among the first `i`. */
  function OwnMoves(moves: seq<Move>, i: nat, t: Tid): nat
    requires i <= |moves|
  {
    if i == 0 then 0 else OwnMoves(moves, i - 1, t) + if moves[i - 1].call == t then 1 else 0
  }

  /** A call takes at most so many steps in any run: a constant, and three for each rank. */
  lemma {:induction false} MovesOfOne(l: Layout, run: seq<State>, moves: seq<Move>, i: nat, t: Tid)
    requires IsRun(l, run, moves) && i < |run| && t in run[0].calls
    ensures t in run[i].calls && 0 <= Remaining(l, run[i].calls[t])
    ensures OwnMoves(moves, i, t) + Remaining(l, run[i].calls[t]) <= 18 + 3 * l.bound
  {
    hide Init, Enabled, StepHeap, StepCall, HeapOk, CallOk, PassedOk, LocksOk, Index, Remaining;
    if i == 0 {
      StartsFull(l, run[0], t);
    } else {
      MovesOfOne(l, run, moves, i - 1, t);
      RunInv(l, run, moves, i - 1);
      var m, s := moves[i - 1], run[i - 1];
      assert Enabled(l, s, m.call, m.fail) && run[i - 1 + 1] == Step(l, s, m.call, m.fail);
      EnabledFacts(l, s, m.call, m.fail);
      if m.call == t {
        NotDone(l, s, t, m.fail);
        StepLeavesLess(l, s.heap, s.calls[t], m.fail);
      }
    }
  }

  lemma StartsFull(l: Layout, s: State, t: Tid)
    requires Init(l, s) && t in s.calls
    ensures Remaining(l, s.calls[t]) == 18 + 3 * l.bound
  {
    hide HeapOk;
  }

  lemma NotDone(l: Layout, s: State, t: Tid, fail: bool)
    requires Enabled(l, s, t, fail)
    ensures !s.calls[t].pc.Done?
  {
  }

  /** The moves among the first `i` made by any of some calls. */
  function MovesOf(moves: seq<Move>, i: nat, ts: set<Tid>): nat
    requires i <= |moves|
  {
    if i == 0 then 0 else MovesOf(moves, i - 1, ts) + if moves[i - 1].call in ts then 1 else 0
  }

  lemma {:induction false} MovesSplit(moves: seq<Move>, i: nat, ts: set<Tid>, t: Tid)
    requires i <= |moves| && t in ts
    ensures MovesOf(moves, i, ts) == MovesOf(moves, i, ts - {t}) + OwnMoves(moves, i, t)
  {
    if i > 0 {
      MovesSplit(moves, i - 1, ts, t);
    }
  }

  lemma {:induction false} MovesBound(moves: seq<Move>, ts: set<Tid>, each: nat)
    requires forall t :: t in ts ==> OwnMoves(moves, |moves|, t) <= each
    ensures MovesOf(moves, |moves|, ts) <= |ts| * each
    decreases |ts|
  {
    if ts == {} {
      NobodyMoves(moves, |moves|);
    } else {
      var t :| t in ts;
      MovesSplit(moves, |moves|, ts, t);
      MovesBound(moves, ts - {t}, each);
      assert |ts - {t}| == |ts| - 1;
      assert (|ts| - 1) * each + each == |ts| * each;
    }
  }

  lemma {:induction false} NobodyMoves(moves: seq<Move>, i: nat)
    requires i <= |moves|
    ensures MovesOf(moves, i, {}) == 0
  {
    if i > 0 {
      NobodyMoves(moves, i - 1);
    }
  }

  lemma {:induction false} AllMoves(l: Layout, run: seq<State>, moves: seq<Move>, i: nat)
    requires IsRun(l, run, moves) && i <= |moves|
    ensures run[i].calls.Keys == run[0].calls.Keys && MovesOf(moves, i, run[0].calls.Keys) == i
  {
    hide Init, Enabled, StepHeap, StepCall;
    if i > 0 {
      AllMoves(l, run, moves, i - 1);
      var m, s := moves[i - 1], run[i - 1];
      assert Enabled(l, s, m.call, m.fail) && run[i - 1 + 1] == Step(l, s, m.call, m.fail);
      EnabledFacts(l, s, m.call, m.fail);
    }
  }

  /** Every run ends: with n calls it has at most n times (18 + 3 per rank) moves. */
  lemma RunsEnd(l: Layout, run: seq<State>, moves: seq<Move>)
    requires IsRun(l, run, moves)
    ensures |moves| <= |run[0].calls| * (18 + 3 * l.bound)
  {
    AllMoves(l, run, moves, |moves|);
    var ts := run[0].calls.Keys;
    forall t | t in ts
      ensures OwnMoves(moves, |moves|, t) <= 18 + 3 * l.bound
    {
      MovesOfOne(l, run, moves, |moves|, t);
    }
    MovesBound(moves, ts, 18 + 3 * l.bound);
  }

  /** A run that can go no further, and in which no finished call kept a lock, has finished
      every call. */
  lemma AllFinish(l: Layout, run: seq<State>, moves: seq<Move>, t: Tid)
    requires IsRun(l, run, moves) && NoLeak(run[|moves|]) && t in run[|moves|].calls
    requires forall u, fail :: !Enabled(l, run[|moves|], u, fail)
    ensures run[|moves|].calls[t].pc.Done?
  {
    RunInv(l, run, moves, |moves|);
    hide Inv, Enabled, IsRun;
    if !run[|moves|].calls[t].pc.Done? {
      var u := NoDeadlock(l, run[|moves|], t);
    }
  }

  // ---------- Two runs of one call ----------

  /** A table of one bucket: the head slot, and perhaps one record behind it. */
  const ONE_SLOT: Layout := Layout([0], map[0 := 0, 1 := 0], map[0 := 0, 1 := 1], 2)

  function OneRecord(key: Key, data: Data): Heap {
    Heap(map[0 := None], map[0 := key], map[0 := data], map[0 := true], None, {0}, map[])
  }

  function TwoRecords(key: Key, data: Data, key1: Key, data1: Data): Heap {
    Heap(map[0 := Some(1), 1 := None], map[0 := key, 1 := key1], map[0 := data, 1 := data1], map[0 := true, 1 := true],
         None, {0, 1}, map[1 := 0])
  }

  /** A run of one call that has come this far. */
  ghost predicate RunsTo(run: seq<State>, moves: seq<Move>, h: Heap, c: Call) {
    IsRun(ONE_SLOT, run, moves) && run[|run| - 1] == State(h, map[0 := c])
  }

  lemma LongerRun(l: Layout, run: seq<State>, moves: seq<Move>, s': State, m: Move)
    requires IsRun(l, run, moves) && Enabled(l, run[|run| - 1], m.call, m.fail) && s' == Step(l, run[|run| - 1], m.call, m.fail)
    ensures IsRun(l, run + [s'], moves + [m])
  {
    hide Init, Enabled, Step;
    var run', moves' := run + [s'], moves + [m];
    forall i | 0 <= i < |moves'|
      ensures Enabled(l, run'[i], moves'[i].call, moves'[i].fail) && run'[i + 1] == Step(l, run'[i], moves'[i].call, moves'[i].fail)
    {
      if i < |moves| {
        assert moves'[i] == moves[i] && run'[i] == run[i] && run'[i + 1] == run[i + 1];
      }
    }
  }

  lemma SoloEnabled(h: Heap, c: Call, fail: bool)
    requires !c.pc.Done? && (fail ==> c.pc.LockFree?)
    ensures Enabled(ONE_SLOT, State(h, map[0 := c]), 0, fail)
  {
    hide Index, HeadOf;
  }

  /** With a single call every lock is free, and its next step extends the run. */
  lemma Solo(run: seq<State>, moves: seq<Move>, h: Heap, c: Call, h': Heap, c': Call, fail: bool)
    returns (run': seq<State>, moves': seq<Move>)
    requires RunsTo(run, moves, h, c) && !c.pc.Done? && (fail ==> c.pc.LockFree?)
    requires h' == StepHeap(h, c) && c' == StepCall(ONE_SLOT, h, c, fail)
    ensures RunsTo(run', moves', h', c') && moves' == moves + [Move(0, fail)] && |run'| > 1 && run'[..1] == run[..1]
  {
    assert |run| > 0;
    hide StepHeap, StepCall, IsRun, ONE_SLOT;
    var s, s' := State(h, map[0 := c]), State(h', map[0 := c']);
    SoloEnabled(h, c, fail);
    assert map[0 := c][0 := c'] == map[0 := c'];
    assert s' == Step(ONE_SLOT, s, 0, fail);
    hide Enabled, Step;
    LongerRun(ONE_SLOT, run, moves, s', Move(0, fail));
    run', moves' := run + [s'], moves + [Move(0, fail)];
  }

  /** A delete of the key in the head slot, up to the decision, every lock call succeeding. */
  lemma MatchHead(h: Heap, key: Key) returns (run: seq<State>, moves: seq<Move>, c: Call)
    requires HeapOk(ONE_SLOT, h) && 0 in h.occupied && h.occupied[0] && 0 in h.key && h.key[0] == key
    ensures c == Call(Delete, key, Decide(None, 0), {0}, false, false, [])
    ensures RunsTo(run, moves, h, c) && run[0].heap == h
    ensures forall i :: 0 <= i < |moves| ==> !moves[i].fail
  {
    c := Walking(key, Compare(None, 0), {0}, true);
    run, moves := ReachHead(h, key);
    MatchCalls(h, key);
    hide *;
    run, moves := Solo(run, moves, h, c, h, Walking(key, Found(None, 0), {0}, true), false);
    c := Walking(key, DropTable(None, 0), {0}, true);
    run, moves := Solo(run, moves, h, Walking(key, Found(None, 0), {0}, true), h, c, false);
    run, moves := Solo(run, moves, h, c, h, Walking(key, Decide(None, 0), {0}, false), false);
    c := Walking(key, Decide(None, 0), {0}, false);
    assert run[0] == run[..1][0];
  }

  lemma ReachHead(h: Heap, key: Key) returns (run: seq<State>, moves: seq<Move>)
    requires HeapOk(ONE_SLOT, h) && 0 in h.occupied && h.occupied[0]
    ensures RunsTo(run, moves, h, Walking(key, Compare(None, 0), {0}, true)) && |run| > 1 && run[..1][0].heap == h
    ensures forall i :: 0 <= i < |moves| ==> !moves[i].fail
  {
    var c := Walking(key, Begin, {}, false);
    run, moves := [State(h, map[0 := c])], [];
    StartRun(h, c);
    StartCalls(h, key);
    hide *;
    run, moves := Solo(run, moves, h, c, h, Walking(key, LockHead, {}, true), false);
    run, moves := Solo(run, moves, h, Walking(key, LockHead, {}, true), h, Walking(key, AtHead, {0}, true), false);
    run, moves := Solo(run, moves, h, Walking(key, AtHead, {0}, true), h, Walking(key, Compare(None, 0), {0}, true), false);
  }

  lemma StartRun(h: Heap, c: Call)
    requires HeapOk(ONE_SLOT, h) && c == Call(c.op, c.key, Begin, {}, false, false, [])
    ensures RunsTo([State(h, map[0 := c])], [], h, c)
  {
    hide HeapOk;
  }

  /** A delete call on its walk. */
  function Walking(key: Key, pc: Pc, held: set<Id>, table: bool): (c: Call)
    ensures c == Call(Delete, key, pc, held, table, false, [])
  {
    Call(Delete, key, pc, held, table, false, [])
  }

  lemma StartCalls(h: Heap, key: Key)
    requires 0 in h.occupied && h.occupied[0]
    ensures Walking(key, LockHead, {}, true) == StepCall(ONE_SLOT, h, Walking(key, Begin, {}, false), false)
    ensures Walking(key, AtHead, {0}, true) == StepCall(ONE_SLOT, h, Walking(key, LockHead, {}, true), false)
    ensures Walking(key, Compare(None, 0), {0}, true) == StepCall(ONE_SLOT, h, Walking(key, AtHead, {0}, true), false)
    ensures StepHeap(h, Walking(key, Begin, {}, false)) == StepHeap(h, Walking(key, LockHead, {}, true)) == h
    ensures StepHeap(h, Walking(key, AtHead, {0}, true)) == h
  {
    hide Index;
    assert HeadOf(ONE_SLOT, key) == 0;
    var none: set<Id> := {};
    assert none + {0} == {0};
  }

  lemma MatchCalls(h: Heap, key: Key)
    requires 0 in h.key && h.key[0] == key
    ensures Walking(key, Found(None, 0), {0}, true) == StepCall(ONE_SLOT, h, Walking(key, Compare(None, 0), {0}, true), false)
    ensures Walking(key, DropTable(None, 0), {0}, true) == StepCall(ONE_SLOT, h, Walking(key, Found(None, 0), {0}, true), false)
    ensures Walking(key, Decide(None, 0), {0}, false) == StepCall(ONE_SLOT, h, Walking(key, DropTable(None, 0), {0}, true), false)
    ensures StepHeap(h, Walking(key, Compare(None, 0), {0}, true)) == StepHeap(h, Walking(key, Found(None, 0), {0}, true)) == h
    ensures StepHeap(h, Walking(key, DropTable(None, 0), {0}, true)) == h
  {
  }

  /** Deleting the only record, with every lock call succeeding, ends holding its lock. */
  lemma LeakHappens(key: Key, data: Data) returns (run: seq<State>, moves: seq<Move>)
    ensures IsRun(ONE_SLOT, run, moves)
    ensures forall i :: 0 <= i < |moves| ==> !moves[i].fail
    ensures 0 in run[|run| - 1].calls && run[|run| - 1].calls[0].pc == Done(DeletedHead)
    ensures run[|run| - 1].calls[0].held == {0}
  {
    var c;
    var h := OneRecord(key, data);
    run, moves, c := MatchHead(h, key);
    hide IsRun;
    run, moves := Solo(run, moves, h, c, StepHeap(h, c), StepCall(ONE_SLOT, h, c, false), false);
  }

  /** The head slot's record 0 with the contents of record 1, and record 1 marked. */
  lemma MarkedHeap(key: Key, data: Data, key1: Key, data1: Data, h1: Heap, h2: Heap, c: Call)
    requires c.pc == CopyUp(0, 1) && h1 == StepHeap(TwoRecords(key, data, key1, data1), c)
    requires h2 == StepHeap(h1, c.(pc := Mark(0, 1)))
    ensures ContentsOf(h2, 0) == Contents(Some(1), Some(key1), Some(data1), true)
    ensures ContentsOf(h2, 1) == Contents(None, Some(key1), Some(data1), false)
    ensures h2.linked == {0, 1}
  {
  }

  /** Deleting the key in a head slot with one record behind it, the free chain's lock
      refused: the call fails, yet the head slot now holds the other record's item, which
      is also still on the chain, marked. */
  lemma LossHappens(key: Key, data: Data, key1: Key, data1: Data) returns (run: seq<State>, moves: seq<Move>)
    ensures IsRun(ONE_SLOT, run, moves) && run[0].heap == TwoRecords(key, data, key1, data1)
    ensures var s := run[|run| - 1];
            && 0 in s.calls && s.calls[0].pc == Done(Failed(FreeLock)) && s.calls[0].held == {}
            && ContentsOf(s.heap, 0) == Contents(Some(1), Some(key1), Some(data1), true)
            && ContentsOf(s.heap, 1) == Contents(None, Some(key1), Some(data1), false)
            && s.heap.linked == {0, 1}
  {
    var h := TwoRecords(key, data, key1, data1);
    var c;
    run, moves, c := MatchHead(h, key);
    var first, c2 := run[..1], Walking(key, CopyUp(0, 1), {0, 1}, false);
    var h1 := StepHeap(h, c2);
    var h2 := StepHeap(h1, c2.(pc := Mark(0, 1)));
    MarkedHeap(key, data, key1, data1, h1, h2, c2);
    assert NextOf(h, 0) == Some(1);
    hide *;
    run, moves, c := LossMarks(run, moves, h, key, h1, h2);
    run, moves, c := LossFails(run, moves, h2, c);
    assert run[0] == run[..1][0] == first[0];
    LastState(run, moves, h2, c);
  }

  /** The four steps from locking the successor to asking for the free chain. */
  lemma LossMarks(run0: seq<State>, moves0: seq<Move>, h: Heap, key: Key, h1: Heap, h2: Heap)
    returns (run: seq<State>, moves: seq<Move>, end: Call)
    requires RunsTo(run0, moves0, h, Walking(key, Decide(None, 0), {0}, false)) && |run0| > 0
    requires NextOf(h, 0) == Some(1)
    requires var c2 := Walking(key, CopyUp(0, 1), {0, 1}, false);
             h1 == StepHeap(h, c2) && h2 == StepHeap(h1, c2.(pc := Mark(0, 1)))
    ensures RunsTo(run, moves, h2, end) && |run| > 1 && run[..1] == run0[..1]
    ensures end.pc == LockFree(0, 1) && end.held == {0, 1} && !end.table
  {
    var c := Walking(key, Decide(None, 0), {0}, false);
    var c1, c2 := Walking(key, LockSuccessor(0, 1), {0}, false), Walking(key, CopyUp(0, 1), {0, 1}, false);
    var c3 := c2.(pc := Mark(0, 1), wrote := Writes(h, c2));
    end := c3.(pc := LockFree(0, 1), wrote := Writes(h, c2) + Writes(h1, c3));
    assert h2 == StepHeap(h1, c3);
    PromoteCalls(h, key);
    MarkCalls(h, h1, c2, c3);
    hide *;
    run, moves := Solo(run0, moves0, h, c, h, c1, false);
    run, moves := Solo(run, moves, h, c1, h, c2, false);
    run, moves := Solo(run, moves, h, c2, h1, c3, false);
    run, moves := Solo(run, moves, h1, c3, h2, end, false);
  }

  lemma PromoteCalls(h: Heap, key: Key)
    requires NextOf(h, 0) == Some(1)
    ensures Walking(key, LockSuccessor(0, 1), {0}, false) == StepCall(ONE_SLOT, h, Walking(key, Decide(None, 0), {0}, false), false)
    ensures Walking(key, CopyUp(0, 1), {0, 1}, false) == StepCall(ONE_SLOT, h, Walking(key, LockSuccessor(0, 1), {0}, false), false)
    ensures StepHeap(h, Walking(key, Decide(None, 0), {0}, false)) == StepHeap(h, Walking(key, LockSuccessor(0, 1), {0}, false)) == h
  {
    assert {0} + {1} == {0, 1};
  }

  lemma MarkCalls(h: Heap, h1: Heap, c2: Call, c3: Call)
    requires c2.pc == CopyUp(0, 1) && c2.wrote == [] && c3 == c2.(pc := Mark(0, 1), wrote := Writes(h, c2))
    ensures c3 == StepCall(ONE_SLOT, h, c2, false)
    ensures c3.(pc := LockFree(0, 1), wrote := Writes(h, c2) + Writes(h1, c3)) == StepCall(ONE_SLOT, h1, c3, false)
  {
    hide ChangeOf;
  }

  lemma LastState(run: seq<State>, moves: seq<Move>, h: Heap, c: Call)
    requires RunsTo(run, moves, h, c)
    ensures IsRun(ONE_SLOT, run, moves) && |run| > 0 && run[|run| - 1] == State(h, map[0 := c])
  {
  }

  lemma LossFails(run0: seq<State>, moves0: seq<Move>, h: Heap, c: Call) returns (run: seq<State>, moves: seq<Move>, end: Call)
    requires RunsTo(run0, moves0, h, c) && |run0| > 0 && c.pc == LockFree(0, 1) && c.held == {0, 1} && !c.table
    ensures RunsTo(run, moves, h, end) && |run| > 1 && run[..1] == run0[..1]
    ensures end == c.(pc := Done(Failed(FreeLock)), held := {})
  {
    hide RunsTo, Index;
    var c1 := c.(pc := Release([0, 1], Failed(FreeLock)));
    var c2 := c.(pc := Release([1], Failed(FreeLock)), held := {1});
    var c3 := c.(pc := Release([], Failed(FreeLock)), held := {});
    assert [0, 1][1..] == [1] && [1][1..] == [] && {0, 1} - {0} == {1} && {1} - {1} == {};
    assert c.wrote + [] == c.wrote;
    end := c.(pc := Done(Failed(FreeLock)), held := {});
    run, moves := Solo(run0, moves0, h, c, h, c1, true);
    run, moves := Solo(run, moves, h, c1, h, c2, false);
    run, moves := Solo(run, moves, h, c2, h, c3, false);
    run, moves := Solo(run, moves, h, c3, h, end, false);
  }
}
