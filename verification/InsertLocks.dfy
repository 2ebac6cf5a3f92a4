/** The locks one insertion takes, when any acquisition and the slab allocation may fail. */
module InsertLocks {
  import opened KeyHash
  import opened Buckets

  datatype Lock = TableLock | HeadLock | FreeLock

  datatype Event = Acquired(lock: Lock) | Released(lock: Lock)

  /** The locks held after a history of events. */
  function HeldAfter(history: seq<Event>): set<Lock> {
    if history == [] then {}
    else
      var last := history[|history| - 1];
      var before := HeldAfter(history[..|history| - 1]);
      if last.Acquired? then before + {last.lock} else before - {last.lock}
  }

  function Rank(lock: Lock): nat {
    match lock
    case TableLock => 0
    case HeadLock => 1
    case FreeLock => 2
  }

  /** Locks are taken in the order table, head slot, free chain, and only held ones are given back. */
  ghost predicate Disciplined(history: seq<Event>) {
    forall i :: 0 <= i < |history| ==>
      match history[i]
      case Acquired(lock) => forall other :: other in HeldAfter(history[..i]) ==> Rank(other) < Rank(lock)
      case Released(lock) => lock in HeldAfter(history[..i])
  }

  lemma Extend(history: seq<Event>, e: Event)
    ensures HeldAfter(history + [e]) ==
            if e.Acquired? then HeldAfter(history) + {e.lock} else HeldAfter(history) - {e.lock}
    ensures Disciplined(history) &&
            (if e.Acquired? then forall other :: other in HeldAfter(history) ==> Rank(other) < Rank(e.lock) else e.lock in HeldAfter(history))
            ==> Disciplined(history + [e])
  {
    var longer := history + [e];
    assert longer[..|history|] == history;
    assert forall i :: 0 <= i < |history| ==> longer[i] == history[i] && longer[..i] == history[..i];
  }

  /** An insertion into an empty bucket lengthens no chain. */
  lemma HeadOnly(t: Table, dups: bool, x: Item)
    requires |t| > 0 && t[Index(x.key, |t|)] == []
    ensures Chained(Insert(t, dups, x)) == Chained(t)
  {
    var h := Index(x.key, |t|);
    ReplaceBucket(t, h, Push(t[h], x));
  }

  /** What may go wrong in one call: acquiring each of the three locks, and the slab. */
  datatype Luck = Luck(table: bool, head: bool, free: bool, slab: bool)

  class Insertion {
    const dupsAllowed: bool
    var table: Table
    var freeRecords: nat
    var history: seq<Event>

    constructor (table: Table, freeRecords: nat, dupsAllowed: bool)
      ensures this.table == table && this.freeRecords == freeRecords && this.dupsAllowed == dupsAllowed
      ensures history == []
    {
      this.table, this.freeRecords, this.dupsAllowed, history := table, freeRecords, dupsAllowed, [];
    }

    method Acquire(lock: Lock, lucky: bool) returns (ret: int)
      requires Disciplined(history)
      requires forall other :: other in HeldAfter(history) ==> Rank(other) < Rank(lock)
      modifies this`history
      ensures (ret == 0) == lucky
      ensures HeldAfter(history) == old(HeldAfter(history)) + (if lucky then {lock} else {})
      ensures Disciplined(history)
    {
      if lucky {
        Extend(history, Acquired(lock));
        history := history + [Acquired(lock)];
      }
      ret := if lucky then 0 else 1;
    }

    method Release(lock: Lock)
      requires Disciplined(history) && lock in HeldAfter(history)
      modifies this`history
      ensures HeldAfter(history) == old(HeldAfter(history)) - {lock}
      ensures Disciplined(history)
    {
      Extend(history, Released(lock));
      history := history + [Released(lock)];
    }

    /** `ht_insert_key` up to the implicit resize: for every pattern of failures no lock
        is left held, and a call that reports failure changes nothing. */
    method InsertKey(key: Key, data: Data, luck: Luck) returns (ret: int)
      requires |table| > 0 && Disciplined(history) && HeldAfter(history) == {}
      modifies this`table, this`freeRecords, this`history
      ensures HeldAfter(history) == {} && Disciplined(history)
      ensures ret == 0 ==> table == Insert(old(table), dupsAllowed, Item(key, data)) && !Refused(old(table), dupsAllowed, key)
      ensures ret != 0 ==> table == old(table) && freeRecords == old(freeRecords)
      ensures ret == 0 ==>
                freeRecords == if Chained(table) == Chained(old(table)) then old(freeRecords)
                               else (if old(freeRecords) == 0 then |table| else old(freeRecords)) - 1
      ensures ret in {0, -1, -2}
      ensures var b := old(table)[Index(key, |old(table)|)];
              && (ret == -2 <==> !luck.table || !luck.head || (b != [] && !Refused(old(table), dupsAllowed, key) && !luck.free))
              && (ret == -1 <==>
                    && luck.table && luck.head
                    && (|| Refused(old(table), dupsAllowed, key)
                        || (b != [] && luck.free && old(freeRecords) == 0 && !luck.slab)))
    {
      hide Disciplined, HeldAfter;
      RegrowsExactly(table, dupsAllowed, true, true, Item(key, data));
      hide Chained;
      ret := Acquire(TableLock, luck.table);
      if ret != 0 {
        return -2;
      }
      var h := HashBytes(key, |table|);
      ret := Acquire(HeadLock, luck.head);
      if ret != 0 {
        Release(TableLock);
        return -2;
      }
      Release(TableLock);
      if table[h] == [] {
        HeadOnly(table, dupsAllowed, Item(key, data));
        table := table[h := [Item(key, data)]];
        Release(HeadLock);
        return 0;
      }
      if !dupsAllowed && HasKey(table[h], key) {
        Release(HeadLock);
        return -1;
      }
      ret := Acquire(FreeLock, luck.free);
      if ret != 0 {
        Release(HeadLock);
        return -2;
      }
      if freeRecords == 0 {
        if !luck.slab {
          Release(FreeLock);
          Release(HeadLock);
          return -1;
        }
        freeRecords := |table|;
      }
      freeRecords := freeRecords - 1;
      Release(FreeLock);
      table := table[h := [table[h][0], Item(key, data)] + table[h][1..]];
      Release(HeadLock);
      return 0;
    }
  }
}
