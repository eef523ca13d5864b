/** lockKey on the heap: the map of shared keyLock objects that goroutines keep
    pointers to while the entry may come and go. Each method is one step of Gate,
    and refines it: the map and the objects afterwards are those of that step. */
module KeyLockTable {
  import opened Backoff
  import Gate
  import opened Options

  class KeyLock {
    ghost const id: Gate.LockId
    var refs: int
    var holder: Option<Gate.Tid>

    constructor (ghost id: Gate.LockId)
      ensures this.id == id && refs == 0 && holder == None
    {
      this.id := id;
      refs := 0;
      holder := None;
    }
  }

  lemma EnterShape(s: Gate.State, tid: Gate.Tid)
    requires Gate.CanStep(s, tid) && s.threads[tid].pc.Entering?
    ensures var s', key := Gate.Enter(s, tid), s.threads[tid].key;
      if key in s.table then
        var l := s.table[key];
        && s'.table == s.table && s'.nextLock == s.nextLock && s'.threads[tid].lock == l
        && s'.locks == s.locks[l := Gate.KeyLock(s.locks[l].refs + 1, s.locks[l].holder)]
      else
        && s'.table == s.table[key := s.nextLock] && s'.nextLock == s.nextLock + 1
        && s'.locks == s.locks[s.nextLock := Gate.KeyLock(1, None)] && s'.threads[tid].lock == s.nextLock
  {
  }

  class KeyLocks {
    var keyLocks: map<Key, KeyLock>
    /** Every object there has ever been, also those no longer in the map. */
    ghost var all: map<Gate.LockId, KeyLock>
    ghost var next: Gate.LockId

    ghost predicate Valid()
      reads this, all.Values
    {
      && (forall i :: i in all ==> i < next && all[i].id == i)
      && (forall k :: k in keyLocks ==> keyLocks[k].id in all && all[keyLocks[k].id] == keyLocks[k])
    }

    ghost function Table(): map<Key, Gate.LockId>
      reads this, all.Values
      requires Valid()
    {
      map k | k in keyLocks :: keyLocks[k].id
    }

    ghost function Locks(): map<Gate.LockId, Gate.KeyLock>
      reads this, all.Values
      requires Valid()
    {
      map i | i in all :: Gate.KeyLock(all[i].refs, all[i].holder)
    }

    /** The heap holds that table, those locks, and has made `made` of them. */
    ghost predicate Holds(table: map<Key, Gate.LockId>, locks: map<Gate.LockId, Gate.KeyLock>, made: Gate.LockId)
      reads this, all.Values
    {
      Valid() && Table() == table && Locks() == locks && next == made
    }

    /** The heap is in the state of s. */
    ghost predicate Represents(s: Gate.State)
      reads this, all.Values
    {
      Holds(s.table, s.locks, s.nextLock)
    }

    constructor ()
      ensures forall env, stored :: Represents(Gate.Init(env, stored))
      ensures all == map[]
    {
      keyLocks, all, next := map[], map[], 0;
    }

    /** The branch of lockKey that finds no entry. */
    method Insert(key: Key) returns (l: KeyLock)
      requires Valid() && key !in keyLocks
      modifies this
      ensures Holds(old(Table())[key := l.id], old(Locks())[l.id := Gate.KeyLock(0, None)], old(next) + 1)
      ensures fresh(l) && l.id == old(next) && all == old(all)[l.id := l]
    {
      l := new KeyLock(next);
      keyLocks := keyLocks[key := l];
      all := all[next := l];
      next := next + 1;
    }

    method AddRef(l: KeyLock, d: int, ghost table: map<Key, Gate.LockId>, ghost locks: map<Gate.LockId, Gate.KeyLock>)
      requires Holds(table, locks, next) && l.id in locks && l.id in all && all[l.id] == l
      modifies l`refs
      ensures Holds(table, locks[l.id := locks[l.id].(refs := locks[l.id].refs + d)], next)
      ensures l.refs == locks[l.id].refs + d
    {
      l.refs := l.refs + d;
      assert Table() == table;
      assert Locks() == locks[l.id := locks[l.id].(refs := locks[l.id].refs + d)];
    }

    lemma HeldEntry(table: map<Key, Gate.LockId>, locks: map<Gate.LockId, Gate.KeyLock>, made: Gate.LockId, key: Key)
      requires Holds(table, locks, made)
      ensures key in table <==> key in keyLocks
      ensures key in keyLocks ==> keyLocks[key].id == table[key] && table[key] in locks
                                  && keyLocks[key].id in all && all[keyLocks[key].id] == keyLocks[key]
      ensures Valid() && Table() == table && Locks() == locks && next == made && forall i :: i in all ==> i < made
    {
    }

    method Enter(key: Key, ghost s: Gate.State, ghost tid: Gate.Tid) returns (l: KeyLock)
      requires Represents(s) && Gate.CanStep(s, tid)
      requires s.threads[tid].pc.Entering? && s.threads[tid].key == key
      modifies this, all.Values
      ensures Represents(Gate.Enter(s, tid)) && l.id in all && all[l.id] == l
      ensures l.id == Gate.Enter(s, tid).threads[tid].lock
      ensures forall i :: i in old(all) ==> i in all && all[i] == old(all[i])
    {
      EnterShape(s, tid);
      HeldEntry(s.table, s.locks, s.nextLock, key);
      hide Gate.Enter, Gate.CanStep, Holds;
      if key !in keyLocks {
        l := Insert(key);
        ghost var locks := s.locks[l.id := Gate.KeyLock(0, None)];
        AddRef(l, 1, s.table[key := l.id], locks);
        assert locks[l.id := locks[l.id].(refs := 1)] == s.locks[l.id := Gate.KeyLock(1, None)];
      } else {
        l := keyLocks[key];
        assert l in all.Values;
        AddRef(l, 1, s.table, s.locks);
      }
    }

    method Acquire(l: KeyLock, ghost s: Gate.State, tid: Gate.Tid)
      requires Represents(s) && Gate.CanStep(s, tid)
      requires s.threads[tid].pc.Waiting? && s.threads[tid].lock in all && all[s.threads[tid].lock] == l
      modifies l`holder
      ensures Represents(Gate.Acquire(s, tid))
    {
      l.holder := Some(tid);
      assert Locks() == Gate.Acquire(s, tid).locks;
    }

    method Release(l: KeyLock, ghost s: Gate.State, ghost tid: Gate.Tid)
      requires Represents(s) && Gate.CanStep(s, tid)
      requires s.threads[tid].pc.Releasing? && s.threads[tid].lock in all && all[s.threads[tid].lock] == l
      modifies l`holder
      ensures Represents(Gate.Release(s, tid))
    {
      l.holder := None;
      assert Locks() == Gate.Release(s, tid).locks;
    }

    method Drop(key: Key, l: KeyLock, ghost s: Gate.State, ghost tid: Gate.Tid)
      requires Represents(s) && Gate.CanStep(s, tid)
      requires s.threads[tid].pc.Dropping? && s.threads[tid].key == key
      requires s.threads[tid].lock in all && all[s.threads[tid].lock] == l
      modifies this`keyLocks, l`refs
      ensures Represents(Gate.Drop(s, tid))
    {
      AddRef(l, -1, s.table, s.locks);
      if l.refs == 0 {
        keyLocks := keyLocks - {key};
      }
      assert Table() == Gate.Drop(s, tid).table;
      assert Locks() == Gate.Drop(s, tid).locks;
    }
  }
}
