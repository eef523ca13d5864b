/** The kick window of the VNC viewer list, a table pruned only while it is in use
    (backend/handlers_vnc.go). Times are nanoseconds of one monotone clock. */
module Kicks {
  import opened Options

  datatype Key = Key(target: string, ip: string, userAgent: string)

  const KICK_WINDOW := 15_000_000_000

  type Table = map<Key, int>

  function Pruned(t: Table, now: int): Table {
    map k | k in t && now <= t[k] :: t[k]
  }

  /** A call reads the clock twice: to prune at p, and for its own purpose at n. */
  datatype Call =
    | Kick(key: Key, p: int, n: int)
    | Ask(key: Key, p: int, n: int)

  function After(t: Table, c: Call): Table {
    match c
    case Kick(key, p, n) => Pruned(t, p)[key := n + KICK_WINDOW]
    case Ask(_, p, _) => Pruned(t, p)
  }

  /** vncClientKicked's answer, from the table it finds. */
  predicate Refuses(t: Table, key: Key, p: int, n: int) {
    var left := Pruned(t, p);
    key in left && n < left[key]
  }

  class KickTable {
    var until: Table

    constructor ()
      ensures until == map[]
    {
      until := map[];
    }

    /** pruneVncKicksLocked: deletes from the map while ranging over it. */
    method Prune(now: int)
      modifies this
      ensures until == Pruned(old(until), now)
    {
      var left := until.Keys;
      while left != {}
        invariant left <= old(until).Keys
        invariant forall k :: k in until <==> k in old(until) && (k in left || now <= old(until)[k])
        invariant forall k :: k in until ==> until[k] == old(until)[k]
      {
        var k :| k in left;
        if now > until[k] {
          until := until - {k};
        }
        left := left - {k};
      }
    }

    method KickClient(key: Key, p: int, n: int)
      modifies this
      ensures until == After(old(until), Kick(key, p, n))
    {
      Prune(p);
      until := until[key := n + KICK_WINDOW];
    }

    method ClientKicked(key: Key, p: int, n: int) returns (kicked: bool)
      modifies this
      ensures until == After(old(until), Ask(key, p, n))
      ensures kicked == Refuses(old(until), key, p, n)
    {
      Prune(p);
      return key in until && n < until[key];
    }
  }

  // ----------------------------------------------------------------- refinement

  function AfterAll(run: seq<Call>): Table {
    if run == [] then map[] else After(AfterAll(run[..|run| - 1]), run[|run| - 1])
  }

  /** The clock never goes back, within a call or from one to the next. */
  predicate Monotone(run: seq<Call>) {
    && (forall i :: 0 <= i < |run| ==> run[i].p <= run[i].n)
    && (forall i, j :: 0 <= i < j < |run| ==> run[i].n <= run[j].p)
  }

  /** From the whole history: when key was last kicked. */
  function LatestKick(run: seq<Call>, key: Key): Option<int> {
    if run == [] then None
    else if run[|run| - 1].Kick? && run[|run| - 1].key == key then Some(run[|run| - 1].n)
    else LatestKick(run[..|run| - 1], key)
  }

  /** LatestKick is the time of a kick of key, and no kick of key is younger. */
  lemma {:induction false} LatestIsYoungest(run: seq<Call>, key: Key)
    requires Monotone(run)
    ensures LatestKick(run, key).None? <==> forall i :: 0 <= i < |run| ==> !(run[i].Kick? && run[i].key == key)
    ensures LatestKick(run, key).Some? ==>
      (exists i :: 0 <= i < |run| && run[i] == Kick(key, run[i].p, LatestKick(run, key).value))
    ensures forall i :: 0 <= i < |run| && run[i].Kick? && run[i].key == key ==> run[i].n <= LatestKick(run, key).value
  {
    if run != [] {
      var n := |run| - 1;
      var rest := run[..n];
      assert forall i :: 0 <= i < n ==> rest[i] == run[i];
      LatestIsYoungest(rest, key);
      if run[n].Kick? && run[n].key == key {
        assert run[n] == Kick(key, run[n].p, LatestKick(run, key).value);
      } else if LatestKick(run, key).Some? {
        var i :| 0 <= i < n && rest[i] == Kick(key, rest[i].p, LatestKick(run, key).value);
        assert run[i] == rest[i];
      }
    }
  }

  /** Whatever was forgotten had run out by the last prune; the rest is the last kick. */
  lemma {:induction false} TableIsTheRecentHistory(run: seq<Call>, key: Key)
    requires Monotone(run) && run != []
    ensures var t, latest := AfterAll(run), LatestKick(run, key);
      key in t <==> latest.Some? && run[|run| - 1].p <= latest.value + KICK_WINDOW
    ensures key in AfterAll(run) ==> AfterAll(run)[key] == LatestKick(run, key).value + KICK_WINDOW
  {
    var n := |run| - 1;
    var rest, last := run[..n], run[n];
    if rest == [] {
      assert AfterAll(rest) == map[];
    } else {
      assert rest[|rest| - 1] == run[n - 1];
      TableIsTheRecentHistory(rest, key);
    }
  }

  /** A client is refused exactly while its latest kick on that target is less than
      fifteen seconds old, as if every kick had been kept for ever. */
  lemma RefusedExactlyInTheWindow(run: seq<Call>, key: Key, p: int, n: int)
    requires Monotone(run + [Ask(key, p, n)])
    ensures Refuses(AfterAll(run), key, p, n)
       <==> LatestKick(run, key).Some? && n - LatestKick(run, key).value < 15_000_000_000
  {
    var all := run + [Ask(key, p, n)];
    assert all[|run|] == Ask(key, p, n) && forall i :: 0 <= i < |run| ==> all[i] == run[i];
    if run != [] {
      TableIsTheRecentHistory(run, key);
    }
  }

  /** Nothing whose window had passed when the last call pruned is kept. */
  lemma OnlyOpenWindowsAreKept(run: seq<Call>, key: Key)
    requires Monotone(run) && run != [] && key in AfterAll(run)
    ensures LatestKick(run, key).Some? && run[|run| - 1].p - LatestKick(run, key).value <= KICK_WINDOW
  {
    TableIsTheRecentHistory(run, key);
  }
}
