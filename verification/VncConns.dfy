/** The open viewer connections, by target and id (backend/handlers_vnc.go). */
module VncConns {
  import opened Options

  type Client = string

  datatype Conns = Conns(byTarget: map<string, map<int, Client>>, nextId: int)

  datatype Call = Register(target: string, client: Client) | Deregister(target: string, id: int)

  function At(byTarget: map<string, map<int, Client>>, target: string): map<int, Client> {
    if target in byTarget then byTarget[target] else map[]
  }

  function After(s: Conns, c: Call): Conns {
    match c
    case Register(target, client) =>
      Conns(s.byTarget[target := At(s.byTarget, target)[s.nextId + 1 := client]], s.nextId + 1)
    case Deregister(target, id) =>
      var m := At(s.byTarget, target) - {id};
      s.(byTarget := if m == map[] then s.byTarget - {target} else s.byTarget[target := m])
  }

  class ConnTable {
    var byTarget: map<string, map<int, Client>>
    var nextId: int

    constructor ()
      ensures byTarget == map[] && nextId == 0
    {
      byTarget := map[];
      nextId := 0;
    }

    method DoRegister(target: string, client: Client) returns (id: int)
      modifies this
      ensures Conns(byTarget, nextId) == After(old(Conns(byTarget, nextId)), Register(target, client))
      ensures id == nextId
    {
      nextId := nextId + 1;
      if target !in byTarget {
        byTarget := byTarget[target := map[]];
      }
      byTarget := byTarget[target := byTarget[target][nextId := client]];
      return nextId;
    }

    method DoDeregister(target: string, id: int)
      modifies this
      ensures Conns(byTarget, nextId) == After(old(Conns(byTarget, nextId)), Deregister(target, id))
    {
      var m: map<int, Client> := map[];
      if target in byTarget {
        m := byTarget[target] - {id};
        byTarget := byTarget[target := m];
      }
      if |m| == 0 {
        assert m == map[];
        byTarget := byTarget - {target};
      }
    }
  }

  function AfterAll(run: seq<Call>): Conns {
    if run == [] then Conns(map[], 0) else After(AfterAll(run[..|run| - 1]), run[|run| - 1])
  }

  /** How many clients have ever been registered: the ids are 1, 2, 3, ... */
  function Registered(run: seq<Call>): nat {
    if run == [] then 0 else Registered(run[..|run| - 1]) + (if run[|run| - 1].Register? then 1 else 0)
  }

  /** From the whole history: the client registered under target with that number, unless
      it was deregistered there since. */
  function OpenClient(run: seq<Call>, target: string, id: int): Option<Client> {
    if run == [] then None
    else
      match run[|run| - 1]
      case Register(t, client) =>
        if t == target && id == Registered(run) then Some(client) else OpenClient(run[..|run| - 1], target, id)
      case Deregister(t, i) =>
        if t == target && i == id then None else OpenClient(run[..|run| - 1], target, id)
  }

  /** The table lists under each target exactly the clients still open there, under ids
      never used twice, and keeps no target without clients. */
  lemma {:induction false} TableListsTheOpenClients(run: seq<Call>, target: string, id: int)
    ensures var s := AfterAll(run);
      && s.nextId == Registered(run)
      && (id in At(s.byTarget, target) <==> OpenClient(run, target, id).Some?)
      && (id in At(s.byTarget, target) ==> At(s.byTarget, target)[id] == OpenClient(run, target, id).value && id <= s.nextId)
      && (target in s.byTarget ==> s.byTarget[target] != map[])
  {
    if run != [] {
      TableListsTheOpenClients(run[..|run| - 1], target, id);
      var s := AfterAll(run);
      match run[|run| - 1]
      case Register(t, _) => assert s.nextId in s.byTarget[t];
      case Deregister(_, _) =>
    }
  }
}
