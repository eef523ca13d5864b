/** When an edit of the tinyauth user store succeeds, what each error says, and who can log
    in after any sequence of edits. */
module TinyauthEdits {
  import opened Options
  import opened TinyauthEnv

  /** Some stored user has the name. */
  predicate Known(users: seq<User>, name: string) {
    exists i :: 0 <= i < |users| && users[i].name == name
  }

  lemma KnownIsNamed(users: seq<User>, name: string)
    ensures Known(users, name) <==> Named(users, name)
  {
    if u :| u in users && u.name == name {
      var i :| 0 <= i < |users| && users[i] == u;
    }
  }

  /** An input is complete, and has a name the env file can carry. */
  predicate GoodInput(e: Edit) {
    match e
    case Add(name, plaintext, _, _) => name != "" && plaintext != "" && forall c :: c in name ==> NameChar(c)
    case SetPassword(_, plaintext, _, _) => plaintext != ""
    case Delete(_, _) => true
  }

  predicate Wanted(users: seq<User>, e: Edit) {
    if e.Add? then !Known(users, e.name) else Known(users, e.name)
  }

  /** An edit succeeds exactly if its input is good, the name is free for an addition and
      taken for the others, and hashing and saving work. Each error means its own reason,
      in this order, and leaves the list alone. */
  lemma EditSucceedsExactly(users: seq<User>, e: Edit)
    ensures var (after, err) := Edited(users, e);
      && (err == None <==> GoodInput(e) && Wanted(users, e) && e.ok)
      && (err == Some(BadInput) <==> !GoodInput(e))
      && (err == Some(UserExists) <==> GoodInput(e) && e.Add? && Known(users, e.name))
      && (err == Some(UserNotFound) <==> GoodInput(e) && !e.Add? && !Known(users, e.name))
      && (err == Some(Failed) <==> GoodInput(e) && Wanted(users, e) && !e.ok)
      && (err != None ==> after == users)
  {
    KnownIsNamed(users, e.name);
    hide NameChar, Named, Known;
    if e.Add? {
      assert (forall c :: c in e.name ==> NameChar(c)) <==> (forall i :: 0 <= i < |e.name| ==> NameChar(e.name[i]));
    }
  }

  /** What a successful edit makes of the list, user by user and in order. */
  lemma EditDoes(users: seq<User>, e: Edit, i: nat)
    requires DistinctNames(users) && Edited(users, e).1 == None
    ensures e.Add? ==> Edited(users, e).0 == users + [User(e.name, e.hash)]
    ensures !e.Add? && i < |users| && users[i].name == e.name ==>
      Edited(users, e).0 == users[..i] + (if e.Delete? then [] else [User(e.name, e.hash)]) + users[i + 1..]
  {
    if !e.Add? && i < |users| && users[i].name == e.name {
      if e.Delete? {
        RemovedAt(users, i);
      } else {
        RehashedAt(users, e.name, e.hash, i);
        assert users[i := users[i].(passwordHash := e.hash)] == users[..i] + [User(e.name, e.hash)] + users[i + 1..];
      }
    }
  }

  lemma {:induction false} RemovedAt(users: seq<User>, i: nat)
    requires DistinctNames(users) && i < |users|
    ensures Removed(users, users[i].name) == users[..i] + users[i + 1..]
  {
    var n := |users| - 1;
    if i == n {
      NothingRemoved(users[..n], users[i].name);
    } else {
      RemovedAt(users[..n], i);
      assert users[..n][..i] == users[..i];
      assert users[..n][i + 1..] + [users[n]] == users[i + 1..];
    }
  }

  lemma {:induction false} NothingRemoved(users: seq<User>, name: string)
    requires forall i :: 0 <= i < |users| ==> users[i].name != name
    ensures Removed(users, name) == users
  {
    if users != [] {
      NothingRemoved(users[..|users| - 1], name);
    }
  }

  // -------------------------------------------------------------- any sequence of edits

  /** The hash stored for a name. */
  function HashOf(users: seq<User>, name: string): Option<string> {
    if users == [] then None
    else if users[0].name == name then Some(users[0].passwordHash)
    else HashOf(users[1..], name)
  }

  lemma {:induction false} HashOfExactly(users: seq<User>, name: string)
    requires DistinctNames(users)
    ensures Known(users, name) <==> HashOf(users, name).Some?
    ensures forall u: User :: u.name == name ==> (u in users <==> HashOf(users, name) == Some(u.passwordHash))
  {
    if users != [] {
      var rest := users[1..];
      assert users == [users[0]] + rest;
      assert forall i :: 0 <= i < |rest| ==> rest[i] == users[i + 1];
      HashOfExactly(rest, name);
      if users[0].name == name {
        assert forall u :: u in rest ==> u.name != name;
      } else {
        assert Known(users, name) <==> Known(rest, name) by {
          if i :| 0 <= i < |users| && users[i].name == name {
            assert rest[i - 1].name == name;
          }
          if i :| 0 <= i < |rest| && rest[i].name == name {
            assert users[i + 1].name == name;
          }
        }
      }
    }
  }

  /** The password a name should have: that of the last edit that went through for it,
      an addition going through while there is none, a reset or a deletion while there
      is one. */
  function Standing(edits: seq<Edit>, name: string): Option<string> {
    if edits == [] then None
    else
      var e, was := edits[|edits| - 1], Standing(edits[..|edits| - 1], name);
      if e.name != name || !e.ok || !GoodInput(e) || e.Add? == was.Some? then was
      else if e.Delete? then None
      else Some(e.hash)
  }

  lemma {:induction false} LastEdit(users: seq<User>, edits: seq<Edit>)
    requires edits != []
    ensures AfterEdits(users, edits) == Edited(AfterEdits(users, edits[..|edits| - 1]), edits[|edits| - 1]).0
    decreases |edits|
  {
    if |edits| > 1 {
      LastEdit(Edited(users, edits[0]).0, edits[1..]);
      assert edits[1..][..|edits| - 2] == edits[..|edits| - 1][1..];
    }
  }

  lemma EditKeepsDistinct(users: seq<User>, e: Edit)
    requires DistinctNames(users)
    ensures DistinctNames(Edited(users, e).0)
  {
    match e
    case Add(name, _, _, _) => KnownIsNamed(users, name);
    case SetPassword(name, _, hash, _) =>
      KnownIsNamed(users, name);
      if Known(users, name) {
        HashOfFirst(users, name, hash);
      }
    case Delete(name, _) => RemovedKeeps(users, name);
  }

  lemma HashOfFirst(users: seq<User>, name: string, hash: string)
    requires DistinctNames(users) && Known(users, name)
    ensures DistinctNames(Rehashed(users, name, hash))
  {
    var i :| 0 <= i < |users| && users[i].name == name;
    RehashedAt(users, name, hash, i);
  }

  lemma HashAfterEdit(users: seq<User>, e: Edit, name: string)
    requires DistinctNames(users)
    ensures DistinctNames(Edited(users, e).0)
    ensures var was := HashOf(users, name);
      HashOf(Edited(users, e).0, name) ==
        if e.name != name || !e.ok || !GoodInput(e) || e.Add? == was.Some? then was
        else if e.Delete? then None
        else Some(e.hash)
  {
    var after := Edited(users, e).0;
    EditKeepsDistinct(users, e);
    EditSucceedsExactly(users, e);
    if Edited(users, e).1 == None {
      HashOfExactly(users, name);
      HashOfExactly(after, name);
      forall u: User ensures u in after <==> (u in users && u.name != e.name) || (!e.Delete? && u == User(e.name, e.hash)) {
        EditChangesOneUser(users, e, u);
      }
      hide Edited, DistinctNames, GoodInput, HashOf;
      HashIsIn(users, after, e, name);
    }
  }

  lemma HashIsIn(users: seq<User>, after: seq<User>, e: Edit, name: string)
    requires forall u: User :: u.name == name ==> (u in users <==> HashOf(users, name) == Some(u.passwordHash))
    requires forall u: User :: u.name == name ==> (u in after <==> HashOf(after, name) == Some(u.passwordHash))
    requires forall u: User :: u in after <==> (u in users && u.name != e.name) || (!e.Delete? && u == User(e.name, e.hash))
    ensures HashOf(after, name) ==
      if e.name != name then HashOf(users, name) else if e.Delete? then None else Some(e.hash)
  {
    hide HashOf;
    var h := if HashOf(after, name).Some? then HashOf(after, name) else HashOf(users, name);
    if h.Some? {
      assert User(name, h.value).name == name;
    }
    if e.name == name && !e.Delete? {
      assert User(name, e.hash) in after;
    }
  }

  lemma NoUsers(users: seq<User>)
    requires users == []
    ensures DistinctNames(users)
  {
  }

  /** After any sequence of edits a name can log in with a hash exactly if the last edit
      that went through for it gave it that hash, and with none after a deletion: the list
      keeps one password for each name, as a table would. */
  lemma {:induction false} StoreIsATable(edits: seq<Edit>, name: string)
    ensures var users := AfterEdits([], edits);
      DistinctNames(users) && HashOf(users, name) == Standing(edits, name)
    decreases |edits|
  {
    hide Edited, GoodInput, DistinctNames;
    if edits != [] {
      hide HashOf;
      LastEdit([], edits);
      StoreIsATable(edits[..|edits| - 1], name);
      HashAfterEdit(AfterEdits([], edits[..|edits| - 1]), edits[|edits| - 1], name);
    } else {
      NoUsers([]);
    }
  }

  // ------------------------------------------------------------------ the env file

  lemma {:induction false} WithHashAppends(users: seq<User>, more: seq<User>)
    ensures WithHash(users + more) == WithHash(users) + WithHash(more)
  {
    if more == [] {
      assert users + more == users;
    } else {
      var n := |more| - 1;
      assert (users + more)[..|users| + n] == users + more[..n];
      WithHashAppends(users, more[..n]);
    }
  }

  lemma WithHashOne(u: User)
    ensures WithHash([u]) == if u.passwordHash != "" then [u] else []
  {
    assert [u][..0] == [];
  }

  /** A user is listed, in its place, exactly if it has a hash. */
  lemma WithHashExactly(users: seq<User>, i: nat)
    requires i < |users|
    ensures WithHash(users) ==
      WithHash(users[..i]) + (if users[i].passwordHash != "" then [users[i]] else []) + WithHash(users[i + 1..])
  {
    hide WithHash;
    var first, u, last := users[..i], users[i], users[i + 1..];
    InPlace(users, i);
    WithHashAppends(first, [u] + last);
    WithHashAppends([u], last);
    WithHashOne(u);
    Regrouped(WithHash(first), WithHash([u]), WithHash(last));
  }

  lemma InPlace(users: seq<User>, i: nat)
    requires i < |users|
    ensures users == users[..i] + ([users[i]] + users[i + 1..])
  {
  }

  lemma Regrouped(a: seq<User>, b: seq<User>, c: seq<User>)
    ensures a + (b + c) == a + b + c
  {
  }
}
