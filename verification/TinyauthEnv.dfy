/** The tinyauth user store and the env file rendered from it
    (backend/internal/tinyauthusers/store.go), against what a POSIX shell reads from that
    file: sections 2.2.1 and 2.2.2 of the Shell Command Language, IEEE Std 1003.1-2017. */
module TinyauthEnv {
  import opened Options
  import opened Numerals

  datatype User = User(name: string, passwordHash: string)

  const QUOTE := '\''
  const BACKSLASH := '\\'
  const VARIABLE := "TINYAUTH_AUTH_USERS="

  // ------------------------------------------------------------------ quoting

  /** strings.ReplaceAll(s, "'", `'\''`). */
  function Escaped(s: string): string {
    if s == "" then ""
    else (if s[0] == QUOTE then [QUOTE, BACKSLASH, QUOTE, QUOTE] else [s[0]]) + Escaped(s[1..])
  }

  function ShellQuote(s: string): string {
    [QUOTE] + Escaped(s) + [QUOTE]
  }

  /** Characters that mean something to the shell outside quotes, or may (section 2.2). */
  predicate Special(c: char) {
    c in {'|', '&', ';', '<', '>', '(', ')', '$', '`', '"', ' ', '\t', '*', '?', '[', '#', '~', '=', '%'}
  }

  /** The value of the word at the start of s, and what follows the newline that ends it.
      A backslash outside quotes keeps the next character as it is, or joins lines when
      that is a newline (2.2.1); single quotes keep everything between them (2.2.2).
      None if anything else special comes up, or a quote is not closed. */
  function Word(s: string, quoted: bool): Option<(string, string)> {
    if s == "" then None
    else if quoted then
      if s[0] == QUOTE then Word(s[1..], false) else Kept(s[0], Word(s[1..], true))
    else if s[0] == QUOTE then Word(s[1..], true)
    else if s[0] == BACKSLASH then
      if |s| == 1 then None
      else if s[1] == '\n' then Word(s[2..], false)
      else Kept(s[1], Word(s[2..], false))
    else if s[0] == '\n' then Some(("", s[1..]))
    else if Special(s[0]) then None
    else Kept(s[0], Word(s[1..], false))
  }

  function Kept(c: char, rest: Option<(string, string)>): Option<(string, string)> {
    match rest
    case None => None
    case Some((value, after)) => Some(([c] + value, after))
  }

  lemma {:induction false} QuotedTail(s: string, rest: string)
    ensures Word(Escaped(s) + [QUOTE] + ['\n'] + rest, true) == Some((s, rest))
  {
    var text := Escaped(s) + [QUOTE] + ['\n'] + rest;
    if s == "" {
      assert text[1..] == ['\n'] + rest;
    } else {
      var tail := Escaped(s[1..]) + [QUOTE] + ['\n'] + rest;
      QuotedTail(s[1..], rest);
      if s[0] == QUOTE {
        assert text == [QUOTE, BACKSLASH, QUOTE, QUOTE] + tail;
        Reopened(tail);
      } else {
        assert text == [s[0]] + tail;
        assert text[1..] == tail;
      }
      assert s == [s[0]] + s[1..];
    }
  }

  /** Inside quotes, '\'' is one quote character, and the quotes are open again after it. */
  lemma Reopened(tail: string)
    ensures Word([QUOTE, BACKSLASH, QUOTE, QUOTE] + tail, true) == Kept(QUOTE, Word(tail, true))
  {
    var s3 := [QUOTE] + tail;
    var s2 := [BACKSLASH, QUOTE] + s3;
    var s1 := [QUOTE] + s2;
    assert [QUOTE, BACKSLASH, QUOTE, QUOTE] + tail == s1;
    assert s1[1..] == s2 && s2[2..] == s3 && s3[1..] == tail;
    assert Word(s3, false) == Word(tail, true);
    assert Word(s2, false) == Kept(QUOTE, Word(s3, false));
  }

  /** For every string, the shell reads back exactly what was quoted. */
  lemma QuoteIsReadBack(s: string, rest: string)
    ensures Word(ShellQuote(s) + ['\n'] + rest, false) == Some((s, rest))
  {
    var text := ShellQuote(s) + ['\n'] + rest;
    QuotedTail(s, rest);
    assert text[1..] == Escaped(s) + [QUOTE] + ['\n'] + rest;
  }

  // ------------------------------------------------------------------ rendering

  /** strings.Join. */
  function Join(parts: seq<string>, sep: char): string {
    if parts == [] then ""
    else if |parts| == 1 then parts[0]
    else parts[0] + [sep] + Join(parts[1..], sep)
  }

  /** strings.Split at every sep. */
  function SplitAt(s: string, sep: char): seq<string>
    decreases |s|
  {
    match Cut(s, sep)
    case None => [s]
    case Some((a, b)) => CutJoins(s, sep); [a] + SplitAt(b, sep)
  }

  lemma {:induction false} SplitJoined(parts: seq<string>, sep: char)
    requires parts != [] && forall i :: 0 <= i < |parts| ==> sep !in parts[i]
    ensures SplitAt(Join(parts, sep), sep) == parts
  {
    if |parts| == 1 {
      NothingToCut(parts[0], sep);
    } else {
      CutJoined(parts[0], sep, Join(parts[1..], sep));
      SplitJoined(parts[1..], sep);
    }
  }

  function WithHash(users: seq<User>): seq<User> {
    if users == [] then []
    else WithHash(users[..|users| - 1]) + (if users[|users| - 1].passwordHash == "" then [] else [users[|users| - 1]])
  }

  function Pairs(users: seq<User>): (pairs: seq<string>)
    ensures |pairs| == |users|
    ensures forall i :: 0 <= i < |users| ==> pairs[i] == users[i].name + [':'] + users[i].passwordHash
  {
    if users == [] then []
    else Pairs(users[..|users| - 1]) + [users[|users| - 1].name + [':'] + users[|users| - 1].passwordHash]
  }

  function EnvFile(users: seq<User>): string {
    VARIABLE + ShellQuote(Join(Pairs(WithHash(users)), ',')) + ['\n']
  }

  method RenderEnvFile(users: seq<User>) returns (line: string)
    ensures line == EnvFile(users)
  {
    var pairs: seq<string> := [];
    for i := 0 to |users|
      invariant pairs == Pairs(WithHash(users[..i]))
    {
      var u := users[i];
      assert users[..i + 1][..i] == users[..i];
      if u.passwordHash == "" {
        assert WithHash(users[..i + 1]) == WithHash(users[..i]);
        continue;
      }
      ghost var before := WithHash(users[..i]);
      assert WithHash(users[..i + 1]) == before + [u];
      assert (before + [u])[..|before|] == before;
      pairs := pairs + [u.name + ":" + u.passwordHash];
    }
    assert users[..|users|] == users;
    line := VARIABLE + ShellQuote(Join(pairs, ',')) + "\n";
  }

  // -------------------------------------------------------------- reading it back

  /** The variable's value after a shell sourced a file that is one assignment. */
  function Sourced(file: string): Option<string> {
    if !(VARIABLE <= file) then None
    else match Word(file[|VARIABLE|..], false)
      case Some((value, "")) => Some(value)
      case _ => None
  }

  /** The users in the value: nothing for the empty one, and no user without a colon. */
  function ReadUsers(value: string): Option<seq<User>> {
    if value == "" then Some([]) else ReadPairs(SplitAt(value, ','))
  }

  function ReadPairs(pairs: seq<string>): Option<seq<User>> {
    if pairs == [] then Some([])
    else match (ReadPairs(pairs[..|pairs| - 1]), Cut(pairs[|pairs| - 1], ':'))
      case (Some(users), Some((name, hash))) => Some(users + [User(name, hash)])
      case _ => None
  }

  predicate NameChar(c: char) {
    'A' <= c <= 'Z' || 'a' <= c <= 'z' || '0' <= c <= '9' || c == '_' || c == '.' || c == '@' || c == '-'
  }

  // ^[A-Za-z0-9_.@-]+$
  predicate ValidName(name: string) {
    name != "" && forall i :: 0 <= i < |name| ==> NameChar(name[i])
  }

  /** The characters of a bcrypt hash: $2a$10$ and its own base64 alphabet. */
  predicate HashChar(c: char) {
    'A' <= c <= 'Z' || 'a' <= c <= 'z' || '0' <= c <= '9' || c == '.' || c == '/' || c == '$'
  }

  predicate HashText(hash: string) {
    forall i :: 0 <= i < |hash| ==> HashChar(hash[i])
  }

  predicate ValidUser(u: User) {
    ValidName(u.name) && HashText(u.passwordHash)
  }

  predicate ValidUsers(users: seq<User>) {
    forall i :: 0 <= i < |users| ==> ValidUser(users[i])
  }

  lemma {:induction false} WithHashIsValid(users: seq<User>)
    requires ValidUsers(users)
    ensures ValidUsers(WithHash(users))
  {
    hide ValidUser;
    if users != [] {
      WithHashIsValid(users[..|users| - 1]);
    }
  }

  lemma {:induction false} PairsReadBack(users: seq<User>)
    requires ValidUsers(users)
    ensures ReadPairs(Pairs(users)) == Some(users)
  {
    if users != [] {
      var n := |users| - 1;
      PairsReadBack(users[..n]);
      assert Pairs(users)[..n] == Pairs(users[..n]);
      assert ValidUser(users[n]) && ':' !in users[n].name;
      hide ValidUser, Pairs;
      CutJoined(users[n].name, ':', users[n].passwordHash);
      assert users == users[..n] + [users[n]];
    }
  }

  lemma PairHasNoComma(u: User)
    requires ValidUser(u)
    ensures ',' !in u.name + [':'] + u.passwordHash && u.name + [':'] + u.passwordHash != ""
  {
  }

  lemma JoinedIsNotEmpty(parts: seq<string>, sep: char)
    requires parts != [] && parts[0] != ""
    ensures Join(parts, sep) != ""
  {
  }

  /** What the shell hands over splits into exactly the stored users that have a hash, in
      the order they are stored. */
  lemma EnvFileReadsBack(users: seq<User>)
    requires ValidUsers(users)
    ensures Sourced(EnvFile(users)).Some?
    ensures ReadUsers(Sourced(EnvFile(users)).value) == Some(WithHash(users))
  {
    hide Word, ShellQuote, ValidUser, Pairs, WithHash, SplitAt, Sourced, VARIABLE;
    var kept := WithHash(users);
    var pairs := Pairs(kept);
    WithHashIsValid(users);
    SourcedIs(Join(pairs, ','));
    PairsReadBack(kept);
    forall i | 0 <= i < |pairs| ensures ',' !in pairs[i] && pairs[i] != "" {
      PairHasNoComma(kept[i]);
    }
    if pairs != [] {
      SplitJoined(pairs, ',');
      JoinedIsNotEmpty(pairs, ',');
    }
  }

  lemma SourcedIs(value: string)
    ensures Sourced(VARIABLE + ShellQuote(value) + ['\n']) == Some(value)
  {
    hide Word, ShellQuote, VARIABLE;
    QuoteIsReadBack(value, "");
    assert (VARIABLE + ShellQuote(value) + ['\n'])[|VARIABLE|..] == ShellQuote(value) + ['\n'] + "";
  }

  // ------------------------------------------------------------------ the store

  datatype StoreError = BadInput | UserExists | UserNotFound | Failed

  /** One edit: `hash` is what bcrypt made of the password, and `ok` whether hashing and
      saving succeeded. */
  datatype Edit =
    | Add(name: string, plaintext: string, hash: string, ok: bool)
    | SetPassword(name: string, plaintext: string, hash: string, ok: bool)
    | Delete(name: string, ok: bool)

  predicate Named(users: seq<User>, name: string) {
    exists u :: u in users && u.name == name
  }

  function Rehashed(users: seq<User>, name: string, hash: string): seq<User> {
    if users == [] then []
    else if users[0].name == name then [User(name, hash)] + users[1..]
    else [users[0]] + Rehashed(users[1..], name, hash)
  }

  function Removed(users: seq<User>, name: string): seq<User> {
    if users == [] then []
    else Removed(users[..|users| - 1], name) + (if users[|users| - 1].name == name then [] else [users[|users| - 1]])
  }

  /** The list after one edit. */
  function Edited(users: seq<User>, e: Edit): (seq<User>, Option<StoreError>) {
    match e
    case Add(name, plaintext, hash, ok) =>
      if name == "" || plaintext == "" || !ValidName(name) then (users, Some(BadInput))
      else if Named(users, name) then (users, Some(UserExists))
      else Saved(users, users + [User(name, hash)], ok)
    case SetPassword(name, plaintext, hash, ok) =>
      if plaintext == "" then (users, Some(BadInput))
      else if !Named(users, name) then (users, Some(UserNotFound))
      else Saved(users, Rehashed(users, name, hash), ok)
    case Delete(name, ok) =>
      if !Named(users, name) then (users, Some(UserNotFound)) else Saved(users, Removed(users, name), ok)
  }

  function Saved(was: seq<User>, now: seq<User>, ok: bool): (seq<User>, Option<StoreError>) {
    if ok then (now, None) else (was, Some(Failed))
  }

  class Store {
    var users: seq<User>

    constructor ()
      ensures users == []
    {
      users := [];
    }

    method Save(now: seq<User>, ok: bool) returns (err: Option<StoreError>)
      modifies this
      ensures (users, err) == Saved(old(users), now, ok)
    {
      if !ok {
        return Some(Failed);
      }
      users := now;
      return None;
    }

    method AddUser(name: string, plaintext: string, hash: string, ok: bool) returns (err: Option<StoreError>)
      modifies this
      ensures (users, err) == Edited(old(users), Add(name, plaintext, hash, ok))
    {
      if name == "" || plaintext == "" || !ValidName(name) {
        return Some(BadInput);
      }
      for i := 0 to |users|
        invariant users == old(users) && forall k :: 0 <= k < i ==> users[k].name != name
      {
        if users[i].name == name {
          assert users[i] in users;
          return Some(UserExists);
        }
      }
      err := Save(users + [User(name, hash)], ok);
    }

    method SetUserPassword(name: string, plaintext: string, hash: string, ok: bool) returns (err: Option<StoreError>)
      modifies this
      ensures (users, err) == Edited(old(users), SetPassword(name, plaintext, hash, ok))
    {
      if plaintext == "" {
        return Some(BadInput);
      }
      var idx := -1;
      for i := 0 to |users|
        invariant users == old(users) && idx == -1
        invariant forall k :: 0 <= k < i ==> users[k].name != name
      {
        if users[i].name == name {
          idx := i;
          break;
        }
      }
      if idx == -1 {
        return Some(UserNotFound);
      }
      assert users[idx] in users;
      RehashedAt(users, name, hash, idx);
      err := Save(users[idx := users[idx].(passwordHash := hash)], ok);
    }

    method DeleteUser(name: string, ok: bool) returns (err: Option<StoreError>)
      modifies this
      ensures (users, err) == Edited(old(users), Delete(name, ok))
    {
      var found := false;
      var kept: seq<User> := [];
      for i := 0 to |users|
        invariant users == old(users)
        invariant found <==> exists k :: 0 <= k < i && users[k].name == name
        invariant kept == Removed(users[..i], name)
      {
        assert users[..i + 1][..i] == users[..i];
        if users[i].name == name {
          found := true;
          continue;
        }
        kept := kept + [users[i]];
      }
      assert users[..|users|] == users;
      if !found {
        return Some(UserNotFound);
      }
      err := Save(kept, ok);
    }
  }

  lemma {:induction false} RehashedAt(users: seq<User>, name: string, hash: string, idx: nat)
    requires idx < |users| && users[idx].name == name && forall k :: 0 <= k < idx ==> users[k].name != name
    ensures Rehashed(users, name, hash) == users[idx := users[idx].(passwordHash := hash)]
  {
    if idx > 0 {
      RehashedAt(users[1..], name, hash, idx - 1);
      assert users == [users[0]] + users[1..];
    }
  }

  predicate DistinctNames(users: seq<User>) {
    forall i, j :: 0 <= i < j < |users| ==> users[i].name != users[j].name
  }

  /** bcrypt's output is a hash, whatever the password. */
  predicate RealHash(e: Edit) {
    match e
    case Add(_, _, hash, _) => HashText(hash)
    case SetPassword(_, _, hash, _) => HashText(hash)
    case Delete(_, _) => true
  }

  lemma {:induction false} RemovedKeeps(users: seq<User>, name: string)
    ensures forall u :: u in Removed(users, name) <==> u in users && u.name != name
    ensures DistinctNames(users) ==> DistinctNames(Removed(users, name))
  {
    if users != [] {
      var n := |users| - 1;
      assert users == users[..n] + [users[n]];
      RemovedKeeps(users[..n], name);
    }
  }

  lemma {:induction false} RehashedMembers(users: seq<User>, name: string, hash: string)
    requires DistinctNames(users) && Named(users, name)
    ensures forall u :: u in Rehashed(users, name, hash) <==> u == User(name, hash) || (u in users && u.name != name)
  {
    var first, rest := users[0], users[1..];
    assert users == [first] + rest;
    assert forall i :: 0 <= i < |rest| ==> rest[i] == users[i + 1];
    if first.name == name {
      assert forall u :: u in rest ==> u.name != name;
    } else {
      assert Named(rest, name);
      RehashedMembers(rest, name, hash);
    }
  }

  /** An edit that succeeds leaves every other user as it was; one that fails, all. */
  lemma EditChangesOneUser(users: seq<User>, e: Edit, u: User)
    requires DistinctNames(users)
    ensures var (after, err) := Edited(users, e);
      if err.Some? then after == users
      else u in after <==> (u in users && u.name != e.name) || (!e.Delete? && u == User(e.name, e.hash))
  {
    match e
    case Add(_, _, _, _) =>
    case SetPassword(name, _, hash, _) =>
      if Named(users, name) {
        RehashedMembers(users, name, hash);
      }
    case Delete(name, _) => RemovedKeeps(users, name);
  }

  lemma EditKeepsValid(users: seq<User>, e: Edit)
    requires ValidUsers(users) && DistinctNames(users) && RealHash(e)
    ensures ValidUsers(Edited(users, e).0) && DistinctNames(Edited(users, e).0)
  {
    hide ValidName, HashText;
    match e
    case Add(_, _, _, _) =>
    case SetPassword(name, _, hash, _) =>
      if Named(users, name) {
        var u :| u in users && u.name == name;
        var idx :| 0 <= idx < |users| && users[idx] == u;
        assert ValidUser(users[idx]);
        RehashedAt(users, name, hash, idx);
      }
    case Delete(name, _) =>
      RemovedKeeps(users, name);
      forall i | 0 <= i < |Removed(users, name)| ensures ValidUser(Removed(users, name)[i]) {
        assert Removed(users, name)[i] in users;
      }
  }

  function AfterEdits(users: seq<User>, edits: seq<Edit>): seq<User>
    decreases |edits|
  {
    if edits == [] then users else AfterEdits(Edited(users, edits[0]).0, edits[1..])
  }

  lemma {:induction false} EditsKeepValid(users: seq<User>, edits: seq<Edit>)
    requires ValidUsers(users) && DistinctNames(users) && forall i :: 0 <= i < |edits| ==> RealHash(edits[i])
    ensures ValidUsers(AfterEdits(users, edits)) && DistinctNames(AfterEdits(users, edits))
    decreases |edits|
  {
    hide Edited, ValidUsers, DistinctNames, RealHash;
    if edits != [] {
      EditKeepsValid(users, edits[0]);
      EditsKeepValid(Edited(users, edits[0]).0, edits[1..]);
    }
  }

  /** Whatever was added, reset and deleted before, tinyauth gets exactly the stored users
      with a hash, each name once. */
  lemma EveryStoreReadsBack(edits: seq<Edit>)
    requires forall i :: 0 <= i < |edits| ==> RealHash(edits[i])
    ensures var users := AfterEdits([], edits);
      && DistinctNames(users)
      && Sourced(EnvFile(users)).Some?
      && ReadUsers(Sourced(EnvFile(users)).value) == Some(WithHash(users))
  {
    EditsKeepValid([], edits);
    EnvFileReadsBack(AfterEdits([], edits));
  }
}
