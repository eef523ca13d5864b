/** How a changed password gets to its file (backend/internal/authgate/store.go): open or
    truncate a temporary file of a fixed name, write it, rename it. Calls on different keys
    hold different mutexes, so their steps can interleave, and files are told apart by
    inode: a rename takes the file along that another call has open. */
module PasswordFile {
  import opened Options

  type Tid = nat
  type Node = nat

  /** One call of writeStoredHash, and at last what it reported. */
  datatype Writer = Opening(data: string) | Writing(data: string, node: Node) | Renaming(data: string) | Done(data: string, ok: bool)

  datatype State = State(nodes: map<Node, string>, tmp: Option<Node>, live: Option<Node>, next: Node, writers: map<Tid, Writer>)

  /** A failed write leaves any content; an encoded hash is never empty. */
  datatype Action =
    | Begin(t: Tid, data: string)
    | Open(t: Tid, ok: bool)
    | Write(t: Tid, ok: bool, left: string)
    | Rename(t: Tid, ok: bool)

  predicate Enabled(s: State, a: Action) {
    match a
    case Begin(t, data) => t !in s.writers && data != ""
    case Open(t, _) => t in s.writers && s.writers[t].Opening?
    case Write(t, _, _) => t in s.writers && s.writers[t].Writing? && s.writers[t].node in s.nodes
    case Rename(t, _) => t in s.writers && s.writers[t].Renaming?
  }

  function To(s: State, t: Tid, w: Writer): State {
    s.(writers := s.writers[t := w])
  }

  /** Writing from the start of the file on. */
  function Overlaid(data: string, content: string): string {
    if |content| <= |data| then data else data + content[|data|..]
  }

  function Step(s: State, a: Action): State
    requires Enabled(s, a)
  {
    match a
    case Begin(t, data) => To(s, t, Opening(data))
    case Open(t, ok) =>
      var data := s.writers[t].data;
      if !ok then To(s, t, Done(data, false))
      else if s.tmp.Some? then To(s.(nodes := s.nodes[s.tmp.value := ""]), t, Writing(data, s.tmp.value))
      else To(s.(nodes := s.nodes[s.next := ""], tmp := Some(s.next), next := s.next + 1), t, Writing(data, s.next))
    case Write(t, ok, left) =>
      var w := s.writers[t];
      if ok then To(s.(nodes := s.nodes[w.node := Overlaid(w.data, s.nodes[w.node])]), t, Renaming(w.data))
      else To(s.(nodes := s.nodes[w.node := left]), t, Done(w.data, false))
    case Rename(t, ok) =>
      var data := s.writers[t].data;
      if ok && s.tmp.Some? then To(s.(live := s.tmp, tmp := None), t, Done(data, true))
      else To(s, t, Done(data, false))
  }

  predicate CanRun(s: State, run: seq<Action>)
    decreases |run|
  {
    run == [] || (Enabled(s, run[0]) && CanRun(Step(s, run[0]), run[1..]))
  }

  function Run(s: State, run: seq<Action>): State
    requires CanRun(s, run)
    decreases |run|
  {
    if run == [] then s else Run(Step(s, run[0]), run[1..])
  }

  /** What the password file holds. */
  function Live(s: State): Option<string> {
    if s.live.Some? && s.live.value in s.nodes then Some(s.nodes[s.live.value]) else None
  }

  /** The file changes only where a call reports success, and then to what it was given. */
  predicate TrueStep(s: State, a: Action)
    requires Enabled(s, a)
  {
    if a.Rename? && Step(s, a).writers[a.t].ok then Live(Step(s, a)) == Some(s.writers[a.t].data)
    else Live(Step(s, a)) == Live(s)
  }

  predicate TrueRun(s: State, run: seq<Action>)
    requires CanRun(s, run)
    decreases |run|
  {
    run == [] || (TrueStep(s, run[0]) && TrueRun(Step(s, run[0]), run[1..]))
  }

  predicate Underway(s: State, t: Tid) {
    t in s.writers && !s.writers[t].Done?
  }

  /** Each call begins after the one before has returned. */
  ghost predicate OneByOne(s: State, run: seq<Action>)
    requires CanRun(s, run)
    decreases |run|
  {
    run == [] || ((run[0].Begin? ==> forall t :: t in s.writers ==> !Underway(s, t)) && OneByOne(Step(s, run[0]), run[1..]))
  }

  // ------------------------------------------------------------------ one at a time

  predicate WriterOk(s: State, w: Writer) {
    match w
    case Opening(data) => data != ""
    case Writing(data, node) => data != "" && node in s.nodes && s.tmp == Some(node) && s.nodes[node] == ""
    case Renaming(data) => data != "" && s.tmp.Some? && s.tmp.value in s.nodes && s.nodes[s.tmp.value] == data
    case Done(_, _) => true
  }

  predicate FilesOk(s: State) {
    && (s.tmp.Some? ==> s.tmp.value in s.nodes) && (s.live.Some? ==> s.live.value in s.nodes && s.live != s.tmp)
    && (forall n :: n in s.nodes ==> n < s.next)
  }

  /** At most one call is underway, and the temporary file is its own. */
  ghost predicate Serial(s: State) {
    && FilesOk(s)
    && (forall t, u :: Underway(s, t) && Underway(s, u) ==> t == u)
    && (forall t :: t in s.writers ==> WriterOk(s, s.writers[t]))
  }

  lemma SerialStep(s: State, a: Action)
    requires Serial(s) && Enabled(s, a)
    requires a.Begin? ==> forall t :: t in s.writers ==> !Underway(s, t)
    ensures Serial(Step(s, a)) && TrueStep(s, a)
  {
    assert a.Begin? || Underway(s, a.t);
    assert a.Begin? || WriterOk(s, s.writers[a.t]);
    var s' := Step(s, a);
    forall t | t in s'.writers ensures WriterOk(s', s'.writers[t]) {
      if t != a.t {
        assert !Underway(s, t);
      }
    }
    forall t | Underway(s', t) ensures t == a.t {
      if t != a.t {
        assert Underway(s, t);
      }
    }
  }

  lemma {:induction false} SerialRun(s: State, run: seq<Action>)
    requires Serial(s) && CanRun(s, run) && OneByOne(s, run)
    ensures TrueRun(s, run) && Serial(Run(s, run))
    decreases |run|
  {
    hide Serial, Step, TrueStep, Enabled;
    if run != [] {
      SerialStep(s, run[0]);
      SerialRun(Step(s, run[0]), run[1..]);
    }
  }

  function Start(was: Option<string>): State {
    if was.Some? then State(map[0 := was.value], None, Some(0), 1, map[]) else State(map[], None, None, 0, map[])
  }

  /** While calls follow one another, the file changes exactly when one reports success,
      to the password that one was given, however the steps of all of them end. */
  lemma CallsInTurnAreTrue(was: Option<string>, run: seq<Action>)
    requires CanRun(Start(was), run) && OneByOne(Start(was), run)
    ensures TrueRun(Start(was), run) && Live(Start(was)) == was
  {
    SerialRun(Start(was), run);
  }

  // -------------------------------------------------------------------- two at once

  /** From here no further call begins. */
  predicate NoneBegins(run: seq<Action>) {
    forall i :: 0 <= i < |run| ==> !run[i].Begin?
  }

  lemma {:induction false} NoneBeginsIsInTurn(s: State, run: seq<Action>)
    requires CanRun(s, run) && NoneBegins(run)
    ensures OneByOne(s, run)
    decreases |run|
  {
    if run != [] {
      NoneBeginsIsInTurn(Step(s, run[0]), run[1..]);
    }
  }

  /** The steps that take t up to its rename. */
  function Upto(w: Writer, t: Tid): seq<Action> {
    match w
    case Opening(_) => [Open(t, true), Write(t, true, "")]
    case Writing(_, _) => [Write(t, true, "")]
    case _ => []
  }

  /** Then u opens the temporary file, and t renames it. */
  function Overtaken(w: Writer, t: Tid, u: Tid): seq<Action> {
    Upto(w, t) + [Open(u, true), Rename(t, true)]
  }

  lemma EmptyIsRenamed(s: State, t: Tid, u: Tid)
    requires FilesOk(s) && t != u && t in s.writers && u in s.writers && s.writers[u].Opening?
    requires s.writers[t].Renaming? && s.writers[t].data != "" && s.tmp.Some?
    ensures CanRun(s, [Open(u, true), Rename(t, true)]) && !TrueRun(s, [Open(u, true), Rename(t, true)])
  {
    var last := [Rename(t, true)];
    assert [Open(u, true), Rename(t, true)][1..] == last && last[1..] == [];
    var s1 := Step(s, Open(u, true));
    var s2 := Step(s1, Rename(t, true));
    assert Live(s2) == Some("") && s2.writers[t] == Done(s.writers[t].data, true);
    assert !TrueStep(s1, Rename(t, true));
    assert CanRun(s2, []);
    assert CanRun(s1, last) && !TrueRun(s1, last);
  }

  lemma Prepended(s: State, a: Action, rest: seq<Action>)
    requires Enabled(s, a) && CanRun(Step(s, a), rest) && !TrueRun(Step(s, a), rest)
    ensures CanRun(s, [a] + rest) && !TrueRun(s, [a] + rest)
  {
    assert ([a] + rest)[1..] == rest;
  }

  lemma OvertakenIsFalse(s: State, t: Tid, u: Tid)
    requires FilesOk(s) && t != u && Underway(s, t) && WriterOk(s, s.writers[t])
    requires u in s.writers && s.writers[u].Opening?
    ensures CanRun(s, Overtaken(s.writers[t], t, u)) && !TrueRun(s, Overtaken(s.writers[t], t, u))
  {
    hide TrueRun, CanRun;
    var ends := [Open(u, true), Rename(t, true)];
    match s.writers[t]
    case Opening(data) =>
      var s1 := Step(s, Open(t, true));
      var s2 := Step(s1, Write(t, true, ""));
      EmptyIsRenamed(s2, t, u);
      Prepended(s1, Write(t, true, ""), ends);
      Prepended(s, Open(t, true), [Write(t, true, "")] + ends);
      assert [Open(t, true)] + ([Write(t, true, "")] + ends) == Overtaken(s.writers[t], t, u);
    case Writing(data, node) =>
      EmptyIsRenamed(Step(s, Write(t, true, "")), t, u);
      Prepended(s, Write(t, true, ""), ends);
    case Renaming(data) =>
      EmptyIsRenamed(s, t, u);
      assert [] + ends == ends;
  }

  /** After calls in turn, one more can begin without any report becoming false, however
      it and the others go on, exactly if no other call is underway. */
  lemma SafeToBeginExactly(was: Option<string>, before: seq<Action>, u: Tid, data: string)
    requires CanRun(Start(was), before) && OneByOne(Start(was), before)
    requires Enabled(Run(Start(was), before), Begin(u, data))
    ensures var s := Run(Start(was), before);
      (forall run :: NoneBegins(run) && CanRun(Step(s, Begin(u, data)), run) ==> TrueRun(Step(s, Begin(u, data)), run))
      <==> (forall t :: t in s.writers ==> !Underway(s, t))
  {
    SerialRun(Start(was), before);
    var s := Run(Start(was), before);
    var s1 := Step(s, Begin(u, data));
    if t :| t in s.writers && Underway(s, t) {
      assert WriterOk(s, s.writers[t]);
      OvertakenIsFalse(s1, t, u);
      assert NoneBegins(Overtaken(s1.writers[t], t, u));
    } else {
      SerialStep(s, Begin(u, data));
      forall run | NoneBegins(run) && CanRun(s1, run) ensures TrueRun(s1, run) {
        NoneBeginsIsInTurn(s1, run);
        SerialRun(s1, run);
      }
    }
  }
}
