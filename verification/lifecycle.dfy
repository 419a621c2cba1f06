/** Sequences of lifecycle calls on the registry. Each call is one of the
    client operations: CreateSession as written, the corrected create and
    reload (`CreateSessionFixed`, `ReloadSessionFixed`), WakeupConn and
    DestroySession. The invariant of `Sessions` holds after any sequence of
    them, so a connection found by id always carries a session with that id.
    ReloadSession as written is not among them: it breaks the invariant. */
module Lifecycle {
  import opened Wrappers
  import opened Sessions
  import opened Client

  /** One lifecycle call: a connection opens with an anonymous session
      (CreateSession as written) or with a generated id (the corrected
      create), resumes under a known id, is woken by id from elsewhere, or
      closes. */
  datatype Call =
    | Open(c: Conn)
    | Create(c: Conn, guid: Id)
    | Reload(c: Conn, newid: Id)
    | Wakeup(id: Id)
    | Destroy(c: Conn)

  /** The connection a call binds a session to, if any. */
  function Binds(call: Call): Option<Conn> {
    match call
    case Open(c) => Some(c)
    case Create(c, _) => Some(c)
    case Reload(c, _) => Some(c)
    case _ => None
  }

  /** The state after one call; a failed wake leaves the state as it was.
      Only the connection the call binds can gain a registry entry. */
  function Step(st: State, call: Call): (r: State)
    requires Inv(st)
    ensures Inv(r)
    ensures r.nextAddr >= st.nextAddr
    ensures forall id | id in r.registry ::
      (id in st.registry && r.registry[id] == st.registry[id]) || Some(r.registry[id]) == Binds(call)
  {
    match call
    case Open(c) => CreateSession(st, Some(c)).0
    case Create(c, guid) => CreateSessionFixed(st, Some(c), guid).0
    case Reload(c, newid) => ReloadSessionFixed(st, Some(c), newid).0
    case Wakeup(id) =>
      var w := WakeupConn(st, id);
      if w.Success? then w.value else st
    case Destroy(c) => DestroySession(st, Some(c)).0
  }

  /** The state after a whole sequence of calls. */
  function Run(st: State, calls: seq<Call>): (r: State)
    requires Inv(st)
    ensures Inv(r)
    ensures r.nextAddr >= st.nextAddr
    decreases |calls|
  {
    if calls == [] then st else Run(Step(st, calls[0]), calls[1..])
  }

  /** No id finds `c`. */
  ghost predicate Unfindable(st: State, c: Conn) {
    forall id | id in st.registry :: st.registry[id] != c
  }

  /** Once a connection is unfindable, it stays so through any calls that do
      not bind a session to it: the registry never makes a closed connection
      look alive. */
  lemma {:induction false} StaysUnfindable(st: State, calls: seq<Call>, c: Conn)
    requires Inv(st) && Unfindable(st, c)
    requires forall i | 0 <= i < |calls| :: Binds(calls[i]) != Some(c)
    ensures Unfindable(Run(st, calls), c)
    decreases |calls|
  {
    if calls != [] {
      var st' := Step(st, calls[0]);
      assert Binds(calls[0]) != Some(c);
      assert Unfindable(st', c);
      assert forall i | 0 <= i < |calls[1..]| :: Binds(calls[1..][i]) == Binds(calls[i + 1]);
      StaysUnfindable(st', calls[1..], c);
    }
  }

  /** Closing a connection, then running calls that do not rebind it: no id
      finds it afterwards. */
  lemma ClosedStaysUnfindable(st: State, c: Conn, calls: seq<Call>)
    requires Inv(st)
    requires forall i | 0 <= i < |calls| :: Binds(calls[i]) != Some(c)
    ensures Unfindable(Run(DestroySession(st, Some(c)).0, calls), c)
  {
    DestroyUnregisters(st, c);
    StaysUnfindable(DestroySession(st, Some(c)).0, calls, c);
  }

  /** From a fresh process, any sequence of calls leaves every lookup
      consistent: a found connection carries a session with the looked-up id,
      and the empty id is never found. */
  lemma RunKeepsLookupsConsistent(calls: seq<Call>, id: Id)
    ensures Inv(Initial)
    ensures var st := Run(Initial, calls);
      && FindConnById(st, "").None?
      && (FindConnById(st, id).Some? ==> ContextId(st, FindConnById(st, id).value) == id)
  {
  }

  /** The end-to-end scenario: connection A opens and is registered as "S1";
      it resumes as "S2", which moves the registry entry; a wake by "S2"
      reaches A exactly once; closing A removes "S2". */
  lemma Scenario()
    ensures Inv(Initial)
    ensures
      var a := Conn(1);
      var (s1, _) := CreateSessionFixed(Initial, Some(a), "S1");
      var (s2, _, oldid) := ReloadSessionFixed(s1, Some(a), "S2");
      var w := WakeupConn(s2, "S2");
      && FindConnById(s1, "S1") == Some(a)
      && oldid == "S1"
      && FindConnById(s2, "S1").None?
      && FindConnById(s2, "S2") == Some(a)
      && w.Success?
      && WakeCount(w.value, a) == 1
      && var (s3, found) := DestroySession(w.value, Some(a));
      && found
      && FindConnById(s3, "S2").None?
      && GetSession(s3, Some(a)).None?
  {
  }

  /** The same opening with the client code as written: the open registers
      nothing, so no id finds A, and the first reload reports no previous id
      ("") before registering A under "S2". */
  lemma ScenarioAsWritten()
    ensures Inv(Initial)
    ensures
      var a := Conn(1);
      var (s1, _) := CreateSession(Initial, Some(a));
      var (s2, _, oldid) := ReloadSession(s1, Some(a), "S2");
      && s1.registry == map[]
      && oldid == ""
      && FindConnById(s2, "S2") == Some(a)
      && FindConnById(s2, "S1").None?
  {
  }
}
