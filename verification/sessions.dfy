/** The session registry of evio: a process-wide map from session id to
    connection, kept in step with the context slot of each connection by the
    library functions FindConnById, GetSession, GetSessionId, SaveSession,
    BindSession and DestroySession.

    Every operation is a pure transition on an immutable `State`. Sessions are
    shared, mutable objects in the program, so the model refers to them by
    address (`SessionRef`) and keeps their ids in a separate store (`ids`):
    changing a session's id changes what every connection holding that session
    sees. */
module Sessions {
  import opened Wrappers

  /** A session id. The empty string marks a session that is not bound. */
  type Id = string

  /** The stable identity of a live (non-nil) connection. */
  datatype Conn = Conn(handle: nat)

  /** The address of a session object. */
  datatype SessionRef = SessionRef(addr: nat)

  datatype State = State(
    registry: map<Id, Conn>,            // the sync.Map keyed by session id
    context: map<Conn, SessionRef>,     // Conn.Context(); a missing key is a nil context
    ids: map<SessionRef, Id>,           // GetId() of every allocated session
    wakes: map<Conn, nat>,              // how many times Conn.Wake() was called
    nextAddr: nat)                      // the next address the allocator hands out

  /** A process that has accepted no connection yet. */
  const Initial: State := State(map[], map[], map[], map[], 0)

  /** Well-formedness: every context is an allocated session, and every
      allocated session lies below the allocator's next address. */
  ghost predicate Valid(st: State) {
    && (forall c | c in st.context :: st.context[c] in st.ids)
    && (forall s | s in st.ids :: s.addr < st.nextAddr)
  }

  /** The intended invariant: an id is registered to a connection only while
      that connection's context is a session carrying exactly that id, and the
      empty id is never registered. */
  ghost predicate Inv(st: State) {
    && Valid(st)
    && "" !in st.registry
    && (forall id | id in st.registry ::
          st.registry[id] in st.context && st.ids[st.context[st.registry[id]]] == id)
  }

  /** The number of Wake() calls issued on `c` so far. */
  function WakeCount(st: State, c: Conn): nat {
    if c in st.wakes then st.wakes[c] else 0
  }

  /** Conn.Wake(): its asynchronous effect is reduced to one more wake on `c`. */
  function Wake(st: State, c: Conn): (r: State)
    ensures WakeCount(r, c) == WakeCount(st, c) + 1
    ensures forall c' | c' != c :: WakeCount(r, c') == WakeCount(st, c')
    ensures r.registry == st.registry && r.context == st.context
    ensures r.ids == st.ids && r.nextAddr == st.nextAddr
  {
    st.(wakes := st.wakes[c := WakeCount(st, c) + 1])
  }

  /** The connection registered under `id`, or nil. */
  function FindConnById(st: State, id: Id): (r: Option<Conn>)
    ensures Inv(st) && r.Some? ==>
      r.value in st.context && st.ids[st.context[r.value]] == id
  {
    if id in st.registry then Some(st.registry[id]) else None
  }

  /** The context of `c`; nil for a nil connection. */
  function GetSession(st: State, c: Option<Conn>): (r: Option<SessionRef>)
    ensures c.None? ==> r.None?
    ensures Valid(st) && r.Some? ==> r.value in st.ids
  {
    if c.Some? && c.value in st.context then Some(st.context[c.value]) else None
  }

  /** The id of a context; "" for a nil context. */
  function GetSessionId(st: State, cxt: Option<SessionRef>): (r: Id)
    requires cxt.Some? ==> cxt.value in st.ids
    ensures cxt.None? ==> r == ""
  {
    match cxt
    case None => ""
    case Some(sess) => st.ids[sess]
  }

  /** The id of the session currently attached to `c`, or "" when it has none. */
  function ContextId(st: State, c: Conn): Id
    requires Valid(st)
  {
    GetSessionId(st, GetSession(st, Some(c)))
  }

  /** Attach `sess` to `c`; a nil `c` is looked up in the registry by the
      session's own id. Returns that id. */
  function SaveSession(st: State, c: Option<Conn>, sess: SessionRef): (r: (State, Id))
    requires sess in st.ids
    ensures r.1 == st.ids[sess]
    ensures r.0.registry == st.registry
    ensures r.0.ids == st.ids && r.0.wakes == st.wakes && r.0.nextAddr == st.nextAddr
    ensures c.Some? ==> r.0.context == st.context[c.value := sess]
    ensures c.None? && r.1 != "" && r.1 in st.registry ==>
      r.0.context == st.context[st.registry[r.1] := sess]
    ensures c.None? && (r.1 == "" || r.1 !in st.registry) ==> r.0 == st
    ensures Valid(st) ==> Valid(r.0)
  {
    var id := st.ids[sess];
    var target := if c.None? && id != "" then FindConnById(st, id) else c;
    if target.Some? then (st.(context := st.context[target.value := sess]), id)
    else (st, id)
  }

  /** Attach `sess` to `c`, drop the id `c` was registered under and register
      `c` under the session's id. Succeeds when `c` is non-nil and the id is
      non-empty. */
  function BindSession(st: State, c: Option<Conn>, sess: SessionRef): (r: (State, bool))
    requires Valid(st) && sess in st.ids
    ensures c.None? ==> r == (st, false)
    ensures r.1 <==> c.Some? && st.ids[sess] != ""
    ensures c.Some? ==> r.0.context == st.context[c.value := sess]
    ensures c.Some? && st.ids[sess] != "" ==> FindConnById(r.0, st.ids[sess]) == c
    ensures c.Some? && ContextId(st, c.value) != "" && ContextId(st, c.value) != st.ids[sess] ==>
      FindConnById(r.0, ContextId(st, c.value)).None?
    ensures forall id | id != st.ids[sess] && (c.None? || id != ContextId(st, c.value)) ::
      FindConnById(r.0, id) == FindConnById(st, id)
    ensures st.ids[sess] == "" ==> r.0.registry.Keys <= st.registry.Keys
    ensures r.0.ids == st.ids && r.0.wakes == st.wakes && r.0.nextAddr == st.nextAddr
    ensures Valid(r.0)
    ensures Inv(st) ==> Inv(r.0)
  {
    if c.None? then (st, false)
    else
      var oldId := GetSessionId(st, GetSession(st, c));
      var cleared := if oldId != "" then st.(registry := st.registry - {oldId}) else st;
      var (saved, id) := SaveSession(cleared, c, sess);
      if id != "" then (saved.(registry := saved.registry[id := c.value]), true)
      else (saved, false)
  }

  /** Drop the id `c` is registered under and clear its context. Reports
      whether a non-empty id was dropped. */
  function DestroySession(st: State, c: Option<Conn>): (r: (State, bool))
    requires Valid(st)
    ensures GetSession(st, c).None? ==> r == (st, false)
    ensures c.Some? && c.value in st.context ==>
      && r.0.context == st.context - {c.value}
      && (r.1 <==> ContextId(st, c.value) != "")
      && (r.1 ==> r.0.registry == st.registry - {ContextId(st, c.value)})
      && (!r.1 ==> r.0.registry == st.registry)
    ensures GetSession(r.0, c).None?
    ensures r.0.ids == st.ids && r.0.wakes == st.wakes && r.0.nextAddr == st.nextAddr
    ensures Valid(r.0)
    ensures Inv(st) ==> Inv(r.0)
  {
    var cxt := GetSession(st, c);
    if cxt.None? then (st, false)
    else
      var id := GetSessionId(st, cxt);
      var cleared := if id != "" then st.(registry := st.registry - {id}) else st;
      (cleared.(context := cleared.context - {c.value}), id != "")
  }

  /** Under the invariant, DestroySession leaves no id that finds `c`. */
  lemma DestroyUnregisters(st: State, c: Conn)
    requires Inv(st)
    ensures forall id :: FindConnById(DestroySession(st, Some(c)).0, id) != Some(c)
  {
  }

  /** Under the invariant, the context of the connection registered under
      `id` reads back exactly `id`. */
  lemma RegisteredContextId(st: State, id: Id)
    requires Inv(st) && id in st.registry
    ensures GetSessionId(st, GetSession(st, Some(st.registry[id]))) == id
  {
  }

  /** Saving a connection's own session back into it changes nothing. */
  lemma SaveOwnSessionIsNoop(st: State, c: Conn, sess: SessionRef)
    requires sess in st.ids
    requires GetSession(st, Some(c)) == Some(sess)
    ensures SaveSession(st, Some(c), sess).0 == st
  {
  }

  /** After saving `sess` into a non-nil `c`, reading the context back gives
      `sess` and its id is the one SaveSession returned. */
  lemma SaveThenGet(st: State, c: Conn, sess: SessionRef)
    requires sess in st.ids
    ensures var (st', id) := SaveSession(st, Some(c), sess);
      GetSession(st', Some(c)) == Some(sess) && GetSessionId(st', Some(sess)) == id
  {
  }

  /** A second DestroySession on the same connection reports false and
      changes nothing. */
  lemma DestroyTwice(st: State, c: Option<Conn>)
    requires Valid(st)
    ensures var st' := DestroySession(st, c).0;
      DestroySession(st', c) == (st', false)
  {
  }

  /** Bind followed by Destroy on the same connection: the id is no longer
      found, the context is cleared and Destroy reports true. */
  lemma BindThenDestroy(st: State, c: Conn, sess: SessionRef)
    requires Valid(st) && sess in st.ids && st.ids[sess] != ""
    ensures var (bound, _) := BindSession(st, Some(c), sess);
      var (destroyed, found) := DestroySession(bound, Some(c));
      && found
      && FindConnById(destroyed, st.ids[sess]).None?
      && GetSession(destroyed, Some(c)).None?
  {
  }
}
