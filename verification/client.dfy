/** The client half of evio's session protocol: the `Session` type and the
    lifecycle operations written in the package's documentation example
    (NewSession, CreateSession, LoadSession, ReloadSession, WakeupConn),
    composed from the library functions of `Sessions`.

    Two of these, as written, fall short of the intended behaviour:
    ReloadSession breaks the registry's invariant and CreateSession registers
    nothing. Each comes with a lemma exhibiting the gap and a corrected
    version (`ReloadSessionFixed`, `CreateSessionFixed`) with the intended
    property proved. */
module Client {
  import opened Wrappers
  import opened Sessions

  /** Session.SetId: overwrite the id of the session object `sess`, as seen by
      every connection whose context is `sess`. */
  function SetId(st: State, sess: SessionRef, id: Id): (r: State)
    requires sess in st.ids
    ensures r.ids.Keys == st.ids.Keys
    ensures GetSessionId(r, Some(sess)) == id
    ensures forall s | s in st.ids && s != sess :: r.ids[s] == st.ids[s]
    ensures r.registry == st.registry && r.context == st.context
    ensures r.wakes == st.wakes && r.nextAddr == st.nextAddr
  {
    st.(ids := st.ids[sess := id])
  }

  /** Renaming a session keeps the invariant when its current id is not
      registered: then no registry entry leads to a connection holding it. */
  lemma SetIdPreservesInv(st: State, sess: SessionRef, id: Id)
    requires Inv(st) && sess in st.ids
    requires st.ids[sess] !in st.registry
    ensures Inv(SetId(st, sess, id))
  {
  }

  /** NewSession: a freshly allocated session. Its `uid` is never set (only
      the unrelated `SessId` field receives a generated value), so its id is
      empty. */
  function NewSession(st: State): (r: (State, SessionRef))
    requires Valid(st)
    ensures r.1 !in st.ids
    ensures r.0.ids == st.ids[r.1 := ""]
    ensures r.0.registry == st.registry && r.0.context == st.context && r.0.wakes == st.wakes
    ensures Valid(r.0)
    ensures Inv(st) ==> Inv(r.0)
  {
    var sess := SessionRef(st.nextAddr);
    (st.(ids := st.ids[sess := ""], nextAddr := st.nextAddr + 1), sess)
  }

  /** CreateSession as written: bind a new session to `c`. Because the new
      session's id is empty, `c` loses its old id and gains none. */
  function CreateSession(st: State, c: Option<Conn>): (r: (State, SessionRef))
    requires Valid(st)
    ensures r.1 !in st.ids && r.1 in r.0.ids && r.0.ids[r.1] == ""
    ensures r.0.registry.Keys <= st.registry.Keys
    ensures c.Some? ==> GetSession(r.0, c) == Some(r.1)
    ensures Valid(r.0)
    ensures Inv(st) ==> Inv(r.0)
  {
    var (st1, sess) := NewSession(st);
    var (st2, _) := BindSession(st1, c, sess);
    (st2, sess)
  }

  /** After CreateSession as written, no id whatsoever finds the connection:
      the connection cannot be woken by id. */
  lemma CreateSessionIsNotFindable(st: State, c: Conn, id: Id)
    requires Inv(st)
    ensures FindConnById(CreateSession(st, Some(c)).0, id) != Some(c)
  {
  }

  /** CreateSession with the evidently intended NewSession: the session's id
      is the freshly generated `guid` (the generator is outside the model). */
  function CreateSessionFixed(st: State, c: Option<Conn>, guid: Id): (r: (State, SessionRef))
    requires Valid(st)
    ensures r.1 !in st.ids && r.1 in r.0.ids && r.0.ids[r.1] == guid
    ensures c.Some? ==> GetSession(r.0, c) == Some(r.1)
    ensures c.Some? && guid != "" ==> FindConnById(r.0, guid) == c
    ensures Valid(r.0)
    ensures Inv(st) ==> Inv(r.0)
  {
    var (st1, sess) := NewSession(st);
    var st2 := SetId(st1, sess, guid);
    assert Inv(st) ==> Inv(st2) by {
      if Inv(st) { SetIdPreservesInv(st1, sess, guid); }
    }
    var (st3, _) := BindSession(st2, c, sess);
    (st3, sess)
  }

  /** LoadSession: the session attached to `c` and its id, or (nil, ""). */
  function LoadSession(st: State, c: Option<Conn>): (r: (Option<SessionRef>, Id))
    requires Valid(st)
    ensures r.0.None? ==> r.1 == ""
    ensures r.0.Some? ==> r.0.value in st.ids && r.1 == st.ids[r.0.value]
    ensures c.None? ==> r == (None, "")
    ensures r.0 == GetSession(st, c)
  {
    var cxt := GetSession(st, c);
    if cxt.Some? then (cxt, GetSessionId(st, cxt)) else (None, "")
  }

  /** Binding a session to a connection and loading it back returns that
      session with its id. */
  lemma BindThenLoad(st: State, c: Conn, sess: SessionRef)
    requires Valid(st) && sess in st.ids
    ensures LoadSession(BindSession(st, Some(c), sess).0, Some(c)) == (Some(sess), st.ids[sess])
  {
  }

  /** ReloadSession as written: load the current session (or make a new one)
      and, when the id differs from `newid`, rename the session in place and
      rebind it. Returns the id loaded before any change. */
  function ReloadSession(st: State, c: Option<Conn>, newid: Id): (r: (State, SessionRef, Id))
    requires Valid(st)
    ensures r.2 == LoadSession(st, c).1
    ensures GetSession(st, c).Some? ==> r.1 == GetSession(st, c).value
    ensures GetSession(st, c).None? ==> r.1 !in st.ids && r.2 == ""
    ensures r.2 == newid ==> r.0.registry == st.registry && r.0.context == st.context
    ensures r.2 != newid ==> r.1 in r.0.ids && r.0.ids[r.1] == newid
    ensures c.Some? && r.2 != newid ==> GetSession(r.0, c) == Some(r.1)
    ensures c.Some? && newid != "" && r.2 != newid ==> FindConnById(r.0, newid) == c
    ensures Valid(r.0)
  {
    var (cur, oldid) := LoadSession(st, c);
    var (st1, sess) := if cur.None? then NewSession(st) else (st, cur.value);
    if oldid != newid then
      var st2 := SetId(st1, sess, newid);
      var (st3, _) := BindSession(st2, c, sess);
      (st3, sess, oldid)
    else
      (st1, sess, oldid)
  }

  /** ReloadSession as written renames the session before BindSession reads
      its "old" id, so BindSession drops `newid` instead: the previous id stays
      registered to the connection, which now carries a different id. */
  lemma ReloadLeavesStaleId(st: State, c: Conn, newid: Id)
    requires Inv(st)
    requires ContextId(st, c) != "" && ContextId(st, c) != newid
    requires FindConnById(st, ContextId(st, c)) == Some(c)
    ensures var (st', _, oldid) := ReloadSession(st, Some(c), newid);
      oldid == ContextId(st, c) && FindConnById(st', oldid) == Some(c) && !Inv(st')
  {
  }

  /** ReloadSession with the old id dropped first: DestroySession runs before
      the in-place rename, so BindSession then moves the registry entry from
      the old id to `newid`. */
  function ReloadSessionFixed(st: State, c: Option<Conn>, newid: Id): (r: (State, SessionRef, Id))
    requires Valid(st)
    ensures r.2 == LoadSession(st, c).1
    ensures GetSession(st, c).Some? ==> r.1 == GetSession(st, c).value
    ensures GetSession(st, c).None? ==> r.1 !in st.ids && r.2 == ""
    ensures r.2 == newid ==> r.0.registry == st.registry && r.0.context == st.context
    ensures r.2 != newid ==> r.1 in r.0.ids && r.0.ids[r.1] == newid
    ensures c.Some? && r.2 != newid ==> GetSession(r.0, c) == Some(r.1)
    ensures c.Some? && newid != "" && r.2 != newid ==> FindConnById(r.0, newid) == c
    ensures Inv(st) && r.2 != newid ==> FindConnById(r.0, r.2).None?
    ensures Valid(r.0)
    ensures Inv(st) ==> Inv(r.0)
  {
    var (cur, oldid) := LoadSession(st, c);
    var (st1, sess) := if cur.None? then NewSession(st) else (st, cur.value);
    if oldid != newid then
      var (st2, _) := DestroySession(st1, c);
      assert Inv(st) ==> Inv(st2) && st2.ids[sess] !in st2.registry;
      var st3 := SetId(st2, sess, newid);
      assert Inv(st) ==> Inv(st3) by {
        if Inv(st) { SetIdPreservesInv(st2, sess, newid); }
      }
      var (st4, _) := BindSession(st3, c, sess);
      (st4, sess, oldid)
    else
      (st1, sess, oldid)
  }

  /** The only error WakeupConn reports: no connection is registered under the id. */
  datatype WakeError = ConnClosed(id: Id) {
    function Message(): string {
      "Connection " + id + " is closed"
    }
  }

  /** The error message names the id it was raised for. */
  lemma MessageNamesId(id: Id)
    ensures var m := ConnClosed(id).Message();
      |m| == |id| + 21 && m[11..11 + |id|] == id
  {
  }

  /** WakeupConn: find the connection of `uid`, save its session back into it
      and wake it once; an unregistered id is an error naming the id. The
      session must be attached, since saving a nil session dereferences it. */
  function WakeupConn(st: State, uid: Id): (r: Result<State, WakeError>)
    requires Valid(st)
    requires uid in st.registry ==> st.registry[uid] in st.context
    ensures r.Failure? <==> uid !in st.registry
    ensures r.Failure? ==> r.error == ConnClosed(uid)
    ensures r.Success? ==>
      && var c := st.registry[uid];
      && WakeCount(r.value, c) == WakeCount(st, c) + 1
      && (forall c' | c' != c :: WakeCount(r.value, c') == WakeCount(st, c'))
      && GetSession(r.value, Some(c)) == GetSession(st, Some(c))
      && r.value.registry == st.registry && r.value.context == st.context
      && r.value.ids == st.ids && r.value.nextAddr == st.nextAddr
    ensures r.Success? ==> Valid(r.value)
    ensures r.Success? && Inv(st) ==> Inv(r.value)
  {
    var c := FindConnById(st, uid);
    if c.None? then Failure(ConnClosed(uid))
    else
      var (sess, _) := LoadSession(st, c);
      SaveOwnSessionIsNoop(st, c.value, sess.value);
      var (saved, _) := SaveSession(st, c, sess.value);
      Success(Wake(saved, c.value))
  }
}
