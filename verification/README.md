# evio session registry — a Dafny model

This project models the session registry of evio (`evio_sess.go`). The registry is a process-wide map from session id to connection. Six library functions keep it in step with each connection's context slot:

- `FindConnById`
- `GetSession`
- `GetSessionId`
- `SaveSession`
- `BindSession`
- `DestroySession`

The file's documentation comment has example client code that builds lifecycle operations out of these functions: `NewSession`, `CreateSession`, `LoadSession`, `ReloadSession` and `WakeupConn`. The project models those operations too.

The whole process state is one immutable `State` record. Every operation is a pure function from a state to a new state, plus its Go return values. The record holds:

- `registry`: the `sync.Map`, keyed by session id.
- `context`: each connection's context. A missing key means a nil context.
- `ids`: the `uid` of every allocated session object.
- `wakes`: how often `Wake` was called on each connection.
- `nextAddr`: the allocator for new session objects.

Sessions are shared Go objects that callers mutate in place, so the model names them by address (`SessionRef`). A possibly-nil `Conn` is an `Option<Conn>`.

The intended invariant is `Sessions.Inv`. It says that whenever `registry[id] == c`, the context of `c` is a session whose id is `id`, and that the empty id is never registered.

Modules:
- `Wrappers`: `Option` and `Result`.
- `Sessions`: the state, the library functions (`evio_sess.go:113-193`), `Conn.Wake`, and lemmas about them.
- `Client`: the `Session` type's `SetId` and the documentation-example operations (`evio_sess.go:19-85`), including the corrected versions described under Findings.
- `Lifecycle`: sequences of client calls (the create as written, plus the corrected create and reload), showing that the invariant survives any of them and that a closed connection is never found again until it is rebound. It also checks the end-to-end resume scenario on the corrected create and reload.

The model follows the code as written. Two places where it falls short of the intended behaviour are listed under Findings:

- `ReloadSession` keeps the old id registered.
- A new session has an empty id. The example's `WakeupConn` calls `GetSessAndId`, which is defined nowhere. The model reads it as `LoadSession`, the only function with that shape.

## Model

| member | source | states |
|---|---|---|
| Sessions.Wake | evio_sess.go:83 | A wake adds exactly one to the wake count of that connection and changes no other count, nor the registry or any context |
| Sessions.FindConnById | evio_sess.go:127-132 | Under the invariant, a connection found for `id` has a context whose session id is `id` |
| Sessions.GetSession | evio_sess.go:135-140 | A nil connection has no session; a context found is always an allocated session |
| Sessions.GetSessionId | evio_sess.go:143-151 | A nil context has the empty id |
| Sessions.RegisteredContextId | evio_sess.go:127-151 | Under the invariant, the context of the connection registered under an id reads back exactly that id |
| Sessions.SaveSession | evio_sess.go:154-163 | Always returns the session's id and never touches the registry. With a connection, that connection's context becomes the session. With nil and a registered non-empty id, the registered connection's context becomes the session. With nil and an empty or unregistered id, nothing changes |
| Sessions.BindSession | evio_sess.go:166-179 | Nil conn: false, nothing changes. Otherwise `c`'s context becomes `sess` and no other context changes. The previous non-empty id of `c` is no longer found, whichever connection it mapped to. The new id, if non-empty, now finds `c` (last writer wins). No other id's lookup changes. The result is true exactly when `c` is non-nil and the id is non-empty. An empty id registers nothing. The invariant is preserved |
| Sessions.DestroySession | evio_sess.go:182-193 | No context: false, nothing changes. Otherwise only `c`'s context is cleared. The result is true exactly when the context's id was non-empty, and in that case exactly that id leaves the registry. The invariant is preserved |
| Sessions.DestroyUnregisters | evio_sess.go:182-193 | Under the invariant, after DestroySession no id finds the connection |
| Sessions.SaveOwnSessionIsNoop | evio_sess.go:154-163 | Saving a connection's own session back into it leaves the state unchanged |
| Sessions.SaveThenGet | evio_sess.go:135-163 | After saving into a connection, GetSession returns that session and GetSessionId the id SaveSession returned |
| Sessions.DestroyTwice | evio_sess.go:182-193 | A second DestroySession on the same connection returns false and changes nothing |
| Sessions.BindThenDestroy | evio_sess.go:166-193 | Binding a session with a non-empty id and then destroying: true, the id is no longer found, the context is cleared |
| Client.SetId | evio_sess.go:29-31 | After renaming, the session reads back the new id; every other session keeps its id |
| Client.SetIdPreservesInv | evio_sess.go:29-31 | Renaming a session whose current id is unregistered keeps the invariant |
| Client.NewSession | evio_sess.go:43-45 | The new session is a fresh object with an empty id; registry and contexts unchanged |
| Client.CreateSession | evio_sess.go:47-51 | The new session becomes the connection's context; its id is empty and no id is added to the registry |
| Client.CreateSessionIsNotFindable | evio_sess.go:25-51 | Under the invariant, after CreateSession as written no id finds the connection |
| Client.CreateSessionFixed | evio_sess.go:42-51 | With the generated id given to the session, the session becomes the context and, for a non-empty id, that id finds the connection; the invariant is preserved |
| Client.LoadSession | evio_sess.go:53-59 | Nil conn or no context gives (nil, ""); otherwise the id is the loaded session's id |
| Client.BindThenLoad | evio_sess.go:53-59 | Loading after BindSession returns the bound session and its id |
| Client.ReloadSession | evio_sess.go:61-71 | Returns the id loaded before any change ("" with no context) and reuses the attached session object. Equal ids: registry and contexts untouched. Otherwise the session is renamed, stays the context, and `newid` finds the connection |
| Client.ReloadLeavesStaleId | evio_sess.go:61-71 | As written, when the connection was registered under its old id, the old id still finds it after the reload and the invariant is broken |
| Client.ReloadSessionFixed | evio_sess.go:61-71 | Same return and no-op case as ReloadSession. After a change, under the invariant the old id is no longer found, `newid` finds the connection, and the invariant is preserved |
| Client.MessageNamesId | evio_sess.go:76 | The error message contains the id at the fixed position after "Connection " |
| Client.WakeupConn | evio_sess.go:73-85 | Fails exactly when the id is unregistered, with an error naming the id and no state change. Otherwise the registered connection is woken exactly once, other counts are untouched, and its session, the registry and all contexts are unchanged; the invariant is preserved |
| Lifecycle.Step | evio_sess.go:47-85 | One call keeps the invariant, where a call is CreateSession as written, the corrected create and reload (`CreateSessionFixed`, `ReloadSessionFixed`), WakeupConn or DestroySession; only the connection it binds can gain a registry entry. ReloadSession as written is not a call, since it breaks the invariant |
| Lifecycle.Run | evio_sess.go:166-193 | Any sequence of those calls, with the corrected create and reload, keeps the invariant |
| Lifecycle.StaysUnfindable | evio_sess.go:166-193 | A connection no id finds stays unfindable through any sequence of those calls (with the corrected create and reload) that does not bind to it |
| Lifecycle.ClosedStaysUnfindable | evio_sess.go:182-193 | After DestroySession, no id finds the connection through any sequence of those calls (with the corrected create and reload) until one binds a session to it again |
| Lifecycle.RunKeepsLookupsConsistent | evio_sess.go:127-193 | From a fresh process, after any sequence of those calls (with the corrected create and reload) the empty id is never found and a found connection carries the looked-up id |
| Lifecycle.Scenario | evio_sess.go:47-85 | With the corrected create and reload (`CreateSessionFixed`, `ReloadSessionFixed`): open as "S1", resume as "S2", wake "S2", close. "S1" is found, then only "S2"; the reload returns "S1"; the wake succeeds once; after closing, "S2" is gone and the context cleared |
| Lifecycle.ScenarioAsWritten | evio_sess.go:47-71 | With CreateSession and ReloadSession as written: the open registers nothing, the first reload returns "", and afterwards "S2" finds the connection while "S1" never does |

## Left out

- Concurrency of the `sync.Map`, and interleavings of the multi-step bind and destroy. Every registry operation is a sequential map update.
- `RandomGUID`. It depends on the clock, `math/rand` and ulid. Ids are opaque strings, and `CreateSessionFixed` takes the generated id as a parameter.
- The event-loop wiring in the example `main` (`Opened`, `Data`, `Closed`). `Lifecycle.Run` replays client calls in any order instead.
- The asynchronous effect of `Conn.Wake`. It is a per-connection counter.
- `Conn` internals beyond its context slot and `Wake`. They are not part of this model.
- The session's `SessId` field and its application payload ("store other data for send"). Only the `uid` that `GetId` reads is modelled.
- Sessions.GetSessionId: a context that is not an `ISession`, or a typed nil `*Session`, panics on the type assertion in the code. Contexts are `Option<SessionRef>`, so these cases cannot be expressed, and the model does not claim they return "".
- Sessions.SaveSession: a nil session panics on `GetId` in the code. Every session argument must be an allocated session (`sess in st.ids`).
- Client.LoadSession: the `*Session` type assertion is not modelled, because every session has the one `Session` type.
- Client.WakeupConn: a registered connection with a nil context would pass a nil `*Session` to `SaveSession` and panic. The model requires a context for a registered connection, which the invariant guarantees.
- Client.WakeupConn: `GetSessAndId` is undefined in the example; it is read as `LoadSession`.

## Findings

| source | as written | input that shows it | evidently intended | confidence | as-written member | corrected member |
|---|---|---|---|---|---|---|
| evio_sess.go:61-71 | `ReloadSession` renames the attached session in place before `BindSession`, so `BindSession` reads the new id as the connection's old one and deletes that. The old id stays registered to the connection, whose session now has a different id | a connection registered and attached under "S1", then `ReloadSession(c, "S2")` | the old id is no longer found; only "S2" finds the connection | high, not executed | Client.ReloadLeavesStaleId | Client.ReloadSessionFixed |
| evio_sess.go:25-51 | `NewSession` sets `SessId` to a generated id, but `GetId` reads `uid`, which stays empty. `CreateSession` therefore binds a session with an empty id, and no id ever finds the new connection | any connection passed to `CreateSession` | the new session carries the generated id and is registered under it, so an opened connection can be found by id before its first reload. Counter-evidence: the comment "Create empty session" (line 42) and the "first time" branch of the example `main` (lines 99-102) suggest an anonymous session on open may be deliberate, with the client's id arriving through `ReloadSession` | low, not executed | Client.CreateSessionIsNotFindable | Client.CreateSessionFixed |

`ReloadSessionFixed` calls `DestroySession` on the connection before the rename, which drops the old id through the library's own API. `CreateSessionFixed` gives the new session the generated id. `Lifecycle` uses both corrected versions.
