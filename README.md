# HumanGPT session relay, modelled in Dafny

HumanGPT relays question/answer sessions between people. An asker opens a
session; messages are appended to it; a viewer that opens a WebSocket on a
session first gets the whole history ("catch-up") and afterwards receives
each new message on its own. This project models the relay's core in Dafny:

- `data.dfy` (module `Data`): the `Message`, `Session` and `QuestionStatus`
  records, the pydantic construction of a `Session` from keyword arguments
  (required `title` and `uuid`, defaults for the stamps and the content), the
  class-definition-time defaults and the `YYYY-MM-DD` date string.
- `service.dfy` (module `Service`): the in-memory store as a class
  `SessionStore` holding `storage: map<string, Session>` and the dict's
  insertion order, with `get_only`, `get_sessions`, `get_or_create` and
  `write_session`.
- `server.dfy` (module `Server`): `submit` (get-or-create, append, upsert),
  and the literal meaning of its `+=` statement.
- `sockets.dfy` (module `Sockets`): `SessionSocketManager` with its `active`
  table as an insertion-ordered list of (session uuid, socket) pairs with
  unique keys, `connect`, `disconnect`, `update_session`, and
  `catch_up_socket`; an `Outbox` records each `accept` and each `send_json`
  batch.
- `gpt_server.dfy` (module `GptServer`): the later revision's schema (owner
  id, update stamp, per-message author id), the unanswered-sessions listing
  (filter then stable sort), `create_session`, and the `ws_session` handler
  as a sequence of collaborator calls driven by what `receive_json` delivers.
- `wrappers.dfy` (module `Wrappers`): `Option`, `Result`, `Outcome`.

Behaviour of the code as written that the model keeps:

- Sockets are keyed by session id only. A second viewer connecting to the same
  session replaces the first (`Sockets.SecondViewerReplacesFirst`), so the
  first viewer no longer receives that session's messages. Fan-out matches
  keys by string equality, never by prefix.
- `get_or_create(None)` (and `get_or_create("")`) builds `Session(uuid=...)`
  without the required `title`, so pydantic rejects it: the create path never
  yields a session and never stores one, and `submit` without a uuid always
  fails.
- `submit` does not call `update_session`; no shown file does. Incremental
  delivery (`[m]`) and full-history catch-up are modelled as the two
  operations they are.
- `catch_up_socket` calls `get_session`, which the shown `service.py` does not
  define; the model reads it as the store's point lookup (`get_only`), which
  raises KeyError for an unknown session.
- The unanswered listing decides by authorship: a session is listed when its
  last message was written by its owner, whatever that message's
  `is_answer` flag says.
- No shown code maintains an update stamp on append; `updated_timestamp` is a
  field the listing reads.

## Model

| member | source | states |
|---|---|---|
| `Data.BuildSession` | backend/src/data.py:14-19 | building a Session fails with a validation error naming `title` and/or `uuid` exactly when either is omitted; an omitted content is the empty list; omitted stamps are the class defaults; explicitly passed stamps and content are kept |
| `Data.DefaultStampsShared` | backend/src/data.py:16-17 | any two sessions built without explicit stamps carry identical creation stamps and start with empty content |
| `Data.ClassDefaults` | backend/src/data.py:16-17 | the default `created_at` has the `YYYY-MM-DD` shape and reads back as the date of the clock reading taken at class definition; the default `created_timestamp` is its own clock reading |
| `Data.DateStringRoundTrip` | backend/src/data.py:16 | `Data.StrftimeDate`, the model of `strftime("%Y-%m-%d")`: its output for a valid datetime has the `YYYY-MM-DD` shape and parses back to the same year, month and day |
| `Data.MessageFieldsRoundTrip` | backend/src/data.py:9-12 | a message is exactly its `name`, `content` and `is_answer` fields: validating its field pairs gives it back, and no other field name occurs |
| `Service.WriteKeepsIndex` | backend/src/service.py:24 | an upsert keeps the insertion-ordered key list an exact, duplicate-free index of the dictionary |
| `Service.UpsertTwice` | backend/src/service.py:24 | two writes of the same uuid leave exactly one entry for it, holding the later session, at the position of the first insertion |
| `Service.SessionStore.constructor` | backend/src/service.py:6 | the store starts empty, and the `Session` defaults it builds with are those of `Data.ClassDefaults` for the import-time clock readings (a `YYYY-MM-DD` creation date) |
| `Service.SessionStore.GetOnly` | backend/src/service.py:8-9 | returns the session stored under the key, KeyError when there is none; the store is not modified |
| `Service.SessionStore.GetSessions` | backend/src/service.py:11-15 | returns one session per stored key, in insertion order: length equals the number of keys, every stored session occurs, and every element is stored under its own uuid |
| `Service.SessionStore.GetOrCreate` | backend/src/service.py:17-21 | a non-empty uuid yields the stored session or KeyError; `None` or `""` yields the validation error for the missing title; the store is never modified |
| `Service.SessionStore.WriteSession` | backend/src/service.py:23-25 | afterwards the session is stored under its uuid, every other key is unchanged, the key order is a dict's, and the session itself is returned |
| `Server.InPlaceAddExtendsWithFields` | backend/src/server.py:11 | `Server.ExtendWithModel`, the literal `+=`, grows the content by three (field, value) pairs and never adds the message, while the intended append grows it by one message |
| `Server.Submit` | backend/src/server.py:8-12 | succeeds exactly for a non-empty stored uuid; then the stored entry is the session with the one new message appended and earlier messages unchanged, and no other key changes; a failure (KeyError or the create path's validation error) writes nothing |
| `Sockets.AssignSpec` | backend/src/sockets.py:15-17 | after `active[k] = ws` the key maps to `ws`, every other key maps to what it did, keys keep dict order and stay unique (last connect wins) |
| `Sockets.RemoveFirstSpec` | backend/src/sockets.py:19-23 | disconnect removes exactly the first entry holding the socket when there is one, leaves the table unchanged when there is none, and keeps keys unique |
| `Sockets.DisconnectTwice` | backend/src/sockets.py:19-23 | for a socket held by at most one entry, a second disconnect changes nothing |
| `Sockets.FanOutTargets` | backend/src/sockets.py:25-29 | every send of `update_session(k, m)` is the batch `[m]` to a socket registered under a key equal to `k`, one send per such entry |
| `Sockets.FanOutUnique` | backend/src/sockets.py:25-29 | with unique keys, `update_session(k, m)` sends `[m]` once to the socket under `k`, or nothing when `k` is absent |
| `Sockets.SecondViewerReplacesFirst` | backend/src/sockets.py:15-17 | a second connect under the same session id evicts the first socket: the session's next message reaches only the second |
| `Sockets.NoPrefixCrosstalk` | backend/src/sockets.py:27 | with sockets under "s1" and "s12", traffic for each key reaches only its own socket |
| `Sockets.SessionSocketManager.constructor` | backend/src/sockets.py:12-13 | the table starts empty |
| `Sockets.SessionSocketManager.Connect` | backend/src/sockets.py:15-17 | the socket is accepted, then filed under the session uuid replacing any previous socket; other keys are untouched |
| `Sockets.SessionSocketManager.Disconnect` | backend/src/sockets.py:19-23 | the new table is the old one with the first entry holding the socket removed |
| `Sockets.SessionSocketManager.UpdateSession` | backend/src/sockets.py:25-29 | the sends appended to the outbox are exactly the fan-out over the table, which is left unchanged |
| `Sockets.CatchUpSocket` | backend/src/sockets.py:6-8 | for a stored session, exactly one batch holding its whole content in stored order is sent; an unknown session fails with KeyError and sends nothing |
| `GptServer.SortSpec` | backend/src/gpt_server.py:29-31 | the listing's sort orders by update stamp ascending, is a permutation, and keeps the listing order among equal stamps |
| `GptServer.CandidatesSpec` | backend/src/gpt_server.py:30 | the comprehension keeps exactly the DTOs of sessions that are not the answerer's, are non-empty, and whose last message is the owner's |
| `GptServer.CandidatesOnce` | backend/src/gpt_server.py:29-30 | with distinct uuids, each qualifying session appears exactly once among the kept DTOs |
| `GptServer.UnansweredListing` | backend/src/gpt_server.py:26-32 | `GptServer.AllUnansweredSessions`, the model of the endpoint's filter-then-sort: its result is sound, complete, exactly-once for distinct uuids, sorted oldest first and stable |
| `GptServer.LastAuthorDecides` | backend/src/gpt_server.py:30 | a last message by someone other than the owner removes the session from every listing; an owner's last message lists it for everyone but the owner, regardless of `is_answer` |
| `GptServer.CreateSession` | backend/src/gpt_server.py:46-48 | the new session carries the fresh uuid, the current stamp, the given title and owner and no messages; it is stored under that uuid, so the returned DTO (its projection) fetches it; no other entry changes |
| `GptServer.WsSession` | backend/src/gpt_server.py:51-71 | the calls made are connect, catch-up, a disconnect if catch-up failed, then the receive loop's appends and final disconnect; the exit is the loop's |
| `GptServer.LoopSpec` | backend/src/gpt_server.py:65-71 | the loop appends the leading valid frames' messages in arrival order to the handler's session as its user, then disconnects on a peer close, or stops without disconnecting on a frame that fails validation |
| `GptServer.HandlerOrdering` | backend/src/gpt_server.py:55-71 | the socket is registered when catch-up runs; after a failed catch-up it is unregistered but the loop runs exactly as after a successful one; after a peer close it is unregistered |
| `GptServer.CrashLeavesSocketRegistered` | backend/src/gpt_server.py:65-71 | a frame that fails validation after a successful catch-up ends the handler with the socket still registered |
| `GptServer.TolerantLoopNeverStale` | backend/src/gpt_server.py:65-71 | with invalid frames dropped, a peer close always leaves the socket unregistered and every earlier call is an append |

## Left out

- Async scheduling and concurrency between socket tasks: every operation is atomic and sequential.
- WebSocket transport: `accept` and `send_json` are recorded in `Sockets.Outbox`; a batch is the list of messages, not their JSON dumps (`model_dump_json` is taken as an exact encoding). A send that fails on a closed socket is not modelled.
- `receive_json` and `Message.model_validate` in `ws_session` are one opaque step per frame that yields a message or fails. A JSON decoding error counts as a failed frame.
- `uuid4()` and `datetime.now()` are parameters (`freshId`, the clock readings, `now`).
- `gpt_service` is not part of this model. `GptServer.CreateSession` works on a map value standing for its store, and `get_or_create_session(None, ...)` is taken to build an empty session under the fresh uuid. `append_to_session` and the catch-up in `ws_session` are recorded calls. The catch-up outcome is the boolean parameter `caughtUp`.
- `GptServer.Registered`: the registry the handler talks to is abstract. A socket counts as registered between its connect and its next disconnect, because this revision's three-argument `connect` is not shown.
- `GptServer.WsSession`: an exception raised by `append_to_session` or by catch-up itself is not modelled.
- The other endpoints of `gpt_server.py` (`session_endpoint`, `all_sessions`, `guest`, `get_user_endpoint`) only forward to `gpt_service`. They are left out with it.
- FastAPI app construction, CORS middleware and route decorators, `settings.py` (environment and MongoDB client) and the frontend client wrappers: no logic.
- `Server.Submit`: the Python code mutates the stored session object in place before writing it back. The model works on values; the resulting store is the same.
- `Data.StrftimeDate`: years below 1000 are zero-padded to four digits. Some platforms' `strftime` does not pad them.
- `Data.QuestionStatus` is a record with no behaviour.

## Findings

| source | as written | input that shows it | evidently intended | confidence | as-written member | corrected member |
|---|---|---|---|---|---|---|
| backend/src/server.py:11 | `session.content += Message(...)` extends the list with the model's three (field, value) pairs | any submit to a stored session: content `[]` becomes `[("name", source), ("content", msg), ("is_answer", flag)]` | append the one message at the end, as the comment says | high; not executed | `Server.InPlaceAddExtendsWithFields` | `Server.Submit` |
| backend/src/gpt_server.py:65-71 | only `WebSocketDisconnect` is caught, so a frame that fails `Message.model_validate` raises out of the handler and the socket stays in the registry | catch-up succeeds, then one malformed frame arrives | reject that frame and keep receiving, so that the handler always ends by disconnecting its socket | medium; not executed | `GptServer.CrashLeavesSocketRegistered` | `GptServer.TolerantLoopNeverStale` |
