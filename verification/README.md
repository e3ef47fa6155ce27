# Collaborative datastore server — a Dafny model

This project models the server side of JupyterLab's collaborative datastore
(`jupyterlab/datastore`). Each client connects over a websocket served by a
`CollaborationHandler`. The handler joins the client to the `Collaboration`
registered under an id, or creates and registers that collaboration. The
handler then relays the client's transactions to the others and tracks the
serials each client has acknowledged.

The model follows the Python code. The wider design of the system centres on
the client-side replicated document, which is not part of this model.

Modules:

- `Wire` (`wire.dfy`): decoded messages, the replies the server writes,
  websocket frames and the Python exceptions the code can raise (`Status`).
- `Extrema` (`extrema.dfy`): Python's `min` and `max` over finite collections
  of integers, and a loop computing `max(d.values())`.
- `Ingest` (`ingest.dfy`): the pure parts of transaction ingest.
  - `filter_duplicates`.
  - The rule that a connection's transaction serials are contiguous, and the
    loop that enforces it.
- `Datastore` (`datastore.dfy`):
  - class `Collaboration`: handler set, serial map with its `-1` default,
    stable watermark, `last_serial`, dangling table;
  - class `Registry`: the `collaborations` dict shared by every handler;
  - class `Handler`: `initialize`, `open`, `cleanup_closed`, `on_close` and
    `on_message`.
- `Findings` (`findings.dfy`): a reachable scenario where `cleanup_closed`
  unregisters a collaboration that is not its own.

How the outside world is represented:

- Writing to a client appends a frame to that handler's `outbox`.
- The database behind a collaboration is reduced to two things: whether it is
  open, and which transactions were handed to `add_transactions`. Its answers
  arrive as a `DbReplies` parameter.
- The authenticator is a parameter `auth: Action -> bool`.
- The IOLoop clock and timer handles are parameters (`now`, `token`).
- The uuid that `open` generates is the parameter `freshId`.

## Model

| member | source | states |
|---|---|---|
| Extrema.MinOf | jupyterlab/datastore/collaboration.py:80-84 | `min` of a non-empty set is an element of it and at most every element |
| Extrema.MaxOf | jupyterlab/datastore/collaboration.py:53 | `max` of a non-empty set is an element of it and at least every element |
| Extrema.MaxOfValues | jupyterlab/datastore/collaboration.py:53 | the value scan yields nothing exactly when the map is empty (where `max` raises `ValueError`), and otherwise the maximum of the values |
| Ingest.FilterDuplicates | jupyterlab/datastore/handler.py:21-24 | the output is no longer than the shorter input and holds only input transactions |
| Ingest.FilterDuplicatesSingle | jupyterlab/datastore/handler.py:21-24 | a transaction is kept exactly when its flag is false |
| Ingest.FilterDuplicatesAppend | jupyterlab/datastore/handler.py:21-24 | filtering distributes over concatenation, so the kept transactions stay in input order |
| Ingest.FilterDuplicatesTruncates | jupyterlab/datastore/handler.py:22 | as with `zip`, only the first `min(len(transactions), len(is_duplicate))` pairs matter |
| Ingest.FilterDuplicatesLength | jupyterlab/datastore/handler.py:21-24 | the output length is the number of false flags |
| Ingest.FilterDuplicatesNoneFlagged | jupyterlab/datastore/handler.py:21-24 | with no flag set, every transaction is kept in order |
| Ingest.AcceptedPrefix | jupyterlab/datastore/handler.py:200-207 | the ingest loop accepts at most the whole batch |
| Ingest.AcceptedPrefixIsFirstGap | jupyterlab/datastore/handler.py:200-207 | `n` transactions are accepted if and only if the first `n` carry counter+1, counter+2, ... and the next one (if any) breaks the sequence |
| Ingest.AcceptedAllIffContiguous | jupyterlab/datastore/handler.py:200-207 | the whole batch is accepted if and only if its serials are contiguous from counter+1 |
| Ingest.AcceptedPrefixAppend | jupyterlab/datastore/handler.py:200-207 | sending a contiguous batch in two messages moves the counter as sending it in one would |
| Ingest.CheckSerials | jupyterlab/datastore/handler.py:200-207 | the loop leaves the counter advanced past exactly the accepted prefix; it succeeds if and only if the batch is contiguous, and otherwise raises `ValueError` carrying the advanced counter |
| Datastore.Bump | jupyterlab/datastore/collaboration.py:79 | the handler's serial becomes the larger of the new serial and its old one (-1 when absent); the handler gets an entry; other entries are kept |
| Datastore.WithDefaults | jupyterlab/datastore/collaboration.py:80-84 | reading through the defaultdict adds the scanned handlers as keys and changes no value that is read |
| Datastore.StableOver | jupyterlab/datastore/collaboration.py:80-84 | the `min(...)` over the scanned handlers, reading absent entries as -1, is the serial of one of those handlers |
| Datastore.StableIsMinimum | jupyterlab/datastore/collaboration.py:80-84 | the stable point is at most every scanned handler's serial and equals one of them |
| Datastore.StableNeverFalls | jupyterlab/datastore/collaboration.py:79-84 | raising one handler's serial never lowers the stable point |
| Datastore.StableIgnoresDefaults | jupyterlab/datastore/collaboration.py:80-84 | the -1 entries the scan inserts leave the stable point unchanged |
| Datastore.Collaboration.constructor | jupyterlab/datastore/collaboration.py:19-30 | the friendly name falls back to the id when it is missing or empty; no serial, watermark -1, no handlers, no dangling handlers, no serials; the database is open and nothing has been added to it through this object yet |
| Datastore.Collaboration.HasClients | jupyterlab/datastore/collaboration.py:40-42 | `has_clients` is true exactly when at least one handler is connected |
| Datastore.Collaboration.IsDangling | jupyterlab/datastore/collaboration.py:72-73 | `is_dangling` is true exactly when the handler has an entry in the dangling table |
| Datastore.Collaboration.SerialsNeverDecrease | jupyterlab/datastore/collaboration.py:79 | after `update_serial(h, s)`, `h` reads `max(s, old)` and every other handler reads as before |
| Datastore.Collaboration.WatermarkMonotone | jupyterlab/datastore/collaboration.py:85-89 | the watermark never falls; it changes only to a stable point strictly above it, and it is announced only after such a change with more than one serial tracked |
| Datastore.Collaboration.AddClient | jupyterlab/datastore/collaboration.py:32-33 | the handler joins the set |
| Datastore.Collaboration.RemoveClient | jupyterlab/datastore/collaboration.py:35-42 | removes the handler and its serial entry; an absent handler raises `KeyError` and changes nothing; `has_clients` afterwards is false exactly when no other handler was connected |
| Datastore.Collaboration.Close | jupyterlab/datastore/collaboration.py:44-48 | closes the database, sends close code 1001 to every connected handler and leaves the set empty |
| Datastore.Collaboration.BroadcastMessage | jupyterlab/datastore/collaboration.py:56-60 | exactly the connected handlers that are not excluded and have their history initialised receive the message, once; all others receive nothing |
| Datastore.Collaboration.ScanStable | jupyterlab/datastore/collaboration.py:80-84 | the scan returns the minimum serial over the scanned handlers and leaves the map with their -1 defaults inserted |
| Datastore.Collaboration.RaiseSerial | jupyterlab/datastore/collaboration.py:79-84 | raises the serial; `min` raises exactly when no connected handler has its history initialised; otherwise it returns the stable point over those handlers |
| Datastore.Collaboration.AdvanceStable | jupyterlab/datastore/collaboration.py:85-89 | the watermark becomes the larger of itself and the stable point; the announcement reaches the initialised handlers only when the watermark moved and more than one serial is tracked |
| Datastore.Collaboration.UpdateSerial | jupyterlab/datastore/collaboration.py:75-89 | the serials and watermark become as `update_serial` defines them (see `SerialUpdated`), and each handler receives at most the stable-state announcement |
| Datastore.Collaboration.BroadcastTransactions | jupyterlab/datastore/collaboration.py:50-54 | every handler except the source receives the transactions (if history-initialised). An empty serial map then raises `ValueError` with nothing else changed. Otherwise `last_serial` becomes the largest central serial and the source's serial is updated to it |
| Datastore.Collaboration.AddTransactions | jupyterlab/datastore/handler.py:215 | the batch is recorded after the earlier batches handed to `add_transactions` through this collaboration; what the database then stores (duplicates included) is not modelled |
| Datastore.Collaboration.MarkDangling | jupyterlab/datastore/collaboration.py:62-65 | the handler is dangling with a timer due `timeout` after `now` |
| Datastore.Collaboration.ForgetDangling | jupyterlab/datastore/collaboration.py:67-73 | pops and returns the handler's timer; a handler that is not dangling raises `KeyError`; afterwards it is not dangling |
| Datastore.Registry.constructor | jupyterlab/datastore/handler.py:43 | the registry starts empty |
| Datastore.Registry.Listing | jupyterlab/datastore/handler.py:50-54 | exactly the registered ids the user may read, each listed as `{id, friendlyName}` of its collaboration |
| Datastore.IsCleanClose | jupyterlab/datastore/handler.py:147 | a close is clean exactly when a close code was received and it is 1000 or 1001 |
| Datastore.OpenId | jupyterlab/datastore/handler.py:112-115 | `open` uses the id from the URL when there is one, and otherwise the generated uuid |
| Datastore.Handler.constructor | jupyterlab/datastore/handler.py:94-107 | no collaboration or id; counter -1; history not sent; the store file defaults to `":memory:"` and the recovery timeout to 120 |
| Datastore.Handler.WriteMessage | jupyterlab/datastore/handler.py:219 | the reply is appended to this client's frames |
| Datastore.Handler.Open | jupyterlab/datastore/handler.py:109-124 | a known id reuses its collaboration; an unknown one gets a fresh collaboration with no clients, serials or dangling entries, registered under it; the handler joins it in both cases |
| Datastore.Handler.CleanupClosedAsWritten | jupyterlab/datastore/handler.py:129-143 | `cleanup_closed` as written. The handler stops dangling. A file-backed collaboration without clients is closed and dropped, and the registry entry under the id is deleted, whatever collaboration that entry now holds |
| Datastore.Handler.CleanupClosed | jupyterlab/datastore/handler.py:129-143 | as above, but the entry is deleted only while it still holds this handler's collaboration; every other registry entry survives |
| Datastore.Handler.OnClose | jupyterlab/datastore/handler.py:145-155 | the client always leaves (`KeyError` if it was not connected). Codes 1000/1001 clean up at once; any other code marks it dangling with a recovery timer. Other registry entries survive |
| Datastore.Handler.Publish | jupyterlab/datastore/handler.py:209-224 | an accepted batch goes to the database. The source gets the acknowledgement with the central serials. The other initialised clients get the non-duplicate transactions, then the serial update and announcement of `broadcast_transactions` |
| Datastore.Handler.IngestTransactions | jupyterlab/datastore/handler.py:199-224 | the counter advances over the accepted prefix. A gap raises `ValueError` and leaves the collaboration, the database and every client untouched; a contiguous batch is published |
| Datastore.Handler.ApplySerialUpdate | jupyterlab/datastore/handler.py:278-284 | a serial update runs `update_serial` for this handler, with its announcement |
| Datastore.Handler.Denied | jupyterlab/datastore/handler.py:160-163 | the permission error reply answers the message's `msgId`; it gives the write reason exactly when a write was refused, and otherwise the read reason naming this handler's collaboration id |
| Datastore.Handler.OnMessage | jupyterlab/datastore/handler.py:170-284 | without a collaboration the assertion fails. Otherwise, per message type: permission failures get an error reply and nothing else changes; malformed content is ignored; a `null` history-request content raises `AttributeError`; a history reply marks the client initialised; unknown types do nothing |
| Findings.CleanedUpWhileDangling | jupyterlab/datastore/handler.py:145-155 | two clients of "x" on a file store: after an unclean then a clean close, "x" is unregistered while the first client still dangles on it |
| Findings.ReachStaleTimer | jupyterlab/datastore/handler.py:109-124 | a third client reopening "x" then gets a new collaboration under the id the dangling client still names |
| Findings.StaleCleanupAsWritten | jupyterlab/datastore/handler.py:139-143 | when the stale timer fires, the cleanup as written unregisters "x" although the third client is still connected to it |
| Findings.StaleCleanupCorrected | jupyterlab/datastore/handler.py:139-143 | the corrected cleanup leaves "x" mapped to the third client's collaboration |

## Left out

- Tornado websocket I/O and JSON:
  - messages are already decoded into `Message`;
  - replies are `Reply` values, without their JSON layout or the error text;
  - content that is not a JSON object, and transactions without `id` or `serial` keys, are not modelled.
  - serials that are not JSON integers are not modelled: transaction serials and `Content.serial` are `int`. In the source, `update_serial` applies `max` to whatever the client sent, so a float serial is stored and can become the watermark, and a string raises `TypeError`.
- The IOLoop:
  - a timer is an opaque `Timer(token, deadline)`, and `remove_timeout` is the cancelled timer `ForgetDangling` returns;
  - the timer firing is not modelled. The scenarios in `Findings` call the cleanup directly.
- `DatastoreDB`:
  - its answers (duplicate flags, central serials, history, lookups) are the `DbReplies` parameter;
  - the `checkpointId`, `transactionIds` and `serials` arguments it receives are not modelled;
  - closing a database twice is assumed harmless.
- `auth.check_permissions` and `current_user` are the parameter `auth` (or `readable` for the listing).
- `uuid.uuid4()` is the parameter `freshId`.
- `super().open()`, `super().on_close()`, logging and the `print` calls in `update_serial` are not modelled.
- `CollaborationsManagerHandler.get` is modelled as the dict it builds (`Registry.Listing`). Writing that dict out as JSON is not modelled.
- Each client has its own `outbox`. The relative order of frames written to different clients is therefore not represented; the order within each client's outbox is.
- `Datastore.Handler.OnClose` uses the corrected `CleanupClosed` described under Findings, not the code as written.
- `jupyterlab/notebookapp.py`, `examples/federated/main.py` and `jupyterlab/__init__.py` are application wiring; they are not part of this model.

## Findings

| source | as written | input that shows it | evidently intended | confidence | as-written member | corrected member |
|---|---|---|---|---|---|---|
| jupyterlab/datastore/handler.py:139-143 | once the collaboration is empty on a file store, `del self.collaborations[self.collaboration_id]` deletes whatever collaboration is now registered under the id | two clients open "x" on a file store; the first closes with code 1006 and dangles; the second closes with 1000, which closes "x" and unregisters it; a third client opens "x" and gets a new collaboration; the first client's recovery timer then fires `cleanup_closed` | remove the registry entry only while it still holds this handler's own collaboration (otherwise the third client's collaboration is lost from the registry and a fourth client opening "x" lands in a different one) | not executed | Findings.StaleCleanupAsWritten | Findings.StaleCleanupCorrected |
