# Throttled whiteboard persistence, modelled in Dafny

This project models the two pieces of logic in a small whiteboard persistence service.

- **The throttle** (`src/utils.js`). The browser client wraps its save call in this throttle. A call
  outside the window `[previous, previous + wait)` invokes the function at once. This covers the case
  where the clock went backwards. The call also drops any pending trailing timer. A call inside the
  window schedules a single trailing timer, unless one is already pending. `cancel` drops the
  pending timer.
- **The document store** (`server.js`). This is one table, `documents`, with `id` as its primary
  key. Each row holds an opaque `snapshot` and an `updated_at` time. The HTTP handlers read and
  write it: `GET /health`, `GET /api/document/:id`, `POST /api/document/:id` (`INSERT OR REPLACE`,
  then the database file is rewritten) and `GET /api/documents` (ordered by `updated_at DESC`).

Files:

- `wrappers.dfy`: `Option`.
- `throttle.dfy`: module `Throttling`.
  - Specification: the pure step functions `CallStep`, `FireStep` and `CancelStep`, plus `Run` over
    a sequence of events.
  - Class `Throttle`: its fields are the closure's `previous` and `timeout`. It also holds the timers
    the event loop keeps for it (`queue`, `nextHandle`) and a ghost trace of invocations. Each method
    is proved equal to the matching step function.
  - Time is explicit. A call carries its `now`. `Tick(t)` is an event-loop turn at time `t`, and it
    runs the pending timer if that timer is due.
- `document_store.dfy`: module `DocumentStore`.
  - Specification: the pure functions `Fetch` (GET) and `Store` (POST) over the table, plus the
    predicate `IsListing` for the list handler.
  - Class `DocumentServer`: it owns the in-memory table and what the database file holds. Its handler methods are proved against those functions.
  - The list handler is a loop. Each step takes a row with the latest timestamp among those left,
    which stands for the SQL engine's `ORDER BY updated_at DESC` read through `stmt.step()`.

Modelling choices:

- `datetime('now')` becomes an integer parameter `now` in seconds. Its text form sorts in time order,
  so integer comparison is the same order.
- The request body's `snapshot` field is a `JsonValue`. Its JavaScript truthiness decides the 400
  response. Objects and arrays are opaque. `JSON.stringify` on the way in and `JSON.parse` on the
  way out are taken as inverse, so a row keeps the value itself.
- How `saveDatabase` ends is a parameter (`WriteOutcome`), with three cases:
  - `Written`: the file holds the new table.
  - `Unwritten`: `db.export()` or opening the file threw, so the file is untouched.
  - `Truncated`: `writeFileSync` opened the file, which empties it, and then the write threw. The
    file is `Damaged`, and the model says nothing about its contents.
- A 200 response means the file was written. A 500 after the insert leaves the in-memory row
  replaced, so later `GET`s return the new snapshot (server.js:87-96).
- A timer handle is a fresh natural number, as a browser's `setTimeout` returns. This makes "a
  cleared timer never runs" a statement about handles.
- After saves A, B, A, `[A, B]` is the only listing exactly when B's save is strictly earlier than
  A's second save (`t2 < t3`). The time of A's first save plays no part, because that row is
  replaced. `datetime('now')` has one-second resolution, and SQL leaves ties in `ORDER BY`
  unordered. `ListingAfterRewrite` proves the case `t2 < t3`. `RewriteListingOpen` shows that
  `[B, A]` is also a listing when `t3 <= t2`. `ListingTiesUnordered` shows that both orders are
  allowed on any tie.

## Model

| member | source | states |
|---|---|---|
| `Throttling.Immediate` | src/utils.js:8-10 | With `remaining = wait - (now - previous)`, `remaining <= 0 \|\| remaining > wait` holds exactly when `now` is outside the window `[previous, previous + wait)` |
| `Throttling.ClearTimer` | src/utils.js:11-14 | `clearTimeout(handle)` keeps exactly the queued timers whose handle differs, and never adds one |
| `Throttling.CallStep` | src/utils.js:6-24 | A call invokes the function exactly when it is outside the window. Then it invokes it once, synchronously, with the call's arguments; sets `previous := now`; clears `timeout`; and leaves no timer with the old handle. It keeps the timer-handle counter, and with no timer pending it leaves the event loop's timers as they were. Inside the window with a timer pending, nothing changes. Inside the window with no timer, it invokes nothing and leaves `previous` unchanged. It schedules exactly one timer with a fresh handle, the call's arguments and deadline `previous + wait`, and its delay `remaining` lies in `(0, wait]` |
| `Throttling.FireStep` | src/utils.js:18-21 | The timer callback invokes the function once, with the arguments captured when the timer was scheduled. It sets `previous` to the fire time, clears `timeout`, and removes the timer from the event loop |
| `Throttling.CancelStep` | src/utils.js:26-31 | `cancel` leaves no timer pending and no queued timer with the old handle. It does not change `previous`. With no timer pending it changes nothing |
| `Throttling.CancelIdempotent` | src/utils.js:26-31 | Calling `cancel` twice has the same effect as calling it once |
| `Throttling.InitialInvariant` | src/utils.js:3-4 | A fresh throttle (`timeout = null`, `previous = 0`) satisfies the invariant |
| `Throttling.StepPreservesInvariant` | src/utils.js:6-31 | Every call, timer expiry and cancel keeps the invariant: at most one timer is pending, `timeout` is its handle, and its deadline is `previous + wait`. Handles are never reused |
| `Throttling.RunPreservesInvariant` | src/utils.js:6-31 | The invariant holds after any sequence of calls, event-loop turns and cancels |
| `Throttling.ClearedTimerNeverFires` | src/utils.js:11-14 | A timer that was issued and is no longer queued never runs, whatever events follow |
| `Throttling.LeadingCallDiscardsPending` | src/utils.js:10-16 | A call outside the window, made while a trailing call is pending, leaves no timer. That trailing call never runs afterwards |
| `Throttling.QuietWindow` | src/utils.js:10-23 | Calls and event-loop turns inside the window invoke nothing and leave `previous` unchanged. The pending timer is the one already pending before them. If there was none, it is the one scheduled by the first call among them, with that call's arguments and deadline `previous + wait` |
| `Throttling.TicksFireAtMostOnce` | src/utils.js:18-21 | Event-loop turns alone invoke the function at most as many times as timers are pending (at most once). They use the pending timer's arguments and run no earlier than its deadline |
| `Throttling.BurstInvokesAtMostTwice` | src/utils.js:6-24 | A leading call at `p`, then any burst of calls inside `[p, p + wait)`, then any number of event-loop turns, invokes the function at least once and at most twice, never N times. The first invocation is the leading one at `p`. The second, if any, is a trailing invocation at or after `p + wait`, with the arguments of the burst's first call |
| `Throttling.LeadThenWindow` | src/utils.js:6-24 | After a leading call at `p` and any burst inside `[p, p + wait)`, only the leading invocation has happened and `previous` is `p`. A timer is pending exactly when the burst holds a call. It carries that first call's arguments and is due at `p + wait` |
| `Throttling.BurstThenExpiryInvokesTwice` | src/utils.js:6-24 | If the burst holds a call, the first event-loop turn at a time `t >= p + wait` runs exactly one trailing invocation. It runs at `t`, with the burst's first call's arguments, from the timer that call scheduled. The function has then run exactly twice |
| `Throttling.Throttle.constructor` | src/utils.js:2-4 | A new throttle starts with `previous = 0`, no timer and an empty invocation trace |
| `Throttling.Throttle.Call` | src/utils.js:6-24 | The `throttled` path updates the fields and the invocation trace exactly as `CallStep` does, and keeps the invariant |
| `Throttling.Throttle.Fire` | src/utils.js:18-22 | The `setTimeout` callback, run at or after its deadline, updates the fields and the trace exactly as `FireStep` does, and keeps the invariant |
| `Throttling.Throttle.Cancel` | src/utils.js:26-31 | `throttled.cancel` updates the fields as `CancelStep` does, invokes nothing, and keeps the invariant |
| `DocumentStore.Truthy` | server.js:83 | A snapshot is falsy exactly when it is undefined, null, false, 0 or the empty string. Objects and arrays are always truthy, even when empty |
| `DocumentStore.Fetch` | server.js:61-69 | The GET handler returns status 200 exactly when the id is stored, and then returns the stored snapshot. Otherwise it returns 404 "Document not found" |
| `DocumentStore.Store` | server.js:81-96 | A falsy snapshot returns 400 "Snapshot is required" and changes neither the table nor the file. A truthy snapshot sets the row of `id` to `(snapshot, now)`, adding the key or replacing the row. Every other row is left as it was, and `id` is the only key that can be added. The response is `{success:true}` exactly when the file write succeeded, and the file then holds the new table. Otherwise the response is 500. The file is unchanged if the write failed before the file was opened, and damaged if the write failed after the file was truncated |
| `DocumentStore.ReplayKeepsOthers` | server.js:83-90 | POSTs that do not store a truthy snapshot under `id` leave `id`'s row, or its absence, unchanged |
| `DocumentStore.GetAfterPut` | server.js:64-66 | After a POST of a truthy `s` under `id`, followed by any POSTs that do not overwrite `id`, a GET of `id` returns `s`. This holds whatever became of the file write |
| `DocumentStore.GetNeverWritten` | server.js:64-68 | A GET of an id that no POST stored returns 404 "Document not found" |
| `DocumentStore.ListingOfTwo` | server.js:103 | With two rows whose timestamps differ, the only valid listing is the later row first, then the earlier |
| `DocumentStore.RewriteTable` | server.js:87-90 | After saves A, B, A, exactly A and B are stored: A with its second snapshot and save time, B with its own. This holds whatever became of each file write |
| `DocumentStore.ListingAfterRewrite` | server.js:88-89 | After saves A, B, A in which B's save is strictly earlier than A's second save, every valid listing is `[A, B]`, with the last save times. The time of A's first save is unconstrained. This holds whatever became of each file write |
| `DocumentStore.RewriteListingOpen` | server.js:87-103 | After saves A, B, A in which A's second save is not later than B's, `[B, A]` is a valid listing. So `[A, B]` is the only listing exactly when `t2 < t3` |
| `DocumentStore.ListingTiesUnordered` | server.js:103 | When two rows have equal `updated_at`, both orders are valid listings |
| `DocumentStore.DocumentServer.Open` | server.js:26-40 | At startup the table is the file's contents if the file exists, and empty otherwise |
| `DocumentStore.DocumentServer.Health` | server.js:53-55 | `GET /health` always returns 200 `{status:"ok"}` |
| `DocumentStore.DocumentServer.GetDocument` | server.js:58-75 | The GET handler answers as `Fetch` on the current table. It has no `modifies` clause, so it changes nothing |
| `DocumentStore.DocumentServer.PostDocument` | server.js:78-98 | The POST handler changes the table and the file, and answers, exactly as `Store` does |
| `DocumentStore.DocumentServer.ListDocuments` | server.js:101-116 | The list handler returns 200 with every stored id exactly once, with its `updated_at`, in non-increasing `updated_at` order. It promises no order among equal timestamps. It has no `modifies` clause, so it changes nothing |

## Left out

- `src/App.jsx` is not part of this model. It is the React component that loads the document once,
  wires `throttle(save, 1000)` to the editor's change notifications, and cancels on unmount. All of
  it is UI and network glue.
- Express routing, middleware, static file serving, the 50mb body limit, the SPA fallback route and
  `app.listen` (server.js:48-50,118-126) belong to the framework.
- The 500 responses of the GET and list handlers (server.js:71-74,112-115) are not modelled. The
  GET handler's `JSON.parse(row.snapshot)` (server.js:66) throws when the stored text is not JSON.
  This server only stores `JSON.stringify` output, but a database file written by something else
  can hold such a row (server.js:26-28). A `Row` holds a parsed `JsonValue`, so the model cannot
  represent it. Faults inside sql.js, which is foreign code, are not modelled either. For POST,
  only failures of the file write are modelled.
- Start-up from a damaged database file is not modelled. `DocumentServer.Open` takes either no
  file or the image of a table. What `new SQL.Database(buffer)` does with other bytes is sql.js's
  business (server.js:26-28).
- sql.js internals and the bytes of `db.export()` are not modelled. The file image is the table it
  encodes. `existsSync`, `mkdirSync`, `readFileSync` and `writeFileSync` are foreign calls: the file
  contents at startup and the write outcome are parameters.
- JSON parsing and serialisation are not modelled. Numbers are `real` rather than IEEE doubles.
  Objects and arrays are opaque text, and the stringify/parse round trip is taken as identity.
- `Date.now()`, `setTimeout`, `clearTimeout` and the event loop become explicit times and `Tick`
  events. How this throttle's timer is ordered against other timers on the page is not modelled.
- `this` binding in `func.apply(this, args)` is not modelled, and neither is `console` logging.
- Throttling.Throttle.Fire: the timer's expiry and `Date.now()` are modelled on one clock, so the
  callback runs at a time `t` at or after its deadline and sets `previous := t`. A browser may run
  the callback while `Date.now()` (src/utils.js:19) still reads just below the deadline. A call made
  at that same reading is then inside the new window `[t, t + wait)` with no timer pending, so it
  schedules another timer. This case is
  not modelled. The model also holds only for `wait <= 2147483647`. `setTimeout` stores its delay
  as a 32-bit signed integer, and a larger delay fires after about 1 ms. With a larger `wait`, the
  callback scheduled at src/utils.js:18-22 runs long before `previous + wait`, which `Due` does not
  allow. The only caller passes `wait = 1000` (src/App.jsx:36-47).
- Throttling.TicksFireAtMostOnce: its promise that a timer runs no earlier than its deadline rests
  on expiry and `Date.now()` sharing one clock. A callback that reads `Date.now()` below the
  deadline is not modelled. It also holds only for `wait <= 2147483647`, for the same 32-bit
  reason. Above that bound `setTimeout` runs the timer about 1 ms after it was scheduled, before
  its deadline.
- Throttling.BurstInvokesAtMostTwice: rests on the same single clock. If a callback reads
  `Date.now()` below its deadline, a burst can produce a third invocation, for example with
  `wait = 1000`: a leading call at 10000, a call at 10500, the timer's callback reading 10999, and a
  call at 10999. The model does not capture this. It also holds only for `wait <= 2147483647`.
  Above that bound each timer fires about 1 ms after it was scheduled. Each such firing sets
  `previous` and leaves the next call inside the window, so that call schedules another timer. A
  burst then yields about one invocation per call. The only caller passes `wait = 1000`
  (src/App.jsx:36-47).
