# Shadowcat resource pool and MCP compliance runner, in Dafny

This project models two parts of the Shadowcat MCP proxy repository and proves
properties of both.

**The generic resource pool** (`gpt_pool_mod.rs`). A pool lends out resources up
to `max_connections` (a semaphore of permits). It keeps returned resources in a
FIFO idle queue stamped with the time they came back. It drops idle entries
that report themselves unhealthy, or whose time since that stamp exceeds
`max_lifetime` or `idle_timeout`. Both limits are measured from the time the
entry was last pushed to idle, not from when the resource was created, so
`max_lifetime` does not bound a resource's age.
It runs three optional hooks (`after_create`, `before_acquire`,
`after_release`). A background task sweeps the idle queue, and `close` drains
the queue.

- `pool_policy.dfy` (module `PoolPolicy`). The pure policy: options, idle
  entries, hook verdicts, the queue functions `PopIdle`, `ReuseScan`, `Kept` and
  `Dropped`, the whole-pool transitions `AcquireStep`, `ReleaseStep`,
  `CleanupStep` and `CloseStep`, and the lemmas that state what the pool
  promises.
- `pool.dfy` (module `ConnectionPool`). The class `Pool`, whose fields are
  updated in place: the idle queue, the closed flag and the free permits. It
  also has two ghost fields: `lent`, the resources held by live connections,
  and `closedLog`, the resources the pool has called `close()` on, in order.
  Every method is proved to perform the matching transition of `PoolPolicy`.
  The loops of `pop_idle_healthy`, of the reuse in `acquire`, of
  `cleanup_idle_with` and of `close` are `while`/`for` loops with invariants.
- `pool_scenarios.dfy` (module `PoolScenarios`). The unit tests of the pool,
  replayed one after another on the class. Each scenario's postcondition is the
  test's assertions.

**The compliance runner** (`tests/mcp-validator/test_shadowcat_compliance.py`).
It sends `initialize` and stops unless that passed. It then sends `tools/list`,
`tools/call` (echo), `ping` and an invalid method, carrying the session id from
the initialize result in the `Mcp-Session-Id` header. It classifies each
response as pass or fail.

- `compliance.dfy` (module `Compliance`). Requests, responses, the per-step
  classifiers, and `RunCompliance`, which models `main` over an abstract
  `transport` function.

`wrappers.dfy` holds the shared `Option` and `Result` types.

Time is a natural number of milliseconds passed as `now`. `since.elapsed()` is
`now - since`, saturating at zero. Resource health (`is_healthy`), the factory's
result and the hooks are supplied by the caller as values or pure functions.
The source's `Result` errors are `PoolError`. "Pool closed" is
`Protocol("Pool closed")`, and a missing permit is
`Timeout("Pool acquire timeout")`.

The runner's checks are looser than a full conformance check would be, and the
model keeps them as written:

- The tool-call step passes when the response has a `"result"` key. It does not
  compare the echoed text with the message sent (`MissingFieldDefaults`).
- `initialize` passes without a `sessionId`. The later requests then carry no
  session header, because the HTTP client drops a header whose value is `None`.
- The error step passes iff `"error"` is present, even when `"result"` is
  present as well. It is the inverse of the other steps only on a response
  that holds exactly one of the two keys (`ErrorStepIsInverse`).
- `initialize` passes whenever `"result"` is present, even when `"error"` is
  present next to it (`ClassifyInitialize`).

## Model

| member | source | states |
|---|---|---|
| PoolPolicy.Init | gpt_pool_mod.rs:76-87 | a new pool has every permit free, an empty idle queue, is open and lends nothing; the pool invariant holds |
| PoolPolicy.Resources | gpt_pool_mod.rs:298-324 | the resources closed for a run of entries: one per entry, the i-th being the i-th entry's resource, so in queue order |
| PoolPolicy.FirstAcceptable | gpt_pool_mod.rs:298-324 | the index of the first entry that is neither expired nor unhealthy: all entries before it fail the test and it passes, or it is the queue length |
| PoolPolicy.FirstReusable | gpt_pool_mod.rs:204-235 | the index of the first entry that is acceptable and accepted by `before_acquire`: all before it fail and it passes, or it is the queue length |
| PoolPolicy.PopIdle | gpt_pool_mod.rs:298-324 | a pop that yields an entry leaves a strictly shorter queue; a pop that yields nothing leaves the queue empty |
| PoolPolicy.NoHooks | gpt_pool_mod.rs:86 | the `hooks: None` of `Pool::new`: no hook is set; no contract of its own, used by the scenarios `AcquireAndReuse`, `CloseMarksClosedAndDrainsIdle` and the others built on `Pool::new` |
| PoolPolicy.Elapsed | gpt_pool_mod.rs:306-318 | `since.elapsed()` at `now`, saturating at zero; no contract of its own, its use is pinned down by `DefaultIdleTimeoutIsStrict` |
| PoolPolicy.Exceeds | gpt_pool_mod.rs:306-318 | a set limit is passed when the elapsed time is strictly greater; no contract of its own, characterised by `DefaultIdleTimeoutIsStrict` |
| PoolPolicy.Expired | gpt_pool_mod.rs:306-318 | past `max_lifetime` or `idle_timeout`, both measured from the idle stamp; no contract of its own, characterised by `DefaultIdleTimeoutIsStrict` |
| PoolPolicy.Acceptable | gpt_pool_mod.rs:306-323 | neither expired nor unhealthy, the test shared by the pop and the sweep; no contract of its own, characterised by `PopIdleTakesFirstAcceptable` and `KeptMembers` |
| PoolPolicy.BeforeAcquireAccepts | gpt_pool_mod.rs:207-227 | `before_acquire` returns `Ok(true)` (an absent hook accepts); `Ok(false)` and `Err` reject; no contract of its own, characterised by `ReuseScanSkips` and `ReuseScanTakesFirstReusable` |
| PoolPolicy.AfterCreateResult | gpt_pool_mod.rs:240-251 | the verdict of `after_create` (an absent hook succeeds); no contract of its own, characterised by `AcquireCreatesWhenNothingReusable` |
| PoolPolicy.AfterReleaseAccepts | gpt_pool_mod.rs:468-489 | `after_release` returns `Ok(true)` (an absent hook accepts); no contract of its own, characterised by `ReleaseRequeuesIff` |
| PoolPolicy.Reusable | gpt_pool_mod.rs:205-235 | the reuse test: the pop test holds and `before_acquire` returns `Ok(true)`; no contract of its own, characterised by `FirstReusable`, `ReuseScanTakesFirstReusable` and `AcquireCallsFactoryIff` |
| PoolPolicy.Kept | gpt_pool_mod.rs:326-356 | the entries the sweep puts back; no contract of its own, characterised by `KeptSingle`, `KeptMembers`, `KeptConcat`, `KeptDroppedPartition` and `KeptIdempotent` |
| PoolPolicy.Dropped | gpt_pool_mod.rs:326-356 | the entries the sweep closes; no contract of its own, characterised by `KeptSingle`, `KeptMembers`, `KeptConcat` and `KeptDroppedPartition` |
| PoolPolicy.ReuseScan | gpt_pool_mod.rs:204-236 | the reuse loop of `acquire`; no contract of its own, characterised by `ReuseScanTakesFirstReusable` and `ReuseScanSkips`, and implemented by `ConnectionPool.Pool.ReuseIdle` |
| PoolPolicy.AcquireStep | gpt_pool_mod.rs:181-257 | the effect of `acquire`; no contract of its own, characterised by `AcquireOnClosedPool`, `AcquirePreservesInv`, `AcquirePermitAccounting`, `AcquireCallsFactoryIff`, `AcquireReusesFirstReusable` and `AcquireCreatesWhenNothingReusable` |
| PoolPolicy.ReleaseStep | gpt_pool_mod.rs:457-497 | the effect of dropping a `PoolConnection`; no contract of its own, characterised by `ReleaseReturnsPermit` and `ReleaseRequeuesIff` |
| PoolPolicy.CleanupStep | gpt_pool_mod.rs:326-356 | the effect of one maintenance sweep; no contract of its own, characterised by `CleanupKeepsExactlyAcceptable`, `CleanupPreservesInv` and `CleanupIdempotent` |
| PoolPolicy.CloseStep | gpt_pool_mod.rs:260-273 | the effect of `close`; no contract of its own, characterised by `CloseDrainsIdle` and `ClosedIsAbsorbing` |
| PoolPolicy.StatsOf | gpt_pool_mod.rs:276-283 | the `stats` snapshot; no contract of its own, characterised by `StatsReportCapacity` and `ConnectionPool.Pool.Stats` |
| PoolPolicy.ResourcesConcat | gpt_pool_mod.rs:298-324 | the resources of two consecutive runs are those of the first followed by those of the second |
| PoolPolicy.KeptSingle | gpt_pool_mod.rs:333-352 | the sweep keeps a single entry iff it is acceptable, and closes it otherwise |
| PoolPolicy.KeptMembers | gpt_pool_mod.rs:333-352 | an entry survives the sweep iff it was idle and acceptable; it is closed iff it was idle and not acceptable |
| PoolPolicy.KeptConcat | gpt_pool_mod.rs:333-355 | the sweep works entry by entry, so over two consecutive runs it keeps and closes the entries of each run in queue order |
| PoolPolicy.KeptDroppedPartition | gpt_pool_mod.rs:326-356 | kept and closed entries together are exactly the drained queue (as a multiset): nothing lost, nothing duplicated |
| PoolPolicy.KeptIdempotent | gpt_pool_mod.rs:326-356 | a second sweep at the same instant with the same health verdicts keeps everything and closes nothing |
| PoolPolicy.KeptFrontAcceptable | gpt_pool_mod.rs:298-356 | right after a sweep, the next idle pop finds an acceptable entry at the front and closes nothing |
| PoolPolicy.FirstReusableIs | gpt_pool_mod.rs:204-235 | the first reusable index is the unique index before which nothing is reusable and at which the entry is reusable |
| PoolPolicy.PopIdleTakesFirstAcceptable | gpt_pool_mod.rs:298-324 | `pop_idle_healthy` returns the first acceptable entry, closes every entry in front of it in order, and leaves the entries behind it in order; with no acceptable entry it returns nothing and closes the whole queue |
| PoolPolicy.ReuseScanSkips | gpt_pool_mod.rs:204-229 | an idle entry that is not reusable is closed and the reuse loop goes on with the next entry |
| PoolPolicy.ReuseScanTakesFirstReusable | gpt_pool_mod.rs:204-235 | the reuse loop hands out the first reusable entry, closes every entry in front of it in queue order (expired, unhealthy or rejected by `before_acquire`), and keeps the entries behind it; with none it closes every idle entry |
| PoolPolicy.AcquireOnClosedPool | gpt_pool_mod.rs:182-184 | on a closed pool, acquire fails with `Protocol("Pool closed")`, runs no factory and changes nothing |
| PoolPolicy.AcquirePreservesInv | gpt_pool_mod.rs:177-257 | acquire keeps held connections plus free permits equal to `max_connections`, and a closed pool's idle queue empty |
| PoolPolicy.AcquirePermitAccounting | gpt_pool_mod.rs:186-257 | a successful acquire takes one permit and lends out exactly the resource it returns; a failing one returns the permit and lends nothing |
| PoolPolicy.AcquireCallsFactoryIff | gpt_pool_mod.rs:182-238 | the factory runs exactly when the pool is open, a permit is free and no idle entry is reusable |
| PoolPolicy.AcquireReusesFirstReusable | gpt_pool_mod.rs:204-235 | when some idle entry is reusable, acquire returns the first one without calling the factory; the entries in front of it are closed in order and the ones behind it stay queued |
| PoolPolicy.AcquireCreatesWhenNothingReusable | gpt_pool_mod.rs:237-256 | when no idle entry is reusable, every idle entry is closed and the factory runs; acquire succeeds with the created resource iff the factory and `after_create` succeed; a factory error or an `after_create` error is returned as is, and a rejected new resource is closed |
| PoolPolicy.ReleaseReturnsPermit | gpt_pool_mod.rs:457-497 | dropping a connection returns its permit on every path, stops lending its resource, and preserves the pool invariant |
| PoolPolicy.ReleaseRequeuesIff | gpt_pool_mod.rs:457-497 | a released resource goes to the back of idle, stamped with the release time, iff the pool is open, the resource is healthy and `after_release` accepts it; otherwise it is closed and idle is unchanged |
| PoolPolicy.CleanupKeepsExactlyAcceptable | gpt_pool_mod.rs:326-356 | the sweep keeps exactly the idle entries that are neither expired nor unhealthy, closes exactly the others in queue order, loses none, and touches nothing else |
| PoolPolicy.CleanupPreservesInv | gpt_pool_mod.rs:326-356 | the sweep preserves the pool invariant |
| PoolPolicy.CleanupIdempotent | gpt_pool_mod.rs:326-356 | a second sweep at the same instant leaves the pool state unchanged |
| PoolPolicy.CloseDrainsIdle | gpt_pool_mod.rs:259-273 | close marks the pool closed and closes every idle resource front first; stats then report closed with 0 idle and `max_connections`; any later acquire fails with "Pool closed" without calling the factory |
| PoolPolicy.ClosedIsAbsorbing | gpt_pool_mod.rs:182-184 | once closed, acquire, release and the sweep leave the pool closed with an empty idle queue; a release on a closed pool closes the resource |
| PoolPolicy.StatsReportCapacity | gpt_pool_mod.rs:275-283 | the reported `max` is the configured capacity, which equals held connections plus free permits; a closed pool reports 0 idle |
| PoolPolicy.DefaultIdleTimeoutIsStrict | gpt_pool_mod.rs:38-48 | with the default options, an entry idle for exactly 300 s is kept and one idle 1 ms longer is expired (`elapsed > limit`) |
| ConnectionPool.Pool.constructor | gpt_pool_mod.rs:76-174 | the new pool has the given options and hooks and is in the initial state |
| ConnectionPool.Pool.PopIdleHealthy | gpt_pool_mod.rs:298-324 | the loop pops and closes entries exactly as `PopIdle` says, and changes no counter |
| ConnectionPool.Pool.ReuseIdle | gpt_pool_mod.rs:204-235 | the reuse loop pops, closes and hands out entries exactly as `ReuseScan` says, and changes no counter |
| ConnectionPool.Pool.Acquire | gpt_pool_mod.rs:177-257 | the new state, the result and whether the factory ran are those of `AcquireStep`; the invariant is kept |
| ConnectionPool.Pool.Release | gpt_pool_mod.rs:457-497 | the new state is that of `ReleaseStep`; the invariant is kept |
| ConnectionPool.Pool.Cleanup | gpt_pool_mod.rs:326-356 | the drain-filter-extend loop leaves the state of `CleanupStep`; the invariant is kept |
| ConnectionPool.Pool.Close | gpt_pool_mod.rs:259-273 | the drain loop leaves the state of `CloseStep`; the invariant is kept |
| ConnectionPool.Pool.Stats | gpt_pool_mod.rs:275-283 | the snapshot reports the idle length, the capacity and the flag; capacity equals held plus free permits; closed implies 0 idle |
| ConnectionPool.Pool.IsClosed | gpt_pool_mod.rs:285-288 | returns the closed flag; a closed pool has no idle resource |
| PoolScenarios.AlwaysHealthy | gpt_pool_mod.rs:550 | the tests' `healthy` flag, which stays `true`; no contract of its own, used by every scenario |
| PoolScenarios.RejectBad | gpt_pool_mod.rs:904-908 | the test's `before_acquire` closure, `Ok(id != "bad")`; no contract of its own, exercised by `BeforeAcquireRejectsIdleAndCreatesNew` |
| PoolScenarios.RejectAll | gpt_pool_mod.rs:972-975 | the test's `after_release` closure, `Ok(false)`; no contract of its own, exercised by `AfterReleaseRejectsReturn` |
| PoolScenarios.PoolWithOneHeld | gpt_pool_mod.rs:555-575 | the first acquire on a new pool runs the factory and lends its resource |
| PoolScenarios.PoolWithOneIdle | gpt_pool_mod.rs:555-576 | dropping the first connection requeues its resource, stamped with the drop time, and returns the permit |
| PoolScenarios.AcquireAndReuse | gpt_pool_mod.rs:547-596 | the second acquire returns the first resource without calling the factory; stats show at most one idle, max 1, open |
| PoolScenarios.CloseMarksClosedAndDrainsIdle | gpt_pool_mod.rs:598-637 | after close, stats report closed with 0 idle, the idle resource was closed, and a later acquire fails with "Pool closed" without creating |
| PoolScenarios.SweptAfterIdleTimeout | gpt_pool_mod.rs:639-670 | the maintenance sweeps past the 50 ms idle timeout close the idle resource and empty the queue |
| PoolScenarios.IdleTimeoutCleanup | gpt_pool_mod.rs:639-696 | the expired resource was closed by maintenance, and the next acquire creates a new resource |
| PoolScenarios.PermitReleasedAfterRequeue | gpt_pool_mod.rs:698-748 | with the only permit held, an acquire cannot get one; once the connection is dropped, the next acquire reuses its resource without creating |
| PoolScenarios.AcquireCancelsOnClose | gpt_pool_mod.rs:750-805 | an acquire waiting for the held permit fails with "Pool closed" once the pool is closed, without creating; the held resource is closed when dropped; stats report closed |
| PoolScenarios.PopIdleFiltersAndClosesStale | gpt_pool_mod.rs:834-897 | an idle entry past its 30 ms idle timeout is closed by the pop in acquire, and a new resource is created |
| PoolScenarios.BeforeAcquireRejectsIdleAndCreatesNew | gpt_pool_mod.rs:899-964 | an idle resource that `before_acquire` rejects is closed, and acquire creates a new one |
| PoolScenarios.AfterReleaseRejectsReturn | gpt_pool_mod.rs:966-1012 | a resource that `after_release` rejects is closed instead of requeued, leaving 0 idle |
| Compliance.Headers | tests/mcp-validator/test_shadowcat_compliance.py:60-67 | every request carries `Content-Type: application/json`; it carries `Mcp-Session-Id` iff a session id is known, with that value; the runner passes no other headers (the HTTP client adds its own defaults on the wire) |
| Compliance.InitializeRequest | tests/mcp-validator/test_shadowcat_compliance.py:19-37 | the initialize request has id 1, method `initialize`, and no session header |
| Compliance.StepRequest | tests/mcp-validator/test_shadowcat_compliance.py:53-67 | every later request carries the headers of the captured session |
| Compliance.Passed | tests/mcp-validator/test_shadowcat_compliance.py:182-185 | `status == "pass"`, the gate `main` tests; no contract of its own, characterised by `ClassifyInitialize`, `PassIffResult`, `ErrorStepPassIffError` and `RunCompliance` |
| Compliance.SessionOf | tests/mcp-validator/test_shadowcat_compliance.py:187 | `session_id = init_result["session_id"]`; no contract of its own, characterised by `RunCompliance` and `SessionThreaded` |
| Compliance.ClassifyInitialize | tests/mcp-validator/test_shadowcat_compliance.py:39-47 | initialize passes iff `"result"` is present, capturing `result.sessionId` (possibly absent); otherwise it fails with the response's `error` |
| Compliance.Classify | tests/mcp-validator/test_shadowcat_compliance.py:69-172 | the pass/fail classification of the four later steps; no contract of its own, characterised by `PassIffResult`, `ErrorStepPassIffError`, `ErrorStepIsInverse` and `MissingFieldDefaults` |
| Compliance.RunCompliance | tests/mcp-validator/test_shadowcat_compliance.py:174-207 | initialize is sent first with no session header; the run stops after it iff it failed; otherwise the four later steps are sent in order under the captured session; each outcome is the classification of its response; all ids are distinct; every later request carries the session header iff the initialize result had a `sessionId`, with its value |
| Compliance.LaterStepIds | tests/mcp-validator/test_shadowcat_compliance.py:53-153 | the later steps send ids 2, 3, 4, 999 with methods `tools/list`, `tools/call`, `ping`, `invalid_method`, in that order |
| Compliance.RequestsDistinct | tests/mcp-validator/test_shadowcat_compliance.py:19-153 | the five requests of a run carry pairwise distinct ids |
| Compliance.SessionThreaded | tests/mcp-validator/test_shadowcat_compliance.py:182-203 | in a run that passed initialize, every later request carries `Mcp-Session-Id` equal to the initialize result's `sessionId` iff there is one, and initialize carries none |
| Compliance.PassIffResult | tests/mcp-validator/test_shadowcat_compliance.py:71-141 | `tools/list`, `tools/call` and `ping` pass iff the response has `"result"`, and otherwise fail with its `error` |
| Compliance.ErrorStepPassIffError | tests/mcp-validator/test_shadowcat_compliance.py:166-172 | the error-handling step passes iff the response has `"error"`, reporting its `code` |
| Compliance.ErrorStepIsInverse | tests/mcp-validator/test_shadowcat_compliance.py:71-172 | on a response holding exactly one of `"result"` and `"error"`, the error step passes iff any other step would fail |
| Compliance.MissingFieldDefaults | tests/mcp-validator/test_shadowcat_compliance.py:69-112 | a missing `tools` lists no tools, a missing `text` gives `""`, and present values are reported as they are |

## Left out

- The tokio runtime: the mutexes, the `Arc`/`Weak` sharing, and the spawned tasks for the maintenance loop and for releases with their interleavings. Every operation is one atomic step; concurrency is not modelled.
- The maintenance task's timing (`health_check_interval`, the absorbed first tick, the shutdown branch, the join in `close`). A tick is a call to `Cleanup` at a given time.
- Waiting on the semaphore within `acquire_timeout`, and the shutdown notification that wakes a waiting acquire. With no permit free, the model's acquire returns the timeout error at once, because in a sequential model no release can happen while it waits. The tests that leave an acquire pending replay it after the event it waits for.
- `ShadowcatError::PoolExhausted`, which only arises when the semaphore is closed. The pool never closes its semaphore.
- `CloseEvent`, `close_event` and `test_close_event_notifies_on_close`. They only wrap the shutdown notification, which is not modelled.
- `Drop for Pool`. On the last reference it spawns a task that sets `is_closed`, wakes the waiters, waits up to 5 s for the maintenance task, then drains the idle queue and closes every idle resource. The last-reference test and the spawned task are not modelled, so none of these effects happen when a pool goes out of scope. The state change they make is the one `Close` makes.
- `Pool::new_with_hooks` duplicates `Pool::new`. The one constructor takes the hooks, and `NoHooks()` stands for `Pool::new`.
- The `PoolableResource` trait is kept abstract. `is_healthy` is the `healthy` function passed to each operation, `close()` is an entry of `closedLog`, and a `close()` error (only logged by the source) is not modelled. `resource_id`, `PoolConnection::resource` and `Clone for Pool` are not modelled.
- The hooks are pure functions of the resource and the metadata. Their mutable access to the resource is not modelled. `age` is always 0, as in the source.
- The `as u64` casts of `stats`. Sizes are unbounded naturals.
- Tracing and logging output.
- In the runner: HTTP, JSON parsing and `print`. A `transport` function stands for the proxy, so a network failure, a non-JSON body, a `tools` entry without `name` (a `KeyError` in the printing loop) and a non-object `result` are not modelled. `Response`'s optional fields cannot tell a JSON `null` from an absent key, so three more cases are not modelled: an `"error"` that is `null` or not an object, which makes `result["error"].get("code")` raise `AttributeError` in the error step; a `"tools"` that is `null` or not a list, which makes `len(tools)` raise `TypeError` and stops the run; and `"text": null`, which is reported as `None`, not `""`, because `.get("text", "")` does not replace a present key.
- `tests/mcp-validator/test_shadowcat_proxy.py` (the stdio binding), `plans/llm-help-documentation/analysis/prototype.rs` and `plans/mcp-compliance-check/templates/initial-tests.rs` are not part of this model.
