/**
  The unit tests of the pool, replayed sequentially on the `Pool` class with string
  resources and millisecond timestamps.  Each scenario returns what the test
  observes; its postcondition is the test's assertions.  Waiting on the semaphore
  is not modelled, so an acquire that the test leaves pending is replayed as the
  acquire that runs once the event it waits for has happened.
*/
module PoolScenarios {
  import opened Wrappers
  import opened PoolPolicy
  import opened ConnectionPool

  /** `make_options()` of the tests. */
  const TestOptions: PoolOptions := PoolOptions(1, 200, Some(200), Some(60000), 50)

  /** Every test resource reports itself healthy. */
  function AlwaysHealthy(r: string): bool { true }

  /** The first acquire of the tests: a new pool runs the factory, which creates `name`. */
  method PoolWithOneHeld(options: PoolOptions, hooks: Hooks<string>, name: string, start: nat)
    returns (pool: Pool<string>, first: Result<string, PoolError>, created: bool)
    requires options.maxConnections > 0 && hooks.afterCreate == None
    ensures fresh(pool) && pool.Valid() && pool.options == options && pool.hooks == hooks
    ensures first == Success(name) && created
    ensures pool.idle == [] && pool.closedLog == [] && !pool.closed
    ensures pool.permits + 1 == options.maxConnections && pool.lent == multiset{name}
  {
    pool := new Pool<string>(options, hooks);
    first, created := pool.Acquire(start, AlwaysHealthy, Success(name));
  }

  /** The common first step of the tests: the connection of the first acquire is dropped at `returned`, which requeues it. */
  method PoolWithOneIdle(options: PoolOptions, hooks: Hooks<string>, name: string, start: nat, returned: nat)
    returns (pool: Pool<string>, first: Result<string, PoolError>)
    requires options.maxConnections > 0 && hooks.afterCreate == None && hooks.afterRelease == None
    ensures fresh(pool) && pool.Valid() && pool.options == options && pool.hooks == hooks
    ensures first == Success(name)
    ensures pool.idle == [Entry(name, returned)] && pool.closedLog == [] && !pool.closed
    ensures pool.permits == options.maxConnections && pool.lent == multiset{}
  {
    var created;
    pool, first, created := PoolWithOneHeld(options, hooks, name, start);
    pool.Release(name, returned, AlwaysHealthy);
  }

  /** `test_acquire_and_reuse`: the second acquire reuses the first resource without creating one. */
  method AcquireAndReuse() returns (first: Result<string, PoolError>, second: Result<string, PoolError>,
                                    createdAgain: bool, stats: PoolStats)
    ensures first == Success("res-1") && second == first && !createdAgain
    ensures stats.idle <= 1 && stats.max == 1 && !stats.closed
  {
    var pool;
    pool, first := PoolWithOneIdle(TestOptions, NoHooks(), "res-1", 0, 10);
    second, createdAgain := pool.Acquire(20, AlwaysHealthy, Failure(Protocol("should not create")));
    pool.Release("res-1", 30, AlwaysHealthy);
    stats := pool.Stats();
  }

  /** `test_close_marks_closed_and_drains_idle`: close reports closed, closes the idle resource, and later acquires fail. */
  method CloseMarksClosedAndDrainsIdle() returns (stats: PoolStats, ghost closedResources: seq<string>,
                                                  later: Result<string, PoolError>, createdLater: bool)
    ensures stats.closed && stats.idle == 0
    ensures closedResources == ["x"]
    ensures later == Failure(ClosedError) && !createdLater
  {
    var pool, first := PoolWithOneIdle(TestOptions, NoHooks(), "x", 0, 10);
    pool.Close();
    stats := pool.Stats();
    closedResources := pool.closedLog;
    later, createdLater := pool.Acquire(20, AlwaysHealthy, Failure(Other("unreachable")));
  }

  /**
    `test_idle_timeout_cleanup`: with a 50 ms idle timeout and a tick every 30 ms, the
    idle resource is closed by the sweep and the next acquire creates a new one.
  */
  method IdleTimeoutCleanup() returns (ghost closedResources: seq<string>, next: Result<string, PoolError>,
                                       created: bool)
    ensures closedResources == ["y"]
    ensures next == Success("z") && created
  {
    var pool := SweptAfterIdleTimeout();
    closedResources := pool.closedLog;
    AcquireCreatesWhenNothingReusable(pool.options, NoHooks(), AlwaysHealthy, Success("z"), 120, pool.State());
    next, created := pool.Acquire(120, AlwaysHealthy, Success("z"));
  }

  /** The first part of `test_idle_timeout_cleanup`: one resource returned at 0, then the ticks at 30 and 60 ms (later ticks find the queue empty). */
  method SweptAfterIdleTimeout() returns (pool: Pool<string>)
    ensures fresh(pool) && pool.Valid() && pool.hooks == NoHooks()
    ensures pool.idle == [] && pool.closedLog == ["y"] && pool.permits == 1 && !pool.closed
  {
    var options := TestOptions.(idleTimeout := Some(50), healthCheckInterval := 30);
    var first;
    pool, first := PoolWithOneIdle(options, NoHooks(), "y", 0, 0);
    assert Acceptable(options, AlwaysHealthy, 30, Entry("y", 0));
    KeptSingle(options, AlwaysHealthy, 30, Entry("y", 0));
    pool.Cleanup(30, AlwaysHealthy);
    assert pool.idle == [Entry("y", 0)] && pool.closedLog == [];
    assert !Acceptable(options, AlwaysHealthy, 60, Entry("y", 0));
    KeptSingle(options, AlwaysHealthy, 60, Entry("y", 0));
    assert Resources([Entry("y", 0)]) == ["y"];
    pool.Cleanup(60, AlwaysHealthy);
  }

  /**
    `test_permit_released_after_requeue`: while "one" is held the only permit is taken, so
    a second acquire cannot complete; once "one" is dropped it is requeued, the permit is
    returned, and the second acquire gets "one" back without running its factory.
  */
  method PermitReleasedAfterRequeue() returns (whileHeld: Result<string, PoolError>,
                                               afterDrop: Result<string, PoolError>, created: bool)
    ensures whileHeld == Failure(AcquireTimeoutError)
    ensures afterDrop == Success("one") && !created
  {
    var pool, first, c := PoolWithOneHeld(TestOptions, NoHooks(), "one", 0);
    whileHeld, c := pool.Acquire(10, AlwaysHealthy, Success("two"));
    pool.Release("one", 20, AlwaysHealthy);
    afterDrop, created := pool.Acquire(20, AlwaysHealthy, Success("two"));
  }

  /**
    `test_acquire_cancels_on_close`: while "held" is out, the pool is closed; the pending
    acquire then fails with the close error without creating, and the held resource is
    closed when its connection is dropped.
  */
  method AcquireCancelsOnClose() returns (pending: Result<string, PoolError>, created: bool,
                                          ghost closedResources: seq<string>, stats: PoolStats)
    ensures pending == Failure(ClosedError) && !created
    ensures closedResources == ["held"]
    ensures stats == PoolStats(0, 1, true)
  {
    var pool, first, c := PoolWithOneHeld(TestOptions, NoHooks(), "held", 0);
    pool.Close();
    pending, created := pool.Acquire(20, AlwaysHealthy, Failure(Other("should not construct while closed")));
    pool.Release("held", 30, AlwaysHealthy);
    closedResources := pool.closedLog;
    stats := pool.Stats();
  }

  /**
    `test_pop_idle_filters_and_closes_stale`: with a 30 ms idle timeout and no sweep in
    between, the acquire at 60 ms closes the stale idle resource and creates a new one.
  */
  method PopIdleFiltersAndClosesStale() returns (conn: Result<string, PoolError>, ghost closedResources: seq<string>)
    ensures conn == Success("new")
    ensures closedResources == ["old"]
  {
    var options := PoolOptions(1, 200, Some(30), Some(60000), 500);
    var pool, first := PoolWithOneIdle(options, NoHooks(), "old", 0, 0);
    assert !Acceptable(options, AlwaysHealthy, 60, Entry("old", 0));
    FirstReusableIs(options, NoHooks(), AlwaysHealthy, 60, [Entry("old", 0)], 1);
    assert Resources([Entry("old", 0)]) == ["old"];
    var c;
    conn, c := pool.Acquire(60, AlwaysHealthy, Success("new"));
    closedResources := pool.closedLog;
  }

  /** The `before_acquire` hook of the test: reject the resource named "bad". */
  function RejectBad(r: string, meta: Metadata): Result<bool, PoolError> {
    Success(r != "bad")
  }

  /** `test_before_acquire_rejects_idle_and_creates_new`: the rejected idle resource is closed and a new one created. */
  method BeforeAcquireRejectsIdleAndCreatesNew() returns (conn: Result<string, PoolError>, created: bool,
                                                          ghost closedResources: seq<string>)
    ensures conn == Success("good") && created
    ensures closedResources == ["bad"]
  {
    var hooks := Hooks(None, Some(RejectBad), None);
    var pool, first := PoolWithOneIdle(TestOptions, hooks, "bad", 0, 10);
    assert !BeforeAcquireAccepts(hooks, 20, Entry("bad", 10));
    AcquireCreatesWhenNothingReusable(TestOptions, hooks, AlwaysHealthy, Success("good"), 20, pool.State());
    assert Resources([Entry("bad", 10)]) == ["bad"];
    conn, created := pool.Acquire(20, AlwaysHealthy, Success("good"));
    closedResources := pool.closedLog;
  }

  /** The `after_release` hook of the test: never let a resource back into idle. */
  function RejectAll(r: string, meta: Metadata): Result<bool, PoolError> {
    Success(false)
  }

  /** `test_after_release_rejects_return`: the released resource is closed, not requeued. */
  method AfterReleaseRejectsReturn() returns (stats: PoolStats, ghost closedResources: seq<string>)
    ensures stats.idle == 0
    ensures closedResources == ["a"]
  {
    var pool, first, c := PoolWithOneHeld(TestOptions, Hooks(None, None, Some(RejectAll)), "a", 0);
    pool.Release("a", 10, AlwaysHealthy);
    stats := pool.Stats();
    closedResources := pool.closedLog;
  }
}
