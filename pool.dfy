/**
  The generic resource pool as an object whose methods update its idle queue,
  closed flag and permit counter in place.  Each method is proved to perform the
  corresponding transition of PoolPolicy, whose lemmas state what the source promises.

  A maintenance tick of the background task is a call to `Cleanup`; dropping a
  `PoolConnection` is a call to `Release`.
*/
module ConnectionPool {
  import opened Wrappers
  import opened PoolPolicy

  lemma AppendAssoc<T>(a: seq<T>, b: seq<T>, c: seq<T>)
    ensures a + b + c == a + (b + c)
  {
  }

  class Pool<R(==)> {
    const options: PoolOptions
    const hooks: Hooks<R>

    /** The idle queue, front first. */
    var idle: seq<Entry<R>>
    /** `is_closed`. */
    var closed: bool
    /** Free permits of the semaphore. */
    var permits: nat
    /** Resources held by live connections; each holds one permit. */
    ghost var lent: multiset<R>
    /** Resources the pool has called `close()` on, in order. */
    ghost var closedLog: seq<R>

    ghost function State(): PoolState<R>
      reads this
    {
      PoolState(idle, closed, permits, lent, closedLog)
    }

    ghost predicate Valid()
      reads this
    {
      Inv(options, State())
    }

    /** `Pool::new_with_hooks` (and `Pool::new`, with `NoHooks()`), without the maintenance task. */
    constructor (options: PoolOptions, hooks: Hooks<R>)
      ensures this.options == options && this.hooks == hooks
      ensures Valid() && State() == Init(options)
    {
      this.options := options;
      this.hooks := hooks;
      idle := [];
      closed := false;
      permits := options.maxConnections;
      lent := multiset{};
      closedLog := [];
    }

    /**
      `pop_idle_healthy`: pop from the front, closing expired and unhealthy entries,
      until an acceptable entry is found or the queue is empty.
    */
    method PopIdleHealthy(now: nat, healthy: R -> bool) returns (popped: Option<Entry<R>>)
      modifies this
      ensures closed == old(closed) && permits == old(permits) && lent == old(lent)
      ensures var p := PopIdle(options, healthy, now, old(idle));
        popped == p.popped && idle == p.rest && closedLog == old(closedLog) + p.closed
    {
      ghost var goal := PopIdle(options, healthy, now, idle);
      while true
        invariant var p := PopIdle(options, healthy, now, idle);
          p.popped == goal.popped && p.rest == goal.rest && closedLog + p.closed == old(closedLog) + goal.closed
        invariant closed == old(closed) && permits == old(permits) && lent == old(lent)
        decreases |idle|
      {
        if idle == [] {
          return None;
        }
        ghost var before := idle;
        var e := idle[0];
        idle := idle[1..];
        if Exceeds(options.maxLifetime, e.since, now) {
          closedLog := closedLog + [e.res];
        } else if Exceeds(options.idleTimeout, e.since, now) {
          closedLog := closedLog + [e.res];
        } else if healthy(e.res) {
          return Some(e);
        } else {
          closedLog := closedLog + [e.res];
        }
        AppendAssoc(closedLog[..|closedLog| - 1], [e.res], PopIdle(options, healthy, now, idle).closed);
      }
    }

    /**
      The `while let Some(..) = pop_idle_healthy(..)` loop of `acquire`: hand out the
      first entry that `before_acquire` accepts, closing each popped entry it rejects.
      The permit has already been taken, so the counters do not change here.
    */
    method ReuseIdle(now: nat, healthy: R -> bool) returns (reused: Option<R>)
      modifies this
      ensures closed == old(closed) && permits == old(permits) && lent == old(lent)
      ensures var r := ReuseScan(options, hooks, healthy, now, old(idle));
        reused == r.reused && idle == r.rest && closedLog == old(closedLog) + r.closed
    {
      ghost var goal := ReuseScan(options, hooks, healthy, now, idle);
      while true
        invariant var r := ReuseScan(options, hooks, healthy, now, idle);
          r.reused == goal.reused && r.rest == goal.rest && closedLog + r.closed == old(closedLog) + goal.closed
        invariant closed == old(closed) && permits == old(permits) && lent == old(lent)
        decreases |idle|
      {
        ghost var logBefore := closedLog;
        ghost var before := idle;
        var popped := PopIdleHealthy(now, healthy);
        if popped.None? {
          return None;
        }
        var e := popped.value;
        if BeforeAcquireAccepts(hooks, now, e) {
          return Some(e.res);
        }
        AppendAssoc(logBefore, PopIdle(options, healthy, now, before).closed, [e.res]);
        AppendAssoc(logBefore + PopIdle(options, healthy, now, before).closed, [e.res],
                    ReuseScan(options, hooks, healthy, now, idle).closed);
        closedLog := closedLog + [e.res];
      }
    }

    /**
      `Pool::acquire` with the factory's result given as `factory`; `calledFactory`
      says whether the factory was invoked.
    */
    method Acquire(now: nat, healthy: R -> bool, factory: Result<R, PoolError>)
      returns (result: Result<R, PoolError>, calledFactory: bool)
      requires Valid()
      modifies this
      ensures Valid()
      ensures var out := AcquireStep(options, hooks, healthy, factory, now, old(State()));
        State() == out.state && result == out.result && calledFactory == out.calledFactory
    {
      if closed {
        return Failure(ClosedError), false;
      }
      if permits == 0 {
        return Failure(AcquireTimeoutError), false;
      }
      permits := permits - 1;

      var reused := ReuseIdle(now, healthy);
      if reused.Some? {
        lent := lent + multiset{reused.value};
        return Success(reused.value), false;
      }

      calledFactory := true;
      match factory
      case Failure(err) =>
        permits := permits + 1;
        result := Failure(err);
      case Success(res) =>
        var created := AfterCreateResult(hooks, res);
        if created.Failure? {
          closedLog := closedLog + [res];
          permits := permits + 1;
          result := Failure(created.error);
        } else {
          lent := lent + multiset{res};
          result := Success(res);
        }
    }

    /** Dropping a `PoolConnection` that holds `res`: requeue or close, then return the permit. */
    method Release(res: R, now: nat, healthy: R -> bool)
      requires Valid() && res in lent
      modifies this
      ensures Valid()
      ensures State() == ReleaseStep(hooks, healthy, now, res, old(State()))
    {
      if closed || !healthy(res) {
        closedLog := closedLog + [res];
      } else if AfterReleaseAccepts(hooks, res) {
        idle := idle + [Entry(res, now)];
      } else {
        closedLog := closedLog + [res];
      }
      permits := permits + 1;
      lent := lent - multiset{res};
    }

    /** `cleanup_idle_with`: drain the queue, close what is expired or unhealthy, put the rest back. */
    method Cleanup(now: nat, healthy: R -> bool)
      requires Valid()
      modifies this
      ensures Valid()
      ensures State() == CleanupStep(options, healthy, now, old(State()))
    {
      var drained := idle;
      idle := [];
      var keep: seq<Entry<R>> := [];
      for n := 0 to |drained|
        invariant idle == []
        invariant keep + Kept(options, healthy, now, drained[n..]) == Kept(options, healthy, now, drained)
        invariant closedLog + Resources(Dropped(options, healthy, now, drained[n..]))
               == old(closedLog) + Resources(Dropped(options, healthy, now, drained))
        invariant closed == old(closed) && permits == old(permits) && lent == old(lent)
      {
        var e := drained[n];
        var expired := false;
        if Exceeds(options.maxLifetime, e.since, now) {
          expired := true;
        }
        if Exceeds(options.idleTimeout, e.since, now) {
          expired := true;
        }
        ghost var rest := drained[n + 1..];
        assert drained[n..][0] == e && drained[n..][1..] == rest;
        assert (expired || !healthy(e.res)) == !Acceptable(options, healthy, now, e);
        if expired || !healthy(e.res) {
          ghost var dropped := Dropped(options, healthy, now, rest);
          assert Dropped(options, healthy, now, drained[n..]) == [e] + dropped;
          assert Kept(options, healthy, now, drained[n..]) == Kept(options, healthy, now, rest);
          assert Resources([e] + dropped) == [e.res] + Resources(dropped) by {
            assert ([e] + dropped)[1..] == dropped;
          }
          AppendAssoc(closedLog, [e.res], Resources(dropped));
          closedLog := closedLog + [e.res];
        } else {
          assert Kept(options, healthy, now, drained[n..]) == [e] + Kept(options, healthy, now, rest);
          assert Dropped(options, healthy, now, drained[n..]) == Dropped(options, healthy, now, rest);
          AppendAssoc(keep, [e], Kept(options, healthy, now, rest));
          keep := keep + [e];
        }
      }
      if keep != [] {
        idle := idle + keep;
      }
    }

    /** `Pool::close`: set the flag, then close every idle resource front first. */
    method Close()
      requires Valid()
      modifies this
      ensures Valid()
      ensures State() == CloseStep(old(State()))
    {
      closed := true;
      while idle != []
        invariant closedLog + Resources(idle) == old(closedLog) + Resources(old(idle))
        invariant closed && permits == old(permits) && lent == old(lent)
        decreases |idle|
      {
        var r := idle[0].res;
        AppendAssoc(closedLog, [r], Resources(idle[1..]));
        idle := idle[1..];
        closedLog := closedLog + [r];
      }
    }

    /** `Pool::stats`. */
    function Stats(): (st: PoolStats)
      reads this
      requires Valid()
      ensures st == StatsOf(options, State())
      ensures st.max == |lent| + permits
      ensures st.closed ==> st.idle == 0
    {
      PoolStats(|idle|, options.maxConnections, closed)
    }

    /** `Pool::is_closed`. */
    function IsClosed(): (b: bool)
      reads this
      requires Valid()
      ensures b == closed
      ensures b ==> idle == []
    {
      closed
    }
  }
}
