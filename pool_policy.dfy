/**
  The idle-queue policy of the generic resource pool, as pure state transitions.

  A pool state holds the FIFO queue of idle entries `(resource, returned_at)`, the
  closed flag and the number of free semaphore permits.  Two pieces of bookkeeping
  make the source's side effects observable: `lent`, the resources currently held
  by live `PoolConnection`s (each of which owns one permit), and `closedLog`, the
  resources on which the pool has called `close()`, in call order.

  Time is a natural-number clock in milliseconds; `now` is passed to every step.
  Resource health and the three hooks are oracles supplied by the caller.
*/
module PoolPolicy {
  import opened Wrappers

  /** `PoolOptions`: every duration is a number of milliseconds. */
  datatype PoolOptions = PoolOptions(
    maxConnections: nat,
    acquireTimeout: nat,
    idleTimeout: Option<nat>,
    maxLifetime: Option<nat>,
    healthCheckInterval: nat)

  /** `PoolOptions::default()`. */
  const DefaultOptions: PoolOptions :=
    PoolOptions(10, 5000, Some(300000), Some(3600000), 30000)

  /** The pool's own error kinds; `Other` stands for any error a factory or hook returns. */
  datatype PoolError =
    | Protocol(msg: string)
    | PoolExhausted
    | Timeout(msg: string)
    | Other(msg: string)

  const ClosedError: PoolError := Protocol("Pool closed")
  const AcquireTimeoutError: PoolError := Timeout("Pool acquire timeout")

  /** `PoolConnectionMetadata`, passed to every hook. */
  datatype Metadata = Metadata(age: nat, idleFor: nat)

  type UnitHook<!R> = (R, Metadata) -> Result<(), PoolError>
  type BoolHook<!R> = (R, Metadata) -> Result<bool, PoolError>

  /** `PoolHooks`: each hook is optional. */
  datatype Hooks<!R> = Hooks(
    afterCreate: Option<UnitHook<R>>,
    beforeAcquire: Option<BoolHook<R>>,
    afterRelease: Option<BoolHook<R>>)

  /** The pool built by `Pool::new`, which has no hooks. */
  function NoHooks<R>(): Hooks<R> {
    Hooks(None, None, None)
  }

  /** An idle queue entry: the resource and the time it was last pushed to idle. */
  datatype Entry<R> = Entry(res: R, since: nat)

  datatype PoolState<R> = PoolState(
    idle: seq<Entry<R>>,
    closed: bool,
    permits: nat,
    lent: multiset<R>,
    closedLog: seq<R>)

  /** `PoolStats`. */
  datatype PoolStats = PoolStats(idle: nat, max: nat, closed: bool)

  /** What `pop_idle_healthy` yields: the popped entry (if any), the queue left and the resources closed. */
  datatype PopOutcome<R> = PopOutcome(popped: Option<Entry<R>>, rest: seq<Entry<R>>, closed: seq<R>)

  /** What the reuse loop of `acquire` yields. */
  datatype ReuseOutcome<R> = ReuseOutcome(reused: Option<R>, rest: seq<Entry<R>>, closed: seq<R>)

  /** What `acquire` leaves behind: the new state, its return value, and whether it ran the factory. */
  datatype AcquireOutcome<R> = AcquireOutcome(
    state: PoolState<R>,
    result: Result<R, PoolError>,
    calledFactory: bool)

  // ---------------------------------------------------------------------------
  // Expiry, health and hook verdicts
  // ---------------------------------------------------------------------------

  /** `since.elapsed()` at time `now`; like `Instant::elapsed` it saturates at zero. */
  function Elapsed(since: nat, now: nat): nat {
    if since <= now then now - since else 0
  }

  /** An optional limit is exceeded only when the elapsed time is strictly greater. */
  predicate Exceeds(limit: Option<nat>, since: nat, now: nat) {
    limit.Some? && Elapsed(since, now) > limit.value
  }

  /** Past `max_lifetime` or past `idle_timeout`, both measured from `since`. */
  predicate Expired<R>(opts: PoolOptions, e: Entry<R>, now: nat) {
    Exceeds(opts.maxLifetime, e.since, now) || Exceeds(opts.idleTimeout, e.since, now)
  }

  /** Neither expired nor unhealthy: what both the idle pop and the cleanup sweep keep. */
  predicate Acceptable<R>(opts: PoolOptions, healthy: R -> bool, now: nat, e: Entry<R>) {
    !Expired(opts, e, now) && healthy(e.res)
  }

  /** `before_acquire` accepts the idle entry (an absent hook accepts everything). */
  predicate BeforeAcquireAccepts<R>(hooks: Hooks<R>, now: nat, e: Entry<R>) {
    match hooks.beforeAcquire
    case None => true
    case Some(cb) =>
      var verdict := cb(e.res, Metadata(0, Elapsed(e.since, now)));
      verdict.Success? && verdict.value
  }

  /** The verdict of `after_create` on a freshly created resource (an absent hook succeeds). */
  function AfterCreateResult<R>(hooks: Hooks<R>, res: R): Result<(), PoolError> {
    match hooks.afterCreate
    case None => Success(())
    case Some(cb) => cb(res, Metadata(0, 0))
  }

  /** `after_release` lets the resource back into idle (an absent hook always does). */
  predicate AfterReleaseAccepts<R>(hooks: Hooks<R>, res: R) {
    match hooks.afterRelease
    case None => true
    case Some(cb) =>
      var verdict := cb(res, Metadata(0, 0));
      verdict.Success? && verdict.value
  }

  /** An idle entry that `acquire` hands out: acceptable and accepted by `before_acquire`. */
  predicate Reusable<R>(opts: PoolOptions, hooks: Hooks<R>, healthy: R -> bool, now: nat, e: Entry<R>) {
    Acceptable(opts, healthy, now, e) && BeforeAcquireAccepts(hooks, now, e)
  }

  // ---------------------------------------------------------------------------
  // Queue functions
  // ---------------------------------------------------------------------------

  /** The resources of a run of entries, in queue order. */
  function Resources<R>(q: seq<Entry<R>>): (rs: seq<R>)
    ensures |rs| == |q|
    ensures forall i :: 0 <= i < |q| ==> rs[i] == q[i].res
  {
    if q == [] then [] else [q[0].res] + Resources(q[1..])
  }

  /** The index of the first acceptable entry, or `|q|` when there is none. */
  function FirstAcceptable<R>(opts: PoolOptions, healthy: R -> bool, now: nat, q: seq<Entry<R>>): (k: nat)
    ensures k <= |q|
    ensures forall j :: 0 <= j < k ==> !Acceptable(opts, healthy, now, q[j])
    ensures k < |q| ==> Acceptable(opts, healthy, now, q[k])
  {
    if q == [] then 0
    else if Acceptable(opts, healthy, now, q[0]) then 0
    else 1 + FirstAcceptable(opts, healthy, now, q[1..])
  }

  /** The index of the first reusable entry, or `|q|` when there is none. */
  function FirstReusable<R>(opts: PoolOptions, hooks: Hooks<R>, healthy: R -> bool, now: nat, q: seq<Entry<R>>): (k: nat)
    ensures k <= |q|
    ensures forall j :: 0 <= j < k ==> !Reusable(opts, hooks, healthy, now, q[j])
    ensures k < |q| ==> Reusable(opts, hooks, healthy, now, q[k])
  {
    if q == [] then 0
    else if Reusable(opts, hooks, healthy, now, q[0]) then 0
    else 1 + FirstReusable(opts, hooks, healthy, now, q[1..])
  }

  /** The entries the cleanup sweep keeps, in queue order. */
  function Kept<R>(opts: PoolOptions, healthy: R -> bool, now: nat, q: seq<Entry<R>>): seq<Entry<R>> {
    if q == [] then []
    else (if Acceptable(opts, healthy, now, q[0]) then [q[0]] else [])
         + Kept(opts, healthy, now, q[1..])
  }

  /** The entries the cleanup sweep closes, in queue order. */
  function Dropped<R>(opts: PoolOptions, healthy: R -> bool, now: nat, q: seq<Entry<R>>): seq<Entry<R>> {
    if q == [] then []
    else (if Acceptable(opts, healthy, now, q[0]) then [] else [q[0]])
         + Dropped(opts, healthy, now, q[1..])
  }

  /**
    `pop_idle_healthy`: pop from the front, closing each expired or unhealthy entry,
    until an acceptable entry is popped or the queue is empty.
  */
  function PopIdle<R>(opts: PoolOptions, healthy: R -> bool, now: nat, q: seq<Entry<R>>): (p: PopOutcome<R>)
    ensures p.popped.Some? ==> |p.rest| < |q|
    ensures p.popped.None? ==> p.rest == []
  {
    if q == [] then PopOutcome(None, [], [])
    else if Acceptable(opts, healthy, now, q[0]) then PopOutcome(Some(q[0]), q[1..], [])
    else
      var p := PopIdle(opts, healthy, now, q[1..]);
      PopOutcome(p.popped, p.rest, [q[0].res] + p.closed)
  }

  /**
    The reuse loop of `acquire`, one `pop_idle_healthy` call per step: the resource it
    hands out (if any), the idle queue it leaves and the resources it closes, in order.
  */
  function ReuseScan<R>(opts: PoolOptions, hooks: Hooks<R>, healthy: R -> bool, now: nat,
                        q: seq<Entry<R>>): ReuseOutcome<R>
    decreases |q|
  {
    var p := PopIdle(opts, healthy, now, q);
    match p.popped
    case None => ReuseOutcome(None, [], p.closed)
    case Some(e) =>
      if BeforeAcquireAccepts(hooks, now, e) then ReuseOutcome(Some(e.res), p.rest, p.closed)
      else
        var r := ReuseScan(opts, hooks, healthy, now, p.rest);
        ReuseOutcome(r.reused, r.rest, p.closed + [e.res] + r.closed)
  }

  // ---------------------------------------------------------------------------
  // State transitions
  // ---------------------------------------------------------------------------

  /**
    The pool invariant: every permit is either free or owned by a live connection,
    and a closed pool holds no idle resource.
  */
  ghost predicate Inv<R>(opts: PoolOptions, s: PoolState<R>) {
    && |s.lent| + s.permits == opts.maxConnections
    && (s.closed ==> s.idle == [])
  }

  /** The state `Pool::new` creates. */
  ghost function Init<R>(opts: PoolOptions): (s: PoolState<R>)
    ensures Inv(opts, s)
    ensures s.idle == [] && !s.closed && s.lent == multiset{} && s.closedLog == []
  {
    PoolState([], false, opts.maxConnections, multiset{}, [])
  }

  /**
    `Pool::acquire`. A closed pool fails at once. Without a free permit the
    acquire can only time out. Otherwise idle entries are popped from the front,
    closing each one that is expired, unhealthy or rejected by `before_acquire`,
    until one is reused; when none is, the factory's result is run through
    `after_create`. The permit is given back whenever an error is returned.
  */
  ghost function AcquireStep<R>(opts: PoolOptions, hooks: Hooks<R>, healthy: R -> bool,
                                factory: Result<R, PoolError>, now: nat, s: PoolState<R>): AcquireOutcome<R>
  {
    if s.closed then AcquireOutcome(s, Failure(ClosedError), false)
    else if s.permits == 0 then AcquireOutcome(s, Failure(AcquireTimeoutError), false)
    else
      var scan := ReuseScan(opts, hooks, healthy, now, s.idle);
      var scanned := s.(idle := scan.rest, closedLog := s.closedLog + scan.closed);
      match scan.reused
      case Some(res) =>
        AcquireOutcome(scanned.(permits := s.permits - 1, lent := s.lent + multiset{res}), Success(res), false)
      case None =>
        match factory
        case Failure(e) => AcquireOutcome(scanned, Failure(e), true)
        case Success(res) =>
          match AfterCreateResult(hooks, res)
          case Failure(e) =>
            AcquireOutcome(scanned.(closedLog := scanned.closedLog + [res]), Failure(e), true)
          case Success(_) =>
            AcquireOutcome(scanned.(permits := s.permits - 1, lent := s.lent + multiset{res}), Success(res), true)
  }

  /**
    Dropping a `PoolConnection` that holds `res`. The resource is closed when the
    pool is closed, when it is unhealthy or when `after_release` does not accept
    it; otherwise it goes to the back of idle stamped with `now`. The permit is
    returned on every path.
  */
  ghost function ReleaseStep<R>(hooks: Hooks<R>, healthy: R -> bool, now: nat, res: R,
                                s: PoolState<R>): PoolState<R>
    requires res in s.lent
  {
    var returned := s.(permits := s.permits + 1, lent := s.lent - multiset{res});
    if s.closed || !healthy(res) then returned.(closedLog := s.closedLog + [res])
    else if AfterReleaseAccepts(hooks, res) then returned.(idle := s.idle + [Entry(res, now)])
    else returned.(closedLog := s.closedLog + [res])
  }

  /** `cleanup_idle_with`: one maintenance sweep over the whole idle queue. */
  ghost function CleanupStep<R>(opts: PoolOptions, healthy: R -> bool, now: nat, s: PoolState<R>): PoolState<R> {
    s.(idle := Kept(opts, healthy, now, s.idle),
       closedLog := s.closedLog + Resources(Dropped(opts, healthy, now, s.idle)))
  }

  /** `Pool::close`: mark closed and close every idle resource, front first. */
  ghost function CloseStep<R>(s: PoolState<R>): PoolState<R> {
    s.(closed := true, idle := [], closedLog := s.closedLog + Resources(s.idle))
  }

  /** `Pool::stats`. */
  ghost function StatsOf<R>(opts: PoolOptions, s: PoolState<R>): PoolStats {
    PoolStats(|s.idle|, opts.maxConnections, s.closed)
  }

  // ---------------------------------------------------------------------------
  // Lemmas about the queue functions
  // ---------------------------------------------------------------------------

  lemma {:induction false} ResourcesConcat<R>(a: seq<Entry<R>>, b: seq<Entry<R>>)
    ensures Resources(a + b) == Resources(a) + Resources(b)
  {
    if a == [] {
      assert a + b == b;
    } else {
      assert (a + b)[1..] == a[1..] + b;
      ResourcesConcat(a[1..], b);
    }
  }

  lemma KeptSingle<R>(opts: PoolOptions, healthy: R -> bool, now: nat, e: Entry<R>)
    ensures Kept(opts, healthy, now, [e]) == if Acceptable(opts, healthy, now, e) then [e] else []
    ensures Dropped(opts, healthy, now, [e]) == if Acceptable(opts, healthy, now, e) then [] else [e]
  {
    assert [e][1..] == [];
  }

  /** The cleanup sweep keeps exactly the acceptable entries. */
  lemma {:induction false} KeptMembers<R>(opts: PoolOptions, healthy: R -> bool, now: nat, q: seq<Entry<R>>)
    ensures forall e :: e in Kept(opts, healthy, now, q) <==> e in q && Acceptable(opts, healthy, now, e)
    ensures forall e :: e in Dropped(opts, healthy, now, q) <==> e in q && !Acceptable(opts, healthy, now, e)
  {
    if q != [] {
      KeptMembers(opts, healthy, now, q[1..]);
      assert q == [q[0]] + q[1..];
    }
  }

  /** Kept and Dropped are computed entry by entry, so they keep the queue's relative order. */
  lemma {:induction false} KeptConcat<R>(opts: PoolOptions, healthy: R -> bool, now: nat, a: seq<Entry<R>>, b: seq<Entry<R>>)
    ensures Kept(opts, healthy, now, a + b) == Kept(opts, healthy, now, a) + Kept(opts, healthy, now, b)
    ensures Dropped(opts, healthy, now, a + b) == Dropped(opts, healthy, now, a) + Dropped(opts, healthy, now, b)
  {
    if a == [] {
      assert a + b == b;
    } else {
      assert (a + b)[0] == a[0];
      assert (a + b)[1..] == a[1..] + b;
      KeptConcat(opts, healthy, now, a[1..], b);
    }
  }

  /** Every idle entry is either kept or closed by the sweep, and none is both or lost. */
  lemma {:induction false} KeptDroppedPartition<R>(opts: PoolOptions, healthy: R -> bool, now: nat, q: seq<Entry<R>>)
    ensures multiset(Kept(opts, healthy, now, q)) + multiset(Dropped(opts, healthy, now, q)) == multiset(q)
  {
    if q != [] {
      KeptDroppedPartition(opts, healthy, now, q[1..]);
      assert q == [q[0]] + q[1..];
    }
  }

  /** Sweeping twice at the same instant with the same health verdicts keeps what one sweep keeps. */
  lemma {:induction false} KeptIdempotent<R>(opts: PoolOptions, healthy: R -> bool, now: nat, q: seq<Entry<R>>)
    ensures Kept(opts, healthy, now, Kept(opts, healthy, now, q)) == Kept(opts, healthy, now, q)
    ensures Dropped(opts, healthy, now, Kept(opts, healthy, now, q)) == []
  {
    if q != [] {
      var head := if Acceptable(opts, healthy, now, q[0]) then [q[0]] else [];
      var rest := Kept(opts, healthy, now, q[1..]);
      KeptIdempotent(opts, healthy, now, q[1..]);
      KeptConcat(opts, healthy, now, head, rest);
      if head != [] {
        assert Kept(opts, healthy, now, head) == head by {
          assert head[1..] == [];
        }
        assert Dropped(opts, healthy, now, head) == [] by {
          assert head[1..] == [];
        }
      }
    }
  }

  /** Right after a sweep, the next idle pop discards nothing. */
  lemma {:induction false} KeptFrontAcceptable<R>(opts: PoolOptions, healthy: R -> bool, now: nat, q: seq<Entry<R>>)
    ensures FirstAcceptable(opts, healthy, now, Kept(opts, healthy, now, q)) == 0
  {
    var k := Kept(opts, healthy, now, q);
    KeptMembers(opts, healthy, now, q);
    if k != [] {
      assert k[0] in k;
      assert Acceptable(opts, healthy, now, k[0]);
    }
  }

  /** `FirstReusable` is the index fixed by its two defining properties. */
  lemma FirstReusableIs<R>(opts: PoolOptions, hooks: Hooks<R>, healthy: R -> bool, now: nat, q: seq<Entry<R>>, i: nat)
    requires i <= |q|
    requires forall j :: 0 <= j < i ==> !Reusable(opts, hooks, healthy, now, q[j])
    requires i < |q| ==> Reusable(opts, hooks, healthy, now, q[i])
    ensures FirstReusable(opts, hooks, healthy, now, q) == i
  {
  }

  /**
    `pop_idle_healthy` returns the first acceptable entry, having closed every entry in
    front of it, and leaves the entries behind it queued in order; when there is none
    it closes the whole queue.
  */
  lemma {:induction false} PopIdleTakesFirstAcceptable<R>(opts: PoolOptions, healthy: R -> bool, now: nat,
                                                        q: seq<Entry<R>>)
    ensures var k := FirstAcceptable(opts, healthy, now, q); var p := PopIdle(opts, healthy, now, q);
      && (k < |q| ==> p.popped == Some(q[k]) && p.rest == q[k + 1..] && p.closed == Resources(q[..k]))
      && (k == |q| ==> p.popped == None && p.rest == [] && p.closed == Resources(q))
  {
    if q != [] && !Acceptable(opts, healthy, now, q[0]) {
      var tail := q[1..];
      PopIdleTakesFirstAcceptable(opts, healthy, now, tail);
      var k := FirstAcceptable(opts, healthy, now, tail);
      if k < |tail| {
        assert q[1 + k] == tail[k] && q[1 + k + 1..] == tail[k + 1..];
        assert q[..1 + k][1..] == tail[..k];
      } else {
        assert tail[..k] == tail;
      }
    } else if q != [] {
      assert q[..0] == [];
    }
  }

  /** Past a front entry that is not reusable, the reuse loop goes on as it would on the rest, having closed that entry. */
  lemma ReuseScanSkips<R>(opts: PoolOptions, hooks: Hooks<R>, healthy: R -> bool, now: nat, q: seq<Entry<R>>)
    requires q != [] && !Reusable(opts, hooks, healthy, now, q[0])
    ensures var r := ReuseScan(opts, hooks, healthy, now, q); var r' := ReuseScan(opts, hooks, healthy, now, q[1..]);
      r.reused == r'.reused && r.rest == r'.rest && r.closed == [q[0].res] + r'.closed
  {
    var r' := ReuseScan(opts, hooks, healthy, now, q[1..]);
    if Acceptable(opts, healthy, now, q[0]) {
      assert [] + [q[0].res] + r'.closed == [q[0].res] + r'.closed;
    } else {
      var p' := PopIdle(opts, healthy, now, q[1..]);
      if p'.popped.Some? && !BeforeAcquireAccepts(hooks, now, p'.popped.value) {
        var e := p'.popped.value;
        var r'' := ReuseScan(opts, hooks, healthy, now, p'.rest);
        assert ([q[0].res] + p'.closed) + [e.res] + r''.closed == [q[0].res] + (p'.closed + [e.res] + r''.closed);
      }
    }
  }

  /**
    The reuse loop hands out the first reusable entry, having closed every entry in
    front of it, and leaves the entries behind it queued; when there is none it
    closes the whole queue.
  */
  lemma {:induction false} ReuseScanTakesFirstReusable<R>(opts: PoolOptions, hooks: Hooks<R>, healthy: R -> bool,
                                                          now: nat, q: seq<Entry<R>>)
    ensures var k := FirstReusable(opts, hooks, healthy, now, q); var r := ReuseScan(opts, hooks, healthy, now, q);
      && (k < |q| ==> r.reused == Some(q[k].res) && r.rest == q[k + 1..] && r.closed == Resources(q[..k]))
      && (k == |q| ==> r.reused == None && r.rest == [] && r.closed == Resources(q))
    decreases |q|
  {
    if q != [] && !Reusable(opts, hooks, healthy, now, q[0]) {
      var tail := q[1..];
      ReuseScanSkips(opts, hooks, healthy, now, q);
      ReuseScanTakesFirstReusable(opts, hooks, healthy, now, tail);
      var k := FirstReusable(opts, hooks, healthy, now, tail);
      if k < |tail| {
        assert q[1 + k] == tail[k] && q[1 + k + 1..] == tail[k + 1..];
        assert q[..1 + k][1..] == tail[..k];
      }
    } else if q != [] {
      assert q[..0] == [];
    }
  }

  // ---------------------------------------------------------------------------
  // Lemmas about acquire
  // ---------------------------------------------------------------------------

  /** On a closed pool, acquire fails with "Pool closed", never runs the factory, and changes nothing. */
  lemma AcquireOnClosedPool<R>(opts: PoolOptions, hooks: Hooks<R>, healthy: R -> bool,
                               factory: Result<R, PoolError>, now: nat, s: PoolState<R>)
    requires s.closed
    ensures AcquireStep(opts, hooks, healthy, factory, now, s) == AcquireOutcome(s, Failure(ClosedError), false)
  {
  }

  /** An acquire preserves the pool invariant. */
  lemma AcquirePreservesInv<R>(opts: PoolOptions, hooks: Hooks<R>, healthy: R -> bool,
                               factory: Result<R, PoolError>, now: nat, s: PoolState<R>)
    requires Inv(opts, s)
    ensures Inv(opts, AcquireStep(opts, hooks, healthy, factory, now, s).state)
  {
  }

  /**
    A successful acquire takes one permit and lends out the resource it returns;
    a failing one hands out nothing and leaves the permits as they were.
  */
  lemma AcquirePermitAccounting<R>(opts: PoolOptions, hooks: Hooks<R>, healthy: R -> bool,
                                   factory: Result<R, PoolError>, now: nat, s: PoolState<R>)
    ensures var out := AcquireStep(opts, hooks, healthy, factory, now, s);
      && (out.result.Success? ==>
            out.state.permits + 1 == s.permits && out.state.lent == s.lent + multiset{out.result.value})
      && (out.result.Failure? ==> out.state.permits == s.permits && out.state.lent == s.lent)
      && out.state.closed == s.closed
  {
  }

  /** The factory runs exactly when the pool is open, a permit is free and no idle entry is reusable. */
  lemma AcquireCallsFactoryIff<R>(opts: PoolOptions, hooks: Hooks<R>, healthy: R -> bool,
                                  factory: Result<R, PoolError>, now: nat, s: PoolState<R>)
    ensures AcquireStep(opts, hooks, healthy, factory, now, s).calledFactory <==>
      && !s.closed && s.permits > 0
      && forall j :: 0 <= j < |s.idle| ==> !Reusable(opts, hooks, healthy, now, s.idle[j])
  {
    ReuseScanTakesFirstReusable(opts, hooks, healthy, now, s.idle);
    if !s.closed && s.permits > 0 {
      var k := FirstReusable(opts, hooks, healthy, now, s.idle);
      if k < |s.idle| {
        assert Reusable(opts, hooks, healthy, now, s.idle[k]);
      }
    }
  }

  /**
    When some idle entry is reusable, acquire hands out the first one; every entry in
    front of it is closed in queue order, and the entries behind it stay queued in order.
  */
  lemma AcquireReusesFirstReusable<R>(opts: PoolOptions, hooks: Hooks<R>, healthy: R -> bool,
                                      factory: Result<R, PoolError>, now: nat, s: PoolState<R>, j: nat)
    requires !s.closed && s.permits > 0
    requires j < |s.idle| && Reusable(opts, hooks, healthy, now, s.idle[j])
    ensures var out := AcquireStep(opts, hooks, healthy, factory, now, s);
      exists k :: 0 <= k <= j
        && out.result == Success(s.idle[k].res) && !out.calledFactory
        && Reusable(opts, hooks, healthy, now, s.idle[k])
        && (forall i :: 0 <= i < k ==> !Reusable(opts, hooks, healthy, now, s.idle[i]))
        && s.idle == s.idle[..k] + [s.idle[k]] + out.state.idle
        && out.state.closedLog == s.closedLog + Resources(s.idle[..k])
  {
    ReuseScanTakesFirstReusable(opts, hooks, healthy, now, s.idle);
    var k := FirstReusable(opts, hooks, healthy, now, s.idle);
    assert k <= j;
    assert s.idle == s.idle[..k] + [s.idle[k]] + s.idle[k + 1..];
  }

  /**
    When no idle entry is reusable, acquire closes all of them and runs the factory;
    it succeeds exactly when the factory and `after_create` do, and a resource that
    `after_create` rejects is closed.
  */
  lemma AcquireCreatesWhenNothingReusable<R>(opts: PoolOptions, hooks: Hooks<R>, healthy: R -> bool,
                                             factory: Result<R, PoolError>, now: nat, s: PoolState<R>)
    requires !s.closed && s.permits > 0
    requires forall j :: 0 <= j < |s.idle| ==> !Reusable(opts, hooks, healthy, now, s.idle[j])
    ensures var out := AcquireStep(opts, hooks, healthy, factory, now, s);
      && out.calledFactory && out.state.idle == []
      && (out.result.Success? <==>
            factory.Success? && AfterCreateResult(hooks, factory.value).Success?)
      && (out.result.Success? ==>
            out.result.value == factory.value && out.state.closedLog == s.closedLog + Resources(s.idle))
      && (factory.Failure? ==>
            out.result == Failure(factory.error) && out.state.closedLog == s.closedLog + Resources(s.idle))
      && (factory.Success? && AfterCreateResult(hooks, factory.value).Failure? ==>
            && out.result == Failure(AfterCreateResult(hooks, factory.value).error)
            && out.state.closedLog == s.closedLog + Resources(s.idle) + [factory.value])
  {
    ReuseScanTakesFirstReusable(opts, hooks, healthy, now, s.idle);
    FirstReusableIs(opts, hooks, healthy, now, s.idle, |s.idle|);
    assert s.idle[..|s.idle|] == s.idle;
  }

  // ---------------------------------------------------------------------------
  // Lemmas about release, cleanup, close and stats
  // ---------------------------------------------------------------------------

  /** Dropping a connection always returns its permit and preserves the invariant. */
  lemma ReleaseReturnsPermit<R>(opts: PoolOptions, hooks: Hooks<R>, healthy: R -> bool, now: nat,
                                res: R, s: PoolState<R>)
    requires Inv(opts, s) && res in s.lent
    ensures var t := ReleaseStep(hooks, healthy, now, res, s);
      && Inv(opts, t)
      && t.permits == s.permits + 1
      && t.lent == s.lent - multiset{res}
      && t.closed == s.closed
  {
  }

  /**
    A released resource is requeued at the back, stamped `now`, exactly when the pool
    is open, the resource is healthy and `after_release` accepts it; otherwise it is
    closed and idle is untouched.
  */
  lemma ReleaseRequeuesIff<R>(hooks: Hooks<R>, healthy: R -> bool, now: nat, res: R, s: PoolState<R>)
    requires res in s.lent
    ensures var t := ReleaseStep(hooks, healthy, now, res, s);
      var requeue := !s.closed && healthy(res) && AfterReleaseAccepts(hooks, res);
      && (t.idle == s.idle + [Entry(res, now)] <==> requeue)
      && (requeue ==> t.closedLog == s.closedLog)
      && (!requeue ==> t.idle == s.idle && t.closedLog == s.closedLog + [res])
  {
    var t := ReleaseStep(hooks, healthy, now, res, s);
    if !(!s.closed && healthy(res) && AfterReleaseAccepts(hooks, res)) {
      assert |t.idle| != |s.idle + [Entry(res, now)]|;
    }
  }

  /**
    The sweep keeps exactly the idle entries that are neither expired nor unhealthy,
    closes all the others, and loses none.
  */
  lemma CleanupKeepsExactlyAcceptable<R>(opts: PoolOptions, healthy: R -> bool, now: nat, s: PoolState<R>)
    ensures var t := CleanupStep(opts, healthy, now, s);
      var closedNow := Dropped(opts, healthy, now, s.idle);
      && (forall e :: e in t.idle <==> e in s.idle && Acceptable(opts, healthy, now, e))
      && (forall e :: e in closedNow <==> e in s.idle && !Acceptable(opts, healthy, now, e))
      && multiset(t.idle) + multiset(closedNow) == multiset(s.idle)
      && t.closedLog == s.closedLog + Resources(closedNow)
      && t.closed == s.closed && t.permits == s.permits && t.lent == s.lent
  {
    KeptMembers(opts, healthy, now, s.idle);
    KeptDroppedPartition(opts, healthy, now, s.idle);
  }

  /** The sweep preserves the pool invariant. */
  lemma CleanupPreservesInv<R>(opts: PoolOptions, healthy: R -> bool, now: nat, s: PoolState<R>)
    requires Inv(opts, s)
    ensures Inv(opts, CleanupStep(opts, healthy, now, s))
  {
  }

  /** A second sweep at the same instant changes nothing: no entry is closed twice. */
  lemma CleanupIdempotent<R>(opts: PoolOptions, healthy: R -> bool, now: nat, s: PoolState<R>)
    ensures var t := CleanupStep(opts, healthy, now, s);
      CleanupStep(opts, healthy, now, t) == t
  {
    KeptIdempotent(opts, healthy, now, s.idle);
    var t := CleanupStep(opts, healthy, now, s);
    assert t.closedLog + Resources([]) == t.closedLog;
  }

  /**
    Close marks the pool closed and closes every idle resource front first; the stats
    then report a closed pool with no idle entry, and every later acquire fails with
    "Pool closed" without running the factory.
  */
  lemma CloseDrainsIdle<R>(opts: PoolOptions, hooks: Hooks<R>, healthy: R -> bool,
                           factory: Result<R, PoolError>, now: nat, s: PoolState<R>)
    requires Inv(opts, s)
    ensures var t := CloseStep(s);
      && Inv(opts, t)
      && t.closedLog == s.closedLog + Resources(s.idle)
      && StatsOf(opts, t) == PoolStats(0, opts.maxConnections, true)
      && AcquireStep(opts, hooks, healthy, factory, now, t) == AcquireOutcome(t, Failure(ClosedError), false)
  {
  }

  /** Once closed, a pool stays closed with an empty idle queue whatever happens next. */
  lemma ClosedIsAbsorbing<R>(opts: PoolOptions, hooks: Hooks<R>, healthy: R -> bool,
                             factory: Result<R, PoolError>, now: nat, res: R, s: PoolState<R>)
    requires Inv(opts, s) && s.closed
    ensures var a := AcquireStep(opts, hooks, healthy, factory, now, s).state;
      a.closed && a.idle == []
    ensures res in s.lent ==>
      var r := ReleaseStep(hooks, healthy, now, res, s);
      r.closed && r.idle == [] && r.closedLog == s.closedLog + [res]
    ensures var c := CleanupStep(opts, healthy, now, s);
      c.closed && c.idle == [] && c.closedLog == s.closedLog
  {
  }

  /** `stats.max` is the configured capacity, which equals held connections plus free permits. */
  lemma StatsReportCapacity<R>(opts: PoolOptions, s: PoolState<R>)
    requires Inv(opts, s)
    ensures StatsOf(opts, s).max == |s.lent| + s.permits
    ensures StatsOf(opts, s).closed ==> StatsOf(opts, s).idle == 0
  {
  }

  /** Both expiry limits compare strictly: with the default 300 s idle timeout an entry idle for exactly 300 s is kept, one idle a millisecond longer is not. */
  lemma DefaultIdleTimeoutIsStrict<R>(r: R, since: nat)
    ensures !Expired(DefaultOptions, Entry(r, since), since + 300000)
    ensures Expired(DefaultOptions, Entry(r, since), since + 300001)
  {
  }
}
