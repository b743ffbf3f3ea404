/** The process-wide Playwright driver shared by reference count
    (dingdongditch/backends/playwright_backend.py: `_start` and `_stop`). The two locked
    sections are the methods of `DriverPool`; everything else a backend does between them may
    interleave with every other backend. */
module DriverSharing {
  import opened Wrappers

  /** The class-level fields, with the number of drivers ever started. */
  datatype Pool = Pool(shared: Option<nat>, count: int, started: nat)

  /** The locked section of start: reuse the driver or start one, then take a lease on it. */
  function TakeLease(p: Pool, startSucceeds: bool): (r: (Pool, Option<nat>)) {
    match p.shared
    case Some(d) => (p.(count := p.count + 1), Some(d))
    case None =>
      if startSucceeds then (Pool(Some(p.started), p.count + 1, p.started + 1), Some(p.started))
      else (p, None)
  }

  /** The locked section of stop: drop the count, clamped at zero, and the last driver. */
  function DropLease(p: Pool): Pool {
    var count := if p.count - 1 > 0 then p.count - 1 else 0;
    Pool(if count == 0 then None else p.shared, count, p.started)
  }

  class DriverPool {
    var shared: Option<nat>
    var refcount: int
    var started: nat

    ghost function State(): Pool
      reads this
    {
      Pool(shared, refcount, started)
    }

    constructor ()
      ensures State() == Pool(None, 0, 0)
    {
      shared, refcount, started := None, 0, 0;
    }

    /** `None` means that starting the driver raised. */
    method Take(startSucceeds: bool) returns (lease: Option<nat>)
      modifies this
      ensures (State(), lease) == TakeLease(old(State()), startSucceeds)
    {
      if shared.None? {
        if !startSucceeds {
          return None;
        }
        shared := Some(started);
        started := started + 1;
      }
      refcount := refcount + 1;
      return shared;
    }

    /** `stopped` is the driver that was shut down. */
    method Drop() returns (stopped: Option<nat>)
      modifies this
      ensures State() == DropLease(old(State()))
      ensures stopped == if State().count == 0 then old(shared) else None
    {
      stopped := None;
      refcount := if refcount - 1 > 0 then refcount - 1 else 0;
      if refcount == 0 {
        stopped := shared;
        shared := None;
      }
    }
  }

  // ---------------------------------------------------------------------------
  // Backends, each at its own place in start or stop

  datatype Place = Idle | Starting | Leased | Launched | InContext | Running | Stopping | Released

  datatype Backend = Backend(
    place: Place,
    leaseFlag: bool,
    driver: Option<nat>,
    profile: bool,
    browser: bool,
    context: bool,
    started: bool)

  const FRESH := Backend(Idle, false, None, false, false, false, false)

  datatype Sys = Sys(pool: Pool, backends: map<nat, Backend>)

  /** One uninterruptible piece of some backend's start or stop; `ok` says whether the
      foreign call in it succeeds. */
  datatype Move =
    | BeginStart(profile: bool)
    | StartDriver(ok: bool)
    | LaunchBrowser(ok: bool, persistent: bool)
    | CreateContext(ok: bool)
    | CreatePage(ok: bool)
    | RequestStop
    | ReleaseDriver
    | ClearFields

  /** Entering stop: return at once when nothing is held. */
  function EnterStop(b: Backend): Backend {
    if !b.started && b.driver.None? && !b.browser && !b.context && !b.profile then b.(place := Idle)
    else b.(place := Stopping)
  }

  function MoveBackend(pool: Pool, b: Backend, m: Move): (Pool, Backend) {
    match (b.place, m)
    case (Idle, BeginStart(profile)) => (pool, b.(place := Starting, profile := profile))
    case (Starting, StartDriver(ok)) =>
      var (pool', lease) := TakeLease(pool, ok);
      if lease.None? then (pool', EnterStop(b))
      else (pool', b.(place := Leased, leaseFlag := true, driver := lease))
    case (Leased, LaunchBrowser(ok, persistent)) =>
      if ok then (pool, b.(place := Launched, browser := true, context := persistent)) else (pool, EnterStop(b))
    case (Launched, CreateContext(ok)) =>
      if ok then (pool, b.(place := InContext, context := true)) else (pool, EnterStop(b))
    case (InContext, CreatePage(ok)) =>
      if ok then (pool, b.(place := Running, started := true)) else (pool, EnterStop(b))
    case (Idle, RequestStop) => (pool, EnterStop(b))
    case (Running, RequestStop) => (pool, EnterStop(b))
    case (Stopping, ReleaseDriver) =>
      (if b.leaseFlag then DropLease(pool) else pool, b.(place := Released))
    case (Released, ClearFields) => (pool, FRESH)
    case _ => (pool, b)
  }

  function Step(s: Sys, who: nat, m: Move): Sys {
    if who !in s.backends then s
    else
      var (pool, b) := MoveBackend(s.pool, s.backends[who], m);
      Sys(pool, s.backends[who := b])
  }

  function After(s: Sys, run: seq<(nat, Move)>): Sys {
    if run == [] then s
    else Step(After(s, run[..|run| - 1]), run[|run| - 1].0, run[|run| - 1].1)
  }

  function Begin(names: set<nat>): Sys {
    Sys(Pool(None, 0, 0), map n | n in names :: FRESH)
  }

  // ---------------------------------------------------------------------------
  // The invariant

  /** A lease lasts from the locked increment to the locked decrement. */
  predicate Holds(b: Backend) {
    b.leaseFlag && b.place != Released
  }

  ghost predicate Shaped(b: Backend) {
    match b.place
    case Idle => b == FRESH
    case Starting => b == FRESH.(place := Starting, profile := b.profile)
    case Stopping => b.leaseFlag <==> b.driver.Some?
    case Released => true
    case _ => b.leaseFlag && b.driver.Some?
  }

  ghost function Holders(s: Sys): set<nat> {
    set n | n in s.backends && Holds(s.backends[n])
  }

  ghost predicate Inv(s: Sys) {
    && (forall n :: n in s.backends ==> Shaped(s.backends[n]))
    && s.pool.count == |Holders(s)|
    && (s.pool.shared.Some? <==> s.pool.count > 0)
    && (s.pool.shared.Some? ==> s.pool.shared.value < s.pool.started)
    && (forall n :: n in Holders(s) ==> s.backends[n].driver == s.pool.shared)
  }

  lemma HoldersAfter(s: Sys, who: nat, pool: Pool, b: Backend)
    requires who in s.backends
    ensures var s' := Sys(pool, s.backends[who := b]);
            && (Holds(b) ==> Holders(s') == Holders(s) + {who})
            && (!Holds(b) ==> Holders(s') == Holders(s) - {who})
            && (Holds(s.backends[who]) <==> who in Holders(s))
  {
  }

  /** A lease is taken, or dropped, or the pool and its leases are left alone. */
  ghost predicate Effect(pool: Pool, b: Backend, pool': Pool, b': Backend) {
    || (pool' == pool && Holds(b') == Holds(b) && (Holds(b) ==> b'.driver == b.driver))
    || (!Holds(b) && Holds(b') && exists ok :: (pool', b'.driver) == TakeLease(pool, ok) && b'.driver.Some?)
    || (Holds(b) && !Holds(b') && pool' == DropLease(pool))
  }

  lemma MoveEffect(pool: Pool, b: Backend, m: Move)
    requires Shaped(b)
    ensures Shaped(MoveBackend(pool, b, m).1)
    ensures Effect(pool, b, MoveBackend(pool, b, m).0, MoveBackend(pool, b, m).1)
  {
    match (b.place, m)
    case (Starting, StartDriver(ok)) =>
      assert (MoveBackend(pool, b, m).0, TakeLease(pool, ok).1) == TakeLease(pool, ok);
    case _ =>
  }

  lemma TakingKeepsInv(s: Sys, who: nat, b: Backend, ok: bool)
    requires Inv(s) && who in s.backends && !Holds(s.backends[who]) && Shaped(b) && Holds(b)
    requires b.driver == TakeLease(s.pool, ok).1 && b.driver.Some?
    ensures Inv(Sys(TakeLease(s.pool, ok).0, s.backends[who := b]))
  {
    var pool := TakeLease(s.pool, ok).0;
    HoldersAfter(s, who, pool, b);
    if s.pool.shared.None? {
      assert |Holders(s)| == 0;
    }
  }

  lemma DroppingKeepsInv(s: Sys, who: nat, b: Backend)
    requires Inv(s) && who in s.backends && Holds(s.backends[who]) && Shaped(b) && !Holds(b)
    ensures Inv(Sys(DropLease(s.pool), s.backends[who := b]))
  {
    HoldersAfter(s, who, DropLease(s.pool), b);
    var rest := Holders(s) - {who};
    assert |rest| == |Holders(s)| - 1;
    if |rest| == 0 {
      assert rest == {};
    }
  }

  lemma LeavingAloneKeepsInv(s: Sys, who: nat, b: Backend)
    requires Inv(s) && who in s.backends && Shaped(b) && Holds(b) == Holds(s.backends[who])
    requires Holds(b) ==> b.driver == s.backends[who].driver
    ensures Inv(s.(backends := s.backends[who := b]))
  {
    assert Holders(s.(backends := s.backends[who := b])) == Holders(s);
  }

  lemma EffectKeepsInv(s: Sys, who: nat, pool: Pool, b: Backend)
    requires Inv(s) && who in s.backends && Shaped(b) && Effect(s.pool, s.backends[who], pool, b)
    ensures Inv(Sys(pool, s.backends[who := b]))
  {
    if Holds(s.backends[who]) == Holds(b) {
      LeavingAloneKeepsInv(s, who, b);
    } else if Holds(b) {
      var ok :| (pool, b.driver) == TakeLease(s.pool, ok) && b.driver.Some?;
      TakingKeepsInv(s, who, b, ok);
    } else {
      DroppingKeepsInv(s, who, b);
    }
  }

  lemma StepKeepsInv(s: Sys, who: nat, m: Move)
    requires Inv(s)
    ensures Inv(Step(s, who, m))
  {
    if who in s.backends {
      MoveEffect(s.pool, s.backends[who], m);
      var (pool, b) := MoveBackend(s.pool, s.backends[who], m);
      EffectKeepsInv(s, who, pool, b);
    }
  }

  lemma {:induction false} RunKeepsInv(s: Sys, run: seq<(nat, Move)>)
    requires Inv(s)
    ensures Inv(After(s, run))
  {
    if run != [] {
      RunKeepsInv(s, run[..|run| - 1]);
      StepKeepsInv(After(s, run[..|run| - 1]), run[|run| - 1].0, run[|run| - 1].1);
    }
  }

  lemma BeginHasInv(names: set<nat>)
    ensures Inv(Begin(names))
  {
    assert Holders(Begin(names)) == {};
  }

  // ---------------------------------------------------------------------------
  // The guarantees

  /** For any number of backends and any interleaving of their starts and stops, with failure
      possible at every stage: the count is the number of leases held, the driver exists
      exactly while that number is positive, and all holders hold that one driver. */
  lemma CountIsTheNumberOfLeases(names: set<nat>, run: seq<(nat, Move)>)
    ensures var s := After(Begin(names), run);
            && s.pool.count == |Holders(s)|
            && (s.pool.shared.Some? <==> Holders(s) != {})
            && forall n :: n in Holders(s) ==> s.backends[n].driver == s.pool.shared
  {
    BeginHasInv(names);
    RunKeepsInv(Begin(names), run);
    var s := After(Begin(names), run);
    assert Holders(s) != {} <==> |Holders(s)| > 0;
  }

  /** Whenever the locked decrement runs, the count is positive: the clamp never acts. */
  lemma ClampNeverActs(names: set<nat>, run: seq<(nat, Move)>, who: nat)
    requires var s := After(Begin(names), run);
             who in s.backends && s.backends[who].place == Stopping && s.backends[who].leaseFlag
    ensures After(Begin(names), run).pool.count >= 1
    ensures DropLease(After(Begin(names), run).pool).count == After(Begin(names), run).pool.count - 1
  {
    BeginHasInv(names);
    RunKeepsInv(Begin(names), run);
    var s := After(Begin(names), run);
    assert who in Holders(s);
    assert {who} <= Holders(s);
    assert |Holders(s)| >= 1 by {
      assert Holders(s) == (Holders(s) - {who}) + {who};
    }
  }

  /** A running backend's driver has not been shut down, and when every backend is idle again
      no driver is left behind. */
  lemma NoLeakAndNoEarlyStop(names: set<nat>, run: seq<(nat, Move)>)
    ensures var s := After(Begin(names), run);
            && (forall n :: n in s.backends && s.backends[n].place in {Leased, Launched, InContext, Running} ==>
                  s.pool.shared.Some? && s.backends[n].driver == s.pool.shared)
            && ((forall n :: n in s.backends ==> s.backends[n].place == Idle) ==>
                  s.pool.shared == None && s.pool.count == 0)
  {
    BeginHasInv(names);
    RunKeepsInv(Begin(names), run);
    var s := After(Begin(names), run);
    forall n | n in s.backends && s.backends[n].place in {Leased, Launched, InContext, Running}
      ensures s.pool.shared.Some? && s.backends[n].driver == s.pool.shared
    {
      assert Shaped(s.backends[n]);
      assert n in Holders(s);
    }
    if forall n :: n in s.backends ==> s.backends[n].place == Idle {
      forall n | n in s.backends ensures !Holds(s.backends[n]) {
        assert Shaped(s.backends[n]);
      }
      assert Holders(s) == {};
    }
  }
}
