/** The fail-fast re-entrant ownership scopes of the two backends as a protocol over
    interleaved thread steps (`exclusive_use` in
    dingdongditch/backends/playwright_backend.py and
    dingdongditch/backends/windows_desktop_backend.py). */
module Ownership {
  import opened Wrappers

  /** The two implementations. Only the Playwright one records a scope name, and its exit
      block guards the decrement. */
  datatype Variant = Playwright | Desktop

  /** The re-entrant lock. */
  datatype Lock = Lock(owner: Option<nat>, count: nat)

  /** The backend's own ownership fields. */
  datatype Fields = Fields(thread: Option<nat>, depth: int, scope: Option<string>)

  /** Where a thread is inside `exclusive_use`; `Body` is everywhere else. */
  datatype Phase =
    | Body
    | GotLock(scope: string)
    | Checked(scope: string)
    | Claimed(scope: string)
    | Rejected
    | Leaving
    | Lowered

  /** `nest` lists the scopes the thread is inside, outermost first. */
  datatype Thread = Thread(phase: Phase, nest: seq<string>)

  datatype Sys = Sys(lock: Lock, fields: Fields, threads: map<nat, Thread>)

  /** A thread enters a scope, leaves its innermost scope, or takes its next step. */
  datatype Move = TryEnter(scope: string) | Leave | Proceed

  function Lower(v: Variant, f: Fields, t: nat): Fields {
    match v
    case Playwright =>
      if f.thread == Some(t) && f.depth != 0 then
        if f.depth - 1 == 0 then Fields(None, 0, None) else f.(depth := f.depth - 1)
      else f
    case Desktop =>
      if f.depth - 1 == 0 then f.(depth := 0, thread := None) else f.(depth := f.depth - 1)
  }

  function Claim(v: Variant, f: Fields, t: nat, scope: string): Fields {
    match v
    case Playwright => if f.depth == 0 then f.(thread := Some(t), scope := Some(scope)) else f
    case Desktop => f.(thread := Some(t))
  }

  /** The next step of thread t inside `exclusive_use`. */
  function Advance(v: Variant, s: Sys, t: nat): Sys
    requires t in s.threads
  {
    var th := s.threads[t];
    match th.phase
    case Body => s
    case GotLock(scope) =>
      if s.fields.thread.Some? && s.fields.thread != Some(t) then
        s.(threads := s.threads[t := th.(phase := Rejected)])
      else s.(threads := s.threads[t := th.(phase := Checked(scope))])
    case Checked(scope) =>
      s.(fields := Claim(v, s.fields, t, scope), threads := s.threads[t := th.(phase := Claimed(scope))])
    case Claimed(scope) =>
      s.(fields := s.fields.(depth := s.fields.depth + 1), threads := s.threads[t := Thread(Body, th.nest + [scope])])
    case Rejected =>
      s.(fields := Lower(v, s.fields, t), threads := s.threads[t := th.(phase := Lowered)])
    case Leaving =>
      s.(fields := Lower(v, s.fields, t),
         threads := s.threads[t := Thread(Lowered, if th.nest == [] then [] else th.nest[..|th.nest| - 1])])
    case Lowered =>
      var count := if s.lock.count == 0 then 0 else s.lock.count - 1;
      s.(lock := Lock(if count == 0 then None else s.lock.owner, count),
         threads := s.threads[t := th.(phase := Body)])
  }

  predicate LockAvailable(s: Sys, t: nat) {
    s.lock.owner == None || s.lock.owner == Some(t)
  }

  function Step(v: Variant, s: Sys, t: nat, m: Move): Sys {
    if t !in s.threads then s
    else
      var th := s.threads[t];
      match m
      case TryEnter(scope) =>
        if th.phase == Body && LockAvailable(s, t) then
          s.(lock := Lock(Some(t), s.lock.count + 1), threads := s.threads[t := th.(phase := GotLock(scope))])
        else s
      case Leave =>
        if th.phase == Body && th.nest != [] then s.(threads := s.threads[t := th.(phase := Leaving)]) else s
      case Proceed => Advance(v, s, t)
  }

  function After(v: Variant, s: Sys, run: seq<(nat, Move)>): Sys {
    if run == [] then s
    else Step(v, After(v, s, run[..|run| - 1]), run[|run| - 1].0, run[|run| - 1].1)
  }

  function Begin(names: set<nat>): Sys {
    Sys(Lock(None, 0), Fields(None, 0, None), map n | n in names :: Thread(Body, []))
  }

  // ---------------------------------------------------------------------------
  // The invariant

  /** What the lock and the fields say while thread `th` owns the lock. */
  ghost predicate OwnerConsistent(v: Variant, s: Sys, t: nat) {
    && t in s.threads
    && var th := s.threads[t];
    && th.phase != Rejected
    && (th.phase == Leaving ==> th.nest != [])
    && s.lock.count > 0
    && s.lock.count == |th.nest| + (if th.phase in {Body, Leaving} then 0 else 1)
    && s.fields.depth == |th.nest|
    && (th.nest != [] || th.phase.Claimed? ==> s.fields.thread == Some(t))
    && (th.nest == [] && !th.phase.Claimed? ==> s.fields.thread == None)
    && (v == Playwright ==>
          s.fields.scope == if th.nest != [] then Some(th.nest[0])
                            else if th.phase.Claimed? then Some(th.phase.scope)
                            else None)
  }

  ghost predicate Inv(v: Variant, s: Sys) {
    && (forall t :: t in s.threads && s.lock.owner != Some(t) ==> s.threads[t] == Thread(Body, []))
    && match s.lock.owner
       case None => s.lock.count == 0 && s.fields.depth == 0 && s.fields.thread == None && (v == Playwright ==> s.fields.scope == None)
       case Some(t) => OwnerConsistent(v, s, t)
  }

  lemma AdvanceKeepsInv(v: Variant, s: Sys, t: nat)
    requires Inv(v, s) && t in s.threads
    ensures Inv(v, Advance(v, s, t))
  {
    var th := s.threads[t];
    if th.phase != Body {
      assert s.lock.owner == Some(t);
      var s' := Advance(v, s, t);
      match th.phase {
        case Claimed(scope) => assert (th.nest + [scope])[0] == if th.nest == [] then scope else th.nest[0];
        case Leaving => assert |th.nest| > 1 ==> th.nest[..|th.nest| - 1][0] == th.nest[0];
        case _ =>
      }
      assert s'.lock.owner.Some? ==> OwnerConsistent(v, s', t);
    }
  }

  lemma StepKeepsInv(v: Variant, s: Sys, t: nat, m: Move)
    requires Inv(v, s)
    ensures Inv(v, Step(v, s, t, m))
  {
    if t in s.threads {
      match m {
        case TryEnter(scope) =>
        case Leave =>
        case Proceed => AdvanceKeepsInv(v, s, t);
      }
    }
  }

  lemma {:induction false} RunKeepsInv(v: Variant, s: Sys, run: seq<(nat, Move)>)
    requires Inv(v, s)
    ensures Inv(v, After(v, s, run))
  {
    if run != [] {
      RunKeepsInv(v, s, run[..|run| - 1]);
      StepKeepsInv(v, After(v, s, run[..|run| - 1]), run[|run| - 1].0, run[|run| - 1].1);
    }
  }

  lemma EveryRunHasInv(v: Variant, names: set<nat>, run: seq<(nat, Move)>)
    ensures Inv(v, After(v, Begin(names), run))
  {
    RunKeepsInv(v, Begin(names), run);
  }

  // ---------------------------------------------------------------------------
  // The guarantees, for both implementations and every interleaving

  /** At most one thread is inside, the depth is that thread's nesting, the recorded thread is
      that thread, and the recorded scope is its outermost scope. */
  lemma OnlyOneThreadInside(v: Variant, names: set<nat>, run: seq<(nat, Move)>, t: nat, u: nat)
    requires var s := After(v, Begin(names), run);
             t in s.threads && u in s.threads && s.threads[t].nest != []
    ensures var s := After(v, Begin(names), run);
            && (s.threads[u].nest != [] ==> t == u)
            && s.fields.depth == |s.threads[t].nest|
            && s.fields.thread == Some(t)
            && (v == Playwright ==> s.fields.scope == Some(s.threads[t].nest[0]))
  {
    EveryRunHasInv(v, names, run);
  }

  /** Two threads are never both past the lock. */
  lemma MutualExclusion(v: Variant, names: set<nat>, run: seq<(nat, Move)>, t: nat, u: nat)
    requires var s := After(v, Begin(names), run);
             t in s.threads && u in s.threads && s.threads[t] != Thread(Body, []) && s.threads[u] != Thread(Body, [])
    ensures t == u
  {
    EveryRunHasInv(v, names, run);
  }

  /** Entering is refused exactly when another thread is past the lock, and then nothing changes. */
  lemma RefusalIsFailFast(v: Variant, names: set<nat>, run: seq<(nat, Move)>, t: nat, scope: string)
    requires var s := After(v, Begin(names), run); t in s.threads && s.threads[t].phase == Body
    ensures var s := After(v, Begin(names), run);
            (Step(v, s, t, TryEnter(scope)) == s <==>
               exists u :: u in s.threads && u != t && s.threads[u] != Thread(Body, []))
  {
    EveryRunHasInv(v, names, run);
    var s := After(v, Begin(names), run);
    var s' := Step(v, s, t, TryEnter(scope));
    if LockAvailable(s, t) {
      assert s'.lock.count == s.lock.count + 1;
    } else {
      var u := s.lock.owner.value;
      assert u in s.threads && u != t;
      assert s.threads[u] != Thread(Body, []);
    }
  }

  /** The branch that reports a changed ownership thread is unreachable. */
  lemma OwnershipThreadNeverChanges(v: Variant, names: set<nat>, run: seq<(nat, Move)>, t: nat)
    requires t in After(v, Begin(names), run).threads
    ensures var s := After(v, Begin(names), run);
            && s.threads[t].phase != Rejected
            && (s.threads[t].phase.GotLock? ==> s.fields.thread == None || s.fields.thread == Some(t))
  {
    EveryRunHasInv(v, names, run);
  }

  /** When every thread is back outside, lock and fields are as at the beginning. */
  lemma EverythingIsGivenBack(v: Variant, names: set<nat>, run: seq<(nat, Move)>)
    requires var s := After(v, Begin(names), run); forall t :: t in s.threads ==> s.threads[t] == Thread(Body, [])
    ensures var s := After(v, Begin(names), run);
            s.lock == Lock(None, 0) && s.fields.depth == 0 && s.fields.thread == None &&
            (v == Playwright ==> s.fields.scope == None)
  {
    EveryRunHasInv(v, names, run);
  }
}
