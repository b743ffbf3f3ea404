/** The browser-binding stream of a continuity session and its replay
    (dingdongditch/continuity.py: `bindings` and `active_binding`). */
module BindingJournal {
  import opened Wrappers
  import opened LineStreams
  import opened JsonText

  datatype Binding = Binding(
    id: string,
    generation: string,
    profile: string,
    backend: string,
    sessionIdentity: string,
    leaseOwner: string,
    capabilities: Json,
    acquiredAt: real,
    releasedAt: Option<real>)

  datatype BindingEvent =
    | Acquired(binding: Binding)
    | Released(bindingId: string, generation: string, at: real)
    | Unrecognised(generation: string)

  datatype BindingError = DuplicateGeneration | UnknownBinding | ReleasedTwice | MultipleActive

  /** The position of the binding with this generation. */
  function Find(bindings: seq<Binding>, generation: string): (r: Option<nat>)
    ensures r.Some? ==> r.value < |bindings| && bindings[r.value].generation == generation
    ensures r.None? ==> forall i :: 0 <= i < |bindings| ==> bindings[i].generation != generation
  {
    if bindings == [] then None
    else if bindings[|bindings| - 1].generation == generation then Some(|bindings| - 1)
    else Find(bindings[..|bindings| - 1], generation)
  }

  function Apply(bindings: seq<Binding>, e: BindingEvent): Result<seq<Binding>, BindingError> {
    match e
    case Acquired(b) =>
      if Find(bindings, b.generation).Some? then Failure(DuplicateGeneration)
      else Success(bindings + [b.(releasedAt := None)])
    case Released(_, generation, at) =>
      (match Find(bindings, generation)
       case None => Failure(UnknownBinding)
       case Some(i) =>
         if bindings[i].releasedAt.Some? then Failure(ReleasedTwice)
         else Success(bindings[i := bindings[i].(releasedAt := Some(at))]))
    case Unrecognised(_) => Success(bindings)
  }

  function Replay(log: seq<BindingEvent>): Result<seq<Binding>, BindingError> {
    if log == [] then Success([])
    else
      match Replay(log[..|log| - 1])
      case Failure(e) => Failure(e)
      case Success(bindings) => Apply(bindings, log[|log| - 1])
  }

  lemma ReplayAppend(log: seq<BindingEvent>, e: BindingEvent)
    ensures Replay(log + [e]) ==
            match Replay(log)
            case Failure(err) => Failure(err)
            case Success(bindings) => Apply(bindings, e)
  {
    assert (log + [e])[..|log|] == log;
  }

  ghost predicate DistinctGenerations(bindings: seq<Binding>) {
    forall i, j :: 0 <= i < j < |bindings| ==> bindings[i].generation != bindings[j].generation
  }

  /** `positions` is exactly the generation-to-index dictionary of `bindings`. */
  ghost predicate Indexes(positions: map<string, nat>, bindings: seq<Binding>) {
    && (forall g :: g in positions ==> positions[g] < |bindings| && bindings[positions[g]].generation == g)
    && (forall i :: 0 <= i < |bindings| ==>
          bindings[i].generation in positions && positions[bindings[i].generation] == i)
  }

  lemma IndexFinds(positions: map<string, nat>, bindings: seq<Binding>, g: string)
    requires Indexes(positions, bindings)
    ensures Find(bindings, g) == if g in positions then Some(positions[g]) else None
  {
  }

  lemma IndexesAppend(positions: map<string, nat>, bindings: seq<Binding>, b: Binding)
    requires Indexes(positions, bindings) && b.generation !in positions
    ensures Indexes(positions[b.generation := |bindings|], bindings + [b])
  {
  }

  lemma IndexesUpdate(positions: map<string, nat>, bindings: seq<Binding>, i: nat, b: Binding)
    requires Indexes(positions, bindings) && i < |bindings| && b.generation == bindings[i].generation
    ensures Indexes(positions, bindings[i := b])
  {
  }

  lemma ReplayFailsEarly(log: seq<BindingEvent>, i: nat)
    requires i <= |log|
    ensures Replay(log[..i]).Failure? ==> Replay(log) == Replay(log[..i])
  {
    FailsEarly(Replay, log, i);
  }

  /** The replay loop with its position dictionary. */
  method ReplayLoop(log: seq<BindingEvent>) returns (r: Result<seq<Binding>, BindingError>)
    ensures r == Replay(log)
  {
    var bindings: seq<Binding> := [];
    var positions: map<string, nat> := map[];
    for i := 0 to |log|
      invariant Replay(log[..i]) == Success(bindings)
      invariant Indexes(positions, bindings)
    {
      var e := log[i];
      ReplayAppend(log[..i], e);
      assert log[..i] + [e] == log[..i + 1];
      ReplayFailsEarly(log, i + 1);
      match e {
        case Acquired(b) =>
          IndexFinds(positions, bindings, b.generation);
          if b.generation in positions {
            return Failure(DuplicateGeneration);
          }
          IndexesAppend(positions, bindings, b.(releasedAt := None));
          positions := positions[b.generation := |bindings|];
          bindings := bindings + [b.(releasedAt := None)];
        case Released(_, generation, at) =>
          IndexFinds(positions, bindings, generation);
          if generation !in positions {
            return Failure(UnknownBinding);
          }
          var index := positions[generation];
          var binding := bindings[index];
          if binding.releasedAt.Some? {
            return Failure(ReleasedTwice);
          }
          IndexesUpdate(positions, bindings, index, binding.(releasedAt := Some(at)));
          bindings := bindings[index := binding.(releasedAt := Some(at))];
        case Unrecognised(_) =>
      }
    }
    assert log[..|log|] == log;
    r := Success(bindings);
  }

  function Unreleased(bindings: seq<Binding>): (r: seq<Binding>)
    ensures forall b :: b in r <==> b in bindings && b.releasedAt.None?
  {
    if bindings == [] then []
    else
      var b := bindings[|bindings| - 1];
      Unreleased(bindings[..|bindings| - 1]) + if b.releasedAt.None? then [b] else []
  }

  function Active(log: seq<BindingEvent>): Result<Option<Binding>, BindingError> {
    match Replay(log)
    case Failure(e) => Failure(e)
    case Success(bindings) =>
      var active := Unreleased(bindings);
      if |active| > 1 then Failure(MultipleActive)
      else if |active| == 1 then Success(Some(active[0]))
      else Success(None)
  }

  // ---------------------------------------------------------------------------
  // What replay means, read off the lines.

  ghost function AcquiredIn(log: seq<BindingEvent>): set<string> {
    set i | 0 <= i < |log| && log[i].Acquired? :: log[i].binding.generation
  }

  ghost function ReleasedIn(log: seq<BindingEvent>): set<string> {
    set i | 0 <= i < |log| && log[i].Released? :: log[i].generation
  }

  ghost predicate Fits(before: seq<BindingEvent>, e: BindingEvent) {
    match e
    case Acquired(b) => b.generation !in AcquiredIn(before)
    case Released(_, g, _) => g in AcquiredIn(before) - ReleasedIn(before)
    case Unrecognised(_) => true
  }

  /** No generation is acquired twice, and only held generations are released. */
  ghost predicate WellFormed(log: seq<BindingEvent>) {
    EachFits(Fits, log)
  }

  lemma AcquiredInAppend(log: seq<BindingEvent>, e: BindingEvent)
    ensures AcquiredIn(log + [e]) == AcquiredIn(log) + (if e.Acquired? then {e.binding.generation} else {})
    ensures ReleasedIn(log + [e]) == ReleasedIn(log) + (if e.Released? then {e.generation} else {})
  {
    var longer := log + [e];
    assert forall i :: 0 <= i < |log| ==> longer[i] == log[i];
    assert longer[|log|] == e;
    forall g | g in AcquiredIn(log) ensures g in AcquiredIn(longer) {
      var i :| 0 <= i < |log| && log[i].Acquired? && log[i].binding.generation == g;
      assert longer[i].Acquired?;
    }
    forall g | g in ReleasedIn(log) ensures g in ReleasedIn(longer) {
      var i :| 0 <= i < |log| && log[i].Released? && log[i].generation == g;
      assert longer[i].Released?;
    }
  }

  /** The bindings are exactly the acquired generations, each once, and marked as released
      exactly when their generation was. */
  ghost predicate Mirrors(bindings: seq<Binding>, acquired: set<string>, released: set<string>) {
    && DistinctGenerations(bindings)
    && (forall g :: g in acquired <==> Find(bindings, g).Some?)
    && (forall i :: 0 <= i < |bindings| ==>
          (bindings[i].releasedAt.Some? <==> bindings[i].generation in released))
    && released <= acquired
  }

  lemma ApplyMirrors(bindings: seq<Binding>, log: seq<BindingEvent>, e: BindingEvent)
    requires Mirrors(bindings, AcquiredIn(log), ReleasedIn(log))
    ensures Apply(bindings, e).Success? <==> Fits(log, e)
    ensures Apply(bindings, e).Success? ==>
              Mirrors(Apply(bindings, e).value, AcquiredIn(log + [e]), ReleasedIn(log + [e]))
  {
    AcquiredInAppend(log, e);
    if Apply(bindings, e).Success? {
      var after := Apply(bindings, e).value;
      match e {
        case Acquired(b) =>
          assert after[..|bindings|] == bindings;
          assert b.generation !in ReleasedIn(log);
        case Released(_, g, _) =>
          var k := Find(bindings, g).value;
          assert forall i :: 0 <= i < |bindings| ==> after[i].generation == bindings[i].generation;
          forall h ensures Find(after, h).Some? <==> Find(bindings, h).Some? {
            if Find(bindings, h).Some? {
              assert after[Find(bindings, h).value].generation == h;
            }
            if Find(after, h).Some? {
              assert bindings[Find(after, h).value].generation == h;
            }
          }
        case Unrecognised(_) =>
      }
    }
  }

  lemma {:induction false} ReplayMeaning(log: seq<BindingEvent>)
    ensures Replay(log).Success? <==> WellFormed(log)
    ensures Replay(log).Success? ==> Mirrors(Replay(log).value, AcquiredIn(log), ReleasedIn(log))
  {
    if log != [] {
      var shorter, e := log[..|log| - 1], log[|log| - 1];
      ReplayMeaning(shorter);
      assert shorter + [e] == log;
      if Replay(shorter).Success? {
        ApplyMirrors(Replay(shorter).value, shorter, e);
      }
      EachFitsAppend(Fits, shorter, e);
    }
  }

  // ---------------------------------------------------------------------------
  // The whole binding, read off the lines

  /** The binding in the acquisition line of a generation. */
  ghost function AcquisitionOf(log: seq<BindingEvent>, g: string): Option<Binding> {
    if log == [] then None
    else
      var e := log[|log| - 1];
      if e.Acquired? && e.binding.generation == g then Some(e.binding) else AcquisitionOf(log[..|log| - 1], g)
  }

  /** The time in the release line of a generation. */
  ghost function ReleaseOf(log: seq<BindingEvent>, g: string): Option<real> {
    if log == [] then None
    else
      var e := log[|log| - 1];
      if e.Released? && e.generation == g then Some(e.at) else ReleaseOf(log[..|log| - 1], g)
  }

  /** The generations in the order of their acquisition lines. */
  ghost function AcquisitionOrder(log: seq<BindingEvent>): seq<string> {
    if log == [] then []
    else
      var e := log[|log| - 1];
      AcquisitionOrder(log[..|log| - 1]) + if e.Acquired? then [e.binding.generation] else []
  }

  /** The binding is that of its acquisition line, released when its release line says. */
  ghost predicate SaysWhatLinesSay(b: Binding, log: seq<BindingEvent>) {
    && AcquisitionOf(log, b.generation).Some?
    && b == AcquisitionOf(log, b.generation).value.(releasedAt := ReleaseOf(log, b.generation))
  }

  ghost predicate ListsWhatLinesSay(bindings: seq<Binding>, log: seq<BindingEvent>) {
    && |bindings| == |AcquisitionOrder(log)|
    && forall i :: 0 <= i < |bindings| ==>
         bindings[i].generation == AcquisitionOrder(log)[i] && SaysWhatLinesSay(bindings[i], log)
  }

  lemma LinesAppend(log: seq<BindingEvent>, e: BindingEvent, g: string)
    ensures AcquisitionOf(log + [e], g) ==
            if e.Acquired? && e.binding.generation == g then Some(e.binding) else AcquisitionOf(log, g)
    ensures ReleaseOf(log + [e], g) == if e.Released? && e.generation == g then Some(e.at) else ReleaseOf(log, g)
    ensures AcquisitionOrder(log + [e]) == AcquisitionOrder(log) + if e.Acquired? then [e.binding.generation] else []
  {
    assert (log + [e])[..|log|] == log;
  }

  lemma {:induction false} ReleasesAreListed(log: seq<BindingEvent>, g: string)
    ensures ReleaseOf(log, g).Some? ==> g in ReleasedIn(log)
  {
    if log != [] {
      ReleasesAreListed(log[..|log| - 1], g);
      AcquiredInAppend(log[..|log| - 1], log[|log| - 1]);
      assert log == log[..|log| - 1] + [log[|log| - 1]];
    }
  }

  lemma AcquiringLists(bindings: seq<Binding>, log: seq<BindingEvent>, b: Binding)
    requires ListsWhatLinesSay(bindings, log) && Find(bindings, b.generation).None?
    requires ReleaseOf(log, b.generation).None?
    ensures ListsWhatLinesSay(bindings + [b.(releasedAt := None)], log + [Acquired(b)])
  {
    var after, longer := bindings + [b.(releasedAt := None)], log + [Acquired(b)];
    forall i | 0 <= i < |after|
      ensures after[i].generation == AcquisitionOrder(longer)[i] && SaysWhatLinesSay(after[i], longer)
    {
      LinesAppend(log, Acquired(b), after[i].generation);
    }
    LinesAppend(log, Acquired(b), b.generation);
  }

  lemma ReleasingLists(bindings: seq<Binding>, log: seq<BindingEvent>, e: BindingEvent, k: nat)
    requires ListsWhatLinesSay(bindings, log) && DistinctGenerations(bindings) && e.Released?
    requires k < |bindings| && bindings[k].generation == e.generation
    ensures ListsWhatLinesSay(bindings[k := bindings[k].(releasedAt := Some(e.at))], log + [e])
  {
    var after, longer := bindings[k := bindings[k].(releasedAt := Some(e.at))], log + [e];
    forall i | 0 <= i < |after|
      ensures after[i].generation == AcquisitionOrder(longer)[i] && SaysWhatLinesSay(after[i], longer)
    {
      LinesAppend(log, e, after[i].generation);
    }
    LinesAppend(log, e, e.generation);
  }

  lemma OtherLinesList(bindings: seq<Binding>, log: seq<BindingEvent>, e: BindingEvent)
    requires ListsWhatLinesSay(bindings, log) && e.Unrecognised?
    ensures ListsWhatLinesSay(bindings, log + [e])
  {
    forall i | 0 <= i < |bindings| ensures SaysWhatLinesSay(bindings[i], log + [e]) {
      LinesAppend(log, e, bindings[i].generation);
    }
    LinesAppend(log, e, "");
  }

  lemma ApplyLists(before: seq<Binding>, log: seq<BindingEvent>, e: BindingEvent)
    requires ListsWhatLinesSay(before, log) && Mirrors(before, AcquiredIn(log), ReleasedIn(log))
    requires Apply(before, e).Success?
    ensures ListsWhatLinesSay(Apply(before, e).value, log + [e])
  {
    match e {
      case Acquired(b) =>
        ReleasesAreListed(log, b.generation);
        AcquiringLists(before, log, b);
      case Released(_, g, _) => ReleasingLists(before, log, e, Find(before, g).value);
      case Unrecognised(_) => OtherLinesList(before, log, e);
    }
  }

  /** The replayed bindings are, in the order of their acquisition, those of their acquisition
      lines in everything but the time of release, which is that of their release line. */
  lemma {:induction false} BindingMeaning(log: seq<BindingEvent>)
    requires Replay(log).Success?
    ensures ListsWhatLinesSay(Replay(log).value, log)
  {
    if log != [] {
      var shorter, e := log[..|log| - 1], log[|log| - 1];
      assert log == shorter + [e];
      BindingMeaning(shorter);
      ReplayMeaning(shorter);
      ApplyLists(Replay(shorter).value, shorter, e);
    }
  }

  // ---------------------------------------------------------------------------
  // The active binding after one more line.

  lemma {:induction false} UnreleasedAppend(bindings: seq<Binding>, b: Binding)
    ensures Unreleased(bindings + [b]) == Unreleased(bindings) + if b.releasedAt.None? then [b] else []
  {
    assert (bindings + [b])[..|bindings|] == bindings;
  }

  /** Marking one unreleased binding as released takes one away from the unreleased ones. */
  lemma {:induction false} UnreleasedUpdate(bindings: seq<Binding>, i: nat, at: real)
    requires i < |bindings| && bindings[i].releasedAt.None?
    ensures |Unreleased(bindings[i := bindings[i].(releasedAt := Some(at))])| == |Unreleased(bindings)| - 1
    decreases |bindings|
  {
    var after := bindings[i := bindings[i].(releasedAt := Some(at))];
    if i < |bindings| - 1 {
      UnreleasedUpdate(bindings[..|bindings| - 1], i, at);
      assert after[..|bindings| - 1] ==
             bindings[..|bindings| - 1][i := bindings[i].(releasedAt := Some(at))];
    } else {
      assert after[..|bindings| - 1] == bindings[..|bindings| - 1];
    }
  }

  lemma UnreleasedIsFound(bindings: seq<Binding>, b: Binding)
    requires DistinctGenerations(bindings) && b in Unreleased(bindings)
    ensures Find(bindings, b.generation).Some? && bindings[Find(bindings, b.generation).value] == b && b.releasedAt.None?
  {
    var i :| 0 <= i < |bindings| && bindings[i] == b;
  }

  /** Releasing the one active binding leaves none. */
  lemma ReleasingTheActive(log: seq<BindingEvent>, b: Binding, at: real)
    requires Active(log) == Success(Some(b))
    ensures var longer := log + [Released(b.id, b.generation, at)];
            Replay(longer).Success? && |Unreleased(Replay(longer).value)| == 0
  {
    var bindings := Replay(log).value;
    assert DistinctGenerations(bindings) by {
      ReplayMeaning(log);
    }
    assert Unreleased(bindings)[0] == b;
    UnreleasedIsFound(bindings, b);
    UnreleasedUpdate(bindings, Find(bindings, b.generation).value, at);
    ReplayAppend(log, Released(b.id, b.generation, at));
  }

  // ---------------------------------------------------------------------------
  // Lines that can be read back

  predicate CleanBinding(b: Binding) {
    && Clean(b.id) && Clean(b.generation) && Clean(b.profile) && Clean(b.backend)
    && Clean(b.sessionIdentity) && Clean(b.leaseOwner) && CleanValue(b.capabilities)
  }

  /** No text in the line ends a line. */
  predicate Legible(e: BindingEvent) {
    match e
    case Acquired(b) => CleanBinding(b)
    case Released(id, generation, _) => Clean(id) && Clean(generation)
    case Unrecognised(generation) => Clean(generation)
  }

  predicate AllLegible(log: seq<BindingEvent>) {
    forall i :: 0 <= i < |log| ==> Legible(log[i])
  }

  lemma AllLegibleAppend(log: seq<BindingEvent>, e: BindingEvent)
    ensures AllLegible(log + [e]) <==> AllLegible(log) && Legible(e)
  {
    var longer := log + [e];
    assert longer[|log|] == e;
    assert forall i :: 0 <= i < |log| ==> longer[i] == log[i];
  }

  /** In a legible journal every binding is clean. */
  lemma {:induction false} BindingsAreClean(log: seq<BindingEvent>)
    requires AllLegible(log) && Replay(log).Success?
    ensures forall b :: b in Replay(log).value ==> CleanBinding(b)
  {
    if log != [] {
      var shorter, e := log[..|log| - 1], log[|log| - 1];
      BindingsAreClean(shorter);
      assert Legible(e);
      var before := Replay(shorter).value;
      if e.Released? {
        var i := Find(before, e.generation).value;
        assert before[i] in before;
      }
    }
  }
}
