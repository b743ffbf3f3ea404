/** The guarantees of a continuity session over every run from an empty directory
    (dingdongditch/continuity.py). */
module ContinuityTheorems {
  import opened Wrappers
  import opened LineStreams
  import opened CommandJournal
  import opened Continuity
  import opened Recovery
  import opened ContinuityRuns
  import Js = JsonText
  import B = BindingJournal

  // ---------------------------------------------------------------------------
  // Commands

  /** The lines of every reachable command journal replay, and every command in it went through
      the transition table; so the journal can be read exactly when its lines can. */
  lemma CommandJournalAlwaysReplays(session: string, run: seq<Action>)
    ensures var d := After(NewSession(session), run).disk;
            && Replay(d.commands).Success? && WellChained(d.commands)
            && (Commands(d).Success? <==> AllLegible(d.commands))
  {
    EveryRunIsConsistent(session, run);
    ReplayMeaning(After(NewSession(session), run).disk.commands);
  }

  /** Proposing is accepted exactly for a new, well-formed command in an active session whose
      journal can be read, and then adds that one record. */
  lemma ProposeAddsOneCommand(d: Disk, id: string, planner: string, payload: string, authorization: string, at: real)
    requires CommandsConsistent(d)
    ensures var r := Propose(d, id, planner, payload, authorization, at);
            var records := Replay(d.commands).value;
            && (r.result.Success? <==>
                  && AllLegible(d.commands) && LatestState(d.commands, id) == None && d.lifecycle == Active
                  && IsIdentifier(id) && IsIdentifier(planner) && payload != "" && authorization != "")
            && (r.result.Success? ==>
                  Replay(r.disk.commands) == Success(records[id :=
                    CommandRecord(id, d.session, planner, payload, authorization, at, Proposed, None, None)]))
            && (r.result.Success? ==>
                  r.result.value == CommandRecord(id, d.session, planner, payload, authorization, at, Proposed, None, None))
            && (r.result.Failure? ==> r.disk == d)
  {
    var r := Propose(d, id, planner, payload, authorization, at);
    ReplayMeaning(d.commands);
    if r.result.Success? {
      ReplayAppend(d.commands, Created(r.result.value));
    }
  }

  /** Dispatching is accepted exactly when both journals can be read, the session is active, the
      last line about the command authorised it, and the named generation is the one held:
      acquired, not released. */
  lemma DispatchNeedsTheHeldGeneration(d: Disk, id: string, generation: string)
    requires Consistent(d)
    ensures Dispatch(d, id, generation).result.Success? <==>
            && AllLegible(d.commands) && Bindings(d).Success?
            && d.lifecycle == Active
            && LatestState(d.commands, id) == Some(Authorized)
            && generation in B.AcquiredIn(d.bindings) - B.ReleasedIn(d.bindings)
  {
    ReplayMeaning(d.commands);
    if Bindings(d).Success? {
      HeldIsActive(d, generation);
      if ActiveBinding(d).Success? && ActiveBinding(d).value.Some? && ActiveBinding(d).value.value.generation == generation {
        ActiveIsClean(d);
        if Accepts(d, id, Dispatched) {
          TransitionAppends(d, id, Dispatched, UnderGeneration(generation));
        }
      }
    }
  }

  /** The binding that a legible journal holds is clean. */
  lemma ActiveIsClean(d: Disk)
    requires ActiveBinding(d).Success? && ActiveBinding(d).value.Some?
    ensures B.CleanBinding(ActiveBinding(d).value.value)
  {
    B.BindingsAreClean(d.bindings);
    var unreleased := B.Unreleased(B.Replay(d.bindings).value);
    assert unreleased[0] in unreleased;
  }

  lemma HeldIsActive(d: Disk, generation: string)
    requires BindingsConsistent(d) && B.Replay(d.bindings).Success?
    ensures generation in B.AcquiredIn(d.bindings) - B.ReleasedIn(d.bindings) <==>
            B.Active(d.bindings).Success? && B.Active(d.bindings).value.Some? &&
            B.Active(d.bindings).value.value.generation == generation
  {
    B.ReplayMeaning(d.bindings);
    var bindings := B.Replay(d.bindings).value;
    var unreleased := B.Unreleased(bindings);
    if generation in B.AcquiredIn(d.bindings) - B.ReleasedIn(d.bindings) {
      var b := bindings[B.Find(bindings, generation).value];
      assert b in unreleased;
      assert unreleased == [b];
    } else if |unreleased| == 1 {
      var b := unreleased[0];
      assert b in bindings;
      var i :| 0 <= i < |bindings| && bindings[i] == b;
      assert B.Find(bindings, b.generation).Some?;
    }
  }

  /** The streams of `d'` extend those of `d`. */
  ghost predicate Extends(d: Disk, d': Disk) {
    d.commands <= d'.commands && d.bindings <= d'.bindings && d.evidence <= d'.evidence
  }

  lemma {:induction false} SettleAllExtends(d: Disk, todo: seq<CommandRecord>, latest: map<string, Evidence>)
    ensures d.commands <= SettleAll(d, todo, latest).disk.commands
    decreases |todo|
  {
    if todo != [] {
      if todo[0].state != Dispatched {
        SettleAllExtends(d, todo[1..], latest);
      } else if SettleOne(d, todo[0].id, latest).result.Success? {
        SettleAllExtends(SettleOne(d, todo[0].id, latest).disk, todo[1..], latest);
      }
    }
  }

  lemma RecoverExtends(d: Disk, upTo: nat)
    ensures d.commands <= Recover(d).disk.commands
    ensures d.commands <= RecoverUpTo(d, upTo).disk.commands
  {
    if RecoveryProblem(d).None? {
      SettleAllExtends(d, Listing(d.commands), Latest(d.evidence));
      SettleAllExtends(d, FirstOf(Listing(d.commands), upTo), Latest(d.evidence));
    }
  }

  lemma AttachExtends(d: Disk, id: string, reference: string, generation: string,
                      declared: Classification, file: ReceiptFile)
    ensures Extends(d, Attach(d, id, reference, generation, declared, file).disk)
    ensures Extends(d, AttachInterrupted(d, id, reference, generation, declared, file))
  {
  }

  lemma BindingCallsExtend(d: Disk, binding: B.Binding, generation: string, at: real)
    ensures Extends(d, Acquire(d, binding).disk)
    ensures Extends(d, Release(d, generation, at).disk)
  {
  }

  lemma CommandCallsExtend(d: Disk, id: string, to: CommandState, detail: Detail)
    ensures Extends(d, Transition(d, id, to, detail).disk)
  {
  }

  lemma CallExtends(s: Sys, a: Action)
    requires s.live
    ensures Extends(s.disk, Perform(s, a).sys.disk)
  {
    match a
    case AttachReceipt(id, reference, generation, declared, file) =>
      AttachExtends(s.disk, id, reference, generation, declared, file);
    case DieInAttach(id, reference, generation, declared, file) =>
      AttachExtends(s.disk, id, reference, generation, declared, file);
    case FailInAttach(id, reference, generation, declared, file) =>
      AttachExtends(s.disk, id, reference, generation, declared, file);
    case RecoverCommands => RecoverExtends(s.disk, 0);
    case DieInRecover(upTo) => RecoverExtends(s.disk, upTo);
    case FailInRecover(upTo) => RecoverExtends(s.disk, upTo);
    case AuthorizeCommand(id) => CommandCallsExtend(s.disk, id, Authorized, PLAIN);
    case CancelCommand(id) => CommandCallsExtend(s.disk, id, Cancelled, PLAIN);
    case MarkUnknown(id, reason) => CommandCallsExtend(s.disk, id, OutcomeUnknown, Because(reason));
    case DispatchCommand(id, generation) => CommandCallsExtend(s.disk, id, Dispatched, UnderGeneration(generation));
    case AcquireBinding(binding) => BindingCallsExtend(s.disk, binding, "", 0.0);
    case ReleaseBinding(generation, at) => BindingCallsExtend(s.disk, EXAMPLE_BINDING, generation, at);
    case _ =>
  }

  lemma PerformExtends(s: Sys, a: Action)
    ensures Extends(s.disk, Perform(s, a).sys.disk)
  {
    if s.live {
      CallExtends(s, a);
    } else if a.Reopen? || a.DieInReopen? {
      RecoverExtends(s.disk.(owner := a.owner), if a.DieInReopen? then a.upTo else 0);
    }
  }

  lemma {:induction false} RunExtends(s: Sys, run: seq<Action>)
    ensures Extends(s.disk, After(s, run).disk)
  {
    if run != [] {
      RunExtends(s, run[..|run| - 1]);
      PerformExtends(After(s, run[..|run| - 1]), run[|run| - 1]);
    }
  }

  /** Once a command is terminal, no later part of any run changes its record. */
  lemma TerminalCommandsAreFinal(session: string, run: seq<Action>, more: seq<Action>, id: string)
    requires var before := Replay(After(NewSession(session), run).disk.commands);
             before.Success? && id in before.value && Terminal(before.value[id].state)
    ensures var before := Replay(After(NewSession(session), run).disk.commands);
            var after := Replay(After(After(NewSession(session), run), more).disk.commands);
            after.Success? && id in after.value && after.value[id] == before.value[id]
  {
    var s := After(NewSession(session), run);
    EveryRunIsConsistent(session, run);
    RunKeeps(s, more);
    RunExtends(s, more);
    var log, longer := s.disk.commands, After(s, more).disk.commands;
    assert longer == log + longer[|log|..];
    TerminalIsFinal(log, longer[|log|..], id);
  }

  // ---------------------------------------------------------------------------
  // Bindings: generations must be fresh and texts clean

  /** Nothing in the journal has this generation, and the arguments that are not identifiers
      can be read back. */
  ghost predicate FreshAndClean(d: Disk, binding: B.Binding) {
    && binding.generation !in B.AcquiredIn(d.bindings)
    && Clean(binding.profile) && CleanValue(binding.capabilities)
  }

  /** If this action is an accepted acquire, it is fresh and clean. */
  ghost predicate FreshStep(s: Sys, a: Action) {
    a.AcquireBinding? && Perform(s, a).refused.None? ==> FreshAndClean(s.disk, a.binding)
  }

  ghost predicate FreshGenerations(s: Sys, run: seq<Action>) {
    Always(FreshStep, s, run)
  }

  /** Acquiring leaves a journal that can be read and replayed exactly when the generation was
      never acquired and the texts are clean. */
  lemma AcquireReplaysIff(d: Disk, binding: B.Binding)
    requires Acquire(d, binding).result.Success?
    ensures Bindings(Acquire(d, binding).disk).Success? <==> FreshAndClean(d, binding)
  {
    var held := binding.(releasedAt := None);
    IdentifiersAreClean(binding.id);
    IdentifiersAreClean(binding.generation);
    IdentifiersAreClean(binding.backend);
    IdentifiersAreClean(binding.sessionIdentity);
    IdentifiersAreClean(binding.leaseOwner);
    B.ReplayMeaning(d.bindings);
    B.ReplayAppend(d.bindings, B.Acquired(held));
    B.AllLegibleAppend(d.bindings, B.Acquired(held));
  }

  lemma ReleaseIsReadable(d: Disk, generation: string, at: real)
    requires Release(d, generation, at).result.Success?
    ensures Bindings(Release(d, generation, at).disk).Success?
  {
    ReleaseReplays(d, generation, at);
    ActiveIsClean(d);
    B.AllLegibleAppend(d.bindings, B.Released(ActiveBinding(d).value.value.id, generation, at));
  }

  lemma PerformBindings(s: Sys, a: Action)
    requires Bindings(s.disk).Success?
    ensures Bindings(Perform(s, a).sys.disk).Success? <==> FreshStep(s, a)
  {
    if s.live && a.AcquireBinding? && Perform(s, a).refused.None? {
      AcquireReplaysIff(s.disk, a.binding);
    } else if s.live && a.ReleaseBinding? && Perform(s, a).refused.None? {
      ReleaseIsReadable(s.disk, a.generation, a.at);
    } else {
      OthersLeaveBindings(s, a);
    }
  }

  lemma OthersLeaveBindings(s: Sys, a: Action)
    requires !(s.live && (a.AcquireBinding? || a.ReleaseBinding?) && Perform(s, a).refused.None?)
    ensures Perform(s, a).sys.disk.bindings == s.disk.bindings
  {
  }

  /** Once the binding journal cannot be read, acquire, release and dispatch are refused. */
  lemma PerformOnBrokenBindings(s: Sys, a: Action)
    requires Bindings(s.disk).Failure?
    ensures Perform(s, a).sys.disk.bindings == s.disk.bindings
    ensures a.AcquireBinding? || a.ReleaseBinding? || a.DispatchCommand? ==>
              Perform(s, a).refused.Some? && Perform(s, a).sys == s
  {
  }

  lemma BindingsStep(s: Sys, a: Action)
    ensures Bindings(Perform(s, a).sys.disk).Success? <==> Bindings(s.disk).Success? && FreshStep(s, a)
  {
    if Bindings(s.disk).Success? {
      PerformBindings(s, a);
    } else {
      PerformOnBrokenBindings(s, a);
    }
  }

  /** In every run the binding journal can be read and replayed exactly when every accepted
      acquire was fresh and clean. */
  lemma {:induction false} BindingJournalReplaysIff(s: Sys, run: seq<Action>)
    requires Bindings(s.disk).Success?
    ensures Bindings(After(s, run).disk).Success? <==> FreshGenerations(s, run)
  {
    if run != [] {
      var shorter, a := run[..|run| - 1], run[|run| - 1];
      assert run == shorter + [a];
      BindingJournalReplaysIff(s, shorter);
      AlwaysAppend(FreshStep, s, shorter, a);
      BindingsStep(After(s, shorter), a);
    }
  }

  /** With fresh and clean acquires the binding journal can be read, at most one binding is
      unreleased, and the lines of the command journal replay. */
  lemma FreshRunsAreSafe(session: string, run: seq<Action>)
    requires FreshGenerations(NewSession(session), run)
    ensures var d := After(NewSession(session), run).disk;
            && Replay(d.commands).Success? && Bindings(d).Success?
            && |B.Unreleased(Bindings(d).value)| <= 1
            && ActiveBinding(d).Success?
  {
    EveryRunIsConsistent(session, run);
    BindingJournalReplaysIff(NewSession(session), run);
  }

  lemma AcquiredBindingIsActive(d: Disk, binding: B.Binding)
    requires Acquire(d, binding).result.Success? && FreshAndClean(d, binding)
    ensures ActiveBinding(Acquire(d, binding).disk) == Success(Some(binding.(releasedAt := None)))
  {
    AcquireReplaysIff(d, binding);
    NewBindingIsActive(d.bindings, binding.(releasedAt := None));
  }

  lemma NewBindingIsActive(log: seq<B.BindingEvent>, held: B.Binding)
    requires B.Active(log) == Success(None) && held.releasedAt == None && held.generation !in B.AcquiredIn(log)
    ensures B.Active(log + [B.Acquired(held)]) == Success(Some(held))
  {
    B.ReplayMeaning(log);
    B.ReplayAppend(log, B.Acquired(held));
    B.UnreleasedAppend(B.Replay(log).value, held);
  }

  /** Acquiring under a generation that the journal already holds is accepted and breaks it. */
  lemma ReacquiringBreaks(d: Disk, binding: B.Binding)
    requires Bindings(d).Success? && |B.Unreleased(Bindings(d).value)| == 0
    requires binding.generation in B.AcquiredIn(d.bindings) && d.lifecycle == Active && AcceptableBinding(binding)
    ensures Acquire(d, binding).result.Success?
    ensures B.Replay(Acquire(d, binding).disk.bindings) == Failure(B.DuplicateGeneration)
  {
    B.ReplayMeaning(d.bindings);
    B.ReplayAppend(d.bindings, B.Acquired(binding.(releasedAt := None)));
  }

  /** Acquire, release and acquire again under one generation is accepted from every
      directory, and leaves a journal that does not replay. */
  lemma AcquireReleaseAcquire(d: Disk, binding: B.Binding, at: real)
    requires Acquire(d, binding).result.Success? && FreshAndClean(d, binding)
    ensures var d1 := Acquire(d, binding).disk;
            var released := Release(d1, binding.generation, at);
            var again := Acquire(released.disk, binding);
            && released.result.Success? && again.result.Success?
            && B.Replay(again.disk.bindings) == Failure(B.DuplicateGeneration)
  {
    AcquiredBindingIsActive(d, binding);
    var held := binding.(releasedAt := None);
    var d1 := Acquire(d, binding).disk;
    ReleaseReplays(d1, binding.generation, at);
    ReleaseIsReadable(d1, binding.generation, at);
    B.AcquiredInAppend(d.bindings, B.Acquired(held));
    B.AcquiredInAppend(d1.bindings, B.Released(held.id, binding.generation, at));
    ReacquiringBreaks(Release(d1, binding.generation, at).disk, binding);
  }

  const EXAMPLE_BINDING := B.Binding("b", "g", "p", "k", "s", "o", Js.Object([]), 0.0, None)

  lemma ExampleIsAccepted(session: string)
    ensures Acquire(NewSession(session).disk, EXAMPLE_BINDING).result.Success?
    ensures EXAMPLE_BINDING.generation == "g" && FreshAndClean(NewSession(session).disk, EXAMPLE_BINDING)
  {
    assert B.Replay([]) == Success([]) && B.Unreleased([]) == [];
  }

  /** The smallest such run: the code accepts the reused generation "g" and can never read
      its bindings again. */
  lemma ReusedGenerationBreaksTheJournal(session: string)
    ensures var s1 := Perform(NewSession(session), AcquireBinding(EXAMPLE_BINDING));
            var s2 := Perform(s1.sys, ReleaseBinding("g", 1.0));
            var s3 := Perform(s2.sys, AcquireBinding(EXAMPLE_BINDING));
            && s1.refused.None? && s2.refused.None? && s3.refused.None?
            && B.Replay(s3.sys.disk.bindings) == Failure(B.DuplicateGeneration)
  {
    ExampleIsAccepted(session);
    AcquireReleaseAcquire(NewSession(session).disk, EXAMPLE_BINDING, 1.0);
  }

  /** A binding journal that cannot be read or replayed stays as it is for the rest of every
      run, and no command is dispatched any more. */
  lemma {:induction false} BrokenBindingsAreForever(s: Sys, run: seq<Action>)
    requires Consistent(s.disk) && Bindings(s.disk).Failure?
    ensures After(s, run).disk.bindings == s.disk.bindings
    ensures Replay(After(s, run).disk.commands).Success?
    ensures var before, after := Replay(s.disk.commands).value, Replay(After(s, run).disk.commands).value;
            forall id :: id in after && after[id].state == Dispatched ==>
              id in before && before[id].state == Dispatched
  {
    RunKeeps(s, run);
    if run != [] {
      var s', a := After(s, run[..|run| - 1]), run[|run| - 1];
      BrokenBindingsAreForever(s, run[..|run| - 1]);
      RunKeeps(s, run[..|run| - 1]);
      PerformOnBrokenBindings(s', a);
      PerformDispatchesNothing(s', a);
    }
  }

  lemma TransitionDispatchesNothing(d: Disk, id: string, to: CommandState, detail: Detail)
    requires CommandsConsistent(d) && to != Dispatched
    ensures DispatchesNothing(d, Transition(d, id, to, detail).disk)
  {
    if Accepts(d, id, to) {
      TransitionAppends(d, id, to, detail);
    }
  }

  ghost predicate DispatchesNothing(d: Disk, d': Disk) {
    && Replay(d.commands).Success? && Replay(d'.commands).Success?
    && forall id :: id in Replay(d'.commands).value && Replay(d'.commands).value[id].state == Dispatched ==>
         id in Replay(d.commands).value && Replay(d.commands).value[id].state == Dispatched
  }

  lemma SettleDispatchesNothing(d: Disk, todo: seq<CommandRecord>)
    requires CommandsConsistent(d) && RecoveryProblem(d).None? && Lists(Replay(d.commands).value, todo)
    ensures DispatchesNothing(d, SettleAll(d, todo, Latest(d.evidence)).disk)
  {
    if d.lifecycle != Active {
      SettleAllReadOnly(d, todo, Latest(d.evidence));
    } else {
      LegibleEvidenceIsClean(d.evidence);
      SettleAllRecords(d, todo, Latest(d.evidence));
    }
  }

  lemma RecoverDispatchesNothing(d: Disk, upTo: nat)
    requires CommandsConsistent(d)
    ensures DispatchesNothing(d, Recover(d).disk)
    ensures DispatchesNothing(d, RecoverUpTo(d, upTo).disk)
  {
    if RecoveryProblem(d).None? {
      ListingLists(d.commands);
      ListsPrefix(Replay(d.commands).value, Listing(d.commands), upTo);
      SettleDispatchesNothing(d, Listing(d.commands));
      SettleDispatchesNothing(d, FirstOf(Listing(d.commands), upTo));
    }
  }

  lemma ProposeDispatchesNothing(d: Disk, id: string, planner: string, payload: string, authorization: string, at: real)
    requires CommandsConsistent(d)
    ensures DispatchesNothing(d, Propose(d, id, planner, payload, authorization, at).disk)
  {
    var r := Propose(d, id, planner, payload, authorization, at);
    if r.result.Success? {
      ReplayAppend(d.commands, Created(r.result.value));
    }
  }

  lemma AttachDispatchesNothing(d: Disk, id: string, reference: string, generation: string,
                                declared: Classification, file: ReceiptFile)
    requires CommandsConsistent(d)
    ensures DispatchesNothing(d, Attach(d, id, reference, generation, declared, file).disk)
    ensures DispatchesNothing(d, AttachInterrupted(d, id, reference, generation, declared, file))
  {
    if EvidenceToAttach(d, id, reference, generation, declared, file).Success? {
      AttachCompletes(d, id, reference, generation, declared, file);
    }
  }

  lemma CallDispatchesNothing(s: Sys, a: Action)
    requires CommandsConsistent(s.disk) && Bindings(s.disk).Failure? && s.live
    ensures DispatchesNothing(s.disk, Perform(s, a).sys.disk)
  {
    var d := s.disk;
    match a
    case ProposeCommand(id, planner, payload, authorization, at) =>
      ProposeDispatchesNothing(d, id, planner, payload, authorization, at);
    case AuthorizeCommand(id) => TransitionDispatchesNothing(d, id, Authorized, PLAIN);
    case CancelCommand(id) => TransitionDispatchesNothing(d, id, Cancelled, PLAIN);
    case MarkUnknown(id, reason) => TransitionDispatchesNothing(d, id, OutcomeUnknown, Because(reason));
    case AttachReceipt(id, reference, generation, declared, file) =>
      AttachDispatchesNothing(d, id, reference, generation, declared, file);
    case DieInAttach(id, reference, generation, declared, file) =>
      AttachDispatchesNothing(d, id, reference, generation, declared, file);
    case FailInAttach(id, reference, generation, declared, file) =>
      AttachDispatchesNothing(d, id, reference, generation, declared, file);
    case RecoverCommands => RecoverDispatchesNothing(d, 0);
    case DieInRecover(upTo) => RecoverDispatchesNothing(d, upTo);
    case FailInRecover(upTo) => RecoverDispatchesNothing(d, upTo);
    case _ =>
  }

  lemma PerformDispatchesNothing(s: Sys, a: Action)
    requires CommandsConsistent(s.disk) && Bindings(s.disk).Failure?
    ensures DispatchesNothing(s.disk, Perform(s, a).sys.disk)
  {
    if s.live {
      CallDispatchesNothing(s, a);
    } else if a.Reopen? || a.DieInReopen? {
      var owned := s.disk.(owner := a.owner);
      OwnedIsConsistent(s.disk, owned);
      RecoverDispatchesNothing(owned, if a.DieInReopen? then a.upTo else 0);
    }
  }

  lemma OwnedIsConsistent(d: Disk, owned: Disk)
    requires CommandsConsistent(d) && owned == d.(owner := owned.owner)
    ensures CommandsConsistent(owned)
  {
    var records := Replay(d.commands).value;
    forall id | id in records ensures RecordLinked(owned, records[id]) {
      assert RecordLinked(d, records[id]);
    }
  }

  // ---------------------------------------------------------------------------
  // Evidence

  /** This action attached exactly this evidence, from a receipt whose own verdict says so. */
  ghost predicate Attests(a: Action, ev: Evidence) {
    && (a.AttachReceipt? || a.DieInAttach? || a.FailInAttach?)
    && a.id == ev.command && a.reference == ev.reference && a.generation == ev.generation
    && a.file.Readable? && a.file.receipt.digest == ev.digest
    && Warrants(a.file.receipt, ev.classification) && a.file.receipt.schema == Text(ev.schema)
    && ev.facts == VerifiedFacts(a.file.receipt)
  }

  lemma PerformEvidence(s: Sys, a: Action)
    ensures var before, after := s.disk.evidence, Perform(s, a).sys.disk.evidence;
            after == before || exists ev :: after == before + [ev] && Attests(a, ev)
  {
    if s.live && (a.AttachReceipt? || a.DieInAttach? || a.FailInAttach?) {
      var e := EvidenceToAttach(s.disk, a.id, a.reference, a.generation, a.declared, a.file);
      if e.Success? {
        ClassifyIff(a.file.receipt, e.value.classification);
        assert Attests(a, e.value);
        assert Perform(s, a).sys.disk.evidence == s.disk.evidence + [e.value];
      }
    }
  }

  lemma {:induction false} EvidenceComesFromReceipts(session: string, run: seq<Action>, ev: Evidence)
    requires ev in After(NewSession(session), run).disk.evidence
    ensures exists i :: 0 <= i < |run| && Attests(run[i], ev)
    decreases |run|
  {
    if run != [] {
      var shorter := run[..|run| - 1];
      var s, a := After(NewSession(session), shorter), run[|run| - 1];
      PerformEvidence(s, a);
      if ev in s.disk.evidence {
        EvidenceComesFromReceipts(session, shorter, ev);
        var i :| 0 <= i < |shorter| && Attests(shorter[i], ev);
        assert Attests(run[i], ev);
      } else {
        assert Attests(run[|run| - 1], ev);
      }
    }
  }

  /** The evidence line backs the record: same command, same outcome, same reference, and the
      generation under which it was dispatched, which was acquired. */
  ghost predicate BacksRecord(d: Disk, r: CommandRecord, ev: Evidence) {
    && ev in d.evidence && ev.command == r.id
    && (r.state == Verified ==> ev.classification == ReceiptVerified)
    && (r.state == Failed ==> ev.classification == ReceiptFailed)
    && r.receipt == Some(ev.reference) && r.generation == Some(ev.generation)
    && ev.generation in B.AcquiredIn(d.bindings)
  }

  lemma LatestBacksRecord(d: Disk, id: string)
    requires CommandsConsistent(d) && id in Replay(d.commands).value
    requires Replay(d.commands).value[id].state in {Verified, Failed}
    ensures id in Latest(d.evidence) && BacksRecord(d, Replay(d.commands).value[id], Latest(d.evidence)[id])
  {
    assert RecordLinked(d, Replay(d.commands).value[id]);
    assert EvidenceLinked(Replay(d.commands).value, Latest(d.evidence)[id]);
  }

  /** In every reachable state a verified or failed command is backed by an evidence line with
      its id, its classification and its reference, under the generation it was dispatched
      with; that generation was acquired; and the line was attached by some earlier call from
      a receipt whose own verdict has that classification. */
  lemma OutcomesAreBackedByReceipts(session: string, run: seq<Action>, id: string)
    requires var records := Replay(After(NewSession(session), run).disk.commands);
             records.Success? && id in records.value && records.value[id].state in {Verified, Failed}
    ensures var d := After(NewSession(session), run).disk;
            exists ev, i :: BacksRecord(d, Replay(d.commands).value[id], ev) && 0 <= i < |run| && Attests(run[i], ev)
  {
    EveryRunIsConsistent(session, run);
    var d := After(NewSession(session), run).disk;
    LatestBacksRecord(d, id);
    EvidenceComesFromReceipts(session, run, Latest(d.evidence)[id]);
  }

  // ---------------------------------------------------------------------------
  // Crashes

  /** A reopening by some owner that dies after looking at some of the records. */
  datatype Cut = Cut(owner: string, upTo: nat)

  function Deaths(cuts: seq<Cut>): seq<Action> {
    seq(|cuts|, i requires 0 <= i < |cuts| => DieInReopen(cuts[i].owner, cuts[i].upTo))
  }

  /** The same records, evidence, bindings and lifecycle. */
  ghost predicate SameButCommands(d: Disk, d': Disk) {
    d' == d.(commands := d'.commands, owner := d'.owner)
  }

  lemma OneDeath(d: Disk, owner: string, upTo: nat)
    requires Recoverable(d)
    ensures var d' := Perform(Sys(d, false), DieInReopen(owner, upTo)).sys.disk;
            && SameButCommands(d, d') && Recoverable(d')
            && Replay(Recover(d').disk.commands) == Replay(Recover(d).disk.commands)
  {
    var owned := d.(owner := owner);
    RecoverySurvivesItsOwnInterruption(owned, upTo);
    RecoverySettles(d);
    RecoverySettles(owned);
  }

  /** However often reopening dies in the middle of recovery, the reopening that completes
      ends with the records that one undisturbed recovery gives. */
  lemma {:induction false} RepeatedDeathsInRecovery(d: Disk, cuts: seq<Cut>)
    requires Recoverable(d)
    ensures var s := After(Sys(d, false), Deaths(cuts));
            && !s.live && SameButCommands(d, s.disk) && Recoverable(s.disk)
            && Replay(Recover(s.disk).disk.commands) == Replay(Recover(d).disk.commands)
    decreases |cuts|
  {
    if cuts != [] {
      var fewer, cut := cuts[..|cuts| - 1], cuts[|cuts| - 1];
      assert Deaths(cuts)[..|cuts| - 1] == Deaths(fewer);
      RepeatedDeathsInRecovery(d, fewer);
      OneDeath(After(Sys(d, false), Deaths(fewer)).disk, cut.owner, cut.upTo);
    }
  }

  lemma ReopeningAfterDeaths(d: Disk, cuts: seq<Cut>, owner: string)
    requires Recoverable(d) && d.schema == SCHEMA_VERSION && IsIdentifier(owner)
    ensures var reopened := Perform(After(Sys(d, false), Deaths(cuts)), Reopen(owner, true)).sys;
            && reopened.live
            && Replay(reopened.disk.commands) == Replay(Recover(d).disk.commands)
            && reopened.disk.evidence == d.evidence
  {
    RepeatedDeathsInRecovery(d, cuts);
    var last := After(Sys(d, false), Deaths(cuts)).disk;
    RecoverySettles(last);
    RecoverySettles(last.(owner := owner));
  }

  lemma {:induction false} DeathsKeepEvidence(d: Disk, cuts: seq<Cut>)
    ensures var s := After(Sys(d, false), Deaths(cuts));
            !s.live && s.disk.evidence == d.evidence
    decreases |cuts|
  {
    if cuts != [] {
      assert Deaths(cuts)[..|cuts| - 1] == Deaths(cuts[..|cuts| - 1]);
      DeathsKeepEvidence(d, cuts[..|cuts| - 1]);
    }
  }

  /** With evidence that cannot be read, no reopening with recovery completes. */
  lemma UnreadableEvidenceStaysClosed(d: Disk, cuts: seq<Cut>, owner: string)
    requires !AllEvidenceLegible(d.evidence)
    ensures !Perform(After(Sys(d, false), Deaths(cuts)), Reopen(owner, true)).sys.live
  {
    DeathsKeepEvidence(d, cuts);
  }

  /** The owner dies between attach's two appends, then any number of reopenings die in the
      middle of recovery, then one is tried to its end: it completes exactly when the evidence,
      the new line included, can be read, and then the command has exactly the record that the
      undisturbed attach returns. */
  lemma AttachSurvivesCrashes(d: Disk, id: string, reference: string, generation: string,
                              declared: Classification, file: ReceiptFile, crashed: Sys, cuts: seq<Cut>, owner: string)
    requires EvidenceToAttach(d, id, reference, generation, declared, file).Success?
    requires crashed == Perform(Sys(d, true), DieInAttach(id, reference, generation, declared, file)).sys
    requires d.schema == SCHEMA_VERSION && IsIdentifier(owner)
    ensures var recovered := Perform(After(crashed, Deaths(cuts)), Reopen(owner, true)).sys;
            var attached := Attach(d, id, reference, generation, declared, file);
            && (recovered.live <==> AllEvidenceLegible(crashed.disk.evidence))
            && (recovered.live ==>
                  && attached.result.Success?
                  && Replay(recovered.disk.commands).Success?
                  && id in Replay(recovered.disk.commands).value
                  && Replay(recovered.disk.commands).value[id] == attached.result.value
                  && recovered.disk.evidence == attached.disk.evidence)
  {
    var halfway := AttachInterrupted(d, id, reference, generation, declared, file);
    assert crashed == Sys(halfway, false);
    if AllEvidenceLegible(halfway.evidence) {
      AttachIsAccepted(d, id, reference, generation, declared, file);
      EvidenceLegibleAppend(d.evidence, EvidenceToAttach(d, id, reference, generation, declared, file).value);
      ReopeningAfterDeaths(halfway, cuts, owner);
      RecoveryClosesAttachWindow(d, id, reference, generation, declared, file);
    } else {
      UnreadableEvidenceStaysClosed(halfway, cuts, owner);
    }
  }
}
