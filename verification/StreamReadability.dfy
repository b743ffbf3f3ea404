/** In which runs the streams of a continuity session can be read back
    (dingdongditch/continuity.py: `_read_events`, and everything that is appended). */
module StreamReadability {
  import opened Wrappers
  import opened LineStreams
  import opened CommandJournal
  import opened Continuity
  import opened Recovery
  import opened ContinuityRuns
  import Theorems = ContinuityTheorems
  import Js = JsonText
  import T = ContinuityText
  import B = BindingJournal

  // ---------------------------------------------------------------------------
  // The command stream

  /** The arguments that a call writes to the command stream and that need not be identifiers
      are clean. */
  predicate CleanArguments(a: Action) {
    match a
    case ProposeCommand(_, _, payload, authorization, _) => Clean(payload) && Clean(authorization)
    case MarkUnknown(_, reason) => Clean(reason)
    case AttachReceipt(_, reference, _, _, _) => Clean(reference)
    case _ => true
  }

  /** A step that writes to the command stream writes clean texts. */
  ghost predicate CleanCommandStep(s: Sys, a: Action) {
    Perform(s, a).sys.disk.commands != s.disk.commands ==> CleanArguments(a)
  }

  lemma ProposeIsLegibleIff(d: Disk, id: string, planner: string, payload: string, authorization: string, at: real)
    requires AllLegible(d.commands) && Clean(d.session)
    ensures var r := Propose(d, id, planner, payload, authorization, at);
            if r.result.Success? then AllLegible(r.disk.commands) <==> Clean(payload) && Clean(authorization)
            else r.disk == d
  {
    var r := Propose(d, id, planner, payload, authorization, at);
    if r.result.Success? {
      IdentifiersAreClean(id);
      IdentifiersAreClean(planner);
      AllLegibleAppend(d.commands, Created(r.result.value));
    }
  }

  lemma TransitionIsLegibleIff(d: Disk, id: string, to: CommandState, detail: Detail)
    requires AllLegible(d.commands)
    ensures var d' := Transition(d, id, to, detail).disk;
            if d'.commands != d.commands then AllLegible(d'.commands) <==> CleanDetail(detail) else d' == d
  {
    if Accepts(d, id, to) {
      TransitionAppends(d, id, to, detail);
    } else {
      TransitionRefuses(d, id, to, detail);
    }
  }

  lemma DispatchStaysLegible(d: Disk, id: string, generation: string)
    requires AllLegible(d.commands)
    ensures AllLegible(Dispatch(d, id, generation).disk.commands)
  {
    var active := ActiveBinding(d);
    if active.Success? && active.value.Some? && active.value.value.generation == generation {
      Theorems.ActiveIsClean(d);
      TransitionIsLegibleIff(d, id, Dispatched, UnderGeneration(generation));
    }
  }

  lemma AttachIsLegibleIff(d: Disk, id: string, reference: string, generation: string,
                           declared: Classification, file: ReceiptFile)
    requires AllLegible(d.commands)
    ensures var d' := Attach(d, id, reference, generation, declared, file).disk;
            if d'.commands != d.commands then AllLegible(d'.commands) <==> Clean(reference) else d' == d
  {
    if EvidenceToAttach(d, id, reference, generation, declared, file).Success? {
      AttachCompletes(d, id, reference, generation, declared, file);
      AttachIsAccepted(d, id, reference, generation, declared, file);
    }
  }

  lemma SettlingStaysLegible(d: Disk, todo: seq<CommandRecord>)
    requires RecoveryProblem(d).None? && Lists(Replay(d.commands).value, todo)
    ensures AllLegible(SettleAll(d, todo, Latest(d.evidence)).disk.commands)
  {
    if d.lifecycle != Active {
      SettleAllReadOnly(d, todo, Latest(d.evidence));
    } else {
      LegibleEvidenceIsClean(d.evidence);
      SettleAllRecords(d, todo, Latest(d.evidence));
    }
  }

  lemma RecoveryStaysLegible(d: Disk, upTo: nat)
    requires AllLegible(d.commands)
    ensures AllLegible(Recover(d).disk.commands) && AllLegible(RecoverUpTo(d, upTo).disk.commands)
  {
    if RecoveryProblem(d).None? {
      ListingLists(d.commands);
      ListsPrefix(Replay(d.commands).value, Listing(d.commands), upTo);
      SettlingStaysLegible(d, Listing(d.commands));
      SettlingStaysLegible(d, FirstOf(Listing(d.commands), upTo));
    }
  }

  lemma CallIsLegibleIff(s: Sys, a: Action)
    requires s.live && AllLegible(s.disk.commands) && Clean(s.disk.session)
    ensures AllLegible(Perform(s, a).sys.disk.commands) <==> CleanCommandStep(s, a)
  {
    var d := s.disk;
    match a
    case ProposeCommand(id, planner, payload, authorization, at) =>
      ProposeIsLegibleIff(d, id, planner, payload, authorization, at);
    case AuthorizeCommand(id) => TransitionIsLegibleIff(d, id, Authorized, PLAIN);
    case CancelCommand(id) => TransitionIsLegibleIff(d, id, Cancelled, PLAIN);
    case MarkUnknown(id, reason) => TransitionIsLegibleIff(d, id, OutcomeUnknown, Because(reason));
    case DispatchCommand(id, generation) => DispatchStaysLegible(d, id, generation);
    case AttachReceipt(id, reference, generation, declared, file) =>
      AttachIsLegibleIff(d, id, reference, generation, declared, file);
    case RecoverCommands => RecoveryStaysLegible(d, 0);
    case DieInRecover(upTo) => RecoveryStaysLegible(d, upTo);
    case FailInRecover(upTo) => RecoveryStaysLegible(d, upTo);
    case _ =>
  }

  lemma StepIsLegibleIff(s: Sys, a: Action)
    requires AllLegible(s.disk.commands) && Clean(s.disk.session)
    ensures AllLegible(Perform(s, a).sys.disk.commands) <==> CleanCommandStep(s, a)
  {
    if s.live {
      CallIsLegibleIff(s, a);
    } else if a.Reopen? || a.DieInReopen? {
      RecoveryStaysLegible(s.disk.(owner := a.owner), if a.DieInReopen? then a.upTo else 0);
    }
  }

  /** A command stream that cannot be read is never written again, nor is the evidence. */
  lemma IllegibleStep(s: Sys, a: Action)
    requires !AllLegible(s.disk.commands)
    ensures Perform(s, a).sys.disk.commands == s.disk.commands
    ensures Perform(s, a).sys.disk.evidence == s.disk.evidence
  {
  }

  ghost predicate CleanCommandRun(s: Sys, run: seq<Action>) {
    Always(CleanCommandStep, s, run)
  }

  lemma StepKeepsSession(s: Sys, a: Action)
    ensures Perform(s, a).sys.disk.session == s.disk.session && Perform(s, a).sys.disk.schema == s.disk.schema
  {
  }

  lemma {:induction false} SessionIsKept(s: Sys, run: seq<Action>)
    ensures After(s, run).disk.session == s.disk.session && After(s, run).disk.schema == s.disk.schema
  {
    if run != [] {
      SessionIsKept(s, run[..|run| - 1]);
      StepKeepsSession(After(s, run[..|run| - 1]), run[|run| - 1]);
    }
  }

  lemma {:induction false} CommandsLegibleIff(s: Sys, run: seq<Action>)
    requires AllLegible(s.disk.commands) && Clean(s.disk.session)
    ensures AllLegible(After(s, run).disk.commands) <==> CleanCommandRun(s, run)
  {
    if run != [] {
      var shorter, a := run[..|run| - 1], run[|run| - 1];
      assert run == shorter + [a];
      CommandsLegibleIff(s, shorter);
      AlwaysAppend(CleanCommandStep, s, shorter, a);
      SessionIsKept(s, shorter);
      if AllLegible(After(s, shorter).disk.commands) {
        StepIsLegibleIff(After(s, shorter), a);
      } else {
        IllegibleStep(After(s, shorter), a);
      }
    }
  }

  /** In every run the command journal can be read and replayed if and only if every call that
      wrote to it had a clean payload reference, authorisation version, reason and receipt
      reference. */
  lemma CommandsReadableIff(session: string, run: seq<Action>)
    requires IsIdentifier(session)
    ensures Commands(After(NewSession(session), run).disk).Success? <==> CleanCommandRun(NewSession(session), run)
  {
    IdentifiersAreClean(session);
    CommandsLegibleIff(NewSession(session), run);
    Theorems.CommandJournalAlwaysReplays(session, run);
  }

  // ---------------------------------------------------------------------------
  // The evidence stream

  predicate IsAttach(a: Action) {
    a.AttachReceipt? || a.DieInAttach? || a.FailInAttach?
  }

  /** The reference, the schema and the passed expectations of the receipt are clean. */
  predicate CleanReceipt(a: Action) {
    IsAttach(a) ==>
      && Clean(a.reference)
      && (a.file.Readable? ==>
            && (a.file.receipt.schema.Text? ==> Clean(a.file.receipt.schema.text))
            && T.PassedAreClean(AllResults(a.file.receipt.results, a.file.receipt.steps)))
  }

  ghost predicate CleanEvidenceStep(s: Sys, a: Action) {
    Perform(s, a).sys.disk.evidence != s.disk.evidence ==> CleanReceipt(a)
  }

  lemma AttachedIsLegibleIff(d: Disk, id: string, reference: string, generation: string,
                             declared: Classification, file: ReceiptFile)
    requires EvidenceToAttach(d, id, reference, generation, declared, file).Success?
    ensures LegibleEvidence(EvidenceToAttach(d, id, reference, generation, declared, file).value) <==>
            && Clean(reference) && Clean(file.receipt.schema.text)
            && T.PassedAreClean(AllResults(file.receipt.results, file.receipt.steps))
  {
    NamesAreClean(d.commands);
    T.FactsAreCleanIff(AllResults(file.receipt.results, file.receipt.steps));
  }

  lemma OthersLeaveEvidence(s: Sys, a: Action)
    requires !s.live || !IsAttach(a) ||
             EvidenceToAttach(s.disk, a.id, a.reference, a.generation, a.declared, a.file).Failure?
    ensures Perform(s, a).sys.disk.evidence == s.disk.evidence
  {
  }

  lemma EvidenceStep(s: Sys, a: Action)
    ensures AllEvidenceLegible(Perform(s, a).sys.disk.evidence) <==>
            AllEvidenceLegible(s.disk.evidence) && CleanEvidenceStep(s, a)
  {
    if s.live && IsAttach(a) {
      var e := EvidenceToAttach(s.disk, a.id, a.reference, a.generation, a.declared, a.file);
      if e.Success? {
        AttachedIsLegibleIff(s.disk, a.id, a.reference, a.generation, a.declared, a.file);
        EvidenceLegibleAppend(s.disk.evidence, e.value);
        assert Perform(s, a).sys.disk.evidence == s.disk.evidence + [e.value];
      } else {
        OthersLeaveEvidence(s, a);
      }
    } else {
      OthersLeaveEvidence(s, a);
    }
  }

  ghost predicate CleanEvidenceRun(s: Sys, run: seq<Action>) {
    Always(CleanEvidenceStep, s, run)
  }

  /** In every run the evidence can be read if and only if every receipt that was attached had a
      clean reference and schema and clean passed expectations. */
  lemma {:induction false} EvidenceReadableIff(s: Sys, run: seq<Action>)
    requires AllEvidenceLegible(s.disk.evidence)
    ensures AllEvidenceLegible(After(s, run).disk.evidence) <==> CleanEvidenceRun(s, run)
  {
    if run != [] {
      var shorter, a := run[..|run| - 1], run[|run| - 1];
      assert run == shorter + [a];
      EvidenceReadableIff(s, shorter);
      AlwaysAppend(CleanEvidenceStep, s, shorter, a);
      EvidenceStep(After(s, shorter), a);
    }
  }

  // ---------------------------------------------------------------------------
  // Streams that cannot be read

  /** Nothing is ever written to a command journal that cannot be read, and every command call is
      refused. */
  lemma {:induction false} UnreadableCommandsAreForever(s: Sys, run: seq<Action>)
    requires !AllLegible(s.disk.commands)
    ensures After(s, run).disk.commands == s.disk.commands && After(s, run).disk.evidence == s.disk.evidence
    ensures Commands(After(s, run).disk) == Failure(CorruptStream)
  {
    if run != [] {
      UnreadableCommandsAreForever(s, run[..|run| - 1]);
      IllegibleStep(After(s, run[..|run| - 1]), run[|run| - 1]);
    }
  }

  lemma {:induction false} UnreadableEvidenceIsForever(s: Sys, run: seq<Action>)
    requires !AllEvidenceLegible(s.disk.evidence)
    ensures !AllEvidenceLegible(After(s, run).disk.evidence)
  {
    if run != [] {
      UnreadableEvidenceIsForever(s, run[..|run| - 1]);
      EvidenceStep(After(s, run[..|run| - 1]), run[|run| - 1]);
    }
  }

  const BROKEN_TEXT: string := ['a', LINE_SEPARATOR, 'b']

  lemma BrokenTextIsNotClean()
    ensures !Clean(BROKEN_TEXT) && BROKEN_TEXT != ""
  {
    assert BROKEN_TEXT[1] == LINE_SEPARATOR;
  }

  /** A payload reference with a line separator is accepted, and the journal cannot be read. */
  lemma SeparatorInPayload(session: string)
    ensures var step := Perform(NewSession(session), ProposeCommand("c", "p", BROKEN_TEXT, "1", 0.0));
            && step.refused.None? && Commands(step.sys.disk) == Failure(CorruptStream)
  {
    BrokenTextIsNotClean();
    var d := NewSession(session).disk;
    assert Replay(d.commands) == Success(map[]);
    var r := Propose(d, "c", "p", BROKEN_TEXT, "1", 0.0);
    assert !Legible(Created(r.result.value));
    AllLegibleAppend(d.commands, Created(r.result.value));
  }

  /** So is a profile reference with one, under a generation that is fresh. */
  lemma SeparatorInProfile(session: string)
    ensures var binding := Theorems.EXAMPLE_BINDING.(profile := BROKEN_TEXT);
            var step := Perform(NewSession(session), AcquireBinding(binding));
            && step.refused.None? && binding.generation !in B.AcquiredIn(NewSession(session).disk.bindings)
            && Bindings(step.sys.disk) == Failure(CorruptStream)
  {
    BrokenTextIsNotClean();
    var d, binding := NewSession(session).disk, Theorems.EXAMPLE_BINDING.(profile := BROKEN_TEXT);
    assert B.Replay([]) == Success([]) && B.Unreleased([]) == [];
    B.AllLegibleAppend(d.bindings, B.Acquired(binding.(releasedAt := None)));
  }

  /** A reason with one is written, and then reported as an error. */
  lemma SeparatorInReason(d: Disk, id: string)
    requires Accepts(d, id, OutcomeUnknown)
    ensures var r := MarkOutcomeUnknown(d, id, BROKEN_TEXT);
            && r.result == Failure(CorruptStream) && r.disk.commands != d.commands
            && Commands(r.disk) == Failure(CorruptStream)
  {
    BrokenTextIsNotClean();
    TransitionAppends(d, id, OutcomeUnknown, Because(BROKEN_TEXT));
  }

  /** A receipt whose passed expectations hold one is attached without complaint, and the
      evidence can never be read again. */
  lemma SeparatorInReceipt(d: Disk, id: string, reference: string, generation: string,
                           declared: Classification, file: ReceiptFile, run: seq<Action>)
    requires EvidenceToAttach(d, id, reference, generation, declared, file).Success? && Clean(reference)
    requires !T.PassedAreClean(AllResults(file.receipt.results, file.receipt.steps))
    ensures var r := Attach(d, id, reference, generation, declared, file);
            && r.result.Success? && Commands(r.disk).Success?
            && !AllEvidenceLegible(After(Sys(r.disk, true), run).disk.evidence)
  {
    var ev := EvidenceToAttach(d, id, reference, generation, declared, file).value;
    AttachedIsLegibleIff(d, id, reference, generation, declared, file);
    AttachCompletes(d, id, reference, generation, declared, file);
    EvidenceLegibleAppend(d.evidence, ev);
    UnreadableEvidenceIsForever(Sys(Attach(d, id, reference, generation, declared, file).disk, true), run);
  }
}
