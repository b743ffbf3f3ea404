/** When the evidence stream and the command journal of a continuity session say the same
    (dingdongditch/continuity.py: `_attach_receipt`, `mark_outcome_unknown`, recovery). */
module Agreement {
  import opened Wrappers
  import opened CommandJournal
  import opened Continuity
  import opened Recovery
  import opened ContinuityRuns
  import Theorems = ContinuityTheorems
  import B = BindingJournal

  predicate Agrees(records: Records, ev: Evidence) {
    && ev.command in records
    && records[ev.command].state == Target(ev.classification)
    && records[ev.command].receipt == Some(ev.reference)
  }

  predicate Pending(records: Records, ev: Evidence) {
    ev.command in records && records[ev.command].state == Dispatched
  }

  ghost predicate OneLineEach(evidence: seq<Evidence>) {
    forall i, j :: 0 <= i < j < |evidence| ==> evidence[i].command != evidence[j].command
  }

  /** Each command has at most one evidence line, and the command says what the line says. */
  ghost predicate InAgreement(d: Disk) {
    && Replay(d.commands).Success? && OneLineEach(d.evidence)
    && forall ev :: ev in d.evidence ==> Agrees(Replay(d.commands).value, ev)
  }

  /** The same, except that a command with evidence may still be dispatched, unless all are
      settled. */
  ghost predicate InStep(d: Disk, settled: bool) {
    && Consistent(d) && OneLineEach(d.evidence)
    && (forall ev :: ev in d.evidence ==>
          Agrees(Replay(d.commands).value, ev) || (!settled && Pending(Replay(d.commands).value, ev)))
  }

  /** The command is dispatched and already has evidence. */
  ghost predicate PendingOn(d: Disk, id: string) {
    Replay(d.commands).Success? &&
    exists ev :: ev in d.evidence && ev.command == id && Pending(Replay(d.commands).value, ev)
  }

  ghost predicate SomePending(d: Disk) {
    Replay(d.commands).Success? &&
    exists ev :: ev in d.evidence && Pending(Replay(d.commands).value, ev)
  }

  // ---------------------------------------------------------------------------
  // Steps that keep step

  lemma {:induction false} LatestOfDistinct(evidence: seq<Evidence>, ev: Evidence)
    requires OneLineEach(evidence) && ev in evidence
    ensures Latest(evidence)[ev.command] == ev
  {
    var last := evidence[|evidence| - 1];
    if ev != last {
      LatestOfDistinct(evidence[..|evidence| - 1], ev);
    }
  }

  /** What keeps the records of all commands with evidence keeps the streams in step. */
  lemma RecordsKeptInStep(d: Disk, d': Disk, settled: bool)
    requires InStep(d, settled) && Consistent(d') && d'.evidence == d.evidence
    requires forall ev :: ev in d.evidence ==>
               ev.command in Replay(d'.commands).value &&
               Replay(d'.commands).value[ev.command] == Replay(d.commands).value[ev.command]
    ensures InStep(d', settled)
  {
    forall ev | ev in d'.evidence
      ensures Agrees(Replay(d'.commands).value, ev) || (!settled && Pending(Replay(d'.commands).value, ev))
    {
      assert Agrees(Replay(d.commands).value, ev) || (!settled && Pending(Replay(d.commands).value, ev));
    }
  }

  lemma TransitionInStep(d: Disk, settled: bool, id: string, to: CommandState, detail: Detail)
    requires InStep(d, settled) && CarriesLinks(d, id, to, detail)
    requires PendingOn(d, id) ==> !Accepts(d, id, to)
    ensures InStep(Transition(d, id, to, detail).disk, settled)
  {
    if !Accepts(d, id, to) {
      TransitionRefuses(d, id, to, detail);
    } else {
      TransitionKeeps(d, id, to, detail);
      TransitionAppends(d, id, to, detail);
      forall ev | ev in d.evidence ensures ev.command != id {
        assert Agrees(Replay(d.commands).value, ev) || Pending(Replay(d.commands).value, ev);
      }
      RecordsKeptInStep(d, Transition(d, id, to, detail).disk, settled);
    }
  }

  lemma NoEvidenceYet(d: Disk, settled: bool, id: string, ev: Evidence)
    requires InStep(d, settled) && !PendingOn(d, id) && ev in d.evidence
    requires id in Replay(d.commands).value && Replay(d.commands).value[id].state == Dispatched
    ensures ev.command != id
  {
  }

  lemma EvidenceInStep(d: Disk, settled: bool, ev: Evidence)
    requires InStep(d, settled) && !PendingOn(d, ev.command)
    requires CommandsConsistent(d.(evidence := d.evidence + [ev])) && Pending(Replay(d.commands).value, ev)
    ensures InStep(d.(evidence := d.evidence + [ev]), false)
    ensures settled ==> forall e :: e in d.evidence ==> Agrees(Replay(d.commands).value, e)
  {
    var d' := d.(evidence := d.evidence + [ev]);
    forall i | 0 <= i < |d.evidence| ensures d.evidence[i].command != ev.command {
      NoEvidenceYet(d, settled, ev.command, d.evidence[i]);
    }
    forall e | e in d'.evidence
      ensures Agrees(Replay(d'.commands).value, e) || Pending(Replay(d'.commands).value, e)
    {
      assert e in d.evidence || e == ev;
    }
    forall i, j | 0 <= i < j < |d'.evidence| ensures d'.evidence[i].command != d'.evidence[j].command {
      assert d'.evidence[i] == d.evidence[i];
    }
  }

  lemma AttachInterruptedInStep(d: Disk, settled: bool, id: string, reference: string, generation: string,
                                declared: Classification, file: ReceiptFile)
    requires InStep(d, settled)
    requires EvidenceToAttach(d, id, reference, generation, declared, file).Success? ==> !PendingOn(d, id)
    ensures InStep(AttachInterrupted(d, id, reference, generation, declared, file), false)
  {
    AttachKeeps(d, id, reference, generation, declared, file);
    var e := EvidenceToAttach(d, id, reference, generation, declared, file);
    if e.Success? {
      EvidenceInStep(d, settled, e.value);
    }
  }

  /** Settling the command of one line as the line says. */
  lemma SettlingOne(d: Disk, d': Disk, settled: bool, ev: Evidence)
    requires InStep(d, false) && Consistent(d') && d' == d.(commands := d'.commands)
    requires ev in d.evidence && ev.command in Replay(d.commands).value
    requires forall e :: e in d.evidence && e.command != ev.command ==>
               Agrees(Replay(d.commands).value, e) || (!settled && Pending(Replay(d.commands).value, e))
    requires Replay(d'.commands) == Success(Replay(d.commands).value[ev.command :=
               Advance(Replay(d.commands).value[ev.command], Target(ev.classification), WithReceipt(ev.reference))])
    ensures InStep(d', settled)
  {
    forall e | e in d'.evidence
      ensures Agrees(Replay(d'.commands).value, e) || (!settled && Pending(Replay(d'.commands).value, e))
    {
      if e.command == ev.command {
        LatestOfDistinct(d.evidence, e);
        LatestOfDistinct(d.evidence, ev);
      } else {
        assert Agrees(Replay(d.commands).value, e) || (!settled && Pending(Replay(d.commands).value, e));
      }
    }
  }

  lemma AttachInStep(d: Disk, settled: bool, id: string, reference: string, generation: string,
                     declared: Classification, file: ReceiptFile)
    requires InStep(d, settled)
    requires EvidenceToAttach(d, id, reference, generation, declared, file).Success? ==> !PendingOn(d, id)
    ensures InStep(Attach(d, id, reference, generation, declared, file).disk, settled)
  {
    if EvidenceToAttach(d, id, reference, generation, declared, file).Success? {
      AttachKeeps(d, id, reference, generation, declared, file);
      AttachInterruptedInStep(d, settled, id, reference, generation, declared, file);
      AttachSettlesInStep(d, settled, id, reference, generation, declared, file);
    }
  }

  lemma AttachSettlesInStep(d: Disk, settled: bool, id: string, reference: string, generation: string,
                            declared: Classification, file: ReceiptFile)
    requires InStep(d, settled) && EvidenceToAttach(d, id, reference, generation, declared, file).Success?
    requires InStep(AttachInterrupted(d, id, reference, generation, declared, file), false)
    requires Consistent(Attach(d, id, reference, generation, declared, file).disk)
    ensures InStep(Attach(d, id, reference, generation, declared, file).disk, settled)
  {
    var ev := EvidenceToAttach(d, id, reference, generation, declared, file).value;
    AttachCompletes(d, id, reference, generation, declared, file);
    OtherLinesInStep(d, settled, ev);
    SettlingOne(AttachInterrupted(d, id, reference, generation, declared, file),
                Attach(d, id, reference, generation, declared, file).disk, settled, ev);
  }

  lemma OtherLinesInStep(d: Disk, settled: bool, ev: Evidence)
    requires InStep(d, settled)
    ensures ev in d.evidence + [ev]
    ensures forall e :: e in d.evidence + [ev] && e.command != ev.command ==>
              Agrees(Replay(d.commands).value, e) || (!settled && Pending(Replay(d.commands).value, e))
  {
    assert (d.evidence + [ev])[|d.evidence|] == ev;
  }

  lemma SettledInStep(d: Disk, settled: bool, d': Disk, todo: seq<CommandRecord>)
    requires InStep(d, settled) && d' == d.(commands := d'.commands)
    requires Replay(d'.commands) == Success(SettledIn(Replay(d.commands).value, todo, Latest(d.evidence)))
    ensures InStep(d', settled)
    ensures (forall id :: id in Replay(d.commands).value ==> Replay(d.commands).value[id] in todo) ==> InStep(d', true)
  {
    SettledInKeeps(d, d', todo);
    var before, after := Replay(d.commands).value, Replay(d'.commands).value;
    forall ev | ev in d.evidence
      ensures Agrees(after, ev) || (!settled && Pending(after, ev) && before[ev.command] !in todo)
    {
      assert Agrees(before, ev) || (!settled && Pending(before, ev));
      assert before[ev.command].id == ev.command;
      LatestOfDistinct(d.evidence, ev);
    }
  }

  lemma SettleInStep(d: Disk, settled: bool, todo: seq<CommandRecord>)
    requires InStep(d, settled) && RecoveryProblem(d).None? && Lists(Replay(d.commands).value, todo)
    ensures InStep(SettleAll(d, todo, Latest(d.evidence)).disk, settled)
    ensures d.lifecycle == Active &&
            (forall id :: id in Replay(d.commands).value ==> Replay(d.commands).value[id] in todo) ==>
              InStep(SettleAll(d, todo, Latest(d.evidence)).disk, true)
  {
    if d.lifecycle != Active {
      SettleAllReadOnly(d, todo, Latest(d.evidence));
    } else {
      LegibleEvidenceIsClean(d.evidence);
      SettleAllRecords(d, todo, Latest(d.evidence));
      SettledInStep(d, settled, SettleAll(d, todo, Latest(d.evidence)).disk, todo);
    }
  }

  lemma NothingDispatchedIsSettled(d: Disk, settled: bool)
    requires InStep(d, settled) && !SomeDispatched(d)
    ensures InStep(d, true)
  {
  }

  lemma RecoverInStep(d: Disk, settled: bool, upTo: nat)
    requires InStep(d, settled)
    ensures InStep(Recover(d).disk, settled) && InStep(RecoverUpTo(d, upTo).disk, settled)
    ensures Recover(d).result.Success? ==> InStep(Recover(d).disk, true)
  {
    if RecoveryProblem(d).None? {
      var all := Listing(d.commands);
      ListingLists(d.commands);
      ListsPrefix(Replay(d.commands).value, all, upTo);
      SettleInStep(d, settled, all);
      SettleInStep(d, settled, FirstOf(all, upTo));
      RecoverySucceedsIff(d);
      if d.lifecycle != Active && !SomeDispatched(d) {
        NothingDispatchedIsSettled(d, settled);
        RecoveryIsNoOp(d);
      }
    }
  }

  /** Only the commands and the evidence matter. */
  lemma OtherFieldsInStep(d: Disk, d': Disk, settled: bool)
    requires InStep(d, settled) && Consistent(d') && d'.commands == d.commands && d'.evidence == d.evidence
    ensures InStep(d', settled)
  {
  }

  lemma ProposeInStep(d: Disk, settled: bool, id: string, planner: string, payload: string, authorization: string, at: real)
    requires InStep(d, settled)
    ensures InStep(Propose(d, id, planner, payload, authorization, at).disk, settled)
  {
    var r := Propose(d, id, planner, payload, authorization, at);
    if r.result.Success? {
      ProposeKeeps(d, id, planner, payload, authorization, at);
      ReplayAppend(d.commands, Created(r.result.value));
      forall ev | ev in d.evidence ensures ev.command in Replay(d.commands).value {
        assert EvidenceLinked(Replay(d.commands).value, ev);
      }
      RecordsKeptInStep(d, r.disk, settled);
    }
  }

  lemma DispatchInStep(d: Disk, settled: bool, id: string, generation: string)
    requires InStep(d, settled)
    ensures InStep(Dispatch(d, id, generation).disk, settled)
  {
    if B.Active(d.bindings).Success? && B.Active(d.bindings).value.Some? {
      ActiveIsAcquired(d.bindings);
      if B.Active(d.bindings).value.value.generation == generation {
        TransitionInStep(d, settled, id, Dispatched, UnderGeneration(generation));
      }
    }
  }

  // ---------------------------------------------------------------------------
  // Missteps

  predicate IsAttach(a: Action) {
    a.AttachReceipt? || a.DieInAttach? || a.FailInAttach?
  }

  /** A live owner gives up, or attaches a second receipt to, a command that already has evidence
      and has not been settled from it. */
  ghost predicate Misstep(s: Sys, a: Action) {
    && s.live
    && (a.MarkUnknown? || IsAttach(a)) && PendingOn(s.disk, a.id)
    && (a.MarkUnknown? ==> Perform(s, a).sys.disk.commands != s.disk.commands)
    && (IsAttach(a) ==> Perform(s, a).sys.disk.evidence != s.disk.evidence)
  }

  ghost predicate NoMisstep(s: Sys, a: Action) {
    !Misstep(s, a)
  }

  lemma AttachStepInStep(s: Sys, settled: bool, a: Action)
    requires s.live && InStep(s.disk, settled) && !Misstep(s, a) && IsAttach(a)
    ensures InStep(Perform(s, a).sys.disk, settled && a.AttachReceipt?)
  {
    var e := EvidenceToAttach(s.disk, a.id, a.reference, a.generation, a.declared, a.file);
    if e.Success? {
      assert Perform(s, a).sys.disk.evidence == s.disk.evidence + [e.value];
    }
    if a.AttachReceipt? {
      AttachInStep(s.disk, settled, a.id, a.reference, a.generation, a.declared, a.file);
    } else {
      AttachInterruptedInStep(s.disk, settled, a.id, a.reference, a.generation, a.declared, a.file);
    }
  }

  lemma MarkStepInStep(s: Sys, settled: bool, a: Action)
    requires s.live && InStep(s.disk, settled) && !Misstep(s, a) && a.MarkUnknown?
    ensures InStep(Perform(s, a).sys.disk, settled)
  {
    if a.reason != "" {
      if PendingOn(s.disk, a.id) && Accepts(s.disk, a.id, OutcomeUnknown) {
        TransitionAppends(s.disk, a.id, OutcomeUnknown, Because(a.reason));
      } else {
        TransitionInStep(s.disk, settled, a.id, OutcomeUnknown, Because(a.reason));
      }
    }
  }

  lemma CommandCallInStep(s: Sys, settled: bool, a: Action)
    requires s.live && InStep(s.disk, settled) && !Misstep(s, a)
    requires a.ProposeCommand? || a.AuthorizeCommand? || a.CancelCommand? || a.MarkUnknown? || a.DispatchCommand?
    ensures InStep(Perform(s, a).sys.disk, settled)
  {
    var d := s.disk;
    match a {
      case ProposeCommand(id, planner, payload, authorization, at) =>
        ProposeInStep(d, settled, id, planner, payload, authorization, at);
      case AuthorizeCommand(id) => TransitionInStep(d, settled, id, Authorized, PLAIN);
      case CancelCommand(id) => TransitionInStep(d, settled, id, Cancelled, PLAIN);
      case MarkUnknown(_, _) => MarkStepInStep(s, settled, a);
      case DispatchCommand(id, generation) => DispatchInStep(d, settled, id, generation);
    }
  }

  lemma CallInStep(s: Sys, settled: bool, a: Action)
    requires s.live && InStep(s.disk, settled) && !Misstep(s, a)
    ensures InStep(Perform(s, a).sys.disk, settled && !a.DieInAttach? && !a.FailInAttach?)
  {
    var d := s.disk;
    match a {
      case ProposeCommand(_, _, _, _, _) => CommandCallInStep(s, settled, a);
      case AuthorizeCommand(_) => CommandCallInStep(s, settled, a);
      case CancelCommand(_) => CommandCallInStep(s, settled, a);
      case MarkUnknown(_, _) => CommandCallInStep(s, settled, a);
      case DispatchCommand(_, _) => CommandCallInStep(s, settled, a);
      case AttachReceipt(_, _, _, _, _) => AttachStepInStep(s, settled, a);
      case DieInAttach(_, _, _, _, _) => AttachStepInStep(s, settled, a);
      case FailInAttach(_, _, _, _, _) => AttachStepInStep(s, settled, a);
      case AcquireBinding(binding) =>
        AcquireKeeps(d, binding);
        OtherFieldsInStep(d, Acquire(d, binding).disk, settled);
      case ReleaseBinding(generation, at) =>
        ReleaseKeeps(d, generation, at);
        OtherFieldsInStep(d, Release(d, generation, at).disk, settled);
      case RecoverCommands => RecoverInStep(d, settled, 0);
      case DieInRecover(upTo) => RecoverInStep(d, settled, upTo);
      case FailInRecover(upTo) => RecoverInStep(d, settled, upTo);
      case EndSession(status) =>
        HeaderKeeps(d, d.(lifecycle := status));
        OtherFieldsInStep(d, SetLifecycle(d, status).disk, settled);
      case _ =>
    }
  }

  lemma ReopenInStep(s: Sys, settled: bool, a: Action)
    requires !s.live && InStep(s.disk, settled) && (a.Reopen? || a.DieInReopen?)
    ensures InStep(Perform(s, a).sys.disk, settled)
    ensures a.Reopen? && a.recover && Perform(s, a).sys.live ==> InStep(Perform(s, a).sys.disk, true)
  {
    var d := s.disk.(owner := a.owner);
    HeaderKeeps(s.disk, d);
    OtherFieldsInStep(s.disk, d, settled);
    RecoverInStep(d, settled, if a.DieInReopen? then a.upTo else 0);
  }

  lemma PerformInStep(s: Sys, settled: bool, a: Action)
    requires InStep(s.disk, settled) && !Misstep(s, a)
    ensures InStep(Perform(s, a).sys.disk, settled && !(s.live && (a.DieInAttach? || a.FailInAttach?)))
    ensures !s.live && a.Reopen? && a.recover && Perform(s, a).sys.live ==> InStep(Perform(s, a).sys.disk, true)
  {
    if s.live {
      CallInStep(s, settled, a);
    } else if a.Reopen? || a.DieInReopen? {
      ReopenInStep(s, settled, a);
    }
  }

  // ---------------------------------------------------------------------------
  // Missteps are for ever

  /** Some command has two lines, or is terminal and does not say what its line says. */
  ghost predicate Spoiled(d: Disk) {
    || !OneLineEach(d.evidence)
    || (Replay(d.commands).Success? &&
        exists ev :: ev in d.evidence && Contradicts(Replay(d.commands).value, ev))
  }

  predicate Contradicts(records: Records, ev: Evidence) {
    ev.command in records && Terminal(records[ev.command].state) && !Agrees(records, ev)
  }

  lemma SpoiledIsNotInAgreement(d: Disk)
    requires Spoiled(d)
    ensures !InAgreement(d)
  {
  }

  lemma SpoiledStays(d: Disk, d': Disk)
    requires Spoiled(d) && Theorems.Extends(d, d') && CommandsConsistent(d) && CommandsConsistent(d')
    ensures Spoiled(d')
  {
    if !OneLineEach(d.evidence) {
      var i, j :| 0 <= i < j < |d.evidence| && d.evidence[i].command == d.evidence[j].command;
      assert d'.evidence[i].command == d'.evidence[j].command;
    } else {
      var ev :| ev in d.evidence && Contradicts(Replay(d.commands).value, ev);
      assert d'.commands == d.commands + d'.commands[|d.commands|..];
      TerminalIsFinal(d.commands, d'.commands[|d.commands|..], ev.command);
      assert ev in d'.evidence && Contradicts(Replay(d'.commands).value, ev);
    }
  }

  /** Giving up a command that has evidence contradicts the evidence. */
  lemma GivingUpSpoils(d: Disk, id: string, reason: string)
    requires CommandsConsistent(d) && PendingOn(d, id) && Accepts(d, id, OutcomeUnknown)
    ensures Spoiled(Transition(d, id, OutcomeUnknown, Because(reason)).disk)
  {
    var ev :| ev in d.evidence && ev.command == id && Pending(Replay(d.commands).value, ev);
    TransitionAppends(d, id, OutcomeUnknown, Because(reason));
    assert RecordLinked(d, Replay(d.commands).value[id]);
    assert Replay(d.commands).value[id].receipt == None;
    assert Contradicts(Replay(Transition(d, id, OutcomeUnknown, Because(reason)).disk.commands).value, ev);
  }

  /** So does a second line about one command. */
  lemma SecondLineSpoils(d: Disk, ev: Evidence, commands: seq<CommandEvent>)
    requires PendingOn(d, ev.command)
    ensures Spoiled(d.(evidence := d.evidence + [ev], commands := commands))
  {
    var e :| e in d.evidence && e.command == ev.command;
    var i :| 0 <= i < |d.evidence| && d.evidence[i] == e;
    var lines := d.evidence + [ev];
    assert lines[i].command == lines[|d.evidence|].command;
  }

  lemma MisstepSpoils(s: Sys, a: Action)
    requires InStep(s.disk, false) && Misstep(s, a)
    ensures Spoiled(Perform(s, a).sys.disk)
  {
    if a.MarkUnknown? {
      if Accepts(s.disk, a.id, OutcomeUnknown) {
        GivingUpSpoils(s.disk, a.id, a.reason);
      } else {
        TransitionRefuses(s.disk, a.id, OutcomeUnknown, Because(a.reason));
      }
    } else {
      var e := EvidenceToAttach(s.disk, a.id, a.reference, a.generation, a.declared, a.file);
      SecondLineSpoils(s.disk, e.value, Perform(s, a).sys.disk.commands);
    }
  }

  lemma {:induction false} InStepOrSpoiled(session: string, run: seq<Action>)
    ensures var d := After(NewSession(session), run).disk;
            if Always(NoMisstep, NewSession(session), run) then InStep(d, false) else Spoiled(d)
  {
    if run != [] {
      var shorter, a := run[..|run| - 1], run[|run| - 1];
      assert run == shorter + [a];
      InStepOrSpoiled(session, shorter);
      AlwaysAppend(NoMisstep, NewSession(session), shorter, a);
      var s := After(NewSession(session), shorter);
      if !Always(NoMisstep, NewSession(session), shorter) {
        Theorems.PerformExtends(s, a);
        EveryRunIsConsistent(session, shorter);
        EveryRunIsConsistent(session, run);
        SpoiledStays(s.disk, Perform(s, a).sys.disk);
      } else if Misstep(s, a) {
        MisstepSpoils(s, a);
      } else {
        PerformInStep(s, false, a);
      }
    }
  }

  lemma InStepAgreesIff(d: Disk)
    requires InStep(d, false)
    ensures InAgreement(d) <==> !SomePending(d)
  {
    if SomePending(d) {
      var ev :| ev in d.evidence && Pending(Replay(d.commands).value, ev);
      assert !Agrees(Replay(d.commands).value, ev);
    }
  }

  /** In every run, failing appends and reopenings without recovery included, the evidence and the
      journal say the same if and only if no misstep was made and no command with evidence is
      still dispatched. */
  lemma AgreementIff(session: string, run: seq<Action>)
    ensures var d := After(NewSession(session), run).disk;
            InAgreement(d) <==> Always(NoMisstep, NewSession(session), run) && !SomePending(d)
  {
    InStepOrSpoiled(session, run);
    if Always(NoMisstep, NewSession(session), run) {
      InStepAgreesIff(After(NewSession(session), run).disk);
    } else {
      SpoiledIsNotInAgreement(After(NewSession(session), run).disk);
    }
  }

  // ---------------------------------------------------------------------------
  // Runs in which every reopening recovers

  ghost predicate AlwaysRecovers(run: seq<Action>) {
    forall i :: 0 <= i < |run| && run[i].Reopen? ==> run[i].recover
  }

  /** No attach fails between its two appends while the owner lives on. */
  ghost predicate NoAttachFails(run: seq<Action>) {
    forall i :: 0 <= i < |run| ==> !run[i].FailInAttach?
  }

  lemma SettledHasNoMissteps(s: Sys, a: Action)
    requires InStep(s.disk, s.live)
    ensures !Misstep(s, a)
  {
  }

  lemma {:induction false} RecoveringRunsStayInStep(s: Sys, run: seq<Action>)
    requires InStep(s.disk, s.live) && AlwaysRecovers(run) && NoAttachFails(run)
    ensures InStep(After(s, run).disk, After(s, run).live)
  {
    if run != [] {
      var shorter, a := run[..|run| - 1], run[|run| - 1];
      assert forall i :: 0 <= i < |shorter| ==> shorter[i] == run[i];
      RecoveringRunsStayInStep(s, shorter);
      var t := After(s, shorter);
      SettledHasNoMissteps(t, a);
      PerformInStep(t, t.live, a);
      DeadMayBePending(Perform(t, a).sys.disk, t.live);
    }
  }

  lemma DeadMayBePending(d: Disk, settled: bool)
    ensures InStep(d, settled) ==> InStep(d, false)
  {
  }

  /** If every reopening recovers and no attach fails halfway, then whenever an owner has the
      session open the evidence stream and the command journal say the same thing: every line is
      what its command says, a command has at most one line, and a verified or failed command
      has one. */
  lemma EvidenceAndJournalAgree(session: string, run: seq<Action>)
    requires AlwaysRecovers(run) && NoAttachFails(run) && After(NewSession(session), run).live
    ensures var d := After(NewSession(session), run).disk;
            && InAgreement(d)
            && (forall id :: id in Replay(d.commands).value && Replay(d.commands).value[id].state in {Verified, Failed} ==>
                  exists ev :: ev in d.evidence && ev.command == id && Agrees(Replay(d.commands).value, ev))
  {
    RecoveringRunsStayInStep(NewSession(session), run);
    var d := After(NewSession(session), run).disk;
    var records := Replay(d.commands).value;
    forall id | id in records && records[id].state in {Verified, Failed}
      ensures exists ev :: ev in d.evidence && ev.command == id && Agrees(records, ev)
    {
      assert RecordLinked(d, records[id]);
      assert Agrees(records, Latest(d.evidence)[id]);
    }
  }

  lemma GivingUpAfterFailedAttach(s: Sys, attach: Action, reason: string)
    requires s.live && attach.FailInAttach? && reason != "" && CommandsConsistent(s.disk)
    requires EvidenceToAttach(s.disk, attach.id, attach.reference, attach.generation, attach.declared, attach.file).Success?
    ensures Misstep(Perform(s, attach).sys, MarkUnknown(attach.id, reason))
  {
    var halfway := Perform(s, attach).sys;
    var ev := EvidenceToAttach(s.disk, attach.id, attach.reference, attach.generation, attach.declared, attach.file).value;
    AttachIsAccepted(s.disk, attach.id, attach.reference, attach.generation, attach.declared, attach.file);
    assert ev == halfway.disk.evidence[|s.disk.evidence|];
    assert ev in halfway.disk.evidence && Pending(Replay(halfway.disk.commands).value, ev);
    TransitionAppends(halfway.disk, attach.id, OutcomeUnknown, Because(reason));
  }

  /** An attach that fails between its appends, followed by giving the command up: both are steps
      of a live owner, and from then on the streams disagree in every continuation. */
  lemma FailedAttachThenGivenUp(session: string, before: seq<Action>, attach: Action, reason: string, more: seq<Action>)
    requires var s := After(NewSession(session), before);
             && s.live && attach.FailInAttach? && reason != ""
             && EvidenceToAttach(s.disk, attach.id, attach.reference, attach.generation, attach.declared, attach.file).Success?
    ensures !InAgreement(After(NewSession(session), before + [attach] + [MarkUnknown(attach.id, reason)] + more).disk)
  {
    var give := MarkUnknown(attach.id, reason);
    EveryRunIsConsistent(session, before);
    GivingUpAfterFailedAttach(After(NewSession(session), before), attach, reason);
    AfterAppend(NewSession(session), before, attach);
    MisstepIsFound(NewSession(session), before + [attach], give, more);
    AgreementIff(session, before + [attach] + [give] + more);
  }

  lemma AfterAppend(s: Sys, run: seq<Action>, a: Action)
    ensures After(s, run + [a]) == Perform(After(s, run), a).sys
  {
    assert (run + [a])[..|run|] == run;
  }

  lemma MisstepIsFound(s: Sys, before: seq<Action>, a: Action, more: seq<Action>)
    requires Misstep(After(s, before), a)
    ensures !Always(NoMisstep, s, before + [a] + more)
  {
    var run := before + [a] + more;
    assert run[..|before|] == before && run[|before|] == a;
    assert !NoMisstep(After(s, run[..|before|]), run[|before|]);
  }
}
