/** Whole runs of a continuity session: API calls, deaths of the owner at every point
    between two appends, appends that fail while the owner lives, and reopening
    (dingdongditch/continuity.py). */
module ContinuityRuns {
  import opened Wrappers
  import opened CommandJournal
  import opened Continuity
  import opened Recovery
  import B = BindingJournal

  /** The directory, and whether some owner currently has it open. */
  datatype Sys = Sys(disk: Disk, live: bool)

  datatype Action =
    | ProposeCommand(id: string, planner: string, payload: string, authorization: string, at: real)
    | AuthorizeCommand(id: string)
    | DispatchCommand(id: string, generation: string)
    | CancelCommand(id: string)
    | MarkUnknown(id: string, reason: string)
    | AcquireBinding(binding: B.Binding)
    | ReleaseBinding(generation: string, at: real)
    | AttachReceipt(id: string, reference: string, generation: string,
                    declared: Classification, file: ReceiptFile)
    | DieInAttach(id: string, reference: string, generation: string,
                  declared: Classification, file: ReceiptFile)
    | FailInAttach(id: string, reference: string, generation: string,
                   declared: Classification, file: ReceiptFile)
    | RecoverCommands
    | DieInRecover(upTo: nat)
    | FailInRecover(upTo: nat)
    | FailToAppend
    | EndSession(status: Lifecycle)
    | CloseOrDie
    | Reopen(owner: string, recover: bool)
    | DieInReopen(owner: string, upTo: nat)

  datatype Step = Step(sys: Sys, refused: Option<Error>)

  function Stay<T>(r: Reply<T>): Step {
    Step(Sys(r.disk, true), if r.result.Success? then None else Some(r.result.error))
  }

  function Perform(s: Sys, a: Action): Step {
    if s.live then
      match a
      case ProposeCommand(id, planner, payload, authorization, at) =>
        Stay(Propose(s.disk, id, planner, payload, authorization, at))
      case AuthorizeCommand(id) => Stay(Transition(s.disk, id, Authorized, PLAIN))
      case DispatchCommand(id, generation) => Stay(Dispatch(s.disk, id, generation))
      case CancelCommand(id) => Stay(Transition(s.disk, id, Cancelled, PLAIN))
      case MarkUnknown(id, reason) => Stay(MarkOutcomeUnknown(s.disk, id, reason))
      case AcquireBinding(binding) => Stay(Acquire(s.disk, binding))
      case ReleaseBinding(generation, at) => Stay(Release(s.disk, generation, at))
      case AttachReceipt(id, reference, generation, declared, file) =>
        Stay(Attach(s.disk, id, reference, generation, declared, file))
      case DieInAttach(id, reference, generation, declared, file) =>
        Step(Sys(AttachInterrupted(s.disk, id, reference, generation, declared, file), false), None)
      case FailInAttach(id, reference, generation, declared, file) =>
        Step(s.(disk := AttachInterrupted(s.disk, id, reference, generation, declared, file)), Some(WriteFailed))
      case RecoverCommands => Stay(Recover(s.disk))
      case DieInRecover(upTo) => Step(Sys(RecoverUpTo(s.disk, upTo).disk, false), None)
      case FailInRecover(upTo) => Step(s.(disk := RecoverUpTo(s.disk, upTo).disk), Some(WriteFailed))
      case FailToAppend => Step(s, Some(WriteFailed))
      case EndSession(status) => Stay(SetLifecycle(s.disk, status))
      case CloseOrDie => Step(s.(live := false), None)
      case Reopen(_, _) => Step(s, Some(LeaseHeld))
      case DieInReopen(_, _) => Step(s, Some(LeaseHeld))
    else
      match a
      case Reopen(owner, recover) =>
        (match TakeOver(s.disk, owner)
         case Failure(e) => Step(s, Some(e))
         case Success(d) =>
           if !recover then Step(Sys(d, true), None)
           else
             var r := Recover(d);
             match r.result
             case Success(_) => Step(Sys(r.disk, true), None)
             case Failure(e) => Step(Sys(r.disk, false), Some(e)))
      case DieInReopen(owner, upTo) =>
        (match TakeOver(s.disk, owner)
         case Failure(e) => Step(s, Some(e))
         case Success(d) => Step(Sys(RecoverUpTo(d, upTo).disk, false), None))
      case _ => Step(s, Some(OwnerClosed))
  }

  function After(s: Sys, run: seq<Action>): Sys {
    if run == [] then s
    else Perform(After(s, run[..|run| - 1]), run[|run| - 1]).sys
  }

  /** Every step of the run, taken where the run takes it, passes the test. */
  ghost predicate Always(test: (Sys, Action) -> bool, s: Sys, run: seq<Action>) {
    EachFits((before, a) => test(After(s, before), a), run)
  }

  lemma AlwaysAppend(test: (Sys, Action) -> bool, s: Sys, shorter: seq<Action>, a: Action)
    ensures Always(test, s, shorter + [a]) <==> Always(test, s, shorter) && test(After(s, shorter), a)
  {
    EachFitsAppend((before, a) => test(After(s, before), a), shorter, a);
  }

  const FIRST_OWNER := "owner"

  function NewSession(id: string): Sys {
    Sys(Disk(id, SCHEMA_VERSION, FIRST_OWNER, [], [], [], Active), true)
  }

  // ---------------------------------------------------------------------------
  // What every step keeps

  /** How one record is tied to the other two streams. */
  ghost predicate RecordLinked(d: Disk, r: CommandRecord) {
    && (r.generation.Some? <==> r.state in {Dispatched, Verified, Failed, OutcomeUnknown})
    && (r.generation.Some? ==> r.generation.value in B.AcquiredIn(d.bindings))
    && (r.state == Verified || r.state == Failed ==> r.receipt.Some?)
    && (r.receipt.Some? ==>
          && r.id in Latest(d.evidence)
          && r.state == Target(Latest(d.evidence)[r.id].classification)
          && r.receipt.value == Latest(d.evidence)[r.id].reference)
  }

  ghost predicate EvidenceLinked(records: Records, ev: Evidence) {
    ev.command in records && records[ev.command].generation == Some(ev.generation)
  }

  ghost predicate CommandsConsistent(d: Disk) {
    && Replay(d.commands).Success?
    && (forall id :: id in Replay(d.commands).value ==>
          Replay(d.commands).value[id].id == id && RecordLinked(d, Replay(d.commands).value[id]))
    && (forall ev :: ev in d.evidence ==> EvidenceLinked(Replay(d.commands).value, ev))
  }

  ghost predicate BindingsConsistent(d: Disk) {
    B.Replay(d.bindings).Success? ==> |B.Unreleased(B.Replay(d.bindings).value)| <= 1
  }

  ghost predicate Consistent(d: Disk) {
    CommandsConsistent(d) && BindingsConsistent(d)
  }

  lemma ProposeKeeps(d: Disk, id: string, planner: string, payload: string, authorization: string, at: real)
    requires CommandsConsistent(d)
    ensures CommandsConsistent(Propose(d, id, planner, payload, authorization, at).disk)
  {
    var r := Propose(d, id, planner, payload, authorization, at);
    if r.result.Success? {
      ReplayAppend(d.commands, Created(r.result.value));
      var before, after := Replay(d.commands).value, Replay(r.disk.commands).value;
      assert after == before[id := r.result.value];
      forall ev | ev in r.disk.evidence ensures EvidenceLinked(after, ev) {
        assert EvidenceLinked(before, ev);
      }
      forall c | c in after ensures after[c].id == c && RecordLinked(r.disk, after[c]) {
        if c != id {
          assert RecordLinked(d, before[c]);
        }
      }
    }
  }

  /** What a transition must carry for the links to survive it. */
  ghost predicate CarriesLinks(d: Disk, id: string, to: CommandState, detail: Detail) {
    && (to == Dispatched <==> detail.generation.Some?)
    && (detail.generation.Some? ==> detail.generation.value in B.AcquiredIn(d.bindings))
    && (to == Verified || to == Failed ==> detail.receipt.Some?)
    && (detail.receipt.Some? ==>
          && id in Latest(d.evidence)
          && to == Target(Latest(d.evidence)[id].classification)
          && detail.receipt.value == Latest(d.evidence)[id].reference)
  }

  lemma AcceptedTransitionKeeps(d: Disk, id: string, to: CommandState, detail: Detail, d': Disk)
    requires CommandsConsistent(d) && CarriesLinks(d, id, to, detail)
    requires id in Replay(d.commands).value && Allowed(Replay(d.commands).value[id].state, to)
    requires d' == d.(commands := d'.commands)
    requires Replay(d'.commands) ==
             Success(Replay(d.commands).value[id := Advance(Replay(d.commands).value[id], to, detail)])
    ensures CommandsConsistent(d')
  {
    var before, after := Replay(d.commands).value, Replay(d'.commands).value;
    forall ev | ev in d'.evidence ensures EvidenceLinked(after, ev) {
      assert EvidenceLinked(before, ev);
    }
    forall c | c in after ensures after[c].id == c && RecordLinked(d', after[c]) {
      assert RecordLinked(d, before[c]);
    }
  }

  lemma TransitionKeeps(d: Disk, id: string, to: CommandState, detail: Detail)
    requires CommandsConsistent(d) && CarriesLinks(d, id, to, detail)
    ensures CommandsConsistent(Transition(d, id, to, detail).disk)
  {
    if Accepts(d, id, to) {
      TransitionAppends(d, id, to, detail);
      AcceptedTransitionKeeps(d, id, to, detail, Transition(d, id, to, detail).disk);
    } else {
      TransitionRefuses(d, id, to, detail);
    }
  }

  lemma ActiveIsAcquired(log: seq<B.BindingEvent>)
    requires B.Active(log).Success? && B.Active(log).value.Some?
    ensures B.Active(log).value.value.generation in B.AcquiredIn(log)
  {
    B.ReplayMeaning(log);
    var bindings := B.Replay(log).value;
    var b := B.Unreleased(bindings)[0];
    assert b in bindings;
    var i :| 0 <= i < |bindings| && bindings[i] == b;
    assert B.Find(bindings, b.generation).Some?;
  }

  /** Evidence about a dispatched command, attached under its own generation. */
  lemma EvidenceKeeps(d: Disk, ev: Evidence)
    requires CommandsConsistent(d)
    requires EvidenceLinked(Replay(d.commands).value, ev)
    requires Replay(d.commands).value[ev.command].state == Dispatched
    ensures CommandsConsistent(d.(evidence := d.evidence + [ev]))
  {
    LatestAppend(d.evidence, ev);
    var records, d' := Replay(d.commands).value, d.(evidence := d.evidence + [ev]);
    forall id | id in records ensures RecordLinked(d', records[id]) {
      assert RecordLinked(d, records[id]);
    }
  }

  lemma AttachKeeps(d: Disk, id: string, reference: string, generation: string,
                    declared: Classification, file: ReceiptFile)
    requires CommandsConsistent(d)
    ensures CommandsConsistent(Attach(d, id, reference, generation, declared, file).disk)
    ensures CommandsConsistent(AttachInterrupted(d, id, reference, generation, declared, file))
  {
    var e := EvidenceToAttach(d, id, reference, generation, declared, file);
    if e.Success? {
      EvidenceKeeps(d, e.value);
      LatestAppend(d.evidence, e.value);
      var written := d.(evidence := d.evidence + [e.value]);
      TransitionKeeps(written, id, Target(declared), WithReceipt(reference));
    }
  }

  /** Settling any part of the records keeps the links. */
  lemma SettledInKeeps(d: Disk, d': Disk, todo: seq<CommandRecord>)
    requires CommandsConsistent(d)
    requires d' == d.(commands := d'.commands)
    requires Replay(d'.commands) == Success(SettledIn(Replay(d.commands).value, todo, Latest(d.evidence)))
    ensures CommandsConsistent(d')
  {
    var before, after := Replay(d.commands).value, Replay(d'.commands).value;
    forall id | id in after ensures after[id].id == id && RecordLinked(d', after[id]) {
      assert RecordLinked(d, before[id]);
    }
    forall ev | ev in d'.evidence ensures EvidenceLinked(after, ev) {
      assert EvidenceLinked(before, ev);
    }
  }

  lemma {:induction false} SettleAllReadOnly(d: Disk, todo: seq<CommandRecord>, latest: map<string, Evidence>)
    requires d.lifecycle != Active
    ensures SettleAll(d, todo, latest).disk == d
    decreases |todo|
  {
    if todo != [] {
      SettleAllReadOnly(d, todo[1..], latest);
    }
  }

  lemma SettleKeeps(d: Disk, todo: seq<CommandRecord>)
    requires CommandsConsistent(d) && RecoveryProblem(d).None? && Lists(Replay(d.commands).value, todo)
    ensures CommandsConsistent(SettleAll(d, todo, Latest(d.evidence)).disk)
  {
    if d.lifecycle != Active {
      SettleAllReadOnly(d, todo, Latest(d.evidence));
    } else {
      LegibleEvidenceIsClean(d.evidence);
      SettleAllRecords(d, todo, Latest(d.evidence));
      SettledInKeeps(d, SettleAll(d, todo, Latest(d.evidence)).disk, todo);
    }
  }

  lemma RecoverKeeps(d: Disk, upTo: nat)
    requires CommandsConsistent(d)
    ensures CommandsConsistent(Recover(d).disk)
    ensures CommandsConsistent(RecoverUpTo(d, upTo).disk)
  {
    if RecoveryProblem(d).None? {
      ListingLists(d.commands);
      ListsPrefix(Replay(d.commands).value, Listing(d.commands), upTo);
      SettleKeeps(d, Listing(d.commands));
      SettleKeeps(d, FirstOf(Listing(d.commands), upTo));
    }
  }

  /** Growing the bindings stream keeps the command side. */
  lemma BindingLineKeeps(d: Disk, e: B.BindingEvent)
    requires CommandsConsistent(d)
    ensures CommandsConsistent(d.(bindings := d.bindings + [e]))
  {
    B.AcquiredInAppend(d.bindings, e);
    var records, d' := Replay(d.commands).value, d.(bindings := d.bindings + [e]);
    forall id | id in records ensures RecordLinked(d', records[id]) {
      assert RecordLinked(d, records[id]);
    }
  }

  lemma AcquireKeeps(d: Disk, binding: B.Binding)
    requires Consistent(d)
    ensures Consistent(Acquire(d, binding).disk)
  {
    var r := Acquire(d, binding);
    if r.result.Success? {
      var e := B.Acquired(r.result.value);
      BindingLineKeeps(d, e);
      B.ReplayAppend(d.bindings, e);
      if B.Replay(r.disk.bindings).Success? {
        B.UnreleasedAppend(B.Replay(d.bindings).value, r.result.value);
      }
    }
  }

  lemma ReleaseReplays(d: Disk, generation: string, at: real)
    requires Release(d, generation, at).result.Success?
    ensures B.Replay(Release(d, generation, at).disk.bindings).Success?
    ensures |B.Unreleased(B.Replay(Release(d, generation, at).disk.bindings).value)| == 0
  {
    B.ReleasingTheActive(d.bindings, B.Active(d.bindings).value.value, at);
  }

  lemma ReleaseKeeps(d: Disk, generation: string, at: real)
    requires Consistent(d)
    ensures Consistent(Release(d, generation, at).disk)
  {
    var r := Release(d, generation, at);
    if r.result.Success? {
      ReleaseReplays(d, generation, at);
      BindingLineKeeps(d, B.Released(B.Active(d.bindings).value.value.id, generation, at));
    }
  }

  /** The header does not matter to the links. */
  lemma HeaderKeeps(d: Disk, d': Disk)
    requires Consistent(d) && d' == d.(lifecycle := d'.lifecycle, owner := d'.owner)
    ensures Consistent(d')
  {
    var records := Replay(d.commands).value;
    forall id | id in records ensures RecordLinked(d', records[id]) {
      assert RecordLinked(d, records[id]);
    }
  }

  lemma DispatchKeeps(d: Disk, id: string, generation: string)
    requires CommandsConsistent(d)
    ensures CommandsConsistent(Dispatch(d, id, generation).disk)
  {
    if B.Active(d.bindings).Success? && B.Active(d.bindings).value.Some? {
      ActiveIsAcquired(d.bindings);
      if B.Active(d.bindings).value.value.generation == generation {
        TransitionKeeps(d, id, Dispatched, UnderGeneration(generation));
      }
    }
  }

  lemma CommandCallKeeps(s: Sys, a: Action)
    requires Consistent(s.disk) && s.live
    requires a.ProposeCommand? || a.AuthorizeCommand? || a.CancelCommand? || a.MarkUnknown? || a.DispatchCommand?
    ensures Consistent(Perform(s, a).sys.disk)
  {
    var d := s.disk;
    match a {
      case ProposeCommand(id, planner, payload, authorization, at) =>
        ProposeKeeps(d, id, planner, payload, authorization, at);
      case AuthorizeCommand(id) => TransitionKeeps(d, id, Authorized, PLAIN);
      case CancelCommand(id) => TransitionKeeps(d, id, Cancelled, PLAIN);
      case MarkUnknown(id, reason) => TransitionKeeps(d, id, OutcomeUnknown, Because(reason));
      case DispatchCommand(id, generation) => DispatchKeeps(d, id, generation);
    }
  }

  lemma CallKeeps(s: Sys, a: Action)
    requires Consistent(s.disk) && s.live
    ensures Consistent(Perform(s, a).sys.disk)
  {
    var d := s.disk;
    match a {
      case ProposeCommand(_, _, _, _, _) => CommandCallKeeps(s, a);
      case AuthorizeCommand(_) => CommandCallKeeps(s, a);
      case CancelCommand(_) => CommandCallKeeps(s, a);
      case MarkUnknown(_, _) => CommandCallKeeps(s, a);
      case DispatchCommand(_, _) => CommandCallKeeps(s, a);
      case AcquireBinding(binding) => AcquireKeeps(d, binding);
      case ReleaseBinding(generation, at) => ReleaseKeeps(d, generation, at);
      case AttachReceipt(id, reference, generation, declared, file) =>
        AttachKeeps(d, id, reference, generation, declared, file);
      case DieInAttach(id, reference, generation, declared, file) =>
        AttachKeeps(d, id, reference, generation, declared, file);
      case FailInAttach(id, reference, generation, declared, file) =>
        AttachKeeps(d, id, reference, generation, declared, file);
      case RecoverCommands => RecoverKeeps(d, 0);
      case DieInRecover(upTo) => RecoverKeeps(d, upTo);
      case FailInRecover(upTo) => RecoverKeeps(d, upTo);
      case EndSession(status) => HeaderKeeps(d, d.(lifecycle := status));
      case _ =>
    }
  }

  lemma PerformKeeps(s: Sys, a: Action)
    requires Consistent(s.disk)
    ensures Consistent(Perform(s, a).sys.disk)
  {
    if s.live {
      CallKeeps(s, a);
    } else if a.Reopen? || a.DieInReopen? {
      var d := s.disk.(owner := a.owner);
      HeaderKeeps(s.disk, d);
      RecoverKeeps(d, if a.DieInReopen? then a.upTo else 0);
    }
  }

  /** Every reachable directory is consistent. */
  lemma {:induction false} RunKeeps(s: Sys, run: seq<Action>)
    requires Consistent(s.disk)
    ensures Consistent(After(s, run).disk)
  {
    if run != [] {
      RunKeeps(s, run[..|run| - 1]);
      PerformKeeps(After(s, run[..|run| - 1]), run[|run| - 1]);
    }
  }

  lemma EveryRunIsConsistent(id: string, run: seq<Action>)
    ensures Consistent(After(NewSession(id), run).disk)
  {
    RunKeeps(NewSession(id), run);
  }
}
