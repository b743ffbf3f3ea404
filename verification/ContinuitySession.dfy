/** The session object over its directory (dingdongditch/continuity.py: `ContinuitySession`).
    Every call is tied to the function of the directory that specifies it. */
module ContinuitySessions {
  import opened Wrappers
  import Js = JsonText
  import J = CommandJournal
  import B = BindingJournal
  import C = Continuity
  import Recovery
  import Runs = ContinuityRuns

  /** The durable directory with its owner lease. */
  class Directory {
    const session: string
    const schema: string
    var owner: string
    var commands: seq<J.CommandEvent>
    var bindings: seq<B.BindingEvent>
    var evidence: seq<C.Evidence>
    var lifecycle: C.Lifecycle
    var leased: bool

    ghost function State(): C.Disk
      reads this
    {
      C.Disk(session, schema, owner, commands, bindings, evidence, lifecycle)
    }

    constructor (session: string)
      ensures State() == Runs.NewSession(session).disk && !leased
    {
      this.session, schema, owner := session, C.SCHEMA_VERSION, Runs.FIRST_OWNER;
      commands, bindings, evidence := [], [], [];
      lifecycle, leased := C.Active, false;
    }
  }

  class ContinuitySession {
    const directory: Directory
    var lifecycle: C.Lifecycle
    var closed: bool

    ghost predicate Valid()
      reads this, directory
    {
      !closed ==> directory.leased && lifecycle == directory.lifecycle
    }

    /** What a call does: a closed owner refuses it and leaves the directory alone, and an open
        one does exactly what its specification says. */
    ghost predicate Answers<T>(before: C.Disk, result: Result<T, C.Error>, spec: C.Reply<T>)
      reads this, directory
    {
      if closed then directory.State() == before && result.Failure?
      else C.Reply(directory.State(), result) == spec
    }

    constructor (directory: Directory)
      requires directory.leased
      ensures Valid() && this.directory == directory && !closed
    {
      this.directory := directory;
      lifecycle, closed := directory.lifecycle, false;
    }

    static method Open(directory: Directory, owner: string, recover: bool)
      returns (session: ContinuitySession?, refused: Option<C.Error>)
      modifies directory
      ensures var step := Runs.Perform(Runs.Sys(old(directory.State()), old(directory.leased)), Runs.Reopen(owner, recover));
              Runs.Sys(directory.State(), directory.leased) == step.sys && refused == step.refused
      ensures refused.None? <==> session != null
      ensures session != null ==>
                fresh(session) && session.Valid() && !session.closed && session.directory == directory
    {
      if directory.leased {
        return null, Some(C.LeaseHeld);
      }
      if directory.schema != C.SCHEMA_VERSION {
        return null, Some(C.UnsupportedSchema);
      }
      if !C.IsIdentifier(owner) {
        return null, Some(C.InvalidArgument);
      }
      directory.leased := true;
      directory.owner := owner;
      var s := new ContinuitySession(directory);
      if recover {
        var recovered := s.RecoverInterruptedCommands();
        if recovered.Failure? {
          directory.leased := false;
          return null, Some(recovered.error);
        }
      }
      return s, None;
    }

    method Close()
      requires Valid()
      modifies this, directory
      ensures Valid() && closed
      ensures directory.State() == old(directory.State())
      ensures !old(closed) ==> !directory.leased
      ensures old(closed) ==> directory.leased == old(directory.leased)
    {
      if !closed {
        directory.leased := false;
        closed := true;
      }
    }

    method RequireWritable() returns (refused: Option<C.Error>)
      requires Valid()
      ensures refused == if closed then Some(C.OwnerClosed)
                         else if directory.lifecycle != C.Active then Some(C.ReadOnlySession)
                         else None
    {
      if closed {
        return Some(C.OwnerClosed);
      }
      if lifecycle != C.Active {
        return Some(C.ReadOnlySession);
      }
      return None;
    }

    method SetLifecycle(status: C.Lifecycle) returns (r: Result<(), C.Error>)
      requires Valid()
      modifies this`lifecycle, directory`lifecycle
      ensures Valid() && Answers(old(directory.State()), r, C.SetLifecycle(old(directory.State()), status))
    {
      var refused := RequireWritable();
      if refused.Some? {
        return Failure(refused.value);
      }
      if status == C.Active {
        return Failure(C.SessionAlreadyActive);
      }
      lifecycle := status;
      directory.lifecycle := status;
      return Success(());
    }

    method Commands() returns (r: Result<J.Records, C.Error>)
      ensures r == C.Commands(directory.State())
    {
      if !J.AllLegible(directory.commands) {
        return Failure(C.CorruptStream);
      }
      var replayed := J.ReplayLoop(directory.commands);
      match replayed
      case Success(records) => r := Success(records);
      case Failure(e) => r := Failure(C.CorruptCommands(e));
    }

    method ProposeCommand(id: string, planner: string, payload: string, authorization: string, at: real)
      returns (r: Result<J.CommandRecord, C.Error>)
      requires Valid()
      modifies directory`commands
      ensures Valid()
      ensures Answers(old(directory.State()), r,
                      C.Propose(old(directory.State()), id, planner, payload, authorization, at))
    {
      if !C.IsIdentifier(id) {
        return Failure(C.InvalidArgument);
      }
      var replayed := Commands();
      if replayed.Failure? {
        return Failure(replayed.error);
      }
      if id in replayed.value {
        return Failure(C.CommandExists);
      }
      if !C.IsIdentifier(planner) || payload == "" || authorization == "" {
        return Failure(C.InvalidArgument);
      }
      var record := J.CommandRecord(id, directory.session, planner, payload, authorization, at, J.Proposed, None, None);
      var refused := RequireWritable();
      if refused.Some? {
        return Failure(refused.value);
      }
      directory.commands := directory.commands + [J.Created(record)];
      return Success(record);
    }

    method Transition(id: string, to: J.CommandState, detail: J.Detail)
      returns (r: Result<J.CommandRecord, C.Error>)
      requires Valid()
      modifies directory`commands
      ensures Valid()
      ensures Answers(old(directory.State()), r, C.Transition(old(directory.State()), id, to, detail))
    {
      ghost var before := directory.State();
      var replayed := Commands();
      if replayed.Failure? {
        return Failure(replayed.error);
      }
      var commands := replayed.value;
      if id !in commands {
        return Failure(C.UnknownCommand);
      }
      if !J.Allowed(commands[id].state, to) {
        return Failure(C.InvalidTransition);
      }
      var refused := RequireWritable();
      if refused.Some? {
        return Failure(refused.value);
      }
      Recovery.TransitionAppends(before, id, to, detail);
      directory.commands := directory.commands + [J.Changed(id, commands[id].state, to, detail)];
      var reread := Commands();
      if reread.Failure? {
        return Failure(reread.error);
      }
      return Success(reread.value[id]);
    }

    method AuthorizeCommand(id: string) returns (r: Result<J.CommandRecord, C.Error>)
      requires Valid()
      modifies directory`commands
      ensures Valid()
      ensures Answers(old(directory.State()), r, C.Transition(old(directory.State()), id, J.Authorized, J.PLAIN))
    {
      r := Transition(id, J.Authorized, J.PLAIN);
    }

    method CancelCommand(id: string) returns (r: Result<J.CommandRecord, C.Error>)
      requires Valid()
      modifies directory`commands
      ensures Valid()
      ensures Answers(old(directory.State()), r, C.Transition(old(directory.State()), id, J.Cancelled, J.PLAIN))
    {
      r := Transition(id, J.Cancelled, J.PLAIN);
    }

    method DispatchCommand(id: string, generation: string) returns (r: Result<J.CommandRecord, C.Error>)
      requires Valid()
      modifies directory`commands
      ensures Valid()
      ensures Answers(old(directory.State()), r, C.Dispatch(old(directory.State()), id, generation))
    {
      var active := ActiveBinding();
      if active.Failure? {
        return Failure(active.error);
      }
      if active.value.None? || active.value.value.generation != generation {
        return Failure(C.GenerationNotActive);
      }
      r := Transition(id, J.Dispatched, J.UnderGeneration(generation));
    }

    method MarkOutcomeUnknown(id: string, reason: string) returns (r: Result<J.CommandRecord, C.Error>)
      requires Valid()
      modifies directory`commands
      ensures Valid()
      ensures Answers(old(directory.State()), r, C.MarkOutcomeUnknown(old(directory.State()), id, reason))
    {
      if reason == "" {
        return Failure(C.InvalidArgument);
      }
      r := Transition(id, J.OutcomeUnknown, J.Because(reason));
    }

    method ActiveBinding() returns (r: Result<Option<B.Binding>, C.Error>)
      ensures r == C.ActiveBinding(directory.State())
    {
      if !B.AllLegible(directory.bindings) {
        return Failure(C.CorruptStream);
      }
      var replayed := B.ReplayLoop(directory.bindings);
      if replayed.Failure? {
        return Failure(C.CorruptBindings(replayed.error));
      }
      var active := B.Unreleased(replayed.value);
      if |active| > 1 {
        return Failure(C.CorruptBindings(B.MultipleActive));
      }
      return Success(if |active| == 1 then Some(active[0]) else None);
    }

    method AcquireBrowserBinding(binding: B.Binding) returns (r: Result<B.Binding, C.Error>)
      requires Valid()
      modifies directory`bindings
      ensures Valid()
      ensures Answers(old(directory.State()), r, C.Acquire(old(directory.State()), binding))
    {
      var active := ActiveBinding();
      if active.Failure? {
        return Failure(active.error);
      }
      if active.value.Some? {
        return Failure(C.BindingAlreadyActive);
      }
      if !(C.IsIdentifier(binding.id) && C.IsIdentifier(binding.generation) && C.IsIdentifier(binding.backend)
           && C.IsIdentifier(binding.sessionIdentity) && C.IsIdentifier(binding.leaseOwner))
      {
        return Failure(C.InvalidArgument);
      }
      if binding.profile == "" || C.ContainsForbiddenKey(binding.capabilities) {
        return Failure(C.InvalidArgument);
      }
      var held := binding.(releasedAt := None);
      var refused := RequireWritable();
      if refused.Some? {
        return Failure(refused.value);
      }
      directory.bindings := directory.bindings + [B.Acquired(held)];
      return Success(held);
    }

    method ReleaseBrowserBinding(generation: string, at: real) returns (r: Result<B.Binding, C.Error>)
      requires Valid()
      modifies directory`bindings
      ensures Valid()
      ensures Answers(old(directory.State()), r, C.Release(old(directory.State()), generation, at))
    {
      var active := ActiveBinding();
      if active.Failure? {
        return Failure(active.error);
      }
      if active.value.None? || active.value.value.generation != generation {
        return Failure(C.GenerationNotActive);
      }
      var binding := active.value.value;
      var refused := RequireWritable();
      if refused.Some? {
        return Failure(refused.value);
      }
      directory.bindings := directory.bindings + [B.Released(binding.id, binding.generation, at)];
      return Success(binding.(releasedAt := Some(at)));
    }

    /** The two loops over results: those of the steps are added to the receipt's own, and the
        passed ones become facts. */
    static method CollectFacts(receipt: C.Receipt) returns (facts: seq<Js.Json>)
      ensures facts == C.VerifiedFacts(receipt)
    {
      var results := receipt.results;
      for i := 0 to |receipt.steps|
        invariant results == C.AllResults(receipt.results, receipt.steps[..i])
      {
        assert receipt.steps[..i + 1][..i] == receipt.steps[..i];
        results := results + receipt.steps[i];
      }
      assert receipt.steps[..|receipt.steps|] == receipt.steps;
      facts := [];
      for i := 0 to |results|
        invariant facts == C.FactsOf(results[..i])
      {
        assert results[..i + 1][..i] == results[..i];
        if results[i].passed {
          facts := facts + [C.Fact(results[i])];
        }
      }
      assert results[..|results|] == results;
    }

    method AttachReceipt(id: string, reference: string, generation: string,
                         declared: C.Classification, file: C.ReceiptFile)
      returns (r: Result<J.CommandRecord, C.Error>)
      requires Valid()
      modifies directory`evidence, directory`commands
      ensures Valid()
      ensures Answers(old(directory.State()), r,
                      C.Attach(old(directory.State()), id, reference, generation, declared, file))
    {
      var replayed := Commands();
      if replayed.Failure? {
        return Failure(replayed.error);
      }
      if id !in replayed.value || replayed.value[id].state != J.Dispatched {
        return Failure(C.NotDispatched);
      }
      if replayed.value[id].generation != Some(generation) {
        return Failure(C.GenerationMismatch);
      }
      if file.Unreadable? {
        return Failure(C.ReceiptUnavailable);
      }
      if !file.receipt.schema.Text? || file.receipt.schema.text == "" {
        return Failure(C.ReceiptWithoutSchema);
      }
      var facts := CollectFacts(file.receipt);
      var verdict := C.Classify(file.receipt);
      if verdict.Failure? {
        return Failure(C.UnrecognisedReceipt);
      }
      if declared != verdict.value {
        return Failure(C.ContradictsReceipt);
      }
      var refused := RequireWritable();
      if refused.Some? {
        return Failure(refused.value);
      }
      directory.evidence := directory.evidence +
        [C.Evidence(id, reference, file.receipt.schema.text, file.receipt.digest, generation, declared, facts)];
      r := Transition(id, C.Target(declared), J.WithReceipt(reference));
    }

    method SettleCommand(id: string, latest: map<string, C.Evidence>) returns (r: Result<J.CommandRecord, C.Error>)
      requires Valid()
      modifies directory`commands
      ensures Valid()
      ensures Answers(old(directory.State()), r, C.SettleOne(old(directory.State()), id, latest))
    {
      if id in latest {
        r := Transition(id, C.Target(latest[id].classification), C.FromEvidence(latest[id]));
      } else {
        r := MarkOutcomeUnknown(id, C.RESTART);
      }
    }

    /** The loop over the listed records. */
    method SettleListed(todo: seq<J.CommandRecord>, latest: map<string, C.Evidence>)
      returns (r: Result<seq<string>, C.Error>)
      requires Valid()
      modifies directory`commands
      ensures Valid()
      ensures if closed then
                && directory.State() == old(directory.State())
                && (r.Success? <==> forall k :: 0 <= k < |todo| ==> todo[k].state != J.Dispatched)
                && (r.Success? ==> r.value == [])
              else C.Reply(directory.State(), r) == C.SettleAll(old(directory.State()), todo, latest)
    {
      var recovered: seq<string> := [];
      ghost var spec := C.SettleAll(directory.State(), todo, latest);
      PreparedNothing(spec);
      assert todo[0..] == todo;
      for i := 0 to |todo|
        invariant if closed then
                    && directory.State() == old(directory.State()) && recovered == []
                    && forall k :: 0 <= k < i ==> todo[k].state != J.Dispatched
                  else spec == Prepared(recovered, C.SettleAll(directory.State(), todo[i..], latest))
      {
        assert todo[i..][0] == todo[i] && todo[i..][1..] == todo[i + 1..];
        if todo[i].state == J.Dispatched {
          var settled := SettleCommand(todo[i].id, latest);
          if settled.Failure? {
            return Failure(settled.error);
          }
          PreparedOneMore(recovered, todo[i].id, C.SettleAll(directory.State(), todo[i + 1..], latest));
          recovered := recovered + [todo[i].id];
        }
      }
      assert recovered + [] == recovered;
      return Success(recovered);
    }

    method RecoverInterruptedCommands() returns (r: Result<seq<string>, C.Error>)
      requires Valid()
      modifies directory`commands
      ensures Valid()
      ensures !closed ==> Answers(old(directory.State()), r, C.Recover(old(directory.State())))
      ensures closed ==>
                && directory.State() == old(directory.State())
                && (r.Success? <==>
                      C.RecoveryProblem(directory.State()).None? && !Recovery.SomeDispatched(directory.State()))
                && (r.Success? ==> r.value == [])
    {
      if !C.AllEvidenceLegible(directory.evidence) {
        return Failure(C.CorruptStream);
      }
      var latest := C.Latest(directory.evidence);
      var replayed := Commands();
      if replayed.Failure? {
        return Failure(replayed.error);
      }
      Recovery.ListingLists(directory.commands);
      r := SettleListed(C.Listing(directory.commands), latest);
    }
  }

  /** The reply of a recovery that has already recovered some commands. */
  function Prepared(recovered: seq<string>, rest: C.Reply<seq<string>>): C.Reply<seq<string>> {
    match rest.result
    case Failure(e) => C.Reply(rest.disk, Failure(e))
    case Success(ids) => C.Reply(rest.disk, Success(recovered + ids))
  }

  lemma PreparedNothing(rest: C.Reply<seq<string>>)
    ensures Prepared([], rest) == rest
  {
    assert rest.result.Success? ==> [] + rest.result.value == rest.result.value;
  }

  lemma PreparedOneMore(recovered: seq<string>, id: string, rest: C.Reply<seq<string>>)
    ensures Prepared(recovered, Prepared([id], rest)) == Prepared(recovered + [id], rest)
  {
    assert rest.result.Success? ==>
             recovered + ([id] + rest.result.value) == (recovered + [id]) + rest.result.value;
  }
}
