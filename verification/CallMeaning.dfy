/** What each call of a continuity session accepts and writes, read off its arguments and the
    lines of the streams (dingdongditch/continuity.py). */
module CallMeaning {
  import opened Wrappers
  import opened LineStreams
  import opened CommandJournal
  import opened Continuity
  import opened Recovery
  import opened ContinuityRuns
  import opened ContinuityDecoding
  import Theorems = ContinuityTheorems
  import Js = JsonText
  import B = BindingJournal

  // ---------------------------------------------------------------------------
  // Verdicts of receipts

  lemma UnclassifiedIff(r: Receipt)
    ensures Classify(r).Failure? <==> forall c :: !Warrants(r, c)
  {
    if Classify(r).Success? {
      ClassifyIff(r, Classify(r).value);
    }
    ClassifyIff(r, ReceiptVerified);
    ClassifyIff(r, ReceiptFailed);
    ClassifyIff(r, ReceiptUnknown);
  }

  /** The command is dispatched under this generation in an active session that can be read, and
      the receipt can be read and has a schema. */
  ghost predicate CanTakeReceipt(d: Disk, id: string, generation: string, file: ReceiptFile) {
    && Commands(d).Success? && d.lifecycle == Active
    && LatestState(d.commands, id) == Some(Dispatched) && GenerationNamed(d.commands, id) == Some(generation)
    && file.Readable? && file.receipt.schema.Text? && file.receipt.schema.text != ""
  }

  /** Attaching is accepted exactly for a dispatched command, under its generation, with a
      receipt whose own verdict has the declared classification. It is refused as contradicting
      the receipt exactly when the verdict has another classification, and as unrecognised
      exactly when it has none. */
  lemma AttachIsAcceptedIff(d: Disk, id: string, reference: string, generation: string,
                            declared: Classification, file: ReceiptFile)
    ensures var e := EvidenceToAttach(d, id, reference, generation, declared, file);
            && (e.Success? <==> CanTakeReceipt(d, id, generation, file) && Warrants(file.receipt, declared))
            && (CanTakeReceipt(d, id, generation, file) ==>
                  && (e == Failure(ContradictsReceipt) <==>
                        !Warrants(file.receipt, declared) && exists c :: Warrants(file.receipt, c))
                  && (e == Failure(UnrecognisedReceipt) <==> forall c :: !Warrants(file.receipt, c)))
  {
    if Commands(d).Success? {
      RecordMeaning(d.commands, id);
    }
    if file.Readable? {
      ClassifyIff(file.receipt, declared);
      UnclassifiedIff(file.receipt);
    }
  }

  /** What attaching writes: the line of evidence, and a change to the state that the declared
      classification stands for. */
  lemma AttachWrites(d: Disk, id: string, reference: string, generation: string,
                     declared: Classification, file: ReceiptFile)
    requires EvidenceToAttach(d, id, reference, generation, declared, file).Success?
    ensures var d' := Attach(d, id, reference, generation, declared, file).disk;
            var to := match declared case ReceiptVerified => Verified case ReceiptFailed => Failed
                      case ReceiptUnknown => OutcomeUnknown;
            && file.Readable? && file.receipt.schema.Text?
            && d'.evidence == d.evidence + [Evidence(id, reference, file.receipt.schema.text, file.receipt.digest,
                                                     generation, declared, VerifiedFacts(file.receipt))]
            && d'.commands == d.commands + [Changed(id, Dispatched, to, Detail(Some(reference), None, None, false))]
            && d'.bindings == d.bindings && d'.lifecycle == d.lifecycle
  {
    AttachIsAccepted(d, id, reference, generation, declared, file);
    TransitionAppends(AttachInterrupted(d, id, reference, generation, declared, file), id, Target(declared),
                      WithReceipt(reference));
  }

  /** This step attached the receipt that a record names, under the record's generation, and the
      receipt's verdict has this classification. */
  ghost predicate Backs(a: Action, r: CommandRecord, c: Classification) {
    && (a.AttachReceipt? || a.DieInAttach? || a.FailInAttach?)
    && a.id == r.id && r.receipt == Some(a.reference) && r.generation == Some(a.generation)
    && a.file.Readable? && Warrants(a.file.receipt, c)
  }

  ghost predicate BackedIn(run: seq<Action>, r: CommandRecord, c: Classification) {
    exists i :: 0 <= i < |run| && Backs(run[i], r, c)
  }

  lemma ReceiptsBackRecords(session: string, run: seq<Action>, id: string, c: Classification)
    requires var records := Replay(After(NewSession(session), run).disk.commands);
             && records.Success? && id in records.value && records.value[id].receipt.Some?
             && records.value[id].state == Target(c)
    ensures BackedIn(run, Replay(After(NewSession(session), run).disk.commands).value[id], c)
  {
    EveryRunIsConsistent(session, run);
    var d := After(NewSession(session), run).disk;
    var r := Replay(d.commands).value[id];
    assert RecordLinked(d, r);
    var ev := Latest(d.evidence)[id];
    assert EvidenceLinked(Replay(d.commands).value, ev);
    Theorems.EvidenceComesFromReceipts(session, run, ev);
    var i :| 0 <= i < |run| && Theorems.Attests(run[i], ev);
    assert ev.classification == c;
    assert Backs(run[i], r, c);
  }

  /** In every run a verified command was attached a receipt whose verdict is VERIFIED, a failed
      one a receipt whose verdict is NOT_VERIFIED or EXECUTION_FAILED, and a command of unknown
      outcome that names a receipt one whose verdict is INDETERMINATE. */
  lemma OutcomesMatchVerdicts(session: string, run: seq<Action>, id: string)
    requires var records := Replay(After(NewSession(session), run).disk.commands);
             records.Success? && id in records.value
    ensures var r := Replay(After(NewSession(session), run).disk.commands).value[id];
            && (r.state == Verified ==> BackedIn(run, r, ReceiptVerified))
            && (r.state == Failed ==> BackedIn(run, r, ReceiptFailed))
            && (r.state == OutcomeUnknown && r.receipt.Some? ==> BackedIn(run, r, ReceiptUnknown))
  {
    EveryRunIsConsistent(session, run);
    var d := After(NewSession(session), run).disk;
    var r := Replay(d.commands).value[id];
    assert RecordLinked(d, r);
    if r.state == Verified {
      ReceiptsBackRecords(session, run, id, ReceiptVerified);
    } else if r.state == Failed {
      ReceiptsBackRecords(session, run, id, ReceiptFailed);
    } else if r.state == OutcomeUnknown && r.receipt.Some? {
      ReceiptsBackRecords(session, run, id, ReceiptUnknown);
    }
  }

  // ---------------------------------------------------------------------------
  // Facts

  /** What a fact says about the expectation it was made from. */
  ghost predicate IsFactOf(fact: Js.Json, e: Expectation) {
    && fact.Object?
    && ValueAt(fact.members, "fact_type") == Some(Js.Text("verified_expectation"))
    && ValueAt(fact.members, "expectation_id") == Some(e.id)
    && ValueAt(fact.members, "expectation_type") == Some(e.kind)
    && ValueAt(fact.members, "expected") == Some(e.expected)
    && ValueAt(fact.members, "observed") == Some(e.observed)
    && ValueAt(fact.members, "evidence_refs") == Some(Js.Array(e.references))
  }

  lemma FactSays(e: Expectation)
    ensures IsFactOf(Fact(e), e)
  {
    var m := Fact(e).members;
    assert m[1..][0] == m[1] && m[1..][1..] == m[2..] && m[2..][0] == m[2] && m[2..][1..] == m[3..];
    assert m[3..][0] == m[3] && m[3..][1..] == m[4..] && m[4..][0] == m[4] && m[4..][1..] == m[5..] && m[5..][0] == m[5];
    assert |"fact_type"| == 9 && |"expectation_id"| == 14 && |"expectation_type"| == 16 && |"expected"| == 8;
    assert |"observed"| == 8 && |"evidence_refs"| == 13 && "expected"[0] != "observed"[0];
    assert ValueAt(m[5..], "evidence_refs") == Some(m[5].value);
    assert ValueAt(m[4..], "evidence_refs") == ValueAt(m[5..], "evidence_refs");
    assert ValueAt(m[3..], "evidence_refs") == ValueAt(m[4..], "evidence_refs");
    assert ValueAt(m[2..], "evidence_refs") == ValueAt(m[3..], "evidence_refs");
    assert ValueAt(m[1..], "evidence_refs") == ValueAt(m[2..], "evidence_refs");
    assert ValueAt(m[3..], "observed") == ValueAt(m[4..], "observed");
    assert ValueAt(m[2..], "observed") == ValueAt(m[3..], "observed");
    assert ValueAt(m[1..], "observed") == ValueAt(m[2..], "observed");
    assert ValueAt(m[2..], "expected") == ValueAt(m[3..], "expected");
    assert ValueAt(m[1..], "expected") == ValueAt(m[2..], "expected");
    assert ValueAt(m[1..], "expectation_type") == ValueAt(m[2..], "expectation_type");
  }

  /** The facts are, in order, made from exactly the passed expectations. */
  ghost predicate AreFactsOf(facts: seq<Js.Json>, results: seq<Expectation>) {
    exists at: seq<nat> ::
      && Selects((e: Expectation) => e.passed, results, at)
      && |facts| == |at| && forall k :: 0 <= k < |at| ==> at[k] < |results| && IsFactOf(facts[k], results[at[k]])
  }

  lemma {:induction false} FactPositions(results: seq<Expectation>) returns (at: seq<nat>)
    ensures Selects((e: Expectation) => e.passed, results, at)
    ensures var facts := FactsOf(results);
            |facts| == |at| && forall k :: 0 <= k < |at| ==> at[k] < |results| && IsFactOf(facts[k], results[at[k]])
  {
    if results == [] {
      at := [];
    } else {
      var init, last := results[..|results| - 1], results[|results| - 1];
      var before := FactPositions(init);
      assert results == init + [last];
      SelectsAppend((e: Expectation) => e.passed, init, before, last);
      FactSays(last);
      at := if last.passed then before + [|init|] else before;
    }
  }

  /** The verified facts of a receipt are those of the passed expectations of the receipt itself
      and then of its steps. */
  lemma FactsAreThoseOfPassedExpectations(r: Receipt)
    ensures AreFactsOf(VerifiedFacts(r), AllResults(r.results, r.steps))
  {
    var at := FactPositions(AllResults(r.results, r.steps));
  }

  // ---------------------------------------------------------------------------
  // What is written

  /** The line that a call writes to the command stream when it writes one. */
  function LineOf(d: Disk, a: Action): Option<CommandEvent> {
    match a
    case ProposeCommand(id, planner, payload, authorization, at) =>
      Some(Created(CommandRecord(id, d.session, planner, payload, authorization, at, Proposed, None, None)))
    case AuthorizeCommand(id) => Some(Changed(id, Proposed, Authorized, Detail(None, None, None, false)))
    case DispatchCommand(id, generation) =>
      Some(Changed(id, Authorized, Dispatched, Detail(None, Some(generation), None, false)))
    case MarkUnknown(id, reason) => Some(Changed(id, Dispatched, OutcomeUnknown, Detail(None, None, Some(reason), false)))
    case _ => None
  }

  lemma TransitionWrites(d: Disk, id: string, to: CommandState, detail: Detail)
    ensures var d' := Transition(d, id, to, detail).disk;
            && (Accepts(d, id, to) ==>
                  d'.commands == d.commands + [Changed(id, Replay(d.commands).value[id].state, to, detail)])
            && (!Accepts(d, id, to) ==> d'.commands == d.commands)
  {
    if Accepts(d, id, to) {
      TransitionAppends(d, id, to, detail);
    } else {
      TransitionRefuses(d, id, to, detail);
    }
  }

  /** Each call writes its own line or none, and nothing to the other streams; cancelling is
      written from where the command was. */
  lemma CallsWriteTheirLines(s: Sys, a: Action)
    requires s.live && (LineOf(s.disk, a).Some? || a.CancelCommand?)
    ensures var d, d' := s.disk, Perform(s, a).sys.disk;
            && d'.bindings == d.bindings && d'.evidence == d.evidence && d'.lifecycle == d.lifecycle
            && (!a.CancelCommand? ==> d'.commands == d.commands || d'.commands == d.commands + [LineOf(d, a).value])
            && (a.CancelCommand? ==>
                  || d'.commands == d.commands
                  || d'.commands == d.commands + [Changed(a.id, Proposed, Cancelled, Detail(None, None, None, false))]
                  || d'.commands == d.commands + [Changed(a.id, Authorized, Cancelled, Detail(None, None, None, false))])
  {
    match a
    case AuthorizeCommand(id) => TransitionWrites(s.disk, id, Authorized, PLAIN);
    case DispatchCommand(id, generation) => TransitionWrites(s.disk, id, Dispatched, UnderGeneration(generation));
    case CancelCommand(id) => TransitionWrites(s.disk, id, Cancelled, PLAIN);
    case MarkUnknown(id, reason) => TransitionWrites(s.disk, id, OutcomeUnknown, Because(reason));
    case _ =>
  }

  /** What recovery writes about a dispatched command: the outcome and reference of its newest
      evidence, marked as recovered, or an unknown outcome with the reason. */
  lemma RecoveryWrites(d: Disk, id: string, latest: map<string, Evidence>)
    requires Accepts(d, id, OutcomeUnknown)
    ensures SettleOne(d, id, latest).disk.commands == d.commands +
            [if id in latest then
               Changed(id, Dispatched,
                       match latest[id].classification
                       case ReceiptVerified => Verified
                       case ReceiptFailed => Failed
                       case ReceiptUnknown => OutcomeUnknown,
                       Detail(Some(latest[id].reference), None, None, true))
             else Changed(id, Dispatched, OutcomeUnknown, Detail(None, None, Some("owner_restart_after_dispatch"), false))]
  {
    if id in latest {
      TransitionWrites(d, id, Target(latest[id].classification), FromEvidence(latest[id]));
    } else {
      TransitionWrites(d, id, OutcomeUnknown, Because(RESTART));
    }
  }

  /** The identifiers of the dispatched commands of a list, in its order. */
  function DispatchedIn(todo: seq<CommandRecord>): seq<string> {
    if todo == [] then []
    else (if todo[0].state == Dispatched then [todo[0].id] else []) + DispatchedIn(todo[1..])
  }

  lemma {:induction false} SettlingReports(d: Disk, todo: seq<CommandRecord>, latest: map<string, Evidence>)
    requires SettleAll(d, todo, latest).result.Success?
    ensures SettleAll(d, todo, latest).result.value == DispatchedIn(todo)
    decreases |todo|
  {
    if todo != [] {
      if todo[0].state != Dispatched {
        SettlingReports(d, todo[1..], latest);
        assert [] + DispatchedIn(todo[1..]) == DispatchedIn(todo[1..]);
      } else {
        SettlingReports(SettleOne(d, todo[0].id, latest).disk, todo[1..], latest);
      }
    }
  }

  /** Recovery reports exactly the commands that were dispatched, in the order of their creation. */
  lemma RecoveryReports(d: Disk)
    requires Recover(d).result.Success?
    ensures Recover(d).result.value == DispatchedIn(Listing(d.commands))
  {
    SettlingReports(d, Listing(d.commands), Latest(d.evidence));
  }

  /** A change of a command is written exactly when the journal can be read, the session is
      active, and the change is one of these seven. */
  lemma ChangeIsWrittenIff(d: Disk, id: string, to: CommandState, detail: Detail)
    ensures Transition(d, id, to, detail).disk.commands != d.commands <==>
            && Commands(d).Success? && d.lifecycle == Active
            && var from := LatestState(d.commands, id);
               || (from == Some(Proposed) && to == Authorized)
               || (from == Some(Proposed) && to == Cancelled)
               || (from == Some(Authorized) && to == Dispatched)
               || (from == Some(Authorized) && to == Cancelled)
               || (from == Some(Dispatched) && to == Verified)
               || (from == Some(Dispatched) && to == Failed)
               || (from == Some(Dispatched) && to == OutcomeUnknown)
  {
    TransitionWrites(d, id, to, detail);
    if Commands(d).Success? {
      RecordMeaning(d.commands, id);
    }
  }

  /** Every command of every run is created as proposed and lives one of these lives. */
  lemma CommandsLiveTheirLives(session: string, run: seq<Action>, id: string)
    ensures IsLife(History(After(NewSession(session), run).disk.commands, id))
  {
    EveryRunIsConsistent(session, run);
    CreationsAreProposals(NewSession(session), run);
    HistoriesAreLives(After(NewSession(session), run).disk.commands, id);
  }

  lemma {:induction false} SettlingCreatesNothing(d: Disk, todo: seq<CommandRecord>, latest: map<string, Evidence>)
    requires CreatesProposed(d.commands)
    ensures CreatesProposed(SettleAll(d, todo, latest).disk.commands)
    decreases |todo|
  {
    if todo != [] {
      if todo[0].state != Dispatched {
        SettlingCreatesNothing(d, todo[1..], latest);
      } else if SettleOne(d, todo[0].id, latest).result.Success? {
        SettlingCreatesNothing(SettleOne(d, todo[0].id, latest).disk, todo[1..], latest);
      }
    }
  }

  lemma RecoveryCreatesNothing(d: Disk, upTo: nat)
    requires CreatesProposed(d.commands)
    ensures CreatesProposed(Recover(d).disk.commands) && CreatesProposed(RecoverUpTo(d, upTo).disk.commands)
  {
    if RecoveryProblem(d).None? {
      SettlingCreatesNothing(d, Listing(d.commands), Latest(d.evidence));
      SettlingCreatesNothing(d, FirstOf(Listing(d.commands), upTo), Latest(d.evidence));
    }
  }

  lemma StepCreatesProposed(s: Sys, a: Action)
    requires CreatesProposed(s.disk.commands)
    ensures CreatesProposed(Perform(s, a).sys.disk.commands)
  {
    if a.Reopen? || a.DieInReopen? {
      RecoveryCreatesNothing(s.disk.(owner := a.owner), if a.DieInReopen? then a.upTo else 0);
    } else if a.DieInRecover? || a.FailInRecover? || a.RecoverCommands? {
      RecoveryCreatesNothing(s.disk, if a.RecoverCommands? then 0 else a.upTo);
    }
  }

  lemma {:induction false} CreationsAreProposals(s: Sys, run: seq<Action>)
    requires CreatesProposed(s.disk.commands)
    ensures CreatesProposed(After(s, run).disk.commands)
  {
    if run != [] {
      CreationsAreProposals(s, run[..|run| - 1]);
      StepCreatesProposed(After(s, run[..|run| - 1]), run[|run| - 1]);
    }
  }

  // ---------------------------------------------------------------------------
  // Bindings

  /** The keys of a value at every depth. */
  ghost function KeysIn(v: Js.Json): set<string> {
    match v
    case Object(members) =>
      (set i | 0 <= i < |members| :: members[i].key) +
      (set i, k | 0 <= i < |members| && k in KeysIn(members[i].value) :: k)
    case Array(items) => set i, k | 0 <= i < |items| && k in KeysIn(items[i]) :: k
    case _ => {}
  }

  /** The key is one of six words, in any case. */
  ghost predicate IsBrowserLocal(key: string) {
    || Lower(key) == "locator" || Lower(key) == "page" || Lower(key) == "page_reference"
    || Lower(key) == "dom_handle" || Lower(key) == "playwright" || Lower(key) == "freshness"
  }

  /** The inspection finds a browser-local key exactly when there is one at some depth. */
  lemma {:induction false} InspectionFindsIff(v: Js.Json)
    ensures ContainsForbiddenKey(v) <==> exists k :: k in KeysIn(v) && IsBrowserLocal(k)
    decreases v
  {
    match v {
      case Object(members) =>
        forall i | 0 <= i < |members|
          ensures ContainsForbiddenKey(members[i].value) <==>
                  exists k :: k in KeysIn(members[i].value) && IsBrowserLocal(k)
        {
          InspectionFindsIff(members[i].value);
        }
        if ContainsForbiddenKey(v) {
          var i :| 0 <= i < |members| && (IsForbiddenKey(members[i].key) || ContainsForbiddenKey(members[i].value));
          if IsForbiddenKey(members[i].key) {
            assert members[i].key in KeysIn(v) && IsBrowserLocal(members[i].key);
          } else {
            var k :| k in KeysIn(members[i].value) && IsBrowserLocal(k);
            assert k in KeysIn(v);
          }
        }
      case Array(items) =>
        forall i | 0 <= i < |items|
          ensures ContainsForbiddenKey(items[i]) <==> exists k :: k in KeysIn(items[i]) && IsBrowserLocal(k)
        {
          InspectionFindsIff(items[i]);
        }
        if ContainsForbiddenKey(v) {
          var i :| 0 <= i < |items| && ContainsForbiddenKey(items[i]);
          var k :| k in KeysIn(items[i]) && IsBrowserLocal(k);
          assert k in KeysIn(v);
        }
      case _ =>
    }
  }

  /** Acquiring is accepted exactly when the binding journal can be read and holds nothing, the
      session is active, the five names are identifiers, the profile reference is not empty, and
      no key of the snapshot is browser-local; it then writes the binding as held. */
  lemma AcquireIsAcceptedIff(d: Disk, binding: B.Binding)
    requires BindingsConsistent(d)
    ensures Acquire(d, binding).result.Success? <==>
            && Bindings(d).Success? && B.AcquiredIn(d.bindings) <= B.ReleasedIn(d.bindings) && d.lifecycle == Active
            && IsIdentifier(binding.id) && IsIdentifier(binding.generation) && IsIdentifier(binding.backend)
            && IsIdentifier(binding.sessionIdentity) && IsIdentifier(binding.leaseOwner) && binding.profile != ""
            && forall k :: k in KeysIn(binding.capabilities) ==> !IsBrowserLocal(k)
    ensures Acquire(d, binding).disk ==
            if Acquire(d, binding).result.Success? then
              d.(bindings := d.bindings + [B.Acquired(binding.(releasedAt := None))])
            else d
    ensures Acquire(d, binding).result.Success? ==> Acquire(d, binding).result.value == binding.(releasedAt := None)
  {
    InspectionFindsIff(binding.capabilities);
    if Bindings(d).Success? {
      NothingHeldIff(d);
    }
  }

  lemma NothingHeldIff(d: Disk)
    requires BindingsConsistent(d) && Bindings(d).Success?
    ensures ActiveBinding(d) == Success(None) <==> B.AcquiredIn(d.bindings) <= B.ReleasedIn(d.bindings)
    ensures ActiveBinding(d).Success?
  {
    forall g ensures g in B.AcquiredIn(d.bindings) - B.ReleasedIn(d.bindings) <==>
                     ActiveBinding(d).Success? && ActiveBinding(d).value.Some? && ActiveBinding(d).value.value.generation == g
    {
      Theorems.HeldIsActive(d, g);
    }
    if !(B.AcquiredIn(d.bindings) <= B.ReleasedIn(d.bindings)) {
      var g :| g in B.AcquiredIn(d.bindings) && g !in B.ReleasedIn(d.bindings);
      assert g in B.AcquiredIn(d.bindings) - B.ReleasedIn(d.bindings);
    }
    if ActiveBinding(d).value.Some? {
      assert ActiveBinding(d).value.value.generation in B.AcquiredIn(d.bindings) - B.ReleasedIn(d.bindings);
    }
  }

  /** Releasing is accepted exactly for the generation that is held in an active session whose
      binding journal can be read; it then writes a release of the held binding. */
  lemma ReleaseIsAcceptedIff(d: Disk, generation: string, at: real)
    requires BindingsConsistent(d)
    ensures Release(d, generation, at).result.Success? <==>
            && Bindings(d).Success? && d.lifecycle == Active
            && generation in B.AcquiredIn(d.bindings) - B.ReleasedIn(d.bindings)
    ensures Release(d, generation, at).result.Success? ==>
              && B.AcquisitionOf(d.bindings, generation).Some?
              && Release(d, generation, at).disk == d.(bindings := d.bindings +
                   [B.Released(B.AcquisitionOf(d.bindings, generation).value.id, generation, at)])
              && Release(d, generation, at).result.value ==
                 B.AcquisitionOf(d.bindings, generation).value.(releasedAt := Some(at))
  {
    if Bindings(d).Success? {
      Theorems.HeldIsActive(d, generation);
      B.BindingMeaning(d.bindings);
      NothingHeldIff(d);
      if Release(d, generation, at).result.Success? {
        var unreleased := B.Unreleased(B.Replay(d.bindings).value);
        assert unreleased[0] in B.Replay(d.bindings).value;
      }
    }
  }
}
