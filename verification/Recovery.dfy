/** What `recover_interrupted_commands` does to a journal (dingdongditch/continuity.py). */
module Recovery {
  import opened Wrappers
  import opened LineStreams
  import opened CommandJournal
  import opened Continuity

  /** The record a command ends up with when it is settled from the evidence. */
  function Settled(r: CommandRecord, latest: map<string, Evidence>): CommandRecord {
    if r.state != Dispatched then r
    else if r.id in latest then
      Advance(r, Target(latest[r.id].classification), FromEvidence(latest[r.id]))
    else Advance(r, OutcomeUnknown, Because(RESTART))
  }

  function SettledRecords(records: Records, latest: map<string, Evidence>): Records {
    map id | id in records :: Settled(records[id], latest)
  }

  /** `todo` lists, without repetition, records of the dictionary under their own ids. */
  ghost predicate Lists(records: Records, todo: seq<CommandRecord>) {
    && (forall i :: 0 <= i < |todo| ==> todo[i].id in records && records[todo[i].id] == todo[i])
    && (forall i, j :: 0 <= i < j < |todo| ==> todo[i].id != todo[j].id)
    && (forall id :: id in records ==> records[id].id == id)
  }

  /** The commands can be read, this one exists and may make this change. */
  ghost predicate Accepts(d: Disk, id: string, to: CommandState) {
    && Commands(d).Success? && d.lifecycle == Active
    && id in Replay(d.commands).value && Allowed(Replay(d.commands).value[id].state, to)
  }

  /** An accepted transition is written and replays; it is reported as a success, and leaves a
      journal that can be read, exactly when what it says is clean. */
  lemma TransitionAppends(d: Disk, id: string, to: CommandState, detail: Detail)
    requires Accepts(d, id, to)
    ensures var records := Replay(d.commands).value;
            var r := Transition(d, id, to, detail);
            && r.disk.commands == d.commands + [Changed(id, records[id].state, to, detail)]
            && Replay(r.disk.commands) == Success(records[id := Advance(records[id], to, detail)])
            && (AllLegible(r.disk.commands) <==> CleanDetail(detail))
            && r.result == if CleanDetail(detail) then Success(Advance(records[id], to, detail)) else Failure(CorruptStream)
  {
    var records := Replay(d.commands).value;
    var line := Changed(id, records[id].state, to, detail);
    NamesAreClean(d.commands);
    AllLegibleAppend(d.commands, line);
    ReplayAppend(d.commands, line);
  }

  lemma TransitionRefuses(d: Disk, id: string, to: CommandState, detail: Detail)
    requires !Accepts(d, id, to)
    ensures Transition(d, id, to, detail).disk == d && Transition(d, id, to, detail).result.Failure?
  {
  }

  /** Everything that recovery could write from this evidence is clean. */
  ghost predicate CleanReferences(latest: map<string, Evidence>) {
    forall id :: id in latest ==> Clean(latest[id].reference)
  }

  lemma LegibleEvidenceIsClean(evidence: seq<Evidence>)
    requires AllEvidenceLegible(evidence)
    ensures CleanReferences(Latest(evidence))
  {
    forall id | id in Latest(evidence) ensures Clean(Latest(evidence)[id].reference) {
      var ev := Latest(evidence)[id];
      var i :| 0 <= i < |evidence| && evidence[i] == ev;
      assert LegibleEvidence(evidence[i]);
    }
  }

  /** Settling only the listed records. */
  function SettledIn(records: Records, todo: seq<CommandRecord>, latest: map<string, Evidence>): Records {
    map id | id in records :: if records[id] in todo then Settled(records[id], latest) else records[id]
  }

  lemma RestartIsClean()
    ensures Clean(RESTART)
  {
  }

  lemma SettleOneRecords(d: Disk, r: CommandRecord, latest: map<string, Evidence>)
    requires Commands(d).Success? && d.lifecycle == Active && CleanReferences(latest)
    requires r.id in Replay(d.commands).value && Replay(d.commands).value[r.id] == r && r.state == Dispatched
    ensures var settled := SettleOne(d, r.id, latest);
            && settled.result.Success? && Commands(settled.disk).Success?
            && Replay(settled.disk.commands) == Success(Replay(d.commands).value[r.id := Settled(r, latest)])
  {
    RestartIsClean();
    if r.id in latest {
      TransitionAppends(d, r.id, Target(latest[r.id].classification), FromEvidence(latest[r.id]));
    } else {
      TransitionAppends(d, r.id, OutcomeUnknown, Because(RESTART));
    }
  }

  lemma ListsRest(records: Records, todo: seq<CommandRecord>, r: CommandRecord)
    requires Lists(records, todo) && todo != [] && r.id == todo[0].id
    ensures Lists(records[r.id := r], todo[1..])
  {
    var rest := todo[1..];
    assert forall k :: 0 <= k < |rest| ==> rest[k] == todo[k + 1];
    assert forall k :: 0 <= k < |rest| ==> todo[0].id != rest[k].id;
  }

  /** Settling a list is settling its head and then the rest. */
  lemma SettledInHead(records: Records, todo: seq<CommandRecord>, latest: map<string, Evidence>)
    requires Lists(records, todo) && todo != []
    ensures SettledIn(records, todo, latest)
         == SettledIn(records[todo[0].id := Settled(todo[0], latest)], todo[1..], latest)
  {
    var head, rest := todo[0], todo[1..];
    var after := records[head.id := Settled(head, latest)];
    assert todo == [head] + rest;
    assert head !in rest by {
      assert forall k :: 0 <= k < |rest| ==> rest[k] == todo[k + 1] && rest[k].id != head.id;
    }
    var left, right := SettledIn(records, todo, latest), SettledIn(after, rest, latest);
    forall id | id in records ensures left[id] == right[id] {
      if id == head.id {
        assert Settled(after[id], latest) == after[id];
      } else {
        assert records[id] != head;
      }
    }
  }

  lemma {:induction false} SettleAllRecords(d: Disk, todo: seq<CommandRecord>, latest: map<string, Evidence>)
    requires Commands(d).Success? && d.lifecycle == Active && CleanReferences(latest)
    requires Lists(Replay(d.commands).value, todo)
    ensures SettleAll(d, todo, latest).result.Success? && Commands(SettleAll(d, todo, latest).disk).Success?
    ensures Replay(SettleAll(d, todo, latest).disk.commands)
         == Success(SettledIn(Replay(d.commands).value, todo, latest))
    decreases |todo|
  {
    var records := Replay(d.commands).value;
    if todo == [] {
      assert records == SettledIn(records, todo, latest);
    } else {
      SettledInHead(records, todo, latest);
      ListsRest(records, todo, Settled(todo[0], latest));
      if todo[0].state != Dispatched {
        assert records[todo[0].id := Settled(todo[0], latest)] == records;
        SettleAllRecords(d, todo[1..], latest);
      } else {
        SettleOneRecords(d, todo[0], latest);
        SettleAllRecords(SettleOne(d, todo[0].id, latest).disk, todo[1..], latest);
      }
    }
  }

  lemma ListingLists(log: seq<CommandEvent>)
    requires Replay(log).Success?
    ensures Lists(Replay(log).value, Listing(log))
    ensures forall id :: id in Replay(log).value ==> Replay(log).value[id] in Listing(log)
  {
    CreationOrderListsRecords(log);
    var order, todo, records := CreationOrder(log), Listing(log), Replay(log).value;
    forall id | id in records ensures records[id] in todo {
      assert id in order;
      var i :| 0 <= i < |order| && order[i] == id;
      assert todo[i] == records[id];
    }
  }

  /** The streams that recovery reads can be read, and the session can be written. */
  ghost predicate Recoverable(d: Disk) {
    RecoveryProblem(d).None? && d.lifecycle == Active
  }

  /** Recovery settles every dispatched command from its newest evidence, touches nothing
      else, and writes only to the command stream, which stays readable. */
  lemma RecoverySettles(d: Disk)
    requires Recoverable(d)
    ensures Recover(d).result.Success?
    ensures Replay(Recover(d).disk.commands)
         == Success(SettledRecords(Replay(d.commands).value, Latest(d.evidence)))
    ensures Recover(d).disk == d.(commands := Recover(d).disk.commands) && Recoverable(Recover(d).disk)
  {
    ListingLists(d.commands);
    LegibleEvidenceIsClean(d.evidence);
    SettleAllRecords(d, Listing(d.commands), Latest(d.evidence));
    var records, latest := Replay(d.commands).value, Latest(d.evidence);
    assert SettledRecords(records, latest) == SettledIn(records, Listing(d.commands), latest);
  }

  /** Recovery in an active session leaves no command dispatched and changes no other record. */
  lemma RecoveryLeavesNothingDispatched(d: Disk)
    requires Recoverable(d)
    ensures var before, after := Replay(d.commands).value, Replay(Recover(d).disk.commands);
            && after.Success? && after.value.Keys == before.Keys
            && (forall id :: id in after.value ==> after.value[id].state != Dispatched)
            && (forall id :: id in before && before[id].state != Dispatched ==> after.value[id] == before[id])
  {
    RecoverySettles(d);
  }

  /** With nothing dispatched, recovery appends nothing and reports nothing, whatever the lifecycle. */
  lemma {:induction false} NothingToSettle(d: Disk, todo: seq<CommandRecord>, latest: map<string, Evidence>)
    requires forall i :: 0 <= i < |todo| ==> todo[i].state != Dispatched
    ensures SettleAll(d, todo, latest) == Reply(d, Success([]))
    decreases |todo|
  {
    if todo != [] {
      NothingToSettle(d, todo[1..], latest);
    }
  }

  ghost predicate SomeDispatched(d: Disk) {
    Replay(d.commands).Success? &&
    exists id :: id in Replay(d.commands).value && Replay(d.commands).value[id].state == Dispatched
  }

  lemma RecoveryIsNoOp(d: Disk)
    requires RecoveryProblem(d).None? && !SomeDispatched(d)
    ensures Recover(d) == Reply(d, Success([]))
  {
    ListingLists(d.commands);
    NothingToSettle(d, Listing(d.commands), Latest(d.evidence));
  }

  lemma RecoveryIsIdempotent(d: Disk)
    requires Recoverable(d)
    ensures Recover(Recover(d).disk) == Reply(Recover(d).disk, Success([]))
  {
    RecoverySettles(d);
    RecoveryIsNoOp(Recover(d).disk);
  }

  lemma {:induction false} ReadOnlyRecoveryFails(d: Disk, todo: seq<CommandRecord>, latest: map<string, Evidence>)
    requires Commands(d).Success? && d.lifecycle != Active
    requires Lists(Replay(d.commands).value, todo)
    requires exists i :: 0 <= i < |todo| && todo[i].state == Dispatched
    ensures SettleAll(d, todo, latest) == Reply(d, Failure(ReadOnlySession))
    decreases |todo|
  {
    var i :| 0 <= i < |todo| && todo[i].state == Dispatched;
    if todo[0].state != Dispatched {
      var rest := todo[1..];
      assert rest[i - 1] == todo[i];
      assert Lists(Replay(d.commands).value, rest) by {
        assert forall k :: 0 <= k < |rest| ==> rest[k] == todo[k + 1];
      }
      ReadOnlyRecoveryFails(d, rest, latest);
    }
  }

  /** Recovery succeeds exactly when the evidence and the commands can be read and the session
      is active or no command is dispatched; when it fails it has changed nothing. */
  lemma RecoverySucceedsIff(d: Disk)
    ensures Recover(d).result.Success? <==>
            && AllEvidenceLegible(d.evidence) && Commands(d).Success?
            && (d.lifecycle == Active || !SomeDispatched(d))
    ensures Recover(d).result.Failure? ==> Recover(d).disk == d
    ensures RecoveryProblem(d).None? && Recover(d).result.Failure? ==> Recover(d).result.error == ReadOnlySession
  {
    if RecoveryProblem(d).None? {
      if d.lifecycle == Active {
        RecoverySettles(d);
      } else if !SomeDispatched(d) {
        RecoveryIsNoOp(d);
      } else {
        ListingLists(d.commands);
        var records, todo := Replay(d.commands).value, Listing(d.commands);
        var id :| id in records && records[id].state == Dispatched;
        var i :| 0 <= i < |todo| && todo[i] == records[id];
        ReadOnlyRecoveryFails(d, todo, Latest(d.evidence));
      }
    }
  }

  lemma SettlingInTwoParts(records: Records, todo: seq<CommandRecord>, latest: map<string, Evidence>)
    ensures SettledRecords(SettledIn(records, todo, latest), latest) == SettledRecords(records, latest)
  {
  }

  lemma ListsPrefix(records: Records, todo: seq<CommandRecord>, n: nat)
    requires Lists(records, todo)
    ensures Lists(records, FirstOf(todo, n))
  {
  }

  /** Recovery that is itself cut off, at any point, and then run again ends with the
      records that one uninterrupted recovery gives. */
  lemma RecoverySurvivesItsOwnInterruption(d: Disk, upTo: nat)
    requires Recoverable(d)
    ensures Recoverable(RecoverUpTo(d, upTo).disk)
    ensures Replay(Recover(RecoverUpTo(d, upTo).disk).disk.commands) == Replay(Recover(d).disk.commands)
  {
    ListingLists(d.commands);
    LegibleEvidenceIsClean(d.evidence);
    var records, all, latest := Replay(d.commands).value, Listing(d.commands), Latest(d.evidence);
    ListsPrefix(records, all, upTo);
    SettleAllRecords(d, FirstOf(all, upTo), latest);
    RecoverySettles(RecoverUpTo(d, upTo).disk);
    RecoverySettles(d);
    SettlingInTwoParts(records, FirstOf(all, upTo), latest);
  }

  lemma AttachIsAccepted(d: Disk, id: string, reference: string, generation: string,
                         declared: Classification, file: ReceiptFile)
    requires EvidenceToAttach(d, id, reference, generation, declared, file).Success?
    ensures Accepts(d, id, Target(declared))
    ensures Replay(d.commands).value[id].id == id && Replay(d.commands).value[id].state == Dispatched
  {
    CreationOrderListsRecords(d.commands);
  }

  /** Attaching never stops between its two appends of its own accord: once the evidence line
      is written, the transition is written too. It is reported as a success exactly when the
      reference is clean. */
  lemma AttachCompletes(d: Disk, id: string, reference: string, generation: string,
                        declared: Classification, file: ReceiptFile)
    requires EvidenceToAttach(d, id, reference, generation, declared, file).Success?
    ensures var r := Attach(d, id, reference, generation, declared, file);
            var records := Replay(d.commands).value;
            && Commands(d).Success? && id in records
            && Replay(r.disk.commands) ==
               Success(records[id := Advance(records[id], Target(declared), WithReceipt(reference))])
            && r.disk == AttachInterrupted(d, id, reference, generation, declared, file).(commands := r.disk.commands)
            && (AllLegible(r.disk.commands) <==> Clean(reference))
            && r.result == if Clean(reference) then Success(Advance(records[id], Target(declared), WithReceipt(reference)))
                           else Failure(CorruptStream)
  {
    AttachIsAccepted(d, id, reference, generation, declared, file);
    TransitionAppends(AttachInterrupted(d, id, reference, generation, declared, file), id, Target(declared),
                      WithReceipt(reference));
  }

  lemma SettlingAnAttachedCommand(records: Records, id: string, latest: map<string, Evidence>)
    requires id in records && records[id].id == id && records[id].state == Dispatched && id in latest
    ensures SettledRecords(records[id := Settled(records[id], latest)], latest) == SettledRecords(records, latest)
  {
  }

  /** Two directories with the same evidence whose records differ only in that one of them has
      already settled `id` recover to the same records. */
  lemma RecoveriesAgree(d: Disk, ahead: Disk, id: string)
    requires Recoverable(d) && Recoverable(ahead) && ahead == d.(commands := ahead.commands)
    requires id in Latest(d.evidence)
    requires id in Replay(d.commands).value && Replay(d.commands).value[id].state == Dispatched
    requires Replay(ahead.commands) ==
             Success(Replay(d.commands).value[id := Settled(Replay(d.commands).value[id], Latest(d.evidence))])
    ensures Recover(d).result.Success?
    ensures Replay(Recover(d).disk.commands).Success?
    ensures Replay(Recover(d).disk.commands) == Replay(Recover(ahead).disk.commands)
    ensures id in Replay(Recover(d).disk.commands).value
    ensures Replay(Recover(d).disk.commands).value[id] == Replay(ahead.commands).value[id]
  {
    CreationOrderListsRecords(d.commands);
    SettlingAnAttachedCommand(Replay(d.commands).value, id, Latest(d.evidence));
    RecoverySettles(d);
    RecoverySettles(ahead);
  }

  lemma LatestIsTheAttached(d: Disk, id: string, reference: string, generation: string,
                            declared: Classification, file: ReceiptFile)
    requires EvidenceToAttach(d, id, reference, generation, declared, file).Success?
    ensures var latest := Latest(AttachInterrupted(d, id, reference, generation, declared, file).evidence);
            id in latest && latest[id].classification == declared && latest[id].reference == reference
  {
    LatestAppend(d.evidence, EvidenceToAttach(d, id, reference, generation, declared, file).value);
  }

  lemma EvidenceLegibleAppend(evidence: seq<Evidence>, ev: Evidence)
    ensures AllEvidenceLegible(evidence + [ev]) <==> AllEvidenceLegible(evidence) && LegibleEvidence(ev)
  {
    var longer := evidence + [ev];
    assert longer[|evidence|] == ev;
    assert forall i :: 0 <= i < |evidence| ==> longer[i] == evidence[i];
  }

  /** After a crash between attach's two appends recovery succeeds exactly when the evidence,
      the new line included, can be read. It then gives every command the record that an
      uncrashed attach followed by the same recovery gives, and gives the attached command the
      very record the uncrashed attach returned. */
  lemma RecoveryClosesAttachWindow(d: Disk, id: string, reference: string, generation: string,
                                   declared: Classification, file: ReceiptFile)
    requires EvidenceToAttach(d, id, reference, generation, declared, file).Success?
    ensures var ev := EvidenceToAttach(d, id, reference, generation, declared, file).value;
            var crashed := Recover(AttachInterrupted(d, id, reference, generation, declared, file));
            var attached := Attach(d, id, reference, generation, declared, file);
            && (crashed.result.Success? <==> AllEvidenceLegible(d.evidence) && LegibleEvidence(ev))
            && (crashed.result.Success? ==>
                  && attached.result.Success?
                  && Replay(crashed.disk.commands).Success?
                  && Replay(crashed.disk.commands) == Replay(Recover(attached.disk).disk.commands)
                  && id in Replay(crashed.disk.commands).value
                  && Replay(crashed.disk.commands).value[id] == attached.result.value
                  && crashed.disk.evidence == attached.disk.evidence)
  {
    var ev := EvidenceToAttach(d, id, reference, generation, declared, file).value;
    var halfway := AttachInterrupted(d, id, reference, generation, declared, file);
    LatestIsTheAttached(d, id, reference, generation, declared, file);
    AttachIsAccepted(d, id, reference, generation, declared, file);
    AttachCompletes(d, id, reference, generation, declared, file);
    EvidenceLegibleAppend(d.evidence, ev);
    RecoverySucceedsIff(halfway);
    if AllEvidenceLegible(halfway.evidence) {
      RecoveriesAgree(halfway, Attach(d, id, reference, generation, declared, file).disk, id);
    }
  }
}
