/** When a continuity session can be opened again (dingdongditch/continuity.py: `open` with
    recovery, `set_lifecycle` and `_require_writable`). */
module Reopening {
  import opened Wrappers
  import opened LineStreams
  import opened CommandJournal
  import opened Continuity
  import opened Recovery
  import opened ContinuityRuns
  import opened StreamReadability
  import Theorems = ContinuityTheorems
  import Agreement
  import Js = JsonText
  import T = ContinuityText
  import B = BindingJournal

  // ---------------------------------------------------------------------------
  // Finished sessions

  lemma RecoveryIsReadOnly(d: Disk, upTo: nat)
    requires d.lifecycle != Active
    ensures Recover(d).disk == d && RecoverUpTo(d, upTo).disk == d
  {
    if RecoveryProblem(d).None? {
      SettleAllReadOnly(d, Listing(d.commands), Latest(d.evidence));
      SettleAllReadOnly(d, FirstOf(Listing(d.commands), upTo), Latest(d.evidence));
    }
  }

  /** Nothing but the owner's generation differs. */
  ghost predicate SameButOwner(d: Disk, d': Disk) {
    d' == d.(owner := d'.owner)
  }

  lemma FinishedOpenStep(s: Sys, a: Action)
    requires s.disk.lifecycle != Active && s.live
    ensures Perform(s, a).sys.disk == s.disk
  {
    RecoveryIsReadOnly(s.disk, if a.DieInRecover? || a.FailInRecover? then a.upTo else 0);
  }

  lemma FinishedClosedStep(s: Sys, a: Action)
    requires s.disk.lifecycle != Active && !s.live
    ensures SameButOwner(s.disk, Perform(s, a).sys.disk)
  {
    if a.Reopen? || a.DieInReopen? {
      RecoveryIsReadOnly(s.disk.(owner := a.owner), if a.DieInReopen? then a.upTo else 0);
    }
  }

  lemma FinishedStep(s: Sys, a: Action)
    requires s.disk.lifecycle != Active
    ensures SameButOwner(s.disk, Perform(s, a).sys.disk)
    ensures a.EndSession? ==> Perform(s, a).refused.Some?
  {
    if s.live {
      FinishedOpenStep(s, a);
    } else {
      FinishedClosedStep(s, a);
    }
  }

  /** Once the lifecycle has left active, no run changes anything in the directory but the
      owner's generation. */
  lemma {:induction false} FinishedSessionsAreReadOnly(s: Sys, run: seq<Action>)
    requires s.disk.lifecycle != Active
    ensures SameButOwner(s.disk, After(s, run).disk)
  {
    if run != [] {
      FinishedSessionsAreReadOnly(s, run[..|run| - 1]);
      FinishedStep(After(s, run[..|run| - 1]), run[|run| - 1]);
    }
  }

  // ---------------------------------------------------------------------------
  // Sessions that nobody opens again

  /** The header is supported, the commands and the evidence can be read, and the session is
      active or has nothing dispatched. */
  ghost predicate Reopenable(d: Disk) {
    && d.schema == SCHEMA_VERSION
    && AllEvidenceLegible(d.evidence) && Commands(d).Success?
    && (d.lifecycle == Active || !SomeDispatched(d))
  }

  lemma ReopenableIgnoresOwner(d: Disk, owner: string)
    ensures Reopenable(d.(owner := owner)) <==> Reopenable(d)
  {
  }

  /** Reopening with recovery is accepted exactly for a reopenable session. */
  lemma ReopensIff(s: Sys, owner: string)
    requires !s.live && IsIdentifier(owner)
    ensures Perform(s, Reopen(owner, true)).refused.None? <==> Reopenable(s.disk)
    ensures Perform(s, Reopen(owner, true)).sys.live <==> Reopenable(s.disk)
    ensures Reopenable(s.disk) ==> Perform(s, Reopen(owner, true)).sys.disk.owner == owner
  {
    RecoverySucceedsIff(s.disk.(owner := owner));
    ReopenableIgnoresOwner(s.disk, owner);
  }

  lemma ClosedStep(s: Sys, a: Action)
    requires !s.live && !Reopenable(s.disk) && (a.Reopen? ==> a.recover)
    ensures !Perform(s, a).sys.live && SameButOwner(s.disk, Perform(s, a).sys.disk)
  {
    if (a.Reopen? || a.DieInReopen?) && TakeOver(s.disk, a.owner).Success? {
      var d := s.disk.(owner := a.owner);
      ReopenableIgnoresOwner(s.disk, a.owner);
      RecoverySucceedsIff(d);
      if RecoveryProblem(d).None? {
        RecoveryIsReadOnly(d, if a.DieInReopen? then a.upTo else 0);
      }
    }
  }

  /** A closed session that is not reopenable stays as it is in every run in which every
      reopening recovers: nobody opens it again. */
  lemma {:induction false} ClosedForGood(s: Sys, run: seq<Action>)
    requires !s.live && !Reopenable(s.disk) && Agreement.AlwaysRecovers(run)
    ensures !After(s, run).live && SameButOwner(s.disk, After(s, run).disk)
  {
    if run != [] {
      var shorter := run[..|run| - 1];
      assert forall i :: 0 <= i < |shorter| ==> shorter[i] == run[i];
      ClosedForGood(s, shorter);
      var t := After(s, shorter);
      ReopenableIgnoresOwner(s.disk, t.disk.owner);
      ClosedStep(t, run[|run| - 1]);
    }
  }

  /** Some recovering run opens a closed session again exactly when it is reopenable. */
  lemma OpensAgainIff(s: Sys)
    requires !s.live
    ensures (exists run :: Agreement.AlwaysRecovers(run) && After(s, run).live) <==> Reopenable(s.disk)
  {
    if !Reopenable(s.disk) {
      forall run | Agreement.AlwaysRecovers(run) ensures !After(s, run).live {
        ClosedForGood(s, run);
      }
    } else {
      ReopensIff(s, FIRST_OWNER);
      var run := [Reopen(FIRST_OWNER, true)];
      assert run[..0] == [] && After(s, run) == Perform(After(s, []), run[0]).sys;
      assert Agreement.AlwaysRecovers(run) && After(s, run).live;
    }
  }

  // ---------------------------------------------------------------------------
  // How a session gets there

  /** Only an accepted end of the session changes the lifecycle, and that is all it changes. */
  lemma OnlyEndingEnds(s: Sys, a: Action)
    ensures var step := Perform(s, a);
            if s.live && a.EndSession? && step.refused.None? then
              a.status != Active && step.sys == Sys(s.disk.(lifecycle := a.status), true)
            else step.sys.disk.lifecycle == s.disk.lifecycle
  {
  }

  /** The step does not end the session while a command is dispatched. */
  ghost predicate EndsInTime(s: Sys, a: Action) {
    !(a.EndSession? && Perform(s, a).refused.None? && SomeDispatched(s.disk))
  }

  ghost predicate Stuck(d: Disk) {
    d.lifecycle != Active && SomeDispatched(d)
  }

  lemma StuckStep(s: Sys, a: Action)
    ensures Stuck(Perform(s, a).sys.disk) <==> Stuck(s.disk) || !EndsInTime(s, a)
  {
    OnlyEndingEnds(s, a);
    if s.disk.lifecycle != Active {
      FinishedStep(s, a);
    } else if s.live && a.EndSession? && Perform(s, a).refused.None? {
      assert Perform(s, a).sys.disk.commands == s.disk.commands;
    }
  }

  lemma {:induction false} StuckIff(s: Sys, run: seq<Action>)
    requires !Stuck(s.disk)
    ensures Stuck(After(s, run).disk) <==> !Always(EndsInTime, s, run)
  {
    if run != [] {
      var shorter, a := run[..|run| - 1], run[|run| - 1];
      assert run == shorter + [a];
      StuckIff(s, shorter);
      StuckStep(After(s, shorter), a);
      AlwaysAppend(EndsInTime, s, shorter, a);
    }
  }

  /** After every run that leaves the session closed, reopening it with recovery is accepted if
      and only if the session was not ended while a command was dispatched and every text
      written to the command and evidence streams is clean. */
  lemma ReopeningIsAcceptedIff(session: string, run: seq<Action>, owner: string)
    requires IsIdentifier(session) && IsIdentifier(owner) && !After(NewSession(session), run).live
    ensures Perform(After(NewSession(session), run), Reopen(owner, true)).refused.None? <==>
            && Always(EndsInTime, NewSession(session), run)
            && CleanCommandRun(NewSession(session), run) && CleanEvidenceRun(NewSession(session), run)
  {
    var start := NewSession(session);
    StuckIff(start, run);
    CommandsReadableIff(session, run);
    EvidenceReadableIff(start, run);
    SessionIsKept(start, run);
    ReopensIff(After(start, run), owner);
  }

  // ---------------------------------------------------------------------------
  // Runs that lock a session

  lemma AfterAppend(s: Sys, run: seq<Action>, a: Action)
    ensures After(s, run + [a]) == Perform(After(s, run), a).sys
  {
    assert (run + [a])[..|run|] == run;
  }

  /** A session closed right after its one command was proposed with a line separator in the
      payload reference: every call was accepted, and nobody opens it again. */
  lemma PayloadLocksOut(session: string, more: seq<Action>)
    requires Agreement.AlwaysRecovers(more)
    ensures var proposed := Perform(NewSession(session), ProposeCommand("c", "p", BROKEN_TEXT, "1", 0.0));
            var closed := Perform(proposed.sys, CloseOrDie);
            && proposed.refused.None? && closed.refused.None? && closed.sys.disk.lifecycle == Active
            && !After(closed.sys, more).live
  {
    SeparatorInPayload(session);
    var proposed := Perform(NewSession(session), ProposeCommand("c", "p", BROKEN_TEXT, "1", 0.0));
    ClosedForGood(Perform(proposed.sys, CloseOrDie).sys, more);
  }

  const PROPOSE: Action := ProposeCommand("c", "p", "payload", "1", 0.0)
  const ACQUIRE: Action := AcquireBinding(Theorems.EXAMPLE_BINDING)

  /** Propose, authorise, acquire, dispatch. */
  function FourCalls(): seq<Action> {
    [PROPOSE, AuthorizeCommand("c"), ACQUIRE, DispatchCommand("c", "g")]
  }

  lemma AcquiresOnEmpty(d: Disk)
    requires d.bindings == [] && d.lifecycle == Active
    ensures var r := Acquire(d, Theorems.EXAMPLE_BINDING);
            && r.result.Success? && r.disk == d.(bindings := r.disk.bindings)
            && ActiveBinding(r.disk) == Success(Some(Theorems.EXAMPLE_BINDING))
  {
    Theorems.ExampleIsAccepted(d.session);
    Theorems.AcquiredBindingIsActive(d, Theorems.EXAMPLE_BINDING);
  }

  /** A proposed command of a session without bindings can be authorised, bound and dispatched. */
  lemma CanBeDispatched(d: Disk)
    requires Commands(d).Success? && Replay(d.commands).value.Keys == {"c"}
    requires Replay(d.commands).value["c"].state == Proposed && d.lifecycle == Active && d.bindings == []
    ensures var d2 := Transition(d, "c", Authorized, PLAIN);
            var d3 := Acquire(d2.disk, Theorems.EXAMPLE_BINDING);
            var d4 := Dispatch(d3.disk, "c", "g");
            && d2.result.Success? && d3.result.Success? && d4.result.Success?
            && d4.disk == d.(commands := d4.disk.commands, bindings := d4.disk.bindings)
            && Commands(d4.disk).Success? && Replay(d4.disk.commands).value.Keys == {"c"}
            && Replay(d4.disk.commands).value["c"].state == Dispatched
            && Replay(d4.disk.commands).value["c"].generation == Some("g")
  {
    TransitionAppends(d, "c", Authorized, PLAIN);
    var d2 := Transition(d, "c", Authorized, PLAIN).disk;
    AcquiresOnEmpty(d2);
    var d3 := Acquire(d2, Theorems.EXAMPLE_BINDING).disk;
    assert Clean("g");
    TransitionAppends(d3, "c", Dispatched, UnderGeneration("g"));
  }

  lemma ProposesOnEmpty(session: string)
    requires IsIdentifier(session)
    ensures var d, r := NewSession(session).disk, Propose(NewSession(session).disk, "c", "p", "payload", "1", 0.0);
            && r.result.Success? && r.disk == d.(commands := r.disk.commands)
            && Commands(r.disk).Success? && Replay(r.disk.commands).value.Keys == {"c"}
            && Replay(r.disk.commands).value["c"].state == Proposed
  {
    var d := NewSession(session).disk;
    assert Replay(d.commands) == Success(map[]);
    var r := Propose(d, "c", "p", "payload", "1", 0.0);
    IdentifiersAreClean(session);
    assert Clean("payload") && Clean("1");
    ProposeIsLegibleIff(d, "c", "p", "payload", "1", 0.0);
    ReplayAppend(d.commands, Created(r.result.value));
  }

  /** The directory after the four calls. */
  function DispatchedDisk(session: string): Disk {
    var d1 := Propose(NewSession(session).disk, "c", "p", "payload", "1", 0.0).disk;
    var d2 := Transition(d1, "c", Authorized, PLAIN).disk;
    var d3 := Acquire(d2, Theorems.EXAMPLE_BINDING).disk;
    Dispatch(d3, "c", "g").disk
  }

  lemma AfterFourCalls(session: string)
    ensures After(NewSession(session), FourCalls()) == Sys(DispatchedDisk(session), true)
  {
    var run, s := FourCalls(), NewSession(session);
    assert run[..1] == [] + [run[0]] && run[..2] == run[..1] + [run[1]];
    assert run[..3] == run[..2] + [run[2]] && run == run[..3] + [run[3]];
    AfterAppend(s, [], run[0]);
    AfterAppend(s, run[..1], run[1]);
    AfterAppend(s, run[..2], run[2]);
    AfterAppend(s, run[..3], run[3]);
  }

  /** The session is open and active, and its one command is dispatched under "g". */
  ghost predicate IsDispatched(s: Sys) {
    && s.live && s.disk.lifecycle == Active && Commands(s.disk).Success?
    && Replay(s.disk.commands).value.Keys == {"c"}
    && Replay(s.disk.commands).value["c"].state == Dispatched
    && Replay(s.disk.commands).value["c"].generation == Some("g")
  }

  /** The four calls lead there. */
  lemma FourCallsDispatch(session: string)
    requires IsIdentifier(session)
    ensures IsDispatched(After(NewSession(session), FourCalls()))
  {
    AfterFourCalls(session);
    ProposesOnEmpty(session);
    CanBeDispatched(Propose(NewSession(session).disk, "c", "p", "payload", "1", 0.0).disk);
  }

  /** The session is ended while its command is dispatched, and closed: both calls are accepted,
      and nobody opens it again. */
  lemma EndingLocksOut(s: Sys, more: seq<Action>)
    requires IsDispatched(s) && Agreement.AlwaysRecovers(more)
    ensures var ended := Perform(s, EndSession(Completed));
            var closed := Perform(ended.sys, CloseOrDie);
            && ended.refused.None? && closed.refused.None? && SomeDispatched(closed.sys.disk)
            && !After(closed.sys, more).live
  {
    var d := s.disk.(lifecycle := Completed);
    assert "c" in Replay(d.commands).value;
    assert SomeDispatched(d);
    ClosedForGood(Sys(d, false), more);
  }

  const OBSERVED: Expectation :=
    Expectation(true, Js.Text("e"), Js.Text("text"), Js.Text("a"), Js.Text(BROKEN_TEXT), [])

  const RECEIPT: ReceiptFile :=
    Readable(Receipt(Continuity.Text("1"), Continuity.Text("VERIFIED"), Absent, "", [OBSERVED], []))

  lemma ReceiptIsUnclean()
    ensures !T.PassedAreClean(AllResults(RECEIPT.receipt.results, RECEIPT.receipt.steps))
  {
    BrokenTextIsNotClean();
    var results := AllResults(RECEIPT.receipt.results, RECEIPT.receipt.steps);
    assert results == [OBSERVED];
    assert results[0].passed && !CleanValue(results[0].observed);
  }

  lemma ReceiptIsAttached(s: Sys)
    requires IsDispatched(s)
    ensures EvidenceToAttach(s.disk, "c", "r", "g", ReceiptVerified, RECEIPT).Success?
    ensures var r := Attach(s.disk, "c", "r", "g", ReceiptVerified, RECEIPT);
            && r.result.Success? && r.disk.lifecycle == Active
            && !SomeDispatched(r.disk) && !AllEvidenceLegible(r.disk.evidence)
  {
    var d := s.disk;
    assert "c" in Replay(d.commands).value;
    assert Clean("r");
    ReceiptIsUnclean();
    SeparatorInReceipt(d, "c", "r", "g", ReceiptVerified, RECEIPT, []);
    AttachCompletes(d, "c", "r", "g", ReceiptVerified, RECEIPT);
    var after := Replay(Attach(d, "c", "r", "g", ReceiptVerified, RECEIPT).disk.commands).value;
    assert after.Keys == {"c"};
  }

  /** The command's receipt, whose passed expectation observed a text with a line separator, is
      attached and the session closed: both calls are accepted, the session is active, nothing is
      dispatched, and nobody opens it again. */
  lemma ReceiptLocksOut(s: Sys, more: seq<Action>)
    requires IsDispatched(s) && Agreement.AlwaysRecovers(more)
    ensures var attached := Perform(s, AttachReceipt("c", "r", "g", ReceiptVerified, RECEIPT));
            var closed := Perform(attached.sys, CloseOrDie);
            && attached.refused.None? && closed.refused.None?
            && closed.sys.disk.lifecycle == Active && !SomeDispatched(closed.sys.disk)
            && !After(closed.sys, more).live
  {
    ReceiptIsAttached(s);
    ClosedForGood(Sys(Attach(s.disk, "c", "r", "g", ReceiptVerified, RECEIPT).disk, false), more);
  }
}
