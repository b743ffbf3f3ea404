# A verified model of DingDongDitch's stateful cores

DingDongDitch executes host-declared browser plans and records what happened. This project
models the parts of it that keep state across calls, threads or crashes, or whose answer is
supposed to mean something that no single function body says, and proves what they guarantee
over every input, every run and every interleaving.

| file | what it models |
|---|---|
| `CommandJournal.dfy`, `BindingJournal.dfy` | the append-only command and binding streams of a continuity session, and their replay |
| `JsonText.dfy`, `LineStreams.dfy`, `ContinuityText.dfy`, `ContinuityDecoding.dfy` | JSON text as it is written and read, streams of JSON lines, and the text of a session's three streams and how it is read back as events |
| `Continuity.dfy`, `ContinuitySession.dfy` | the session's operations, as functions of the durable directory and as the object whose methods perform them |
| `Recovery.dfy`, `ContinuityRuns.dfy`, `ContinuityTheorems.dfy` | recovery after a crash, and what holds over every run of calls, failing appends, deaths and reopenings |
| `CallMeaning.dfy` | what each call accepts and writes, read off its arguments and the lines |
| `StreamReadability.dfy`, `Agreement.dfy`, `Reopening.dfy` | in which runs the streams can be read, the evidence agrees with the journal, and the session can be opened again |
| `Resolver.dfy`, `Frames.dfy` | target resolution by successive filters, and frame paths |
| `MediaWait.dfy` | the media part of the polling wait |
| `DriverSharing.dfy`, `Ownership.dfy` | the reference-counted driver and the re-entrant ownership scopes, under interleaving |
| `NetworkLog.dfy` | the bounded network log with its correlation index |
| `Truncation.dfy`, `Attestation.dfy`, `Geometry.dfy` | payload truncation, memoised attestation and spatial relationships of an observation |
| `Pointer.dfy`, `Decimal.dfy` | JSON Pointers (RFC 6901) made from context paths, and their lookup |
| `Origins.dfy`, `PortableState.dfy` | export and import of portable browser state |
| `Secrets.dfy` | generation-bound secrets |

## How the model is built

A continuity session is modelled three times, on top of each other. The *directory* (three
append-only streams and the published header) is a value, and every API call is a function
from one directory to the next. `ContinuitySession` is a class over a mutable directory with an
owner lease; its methods contain the replay loops and are proved to do exactly what those
functions say. A *run* is any sequence of API calls, failing appends, deaths and reopenings,
including deaths and failures between attach's two appends and at every point inside recovery;
the state after a run is a fold, so "for every run" is "for every sequence". One append is one
atomic step; times and receipts are parameters of the calls.

A stream is a list of lines in the directory and a text on disk. The text is what
`json.dumps(..., ensure_ascii=False)` writes, and it is read with `str.splitlines` and a JSON
parser; all three are modelled. The functions of the directory treat a stream as unreadable
exactly when some text in it is not clean, that is, contains U+0085, U+2028 or U+2029, and
`FilesAreReadBack` proves that the files then cannot be read, and otherwise are read, line by
line and key by key, as exactly the events that were written.

The page is a fixed snapshot whose questions have fixed answers. The shared driver and the
ownership scopes are state machines whose steps are the pieces that the code executes without
interruption, so every interleaving of any number of backends or threads is a run. The network
log keeps its records as mutable objects, since a response updates a record through the index
while the record sits in the list; its handlers are proved to do what a function of the log's
value says, and what holds over every run of events is proved about that function. What Python
counts as a digit is a parameter of which only what the lookup depends on is supposed.

## What the proofs found

* **Line separators in streams.** Lines are written without escaping U+0085, U+2028 and U+2029 and
  read with `str.splitlines`, which breaks at all three. A stream reads back if and only if no text
  in it contains one of them (`StreamReadsBackIff`). Payload references, authorisation versions,
  reasons, profile references, capability snapshots, receipt references, receipt schemas and
  passed expectations are written as they come. `SeparatorInPayload`, `SeparatorInProfile`,
  `SeparatorInReason` and `SeparatorInReceipt` are accepted calls after which a stream can never
  be read again; `CommandsReadableIff`, `BindingJournalReplaysIff` and `EvidenceReadableIff` give
  the exact condition over all runs. `PayloadLocksOut` and `ReceiptLocksOut` show the consequence:
  an active session, in the second case with nothing dispatched, that nobody opens again.
* **Reused binding generations.** Acquiring checks only that no binding is active, while replay
  rejects any generation that occurs twice. `ReusedGenerationBreaksTheJournal` is the shortest
  run that the code accepts and that leaves a binding journal it can never read again.
  `BindingJournalReplaysIff` gives the exact condition: the journal can be read if and only if every
  accepted acquire used a generation not acquired before and clean texts.
  `BrokenBindingsAreForever` shows the consequence: nothing is dispatched any more.
* **Reopening.** Recovery succeeds if and only if the evidence and the commands can be read and the
  session is active or nothing is dispatched (`RecoverySucceedsIff`), and a finished session is
  read-only (`FinishedSessionsAreReadOnly`). A closed session for which that fails is never opened
  again by a recovering run (`ClosedForGood`, `OpensAgainIff`); `EndingLocksOut` ends a session
  while its command is dispatched. `ReopeningIsAcceptedIff` gives the exact condition over all
  runs: the session was not ended while a command was dispatched, and every text written to the
  command and evidence streams is clean.
* **Appends that fail.** If the second append of an attach fails while the owner lives, the owner can
  still give the command up, and evidence and journal disagree for ever
  (`FailedAttachThenGivenUp`). Every other theorem about runs holds with failing appends among the
  steps. `AgreementIff` gives the exact condition over all runs: the two agree if and only if
  nobody gave up, or attached a second receipt to, a command with evidence that was not yet
  settled, and no such command is left.
* **Nested containers.** A WITHIN container that several elements match, but whose own inner
  container is missing, is reported as ambiguous although nothing satisfies it
  (`NestedContainerIsMislabelled`). `ContainerKindIff` says which label every failing container
  gets, and `ContainerLabelIsTrueIff` when that label is true: exactly when the containers
  inside it resolve, or when down the chain of first unresolved containers at most one
  candidate was left each time and nothing satisfies the last one.
* **The payload budget.** Truncation measures the payload before the 64-character hash is filled
  in. Every payload that fits its budget exactly is published 64 bytes over it
  (`SealedPayloadCanExceedBudget`). `PublishedFitsIff` gives the exact condition on what was
  captured: no number of removals fits with fewer than 64 bytes to spare, and the payload
  without its lists fits with its hash. It is more than 64 bytes over exactly when even the
  payload without its lists does not fit.
* **Names that dangle.** Published relationships name published elements, whatever is cut
  (`ReferencesSurviveTruncation`). The focus, regions, overlays and scroll containers are never cut
  and may name elements too; such a name survives if and only if its element is not in the tail
  that is cut (`OtherNamesSurviveIff`, `FocusCanDangle`).
* **The network limit.** The handlers swallow exceptions, and a response whose data cannot be read
  skips the trimming. n such responses in a row put the log n records over its limit
  (`LogExceedsEveryBound`). In every run the log is within its limit if and only if every event
  that added a record to a full log without trimming was followed by one that trims
  (`BoundedIff`).
* **Pointer tokens.** Reading a pointer drops empty tokens, so printing and reading is the
  identity exactly on token lists without empty tokens (`RoundTripIff`). On arrays the lookup
  accepts leading zeros (`LeadingZerosAreAccepted`) and asks `isdigit` before `int`, so that a
  superscript raises and an Arabic digit selects an element (`OtherDigits`). A token means what
  section 4 of RFC 6901 says on every value if and only if it is not a digit text other than an
  array index that `int` reads (`TokenMeansTheRfcStepIff`), and a context path is looked up as
  written in every document if and only if none of its names consists of digits and none of its
  indices is too long for `int` (`PointerLooksUpItsPathIff`).
* **Secrets.** `resolve_bound` checks and reads in two lock sections; a rotation between them
  returns a value the binding was not issued for (`RotationBetweenCheckAndRead`). The split call
  answers as an atomic one if and only if the check fails anyway, no change in between touches
  the name, or the last one that does rotates it to the value it had (`SplitCallIsAtomicIff`).

## Model

| member | source | states |
|---|---|---|
| `CommandJournal.ReplayLoop` | dingdongditch/continuity.py:368-400 | the replay loop computes the replay of the stream, with the first error of a bad stream |
| `CommandJournal.ReplayMeaning` | dingdongditch/continuity.py:368-400 | a command stream replays if and only if every line fits the lines before it: one creation per command, each change starting where the last line about the command left it and following the table; the replayed state is the one the last line names |
| `CommandJournal.RecordMeaning` | dingdongditch/continuity.py:368-400 | in every journal that replays, a record's id, session, planner, payload, authorisation and creation time are those of its creation line, its state is the one the last line about it names, and its receipt and generation are those of the last change that names one |
| `CommandJournal.HistoriesAreLives` | dingdongditch/continuity.py:63-80 | the states that the lines about a command name are a prefix of one of five lives: proposed, authorised, dispatched and then verified, failed or unknown, or cancelled before it is dispatched |
| `CommandJournal.LinesBound` | dingdongditch/continuity.py:63-80 | in every journal that replays, a command has at most four creation and change lines |
| `CommandJournal.TerminalIsFinal` | dingdongditch/continuity.py:63-80 | a terminal record is identical in the replay of every valid extension |
| `BindingJournal.ReplayLoop` | dingdongditch/continuity.py:507-539 | the loop with its position dictionary computes the replay |
| `BindingJournal.ReplayMeaning` | dingdongditch/continuity.py:507-539 | a binding stream replays if and only if no generation is acquired twice and only held generations are released; the result lists exactly the acquired generations, released exactly when the stream says so |
| `BindingJournal.BindingMeaning` | dingdongditch/continuity.py:507-539 | the replayed bindings are, in order of acquisition, those of their acquisition lines in everything but the time of release, which is that of their release line |
| `JsonText.ParseOfDump` | dingdongditch/runtime/publication.py:149-155 | every JSON value is read back from its text, escapes and nesting included |
| `LineStreams.BrokenOffIsUnreadable` | dingdongditch/continuity.py:282-285 | a text that breaks off inside a string literal is no JSON |
| `LineStreams.StreamReadsBackIff` | dingdongditch/continuity.py:276-285 | a stream of appended lines reads back as exactly the values written if and only if no text in them contains U+0085, U+2028 or U+2029; otherwise reading fails |
| `ContinuityText.FilesReadBackIff` | dingdongditch/continuity.py:103-109 | the text of each of the three streams, field by field as it is written, reads back exactly when every line is legible |
| `ContinuityDecoding.CommandLineDecodes` | dingdongditch/continuity.py:368-400 | reading a command line key by key gives back exactly the event that was written |
| `ContinuityDecoding.BindingLineDecodes` | dingdongditch/continuity.py:507-539 | so does reading a binding line |
| `ContinuityDecoding.EvidenceLineDecodes` | dingdongditch/continuity.py:583-596 | so does reading an evidence line |
| `ContinuityDecoding.FilesAreReadBack` | dingdongditch/continuity.py:276-285 | the three files are read back as exactly the events written to them if the streams are legible, and cannot be read otherwise |
| `ContinuityText.FactsAreCleanIff` | dingdongditch/continuity.py:609-628 | the verified facts can be read back if and only if everything in the passed expectations can |
| `ContinuitySessions.ContinuitySession.Open` | dingdongditch/continuity.py:227-253 | opening is refused while leased, for an unsupported schema and for an owner that is no identifier, publishes the owner, recovers if asked, and gives the lease back when recovery fails: exactly the reopening step of the run model |
| `ContinuitySessions.ContinuitySession.ProposeCommand` | dingdongditch/continuity.py:294-319 | the method does to the directory what the specification of proposing says, error by error; a closed owner refuses |
| `ContinuitySessions.ContinuitySession.Transition` | dingdongditch/continuity.py:347-366 | the method appends the specified change and returns the re-read record, or fails after appending when the line cannot be read |
| `ContinuitySessions.ContinuitySession.DispatchCommand` | dingdongditch/continuity.py:328-337 | the method dispatches as specified, under the active generation only; a closed owner refuses |
| `ContinuitySessions.ContinuitySession.ActiveBinding` | dingdongditch/continuity.py:541-545 | the method returns the one unreleased binding of the replayed stream, or why there is none to be read |
| `ContinuitySessions.ContinuitySession.AcquireBrowserBinding` | dingdongditch/continuity.py:438-488 | the method appends the specified acquisition, with the source's refusals in its order, the search for browser-local keys included; a closed owner refuses |
| `ContinuitySessions.ContinuitySession.ReleaseBrowserBinding` | dingdongditch/continuity.py:490-505 | the method appends the specified release; a closed owner refuses |
| `ContinuitySessions.ContinuitySession.CollectFacts` | dingdongditch/continuity.py:609-628 | the two loops collect exactly the passed expectations of the receipt and of its steps, in order |
| `ContinuitySessions.ContinuitySession.AttachReceipt` | dingdongditch/continuity.py:555-606 | the method appends evidence with its verified facts and then the transition, as specified; a closed owner refuses |
| `ContinuitySessions.ContinuitySession.RecoverInterruptedCommands` | dingdongditch/continuity.py:410-429 | recovery reads the evidence and the commands and does what its specification says, including its early failures; a closed owner changes nothing and succeeds exactly when both can be read and nothing is dispatched |
| `ContinuitySessions.ContinuitySession.SetLifecycle` | dingdongditch/continuity.py:287-292 | the lifecycle leaves active once, as specified; a closed owner and a finished session refuse |
| `Recovery.RecoverySettles` | dingdongditch/continuity.py:410-429 | with readable streams and an active session recovery gives every dispatched command the outcome of its newest evidence, or outcome unknown, changes no other record, and writes only to the command stream, which stays readable |
| `Recovery.RecoveryLeavesNothingDispatched` | dingdongditch/continuity.py:410-429 | after recovery in an active session no command is dispatched and every other record is unchanged |
| `Recovery.RecoveryIsIdempotent` | dingdongditch/continuity.py:410-429 | repeating recovery appends and reports nothing |
| `Recovery.RecoverySucceedsIff` | dingdongditch/continuity.py:410-429 | recovery succeeds if and only if the evidence and the commands can be read and the session is active or nothing is dispatched, and a failed recovery changed nothing |
| `Recovery.RecoverySurvivesItsOwnInterruption` | dingdongditch/continuity.py:410-429 | recovery cut off at any point and run again ends with the records of one uninterrupted recovery |
| `Recovery.AttachCompletes` | dingdongditch/continuity.py:581-606 | once the evidence line of an attach is written, its transition is written too; the call succeeds if and only if the reference is clean |
| `Recovery.RecoveryClosesAttachWindow` | dingdongditch/continuity.py:555-606 | after a crash between attach's two appends recovery succeeds if and only if the evidence can be read, and then gives every command the record that the uncrashed attach followed by recovery gives, and the attached command the record the attach returned |
| `ContinuityRuns.PerformKeeps` | dingdongditch/continuity.py:294-606 | every step, accepted, refused, failing or fatal, keeps the streams consistent with one another |
| `ContinuityRuns.EveryRunIsConsistent` | dingdongditch/continuity.py:294-606 | every directory reachable from an empty session is consistent |
| `ContinuityTheorems.CommandJournalAlwaysReplays` | dingdongditch/continuity.py:347-400 | in every run the lines of the command journal replay and every command follows the transition table, so the journal can be read if and only if its lines are legible |
| `ContinuityTheorems.ProposeAddsOneCommand` | dingdongditch/continuity.py:294-319 | proposing is accepted exactly for a new, well-formed command in an active session whose journal can be read, and adds exactly that record |
| `ContinuityTheorems.DispatchNeedsTheHeldGeneration` | dingdongditch/continuity.py:328-337 | dispatching is accepted exactly when both journals can be read, the session is active, the command is authorised and the generation is acquired and not released |
| `ContinuityTheorems.TerminalCommandsAreFinal` | dingdongditch/continuity.py:63-80 | once terminal, a command's record never changes in any continuation of any run |
| `ContinuityTheorems.AcquireReplaysIff` | dingdongditch/continuity.py:449-476 | an accepted acquire leaves a readable journal if and only if its generation was never acquired and its profile reference and snapshot are clean |
| `ContinuityTheorems.BindingJournalReplaysIff` | dingdongditch/continuity.py:507-539 | in every run the binding journal can be read and replayed if and only if every accepted acquire was fresh and clean |
| `ContinuityTheorems.FreshRunsAreSafe` | dingdongditch/continuity.py:541-545 | with fresh and clean acquires the binding journal can be read and at most one binding is unreleased |
| `ContinuityTheorems.AcquireReleaseAcquire` | dingdongditch/continuity.py:449-450 | from every directory, acquire, release and acquire under one fresh generation is accepted and breaks the journal |
| `ContinuityTheorems.ReusedGenerationBreaksTheJournal` | dingdongditch/continuity.py:449-450 | the concrete shortest run that does so |
| `ContinuityTheorems.BrokenBindingsAreForever` | dingdongditch/continuity.py:507-514 | a binding journal that cannot be read or replayed stays as it is in every continuation and nothing is dispatched any more |
| `ContinuityTheorems.EvidenceComesFromReceipts` | dingdongditch/continuity.py:555-596 | every evidence line of a run was attached by an earlier call from a readable receipt with its schema, its digest, its verified facts and a verdict whose text stands for its classification |
| `ContinuityTheorems.OutcomesAreBackedByReceipts` | dingdongditch/continuity.py:555-639 | in every reachable state a verified or failed command has an evidence line with its id, that classification, its reference and its dispatch generation, that generation was acquired, and the line came from a receipt whose verdict text stands for it |
| `ContinuityTheorems.AttachSurvivesCrashes` | dingdongditch/continuity.py:410-429 | after a death between attach's appends and any number of deaths inside recovery, a reopening completes if and only if the evidence can be read, and gives the record of the undisturbed attach |
| `CallMeaning.AttachIsAcceptedIff` | dingdongditch/continuity.py:555-581 | attaching is accepted exactly for a command dispatched under the generation, in an active and readable session, with a readable receipt that has a schema and whose own verdict (VERIFIED; NOT_VERIFIED or EXECUTION_FAILED; INDETERMINATE) has the declared classification; another classification contradicts it and no classification is unrecognised |
| `CallMeaning.AttachWrites` | dingdongditch/continuity.py:582-606 | it then writes the evidence line field by field, and a change from dispatched to the state the classification stands for, with the reference |
| `CallMeaning.OutcomesMatchVerdicts` | dingdongditch/continuity.py:630-639 | in every run a verified command was attached a receipt whose verdict is VERIFIED, a failed one NOT_VERIFIED or EXECUTION_FAILED, and one of unknown outcome that names a receipt INDETERMINATE, under its generation |
| `CallMeaning.FactsAreThoseOfPassedExpectations` | dingdongditch/continuity.py:609-628 | the verified facts are, in order and field by field, those of exactly the passed expectations |
| `CallMeaning.CallsWriteTheirLines` | dingdongditch/continuity.py:294-366 | proposing, authorising, dispatching, cancelling and giving up write their own line, literally, or none, and nothing to the other streams |
| `CallMeaning.ChangeIsWrittenIff` | dingdongditch/continuity.py:70-80 | a change is written exactly when the journal can be read, the session is active and it is one of the seven of the table |
| `CallMeaning.CommandsLiveTheirLives` | dingdongditch/continuity.py:63-80 | in every run every command lives one of these lives |
| `CallMeaning.RecoveryWrites` | dingdongditch/continuity.py:410-429 | recovery writes the outcome and reference of the newest evidence, marked as recovered, or an unknown outcome with its reason |
| `CallMeaning.RecoveryReports` | dingdongditch/continuity.py:410-429 | recovery reports exactly the commands that were dispatched, in the order of their creation |
| `CallMeaning.InspectionFindsIff` | dingdongditch/continuity.py:479-488 | the inspection of a snapshot finds a browser-local key exactly when one of the six words is a key at some depth, in any case |
| `CallMeaning.AcquireIsAcceptedIff` | dingdongditch/continuity.py:438-476 | acquiring is accepted exactly when the journal can be read and holds nothing, the session is active and the arguments are acceptable, and writes the binding as held |
| `CallMeaning.ReleaseIsAcceptedIff` | dingdongditch/continuity.py:490-505 | releasing is accepted exactly for the held generation and writes its release |
| `StreamReadability.CommandsReadableIff` | dingdongditch/continuity.py:276-400 | in every run the command journal can be read and replayed if and only if every call that wrote to it had a clean payload reference, authorisation version, reason and receipt reference |
| `StreamReadability.EvidenceReadableIff` | dingdongditch/continuity.py:555-606 | in every run the evidence can be read if and only if every attached receipt had a clean reference, schema and passed expectations |
| `StreamReadability.UnreadableCommandsAreForever` | dingdongditch/continuity.py:276-285 | a command journal that cannot be read is never written again, and neither is the evidence |
| `StreamReadability.UnreadableEvidenceIsForever` | dingdongditch/continuity.py:276-285 | evidence that cannot be read stays so in every continuation |
| `StreamReadability.SeparatorInPayload` | dingdongditch/continuity.py:314-316 | a proposal with a line separator in its payload reference is accepted and the journal cannot be read |
| `StreamReadability.SeparatorInProfile` | dingdongditch/continuity.py:460-475 | so is an acquire with one in its profile reference, under a fresh generation |
| `StreamReadability.SeparatorInReason` | dingdongditch/continuity.py:342-366 | giving a command up for a reason with one is written and then reported as an error |
| `StreamReadability.SeparatorInReceipt` | dingdongditch/continuity.py:577-596 | a receipt with one in a passed expectation is attached with success and the evidence can never be read again |
| `Agreement.AgreementIff` | dingdongditch/continuity.py:342-429 | in every run, failing appends and reopenings without recovery included, evidence and journal agree if and only if no misstep was made and no command with evidence is still dispatched |
| `Agreement.EvidenceAndJournalAgree` | dingdongditch/continuity.py:226-253 | if every reopening recovers and no attach fails halfway, then while an owner has the session open every command has at most one evidence line, says what that line says, and is verified or failed only with such a line |
| `Agreement.FailedAttachThenGivenUp` | dingdongditch/continuity.py:581-606 | an attach whose second append fails, and giving the command up, leave streams that disagree in every continuation |
| `Reopening.FinishedSessionsAreReadOnly` | dingdongditch/continuity.py:266-292 | once the lifecycle has left active, no run of calls, deaths and reopenings changes anything in the directory but the owner |
| `Reopening.ClosedForGood` | dingdongditch/continuity.py:227-253 | a closed session that cannot be recovered stays as it is in every run in which every reopening recovers: nobody opens it again |
| `Reopening.OpensAgainIff` | dingdongditch/continuity.py:227-253 | some recovering run opens a closed session again if and only if its schema is supported, its commands and evidence can be read, and it is active or has nothing dispatched |
| `Reopening.ReopeningIsAcceptedIff` | dingdongditch/continuity.py:227-292 | after every run that leaves the session closed, reopening with recovery is accepted if and only if the session was not ended while a command was dispatched and everything written to the command and evidence streams is clean |
| `Reopening.FourCallsDispatch` | dingdongditch/continuity.py:294-337 | proposing, authorising, acquiring and dispatching lead from an empty session to one with one dispatched command |
| `Reopening.EndingLocksOut` | dingdongditch/continuity.py:266-292 | ending that session and closing it is accepted, and nobody opens it again |
| `Reopening.PayloadLocksOut` | dingdongditch/continuity.py:276-319 | a session closed after one proposal with a line separator is active, and nobody opens it again |
| `Reopening.ReceiptLocksOut` | dingdongditch/continuity.py:410-429 | a session closed after a receipt with a line separator was attached is active, has nothing dispatched, and nobody opens it again |
| `Resolver.CheckExcluded` | dingdongditch/backends/target_resolver.py:213-262 | the four exclusion loops decide exactly the declared exclusion |
| `Resolver.Filter` | dingdongditch/backends/target_resolver.py:189-210 | the filter loop keeps exactly the admitted candidates, in order |
| `Resolver.PassesIffMeets` | dingdongditch/backends/target_resolver.py:189-262 | the filter's test of an element is exactly what the constraint asks of the page |
| `Resolver.ResolveTarget` | dingdongditch/backends/target_resolver.py:558-807 | the resolver's loop, recursing into containers, computes the specified resolution with its trace |
| `Resolver.ResolveIsFaithful` | dingdongditch/backends/target_resolver.py:558-807 | success designates the one primary match that satisfies every constraint, where each kind and operator of constraint is a question to the page; each failure kind states truthfully what is wrong |
| `Resolver.ResolvesIffDesignates` | dingdongditch/backends/target_resolver.py:558-807 | resolution succeeds if and only if every container recursively resolves and exactly one primary match satisfies all constraints, as the page answers about attribute, visibility, state, name and CSS, and returns that match |
| `Resolver.ConstraintOrderDoesNotMatter` | dingdongditch/backends/target_resolver.py:599-682 | reordering or repeating constraints, of the locator and of every container inside it, changes neither success nor the element |
| `Resolver.ContainerKindIff` | dingdongditch/backends/target_resolver.py:612-624 | every failing container is called missing or ambiguous: missing if and only if nothing satisfies it while its containers resolve, or its first unresolved container is called missing and at most one candidate was left |
| `Resolver.ContainerLabelIsTrueIff` | dingdongditch/backends/target_resolver.py:612-624 | the label of a failing container is true if and only if its own containers resolve or it is called missing |
| `Resolver.NestedContainerIsMislabelled` | dingdongditch/backends/target_resolver.py:615-624 | a family of pages on which a container that nothing satisfies is reported as ambiguous |
| `Resolver.SuccessfulTraceIsChained` | dingdongditch/backends/target_resolver.py:569-807 | a successful trace has one stage per constraint, each starting where the previous one ended, ending at exactly one |
| `Resolver.ResolutionReports` | dingdongditch/backends/target_resolver.py:569-807 | counts and trace, of success and of every failure, say how many primary matches met the constraints before and after each stage, up to the first unresolved container, whose own trace follows |
| `Resolver.IdentityThenState` | dingdongditch/backends/target_resolver.py:79-112 | when the identity locator resolves, the full locator resolves if and only if that element is in the declared state, and to the same element |
| `Frames.ResolveHop` | dingdongditch/backends/target_resolver.py:284-464 | one hop computes the specified frame, failure and trace |
| `Frames.FrameFailureMeaning` | dingdongditch/backends/target_resolver.py:303-464 | for every frame locator, nested containers included: missing or ambiguous by the elements that satisfy it or by the label of its first unresolved container, not a frame or detached by what the one element that satisfies it is |
| `Frames.HopReachesIff` | dingdongditch/backends/target_resolver.py:284-464 | a hop reaches a frame of an identity exactly when its locator designates an element whose content is that frame |
| `Frames.HopRecords` | dingdongditch/backends/target_resolver.py:319-464 | a hop records the stages of its element under frame titles, one more for an attached frame, and the number of matches |
| `Frames.ResolveFramePath` | dingdongditch/backends/target_resolver.py:467-530 | the loop over the hops computes the specified walk, and refuses an empty path |
| `Frames.PathsCompose` | dingdongditch/backends/target_resolver.py:467-530 | walking p + q is walking p and then q from the frame reached: same frame or failure, hops and trace concatenated |
| `Frames.PathSucceedsIff` | dingdongditch/backends/target_resolver.py:467-530 | p + q succeeds exactly when p reaches a frame from which q succeeds, with the same final frame; a failure in q is reported that many hops later |
| `Frames.PathResolvesIff` | dingdongditch/backends/target_resolver.py:466-530 | a path resolves to a frame, recording these identities, exactly when a chain of designated frame elements leads there by way of frames of these identities |
| `Frames.HopsAreRecorded` | dingdongditch/backends/target_resolver.py:483-511 | resolved hops are recorded in order, all on success and exactly those before the failing hop on failure |
| `Frames.FirstFailingHop` | dingdongditch/backends/target_resolver.py:494-503 | the reported hop is the first that fails from the frame the earlier hops reached, with its kind |
| `Frames.EveryStageIsLabelledOnce` | dingdongditch/backends/target_resolver.py:483-486 | the trace is, hop after hop, what each hop recorded on its own, every stage labelled once with its own hop |
| `Frames.LabelsDetermineHops` | dingdongditch/backends/target_resolver.py:485-486 | the label determines the hop and the title, and no unlabelled title looks labelled |
| `MediaWait.ObserveIsExact` | dingdongditch/backends/playwright_backend.py:1674-1718 | the sticky flags summarise the whole history, and the verdict on a sample is the declarative one over all samples so far |
| `MediaWait.WaitForMedia` | dingdongditch/backends/playwright_backend.py:1665-1786 | the wait ends at the first poll at which the condition holds of the history, or at the first hard failure before it |
| `MediaWait.ChangedMediaNeverSatisfies` | dingdongditch/backends/playwright_backend.py:1683-1692 | after a change of element or source no later sample satisfies a playing or looping wait |
| `MediaWait.WrapNeedsThreeSamples` | dingdongditch/backends/playwright_backend.py:1706-1717 | a looping video is never complete before the third reading |
| `DriverSharing.DriverPool.Take` | dingdongditch/backends/playwright_backend.py:625-631 | the locked section of start takes a lease on the existing or a new driver, or changes nothing |
| `DriverSharing.DriverPool.Drop` | dingdongditch/backends/playwright_backend.py:839-850 | the locked section of stop drops the count and shuts the driver down with the last lease |
| `DriverSharing.CountIsTheNumberOfLeases` | dingdongditch/backends/playwright_backend.py:625-659 | for any number of backends and any interleaving, with failure possible at every stage, the count is the number of leases held, the driver exists exactly while that is positive, and all holders share it |
| `DriverSharing.ClampNeverActs` | dingdongditch/backends/playwright_backend.py:840-843 | whenever the locked decrement runs the count is positive |
| `DriverSharing.NoLeakAndNoEarlyStop` | dingdongditch/backends/playwright_backend.py:795-858 | no backend runs on a stopped driver, and no driver is left when every backend is idle |
| `Ownership.OnlyOneThreadInside` | dingdongditch/backends/playwright_backend.py:415-438 | at most one thread is inside, the depth is its nesting and the recorded scope its outermost one |
| `Ownership.MutualExclusion` | dingdongditch/backends/windows_desktop_backend.py:76-97 | in both implementations two threads are never both past the lock |
| `Ownership.RefusalIsFailFast` | dingdongditch/backends/playwright_backend.py:418-422 | entering is refused, changing nothing, exactly when another thread is past the lock |
| `Ownership.OwnershipThreadNeverChanges` | dingdongditch/backends/playwright_backend.py:425-426 | the branch that reports a changed ownership thread is unreachable |
| `Ownership.EverythingIsGivenBack` | dingdongditch/backends/playwright_backend.py:432-438 | when all threads are outside again, lock and fields are as at the beginning |
| `NetworkLog.Log.Trim` | dingdongditch/backends/playwright_backend.py:698-708 | trimming keeps the last 512 records and leaves the index of exactly the keys whose newest record is among them |
| `NetworkLog.Log.OnRequest` | dingdongditch/backends/playwright_backend.py:718-731 | a request adds one record, indexed under its key, and trims: the log's whole new value |
| `NetworkLog.Log.OnResponse` | dingdongditch/backends/playwright_backend.py:733-755 | a response updates the retained newest record of its key and no other, or adds a response-only record; an unreadable status changes no record and unreadable headers keep the content type, and either skips trimming |
| `NetworkLog.Log.OnRequestFailed` | dingdongditch/backends/playwright_backend.py:757-763 | a failure marks the indexed record and changes nothing else |
| `NetworkLog.ForgettingTheOldest` | dingdongditch/backends/playwright_backend.py:703-708 | filtering the index by one evicted record leaves an index of the rest |
| `NetworkLog.ResponseIsRecorded` | dingdongditch/backends/playwright_backend.py:733-755 | a response sets the status if it was read and the content type if the headers were read too, and nothing else, on the indexed record or on a new response-only one |
| `NetworkLog.RequestsAndFailuresAreRecorded` | dingdongditch/backends/playwright_backend.py:718-763 | a request adds a record without an answer, and a failure marks the indexed record and nothing else |
| `NetworkLog.NothingIsLost` | dingdongditch/backends/playwright_backend.py:357-360 | in every run the log holds at least the last min(n, 512) of the n records created |
| `NetworkLog.BoundedIff` | dingdongditch/backends/playwright_backend.py:698-755 | in every run the log is exactly the last min(n, 512) records if and only if every overflowing event was followed by one that trims |
| `NetworkLog.LogExceedsEveryBound` | dingdongditch/backends/playwright_backend.py:733-755 | n unreadable responses in a row put a full log n records over its limit |
| `NetworkLog.ResponsesReachTheirRequests` | dingdongditch/backends/playwright_backend.py:710-755 | in every run with distinct request keys a response writes its status and content type, as far as they were read, to its own request's record, and to no other, if and only if that is retained; otherwise to a response-only record |
| `NetworkLog.EvictedRecordsAreFinal` | dingdongditch/backends/playwright_backend.py:698-763 | once a record is evicted no later request, response or failure changes it or brings it back |
| `NetworkLog.FirstResponseAfterEviction` | dingdongditch/backends/playwright_backend.py:733-749 | the first response to a request updates its record while retained, and otherwise creates a response-only record |
| `Truncation.Truncate` | dingdongditch/page_observer.py:511-516 | the loop stops at the least number of removals that fits the budget, or with all three lists empty, and flags the payload exactly when it did not fit as it was |
| `Truncation.CutsInOrder` | dingdongditch/page_observer.py:513-516 | what remains is a prefix of each list; text is cut before relationships and relationships before elements |
| `Truncation.AssembledNamesOnlyPublished` | dingdongditch/page_observer.py:456-458 | the relationships computed from a capture name only its elements |
| `Truncation.ReferencesSurviveTruncation` | dingdongditch/page_observer.py:456-458 | whatever was captured and however much is cut, every published relationship names two published elements |
| `Truncation.OtherNamesSurviveIff` | dingdongditch/page_observer.py:511-516 | a name of an element in a part that is never cut stays published if and only if the element is not in the tail that is cut |
| `Truncation.FocusCanDangle` | dingdongditch/page_observer.py:511-516 | a focus on the last element dangles as soon as one element is cut |
| `Truncation.CuttingShrinks` | dingdongditch/page_observer.py:511-516 | each removal makes the payload no larger, so the first that fits is the fullest |
| `Truncation.ListBytesAreTextBytes` | dingdongditch/page_observer.py:511-511 | the size of a list is that of its JSON text in UTF-8 |
| `Truncation.PublishedFitsIff` | dingdongditch/page_observer.py:511-519 | the published payload is within budget if and only if the payload without its lists fits with its hash and no number of removals fits with fewer than 64 bytes to spare; it is at most 64 bytes over if and only if the payload without its lists fits |
| `Truncation.SealedPayloadCanExceedBudget` | dingdongditch/page_observer.py:511-519 | every payload that fits its budget exactly is published, uncut, exactly 64 bytes over it |
| `Attestation.KeysAreLocators` | dingdongditch/page_observer.py:617-629 | two candidates have equal keys exactly when they have equal locators, through the JSON text |
| `Attestation.Attest` | dingdongditch/page_observer.py:567-720 | every candidate that is not a placeholder gets the count, uniqueness, confidence and status that the page's answer to its own locator gives, is marked reused exactly when the same locator occurred earlier, shares a query with another exactly when their locators are equal, and the page is asked once per distinct locator |
| `Attestation.RecordMeaning` | dingdongditch/page_observer.py:601-614 | unique, missing and failed say what the page answered, and confidence never rises |
| `Geometry.OverlapIsAPercentage` | dingdongditch/page_observer.py:803-805 | overlap lies between 0 and 100 and is positive exactly when area is shared |
| `Geometry.IntervalsShareOrLeaveAGap` | dingdongditch/page_observer.py:802-806 | for every position of two intervals, the length they share and the gap they leave |
| `Geometry.OverlapIsExact` | dingdongditch/page_observer.py:804-804 | overlap times the smaller area, clamped at one, is a hundred times the shared area |
| `Geometry.InnerRectanglesOverlapCompletely` | dingdongditch/page_observer.py:804-804 | a rectangle of area at least one inside another overlaps by 100 |
| `Geometry.OverlapLeavesNoGap` | dingdongditch/page_observer.py:806-807 | overlapping rectangles have no gap in either direction |
| `Geometry.EdgesAreNearerThanCentres` | dingdongditch/page_observer.py:816-819 | the edge distance never exceeds the centre distance |
| `Geometry.NearestKeepsTheNearest` | dingdongditch/page_observer.py:798-802 | a source keeps at most k targets, all eligible, and leaves out only targets no nearer than every kept one, and only when k are kept |
| `Geometry.KeptAreTheNearest` | dingdongditch/page_observer.py:795-801 | each source keeps at most k targets, each once, nearest first, all in its region and within the distance; one is left out only when k are kept and none of them is farther |
| `Geometry.ComputeRelationships` | dingdongditch/page_observer.py:793-820 | the nested loops produce the relationships of exactly the kept pairs, in order, with their types |
| `Geometry.PairsAreEligible` | dingdongditch/page_observer.py:795-801 | every related pair joins two different elements, the second in the region of the first if it has one, within the distance |
| `Geometry.RelationshipsNameElements` | dingdongditch/page_observer.py:816-816 | every relationship names two elements of the capture |
| `Geometry.RelationshipSays` | dingdongditch/page_observer.py:816-819 | a relationship names its elements, their gaps, distances, overlap and types |
| `Geometry.AllRelationshipsAreSound` | dingdongditch/page_observer.py:802-820 | the measures of every relationship are consistent |
| `Geometry.TypesSay` | dingdongditch/page_observer.py:807-815 | a type is said of a pair exactly when centres, sizes and overlap say so |
| `Geometry.TypesMirror` | dingdongditch/page_observer.py:807-815 | the types said of a pair are, left and right and above and below exchanged, those said of the pair turned round |
| `Pointer.UnescapeUndoesEscape` | dingdongditch/machine_contract.py:207-216 | undoing the two replacements in the code's order gives every token back |
| `Pointer.EscapeGivesReferenceTokens` | dingdongditch/machine_contract.py:207-207 | escaped tokens are reference tokens of section 3 of RFC 6901 |
| `Pointer.ReadOfPrint` | dingdongditch/machine_contract.py:208-216 | for every token list, reading the printed pointer gives the list without its empty tokens |
| `Pointer.RoundTripIff` | dingdongditch/machine_contract.py:208-216 | the round trip is the identity if and only if no token is empty |
| `Pointer.MakePointer` | dingdongditch/machine_contract.py:200-208 | the loop over the matches builds the specified pointer |
| `Pointer.ValueAtPointer` | dingdongditch/machine_contract.py:211-223 | the lookup loop with its early return follows the tokens of the pointer, or raises where int refuses a digit text |
| `Pointer.StepIsTheRfcStepIff` | dingdongditch/machine_contract.py:217-222 | on one value the lookup step is that of section 4 of RFC 6901 if and only if the value is no array, the token is no misread digit text, or the misreading finds nothing |
| `Pointer.TokenMeansTheRfcStepIff` | dingdongditch/machine_contract.py:217-222 | a token means on every value what the RFC says if and only if it is not a digit text other than an array index that int reads |
| `Pointer.LeadingZerosAreAccepted` | dingdongditch/machine_contract.py:219-220 | 00 selects the first element, where the RFC has no such index |
| `Pointer.OtherDigits` | dingdongditch/machine_contract.py:219-220 | a superscript two raises on every array and an Arabic three selects element 3 |
| `Pointer.TokensOfRender` | dingdongditch/machine_contract.py:204-207 | scanning the text of a path finds exactly its names and indices |
| `Pointer.LookupIsWalkIff` | dingdongditch/machine_contract.py:211-223 | on one document lookup comes to what the path means if and only if no name of digits and no overlong index meets an array, or the misread name leads nowhere |
| `Pointer.PointerLooksUpItsPathIff` | dingdongditch/machine_contract.py:200-223 | for every context path other than the two lone names, the pointer made from its text looks up exactly that path in every document if and only if no name in it consists of digits and no index is too long for int |
| `Pointer.DocumentAndInputAreTheRoot` | dingdongditch/machine_contract.py:201-202 | the two lone names stand for the whole document |
| `Origins.SafeOriginIsIdempotent` | dingdongditch/authentication/portable_state.py:86-103 | the canonical origin of an accepted origin is accepted and unchanged |
| `Origins.SafeOriginIff` | dingdongditch/authentication/portable_state.py:86-103 | for every URL of a scheme, an authority and what follows: it is a safe origin exactly for http or https in any case, an authority without a user part, and nothing but a root path, empty query and empty fragment; the canonical form is the scheme in lower case and the authority |
| `PortableState.ValidateStorageState` | dingdongditch/authentication/portable_state.py:106-167 | the nested validation loops compute the specified verdict |
| `PortableState.AcceptedStateIsOk` | dingdongditch/authentication/portable_state.py:106-167 | accepted state is within every limit, with distinct canonical origins, and without databases unless allowed |
| `PortableState.StateIsAcceptedIff` | dingdongditch/authentication/portable_state.py:106-167 | raw state is accepted as a state exactly when it holds exactly that state with canonical origins, the state is within every limit, and databases are permitted if it has some |
| `PortableState.StateReadsBack` | dingdongditch/authentication/portable_state.py:106-167 | state within the limits is accepted unchanged, except that databases need permission |
| `PortableState.BuildPortableState` | dingdongditch/authentication/portable_state.py:181-241 | the export loops build the specified document and count |
| `PortableState.ExportedDocumentsImport` | dingdongditch/authentication/portable_state.py:181-295 | every exported document validates within its maximum age to exactly its state; databases without permission make it unsupported, and age makes it stale |
| `PortableState.ImportUnderTheSamePolicy` | dingdongditch/authentication/portable_state.py:181-295 | with databases allowed as the policy included them, import always succeeds |
| `PortableState.ImportIsAcceptedIff` | dingdongditch/authentication/portable_state.py:244-295 | a document is imported exactly when maximum age, version, kind, age, features, state and databases are all acceptable, each literally |
| `PortableState.ExportIsExact` | dingdongditch/authentication/portable_state.py:181-241 | exporting is accepted exactly when the policy includes something and the state is accepted; the cookies leave exactly if included, of every origin exactly the entries that are not sensitive, in order, and the databases, each exactly if included, the declared features are exactly the policy's, and kept plus excluded entries equal the input |
| `Secrets.MappingSecretProvider.Resolve` | dingdongditch/authentication/secrets.py:189-208 | the method resolves as specified |
| `Secrets.MappingSecretProvider.Rotate` | dingdongditch/authentication/secrets.py:210-216 | a rotation sets the value and advances the generation |
| `Secrets.ResolvesIff` | dingdongditch/authentication/secrets.py:174-208 | a binding resolves exactly for the reference, provider and generation it names, and to the current value |
| `Secrets.ChangesAreExact` | dingdongditch/authentication/secrets.py:210-220 | rotating sets one value and raises one generation by one; clearing takes every value and keeps every generation |
| `Secrets.GenerationsOnlyGrow` | dingdongditch/authentication/secrets.py:210-220 | generations only grow, and a name present under its old generation was never touched |
| `Secrets.BindingsResolveToTheIssuedValue` | dingdongditch/authentication/secrets.py:174-220 | after any run of rotations and clearings a binding resolves only to the value current when it was issued |
| `Secrets.BindingResolvesIff` | dingdongditch/authentication/secrets.py:189-220 | a binding resolves if and only if its name was neither rotated nor cleared |
| `Secrets.SplitCallIsAtomicIff` | dingdongditch/authentication/secrets.py:189-192 | a call whose check and read are separated by changes answers as the atomic call if and only if the check fails, the name is untouched, or it was last rotated to the value it had |
| `Secrets.RotationBetweenCheckAndRead` | dingdongditch/authentication/secrets.py:189-192 | a rotation between check and read returns a value the binding was not issued for |

## Left out

- Continuity: the integrity re-hashing of `evidence_index`, which only reads; errors while publishing the header, after which the owner and the directory may differ in their lifecycle until the next opening; texts with unpaired surrogates, which no UTF-8 file holds.
- Continuity: concurrent calls on one session object. Each call holds the mutation lock, and recovery, which does not, is taken as one call that may die or fail at any point.
- JsonText: the grammar inside numbers and the words true, false and null, and pairs of surrogate escapes, neither of which decides whether a written line is read; objects list their members, so that a key written twice is kept twice.
- Frames: stages are values, so the in-place relabelling of shared stage objects is modelled as building relabelled stages; `merge_frame_trace` copies two finished records into one and decides nothing.
- Resolver: Playwright errors inside single questions (an unreadable attribute reads as absent in the snapshot), time stamps and candidate summaries; the "unsupported constraint" branch is ruled out by the types.
- MediaWait: other wait conditions, the clock and adaptive timeout extension; the deadline is the end of the poll sequence. Media times are reals, and an unknown duration reads as zero.
- DriverSharing: profile leases beyond their effect on the early return of stop, and errors while closing contexts and browsers, which change none of the modelled fields.
- NetworkLog: time stamps, and the choice of the correlation key; a request whose data cannot be read creates nothing and is no event of the model.
- Truncation: the sizes of the parts that are never cut are one parameter.
- Geometry: floating-point rounding; distances are compared by their squares and `limit` is the square of the maximum distance.
- Attestation: attestation identifiers, evidence hashes and binding checks before the loop.
- Pointer: the Unicode tables behind `isdigit` and `int` are a parameter with the properties that `IsPython` lists.
- PortableState: the two sensitivity patterns and the host checks inside URL splitting are parameters; receipts beyond the excluded count; the 10 MB file limit is checked elsewhere.
- Secrets: the other providers, time-bounded resolution and `redact`.
- Publication of observations, the 20-observation eviction, reference freshness and locator candidate ranking, on which none of the stated properties depends.
- Plan parsing, contract schemas, downloads, uploads, dialogs, screenshots, the CLI and the adapters.
