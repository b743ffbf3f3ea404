/** The operations of a continuity session as functions of the durable directory
    (dingdongditch/continuity.py: `ContinuitySession`). One append is one atomic step. */
module Continuity {
  import opened Wrappers
  import opened LineStreams
  import opened CommandJournal
  import Js = JsonText
  import B = BindingJournal

  datatype Lifecycle = Active | Completed | Stopped

  datatype Classification = ReceiptVerified | ReceiptFailed | ReceiptUnknown

  predicate IsHexadecimal(s: string) {
    forall i :: 0 <= i < |s| ==> '0' <= s[i] <= '9' || 'a' <= s[i] <= 'f'
  }

  type Digest = s: string | IsHexadecimal(s) witness ""

  /** A line of the evidence stream. */
  datatype Evidence = Evidence(
    command: string,
    reference: string,
    schema: string,
    digest: Digest,
    generation: string,
    classification: Classification,
    facts: seq<Js.Json>)

  const SCHEMA_VERSION := "1.0.0"

  /** The directory: three append-only streams and the published header. */
  datatype Disk = Disk(
    session: string,
    schema: string,
    owner: string,
    commands: seq<CommandEvent>,
    bindings: seq<B.BindingEvent>,
    evidence: seq<Evidence>,
    lifecycle: Lifecycle)

  datatype Error =
    | InvalidArgument
    | CommandExists
    | UnknownCommand
    | InvalidTransition
    | ReadOnlySession
    | OwnerClosed
    | LeaseHeld
    | SessionAlreadyActive
    | UnsupportedSchema
    | CorruptStream
    | WriteFailed
    | CorruptCommands(command: ReplayError)
    | CorruptBindings(binding: B.BindingError)
    | BindingAlreadyActive
    | GenerationNotActive
    | NotDispatched
    | GenerationMismatch
    | ReceiptUnavailable
    | ReceiptWithoutSchema
    | UnrecognisedReceipt
    | ContradictsReceipt

  datatype Reply<+T> = Reply(disk: Disk, result: Result<T, Error>)

  // ---------------------------------------------------------------------------
  // Receipts

  /** A field of the receipt object: absent, a text, or some other JSON value. */
  datatype Field = Absent | Text(text: string) | NotText

  /** One result in a receipt: whether it passed, and what is said about it. */
  datatype Expectation = Expectation(
    passed: bool,
    id: Js.Json,
    kind: Js.Json,
    expected: Js.Json,
    observed: Js.Json,
    references: seq<Js.Json>)

  /** The fields that are read, the results of the receipt itself and of its steps. */
  datatype Receipt = Receipt(
    schema: Field,
    planVerdict: Field,
    verdict: Field,
    digest: Digest,
    results: seq<Expectation>,
    steps: seq<seq<Expectation>>)

  datatype ReceiptFile = Unreadable | Readable(receipt: Receipt)

  /** The results of the receipt and then of its steps, in order. */
  function AllResults(results: seq<Expectation>, steps: seq<seq<Expectation>>): seq<Expectation> {
    if steps == [] then results else AllResults(results, steps[..|steps| - 1]) + steps[|steps| - 1]
  }

  function Fact(e: Expectation): Js.Json {
    Js.Object([
      Js.Member("fact_type", Js.Text("verified_expectation")),
      Js.Member("expectation_id", e.id),
      Js.Member("expectation_type", e.kind),
      Js.Member("expected", e.expected),
      Js.Member("observed", e.observed),
      Js.Member("evidence_refs", Js.Array(e.references))])
  }

  function FactsOf(results: seq<Expectation>): seq<Js.Json> {
    if results == [] then []
    else
      FactsOf(results[..|results| - 1]) +
      if results[|results| - 1].passed then [Fact(results[|results| - 1])] else []
  }

  /** The passed expectations, copied into the evidence. */
  function VerifiedFacts(r: Receipt): seq<Js.Json> {
    FactsOf(AllResults(r.results, r.steps))
  }

  function Classify(r: Receipt): Result<Classification, Error> {
    var verdict := if r.planVerdict.Absent? then r.verdict else r.planVerdict;
    if verdict == Text("VERIFIED") then Success(ReceiptVerified)
    else if verdict == Text("NOT_VERIFIED") || verdict == Text("EXECUTION_FAILED") then Success(ReceiptFailed)
    else if verdict == Text("INDETERMINATE") then Success(ReceiptUnknown)
    else Failure(UnrecognisedReceipt)
  }

  /** The field that decides: the plan's verdict, or the plain one when that is absent. */
  function VerdictField(r: Receipt): Field {
    if r.planVerdict.Absent? then r.verdict else r.planVerdict
  }

  /** The receipt's own verdict has this classification. */
  predicate Warrants(r: Receipt, c: Classification) {
    match c
    case ReceiptVerified => VerdictField(r) == Text("VERIFIED")
    case ReceiptFailed => VerdictField(r) == Text("NOT_VERIFIED") || VerdictField(r) == Text("EXECUTION_FAILED")
    case ReceiptUnknown => VerdictField(r) == Text("INDETERMINATE")
  }

  lemma ClassifyIff(r: Receipt, c: Classification)
    ensures Classify(r) == Success(c) <==> Warrants(r, c)
  {
    assert |"VERIFIED"| == 8 && |"NOT_VERIFIED"| == 12 && |"EXECUTION_FAILED"| == 16 && |"INDETERMINATE"| == 13;
  }

  function Target(c: Classification): CommandState {
    match c
    case ReceiptVerified => Verified
    case ReceiptFailed => Failed
    case ReceiptUnknown => OutcomeUnknown
  }

  // ---------------------------------------------------------------------------
  // Reading the streams

  predicate LegibleEvidence(ev: Evidence) {
    && Clean(ev.command) && Clean(ev.reference) && Clean(ev.schema) && Clean(ev.generation)
    && AllClean(ev.facts)
  }

  predicate AllEvidenceLegible(evidence: seq<Evidence>) {
    forall i :: 0 <= i < |evidence| ==> LegibleEvidence(evidence[i])
  }

  /** The replayed commands, if the stream can be read. */
  function Commands(d: Disk): Result<Records, Error> {
    if !AllLegible(d.commands) then Failure(CorruptStream)
    else
      match Replay(d.commands)
      case Failure(e) => Failure(CorruptCommands(e))
      case Success(records) => Success(records)
  }

  function Bindings(d: Disk): Result<seq<B.Binding>, Error> {
    if !B.AllLegible(d.bindings) then Failure(CorruptStream)
    else
      match B.Replay(d.bindings)
      case Failure(e) => Failure(CorruptBindings(e))
      case Success(bindings) => Success(bindings)
  }

  function ActiveBinding(d: Disk): Result<Option<B.Binding>, Error> {
    if !B.AllLegible(d.bindings) then Failure(CorruptStream)
    else
      match B.Active(d.bindings)
      case Failure(e) => Failure(CorruptBindings(e))
      case Success(active) => Success(active)
  }

  // ---------------------------------------------------------------------------
  // Commands

  predicate IsIdentifier(s: string) {
    && s != ""
    && forall i :: 0 <= i < |s| ==>
         || 'a' <= s[i] <= 'z'
         || 'A' <= s[i] <= 'Z'
         || '0' <= s[i] <= '9'
         || s[i] == '-'
         || s[i] == '_'
  }

  lemma IdentifiersAreClean(s: string)
    ensures IsIdentifier(s) ==> Clean(s)
  {
  }

  function Propose(d: Disk, id: string, planner: string, payload: string, authorization: string, at: real)
    : Reply<CommandRecord>
  {
    if !IsIdentifier(id) then Reply(d, Failure(InvalidArgument))
    else
      match Commands(d)
      case Failure(e) => Reply(d, Failure(e))
      case Success(records) =>
        if id in records then Reply(d, Failure(CommandExists))
        else if !IsIdentifier(planner) || payload == "" || authorization == "" then
          Reply(d, Failure(InvalidArgument))
        else if d.lifecycle != Active then Reply(d, Failure(ReadOnlySession))
        else
          var record := CommandRecord(id, d.session, planner, payload, authorization, at, Proposed, None, None);
          Reply(d.(commands := d.commands + [Created(record)]), Success(record))
  }

  /** The line is appended first and the stream read again afterwards, so a line that cannot
      be read makes the call fail although it is written. */
  function Transition(d: Disk, id: string, to: CommandState, detail: Detail): (r: Reply<CommandRecord>)
    ensures r.disk == d.(commands := r.disk.commands)
  {
    match Commands(d)
    case Failure(e) => Reply(d, Failure(e))
    case Success(records) =>
      if id !in records then Reply(d, Failure(UnknownCommand))
      else if !Allowed(records[id].state, to) then Reply(d, Failure(InvalidTransition))
      else if d.lifecycle != Active then Reply(d, Failure(ReadOnlySession))
      else
        var line := Changed(id, records[id].state, to, detail);
        Reply(d.(commands := d.commands + [line]),
              if Legible(line) then Success(Advance(records[id], to, detail)) else Failure(CorruptStream))
  }

  function Dispatch(d: Disk, id: string, generation: string): Reply<CommandRecord> {
    match ActiveBinding(d)
    case Failure(e) => Reply(d, Failure(e))
    case Success(active) =>
      if active.None? || active.value.generation != generation then Reply(d, Failure(GenerationNotActive))
      else Transition(d, id, Dispatched, UnderGeneration(generation))
  }

  function MarkOutcomeUnknown(d: Disk, id: string, reason: string): (r: Reply<CommandRecord>)
    ensures r.disk == d.(commands := r.disk.commands)
  {
    if reason == "" then Reply(d, Failure(InvalidArgument))
    else Transition(d, id, OutcomeUnknown, Because(reason))
  }

  // ---------------------------------------------------------------------------
  // Bindings

  function LowerChar(c: char): char {
    if 'A' <= c <= 'Z' then ((c as int) + 32) as char else c
  }

  function Lower(s: string): (r: string)
    ensures |r| == |s| && forall i :: 0 <= i < |r| ==> r[i] == LowerChar(s[i])
  {
    seq(|s|, i requires 0 <= i < |s| => LowerChar(s[i]))
  }

  predicate IsForbiddenKey(key: string) {
    Lower(key) in {"locator", "page", "page_reference", "dom_handle", "playwright", "freshness"}
  }

  /** Browser-local state somewhere in a capability snapshot. */
  predicate ContainsForbiddenKey(v: Js.Json) {
    match v
    case Object(members) =>
      exists i :: 0 <= i < |members| && (IsForbiddenKey(members[i].key) || ContainsForbiddenKey(members[i].value))
    case Array(items) => exists i :: 0 <= i < |items| && ContainsForbiddenKey(items[i])
    case _ => false
  }

  /** The arguments are ones that acquiring accepts. */
  predicate AcceptableBinding(b: B.Binding) {
    && IsIdentifier(b.id) && IsIdentifier(b.generation) && IsIdentifier(b.backend)
    && IsIdentifier(b.sessionIdentity) && IsIdentifier(b.leaseOwner)
    && b.profile != "" && !ContainsForbiddenKey(b.capabilities)
  }

  function Acquire(d: Disk, binding: B.Binding): Reply<B.Binding> {
    match ActiveBinding(d)
    case Failure(e) => Reply(d, Failure(e))
    case Success(active) =>
      if active.Some? then Reply(d, Failure(BindingAlreadyActive))
      else if !AcceptableBinding(binding) then Reply(d, Failure(InvalidArgument))
      else if d.lifecycle != Active then Reply(d, Failure(ReadOnlySession))
      else
        var held := binding.(releasedAt := None);
        Reply(d.(bindings := d.bindings + [B.Acquired(held)]), Success(held))
  }

  function Release(d: Disk, generation: string, at: real): Reply<B.Binding> {
    match ActiveBinding(d)
    case Failure(e) => Reply(d, Failure(e))
    case Success(active) =>
      if active.None? || active.value.generation != generation then Reply(d, Failure(GenerationNotActive))
      else if d.lifecycle != Active then Reply(d, Failure(ReadOnlySession))
      else
        Reply(d.(bindings := d.bindings + [B.Released(active.value.id, generation, at)]),
              Success(active.value.(releasedAt := Some(at))))
  }

  // ---------------------------------------------------------------------------
  // Attaching a receipt: two appends

  /** The evidence line that attaching appends first, if attaching is not refused. */
  function EvidenceToAttach(d: Disk, id: string, reference: string, generation: string,
                            declared: Classification, file: ReceiptFile)
    : Result<Evidence, Error>
  {
    match Commands(d)
    case Failure(e) => Failure(e)
    case Success(records) =>
      if id !in records || records[id].state != Dispatched then Failure(NotDispatched)
      else if records[id].generation != Some(generation) then Failure(GenerationMismatch)
      else if file.Unreadable? then Failure(ReceiptUnavailable)
      else if !file.receipt.schema.Text? || file.receipt.schema.text == "" then Failure(ReceiptWithoutSchema)
      else if Classify(file.receipt).Failure? then Failure(UnrecognisedReceipt)
      else if Classify(file.receipt).value != declared then Failure(ContradictsReceipt)
      else if d.lifecycle != Active then Failure(ReadOnlySession)
      else
        Success(Evidence(id, reference, file.receipt.schema.text, file.receipt.digest, generation, declared,
                         VerifiedFacts(file.receipt)))
  }

  function Attach(d: Disk, id: string, reference: string, generation: string,
                  declared: Classification, file: ReceiptFile)
    : Reply<CommandRecord>
  {
    match EvidenceToAttach(d, id, reference, generation, declared, file)
    case Failure(e) => Reply(d, Failure(e))
    case Success(ev) =>
      Transition(d.(evidence := d.evidence + [ev]), id, Target(declared), WithReceipt(reference))
  }

  /** Only the first of attach's two appends takes place. */
  function AttachInterrupted(d: Disk, id: string, reference: string, generation: string,
                             declared: Classification, file: ReceiptFile)
    : Disk
  {
    match EvidenceToAttach(d, id, reference, generation, declared, file)
    case Failure(_) => d
    case Success(ev) => d.(evidence := d.evidence + [ev])
  }

  // ---------------------------------------------------------------------------
  // Recovery

  /** The evidence dictionary: a later line about a command replaces an earlier one. */
  function Latest(evidence: seq<Evidence>): (m: map<string, Evidence>)
    ensures forall id :: id in m ==> m[id] in evidence && m[id].command == id
    ensures forall ev :: ev in evidence ==> ev.command in m
  {
    if evidence == [] then map[]
    else
      var ev := evidence[|evidence| - 1];
      Latest(evidence[..|evidence| - 1])[ev.command := ev]
  }

  lemma LatestAppend(evidence: seq<Evidence>, ev: Evidence)
    ensures Latest(evidence + [ev]) == Latest(evidence)[ev.command := ev]
  {
    assert (evidence + [ev])[..|evidence|] == evidence;
  }

  const RESTART := "owner_restart_after_dispatch"

  function FromEvidence(ev: Evidence): Detail {
    WithReceipt(ev.reference).(recovered := true)
  }

  function SettleOne(d: Disk, id: string, latest: map<string, Evidence>): (r: Reply<CommandRecord>)
    ensures r.disk == d.(commands := r.disk.commands)
  {
    if id in latest then Transition(d, id, Target(latest[id].classification), FromEvidence(latest[id]))
    else MarkOutcomeUnknown(d, id, RESTART)
  }

  function SettleAll(d: Disk, todo: seq<CommandRecord>, latest: map<string, Evidence>): (r: Reply<seq<string>>)
    ensures r.disk == d.(commands := r.disk.commands)
    decreases |todo|
  {
    if todo == [] then Reply(d, Success([]))
    else if todo[0].state != Dispatched then SettleAll(d, todo[1..], latest)
    else
      var first := SettleOne(d, todo[0].id, latest);
      match first.result
      case Failure(e) => Reply(first.disk, Failure(e))
      case Success(_) =>
        var rest := SettleAll(first.disk, todo[1..], latest);
        match rest.result
        case Failure(e) => Reply(rest.disk, Failure(e))
        case Success(ids) => Reply(rest.disk, Success([todo[0].id] + ids))
  }

  /** The replayed records in dictionary order. */
  function Listing(log: seq<CommandEvent>): (todo: seq<CommandRecord>)
    requires Replay(log).Success?
    ensures |todo| == |CreationOrder(log)|
    ensures forall i :: 0 <= i < |todo| ==>
              && CreationOrder(log)[i] in Replay(log).value
              && todo[i] == Replay(log).value[CreationOrder(log)[i]]
  {
    CreationOrderListsRecords(log);
    var order, records := CreationOrder(log), Replay(log).value;
    seq(|order|, i requires 0 <= i < |order| => records[order[i]])
  }

  /** The problem that keeps recovery from starting: it reads the evidence and the commands. */
  function RecoveryProblem(d: Disk): (r: Option<Error>)
    ensures r.None? <==> AllEvidenceLegible(d.evidence) && Commands(d).Success?
  {
    if !AllEvidenceLegible(d.evidence) then Some(CorruptStream)
    else if Commands(d).Failure? then Some(Commands(d).error)
    else None
  }

  function FirstOf<T>(s: seq<T>, n: nat): seq<T> {
    if n < |s| then s[..n] else s
  }

  /** Recovery, cut off after the first `upTo` records it looks at. */
  function RecoverUpTo(d: Disk, upTo: nat): (r: Reply<seq<string>>)
    ensures r.disk == d.(commands := r.disk.commands)
  {
    match RecoveryProblem(d)
    case Some(e) => Reply(d, Failure(e))
    case None => SettleAll(d, FirstOf(Listing(d.commands), upTo), Latest(d.evidence))
  }

  function Recover(d: Disk): (r: Reply<seq<string>>)
    ensures r.disk == d.(commands := r.disk.commands)
  {
    match RecoveryProblem(d)
    case Some(e) => Reply(d, Failure(e))
    case None => SettleAll(d, Listing(d.commands), Latest(d.evidence))
  }

  // ---------------------------------------------------------------------------
  // The header

  function SetLifecycle(d: Disk, status: Lifecycle): Reply<()> {
    if d.lifecycle != Active then Reply(d, Failure(ReadOnlySession))
    else if status == Active then Reply(d, Failure(SessionAlreadyActive))
    else Reply(d.(lifecycle := status), Success(()))
  }

  /** A new owner checks the header and publishes its own generation. */
  function TakeOver(d: Disk, owner: string): Result<Disk, Error> {
    if d.schema != SCHEMA_VERSION then Failure(UnsupportedSchema)
    else if !IsIdentifier(owner) then Failure(InvalidArgument)
    else Success(d.(owner := owner))
  }
}
