/** The text of a continuity session's three streams (dingdongditch/continuity.py: `_event` and
    the values that are appended) and when it can be read back. */
module ContinuityText {
  import opened Wrappers
  import opened LineStreams
  import opened CommandJournal
  import opened Continuity
  import Js = JsonText
  import B = BindingJournal

  /** How times are printed and read, and the stamp of the i-th line. */
  datatype Clock = Clock(show: real -> Js.Scalar, read: Js.Scalar -> real, stamp: nat -> Js.Scalar)

  /** Printed times are read back, and are not the word null. */
  ghost predicate TimesReadBack(clock: Clock) {
    forall t :: clock.read(clock.show(t)) == t && clock.show(t) != "null"
  }

  const NULL: Js.Json := Js.Plain("null")

  function TextField(key: string, text: string): Js.Member {
    Js.Member(key, Js.Text(text))
  }

  function MaybeField(key: string, text: Option<string>): seq<Js.Member> {
    if text.Some? then [TextField(key, text.value)] else []
  }

  function TextOrNull(text: Option<string>): Js.Json {
    if text.Some? then Js.Text(text.value) else NULL
  }

  function Head(kind: string, clock: Clock, i: nat): seq<Js.Member> {
    [TextField("schema_version", SCHEMA_VERSION), TextField("event_type", kind), Js.Member("recorded_at", Js.Plain(clock.stamp(i)))]
  }

  function StateName(s: CommandState): string {
    match s
    case Proposed => "proposed"
    case Authorized => "authorized"
    case Dispatched => "dispatched"
    case Verified => "verified"
    case Failed => "failed"
    case OutcomeUnknown => "outcome_unknown"
    case Cancelled => "cancelled"
  }

  /** What a record says about its origin, its payload and its progress. */
  function OriginFields(r: CommandRecord): seq<Js.Member> {
    [TextField("command_id", r.id), TextField("session_id", r.session), TextField("planner_generation", r.planner)]
  }

  function PayloadFields(r: CommandRecord): seq<Js.Member> {
    [TextField("transport_kind", "browser"), TextField("transport_payload_reference", r.payload),
     TextField("authorization_version", r.authorization)]
  }

  function ProgressFields(r: CommandRecord, clock: Clock): seq<Js.Member> {
    [Js.Member("created_at", Js.Plain(clock.show(r.createdAt))), TextField("state", StateName(r.state)),
     Js.Member("receipt_reference", TextOrNull(r.receipt)), Js.Member("binding_generation", TextOrNull(r.generation))]
  }

  function RecordFields(r: CommandRecord, clock: Clock): seq<Js.Member> {
    OriginFields(r) + (PayloadFields(r) + ProgressFields(r, clock))
  }

  function DetailFields(detail: Detail): seq<Js.Member> {
    MaybeField("receipt_reference", detail.receipt)
    + (MaybeField("binding_generation", detail.generation)
       + (MaybeField("reason", detail.reason)
          + if detail.recovered then [Js.Member("recovered_from_evidence", Js.Plain("true"))] else []))
  }

  function ChangeFields(id: string, from: CommandState, to: CommandState): seq<Js.Member> {
    [TextField("command_id", id), TextField("from_state", StateName(from)), TextField("state", StateName(to))]
  }

  function CommandLine(e: CommandEvent, clock: Clock, i: nat): Js.Json {
    match e
    case Created(r) => Js.Object(Head("command_created", clock, i) + RecordFields(r, clock))
    case Changed(id, from, to, detail) =>
      Js.Object(Head("command_state_changed", clock, i) + (ChangeFields(id, from, to) + DetailFields(detail)))
    case Unrecognised(id) => Js.Object(Head("", clock, i) + [TextField("command_id", id)])
  }

  function NameFields(b: B.Binding): seq<Js.Member> {
    [TextField("binding_id", b.id), TextField("binding_generation", b.generation), TextField("browser_profile_reference", b.profile)]
  }

  function HolderFields(b: B.Binding): seq<Js.Member> {
    [TextField("backend_identity", b.backend), TextField("session_identity", b.sessionIdentity), TextField("lease_owner", b.leaseOwner)]
  }

  function TermFields(b: B.Binding, clock: Clock): seq<Js.Member> {
    [Js.Member("capability_snapshot", b.capabilities), Js.Member("acquired_at", Js.Plain(clock.show(b.acquiredAt))),
     Js.Member("released_at", if b.releasedAt.Some? then Js.Plain(clock.show(b.releasedAt.value)) else NULL)]
  }

  function BindingFields(b: B.Binding, clock: Clock): seq<Js.Member> {
    NameFields(b) + (HolderFields(b) + TermFields(b, clock))
  }

  function BindingLine(e: B.BindingEvent, clock: Clock, i: nat): Js.Json {
    match e
    case Acquired(b) => Js.Object(Head("binding_acquired", clock, i) + BindingFields(b, clock))
    case Released(id, generation, at) =>
      Js.Object(Head("binding_released", clock, i) +
                [TextField("binding_id", id), TextField("binding_generation", generation),
                 Js.Member("released_at", Js.Plain(clock.show(at)))])
    case Unrecognised(generation) => Js.Object(Head("", clock, i) + [TextField("binding_generation", generation)])
  }

  function SourceFields(ev: Evidence): seq<Js.Member> {
    [TextField("command_id", ev.command), TextField("receipt_reference", ev.reference), TextField("receipt_schema", ev.schema)]
  }

  function FindingFields(ev: Evidence): seq<Js.Member> {
    [TextField("receipt_sha256", ev.digest), TextField("binding_generation", ev.generation),
     TextField("terminal_classification", StateName(Target(ev.classification))),
     Js.Member("verified_facts", Js.Array(ev.facts))]
  }

  function EvidenceFields(ev: Evidence): seq<Js.Member> {
    SourceFields(ev) + FindingFields(ev)
  }

  function EvidenceLine(ev: Evidence, clock: Clock, i: nat): Js.Json {
    Js.Object(Head("receipt_attached", clock, i) + EvidenceFields(ev))
  }

  /** Every member of a part of an object can be read back. */
  predicate CleanMembers(members: seq<Js.Member>) {
    forall m :: m in members ==> CleanMember(m)
  }

  lemma CleanObject(head: seq<Js.Member>, body: seq<Js.Member>)
    requires CleanMembers(head)
    ensures CleanValue(Js.Object(head + body)) <==> CleanMembers(body)
  {
    var members := head + body;
    var v := Js.Object(members);
    assert CleanValue(v) <==> forall i :: 0 <= i < |members| ==> CleanMember(members[i]);
    if CleanMembers(body) {
      assert forall i :: 0 <= i < |members| ==> members[i] in head || members[i] in body;
    }
    if CleanValue(v) {
      forall m | m in body ensures CleanMember(m) {
        assert m in members;
      }
    }
  }

  lemma HeadIsClean(kind: string, clock: Clock, i: nat)
    requires Clean(kind)
    ensures CleanMembers(Head(kind, clock, i))
  {
    assert Clean("schema_version") && Clean("event_type") && Clean("recorded_at") && Clean(SCHEMA_VERSION);
  }

  lemma StateNamesAreClean(s: CommandState)
    ensures Clean(StateName(s))
  {
  }

  lemma CleanThree(a: Js.Member, b: Js.Member, c: Js.Member)
    ensures CleanMembers([a, b, c]) <==> CleanMember(a) && CleanMember(b) && CleanMember(c)
  {
    var abc := [a, b, c];
    assert abc[0] in abc && abc[1] in abc && abc[2] in abc;
  }

  lemma CleanFour(a: Js.Member, b: Js.Member, c: Js.Member, d: Js.Member)
    ensures CleanMembers([a, b, c, d]) <==> CleanMember(a) && CleanMember(b) && CleanMember(c) && CleanMember(d)
  {
    var abcd := [a, b, c, d];
    assert abcd[0] in abcd && abcd[1] in abcd && abcd[2] in abcd && abcd[3] in abcd;
  }

  lemma OriginFieldsAreCleanIff(r: CommandRecord)
    ensures CleanMembers(OriginFields(r)) <==> Clean(r.id) && Clean(r.session) && Clean(r.planner)
  {
    assert Clean("command_id") && Clean("session_id") && Clean("planner_generation");
    CleanThree(TextField("command_id", r.id), TextField("session_id", r.session), TextField("planner_generation", r.planner));
  }

  lemma PayloadFieldsAreCleanIff(r: CommandRecord)
    ensures CleanMembers(PayloadFields(r)) <==> Clean(r.payload) && Clean(r.authorization)
  {
    assert Clean("transport_kind") && Clean("browser") && Clean("transport_payload_reference");
    assert Clean("authorization_version");
    CleanThree(TextField("transport_kind", "browser"), TextField("transport_payload_reference", r.payload),
               TextField("authorization_version", r.authorization));
  }

  lemma ProgressFieldsAreCleanIff(r: CommandRecord, clock: Clock)
    ensures CleanMembers(ProgressFields(r, clock)) <==> CleanIfAny(r.receipt) && CleanIfAny(r.generation)
  {
    assert Clean("created_at") && Clean("state") && Clean("receipt_reference") && Clean("binding_generation");
    StateNamesAreClean(r.state);
    CleanFour(Js.Member("created_at", Js.Plain(clock.show(r.createdAt))), TextField("state", StateName(r.state)),
              Js.Member("receipt_reference", TextOrNull(r.receipt)),
              Js.Member("binding_generation", TextOrNull(r.generation)));
  }

  lemma RecordFieldsAreCleanIff(r: CommandRecord, clock: Clock)
    ensures CleanMembers(RecordFields(r, clock)) <==> Legible(Created(r))
  {
    OriginFieldsAreCleanIff(r);
    PayloadFieldsAreCleanIff(r);
    ProgressFieldsAreCleanIff(r, clock);
    CleanMembersConcat(PayloadFields(r), ProgressFields(r, clock));
    CleanMembersConcat(OriginFields(r), PayloadFields(r) + ProgressFields(r, clock));
  }

  lemma ChangeFieldsAreCleanIff(id: string, from: CommandState, to: CommandState)
    ensures CleanMembers(ChangeFields(id, from, to)) <==> Clean(id)
  {
    assert Clean("command_id") && Clean("from_state") && Clean("state");
    StateNamesAreClean(from);
    StateNamesAreClean(to);
    var fields := ChangeFields(id, from, to);
    assert CleanMember(fields[0]) <==> Clean(id);
    assert CleanMember(fields[1]) && CleanMember(fields[2]);
    assert fields[0] in fields;
  }

  lemma MaybeFieldIsCleanIff(key: string, text: Option<string>)
    requires Clean(key)
    ensures CleanMembers(MaybeField(key, text)) <==> CleanIfAny(text)
  {
    if text.Some? {
      assert CleanMember(TextField(key, text.value)) <==> Clean(text.value);
      assert TextField(key, text.value) in MaybeField(key, text);
    }
  }

  lemma CleanMembersConcat(a: seq<Js.Member>, b: seq<Js.Member>)
    ensures CleanMembers(a + b) <==> CleanMembers(a) && CleanMembers(b)
  {
    if CleanMembers(a + b) {
      forall m | m in a || m in b ensures CleanMember(m) {
        assert m in a + b;
      }
    }
  }

  lemma DetailFieldsAreCleanIff(detail: Detail)
    ensures CleanMembers(DetailFields(detail)) <==> CleanDetail(detail)
  {
    assert Clean("receipt_reference") && Clean("binding_generation") && Clean("reason") && Clean("recovered_from_evidence");
    var a, b, c := MaybeField("receipt_reference", detail.receipt), MaybeField("binding_generation", detail.generation),
                   MaybeField("reason", detail.reason);
    var d := if detail.recovered then [Js.Member("recovered_from_evidence", Js.Plain("true"))] else [];
    MaybeFieldIsCleanIff("receipt_reference", detail.receipt);
    MaybeFieldIsCleanIff("binding_generation", detail.generation);
    MaybeFieldIsCleanIff("reason", detail.reason);
    assert CleanMembers(d);
    CleanMembersConcat(c, d);
    CleanMembersConcat(b, c + d);
    CleanMembersConcat(a, b + (c + d));
  }

  /** A command line can be read back exactly when its texts are clean. */
  lemma CommandLineIsCleanIff(e: CommandEvent, clock: Clock, i: nat)
    ensures CleanValue(CommandLine(e, clock, i)) <==> Legible(e)
  {
    match e
    case Created(r) =>
      HeadIsClean("command_created", clock, i);
      RecordFieldsAreCleanIff(r, clock);
      CleanObject(Head("command_created", clock, i), RecordFields(r, clock));
    case Changed(id, from, to, detail) =>
      HeadIsClean("command_state_changed", clock, i);
      ChangeFieldsAreCleanIff(id, from, to);
      DetailFieldsAreCleanIff(detail);
      CleanMembersConcat(ChangeFields(id, from, to), DetailFields(detail));
      CleanObject(Head("command_state_changed", clock, i), ChangeFields(id, from, to) + DetailFields(detail));
    case Unrecognised(id) =>
      HeadIsClean("", clock, i);
      assert Clean("command_id");
      MaybeFieldIsCleanIff("command_id", Some(id));
      CleanObject(Head("", clock, i), MaybeField("command_id", Some(id)));
  }

  lemma NameFieldsAreCleanIff(b: B.Binding)
    ensures CleanMembers(NameFields(b)) <==> Clean(b.id) && Clean(b.generation) && Clean(b.profile)
  {
    assert Clean("binding_id") && Clean("binding_generation") && Clean("browser_profile_reference");
    CleanThree(TextField("binding_id", b.id), TextField("binding_generation", b.generation),
               TextField("browser_profile_reference", b.profile));
  }

  lemma HolderFieldsAreCleanIff(b: B.Binding)
    ensures CleanMembers(HolderFields(b)) <==> Clean(b.backend) && Clean(b.sessionIdentity) && Clean(b.leaseOwner)
  {
    assert Clean("backend_identity") && Clean("session_identity") && Clean("lease_owner");
    CleanThree(TextField("backend_identity", b.backend), TextField("session_identity", b.sessionIdentity),
               TextField("lease_owner", b.leaseOwner));
  }

  lemma TermFieldsAreCleanIff(b: B.Binding, clock: Clock)
    ensures CleanMembers(TermFields(b, clock)) <==> CleanValue(b.capabilities)
  {
    assert Clean("capability_snapshot") && Clean("acquired_at") && Clean("released_at");
    var fields := TermFields(b, clock);
    CleanThree(fields[0], fields[1], fields[2]);
    assert CleanMember(fields[1]) && CleanMember(fields[2]);
    assert fields == [fields[0], fields[1], fields[2]];
  }

  lemma BindingFieldsAreCleanIff(b: B.Binding, clock: Clock)
    ensures CleanMembers(BindingFields(b, clock)) <==> B.CleanBinding(b)
  {
    NameFieldsAreCleanIff(b);
    HolderFieldsAreCleanIff(b);
    TermFieldsAreCleanIff(b, clock);
    CleanMembersConcat(HolderFields(b), TermFields(b, clock));
    CleanMembersConcat(NameFields(b), HolderFields(b) + TermFields(b, clock));
  }

  lemma BindingLineIsCleanIff(e: B.BindingEvent, clock: Clock, i: nat)
    ensures CleanValue(BindingLine(e, clock, i)) <==> B.Legible(e)
  {
    match e
    case Acquired(b) =>
      HeadIsClean("binding_acquired", clock, i);
      BindingFieldsAreCleanIff(b, clock);
      CleanObject(Head("binding_acquired", clock, i), BindingFields(b, clock));
    case Released(id, generation, at) =>
      HeadIsClean("binding_released", clock, i);
      assert Clean("binding_id") && Clean("binding_generation") && Clean("released_at");
      var fields := [TextField("binding_id", id), TextField("binding_generation", generation),
                     Js.Member("released_at", Js.Plain(clock.show(at)))];
      assert CleanMember(fields[0]) <==> Clean(id);
      assert CleanMember(fields[1]) <==> Clean(generation);
      assert CleanMember(fields[2]) && fields[0] in fields && fields[1] in fields;
      CleanObject(Head("binding_released", clock, i), fields);
    case Unrecognised(generation) =>
      HeadIsClean("", clock, i);
      assert Clean("binding_generation");
      MaybeFieldIsCleanIff("binding_generation", Some(generation));
      CleanObject(Head("", clock, i), MaybeField("binding_generation", Some(generation)));
  }

  lemma SourceFieldsAreCleanIff(ev: Evidence)
    ensures CleanMembers(SourceFields(ev)) <==> Clean(ev.command) && Clean(ev.reference) && Clean(ev.schema)
  {
    assert Clean("command_id") && Clean("receipt_reference") && Clean("receipt_schema");
    CleanThree(TextField("command_id", ev.command), TextField("receipt_reference", ev.reference), TextField("receipt_schema", ev.schema));
  }

  lemma FindingFieldsAreCleanIff(ev: Evidence)
    ensures CleanMembers(FindingFields(ev)) <==> Clean(ev.generation) && AllClean(ev.facts)
  {
    assert Clean("receipt_sha256") && Clean("binding_generation") && Clean("terminal_classification");
    assert Clean("verified_facts") && Clean(ev.digest);
    StateNamesAreClean(Target(ev.classification));
    var facts := Js.Member("verified_facts", Js.Array(ev.facts));
    assert CleanMember(facts) <==> AllClean(ev.facts);
    CleanFour(TextField("receipt_sha256", ev.digest), TextField("binding_generation", ev.generation),
              TextField("terminal_classification", StateName(Target(ev.classification))), facts);
  }

  lemma EvidenceFieldsAreCleanIff(ev: Evidence)
    ensures CleanMembers(EvidenceFields(ev)) <==> LegibleEvidence(ev)
  {
    SourceFieldsAreCleanIff(ev);
    FindingFieldsAreCleanIff(ev);
    CleanMembersConcat(SourceFields(ev), FindingFields(ev));
  }

  lemma EvidenceLineIsCleanIff(ev: Evidence, clock: Clock, i: nat)
    ensures CleanValue(EvidenceLine(ev, clock, i)) <==> LegibleEvidence(ev)
  {
    HeadIsClean("receipt_attached", clock, i);
    EvidenceFieldsAreCleanIff(ev);
    CleanObject(Head("receipt_attached", clock, i), EvidenceFields(ev));
  }

  function CommandLines(log: seq<CommandEvent>, clock: Clock): (r: seq<Js.Json>)
    ensures |r| == |log| && forall i :: 0 <= i < |r| ==> r[i] == CommandLine(log[i], clock, i)
  {
    seq(|log|, i requires 0 <= i < |log| => CommandLine(log[i], clock, i))
  }

  function BindingLines(log: seq<B.BindingEvent>, clock: Clock): (r: seq<Js.Json>)
    ensures |r| == |log| && forall i :: 0 <= i < |r| ==> r[i] == BindingLine(log[i], clock, i)
  {
    seq(|log|, i requires 0 <= i < |log| => BindingLine(log[i], clock, i))
  }

  function EvidenceLines(evidence: seq<Evidence>, clock: Clock): (r: seq<Js.Json>)
    ensures |r| == |evidence| && forall i :: 0 <= i < |r| ==> r[i] == EvidenceLine(evidence[i], clock, i)
  {
    seq(|evidence|, i requires 0 <= i < |evidence| => EvidenceLine(evidence[i], clock, i))
  }

  /** The files of the three streams read back as exactly the lines written to them if the
      streams are legible, and cannot be read otherwise. */
  lemma FilesReadBackIff(d: Disk, clock: Clock)
    ensures var lines := CommandLines(d.commands, clock);
            ReadStream(Stream(lines)) == if AllLegible(d.commands) then Some(lines) else None
    ensures var lines := BindingLines(d.bindings, clock);
            ReadStream(Stream(lines)) == if B.AllLegible(d.bindings) then Some(lines) else None
    ensures var lines := EvidenceLines(d.evidence, clock);
            ReadStream(Stream(lines)) == if AllEvidenceLegible(d.evidence) then Some(lines) else None
  {
    CommandFileReadsBackIff(d.commands, clock);
    BindingFileReadsBackIff(d.bindings, clock);
    EvidenceFileReadsBackIff(d.evidence, clock);
  }

  lemma CommandFileReadsBackIff(log: seq<CommandEvent>, clock: Clock)
    ensures ReadStream(Stream(CommandLines(log, clock))) == if AllLegible(log) then Some(CommandLines(log, clock)) else None
  {
    var lines := CommandLines(log, clock);
    StreamReadsBackIff(lines);
    forall i | 0 <= i < |log| ensures CleanValue(lines[i]) <==> Legible(log[i]) {
      CommandLineIsCleanIff(log[i], clock, i);
    }
  }

  lemma BindingFileReadsBackIff(log: seq<B.BindingEvent>, clock: Clock)
    ensures ReadStream(Stream(BindingLines(log, clock))) == if B.AllLegible(log) then Some(BindingLines(log, clock)) else None
  {
    var lines := BindingLines(log, clock);
    StreamReadsBackIff(lines);
    forall i | 0 <= i < |log| ensures CleanValue(lines[i]) <==> B.Legible(log[i]) {
      BindingLineIsCleanIff(log[i], clock, i);
    }
  }

  lemma EvidenceFileReadsBackIff(evidence: seq<Evidence>, clock: Clock)
    ensures ReadStream(Stream(EvidenceLines(evidence, clock))) ==
            if AllEvidenceLegible(evidence) then Some(EvidenceLines(evidence, clock)) else None
  {
    var lines := EvidenceLines(evidence, clock);
    StreamReadsBackIff(lines);
    forall i | 0 <= i < |evidence| ensures CleanValue(lines[i]) <==> LegibleEvidence(evidence[i]) {
      EvidenceLineIsCleanIff(evidence[i], clock, i);
    }
  }

  // ---------------------------------------------------------------------------
  // Verified facts

  predicate CleanExpectation(e: Expectation) {
    && CleanValue(e.id) && CleanValue(e.kind) && CleanValue(e.expected) && CleanValue(e.observed)
    && AllClean(e.references)
  }

  function FactFront(e: Expectation): seq<Js.Member> {
    [TextField("fact_type", "verified_expectation"), Js.Member("expectation_id", e.id), Js.Member("expectation_type", e.kind)]
  }

  function FactBack(e: Expectation): seq<Js.Member> {
    [Js.Member("expected", e.expected), Js.Member("observed", e.observed),
     Js.Member("evidence_refs", Js.Array(e.references))]
  }

  lemma FactFrontIsCleanIff(e: Expectation)
    ensures CleanMembers(FactFront(e)) <==> CleanValue(e.id) && CleanValue(e.kind)
  {
    assert Clean("fact_type") && Clean("verified_expectation") && Clean("expectation_id") && Clean("expectation_type");
    CleanThree(TextField("fact_type", "verified_expectation"), Js.Member("expectation_id", e.id),
               Js.Member("expectation_type", e.kind));
  }

  lemma FactBackIsCleanIff(e: Expectation)
    ensures CleanMembers(FactBack(e)) <==> CleanValue(e.expected) && CleanValue(e.observed) && AllClean(e.references)
  {
    assert Clean("expected") && Clean("observed") && Clean("evidence_refs");
    var references := Js.Member("evidence_refs", Js.Array(e.references));
    assert CleanMember(references) <==> AllClean(e.references);
    CleanThree(Js.Member("expected", e.expected), Js.Member("observed", e.observed), references);
  }

  lemma FactHasTwoParts(e: Expectation)
    ensures Fact(e) == Js.Object([] + (FactFront(e) + FactBack(e)))
  {
  }

  lemma FactIsCleanIff(e: Expectation)
    ensures CleanValue(Fact(e)) <==> CleanExpectation(e)
  {
    FactFrontIsCleanIff(e);
    FactBackIsCleanIff(e);
    FactHasTwoParts(e);
    CleanMembersConcat(FactFront(e), FactBack(e));
    CleanObject([], FactFront(e) + FactBack(e));
  }

  /** Every passed expectation can be read back. */
  predicate PassedAreClean(results: seq<Expectation>) {
    forall i :: 0 <= i < |results| && results[i].passed ==> CleanExpectation(results[i])
  }

  lemma AllCleanAppend(values: seq<Js.Json>, v: Js.Json)
    ensures AllClean(values + [v]) <==> AllClean(values) && CleanValue(v)
  {
    var all := values + [v];
    assert all[|values|] == v;
    assert forall i :: 0 <= i < |values| ==> all[i] == values[i];
  }

  lemma {:induction false} FactsAreCleanIff(results: seq<Expectation>)
    ensures AllClean(FactsOf(results)) <==> PassedAreClean(results)
  {
    if results != [] {
      var shorter, last := results[..|results| - 1], results[|results| - 1];
      FactsAreCleanIff(shorter);
      FactIsCleanIff(last);
      AllCleanAppend(FactsOf(shorter), Fact(last));
      assert FactsOf(shorter) + [] == FactsOf(shorter);
      assert forall i :: 0 <= i < |shorter| ==> shorter[i] == results[i];
      assert PassedAreClean(results) <==> PassedAreClean(shorter) && (last.passed ==> CleanExpectation(last));
    }
  }
}
