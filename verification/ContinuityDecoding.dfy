/** Reading the lines of a continuity session's streams back as events, key by key
    (dingdongditch/continuity.py: `commands`, `bindings` and `evidence_index`). */
module ContinuityDecoding {
  import opened Wrappers
  import opened LineStreams
  import opened CommandJournal
  import opened Continuity
  import opened ContinuityText
  import Js = JsonText
  import B = BindingJournal

  // ---------------------------------------------------------------------------
  // Looking keys up

  function ValueAt(members: seq<Js.Member>, key: string): Option<Js.Json> {
    if members == [] then None
    else if members[0].key == key then Some(members[0].value)
    else ValueAt(members[1..], key)
  }

  function TextAt(members: seq<Js.Member>, key: string): Option<string> {
    match ValueAt(members, key)
    case Some(Text(text)) => Some(text)
    case _ => None
  }

  function TimeAt(members: seq<Js.Member>, key: string, clock: Clock): Option<real> {
    match ValueAt(members, key)
    case Some(Plain(scalar)) => if scalar == "null" then None else Some(clock.read(scalar))
    case _ => None
  }

  lemma {:induction false} ValueInBoth(a: seq<Js.Member>, b: seq<Js.Member>, key: string)
    ensures ValueAt(a + b, key) == if ValueAt(a, key).Some? then ValueAt(a, key) else ValueAt(b, key)
  {
    if a == [] {
      assert a + b == b;
    } else {
      assert (a + b)[1..] == a[1..] + b;
      ValueInBoth(a[1..], b, key);
    }
  }

  lemma ValueInOne(m: Js.Member, key: string)
    ensures ValueAt([m], key) == if m.key == key then Some(m.value) else None
  {
    assert [m][1..] == [];
  }

  lemma ValueInThree(a: Js.Member, b: Js.Member, c: Js.Member, key: string)
    ensures ValueAt([a, b, c], key) ==
            if a.key == key then Some(a.value) else if b.key == key then Some(b.value)
            else if c.key == key then Some(c.value) else None
  {
    assert [a, b, c][1..] == [b, c] && [b, c][1..] == [c] && [c][1..] == [];
    ValueInOne(c, key);
    assert ValueAt([b, c], key) == if b.key == key then Some(b.value) else ValueAt([c], key);
  }

  lemma ValueInFour(a: Js.Member, b: Js.Member, c: Js.Member, d: Js.Member, key: string)
    ensures ValueAt([a, b, c, d], key) ==
            if a.key == key then Some(a.value) else if b.key == key then Some(b.value)
            else if c.key == key then Some(c.value) else if d.key == key then Some(d.value) else None
  {
    assert [a, b, c, d] == [a] + [b, c, d];
    ValueInBoth([a], [b, c, d], key);
    ValueInOne(a, key);
    ValueInThree(b, c, d, key);
  }

  // ---------------------------------------------------------------------------
  // Decoding

  function DecodeState(name: string): Option<CommandState> {
    if name == "proposed" then Some(Proposed)
    else if name == "authorized" then Some(Authorized)
    else if name == "dispatched" then Some(Dispatched)
    else if name == "verified" then Some(Verified)
    else if name == "failed" then Some(Failed)
    else if name == "outcome_unknown" then Some(OutcomeUnknown)
    else if name == "cancelled" then Some(Cancelled)
    else None
  }

  function StateAt(members: seq<Js.Member>, key: string): Option<CommandState> {
    match TextAt(members, key)
    case Some(name) => DecodeState(name)
    case None => None
  }

  function DecodeRecord(m: seq<Js.Member>, id: string, clock: Clock): Option<CommandRecord> {
    var session, planner := TextAt(m, "session_id"), TextAt(m, "planner_generation");
    var payload, authorization := TextAt(m, "transport_payload_reference"), TextAt(m, "authorization_version");
    var createdAt, state := TimeAt(m, "created_at", clock), StateAt(m, "state");
    if session.Some? && planner.Some? && payload.Some? && authorization.Some? && createdAt.Some? && state.Some? then
      Some(CommandRecord(id, session.value, planner.value, payload.value, authorization.value, createdAt.value,
                         state.value, TextAt(m, "receipt_reference"), TextAt(m, "binding_generation")))
    else None
  }

  function DecodeDetail(m: seq<Js.Member>): Detail {
    Detail(TextAt(m, "receipt_reference"), TextAt(m, "binding_generation"), TextAt(m, "reason"),
           ValueAt(m, "recovered_from_evidence").Some?)
  }

  function DecodeCommand(v: Js.Json, clock: Clock): Option<CommandEvent> {
    if !v.Object? then None
    else
      var kind, id := TextAt(v.members, "event_type"), TextAt(v.members, "command_id");
      if kind.None? || id.None? then None
      else if kind.value == "command_created" then
        match DecodeRecord(v.members, id.value, clock)
        case Some(r) => Some(Created(r))
        case None => None
      else if kind.value == "command_state_changed" then
        var from, to := StateAt(v.members, "from_state"), StateAt(v.members, "state");
        if from.Some? && to.Some? then Some(Changed(id.value, from.value, to.value, DecodeDetail(v.members))) else None
      else Some(Unrecognised(id.value))
  }

  // ---------------------------------------------------------------------------
  // Keys are different

  /** Length and first two characters, which tell the keys and names apart. */
  ghost function Tag(s: string): (nat, char, char) {
    (|s|, if |s| > 0 then s[0] else ' ', if |s| > 1 then s[1] else ' ')
  }

  lemma HeadTags()
    ensures Tag("schema_version") == (14, 's', 'c') && Tag("event_type") == (10, 'e', 'v')
    ensures Tag("recorded_at") == (11, 'r', 'e')
    ensures Tag("command_created") == (15, 'c', 'o') && Tag("command_state_changed") == (21, 'c', 'o') && Tag("") == (0, ' ', ' ')
  {
  }

  lemma RecordTags()
    ensures Tag("command_id") == (10, 'c', 'o') && Tag("session_id") == (10, 's', 'e')
    ensures Tag("planner_generation") == (18, 'p', 'l') && Tag("transport_kind") == (14, 't', 'r')
    ensures Tag("transport_payload_reference") == (27, 't', 'r') && Tag("authorization_version") == (21, 'a', 'u')
    ensures Tag("created_at") == (10, 'c', 'r') && Tag("state") == (5, 's', 't')
    ensures Tag("receipt_reference") == (17, 'r', 'e') && Tag("binding_generation") == (18, 'b', 'i')
  {
  }

  lemma ChangeTags()
    ensures Tag("from_state") == (10, 'f', 'r') && Tag("reason") == (6, 'r', 'e')
    ensures Tag("recovered_from_evidence") == (23, 'r', 'e')
  {
  }

  lemma StateNamesDecode(s: CommandState)
    ensures DecodeState(StateName(s)) == Some(s)
  {
    assert Tag("proposed") == (8, 'p', 'r') && Tag("authorized") == (10, 'a', 'u') && Tag("dispatched") == (10, 'd', 'i');
    assert Tag("verified") == (8, 'v', 'e') && Tag("failed") == (6, 'f', 'a');
    assert Tag("outcome_unknown") == (15, 'o', 'u') && Tag("cancelled") == (9, 'c', 'a');
  }

  // ---------------------------------------------------------------------------
  // Command lines

  lemma HeadValues(kind: string, clock: Clock, i: nat, key: string)
    ensures ValueAt(Head(kind, clock, i), key) ==
            if key == "schema_version" then Some(Js.Text(SCHEMA_VERSION))
            else if key == "event_type" then Some(Js.Text(kind))
            else if key == "recorded_at" then Some(Js.Plain(clock.stamp(i)))
            else None
  {
    ValueInThree(TextField("schema_version", SCHEMA_VERSION), TextField("event_type", kind),
                 Js.Member("recorded_at", Js.Plain(clock.stamp(i))), key);
  }

  lemma RecordValues(r: CommandRecord, clock: Clock, key: string)
    ensures ValueAt(RecordFields(r, clock), key) ==
            if key == "command_id" then Some(Js.Text(r.id))
            else if key == "session_id" then Some(Js.Text(r.session))
            else if key == "planner_generation" then Some(Js.Text(r.planner))
            else if key == "transport_kind" then Some(Js.Text("browser"))
            else if key == "transport_payload_reference" then Some(Js.Text(r.payload))
            else if key == "authorization_version" then Some(Js.Text(r.authorization))
            else if key == "created_at" then Some(Js.Plain(clock.show(r.createdAt)))
            else if key == "state" then Some(Js.Text(StateName(r.state)))
            else if key == "receipt_reference" then Some(TextOrNull(r.receipt))
            else if key == "binding_generation" then Some(TextOrNull(r.generation))
            else None
  {
    ValueInThree(TextField("command_id", r.id), TextField("session_id", r.session), TextField("planner_generation", r.planner), key);
    ValueInThree(TextField("transport_kind", "browser"), TextField("transport_payload_reference", r.payload),
                 TextField("authorization_version", r.authorization), key);
    ValueInFour(Js.Member("created_at", Js.Plain(clock.show(r.createdAt))), TextField("state", StateName(r.state)),
                Js.Member("receipt_reference", TextOrNull(r.receipt)),
                Js.Member("binding_generation", TextOrNull(r.generation)), key);
    ValueInBoth(PayloadFields(r), ProgressFields(r, clock), key);
    ValueInBoth(OriginFields(r), PayloadFields(r) + ProgressFields(r, clock), key);
  }

  lemma CreatedValues(r: CommandRecord, clock: Clock, i: nat, key: string)
    requires key != "schema_version" && key != "event_type" && key != "recorded_at"
    ensures ValueAt(CommandLine(Created(r), clock, i).members, key) == ValueAt(RecordFields(r, clock), key)
  {
    HeadValues("command_created", clock, i, key);
    ValueInBoth(Head("command_created", clock, i), RecordFields(r, clock), key);
  }

  lemma CreatedTexts(r: CommandRecord, clock: Clock, i: nat)
    ensures var m := CommandLine(Created(r), clock, i).members;
            && TextAt(m, "event_type") == Some("command_created") && TextAt(m, "command_id") == Some(r.id)
            && TextAt(m, "session_id") == Some(r.session) && TextAt(m, "planner_generation") == Some(r.planner)
            && TextAt(m, "transport_payload_reference") == Some(r.payload)
            && TextAt(m, "authorization_version") == Some(r.authorization)
  {
    HeadTags();
    RecordTags();
    HeadValues("command_created", clock, i, "event_type");
    ValueInBoth(Head("command_created", clock, i), RecordFields(r, clock), "event_type");
    CreatedValues(r, clock, i, "command_id");
    RecordValues(r, clock, "command_id");
    CreatedValues(r, clock, i, "session_id");
    RecordValues(r, clock, "session_id");
    CreatedValues(r, clock, i, "planner_generation");
    RecordValues(r, clock, "planner_generation");
    CreatedValues(r, clock, i, "transport_payload_reference");
    RecordValues(r, clock, "transport_payload_reference");
    CreatedValues(r, clock, i, "authorization_version");
    RecordValues(r, clock, "authorization_version");
  }

  lemma CreatedProgress(r: CommandRecord, clock: Clock, i: nat)
    requires TimesReadBack(clock)
    ensures var m := CommandLine(Created(r), clock, i).members;
            && TimeAt(m, "created_at", clock) == Some(r.createdAt) && StateAt(m, "state") == Some(r.state)
            && TextAt(m, "receipt_reference") == r.receipt && TextAt(m, "binding_generation") == r.generation
  {
    HeadTags();
    RecordTags();
    StateNamesDecode(r.state);
    CreatedValues(r, clock, i, "created_at");
    RecordValues(r, clock, "created_at");
    CreatedValues(r, clock, i, "state");
    RecordValues(r, clock, "state");
    CreatedValues(r, clock, i, "receipt_reference");
    RecordValues(r, clock, "receipt_reference");
    CreatedValues(r, clock, i, "binding_generation");
    RecordValues(r, clock, "binding_generation");
  }

  lemma DetailValues(detail: Detail, key: string)
    ensures ValueAt(DetailFields(detail), key) ==
            if key == "receipt_reference" && detail.receipt.Some? then Some(Js.Text(detail.receipt.value))
            else if key == "binding_generation" && detail.generation.Some? then Some(Js.Text(detail.generation.value))
            else if key == "reason" && detail.reason.Some? then Some(Js.Text(detail.reason.value))
            else if key == "recovered_from_evidence" && detail.recovered then Some(Js.Plain("true"))
            else None
  {
    var a, b, c := MaybeField("receipt_reference", detail.receipt), MaybeField("binding_generation", detail.generation),
                   MaybeField("reason", detail.reason);
    var d := if detail.recovered then [Js.Member("recovered_from_evidence", Js.Plain("true"))] else [];
    MaybeValue("receipt_reference", detail.receipt, key);
    MaybeValue("binding_generation", detail.generation, key);
    MaybeValue("reason", detail.reason, key);
    ValueInOne(Js.Member("recovered_from_evidence", Js.Plain("true")), key);
    ValueInBoth(c, d, key);
    ValueInBoth(b, c + d, key);
    ValueInBoth(a, b + (c + d), key);
  }

  lemma MaybeValue(name: string, text: Option<string>, key: string)
    ensures ValueAt(MaybeField(name, text), key) ==
            if text.Some? && name == key then Some(Js.Text(text.value)) else None
  {
    if text.Some? {
      ValueInOne(TextField(name, text.value), key);
    }
  }

  lemma ChangedValues(id: string, from: CommandState, to: CommandState, detail: Detail, clock: Clock, i: nat, key: string)
    requires key != "schema_version" && key != "event_type" && key != "recorded_at"
    ensures ValueAt(CommandLine(Changed(id, from, to, detail), clock, i).members, key) ==
            if key == "command_id" then Some(Js.Text(id))
            else if key == "from_state" then Some(Js.Text(StateName(from)))
            else if key == "state" then Some(Js.Text(StateName(to)))
            else ValueAt(DetailFields(detail), key)
  {
    var head, body := Head("command_state_changed", clock, i), ChangeFields(id, from, to);
    HeadValues("command_state_changed", clock, i, key);
    ValueInThree(TextField("command_id", id), TextField("from_state", StateName(from)), TextField("state", StateName(to)), key);
    ValueInBoth(body, DetailFields(detail), key);
    ValueInBoth(head, body + DetailFields(detail), key);
  }

  lemma ChangedTexts(id: string, from: CommandState, to: CommandState, detail: Detail, clock: Clock, i: nat)
    ensures var m := CommandLine(Changed(id, from, to, detail), clock, i).members;
            && TextAt(m, "event_type") == Some("command_state_changed") && TextAt(m, "command_id") == Some(id)
            && StateAt(m, "from_state") == Some(from) && StateAt(m, "state") == Some(to)
  {
    HeadTags();
    RecordTags();
    ChangeTags();
    StateNamesDecode(from);
    StateNamesDecode(to);
    var head, body := Head("command_state_changed", clock, i), ChangeFields(id, from, to) + DetailFields(detail);
    HeadValues("command_state_changed", clock, i, "event_type");
    ValueInBoth(head, body, "event_type");
    ChangedValues(id, from, to, detail, clock, i, "command_id");
    ChangedValues(id, from, to, detail, clock, i, "from_state");
    ChangedValues(id, from, to, detail, clock, i, "state");
  }

  lemma ChangedDecodes(id: string, from: CommandState, to: CommandState, detail: Detail, clock: Clock, i: nat)
    ensures DecodeCommand(CommandLine(Changed(id, from, to, detail), clock, i), clock) == Some(Changed(id, from, to, detail))
  {
    ChangedTexts(id, from, to, detail, clock, i);
    ChangedDetailDecodes(id, from, to, detail, clock, i);
    HeadTags();
  }

  lemma ChangedDetailDecodes(id: string, from: CommandState, to: CommandState, detail: Detail, clock: Clock, i: nat)
    ensures DecodeDetail(CommandLine(Changed(id, from, to, detail), clock, i).members) == detail
  {
    HeadTags();
    RecordTags();
    ChangeTags();
    ChangedValues(id, from, to, detail, clock, i, "receipt_reference");
    DetailValues(detail, "receipt_reference");
    ChangedValues(id, from, to, detail, clock, i, "binding_generation");
    DetailValues(detail, "binding_generation");
    ChangedValues(id, from, to, detail, clock, i, "reason");
    DetailValues(detail, "reason");
    ChangedValues(id, from, to, detail, clock, i, "recovered_from_evidence");
    DetailValues(detail, "recovered_from_evidence");
  }

  lemma UnrecognisedDecodes(id: string, clock: Clock, i: nat)
    ensures DecodeCommand(CommandLine(CommandJournal.Unrecognised(id), clock, i), clock) == Some(CommandJournal.Unrecognised(id))
  {
    HeadTags();
    RecordTags();
    var head, body := Head("", clock, i), [TextField("command_id", id)];
    HeadValues("", clock, i, "event_type");
    ValueInBoth(head, body, "event_type");
    HeadValues("", clock, i, "command_id");
    ValueInOne(TextField("command_id", id), "command_id");
    ValueInBoth(head, body, "command_id");
  }

  /** Every command line says exactly its event. */
  lemma CommandLineDecodes(e: CommandEvent, clock: Clock, i: nat)
    requires TimesReadBack(clock)
    ensures DecodeCommand(CommandLine(e, clock, i), clock) == Some(e)
  {
    match e
    case Created(r) =>
      CreatedTexts(r, clock, i);
      CreatedProgress(r, clock, i);
    case Changed(id, from, to, detail) => ChangedDecodes(id, from, to, detail, clock, i);
    case Unrecognised(id) => UnrecognisedDecodes(id, clock, i);
  }

  // ---------------------------------------------------------------------------
  // Binding lines

  function DecodeBinding(m: seq<Js.Member>, generation: string, clock: Clock): Option<B.Binding> {
    var id, profile, backend := TextAt(m, "binding_id"), TextAt(m, "browser_profile_reference"), TextAt(m, "backend_identity");
    var session, owner := TextAt(m, "session_identity"), TextAt(m, "lease_owner");
    var snapshot, acquiredAt := ValueAt(m, "capability_snapshot"), TimeAt(m, "acquired_at", clock);
    if id.Some? && profile.Some? && backend.Some? && session.Some? && owner.Some? && snapshot.Some? && acquiredAt.Some? then
      Some(B.Binding(id.value, generation, profile.value, backend.value, session.value, owner.value, snapshot.value,
                     acquiredAt.value, TimeAt(m, "released_at", clock)))
    else None
  }

  function DecodeBindingEvent(v: Js.Json, clock: Clock): Option<B.BindingEvent> {
    if !v.Object? then None
    else
      var kind, generation := TextAt(v.members, "event_type"), TextAt(v.members, "binding_generation");
      if kind.None? || generation.None? then None
      else if kind.value == "binding_acquired" then
        match DecodeBinding(v.members, generation.value, clock)
        case Some(b) => Some(B.Acquired(b))
        case None => None
      else if kind.value == "binding_released" then
        var id, at := TextAt(v.members, "binding_id"), TimeAt(v.members, "released_at", clock);
        if id.Some? && at.Some? then Some(B.Released(id.value, generation.value, at.value)) else None
      else Some(B.Unrecognised(generation.value))
  }

  lemma BindingTags()
    ensures Tag("binding_acquired") == (16, 'b', 'i') && Tag("binding_released") == (16, 'b', 'i')
    ensures "binding_acquired" != "binding_released"
    ensures Tag("binding_id") == (10, 'b', 'i') && Tag("binding_generation") == (18, 'b', 'i')
    ensures Tag("browser_profile_reference") == (25, 'b', 'r') && Tag("backend_identity") == (16, 'b', 'a')
    ensures Tag("session_identity") == (16, 's', 'e') && Tag("lease_owner") == (11, 'l', 'e')
    ensures Tag("capability_snapshot") == (19, 'c', 'a') && Tag("acquired_at") == (11, 'a', 'c')
    ensures Tag("released_at") == (11, 'r', 'e') && "released_at" != "recorded_at"
  {
    assert "binding_acquired"[8] == 'a' && "binding_released"[8] == 'r';
    assert "released_at"[2] == 'l' && "recorded_at"[2] == 'c';
  }

  lemma BindingValues(b: B.Binding, clock: Clock, key: string)
    ensures ValueAt(BindingFields(b, clock), key) ==
            if key == "binding_id" then Some(Js.Text(b.id))
            else if key == "binding_generation" then Some(Js.Text(b.generation))
            else if key == "browser_profile_reference" then Some(Js.Text(b.profile))
            else if key == "backend_identity" then Some(Js.Text(b.backend))
            else if key == "session_identity" then Some(Js.Text(b.sessionIdentity))
            else if key == "lease_owner" then Some(Js.Text(b.leaseOwner))
            else if key == "capability_snapshot" then Some(b.capabilities)
            else if key == "acquired_at" then Some(Js.Plain(clock.show(b.acquiredAt)))
            else if key == "released_at" then
              Some(if b.releasedAt.Some? then Js.Plain(clock.show(b.releasedAt.value)) else NULL)
            else None
  {
    ValueInThree(TextField("binding_id", b.id), TextField("binding_generation", b.generation),
                 TextField("browser_profile_reference", b.profile), key);
    ValueInThree(TextField("backend_identity", b.backend), TextField("session_identity", b.sessionIdentity),
                 TextField("lease_owner", b.leaseOwner), key);
    var terms := TermFields(b, clock);
    assert terms == [terms[0], terms[1], terms[2]];
    ValueInThree(terms[0], terms[1], terms[2], key);
    ValueInBoth(HolderFields(b), TermFields(b, clock), key);
    ValueInBoth(NameFields(b), HolderFields(b) + TermFields(b, clock), key);
  }

  lemma AcquiredValues(b: B.Binding, clock: Clock, i: nat, key: string)
    requires key != "schema_version" && key != "event_type" && key != "recorded_at"
    ensures ValueAt(BindingLine(B.Acquired(b), clock, i).members, key) == ValueAt(BindingFields(b, clock), key)
  {
    HeadValues("binding_acquired", clock, i, key);
    ValueInBoth(Head("binding_acquired", clock, i), BindingFields(b, clock), key);
  }

  lemma AcquiredTexts(b: B.Binding, clock: Clock, i: nat)
    ensures var m := BindingLine(B.Acquired(b), clock, i).members;
            && TextAt(m, "event_type") == Some("binding_acquired") && TextAt(m, "binding_generation") == Some(b.generation)
            && TextAt(m, "binding_id") == Some(b.id) && TextAt(m, "browser_profile_reference") == Some(b.profile)
            && TextAt(m, "backend_identity") == Some(b.backend)
  {
    HeadTags();
    BindingTags();
    HeadValues("binding_acquired", clock, i, "event_type");
    ValueInBoth(Head("binding_acquired", clock, i), BindingFields(b, clock), "event_type");
    AcquiredValues(b, clock, i, "binding_generation");
    BindingValues(b, clock, "binding_generation");
    AcquiredValues(b, clock, i, "binding_id");
    BindingValues(b, clock, "binding_id");
    AcquiredValues(b, clock, i, "browser_profile_reference");
    BindingValues(b, clock, "browser_profile_reference");
    AcquiredValues(b, clock, i, "backend_identity");
    BindingValues(b, clock, "backend_identity");
  }

  lemma AcquiredTerms(b: B.Binding, clock: Clock, i: nat)
    requires TimesReadBack(clock)
    ensures var m := BindingLine(B.Acquired(b), clock, i).members;
            && TextAt(m, "session_identity") == Some(b.sessionIdentity) && TextAt(m, "lease_owner") == Some(b.leaseOwner)
            && ValueAt(m, "capability_snapshot") == Some(b.capabilities)
            && TimeAt(m, "acquired_at", clock) == Some(b.acquiredAt)
  {
    HeadTags();
    BindingTags();
    AcquiredValues(b, clock, i, "session_identity");
    BindingValues(b, clock, "session_identity");
    AcquiredValues(b, clock, i, "lease_owner");
    BindingValues(b, clock, "lease_owner");
    AcquiredValues(b, clock, i, "capability_snapshot");
    BindingValues(b, clock, "capability_snapshot");
    AcquiredValues(b, clock, i, "acquired_at");
    BindingValues(b, clock, "acquired_at");
  }

  lemma AcquiredRelease(b: B.Binding, clock: Clock, i: nat)
    requires TimesReadBack(clock)
    ensures TimeAt(BindingLine(B.Acquired(b), clock, i).members, "released_at", clock) == b.releasedAt
  {
    HeadTags();
    BindingTags();
    AcquiredValues(b, clock, i, "released_at");
    BindingValues(b, clock, "released_at");
    var v := ValueAt(BindingLine(B.Acquired(b), clock, i).members, "released_at").value;
    if b.releasedAt.Some? {
      var shown := clock.show(b.releasedAt.value);
      assert v == Js.Plain(shown) && clock.read(shown) == b.releasedAt.value && shown != "null";
    } else {
      assert v == Js.Plain("null");
    }
  }

  lemma ReleasedDecodes(id: string, generation: string, at: real, clock: Clock, i: nat)
    requires TimesReadBack(clock)
    ensures DecodeBindingEvent(BindingLine(B.Released(id, generation, at), clock, i), clock) == Some(B.Released(id, generation, at))
  {
    HeadTags();
    BindingTags();
    var head := Head("binding_released", clock, i);
    var a, b, c := TextField("binding_id", id), TextField("binding_generation", generation),
                   Js.Member("released_at", Js.Plain(clock.show(at)));
    HeadValues("binding_released", clock, i, "event_type");
    ValueInBoth(head, [a, b, c], "event_type");
    HeadValues("binding_released", clock, i, "binding_generation");
    ValueInThree(a, b, c, "binding_generation");
    ValueInBoth(head, [a, b, c], "binding_generation");
    HeadValues("binding_released", clock, i, "binding_id");
    ValueInThree(a, b, c, "binding_id");
    ValueInBoth(head, [a, b, c], "binding_id");
    HeadValues("binding_released", clock, i, "released_at");
    ValueInThree(a, b, c, "released_at");
    ValueInBoth(head, [a, b, c], "released_at");
  }

  lemma OtherBindingDecodes(generation: string, clock: Clock, i: nat)
    ensures DecodeBindingEvent(BindingLine(B.Unrecognised(generation), clock, i), clock) == Some(B.Unrecognised(generation))
  {
    HeadTags();
    BindingTags();
    var head, body := Head("", clock, i), [TextField("binding_generation", generation)];
    HeadValues("", clock, i, "event_type");
    ValueInBoth(head, body, "event_type");
    HeadValues("", clock, i, "binding_generation");
    ValueInOne(TextField("binding_generation", generation), "binding_generation");
    ValueInBoth(head, body, "binding_generation");
  }

  /** Every binding line says exactly its event. */
  lemma BindingLineDecodes(e: B.BindingEvent, clock: Clock, i: nat)
    requires TimesReadBack(clock)
    ensures DecodeBindingEvent(BindingLine(e, clock, i), clock) == Some(e)
  {
    match e
    case Acquired(b) =>
      AcquiredTexts(b, clock, i);
      AcquiredTerms(b, clock, i);
      AcquiredRelease(b, clock, i);
    case Released(id, generation, at) => ReleasedDecodes(id, generation, at, clock, i);
    case Unrecognised(generation) => OtherBindingDecodes(generation, clock, i);
  }

  // ---------------------------------------------------------------------------
  // Evidence lines

  function DecodeClassification(name: string): Option<Classification> {
    if name == "verified" then Some(ReceiptVerified)
    else if name == "failed" then Some(ReceiptFailed)
    else if name == "outcome_unknown" then Some(ReceiptUnknown)
    else None
  }

  function DecodeEvidence(v: Js.Json): Option<Evidence> {
    if !v.Object? then None
    else
      var m := v.members;
      var command, reference, schema := TextAt(m, "command_id"), TextAt(m, "receipt_reference"), TextAt(m, "receipt_schema");
      var digest, generation := TextAt(m, "receipt_sha256"), TextAt(m, "binding_generation");
      var classification, facts := TextAt(m, "terminal_classification"), ValueAt(m, "verified_facts");
      if command.None? || reference.None? || schema.None? || digest.None? || generation.None? then None
      else if classification.None? || DecodeClassification(classification.value).None? || !IsHexadecimal(digest.value) then None
      else if facts.None? || !facts.value.Array? then None
      else
        Some(Evidence(command.value, reference.value, schema.value, digest.value, generation.value,
                      DecodeClassification(classification.value).value, facts.value.items))
  }

  lemma EvidenceTags()
    ensures Tag("command_id") == (10, 'c', 'o') && Tag("receipt_reference") == (17, 'r', 'e')
    ensures Tag("receipt_schema") == (14, 'r', 'e') && Tag("receipt_sha256") == (14, 'r', 'e')
    ensures Tag("binding_generation") == (18, 'b', 'i') && Tag("terminal_classification") == (23, 't', 'e')
    ensures Tag("verified_facts") == (14, 'v', 'e') && "receipt_schema" != "receipt_sha256"
  {
    assert "receipt_schema"[9] == 'c' && "receipt_sha256"[9] == 'h';
  }

  lemma EvidenceValues(ev: Evidence, clock: Clock, i: nat, key: string)
    requires key != "schema_version" && key != "event_type" && key != "recorded_at"
    ensures ValueAt(EvidenceLine(ev, clock, i).members, key) ==
            if key == "command_id" then Some(Js.Text(ev.command))
            else if key == "receipt_reference" then Some(Js.Text(ev.reference))
            else if key == "receipt_schema" then Some(Js.Text(ev.schema))
            else if key == "receipt_sha256" then Some(Js.Text(ev.digest))
            else if key == "binding_generation" then Some(Js.Text(ev.generation))
            else if key == "terminal_classification" then Some(Js.Text(StateName(Target(ev.classification))))
            else if key == "verified_facts" then Some(Js.Array(ev.facts))
            else None
  {
    HeadValues("receipt_attached", clock, i, key);
    ValueInThree(TextField("command_id", ev.command), TextField("receipt_reference", ev.reference),
                 TextField("receipt_schema", ev.schema), key);
    ValueInFour(TextField("receipt_sha256", ev.digest), TextField("binding_generation", ev.generation),
                TextField("terminal_classification", StateName(Target(ev.classification))),
                Js.Member("verified_facts", Js.Array(ev.facts)), key);
    ValueInBoth(SourceFields(ev), FindingFields(ev), key);
    ValueInBoth(Head("receipt_attached", clock, i), EvidenceFields(ev), key);
  }

  lemma ClassificationsDecode(c: Classification)
    ensures DecodeClassification(StateName(Target(c))) == Some(c)
  {
    assert Tag("verified") == (8, 'v', 'e') && Tag("failed") == (6, 'f', 'a') && Tag("outcome_unknown") == (15, 'o', 'u');
  }

  lemma EvidenceSources(ev: Evidence, clock: Clock, i: nat)
    ensures var m := EvidenceLine(ev, clock, i).members;
            && TextAt(m, "command_id") == Some(ev.command) && TextAt(m, "receipt_reference") == Some(ev.reference)
            && TextAt(m, "receipt_schema") == Some(ev.schema) && TextAt(m, "receipt_sha256") == Some(ev.digest)
  {
    HeadTags();
    EvidenceTags();
    EvidenceValues(ev, clock, i, "command_id");
    EvidenceValues(ev, clock, i, "receipt_reference");
    EvidenceValues(ev, clock, i, "receipt_schema");
    EvidenceValues(ev, clock, i, "receipt_sha256");
  }

  lemma EvidenceFindings(ev: Evidence, clock: Clock, i: nat)
    ensures var m := EvidenceLine(ev, clock, i).members;
            && TextAt(m, "binding_generation") == Some(ev.generation)
            && TextAt(m, "terminal_classification") == Some(StateName(Target(ev.classification)))
            && ValueAt(m, "verified_facts") == Some(Js.Array(ev.facts))
  {
    HeadTags();
    EvidenceTags();
    EvidenceValues(ev, clock, i, "binding_generation");
    EvidenceValues(ev, clock, i, "terminal_classification");
    EvidenceValues(ev, clock, i, "verified_facts");
  }

  /** Every evidence line says exactly its evidence. */
  lemma EvidenceLineDecodes(ev: Evidence, clock: Clock, i: nat)
    ensures DecodeEvidence(EvidenceLine(ev, clock, i)) == Some(ev)
  {
    EvidenceSources(ev, clock, i);
    EvidenceFindings(ev, clock, i);
    ClassificationsDecode(ev.classification);
  }

  // ---------------------------------------------------------------------------
  // Files

  /** The values decoded one by one, if all of them can be. */
  function DecodeAll<E>(decode: Js.Json -> Option<E>, values: seq<Js.Json>): Option<seq<E>> {
    if values == [] then Some([])
    else
      var first, rest := decode(values[0]), DecodeAll(decode, values[1..]);
      if first.Some? && rest.Some? then Some([first.value] + rest.value) else None
  }

  lemma {:induction false} AllDecode<E>(decode: Js.Json -> Option<E>, values: seq<Js.Json>, events: seq<E>)
    requires |values| == |events| && forall i :: 0 <= i < |events| ==> decode(values[i]) == Some(events[i])
    ensures DecodeAll(decode, values) == Some(events)
    decreases |values|
  {
    if values != [] {
      AllDecode(decode, values[1..], events[1..]);
      assert events == [events[0]] + events[1..];
    }
  }

  /** Reading a file: its lines, parsed and decoded. */
  function ReadFile<E>(decode: Js.Json -> Option<E>, text: string): Option<seq<E>> {
    match ReadStream(text)
    case None => None
    case Some(values) => DecodeAll(decode, values)
  }

  /** What was written to the three files is read back, event by event, if the streams are
      legible, and cannot be read otherwise. */
  lemma FilesAreReadBack(d: Disk, clock: Clock)
    requires TimesReadBack(clock)
    ensures ReadFile(v => DecodeCommand(v, clock), Stream(CommandLines(d.commands, clock))) ==
            if AllLegible(d.commands) then Some(d.commands) else None
    ensures ReadFile(v => DecodeBindingEvent(v, clock), Stream(BindingLines(d.bindings, clock))) ==
            if B.AllLegible(d.bindings) then Some(d.bindings) else None
    ensures ReadFile(DecodeEvidence, Stream(EvidenceLines(d.evidence, clock))) ==
            if AllEvidenceLegible(d.evidence) then Some(d.evidence) else None
  {
    CommandsAreReadBack(d.commands, clock);
    BindingsAreReadBack(d.bindings, clock);
    EvidenceIsReadBack(d.evidence, clock);
  }

  lemma CommandsAreReadBack(log: seq<CommandEvent>, clock: Clock)
    requires TimesReadBack(clock)
    ensures ReadFile(v => DecodeCommand(v, clock), Stream(CommandLines(log, clock))) ==
            if AllLegible(log) then Some(log) else None
  {
    CommandFileReadsBackIff(log, clock);
    forall i | 0 <= i < |log| ensures DecodeCommand(CommandLines(log, clock)[i], clock) == Some(log[i]) {
      CommandLineDecodes(log[i], clock, i);
    }
    AllDecode(v => DecodeCommand(v, clock), CommandLines(log, clock), log);
  }

  lemma BindingsAreReadBack(log: seq<B.BindingEvent>, clock: Clock)
    requires TimesReadBack(clock)
    ensures ReadFile(v => DecodeBindingEvent(v, clock), Stream(BindingLines(log, clock))) ==
            if B.AllLegible(log) then Some(log) else None
  {
    BindingFileReadsBackIff(log, clock);
    forall i | 0 <= i < |log| ensures DecodeBindingEvent(BindingLines(log, clock)[i], clock) == Some(log[i]) {
      BindingLineDecodes(log[i], clock, i);
    }
    AllDecode(v => DecodeBindingEvent(v, clock), BindingLines(log, clock), log);
  }

  lemma EvidenceIsReadBack(evidence: seq<Evidence>, clock: Clock)
    ensures ReadFile(DecodeEvidence, Stream(EvidenceLines(evidence, clock))) ==
            if AllEvidenceLegible(evidence) then Some(evidence) else None
  {
    EvidenceFileReadsBackIff(evidence, clock);
    forall i | 0 <= i < |evidence| ensures DecodeEvidence(EvidenceLines(evidence, clock)[i]) == Some(evidence[i]) {
      EvidenceLineDecodes(evidence[i], clock, i);
    }
    AllDecode(DecodeEvidence, EvidenceLines(evidence, clock), evidence);
  }
}
