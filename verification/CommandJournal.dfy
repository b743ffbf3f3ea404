/** The command stream of a continuity session and its replay
    (dingdongditch/continuity.py: the state tables and `commands`). */
module CommandJournal {
  import opened Wrappers
  import opened LineStreams

  datatype CommandState =
    | Proposed
    | Authorized
    | Dispatched
    | Verified
    | Failed
    | OutcomeUnknown
    | Cancelled

  /** The transition table. */
  predicate Allowed(from: CommandState, to: CommandState) {
    match from
    case Proposed => to == Authorized || to == Cancelled
    case Authorized => to == Dispatched || to == Cancelled
    case Dispatched => to == Verified || to == Failed || to == OutcomeUnknown
    case _ => false
  }

  predicate Terminal(s: CommandState) {
    s == Verified || s == Failed || s == OutcomeUnknown || s == Cancelled
  }

  datatype CommandRecord = CommandRecord(
    id: string,
    session: string,
    planner: string,
    payload: string,
    authorization: string,
    createdAt: real,
    state: CommandState,
    receipt: Option<string>,
    generation: Option<string>)

  type Records = map<string, CommandRecord>

  /** What a change says besides the states; `None` means that the key is absent. */
  datatype Detail = Detail(receipt: Option<string>, generation: Option<string>, reason: Option<string>, recovered: bool)

  const PLAIN: Detail := Detail(None, None, None, false)

  function UnderGeneration(generation: string): Detail {
    PLAIN.(generation := Some(generation))
  }

  function WithReceipt(reference: string): Detail {
    PLAIN.(receipt := Some(reference))
  }

  function Because(reason: string): Detail {
    PLAIN.(reason := Some(reason))
  }

  /** One line of the stream. */
  datatype CommandEvent =
    | Created(record: CommandRecord)
    | Changed(command: string, from: CommandState, to: CommandState, detail: Detail)
    | Unrecognised(command: string)
  {
    function Id(): string {
      if Created? then record.id else command
    }
  }

  datatype ReplayError = DuplicateCreation | BrokenChain | IllegalTransition

  function Or<T>(first: Option<T>, second: Option<T>): Option<T> {
    if first.Some? then first else second
  }

  function Advance(r: CommandRecord, to: CommandState, detail: Detail): CommandRecord {
    r.(state := to, receipt := Or(detail.receipt, r.receipt), generation := Or(detail.generation, r.generation))
  }

  function Apply(records: Records, e: CommandEvent): Result<Records, ReplayError> {
    match e
    case Created(r) =>
      if r.id in records then Failure(DuplicateCreation)
      else Success(records[r.id := r.(receipt := None, generation := None)])
    case Changed(id, from, to, detail) =>
      if id !in records || records[id].state != from then Failure(BrokenChain)
      else if !Allowed(from, to) then Failure(IllegalTransition)
      else Success(records[id := Advance(records[id], to, detail)])
    case Unrecognised(_) => Success(records)
  }

  function Replay(log: seq<CommandEvent>): Result<Records, ReplayError> {
    if log == [] then Success(map[])
    else
      match Replay(log[..|log| - 1])
      case Failure(e) => Failure(e)
      case Success(records) => Apply(records, log[|log| - 1])
  }

  lemma ReplayAppend(log: seq<CommandEvent>, e: CommandEvent)
    ensures Replay(log + [e]) ==
            match Replay(log)
            case Failure(err) => Failure(err)
            case Success(records) => Apply(records, e)
  {
    assert (log + [e])[..|log|] == log;
  }

  lemma ReplayFailsEarly(log: seq<CommandEvent>, i: nat)
    requires i <= |log|
    ensures Replay(log[..i]).Failure? ==> Replay(log) == Replay(log[..i])
  {
    FailsEarly(Replay, log, i);
  }

  /** The replay loop: one pass over the lines, updating a dictionary of records. */
  method ReplayLoop(log: seq<CommandEvent>) returns (r: Result<Records, ReplayError>)
    ensures r == Replay(log)
  {
    var records: Records := map[];
    for i := 0 to |log|
      invariant Replay(log[..i]) == Success(records)
    {
      var e := log[i];
      ReplayAppend(log[..i], e);
      assert log[..i] + [e] == log[..i + 1];
      ReplayFailsEarly(log, i + 1);
      match e {
        case Created(record) =>
          if record.id in records {
            return Failure(DuplicateCreation);
          }
          records := records[record.id := record.(receipt := None, generation := None)];
        case Changed(id, from, to, detail) =>
          if id !in records || records[id].state != from {
            return Failure(BrokenChain);
          }
          if !Allowed(from, to) {
            return Failure(IllegalTransition);
          }
          records := records[id := Advance(records[id], to, detail)];
        case Unrecognised(_) =>
      }
    }
    assert log[..|log|] == log;
    r := Success(records);
  }

  // ---------------------------------------------------------------------------
  // What replay means, read off the lines without any dictionary.

  /** The state named by the most recent line about `id`. */
  ghost function LatestState(log: seq<CommandEvent>, id: string): Option<CommandState> {
    if log == [] then None
    else
      var e := log[|log| - 1];
      if e.Unrecognised? || e.Id() != id then LatestState(log[..|log| - 1], id)
      else if e.Created? then Some(e.record.state)
      else Some(e.to)
  }

  ghost predicate Fits(before: seq<CommandEvent>, e: CommandEvent) {
    match e
    case Created(r) => LatestState(before, r.id) == None
    case Changed(id, from, to, _) => LatestState(before, id) == Some(from) && Allowed(from, to)
    case Unrecognised(_) => true
  }

  /** Every command is created once, before anything else happens to it, and every
      change starts where the previous line left the command and follows the table. */
  ghost predicate WellChained(log: seq<CommandEvent>) {
    EachFits(Fits, log)
  }

  /** The dictionary holds exactly the states that the lines name last. */
  ghost predicate Tells(records: Records, log: seq<CommandEvent>) {
    forall id :: (if id in records then Some(records[id].state) else None) == LatestState(log, id)
  }

  lemma LatestStateAppend(log: seq<CommandEvent>, e: CommandEvent, id: string)
    ensures LatestState(log + [e], id) ==
            if e.Unrecognised? || e.Id() != id then LatestState(log, id)
            else if e.Created? then Some(e.record.state)
            else Some(e.to)
  {
    assert (log + [e])[..|log|] == log;
  }

  lemma ApplyTells(records: Records, log: seq<CommandEvent>, e: CommandEvent)
    requires Tells(records, log)
    ensures Apply(records, e).Success? <==> Fits(log, e)
    ensures Apply(records, e).Success? ==> Tells(Apply(records, e).value, log + [e])
  {
    if Apply(records, e).Success? {
      var after := Apply(records, e).value;
      forall id ensures (if id in after then Some(after[id].state) else None) == LatestState(log + [e], id) {
        LatestStateAppend(log, e, id);
      }
    }
  }

  lemma {:induction false} ReplayMeaning(log: seq<CommandEvent>)
    ensures Replay(log).Success? <==> WellChained(log)
    ensures Replay(log).Success? ==>
              forall id ::
                (if id in Replay(log).value then Some(Replay(log).value[id].state) else None)
                == LatestState(log, id)
  {
    if log != [] {
      var shorter, e := log[..|log| - 1], log[|log| - 1];
      ReplayMeaning(shorter);
      assert log == shorter + [e];
      EachFitsAppend(Fits, shorter, e);
      if Replay(shorter).Success? {
        ApplyTells(Replay(shorter).value, shorter, e);
      }
    }
  }

  // ---------------------------------------------------------------------------
  // The whole record, read off the lines

  /** The record in the creation line of `id`. */
  ghost function CreationOf(log: seq<CommandEvent>, id: string): Option<CommandRecord> {
    if log == [] then None
    else
      var e := log[|log| - 1];
      if e.Created? && e.record.id == id then Some(e.record) else CreationOf(log[..|log| - 1], id)
  }

  /** The receipt named by the last change of `id` that names one. */
  ghost function ReceiptNamed(log: seq<CommandEvent>, id: string): Option<string> {
    if log == [] then None
    else
      var e := log[|log| - 1];
      if e.Changed? && e.command == id && e.detail.receipt.Some? then e.detail.receipt
      else ReceiptNamed(log[..|log| - 1], id)
  }

  /** The generation named by the last change of `id` that names one. */
  ghost function GenerationNamed(log: seq<CommandEvent>, id: string): Option<string> {
    if log == [] then None
    else
      var e := log[|log| - 1];
      if e.Changed? && e.command == id && e.detail.generation.Some? then e.detail.generation
      else GenerationNamed(log[..|log| - 1], id)
  }

  /** The record says what the lines about its command say. */
  ghost predicate SaysWhatLinesSay(r: CommandRecord, log: seq<CommandEvent>, id: string) {
    && r.id == id
    && CreationOf(log, id).Some?
    && r.session == CreationOf(log, id).value.session && r.planner == CreationOf(log, id).value.planner
    && r.payload == CreationOf(log, id).value.payload && r.authorization == CreationOf(log, id).value.authorization
    && r.createdAt == CreationOf(log, id).value.createdAt
    && Some(r.state) == LatestState(log, id)
    && r.receipt == ReceiptNamed(log, id) && r.generation == GenerationNamed(log, id)
  }

  lemma LinesAppend(log: seq<CommandEvent>, e: CommandEvent, id: string)
    ensures CreationOf(log + [e], id) ==
            if e.Created? && e.record.id == id then Some(e.record) else CreationOf(log, id)
    ensures ReceiptNamed(log + [e], id) ==
            if e.Changed? && e.command == id && e.detail.receipt.Some? then e.detail.receipt else ReceiptNamed(log, id)
    ensures GenerationNamed(log + [e], id) ==
            if e.Changed? && e.command == id && e.detail.generation.Some? then e.detail.generation
            else GenerationNamed(log, id)
  {
    assert (log + [e])[..|log|] == log;
  }

  /** Nothing is named about a command before its creation. */
  ghost predicate NothingNamed(log: seq<CommandEvent>, id: string) {
    ReceiptNamed(log, id) == None && GenerationNamed(log, id) == None
  }

  lemma ApplySays(records: Records, log: seq<CommandEvent>, e: CommandEvent, id: string)
    requires Apply(records, e).Success?
    requires if id in records then SaysWhatLinesSay(records[id], log, id) else NothingNamed(log, id)
    ensures var after := Apply(records, e).value;
            if id in after then SaysWhatLinesSay(after[id], log + [e], id) else NothingNamed(log + [e], id)
  {
    LatestStateAppend(log, e, id);
    LinesAppend(log, e, id);
  }

  lemma {:induction false} RecordsSayWhatLinesSay(log: seq<CommandEvent>, id: string)
    requires Replay(log).Success?
    ensures if id in Replay(log).value then SaysWhatLinesSay(Replay(log).value[id], log, id) else NothingNamed(log, id)
  {
    if log != [] {
      var shorter, e := log[..|log| - 1], log[|log| - 1];
      RecordsSayWhatLinesSay(shorter, id);
      assert log == shorter + [e];
      ApplySays(Replay(shorter).value, shorter, e, id);
    }
  }

  /** Every replayed record is that of its creation line in everything but its state, which the
      last line about it names, and its receipt and generation, which are those of the last
      change that names one. */
  lemma RecordMeaning(log: seq<CommandEvent>, id: string)
    requires Replay(log).Success?
    ensures id in Replay(log).value <==> LatestState(log, id).Some?
    ensures id in Replay(log).value ==> SaysWhatLinesSay(Replay(log).value[id], log, id)
  {
    ReplayMeaning(log);
    RecordsSayWhatLinesSay(log, id);
  }

  // ---------------------------------------------------------------------------
  // Lives of commands

  /** The states that the lines about a command name, oldest first. */
  ghost function History(log: seq<CommandEvent>, id: string): seq<CommandState> {
    if log == [] then []
    else
      var e, before := log[|log| - 1], History(log[..|log| - 1], id);
      if e.Unrecognised? || e.Id() != id then before
      else if e.Created? then before + [e.record.state]
      else before + [e.to]
  }

  /** A command is proposed, perhaps authorised, perhaps dispatched, and then verified, failed or
      of unknown outcome; before it is dispatched it may be cancelled instead. */
  ghost predicate IsLife(h: seq<CommandState>) {
    || h <= [Proposed, Authorized, Dispatched, Verified]
    || h <= [Proposed, Authorized, Dispatched, Failed]
    || h <= [Proposed, Authorized, Dispatched, OutcomeUnknown]
    || h <= [Proposed, Authorized, Cancelled]
    || h <= [Proposed, Cancelled]
  }

  /** Every command is created as proposed. */
  ghost predicate CreatesProposed(log: seq<CommandEvent>) {
    forall i :: 0 <= i < |log| && log[i].Created? ==> log[i].record.state == Proposed
  }

  lemma LifeGoesOn(h: seq<CommandState>, to: CommandState)
    requires IsLife(h) && h != [] && Allowed(h[|h| - 1], to)
    ensures IsLife(h + [to])
  {
    assert |h| <= 4;
  }

  ghost function LastOf(h: seq<CommandState>): Option<CommandState> {
    if h == [] then None else Some(h[|h| - 1])
  }

  lemma HistoryAppend(log: seq<CommandEvent>, e: CommandEvent, id: string)
    ensures History(log + [e], id) ==
            if e.Unrecognised? || e.Id() != id then History(log, id)
            else if e.Created? then History(log, id) + [e.record.state]
            else History(log, id) + [e.to]
  {
    assert (log + [e])[..|log|] == log;
  }

  lemma LifeStep(log: seq<CommandEvent>, e: CommandEvent, id: string)
    requires IsLife(History(log, id)) && LatestState(log, id) == LastOf(History(log, id))
    requires Fits(log, e) && (e.Created? ==> e.record.state == Proposed)
    ensures IsLife(History(log + [e], id)) && LatestState(log + [e], id) == LastOf(History(log + [e], id))
  {
    HistoryAppend(log, e, id);
    LatestStateAppend(log, e, id);
    var h := History(log, id);
    if e.Changed? && e.command == id {
      LifeGoesOn(h, e.to);
    } else if e.Created? && e.record.id == id {
      assert h == [] && h + [Proposed] == [Proposed];
    }
  }

  /** In every journal that replays and creates commands as proposed, the states that the lines
      about a command name are one of these lives. */
  lemma {:induction false} HistoriesAreLives(log: seq<CommandEvent>, id: string)
    requires Replay(log).Success? && CreatesProposed(log)
    ensures IsLife(History(log, id)) && LatestState(log, id) == LastOf(History(log, id))
  {
    if log != [] {
      var shorter, e := log[..|log| - 1], log[|log| - 1];
      HistoriesAreLives(shorter, id);
      assert log == shorter + [e];
      assert Fits(shorter, e) by {
        ReplayMeaning(log);
        EachFitsAppend(Fits, shorter, e);
      }
      LifeStep(shorter, e, id);
    }
  }

  // ---------------------------------------------------------------------------
  // Every command's life is short and ends for good.

  /** How many more changes the table lets a command make. */
  function Remaining(s: CommandState): nat {
    match s
    case Proposed => 3
    case Authorized => 2
    case Dispatched => 1
    case _ => 0
  }

  /** The number of creation and change lines about `id`. */
  ghost function Lines(log: seq<CommandEvent>, id: string): nat {
    if log == [] then 0
    else
      var e := log[|log| - 1];
      Lines(log[..|log| - 1], id) + if e.Unrecognised? || e.Id() != id then 0 else 1
  }

  lemma {:induction false} LinesBound(log: seq<CommandEvent>, id: string)
    requires Replay(log).Success?
    ensures id !in Replay(log).value ==> Lines(log, id) == 0
    ensures id in Replay(log).value ==> 1 <= Lines(log, id) + Remaining(Replay(log).value[id].state) <= 4
    ensures Lines(log, id) <= 4
  {
    if log != [] {
      LinesBound(log[..|log| - 1], id);
    }
  }

  lemma TerminalStays(records: Records, e: CommandEvent, id: string)
    requires id in records && Terminal(records[id].state) && Apply(records, e).Success?
    ensures id in Apply(records, e).value && Apply(records, e).value[id] == records[id]
  {
  }

  lemma {:induction false} TerminalSincePrefix(log: seq<CommandEvent>, n: nat, id: string)
    requires n <= |log| && Replay(log).Success? && Replay(log[..n]).Success?
    requires id in Replay(log[..n]).value && Terminal(Replay(log[..n]).value[id].state)
    ensures id in Replay(log).value && Replay(log).value[id] == Replay(log[..n]).value[id]
    decreases |log|
  {
    if n == |log| {
      assert log[..n] == log;
    } else {
      var shorter := log[..|log| - 1];
      assert shorter[..n] == log[..n];
      TerminalSincePrefix(shorter, n, id);
      TerminalStays(Replay(shorter).value, log[|log| - 1], id);
    }
  }

  /** A terminal record is the same in the replay of every valid extension. */
  lemma TerminalIsFinal(log: seq<CommandEvent>, more: seq<CommandEvent>, id: string)
    requires Replay(log).Success? && Replay(log + more).Success?
    requires id in Replay(log).value && Terminal(Replay(log).value[id].state)
    ensures id in Replay(log + more).value
    ensures Replay(log + more).value[id] == Replay(log).value[id]
  {
    assert (log + more)[..|log|] == log;
    TerminalSincePrefix(log + more, |log|, id);
  }

  // ---------------------------------------------------------------------------
  // The order in which a replayed dictionary lists its records.

  /** Command ids in order of creation: the iteration order of the dictionary. */
  function CreationOrder(log: seq<CommandEvent>): seq<string> {
    if log == [] then []
    else
      var e := log[|log| - 1];
      CreationOrder(log[..|log| - 1]) + if e.Created? then [e.record.id] else []
  }

  lemma {:induction false} CreationOrderListsRecords(log: seq<CommandEvent>)
    requires Replay(log).Success?
    ensures forall id :: id in CreationOrder(log) <==> id in Replay(log).value
    ensures forall i, j :: 0 <= i < j < |CreationOrder(log)| ==> CreationOrder(log)[i] != CreationOrder(log)[j]
    ensures forall id :: id in Replay(log).value ==> Replay(log).value[id].id == id
  {
    if log != [] {
      CreationOrderListsRecords(log[..|log| - 1]);
    }
  }

  // ---------------------------------------------------------------------------
  // Lines that can be read back

  predicate CleanIfAny(s: Option<string>) {
    s.Some? ==> Clean(s.value)
  }

  predicate CleanDetail(detail: Detail) {
    CleanIfAny(detail.receipt) && CleanIfAny(detail.generation) && CleanIfAny(detail.reason)
  }

  /** No text in the line ends a line. */
  predicate Legible(e: CommandEvent) {
    match e
    case Created(r) =>
      && Clean(r.id) && Clean(r.session) && Clean(r.planner) && Clean(r.payload) && Clean(r.authorization)
      && CleanIfAny(r.receipt) && CleanIfAny(r.generation)
    case Changed(id, _, _, detail) => Clean(id) && CleanDetail(detail)
    case Unrecognised(id) => Clean(id)
  }

  predicate AllLegible(log: seq<CommandEvent>) {
    forall i :: 0 <= i < |log| ==> Legible(log[i])
  }

  lemma AllLegibleAppend(log: seq<CommandEvent>, e: CommandEvent)
    ensures AllLegible(log + [e]) <==> AllLegible(log) && Legible(e)
  {
    var longer := log + [e];
    assert longer[|log|] == e;
    assert forall i :: 0 <= i < |log| ==> longer[i] == log[i];
  }

  /** In a legible journal the names of commands and their generations are clean. */
  lemma {:induction false} NamesAreClean(log: seq<CommandEvent>)
    requires AllLegible(log) && Replay(log).Success?
    ensures forall id :: id in Replay(log).value ==> Clean(id) && CleanIfAny(Replay(log).value[id].generation)
  {
    if log != [] {
      NamesAreClean(log[..|log| - 1]);
      assert Legible(log[|log| - 1]);
    }
  }
}
