/** The bounded network log with its correlation index
    (dingdongditch/backends/playwright_backend.py: the event handlers inside `_start`). */
module NetworkLog {
  import opened Wrappers

  /** The correlation key of a browser request. */
  type Key = string

  const LIMIT: nat := 512

  /** How many of n created records the log is meant to keep. */
  function Kept(n: nat): nat {
    if n <= LIMIT then n else LIMIT
  }

  // ---------------------------------------------------------------------------
  // The log as a value

  /** A record with the key it was created under. */
  datatype Entry = Entry(
    key: Key,
    requestMethod: string,
    url: string,
    requestObserved: bool,
    status: Option<int>,
    contentType: Option<string>,
    failed: bool)

  /** What can be read off a response before reading raises, if it does. */
  datatype Answer = Unreadable | StatusOnly(status: int) | Whole(status: int, contentType: Option<string>)

  datatype Event =
    | Request(key: Key, requestMethod: string, url: string)
    | Response(key: Key, requestMethod: string, url: string, answer: Answer)
    | RequestFailed(key: Key)

  /** Everything ever created, oldest first, and how many of the newest are still in the list. */
  datatype State = State(created: seq<Entry>, kept: nat)

  const EMPTY: State := State([], 0)

  function LastWith(entries: seq<Entry>, key: Key): (r: Option<nat>)
    ensures r.None? ==> forall j :: 0 <= j < |entries| ==> entries[j].key != key
    ensures r.Some? ==> r.value < |entries| && entries[r.value].key == key
    ensures r.Some? ==> forall j :: r.value < j < |entries| ==> entries[j].key != key
  {
    if entries == [] then None
    else if entries[|entries| - 1].key == key then Some(|entries| - 1)
    else LastWith(entries[..|entries| - 1], key)
  }

  predicate Retained(s: State, i: nat) {
    |s.created| - s.kept <= i < |s.created|
  }

  /** The record that the index names for a key: the newest one of that key, if it is still in
      the list. */
  function Named(s: State, key: Key): Option<nat> {
    var last := LastWith(s.created, key);
    if last.Some? && Retained(s, last.value) then last else None
  }

  function Trimmed(s: State): State {
    s.(kept := Kept(s.kept))
  }

  function Added(s: State, e: Entry): State {
    State(s.created + [e], s.kept + 1)
  }

  function NewEntry(key: Key, requestMethod: string, url: string, requestObserved: bool): Entry {
    Entry(key, requestMethod, url, requestObserved, None, None, false)
  }

  function Answered(e: Entry, answer: Answer): Entry {
    match answer
    case Unreadable => e
    case StatusOnly(status) => e.(status := Some(status))
    case Whole(status, contentType) => e.(status := Some(status), contentType := contentType)
  }

  function AnswerAt(s: State, i: nat, answer: Answer): State
    requires i < |s.created|
  {
    var answered := s.(created := s.created[i := Answered(s.created[i], answer)]);
    if answer.Whole? then Trimmed(answered) else answered
  }

  function Apply(s: State, e: Event): State {
    match e
    case Request(key, requestMethod, url) => Trimmed(Added(s, NewEntry(key, requestMethod, url, true)))
    case Response(key, requestMethod, url, answer) =>
      (match Named(s, key)
       case Some(i) => AnswerAt(s, i, answer)
       case None => AnswerAt(Added(s, NewEntry(key, requestMethod, url, false)), |s.created|, answer))
    case RequestFailed(key) =>
      (match Named(s, key)
       case Some(i) => s.(created := s.created[i := s.created[i].(failed := true)])
       case None => s)
  }

  function After(s: State, run: seq<Event>): State {
    if run == [] then s else Apply(After(s, run[..|run| - 1]), run[|run| - 1])
  }

  // ---------------------------------------------------------------------------
  // The log as the handlers keep it

  /** A record is an object: a response or a failure updates it in place, through the index,
      while it sits in the list. */
  class NetworkRecord {
    const requestMethod: string
    const url: string
    const requestObserved: bool
    var status: Option<int>
    var contentType: Option<string>
    var failed: bool

    constructor (requestMethod: string, url: string, requestObserved: bool)
      ensures this.requestMethod == requestMethod && this.url == url && this.requestObserved == requestObserved
      ensures status == None && contentType == None && !failed
    {
      this.requestMethod, this.url, this.requestObserved := requestMethod, url, requestObserved;
      status, contentType, failed := None, None, false;
    }

    ghost function AsEntry(key: Key): Entry
      reads this
    {
      Entry(key, requestMethod, url, requestObserved, status, contentType, failed)
    }
  }

  class Log {
    var records: seq<NetworkRecord>
    var index: map<Key, NetworkRecord>

    /** Every record ever created, oldest first, and what the log holds as a value. */
    ghost var created: seq<NetworkRecord>
    ghost var contents: State

    /** Records are distinct objects that show what the value says, the list is the tail of
        everything created, and the index is exactly the one the value names. */
    ghost predicate Valid()
      reads this, created
    {
      && Distinct(created)
      && Shows(created, contents.created)
      && contents.kept == |records| <= |created|
      && records == created[|created| - |records|..]
      && Indexed(index, created, contents)
    }

    /** The retained record that a key stands for, if any. */
    ghost function Indicated(key: Key): set<NetworkRecord>
      reads this
    {
      if key in index then {index[key]} else {}
    }

    constructor ()
      ensures Valid()
      ensures contents == EMPTY
    {
      records, index, created, contents := [], map[], [], EMPTY;
      new;
      assert index == map[];
    }

    method Append(record: NetworkRecord, key: Key)
      requires Valid() && record !in created
      modifies this
      ensures Valid()
      ensures created == old(created) + [record]
      ensures contents == Added(old(contents), record.AsEntry(key))
    {
      AppendedIndex(index, created, contents, record, record.AsEntry(key));
      records := records + [record];
      index := index[key := record];
      created := created + [record];
      contents := Added(contents, record.AsEntry(key));
    }

    /** Drop the oldest records beyond the limit, and every index entry that names one. */
    method Trim()
      requires Valid()
      modifies this`records, this`index, this`contents
      ensures Valid() && contents == Trimmed(old(contents))
    {
      if |records| <= LIMIT {
        return;
      }
      var removed := records[..|records| - LIMIT];
      records := records[|removed|..];
      assert records == created[|created| - LIMIT..];
      index := Forgetting(index, removed, created, contents);
      contents := Trimmed(contents);
    }

    /** The loop that filters the index once for each removed record. */
    static method Forgetting(index: map<Key, NetworkRecord>, removed: seq<NetworkRecord>,
                             ghost created: seq<NetworkRecord>, ghost s: State)
      returns (rest: map<Key, NetworkRecord>)
      requires Indexed(index, created, s) && Distinct(created) && |removed| <= s.kept <= |created|
      requires removed == created[|created| - s.kept..|created| - s.kept + |removed|]
      ensures Indexed(rest, created, s.(kept := s.kept - |removed|))
    {
      rest := index;
      for i := 0 to |removed|
        invariant Indexed(rest, created, s.(kept := s.kept - i))
      {
        ghost var left := s.(kept := s.kept - i);
        assert removed[i] == created[|created| - left.kept];
        ForgettingTheOldest(rest, created, left);
        rest := Without(rest, removed[i]);
      }
    }

    method OnRequest(key: Key, requestMethod: string, url: string)
      requires Valid()
      modifies this
      ensures Valid()
      ensures contents == Apply(old(contents), Request(key, requestMethod, url))
      ensures |created| == |old(created)| + 1 && old(created) < created && fresh(created[|old(created)|])
    {
      var record := new NetworkRecord(requestMethod, url, true);
      Append(record, key);
      Trim();
    }

    /** Write what can be read off the response, and trim if all of it could be. */
    method TakeAnswer(record: NetworkRecord, answer: Answer, ghost at: nat)
      requires Valid() && at < |created| && record == created[at]
      modifies this`records, this`index, this`contents, record`status, record`contentType
      ensures Valid() && contents == AnswerAt(old(contents), at, answer)
    {
      AnsweredIndex(index, created, contents, at, Answered(contents.created[at], answer));
      contents := contents.(created := contents.created[at := Answered(contents.created[at], answer)]);
      if answer.Unreadable? {
        return;
      }
      record.status := Some(answer.status);
      if answer.StatusOnly? {
        return;
      }
      record.contentType := answer.contentType;
      Trim();
    }

    /** A response goes to the retained record of its key, or else to a new response-only
        record. */
    method OnResponse(key: Key, requestMethod: string, url: string, answer: Answer)
      requires Valid()
      modifies this, Indicated(key)`status, Indicated(key)`contentType
      ensures Valid()
      ensures contents == Apply(old(contents), Response(key, requestMethod, url, answer))
      ensures old(created) <= created
    {
      if key in index {
        TakeAnswer(index[key], answer, Named(contents, key).value);
      } else {
        var record := new NetworkRecord(requestMethod, url, false);
        Append(record, key);
        TakeAnswer(record, answer, |created| - 1);
      }
    }

    method MarkFailed(record: NetworkRecord, ghost at: nat)
      requires Valid() && at < |created| && record == created[at]
      modifies this`contents, record`failed
      ensures Valid()
      ensures contents == old(contents).(created := old(contents.created)[at := old(contents.created)[at].(failed := true)])
    {
      ghost var failed := contents.created[at].(failed := true);
      AnsweredIndex(index, created, contents, at, failed);
      contents := contents.(created := contents.created[at := failed]);
      record.failed := true;
    }

    method OnRequestFailed(key: Key)
      requires Valid()
      modifies this`contents, Indicated(key)`failed
      ensures Valid()
      ensures contents == Apply(old(contents), RequestFailed(key))
    {
      if key in index {
        MarkFailed(index[key], Named(contents, key).value);
      }
    }
  }

  ghost predicate Distinct(created: seq<NetworkRecord>) {
    forall i, j :: 0 <= i < j < |created| ==> created[i] != created[j]
  }

  /** Each object has the fields that the entry at its position says. */
  ghost predicate Shows(created: seq<NetworkRecord>, entries: seq<Entry>)
    reads created
  {
    |created| == |entries| && forall i :: 0 <= i < |created| ==> created[i].AsEntry(entries[i].key) == entries[i]
  }

  // ---------------------------------------------------------------------------
  // Facts about the index

  /** The index knows a key exactly when its newest record is still in the list, and names it. */
  ghost predicate Indexed(index: map<Key, NetworkRecord>, created: seq<NetworkRecord>, s: State) {
    && |created| == |s.created|
    && forall k :: match Named(s, k)
                   case Some(i) => k in index && index[k] == created[i]
                   case None => k !in index
  }

  /** The index without the entries that name one record. */
  function Without(index: map<Key, NetworkRecord>, record: NetworkRecord): map<Key, NetworkRecord> {
    map k | k in index && index[k] != record :: index[k]
  }

  /** Dropping the oldest retained record and its entries leaves an index of the rest. */
  lemma ForgettingTheOldest(index: map<Key, NetworkRecord>, created: seq<NetworkRecord>, s: State)
    requires Indexed(index, created, s) && Distinct(created) && 0 < s.kept <= |created|
    ensures Indexed(Without(index, created[|created| - s.kept]), created, s.(kept := s.kept - 1))
  {
    var fewer, rest := s.(kept := s.kept - 1), Without(index, created[|created| - s.kept]);
    forall k
      ensures match Named(fewer, k)
              case Some(i) => k in rest && rest[k] == created[i]
              case None => k !in rest
    {
      assert Named(s, k).Some? ==> k in index;
    }
  }

  lemma LastWithAppend(entries: seq<Entry>, e: Entry, key: Key)
    ensures LastWith(entries + [e], key) == if e.key == key then Some(|entries|) else LastWith(entries, key)
  {
    assert (entries + [e])[..|entries|] == entries;
  }

  lemma NamedAppend(s: State, e: Entry, key: Key)
    ensures Named(Added(s, e), key) == if e.key == key then Some(|s.created|) else Named(s, key)
  {
    LastWithAppend(s.created, e, key);
  }

  /** A new record takes its key over. */
  lemma AppendedIndex(index: map<Key, NetworkRecord>, created: seq<NetworkRecord>, s: State, record: NetworkRecord, e: Entry)
    requires Indexed(index, created, s)
    ensures Indexed(index[e.key := record], created + [record], Added(s, e))
  {
    forall k
      ensures match Named(Added(s, e), k)
              case Some(i) => k in index[e.key := record] && index[e.key := record][k] == (created + [record])[i]
              case None => k !in index[e.key := record]
    {
      NamedAppend(s, e, k);
    }
  }

  lemma LastWithUpdate(entries: seq<Entry>, at: nat, e: Entry, key: Key)
    requires at < |entries| && e.key == entries[at].key
    ensures LastWith(entries[at := e], key) == LastWith(entries, key)
  {
    var updated := entries[at := e];
    assert forall i :: 0 <= i < |entries| ==> updated[i].key == entries[i].key;
  }

  /** Updating a record in place leaves the index as it is. */
  lemma AnsweredIndex(index: map<Key, NetworkRecord>, created: seq<NetworkRecord>, s: State, at: nat, e: Entry)
    requires Indexed(index, created, s) && at < |s.created| && e.key == s.created[at].key
    ensures Indexed(index, created, s.(created := s.created[at := e]))
  {
    forall k ensures Named(s.(created := s.created[at := e]), k) == Named(s, k) {
      LastWithUpdate(s.created, at, e, k);
    }
  }

  // ---------------------------------------------------------------------------
  // The limit

  /** The list is exactly the last min(n, 512) of the n records created. */
  predicate Bounded(s: State) {
    s.kept == Kept(|s.created|)
  }

  predicate Creates(s: State, e: Event) {
    e.Request? || (e.Response? && Named(s, e.key).None?)
  }

  /** The handler gets as far as trimming. */
  predicate Trims(e: Event) {
    e.Request? || (e.Response? && e.answer.Whole?)
  }

  /** A record is added to a full log and the trimming is skipped. */
  predicate Overflows(s: State, e: Event) {
    Creates(s, e) && !Trims(e) && |s.created| >= LIMIT
  }

  function Counted(b: bool): nat {
    if b then 1 else 0
  }

  lemma Counts(s: State, e: Event)
    ensures |Apply(s, e).created| == |s.created| + Counted(Creates(s, e))
    ensures var kept := s.kept + Counted(Creates(s, e));
            Apply(s, e).kept == if Trims(e) then Kept(kept) else kept
  {
  }

  /** The log never holds fewer records than it should. */
  lemma {:induction false} NothingIsLost(run: seq<Event>)
    ensures Kept(|After(EMPTY, run).created|) <= After(EMPTY, run).kept <= |After(EMPTY, run).created|
  {
    if run != [] {
      NothingIsLost(run[..|run| - 1]);
      Counts(After(EMPTY, run[..|run| - 1]), run[|run| - 1]);
    }
  }

  /** One event keeps the limit exactly when it does not overflow; and a log over the limit
      comes back to it exactly when an event trims. */
  lemma LimitStep(s: State, e: Event)
    requires Kept(|s.created|) <= s.kept <= |s.created|
    ensures Bounded(Apply(s, e)) <==> Trims(e) || (Bounded(s) && !Overflows(s, e))
  {
    Counts(s, e);
  }

  /** The i-th event of the run overflows and no later one trims. */
  ghost predicate LeftOver(run: seq<Event>, i: nat)
    requires i < |run|
  {
    Overflows(After(EMPTY, run[..i]), run[i]) && forall j :: i < j < |run| ==> !Trims(run[j])
  }

  lemma LeftOverStep(run: seq<Event>, i: nat)
    requires run != [] && i < |run| - 1
    ensures LeftOver(run, i) <==> LeftOver(run[..|run| - 1], i) && !Trims(run[|run| - 1])
  {
    var shorter := run[..|run| - 1];
    assert shorter[..i] == run[..i];
    assert forall j :: i < j < |shorter| ==> shorter[j] == run[j];
  }

  /** In every run the log is within its limit exactly when every overflowing event was
      followed by one that trims. */
  lemma {:induction false} BoundedIff(run: seq<Event>)
    ensures Bounded(After(EMPTY, run)) <==> forall i :: 0 <= i < |run| ==> !LeftOver(run, i)
  {
    if run != [] {
      var shorter, last := run[..|run| - 1], run[|run| - 1];
      BoundedIff(shorter);
      NothingIsLost(shorter);
      LimitStep(After(EMPTY, shorter), last);
      forall i | 0 <= i < |shorter| ensures LeftOver(run, i) <==> LeftOver(shorter, i) && !Trims(last) {
        LeftOverStep(run, i);
      }
      assert LeftOver(run, |run| - 1) <==> Overflows(After(EMPTY, shorter), last);
    }
  }

  /** 512 requests, followed by responses under ever new keys whose data cannot be read. */
  function FloodEvent(i: nat): Event {
    if i < LIMIT then Request("", "GET", "/") else Response(FloodKey(i), "GET", "/", Unreadable)
  }

  function FloodKey(i: nat): Key {
    seq(i, _ => 'x')
  }

  function Flood(n: nat): (run: seq<Event>)
    ensures |run| == n && forall i :: 0 <= i < n ==> run[i] == FloodEvent(i)
  {
    seq(n, i requires 0 <= i < n => FloodEvent(i))
  }

  /** n records, all kept, whose keys are as in the flood. */
  ghost predicate Flooded(s: State, n: nat) {
    && |s.created| == n && s.kept == n
    && forall i :: 0 <= i < n ==> |s.created[i].key| == if i < LIMIT then 0 else i
  }

  lemma FloodStep(s: State, n: nat)
    requires Flooded(s, n)
    ensures Flooded(Apply(s, FloodEvent(n)), n + 1)
  {
    if n >= LIMIT {
      assert |FloodKey(n)| == n;
      assert forall i :: 0 <= i < n ==> |s.created[i].key| < n;
      assert LastWith(s.created, FloodKey(n)).None?;
    }
  }

  lemma {:induction false} FloodFills(n: nat)
    ensures Flooded(After(EMPTY, Flood(n)), n)
  {
    if n > 0 {
      FloodFills(n - 1);
      FloodStep(After(EMPTY, Flood(n - 1)), n - 1);
      assert Flood(n)[..n - 1] == Flood(n - 1);
    }
  }

  /** So no number of records bounds the log: n unreadable responses put it n over the limit. */
  lemma LogExceedsEveryBound(n: nat)
    ensures After(EMPTY, Flood(LIMIT + n)).kept == LIMIT + n
    ensures n > 0 ==> !Bounded(After(EMPTY, Flood(LIMIT + n)))
  {
    FloodFills(LIMIT + n);
  }

  // ---------------------------------------------------------------------------
  // Responses and their requests

  ghost predicate DistinctRequests(run: seq<Event>) {
    forall i, j :: 0 <= i < j < |run| && run[i].Request? && run[j].Request? ==> run[i].key != run[j].key
  }

  /** The record at p belongs to the one request with this key: later records of the key are
      response-only, and were created after it was evicted. */
  ghost predicate Owns(s: State, p: nat, key: Key) {
    && p < |s.created| && s.created[p].key == key && s.created[p].requestObserved
    && forall j :: p < j < |s.created| && s.created[j].key == key ==>
         !s.created[j].requestObserved && !Retained(s, p)
  }

  lemma OwnsStep(s: State, e: Event, p: nat, key: Key)
    requires Owns(s, p, key) && !(e.Request? && e.key == key)
    requires Kept(|s.created|) <= s.kept <= |s.created|
    ensures Owns(Apply(s, e), p, key)
  {
    Counts(s, e);
    var t := Apply(s, e);
    assert Retained(t, p) ==> Retained(s, p);
    if e.Response? && e.key == key && Named(s, key).None? {
      var last := LastWith(s.created, key);
      assert !Retained(s, p);
    }
  }

  lemma {:induction false} RequestOwns(run: seq<Event>, i: nat)
    requires i < |run| && run[i].Request? && DistinctRequests(run)
    ensures Owns(After(EMPTY, run), |After(EMPTY, run[..i]).created|, run[i].key)
    decreases |run|
  {
    var shorter, last := run[..|run| - 1], run[|run| - 1];
    if i < |shorter| {
      assert shorter[..i] == run[..i];
      RequestOwns(shorter, i);
      NothingIsLost(shorter);
      OwnsStep(After(EMPTY, shorter), last, |After(EMPTY, run[..i]).created|, run[i].key);
    }
  }

  /** What an answer makes of an entry: the status if it was read, the content type if the headers
      were read too, and nothing else. */
  ghost predicate IsAnswered(before: Entry, after: Entry, answer: Answer) {
    && after.key == before.key && after.requestMethod == before.requestMethod && after.url == before.url
    && after.requestObserved == before.requestObserved && after.failed == before.failed
    && after.status == (match answer case Unreadable => before.status case StatusOnly(n) => Some(n) case Whole(n, _) => Some(n))
    && after.contentType == (match answer case Whole(_, c) => c case _ => before.contentType)
  }

  /** The answer went to the i-th record and to no other. */
  ghost predicate TookAnswer(s: State, t: State, i: nat, answer: Answer) {
    && i < |s.created| == |t.created|
    && IsAnswered(s.created[i], t.created[i], answer)
    && forall j :: 0 <= j < |s.created| && j != i ==> t.created[j] == s.created[j]
  }

  /** The answer made a new response-only record. */
  ghost predicate MadeResponseOnly(s: State, t: State, key: Key, requestMethod: string, url: string, answer: Answer) {
    && |t.created| == |s.created| + 1
    && IsAnswered(Entry(key, requestMethod, url, false, None, None, false), t.created[|s.created|], answer)
    && forall j :: 0 <= j < |s.created| ==> t.created[j] == s.created[j]
  }

  /** A response goes to the record that the index names, or else to a new one. */
  lemma ResponseIsRecorded(s: State, key: Key, requestMethod: string, url: string, answer: Answer)
    ensures var t := Apply(s, Response(key, requestMethod, url, answer));
            match Named(s, key)
            case Some(i) => TookAnswer(s, t, i, answer)
            case None => MadeResponseOnly(s, t, key, requestMethod, url, answer)
  {
  }

  /** A request makes a new record without an answer; a failure marks the record that the index
      names, and nothing else. */
  lemma RequestsAndFailuresAreRecorded(s: State, key: Key, requestMethod: string, url: string)
    ensures Apply(s, Request(key, requestMethod, url)).created ==
            s.created + [Entry(key, requestMethod, url, true, None, None, false)]
    ensures var t := Apply(s, RequestFailed(key));
            && t.kept == s.kept && |t.created| == |s.created|
            && forall i :: 0 <= i < |s.created| ==>
                 && t.created[i].key == s.created[i].key && t.created[i].requestMethod == s.created[i].requestMethod
                 && t.created[i].url == s.created[i].url && t.created[i].requestObserved == s.created[i].requestObserved
                 && t.created[i].status == s.created[i].status && t.created[i].contentType == s.created[i].contentType
                 && (t.created[i].failed <==> s.created[i].failed || Named(s, key) == Some(i))
  {
  }

  /** Where a response to the request at p goes. */
  ghost predicate ReachesItsRequest(s: State, p: nat, key: Key, requestMethod: string, url: string, answer: Answer) {
    var t := Apply(s, Response(key, requestMethod, url, answer));
    && p < |s.created| <= |t.created|
    && (Named(s, key) == Some(p) <==> Retained(s, p))
    && (Retained(s, p) ==> TookAnswer(s, t, p, answer))
    && (!Retained(s, p) ==> t.created[p] == s.created[p])
    && (!Retained(s, p) ==>
          match Named(s, key)
          case None => MadeResponseOnly(s, t, key, requestMethod, url, answer)
          case Some(j) => p < j < |s.created| && !s.created[j].requestObserved && TookAnswer(s, t, j, answer))
  }

  lemma OwnedIsNamed(s: State, p: nat, key: Key)
    requires Owns(s, p, key)
    ensures Named(s, key) == Some(p) <==> Retained(s, p)
    ensures match Named(s, key)
            case None => true
            case Some(j) => j == p || (p < j < |s.created| && !s.created[j].requestObserved)
  {
    var last := LastWith(s.created, key);
    assert last.Some? && s.created[last.value].key == key;
    assert last.value >= p;
  }

  lemma OwnedIsReached(s: State, p: nat, key: Key, requestMethod: string, url: string, answer: Answer)
    requires Owns(s, p, key)
    ensures ReachesItsRequest(s, p, key, requestMethod, url, answer)
  {
    OwnedIsNamed(s, p, key);
    ResponseIsRecorded(s, key, requestMethod, url, answer);
  }

  /** In every run whose requests have distinct keys, a response updates its own request's
      record, and nothing else, exactly while that record is still in the list. Once it is
      evicted the response creates a response-only record, or goes to the one that an earlier
      response to the same request created. */
  lemma ResponsesReachTheirRequests(run: seq<Event>, i: nat, requestMethod: string, url: string, answer: Answer)
    requires i < |run| && run[i].Request? && DistinctRequests(run)
    ensures ReachesItsRequest(After(EMPTY, run), |After(EMPTY, run[..i]).created|, run[i].key, requestMethod, url, answer)
  {
    RequestOwns(run, i);
    OwnedIsReached(After(EMPTY, run), |After(EMPTY, run[..i]).created|, run[i].key, requestMethod, url, answer);
  }

  lemma EvictedStep(s: State, e: Event, p: nat)
    requires s.kept <= |s.created| && p < |s.created| && !Retained(s, p)
    ensures var t := Apply(s, e);
            t.kept <= |t.created| && p < |t.created| && !Retained(t, p) && t.created[p] == s.created[p]
  {
    Counts(s, e);
  }

  /** Once a record is evicted, no later event changes it or brings it back. */
  lemma {:induction false} EvictedRecordsAreFinal(s: State, run: seq<Event>, p: nat)
    requires s.kept <= |s.created| && p < |s.created| && !Retained(s, p)
    ensures var t := After(s, run);
            t.kept <= |t.created| && p < |t.created| && !Retained(t, p) && t.created[p] == s.created[p]
  {
    if run != [] {
      EvictedRecordsAreFinal(s, run[..|run| - 1], p);
      EvictedStep(After(s, run[..|run| - 1]), run[|run| - 1], p);
    }
  }

  /** No response to this request came in after it. */
  ghost predicate Unanswered(run: seq<Event>, i: nat)
    requires i < |run|
  {
    forall j :: i < j < |run| && run[j].Response? ==> run[j].key != run[i].key
  }

  lemma {:induction false} UnansweredIsAlone(run: seq<Event>, i: nat)
    requires i < |run| && run[i].Request? && DistinctRequests(run) && Unanswered(run, i)
    ensures var p, s := |After(EMPTY, run[..i]).created|, After(EMPTY, run);
            p < |s.created| && forall j :: p < j < |s.created| ==> s.created[j].key != run[i].key
    decreases |run|
  {
    var shorter, last := run[..|run| - 1], run[|run| - 1];
    if i < |shorter| {
      assert shorter[..i] == run[..i];
      UnansweredIsAlone(shorter, i);
      Counts(After(EMPTY, shorter), last);
    }
  }

  /** The first response to an evicted request is always recorded as response-only. */
  lemma FirstResponseAfterEviction(run: seq<Event>, i: nat, requestMethod: string, url: string, answer: Answer)
    requires i < |run| && run[i].Request? && DistinctRequests(run) && Unanswered(run, i)
    ensures var p, s := |After(EMPTY, run[..i]).created|, After(EMPTY, run);
            var t := Apply(s, Response(run[i].key, requestMethod, url, answer));
            && p < |s.created|
            && (Retained(s, p) ==> TookAnswer(s, t, p, answer))
            && (!Retained(s, p) ==> MadeResponseOnly(s, t, run[i].key, requestMethod, url, answer))
  {
    ResponsesReachTheirRequests(run, i, requestMethod, url, answer);
    UnansweredIsAlone(run, i);
  }
}
