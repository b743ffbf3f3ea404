/** Memoised locator attestation (dingdongditch/page_observer.py:
    `attest_observation_locators` with `_locator_query_key`, `_query_locator_candidate` and
    `_apply_locator_attestation`). */
module Attestation {
  import opened Wrappers
  import opened JsonText

  /** What a candidate locator says. */
  datatype Locator =
    | RoleName(role: string, name: string)
    | ExactText(value: string)
    | TestId(value: string)
    | CssSelector(value: string)
    | Placeholder(value: string)
    | WithinRegion(regionRole: string, regionName: Option<string>, role: string, name: string)

  datatype Candidate = Candidate(id: string, locator: Locator, confidence: real)

  /** What is asked of the page. */
  datatype Query =
    | ByRole(role: string, name: string)
    | ByText(value: string)
    | ByTestId(value: string)
    | ByCss(value: string)
    | InRegion(regionRole: string, regionName: Option<string>, role: string, name: string)

  datatype Answer = Matches(count: nat) | Raised(exception: string)

  /** An unchanging page answers every query in one way. */
  datatype Page = Page(ask: Query -> Answer)

  datatype Status = AttestationFailed | AttestedMissing | AttestedUnique | AttestedAmbiguous

  datatype Record = Record(
    candidate: string,
    matchCount: Option<nat>,
    unique: bool,
    confidence: real,
    status: Status,
    reused: bool,
    query: nat)

  /** The query a candidate stands for; an absent and an empty region name ask the same. */
  function QueryOf(l: Locator): Option<Query> {
    match l
    case RoleName(role, name) => Some(ByRole(role, name))
    case ExactText(v) => Some(ByText(v))
    case TestId(v) => Some(ByTestId(v))
    case CssSelector(v) => Some(ByCss(v))
    case Placeholder(_) => None
    case WithinRegion(regionRole, regionName, role, name) =>
      Some(InRegion(regionRole, if regionName == Some("") then None else regionName, role, name))
  }

  // ---------------------------------------------------------------------------
  // The memo key: a tuple, with the JSON text of plain values

  datatype Kind = TextKind | TestIdKind | CssKind

  datatype Key =
    | RoleKey(role: string, name: string)
    | RegionKey(regionRole: string, regionName: Option<string>, role: string, name: string)
    | JsonKey(kind: Kind, json: string)

  lemma QuotingIsInjective(a: string, b: string)
    requires Quote(a) == Quote(b)
    ensures a == b
  {
    ParseOfDump(Text(a));
    ParseOfDump(Text(b));
  }

  function KeyOf(l: Locator): Option<Key> {
    match l
    case RoleName(role, name) => Some(RoleKey(role, name))
    case WithinRegion(regionRole, regionName, role, name) => Some(RegionKey(regionRole, regionName, role, name))
    case ExactText(v) => Some(JsonKey(TextKind, Quote(v)))
    case TestId(v) => Some(JsonKey(TestIdKind, Quote(v)))
    case CssSelector(v) => Some(JsonKey(CssKind, Quote(v)))
    case Placeholder(_) => None
  }

  /** Candidates with the same key ask the page the same question, and exactly the candidates
      that ask something have a key. */
  lemma KeysDetermineQueries(a: Locator, b: Locator)
    ensures KeyOf(a).Some? <==> QueryOf(a).Some?
    ensures KeyOf(a).Some? && KeyOf(a) == KeyOf(b) ==> QueryOf(a) == QueryOf(b)
  {
    if KeyOf(a) == KeyOf(b) && KeyOf(a).Some? && KeyOf(a).value.JsonKey? {
      QuotingIsInjective(a.value, b.value);
    }
  }

  // ---------------------------------------------------------------------------
  // Attesting every candidate afresh

  function StatusOf(matchCount: Option<nat>): Status {
    match matchCount
    case None => AttestationFailed
    case Some(n) => if n == 0 then AttestedMissing else if n == 1 then AttestedUnique else AttestedAmbiguous
  }

  function CountOf(a: Answer): Option<nat> {
    if a.Matches? then Some(a.count) else None
  }

  function ConfidenceAfter(confidence: real, a: Answer): real {
    match a
    case Raised(_) => 0.0
    case Matches(n) => if n != 1 && confidence > 0.45 then 0.45 else confidence
  }

  /** A candidate with its memo key and the query it stands for. */
  datatype Lookup = Lookup(candidate: Candidate, key: Key, query: Query)

  /** The record that a fresh query of this candidate gives. */
  function FreshRecord(page: Page, t: Lookup, reused: bool, query: nat): Record {
    RecordOf(t.candidate, page.ask(t.query), reused, query)
  }

  function RecordOf(c: Candidate, answer: Answer, reused: bool, query: nat): Record {
    var count := CountOf(answer);
    Record(c.id, count, count == Some(1), ConfidenceAfter(c.confidence, answer), StatusOf(count), reused, query)
  }

  /** What a record says: it is unique exactly when the page has one match, failed exactly when
      the query raised, and never more confident than the candidate was published, nor than
      0.45 unless unique. */
  lemma RecordMeaning(page: Page, t: Lookup, reused: bool, query: nat)
    requires 0.0 <= t.candidate.confidence
    ensures var r := FreshRecord(page, t, reused, query);
            && (r.unique <==> page.ask(t.query) == Matches(1))
            && (r.unique <==> r.status == AttestedUnique)
            && (r.status == AttestationFailed <==> page.ask(t.query).Raised?)
            && (r.status == AttestedMissing <==> page.ask(t.query) == Matches(0))
            && r.confidence <= t.candidate.confidence
            && (!r.unique ==> r.confidence <= 0.45)
  {
  }

  /** The lookup of a candidate that can be queried. */
  function LookupOf(c: Candidate): (r: Option<Lookup>)
    ensures r.Some? <==> KeyOf(c.locator).Some?
    ensures r.Some? ==> r.value.candidate == c
  {
    KeysDetermineQueries(c.locator, c.locator);
    match KeyOf(c.locator)
    case None => None
    case Some(key) => Some(Lookup(c, key, QueryOf(c.locator).value))
  }

  lemma LookupsWithOneKeyAskOneQuestion(c: Candidate, d: Candidate)
    requires LookupOf(c).Some? && LookupOf(d).Some? && LookupOf(c).value.key == LookupOf(d).value.key
    ensures LookupOf(c).value.query == LookupOf(d).value.query
  {
    KeysDetermineQueries(c.locator, d.locator);
  }

  function One(t: Option<Lookup>): seq<Lookup> {
    if t.Some? then [t.value] else []
  }

  /** The candidates that can be queried, in order. */
  function Lookups(candidates: seq<Candidate>): seq<Lookup> {
    if candidates == [] then []
    else Lookups(candidates[..|candidates| - 1]) + One(LookupOf(candidates[|candidates| - 1]))
  }

  lemma LookupsStep(ts: seq<Lookup>, candidates: seq<Candidate>, i: nat)
    requires i < |candidates|
    ensures ts + Lookups(candidates[..i + 1]) == (ts + Lookups(candidates[..i])) + One(LookupOf(candidates[i]))
  {
    assert candidates[..i + 1][..i] == candidates[..i];
  }

  function AllLookups(elements: seq<seq<Candidate>>): seq<Lookup> {
    if elements == [] then []
    else AllLookups(elements[..|elements| - 1]) + Lookups(elements[|elements| - 1])
  }

  // ---------------------------------------------------------------------------
  // Attesting with a memo

  ghost function KeysIn(ts: seq<Lookup>): set<Key> {
    set i | 0 <= i < |ts| :: ts[i].key
  }

  ghost predicate OccurredEarlier(ts: seq<Lookup>, i: nat)
    requires i < |ts|
  {
    exists j :: 0 <= j < i && ts[j].key == ts[i].key
  }

  datatype Memo = Memo(answer: Answer, query: nat)

  /** The memo holds this lookup's answer, and the record is the fresh one. */
  ghost predicate Right(page: Page, t: Lookup, earlier: bool, r: Record, memo: map<Key, Memo>) {
    && t.key in memo && memo[t.key].answer == page.ask(t.query)
    && r == FreshRecord(page, t, earlier, memo[t.key].query)
  }

  /** The memo answers for every candidate whose key it holds. */
  ghost predicate AnswersFor(page: Page, memo: map<Key, Memo>) {
    forall c :: LookupOf(c).Some? && LookupOf(c).value.key in memo ==>
      memo[LookupOf(c).value.key].answer == page.ask(LookupOf(c).value.query)
  }

  /** Every key has its own query. */
  ghost predicate OwnQueries(memo: map<Key, Memo>, queries: nat) {
    && (forall k :: k in memo ==> memo[k].query < queries)
    && (forall k, l :: k in memo && l in memo && memo[k].query == memo[l].query ==> k == l)
  }

  lemma OwnQueriesGrow(memo: map<Key, Memo>, queries: nat, key: Key, answer: Answer)
    requires OwnQueries(memo, queries) && key !in memo
    ensures OwnQueries(memo[key := Memo(answer, queries)], queries + 1)
  {
  }

  /** The state of the loop after the lookups `ts`. */
  ghost predicate Attested(page: Page, ts: seq<Lookup>, records: seq<Record>, memo: map<Key, Memo>, queries: nat) {
    && |records| == |ts|
    && memo.Keys == KeysIn(ts) && queries == |memo.Keys|
    && AnswersFor(page, memo)
    && (forall i :: 0 <= i < |ts| ==> Right(page, ts[i], OccurredEarlier(ts, i), records[i], memo))
  }

  lemma KeysInAppend(ts: seq<Lookup>, t: Lookup)
    ensures KeysIn(ts + [t]) == KeysIn(ts) + {t.key}
    ensures forall i :: 0 <= i < |ts| ==> (OccurredEarlier(ts + [t], i) <==> OccurredEarlier(ts, i))
    ensures OccurredEarlier(ts + [t], |ts|) <==> t.key in KeysIn(ts)
  {
    var longer := ts + [t];
    assert forall i :: 0 <= i < |ts| ==> longer[i] == ts[i];
    assert longer[|ts|] == t;
    forall k | k in KeysIn(ts) ensures k in KeysIn(longer) {
      var i :| 0 <= i < |ts| && ts[i].key == k;
      assert longer[i].key == k;
    }
    forall i | 0 <= i < |ts| ensures OccurredEarlier(longer, i) <==> OccurredEarlier(ts, i) {
      if OccurredEarlier(ts, i) {
        var j :| 0 <= j < i && ts[j].key == ts[i].key;
        assert longer[j].key == longer[i].key;
      }
    }
    if t.key in KeysIn(ts) {
      var j :| 0 <= j < |ts| && ts[j].key == t.key;
      assert longer[j].key == longer[|ts|].key;
    }
  }

  /** One more lookup, answered from the memo. */
  lemma ReuseStep(page: Page, ts: seq<Lookup>, records: seq<Record>, memo: map<Key, Memo>, queries: nat, t: Lookup)
    requires Attested(page, ts, records, memo, queries)
    requires t.key in memo && memo[t.key].answer == page.ask(t.query)
    ensures Attested(page, ts + [t], records + [FreshRecord(page, t, true, memo[t.key].query)], memo, queries)
  {
    KeysInAppend(ts, t);
    var longer, rs := ts + [t], records + [FreshRecord(page, t, true, memo[t.key].query)];
    forall i | 0 <= i < |longer| ensures Right(page, longer[i], OccurredEarlier(longer, i), rs[i], memo) {
      if i < |ts| {
        assert Right(page, ts[i], OccurredEarlier(ts, i), records[i], memo);
      }
    }
  }

  lemma MemoGrows(page: Page, memo: map<Key, Memo>, c: Candidate, id: nat)
    requires AnswersFor(page, memo) && LookupOf(c).Some?
    ensures AnswersFor(page, memo[LookupOf(c).value.key := Memo(page.ask(LookupOf(c).value.query), id)])
  {
    forall d | LookupOf(d).Some? && LookupOf(d).value.key == LookupOf(c).value.key
      ensures LookupOf(d).value.query == LookupOf(c).value.query
    {
      LookupsWithOneKeyAskOneQuestion(c, d);
    }
  }

  /** One more lookup, with a key not seen before. */
  lemma QueryStep(page: Page, ts: seq<Lookup>, records: seq<Record>, memo: map<Key, Memo>, queries: nat, t: Lookup, id: nat)
    requires Attested(page, ts, records, memo, queries) && t.key !in memo
    requires AnswersFor(page, memo[t.key := Memo(page.ask(t.query), id)])
    ensures Attested(page, ts + [t], records + [FreshRecord(page, t, false, id)],
                     memo[t.key := Memo(page.ask(t.query), id)], queries + 1)
  {
    KeysInAppend(ts, t);
    var memo' := memo[t.key := Memo(page.ask(t.query), id)];
    assert memo'.Keys == memo.Keys + {t.key};
    var longer, rs := ts + [t], records + [FreshRecord(page, t, false, id)];
    forall i | 0 <= i < |longer| ensures Right(page, longer[i], OccurredEarlier(longer, i), rs[i], memo') {
      if i < |ts| {
        assert Right(page, ts[i], OccurredEarlier(ts, i), records[i], memo);
      }
    }
  }

  /** The body of the inner loop. */
  method AttestOne(page: Page, ghost ts: seq<Lookup>, records: seq<Record>, memo: map<Key, Memo>, queries: nat,
                   c: Candidate)
    returns (records': seq<Record>, memo': map<Key, Memo>, queries': nat)
    requires Attested(page, ts, records, memo, queries) && OwnQueries(memo, queries)
    ensures Attested(page, ts + One(LookupOf(c)), records', memo', queries') && OwnQueries(memo', queries')
  {
    records', memo', queries' := records, memo, queries;
    var lookup := LookupOf(c);
    if lookup.None? {
      assert ts + [] == ts;
      return;
    }
    var t := lookup.value;
    var reused := t.key in memo;
    var answer, query;
    if reused {
      ReuseStep(page, ts, records, memo, queries, t);
      answer, query := memo[t.key].answer, memo[t.key].query;
    } else {
      answer, query := page.ask(t.query), queries;
      MemoGrows(page, memo, c, query);
      QueryStep(page, ts, records, memo, queries, t, query);
      OwnQueriesGrow(memo, queries, t.key, answer);
      queries' := queries + 1;
      memo' := memo[t.key := Memo(answer, query)];
    }
    records' := records + [RecordOf(c, answer, reused, query)];
  }

  // ---------------------------------------------------------------------------
  // What attesting means, by the candidates' own locators

  /** What the page says to a locator. */
  function PageAnswer(page: Page, l: Locator): Answer
    requires !l.Placeholder?
  {
    match l
    case RoleName(role, name) => page.ask(ByRole(role, name))
    case ExactText(text) => page.ask(ByText(text))
    case TestId(id) => page.ask(ByTestId(id))
    case CssSelector(selector) => page.ask(ByCss(selector))
    case WithinRegion(regionRole, regionName, role, name) =>
      page.ask(InRegion(regionRole, if regionName == Some("") then None else regionName, role, name))
  }

  /** The record of a candidate says what the page says to its locator. */
  ghost predicate SaysWhatThePageSays(page: Page, c: Candidate, r: Record) {
    && !c.locator.Placeholder?
    && r.candidate == c.id
    && match PageAnswer(page, c.locator)
       case Raised(_) => r.matchCount == None && !r.unique && r.confidence == 0.0 && r.status == AttestationFailed
       case Matches(n) =>
         && r.matchCount == Some(n) && (r.unique <==> n == 1)
         && r.confidence == (if n != 1 && c.confidence > 0.45 then 0.45 else c.confidence)
         && r.status == (if n == 0 then AttestedMissing else if n == 1 then AttestedUnique else AttestedAmbiguous)
  }

  /** The candidates that are not placeholders, in order. */
  function Asked(candidates: seq<Candidate>): seq<Candidate> {
    if candidates == [] then []
    else
      Asked(candidates[..|candidates| - 1]) +
      if candidates[|candidates| - 1].locator.Placeholder? then [] else [candidates[|candidates| - 1]]
  }

  function AllAsked(elements: seq<seq<Candidate>>): seq<Candidate> {
    if elements == [] then [] else AllAsked(elements[..|elements| - 1]) + Asked(elements[|elements| - 1])
  }

  /** Keys are as good as locators. */
  lemma KeysAreLocators(a: Locator, b: Locator)
    requires KeyOf(a).Some? && KeyOf(b).Some?
    ensures KeyOf(a) == KeyOf(b) <==> a == b
  {
    if KeyOf(a) == KeyOf(b) && KeyOf(a).value.JsonKey? {
      QuotingIsInjective(a.value, b.value);
    }
  }

  /** The lookups are those of these candidates. */
  ghost predicate AreLookupsOf(ts: seq<Lookup>, asked: seq<Candidate>) {
    && |ts| == |asked|
    && forall i :: 0 <= i < |ts| ==> LookupOf(asked[i]) == Some(ts[i])
  }

  lemma {:induction false} LookupsOfAsked(candidates: seq<Candidate>)
    ensures AreLookupsOf(Lookups(candidates), Asked(candidates))
  {
    if candidates != [] {
      LookupsOfAsked(candidates[..|candidates| - 1]);
    }
  }

  lemma {:induction false} AllLookupsOfAsked(elements: seq<seq<Candidate>>)
    ensures AreLookupsOf(AllLookups(elements), AllAsked(elements))
  {
    if elements != [] {
      AllLookupsOfAsked(elements[..|elements| - 1]);
      LookupsOfAsked(elements[|elements| - 1]);
    }
  }

  lemma FreshRecordSays(page: Page, c: Candidate, t: Lookup, reused: bool, query: nat)
    requires LookupOf(c) == Some(t)
    ensures SaysWhatThePageSays(page, c, FreshRecord(page, t, reused, query))
  {
  }

  ghost function LocatorsIn(asked: seq<Candidate>): set<Locator> {
    set i | 0 <= i < |asked| :: asked[i].locator
  }

  lemma LocatorsInAppend(asked: seq<Candidate>, c: Candidate)
    ensures LocatorsIn(asked + [c]) == LocatorsIn(asked) + {c.locator}
  {
    var longer := asked + [c];
    assert forall i :: 0 <= i < |asked| ==> longer[i] == asked[i];
    assert longer[|asked|] == c;
    forall l | l in LocatorsIn(asked) ensures l in LocatorsIn(longer) {
      var i :| 0 <= i < |asked| && asked[i].locator == l;
      assert longer[i].locator == l;
    }
  }

  lemma KeyIsNewIffLocatorIs(ts: seq<Lookup>, asked: seq<Candidate>, t: Lookup, c: Candidate)
    requires AreLookupsOf(ts, asked) && LookupOf(c) == Some(t)
    ensures t.key in KeysIn(ts) <==> c.locator in LocatorsIn(asked)
  {
    forall i | 0 <= i < |ts| ensures ts[i].key == t.key <==> asked[i].locator == c.locator {
      assert LookupOf(asked[i]) == Some(ts[i]);
      KeysAreLocators(asked[i].locator, c.locator);
    }
  }

  /** There are as many keys as locators. */
  lemma {:induction false} KeysCountLocators(ts: seq<Lookup>, asked: seq<Candidate>)
    requires AreLookupsOf(ts, asked)
    ensures |KeysIn(ts)| == |LocatorsIn(asked)|
    decreases |ts|
  {
    if ts != [] {
      var n := |ts| - 1;
      var init, before := ts[..n], asked[..n];
      assert ts == init + [ts[n]] && asked == before + [asked[n]];
      assert LookupOf(asked[n]) == Some(ts[n]);
      KeysCountLocators(init, before);
      KeyIsNewIffLocatorIs(init, before, ts[n], asked[n]);
      KeysInAppend(init, ts[n]);
      LocatorsInAppend(before, asked[n]);
    }
  }

  lemma SameKeyIffSameLocator(ts: seq<Lookup>, asked: seq<Candidate>, i: nat, j: nat)
    requires AreLookupsOf(ts, asked) && i < |ts| && j < |ts|
    ensures ts[i].key == ts[j].key <==> asked[i].locator == asked[j].locator
  {
    assert LookupOf(asked[i]) == Some(ts[i]) && LookupOf(asked[j]) == Some(ts[j]);
    KeysAreLocators(asked[i].locator, asked[j].locator);
  }

  /** What attesting a list of candidates gives. */
  ghost predicate IsAttestation(page: Page, asked: seq<Candidate>, records: seq<Record>, queries: nat) {
    && |records| == |asked|
    && (forall i :: 0 <= i < |records| ==> SaysWhatThePageSays(page, asked[i], records[i]))
    && (forall i :: 0 <= i < |records| ==>
          (records[i].reused <==> exists j :: 0 <= j < i && asked[j].locator == asked[i].locator))
    && (forall i, j :: 0 <= i < j < |records| ==>
          (records[i].query == records[j].query <==> asked[i].locator == asked[j].locator))
    && queries == |LocatorsIn(asked)|
  }

  lemma AttestedIsAttestation(page: Page, ts: seq<Lookup>, asked: seq<Candidate>, records: seq<Record>,
                              memo: map<Key, Memo>, queries: nat)
    requires Attested(page, ts, records, memo, queries) && OwnQueries(memo, queries) && AreLookupsOf(ts, asked)
    ensures IsAttestation(page, asked, records, queries)
  {
    KeysCountLocators(ts, asked);
    forall i | 0 <= i < |ts|
      ensures SaysWhatThePageSays(page, asked[i], records[i])
      ensures records[i].reused <==> exists j :: 0 <= j < i && asked[j].locator == asked[i].locator
    {
      assert Right(page, ts[i], OccurredEarlier(ts, i), records[i], memo);
      FreshRecordSays(page, asked[i], ts[i], OccurredEarlier(ts, i), records[i].query);
      forall j | 0 <= j < i ensures ts[j].key == ts[i].key <==> asked[j].locator == asked[i].locator {
        SameKeyIffSameLocator(ts, asked, j, i);
      }
    }
    forall i, j | 0 <= i < j < |ts|
      ensures records[i].query == records[j].query <==> asked[i].locator == asked[j].locator
    {
      assert Right(page, ts[i], OccurredEarlier(ts, i), records[i], memo);
      assert Right(page, ts[j], OccurredEarlier(ts, j), records[j], memo);
      SameKeyIffSameLocator(ts, asked, i, j);
    }
  }

  /** The double loop: every candidate that is not a placeholder gets the record that the page's
      answer to its own locator gives, a record is marked as reused exactly when the same locator
      occurred earlier, two records share a query exactly when their locators are equal, and the
      page is asked once per distinct locator. */
  method Attest(page: Page, elements: seq<seq<Candidate>>) returns (records: seq<Record>, queries: nat)
    ensures IsAttestation(page, AllAsked(elements), records, queries)
  {
    var memo: map<Key, Memo> := map[];
    records, queries := [], 0;
    for e := 0 to |elements|
      invariant Attested(page, AllLookups(elements[..e]), records, memo, queries) && OwnQueries(memo, queries)
    {
      records, memo, queries := AttestElement(page, AllLookups(elements[..e]), records, memo, queries, elements[e]);
      assert elements[..e + 1][..e] == elements[..e];
    }
    assert elements[..|elements|] == elements;
    AllLookupsOfAsked(elements);
    AttestedIsAttestation(page, AllLookups(elements), AllAsked(elements), records, memo, queries);
  }

  method AttestElement(page: Page, ghost ts: seq<Lookup>, records: seq<Record>, memo: map<Key, Memo>, queries: nat,
                       candidates: seq<Candidate>)
    returns (records': seq<Record>, memo': map<Key, Memo>, queries': nat)
    requires Attested(page, ts, records, memo, queries) && OwnQueries(memo, queries)
    ensures Attested(page, ts + Lookups(candidates), records', memo', queries') && OwnQueries(memo', queries')
  {
    records', memo', queries' := records, memo, queries;
    assert ts + Lookups(candidates[..0]) == ts;
    for i := 0 to |candidates|
      invariant Attested(page, ts + Lookups(candidates[..i]), records', memo', queries') && OwnQueries(memo', queries')
    {
      LookupsStep(ts, candidates, i);
      records', memo', queries' :=
        AttestOne(page, ts + Lookups(candidates[..i]), records', memo', queries', candidates[i]);
    }
    assert candidates[..|candidates|] == candidates;
  }
}
