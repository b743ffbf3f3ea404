/** Export and import of portable browser state
    (dingdongditch/authentication/portable_state.py). */
module PortableState {
  import opened Wrappers
  import opened Origins

  datatype Error = SessionInvalid | SessionUnsupported | SessionStale | PolicyInvalid

  /** What decides about single texts: the two regular-expression searches on a local-storage
      entry, and the canonical form of an origin. */
  datatype Rules = Rules(sensitive: (string, string) -> bool, canonical: string -> Option<string>)

  /** Rules that canonicalise origins as the program does. */
  ghost predicate CanonicalisesOrigins(rules: Rules, validHost: string -> bool) {
    forall url :: rules.canonical(url) == SafeOrigin(validHost, url)
  }

  ghost predicate Idempotent(rules: Rules) {
    forall url :: rules.canonical(url).Some? ==> rules.canonical(rules.canonical(url).value) == rules.canonical(url)
  }

  lemma CanonicalFormsAreFixed(rules: Rules, validHost: string -> bool)
    requires CanonicalisesOrigins(rules, validHost)
    ensures Idempotent(rules)
  {
    forall url | rules.canonical(url).Some?
      ensures rules.canonical(rules.canonical(url).value) == rules.canonical(url)
    {
      SafeOriginIsIdempotent(validHost, url);
    }
  }

  // ---------------------------------------------------------------------------
  // Untrusted input: `None` stands for a missing field or one of the wrong type

  datatype RawCookie = NotACookie | RawCookie(
    name: Option<string>, value: Option<string>, domain: Option<string>, path: Option<string>, other: string)

  datatype RawItem = NotAnItem | RawItem(name: Option<string>, value: Option<string>)

  datatype Database = Database(name: string, content: string)

  /** `Unnamed` is a database entry that is not an object with a text name. */
  datatype RawDatabases = NoDatabases | NotAList | RawDatabases(named: seq<Option<Database>>)

  datatype RawOrigin = NotAnOrigin | RawOrigin(
    origin: Option<string>, localStorage: Option<seq<RawItem>>, indexedDb: RawDatabases)

  datatype RawState = NotAState | RawState(cookies: Option<seq<RawCookie>>, origins: Option<seq<RawOrigin>>)

  // ---------------------------------------------------------------------------
  // Accepted state

  datatype Cookie = Cookie(name: string, value: string, domain: string, path: string, other: string)
  datatype Item = Item(name: string, value: string)
  datatype Origin = Origin(origin: string, localStorage: seq<Item>, indexedDb: Option<seq<Database>>)
  datatype State = State(cookies: seq<Cookie>, origins: seq<Origin>)

  function ValidateCookie(c: RawCookie): Result<Cookie, Error> {
    if c.NotACookie? || c.name.None? || c.value.None? || c.domain.None? || c.path.None? then Failure(SessionInvalid)
    else if |c.name.value| > 512 || |c.value.value| > 16384 || c.domain.value == ""
            || c.path.value == "" || c.path.value[0] != '/' then Failure(SessionInvalid)
    else Success(Cookie(c.name.value, c.value.value, c.domain.value, c.path.value, c.other))
  }

  function ValidateCookies(cs: seq<RawCookie>): Result<seq<Cookie>, Error> {
    if cs == [] then Success([])
    else
      match ValidateCookies(cs[..|cs| - 1])
      case Failure(e) => Failure(e)
      case Success(done) =>
        match ValidateCookie(cs[|cs| - 1])
        case Failure(e) => Failure(e)
        case Success(c) => Success(done + [c])
  }

  function ValidateItem(rules: Rules, item: RawItem, rejectSensitive: bool): Result<Item, Error> {
    if item.NotAnItem? || item.name.None? || item.value.None? then Failure(SessionInvalid)
    else if |item.name.value| > 2048 || |item.value.value| > 65536 then Failure(SessionInvalid)
    else if rejectSensitive && rules.sensitive(item.name.value, item.value.value) then Failure(SessionInvalid)
    else Success(Item(item.name.value, item.value.value))
  }

  function ValidateItems(rules: Rules, items: seq<RawItem>, rejectSensitive: bool): Result<seq<Item>, Error> {
    if items == [] then Success([])
    else
      match ValidateItems(rules, items[..|items| - 1], rejectSensitive)
      case Failure(e) => Failure(e)
      case Success(done) =>
        match ValidateItem(rules, items[|items| - 1], rejectSensitive)
        case Failure(e) => Failure(e)
        case Success(item) => Success(done + [item])
  }

  predicate AllNamed(named: seq<Option<Database>>) {
    forall i :: 0 <= i < |named| ==> named[i].Some?
  }

  function Names(named: seq<Option<Database>>): (r: seq<Database>)
    requires AllNamed(named)
    ensures |r| == |named| && forall i :: 0 <= i < |r| ==> r[i] == named[i].value
  {
    seq(|named|, i requires 0 <= i < |named| => named[i].value)
  }

  function ValidateDatabases(d: RawDatabases, allow: bool): Result<Option<seq<Database>>, Error> {
    if d.NoDatabases? then Success(None)
    else if !allow then Failure(SessionUnsupported)
    else if d.NotAList? || |d.named| > 64 || !AllNamed(d.named) then Failure(SessionInvalid)
    else Success(Some(Names(d.named)))
  }

  function ValidateOrigin(rules: Rules, o: RawOrigin, seen: set<string>, allowDb: bool, rejectSensitive: bool)
    : Result<Origin, Error>
  {
    if o.NotAnOrigin? || o.localStorage.None? || o.origin.None? then Failure(SessionInvalid)
    else
      match rules.canonical(o.origin.value)
      case None => Failure(SessionInvalid)
      case Some(canonical) =>
        if canonical in seen || |o.localStorage.value| > 1024 then Failure(SessionInvalid)
        else
          match ValidateItems(rules, o.localStorage.value, rejectSensitive)
          case Failure(e) => Failure(e)
          case Success(items) =>
            match ValidateDatabases(o.indexedDb, allowDb)
            case Failure(e) => Failure(e)
            case Success(db) => Success(Origin(canonical, items, db))
  }

  function Seen(origins: seq<Origin>): set<string> {
    set o | o in origins :: o.origin
  }

  function ValidateOrigins(rules: Rules, os: seq<RawOrigin>, allowDb: bool, rejectSensitive: bool)
    : Result<seq<Origin>, Error>
  {
    if os == [] then Success([])
    else
      match ValidateOrigins(rules, os[..|os| - 1], allowDb, rejectSensitive)
      case Failure(e) => Failure(e)
      case Success(done) =>
        match ValidateOrigin(rules, os[|os| - 1], Seen(done), allowDb, rejectSensitive)
        case Failure(e) => Failure(e)
        case Success(o) => Success(done + [o])
  }

  function ValidateState(rules: Rules, raw: RawState, allowDb: bool, rejectSensitive: bool): Result<State, Error> {
    if raw.NotAState? || raw.cookies.None? || raw.origins.None? then Failure(SessionInvalid)
    else if |raw.cookies.value| > 1024 || |raw.origins.value| > 256 then Failure(SessionInvalid)
    else
      match ValidateCookies(raw.cookies.value)
      case Failure(e) => Failure(e)
      case Success(cookies) =>
        match ValidateOrigins(rules, raw.origins.value, allowDb, rejectSensitive)
        case Failure(e) => Failure(e)
        case Success(origins) => Success(State(cookies, origins))
  }

  // ---------------------------------------------------------------------------
  // The validation loops

  method CookieLoop(cs: seq<RawCookie>) returns (r: Result<seq<Cookie>, Error>)
    ensures r == ValidateCookies(cs)
  {
    var cookies: seq<Cookie> := [];
    for i := 0 to |cs|
      invariant ValidateCookies(cs[..i]) == Success(cookies)
    {
      assert cs[..i + 1][..i] == cs[..i];
      FailsEarly(ValidateCookies, cs, i + 1);
      var c := cs[i];
      if c.NotACookie? || c.name.None? || c.value.None? || c.domain.None? || c.path.None? {
        return Failure(SessionInvalid);
      }
      if |c.name.value| > 512 || |c.value.value| > 16384 || c.domain.value == ""
         || c.path.value == "" || c.path.value[0] != '/'
      {
        return Failure(SessionInvalid);
      }
      cookies := cookies + [Cookie(c.name.value, c.value.value, c.domain.value, c.path.value, c.other)];
    }
    assert cs[..|cs|] == cs;
    return Success(cookies);
  }

  method ItemLoop(rules: Rules, items: seq<RawItem>, reject: bool) returns (r: Result<seq<Item>, Error>)
    ensures r == ValidateItems(rules, items, reject)
  {
    var entries: seq<Item> := [];
    for i := 0 to |items|
      invariant ValidateItems(rules, items[..i], reject) == Success(entries)
    {
      assert items[..i + 1][..i] == items[..i];
      FailsEarly(some => ValidateItems(rules, some, reject), items, i + 1);
      var item := items[i];
      if item.NotAnItem? || item.name.None? || item.value.None? {
        return Failure(SessionInvalid);
      }
      if |item.name.value| > 2048 || |item.value.value| > 65536 {
        return Failure(SessionInvalid);
      }
      if reject && rules.sensitive(item.name.value, item.value.value) {
        return Failure(SessionInvalid);
      }
      entries := entries + [Item(item.name.value, item.value.value)];
    }
    assert items[..|items|] == items;
    return Success(entries);
  }

  lemma OriginsFailEarly(rules: Rules, os: seq<RawOrigin>, allowDb: bool, reject: bool, i: nat)
    requires i <= |os|
    ensures ValidateOrigins(rules, os[..i], allowDb, reject).Failure? ==>
              ValidateOrigins(rules, os, allowDb, reject) == ValidateOrigins(rules, os[..i], allowDb, reject)
  {
    FailsEarly(some => ValidateOrigins(rules, some, allowDb, reject), os, i);
  }

  method OriginLoop(rules: Rules, os: seq<RawOrigin>, allowDb: bool, reject: bool)
    returns (r: Result<seq<Origin>, Error>)
    ensures r == ValidateOrigins(rules, os, allowDb, reject)
  {
    var origins: seq<Origin> := [];
    var seen: set<string> := {};
    for i := 0 to |os|
      invariant ValidateOrigins(rules, os[..i], allowDb, reject) == Success(origins) && seen == Seen(origins)
    {
      assert os[..i + 1][..i] == os[..i];
      OriginsFailEarly(rules, os, allowDb, reject, i + 1);
      var checked := CheckOrigin(rules, os[i], seen, allowDb, reject);
      if checked.Failure? {
        return Failure(checked.error);
      }
      seen := seen + {checked.value.origin};
      origins := origins + [checked.value];
    }
    assert os[..|os|] == os;
    return Success(origins);
  }

  method CheckOrigin(rules: Rules, o: RawOrigin, seen: set<string>, allowDb: bool, reject: bool)
    returns (r: Result<Origin, Error>)
    ensures r == ValidateOrigin(rules, o, seen, allowDb, reject)
  {
    if o.NotAnOrigin? || o.localStorage.None? || o.origin.None? {
      return Failure(SessionInvalid);
    }
    var canonical := rules.canonical(o.origin.value);
    if canonical.None? || canonical.value in seen || |o.localStorage.value| > 1024 {
      return Failure(SessionInvalid);
    }
    var entries := ItemLoop(rules, o.localStorage.value, reject);
    if entries.Failure? {
      return Failure(entries.error);
    }
    var db := ValidateDatabases(o.indexedDb, allowDb);
    if db.Failure? {
      return Failure(db.error);
    }
    return Success(Origin(canonical.value, entries.value, db.value));
  }

  method ValidateStorageState(rules: Rules, raw: RawState, allowDb: bool, reject: bool)
    returns (r: Result<State, Error>)
    ensures r == ValidateState(rules, raw, allowDb, reject)
  {
    if raw.NotAState? || raw.cookies.None? || raw.origins.None? {
      return Failure(SessionInvalid);
    }
    if |raw.cookies.value| > 1024 || |raw.origins.value| > 256 {
      return Failure(SessionInvalid);
    }
    var cookies := CookieLoop(raw.cookies.value);
    if cookies.Failure? {
      return Failure(cookies.error);
    }
    var origins := OriginLoop(rules, raw.origins.value, allowDb, reject);
    if origins.Failure? {
      return Failure(origins.error);
    }
    return Success(State(cookies.value, origins.value));
  }

  // ---------------------------------------------------------------------------
  // What accepted state looks like, and that it is accepted again

  predicate CookieOk(c: Cookie) {
    |c.name| <= 512 && |c.value| <= 16384 && c.domain != "" && c.path != "" && c.path[0] == '/'
  }

  predicate ItemOk(rules: Rules, item: Item, clean: bool) {
    |item.name| <= 2048 && |item.value| <= 65536 && (clean ==> !rules.sensitive(item.name, item.value))
  }

  /** `clean`: no sensitive entry is left. */
  ghost predicate OriginOk(rules: Rules, o: Origin, clean: bool) {
    && rules.canonical(o.origin) == Some(o.origin)
    && |o.localStorage| <= 1024
    && (forall i :: 0 <= i < |o.localStorage| ==> ItemOk(rules, o.localStorage[i], clean))
    && (o.indexedDb.Some? ==> |o.indexedDb.value| <= 64)
  }

  /** Every origin is within its limits and none is named twice. */
  ghost predicate OriginsOk(rules: Rules, os: seq<Origin>, clean: bool) {
    os == [] ||
    (var init, last := os[..|os| - 1], os[|os| - 1];
     OriginsOk(rules, init, clean) && OriginOk(rules, last, clean) && last.origin !in Seen(init))
  }

  ghost predicate StateOk(rules: Rules, s: State, clean: bool) {
    && |s.cookies| <= 1024 && |s.origins| <= 256
    && (forall i :: 0 <= i < |s.cookies| ==> CookieOk(s.cookies[i]))
    && OriginsOk(rules, s.origins, clean)
  }

  predicate UsesDatabases(os: seq<Origin>) {
    exists i :: 0 <= i < |os| && os[i].indexedDb.Some?
  }

  lemma UsesDatabasesAppend(os: seq<Origin>, o: Origin)
    ensures UsesDatabases(os + [o]) <==> UsesDatabases(os) || o.indexedDb.Some?
  {
    var longer := os + [o];
    assert longer[|os|] == o;
    if UsesDatabases(os) {
      var i :| 0 <= i < |os| && os[i].indexedDb.Some?;
      assert longer[i].indexedDb.Some?;
    }
  }

  lemma OriginsOkAppend(rules: Rules, os: seq<Origin>, o: Origin, clean: bool)
    ensures OriginsOk(rules, os + [o], clean) <==>
            OriginsOk(rules, os, clean) && OriginOk(rules, o, clean) && o.origin !in Seen(os)
  {
    assert (os + [o])[..|os|] == os;
  }

  lemma {:induction false} AcceptedCookies(cs: seq<RawCookie>)
    requires ValidateCookies(cs).Success?
    ensures |ValidateCookies(cs).value| == |cs|
    ensures forall i :: 0 <= i < |cs| ==> CookieOk(ValidateCookies(cs).value[i])
  {
    if cs != [] {
      AcceptedCookies(cs[..|cs| - 1]);
    }
  }

  lemma {:induction false} AcceptedItems(rules: Rules, items: seq<RawItem>, reject: bool)
    requires ValidateItems(rules, items, reject).Success?
    ensures |ValidateItems(rules, items, reject).value| == |items|
    ensures forall i :: 0 <= i < |items| ==> ItemOk(rules, ValidateItems(rules, items, reject).value[i], reject)
  {
    if items != [] {
      AcceptedItems(rules, items[..|items| - 1], reject);
    }
  }

  lemma AcceptedOrigin(rules: Rules, o: RawOrigin, seen: set<string>, allowDb: bool, reject: bool)
    requires Idempotent(rules) && ValidateOrigin(rules, o, seen, allowDb, reject).Success?
    ensures OriginOk(rules, ValidateOrigin(rules, o, seen, allowDb, reject).value, reject)
    ensures ValidateOrigin(rules, o, seen, allowDb, reject).value.origin !in seen
    ensures !allowDb ==> ValidateOrigin(rules, o, seen, allowDb, reject).value.indexedDb.None?
  {
    AcceptedItems(rules, o.localStorage.value, reject);
  }

  lemma {:induction false} AcceptedOrigins(rules: Rules, os: seq<RawOrigin>, allowDb: bool, reject: bool)
    requires Idempotent(rules) && ValidateOrigins(rules, os, allowDb, reject).Success?
    ensures |ValidateOrigins(rules, os, allowDb, reject).value| == |os|
    ensures OriginsOk(rules, ValidateOrigins(rules, os, allowDb, reject).value, reject)
    ensures !allowDb ==> !UsesDatabases(ValidateOrigins(rules, os, allowDb, reject).value)
  {
    if os != [] {
      AcceptedOrigins(rules, os[..|os| - 1], allowDb, reject);
      var done := ValidateOrigins(rules, os[..|os| - 1], allowDb, reject).value;
      AcceptedOrigin(rules, os[|os| - 1], Seen(done), allowDb, reject);
      var o := ValidateOrigin(rules, os[|os| - 1], Seen(done), allowDb, reject).value;
      OriginsOkAppend(rules, done, o, reject);
      UsesDatabasesAppend(done, o);
    }
  }

  /** Accepted state satisfies every limit. */
  lemma AcceptedStateIsOk(rules: Rules, raw: RawState, allowDb: bool, reject: bool)
    requires Idempotent(rules) && ValidateState(rules, raw, allowDb, reject).Success?
    ensures StateOk(rules, ValidateState(rules, raw, allowDb, reject).value, reject)
    ensures !allowDb ==> !UsesDatabases(ValidateState(rules, raw, allowDb, reject).value.origins)
  {
    AcceptedCookies(raw.cookies.value);
    AcceptedOrigins(rules, raw.origins.value, allowDb, reject);
  }

  // ---------------------------------------------------------------------------
  // State written to a file and read back as untrusted input

  function RawOfCookie(c: Cookie): RawCookie {
    RawCookie(Some(c.name), Some(c.value), Some(c.domain), Some(c.path), c.other)
  }

  function RawOfCookies(cs: seq<Cookie>): (r: seq<RawCookie>)
    ensures |r| == |cs| && forall i :: 0 <= i < |cs| ==> r[i] == RawOfCookie(cs[i])
  {
    seq(|cs|, i requires 0 <= i < |cs| => RawOfCookie(cs[i]))
  }

  function RawOfItems(items: seq<Item>): (r: seq<RawItem>)
    ensures |r| == |items|
    ensures forall i :: 0 <= i < |items| ==> r[i] == RawItem(Some(items[i].name), Some(items[i].value))
  {
    seq(|items|, i requires 0 <= i < |items| => RawItem(Some(items[i].name), Some(items[i].value)))
  }

  function RawOfDatabases(d: Option<seq<Database>>): RawDatabases {
    match d
    case None => NoDatabases
    case Some(databases) =>
      RawDatabases(seq(|databases|, i requires 0 <= i < |databases| => Some(databases[i])))
  }

  function RawOfOrigin(o: Origin): RawOrigin {
    RawOrigin(Some(o.origin), Some(RawOfItems(o.localStorage)), RawOfDatabases(o.indexedDb))
  }

  function RawOfOrigins(os: seq<Origin>): (r: seq<RawOrigin>)
    ensures |r| == |os| && forall i :: 0 <= i < |os| ==> r[i] == RawOfOrigin(os[i])
  {
    seq(|os|, i requires 0 <= i < |os| => RawOfOrigin(os[i]))
  }

  function RawOf(s: State): RawState {
    RawState(Some(RawOfCookies(s.cookies)), Some(RawOfOrigins(s.origins)))
  }

  lemma CookieReadsBack(c: Cookie)
    requires CookieOk(c)
    ensures ValidateCookie(RawOfCookie(c)) == Success(c)
  {
  }

  lemma {:induction false} CookiesReadBack(cs: seq<Cookie>)
    requires forall i :: 0 <= i < |cs| ==> CookieOk(cs[i])
    ensures ValidateCookies(RawOfCookies(cs)) == Success(cs)
  {
    if cs != [] {
      var shorter, last := cs[..|cs| - 1], cs[|cs| - 1];
      CookiesReadBack(shorter);
      CookieReadsBack(last);
      var raw := RawOfCookies(cs);
      assert raw[..|raw| - 1] == RawOfCookies(shorter) && raw[|raw| - 1] == RawOfCookie(last);
      assert cs == shorter + [last];
    }
  }

  lemma {:induction false} ItemsReadBack(rules: Rules, items: seq<Item>, reject: bool)
    requires forall i :: 0 <= i < |items| ==> ItemOk(rules, items[i], reject)
    ensures ValidateItems(rules, RawOfItems(items), reject) == Success(items)
  {
    if items != [] {
      var shorter := items[..|items| - 1];
      ItemsReadBack(rules, shorter, reject);
      assert RawOfItems(items)[..|items| - 1] == RawOfItems(shorter);
      assert items == shorter + [items[|items| - 1]];
    }
  }

  lemma DatabasesReadBack(d: Option<seq<Database>>, allow: bool)
    requires d.Some? ==> |d.value| <= 64
    ensures ValidateDatabases(RawOfDatabases(d), allow) ==
            if d.Some? && !allow then Failure(SessionUnsupported) else Success(d)
  {
    if d.Some? {
      assert Names(RawOfDatabases(d).named) == d.value;
    }
  }

  lemma OriginReadsBack(rules: Rules, o: Origin, seen: set<string>, allowDb: bool, reject: bool)
    requires OriginOk(rules, o, reject) && o.origin !in seen
    ensures ValidateOrigin(rules, RawOfOrigin(o), seen, allowDb, reject) ==
            if o.indexedDb.Some? && !allowDb then Failure(SessionUnsupported) else Success(o)
  {
    ItemsReadBack(rules, o.localStorage, reject);
    DatabasesReadBack(o.indexedDb, allowDb);
  }

  lemma {:induction false} OriginsReadBack(rules: Rules, os: seq<Origin>, allowDb: bool, reject: bool)
    requires OriginsOk(rules, os, reject)
    ensures ValidateOrigins(rules, RawOfOrigins(os), allowDb, reject) ==
            if UsesDatabases(os) && !allowDb then Failure(SessionUnsupported) else Success(os)
  {
    if os != [] {
      var shorter, o := os[..|os| - 1], os[|os| - 1];
      assert os == shorter + [o];
      UsesDatabasesAppend(shorter, o);
      OriginsReadBack(rules, shorter, allowDb, reject);
      assert RawOfOrigins(os)[..|os| - 1] == RawOfOrigins(shorter);
      OriginReadsBack(rules, o, Seen(shorter), allowDb, reject);
    }
  }

  /** State within the limits is accepted unchanged, except that databases need permission. */
  lemma StateReadsBack(rules: Rules, s: State, allowDb: bool, reject: bool)
    requires StateOk(rules, s, reject)
    ensures ValidateState(rules, RawOf(s), allowDb, reject) ==
            if UsesDatabases(s.origins) && !allowDb then Failure(SessionUnsupported) else Success(s)
  {
    CookiesReadBack(s.cookies);
    OriginsReadBack(rules, s.origins, allowDb, reject);
  }

  // ---------------------------------------------------------------------------
  // Exactly what is accepted

  /** The raw origin has every field, and they are those of the accepted one; its own text may be
      any whose canonical form is the accepted origin. */
  ghost predicate ReadsOrigin(rules: Rules, raw: RawOrigin, o: Origin) {
    && raw.RawOrigin? && raw.origin.Some? && rules.canonical(raw.origin.value) == Some(o.origin)
    && raw.localStorage == Some(RawOfItems(o.localStorage)) && raw.indexedDb == RawOfDatabases(o.indexedDb)
  }

  ghost predicate ReadsOrigins(rules: Rules, raw: seq<RawOrigin>, os: seq<Origin>) {
    |raw| == |os| && forall i :: 0 <= i < |os| ==> ReadsOrigin(rules, raw[i], os[i])
  }

  /** The raw state has every field and holds exactly this state. */
  ghost predicate ReadsState(rules: Rules, raw: RawState, s: State) {
    && raw.RawState? && raw.cookies == Some(RawOfCookies(s.cookies))
    && raw.origins.Some? && ReadsOrigins(rules, raw.origins.value, s.origins)
  }

  lemma {:induction false} AcceptedCookiesAreRead(cs: seq<RawCookie>)
    requires ValidateCookies(cs).Success?
    ensures cs == RawOfCookies(ValidateCookies(cs).value)
  {
    if cs != [] {
      var init, last := cs[..|cs| - 1], cs[|cs| - 1];
      AcceptedCookiesAreRead(init);
      assert last == RawOfCookie(ValidateCookie(last).value);
      assert cs == init + [last];
    }
  }

  lemma {:induction false} AcceptedItemsAreRead(rules: Rules, items: seq<RawItem>, reject: bool)
    requires ValidateItems(rules, items, reject).Success?
    ensures items == RawOfItems(ValidateItems(rules, items, reject).value)
  {
    if items != [] {
      AcceptedItemsAreRead(rules, items[..|items| - 1], reject);
      assert items == items[..|items| - 1] + [items[|items| - 1]];
    }
  }

  lemma AcceptedOriginIsRead(rules: Rules, o: RawOrigin, seen: set<string>, allowDb: bool, reject: bool)
    requires ValidateOrigin(rules, o, seen, allowDb, reject).Success?
    ensures ReadsOrigin(rules, o, ValidateOrigin(rules, o, seen, allowDb, reject).value)
  {
    AcceptedItemsAreRead(rules, o.localStorage.value, reject);
    if o.indexedDb.RawDatabases? {
      assert RawOfDatabases(Some(Names(o.indexedDb.named))).named == o.indexedDb.named;
    }
  }

  lemma {:induction false} AcceptedOriginsAreRead(rules: Rules, os: seq<RawOrigin>, allowDb: bool, reject: bool)
    requires ValidateOrigins(rules, os, allowDb, reject).Success?
    ensures ReadsOrigins(rules, os, ValidateOrigins(rules, os, allowDb, reject).value)
  {
    if os != [] {
      AcceptedOriginsAreRead(rules, os[..|os| - 1], allowDb, reject);
      var done := ValidateOrigins(rules, os[..|os| - 1], allowDb, reject).value;
      AcceptedOriginIsRead(rules, os[|os| - 1], Seen(done), allowDb, reject);
    }
  }

  lemma ReadOriginIsAccepted(rules: Rules, raw: RawOrigin, o: Origin, seen: set<string>, allowDb: bool, reject: bool)
    requires ReadsOrigin(rules, raw, o) && OriginOk(rules, o, reject) && o.origin !in seen
    requires o.indexedDb.Some? ==> allowDb
    ensures ValidateOrigin(rules, raw, seen, allowDb, reject) == Success(o)
  {
    ItemsReadBack(rules, o.localStorage, reject);
    DatabasesReadBack(o.indexedDb, allowDb);
  }

  lemma {:induction false} ReadOriginsAreAccepted(rules: Rules, raw: seq<RawOrigin>, os: seq<Origin>, allowDb: bool, reject: bool)
    requires ReadsOrigins(rules, raw, os) && OriginsOk(rules, os, reject) && (UsesDatabases(os) ==> allowDb)
    ensures ValidateOrigins(rules, raw, allowDb, reject) == Success(os)
    decreases |os|
  {
    if os != [] {
      var init, last := os[..|os| - 1], os[|os| - 1];
      assert os == init + [last];
      UsesDatabasesAppend(init, last);
      ReadOriginsAreAccepted(rules, raw[..|raw| - 1], init, allowDb, reject);
      ReadOriginIsAccepted(rules, raw[|raw| - 1], last, Seen(init), allowDb, reject);
    }
  }

  /** Raw state is accepted as a state exactly when it holds exactly that state, with canonical
      origins, the state is within every limit, and databases are permitted if it has some. */
  lemma StateIsAcceptedIff(rules: Rules, raw: RawState, allowDb: bool, reject: bool, s: State)
    requires Idempotent(rules)
    ensures ValidateState(rules, raw, allowDb, reject) == Success(s) <==>
            ReadsState(rules, raw, s) && StateOk(rules, s, reject) && (UsesDatabases(s.origins) ==> allowDb)
  {
    if ValidateState(rules, raw, allowDb, reject) == Success(s) {
      AcceptedStateIsOk(rules, raw, allowDb, reject);
      AcceptedCookiesAreRead(raw.cookies.value);
      AcceptedOriginsAreRead(rules, raw.origins.value, allowDb, reject);
    }
    if ReadsState(rules, raw, s) && StateOk(rules, s, reject) && (UsesDatabases(s.origins) ==> allowDb) {
      CookiesReadBack(s.cookies);
      ReadOriginsAreAccepted(rules, raw.origins.value, s.origins, allowDb, reject);
    }
  }

  // ---------------------------------------------------------------------------
  // Export

  datatype Policy = Policy(cookies: bool, localStorage: bool, indexedDb: bool)

  const SCHEMA_VERSION: int := 2
  const KIND: string := "dingdongditch_portable_browser_state"
  const MAX_AGE_LIMIT: int := 30 * 24 * 60 * 60 * 1000

  datatype Document = Document(schema: int, kind: string, createdAt: int, features: seq<string>, state: State)

  function Features(p: Policy): seq<string> {
    (if p.cookies then ["cookies"] else [])
    + (if p.localStorage then ["local_storage"] else [])
    + (if p.indexedDb then ["indexed_db"] else [])
  }

  /** The entries that may leave, and how many may not. */
  function Keep(rules: Rules, items: seq<Item>): (r: (seq<Item>, nat))
    ensures |r.0| + r.1 == |items|
  {
    if items == [] then ([], 0)
    else
      var (kept, excluded) := Keep(rules, items[..|items| - 1]);
      var item := items[|items| - 1];
      if rules.sensitive(item.name, item.value) then (kept, excluded + 1) else (kept + [item], excluded)
  }

  function ExportOrigin(rules: Rules, p: Policy, o: Origin): Origin {
    Origin(o.origin, if p.localStorage then Keep(rules, o.localStorage).0 else [],
           if p.indexedDb then o.indexedDb else None)
  }

  function ExportOrigins(rules: Rules, p: Policy, os: seq<Origin>): (r: seq<Origin>)
    ensures |r| == |os| && forall i :: 0 <= i < |os| ==> r[i] == ExportOrigin(rules, p, os[i])
  {
    if os == [] then []
    else ExportOrigins(rules, p, os[..|os| - 1]) + [ExportOrigin(rules, p, os[|os| - 1])]
  }

  /** How many entries are left out as sensitive. */
  function ExcludedFrom(rules: Rules, p: Policy, os: seq<Origin>): nat {
    if os == [] || !p.localStorage then 0
    else ExcludedFrom(rules, p, os[..|os| - 1]) + Keep(rules, os[|os| - 1].localStorage).1
  }

  /** The document, and the number of sensitive entries left out of it. */
  function Build(rules: Rules, raw: RawState, p: Policy, createdAt: int): Result<(Document, nat), Error> {
    if !(p.cookies || p.localStorage || p.indexedDb) then Failure(PolicyInvalid)
    else
      match ValidateState(rules, raw, p.indexedDb, false)
      case Failure(e) => Failure(e)
      case Success(s) =>
        Success((Document(SCHEMA_VERSION, KIND, createdAt, Features(p),
                          State(if p.cookies then s.cookies else [], ExportOrigins(rules, p, s.origins))),
                 ExcludedFrom(rules, p, s.origins)))
  }

  method BuildPortableState(rules: Rules, raw: RawState, p: Policy, createdAt: int)
    returns (r: Result<(Document, nat), Error>)
    ensures r == Build(rules, raw, p, createdAt)
  {
    if !(p.cookies || p.localStorage || p.indexedDb) {
      return Failure(PolicyInvalid);
    }
    var checked := ValidateStorageState(rules, raw, p.indexedDb, false);
    if checked.Failure? {
      return Failure(checked.error);
    }
    var s := checked.value;
    var origins, excluded := ExportLoop(rules, p, s.origins);
    return Success((Document(SCHEMA_VERSION, KIND, createdAt, Features(p),
                             State(if p.cookies then s.cookies else [], origins)), excluded));
  }

  lemma ExcludedStep(rules: Rules, p: Policy, os: seq<Origin>, i: nat)
    requires i < |os|
    ensures ExcludedFrom(rules, p, os[..i + 1]) ==
            ExcludedFrom(rules, p, os[..i]) + if p.localStorage then Keep(rules, os[i].localStorage).1 else 0
  {
    assert os[..i + 1][..i] == os[..i];
  }

  method ExportOne(rules: Rules, p: Policy, o: Origin) returns (output: Origin, excluded: nat)
    ensures output == ExportOrigin(rules, p, o)
    ensures excluded == if p.localStorage then Keep(rules, o.localStorage).1 else 0
  {
    output, excluded := Origin(o.origin, [], None), 0;
    if p.localStorage {
      var kept;
      kept, excluded := KeepLoop(rules, o.localStorage);
      output := output.(localStorage := kept);
    }
    if p.indexedDb && o.indexedDb.Some? {
      output := output.(indexedDb := o.indexedDb);
    }
  }

  method ExportLoop(rules: Rules, p: Policy, os: seq<Origin>) returns (origins: seq<Origin>, excluded: nat)
    ensures origins == ExportOrigins(rules, p, os) && excluded == ExcludedFrom(rules, p, os)
  {
    origins, excluded := [], 0;
    for i := 0 to |os|
      invariant |origins| == i && forall j :: 0 <= j < i ==> origins[j] == ExportOrigin(rules, p, os[j])
      invariant excluded == ExcludedFrom(rules, p, os[..i])
    {
      ExcludedStep(rules, p, os, i);
      var output, more := ExportOne(rules, p, os[i]);
      excluded := excluded + more;
      origins := origins + [output];
    }
    assert os[..|os|] == os;
  }

  method KeepLoop(rules: Rules, items: seq<Item>) returns (kept: seq<Item>, excluded: nat)
    ensures (kept, excluded) == Keep(rules, items)
  {
    kept, excluded := [], 0;
    for i := 0 to |items|
      invariant (kept, excluded) == Keep(rules, items[..i])
    {
      assert items[..i + 1][..i] == items[..i];
      if rules.sensitive(items[i].name, items[i].value) {
        excluded := excluded + 1;
      } else {
        kept := kept + [items[i]];
      }
    }
    assert items[..|items|] == items;
  }

  // ---------------------------------------------------------------------------
  // Import

  datatype RawDocument = NotADocument | RawDocument(
    schema: Option<int>, kind: Option<string>, createdAt: Option<int>, features: Option<seq<string>>, state: RawState)

  predicate KnownFeature(f: string) {
    f == "cookies" || f == "local_storage" || f == "indexed_db"
  }

  predicate NoRepeats(fs: seq<string>) {
    forall i, j :: 0 <= i < j < |fs| ==> fs[i] != fs[j]
  }

  function Validate(rules: Rules, d: RawDocument, now: int, maxAge: int, allowDb: bool): Result<State, Error> {
    if !(1 <= maxAge <= MAX_AGE_LIMIT) || d.NotADocument? then Failure(SessionInvalid)
    else if d.schema != Some(SCHEMA_VERSION) || d.kind != Some(KIND) || d.createdAt.None? then Failure(SessionInvalid)
    else if now - d.createdAt.value < 0 || now - d.createdAt.value > maxAge then Failure(SessionStale)
    else if d.features.None? || !(forall f :: f in d.features.value ==> KnownFeature(f)) || !NoRepeats(d.features.value) then
      Failure(SessionInvalid)
    else
      match ValidateState(rules, d.state, allowDb, true)
      case Failure(e) => Failure(e)
      case Success(s) =>
        if UsesDatabases(s.origins) && "indexed_db" !in d.features.value then Failure(SessionInvalid)
        else if UsesDatabases(s.origins) && !allowDb then Failure(SessionUnsupported)
        else Success(s)
  }

  function RawOfDocument(d: Document): RawDocument {
    RawDocument(Some(d.schema), Some(d.kind), Some(d.createdAt), Some(d.features), RawOf(d.state))
  }

  // ---------------------------------------------------------------------------
  // The guarantees

  lemma {:induction false} KeptItems(rules: Rules, items: seq<Item>)
    ensures forall i :: 0 <= i < |Keep(rules, items).0| ==>
              Keep(rules, items).0[i] in items && !rules.sensitive(Keep(rules, items).0[i].name, Keep(rules, items).0[i].value)
    ensures forall item :: item in items && !rules.sensitive(item.name, item.value) ==> item in Keep(rules, items).0
  {
    if items != [] {
      KeptItems(rules, items[..|items| - 1]);
      assert items == items[..|items| - 1] + [items[|items| - 1]];
    }
  }

  lemma ExportedOriginIsOk(rules: Rules, p: Policy, o: Origin)
    requires OriginOk(rules, o, false)
    ensures OriginOk(rules, ExportOrigin(rules, p, o), true)
  {
    KeptItems(rules, o.localStorage);
    var kept := ExportOrigin(rules, p, o).localStorage;
    forall i | 0 <= i < |kept| ensures ItemOk(rules, kept[i], true) {
      assert kept[i] in o.localStorage;
      var j :| 0 <= j < |o.localStorage| && o.localStorage[j] == kept[i];
      assert ItemOk(rules, o.localStorage[j], false);
    }
  }

  lemma OneMoreExportIsOk(rules: Rules, p: Policy, init: seq<Origin>, last: Origin)
    requires OriginsOk(rules, init + [last], false)
    requires OriginsOk(rules, ExportOrigins(rules, p, init), true)
    requires Seen(ExportOrigins(rules, p, init)) == Seen(init)
    ensures OriginsOk(rules, ExportOrigins(rules, p, init) + [ExportOrigin(rules, p, last)], true)
    ensures Seen(ExportOrigins(rules, p, init) + [ExportOrigin(rules, p, last)]) == Seen(init + [last])
  {
    OriginsOkAppend(rules, init, last, false);
    ExportedOriginIsOk(rules, p, last);
    OriginsOkAppend(rules, ExportOrigins(rules, p, init), ExportOrigin(rules, p, last), true);
    SeenAppend(init, last);
    SeenAppend(ExportOrigins(rules, p, init), ExportOrigin(rules, p, last));
  }

  lemma {:induction false} ExportedOriginsAreOk(rules: Rules, p: Policy, os: seq<Origin>)
    requires OriginsOk(rules, os, false)
    ensures OriginsOk(rules, ExportOrigins(rules, p, os), true)
    ensures Seen(ExportOrigins(rules, p, os)) == Seen(os)
  {
    if os != [] {
      var init, last := os[..|os| - 1], os[|os| - 1];
      assert os == init + [last];
      OriginsOkAppend(rules, init, last, false);
      ExportedOriginsAreOk(rules, p, init);
      OneMoreExportIsOk(rules, p, init, last);
    }
  }

  lemma SeenAppend(os: seq<Origin>, o: Origin)
    ensures Seen(os + [o]) == Seen(os) + {o.origin}
  {
    assert forall x :: x in os + [o] <==> x in os || x == o;
  }

  lemma ExportedStateIsOk(rules: Rules, p: Policy, s: State)
    requires StateOk(rules, s, false)
    ensures StateOk(rules, State(if p.cookies then s.cookies else [], ExportOrigins(rules, p, s.origins)), true)
  {
    ExportedOriginsAreOk(rules, p, s.origins);
  }

  lemma FeaturesAreDeclaredOnce(p: Policy)
    ensures forall f :: f in Features(p) ==> KnownFeature(f)
    ensures NoRepeats(Features(p))
    ensures "indexed_db" in Features(p) <==> p.indexedDb
  {
    assert |"cookies"| == 7 && |"local_storage"| == 13 && |"indexed_db"| == 10;
  }

  /** A well-formed document validates to its own state, unless it is too old or holds
      databases that are not allowed. */
  lemma WellFormedDocumentsImport(rules: Rules, d: Document, now: int, maxAge: int, allowDb: bool)
    requires d.schema == SCHEMA_VERSION && d.kind == KIND && 1 <= maxAge <= MAX_AGE_LIMIT
    requires (forall f :: f in d.features ==> KnownFeature(f)) && NoRepeats(d.features)
    requires UsesDatabases(d.state.origins) ==> "indexed_db" in d.features
    requires StateOk(rules, d.state, true)
    ensures Validate(rules, RawOfDocument(d), now, maxAge, allowDb) ==
            if !(0 <= now - d.createdAt <= maxAge) then Failure(SessionStale)
            else if UsesDatabases(d.state.origins) && !allowDb then Failure(SessionUnsupported)
            else Success(d.state)
  {
    StateReadsBack(rules, d.state, allowDb, true);
  }

  lemma ExportedDatabasesAreDeclared(rules: Rules, p: Policy, os: seq<Origin>)
    requires UsesDatabases(ExportOrigins(rules, p, os))
    ensures p.indexedDb
  {
    var origins := ExportOrigins(rules, p, os);
    var i :| 0 <= i < |origins| && origins[i].indexedDb.Some?;
    assert origins[i] == ExportOrigin(rules, p, os[i]);
  }

  /** Every document built from accepted browser state validates at any time within its maximum
      age and gives back exactly its storage state, provided databases are allowed whenever the
      state has some; otherwise it is refused as unsupported, and outside its age as stale. */
  lemma ExportedDocumentsImport(rules: Rules, validHost: string -> bool, raw: RawState, p: Policy,
                                createdAt: int, now: int, maxAge: int, allowDb: bool)
    requires CanonicalisesOrigins(rules, validHost)
    requires Build(rules, raw, p, createdAt).Success? && 1 <= maxAge <= MAX_AGE_LIMIT
    ensures var d := Build(rules, raw, p, createdAt).value.0;
            Validate(rules, RawOfDocument(d), now, maxAge, allowDb) ==
            if !(0 <= now - createdAt <= maxAge) then Failure(SessionStale)
            else if UsesDatabases(d.state.origins) && !allowDb then Failure(SessionUnsupported)
            else Success(d.state)
  {
    var d := Build(rules, raw, p, createdAt).value.0;
    var s := ValidateState(rules, raw, p.indexedDb, false).value;
    CanonicalFormsAreFixed(rules, validHost);
    AcceptedStateIsOk(rules, raw, p.indexedDb, false);
    ExportedStateIsOk(rules, p, s);
    FeaturesAreDeclaredOnce(p);
    if UsesDatabases(d.state.origins) {
      ExportedDatabasesAreDeclared(rules, p, s.origins);
    }
    WellFormedDocumentsImport(rules, d, now, maxAge, allowDb);
  }

  /** A document is imported as a state exactly when the maximum age is between one millisecond
      and thirty days, the document is of the right version and kind, its age is neither negative
      nor above the maximum, its features are known and named once each, its state is accepted
      without sensitive entries, and databases are both declared and allowed if there are any. */
  lemma ImportIsAcceptedIff(rules: Rules, d: RawDocument, now: int, maxAge: int, allowDb: bool, s: State)
    ensures Validate(rules, d, now, maxAge, allowDb) == Success(s) <==>
            && 1 <= maxAge <= 2592000000
            && d.RawDocument? && d.schema == Some(2) && d.kind == Some("dingdongditch_portable_browser_state")
            && d.createdAt.Some? && d.createdAt.value <= now <= d.createdAt.value + maxAge
            && d.features.Some? && NoRepeats(d.features.value)
            && (forall f :: f in d.features.value ==> f == "cookies" || f == "local_storage" || f == "indexed_db")
            && ValidateState(rules, d.state, allowDb, true) == Success(s)
            && (UsesDatabases(s.origins) ==> "indexed_db" in d.features.value && allowDb)
  {
  }

  /** With databases allowed exactly as the policy included them, import always succeeds. */
  lemma ImportUnderTheSamePolicy(rules: Rules, validHost: string -> bool, raw: RawState, p: Policy,
                                 createdAt: int, now: int, maxAge: int)
    requires CanonicalisesOrigins(rules, validHost)
    requires Build(rules, raw, p, createdAt).Success? && 1 <= maxAge <= MAX_AGE_LIMIT
    requires 0 <= now - createdAt <= maxAge
    ensures Validate(rules, RawOfDocument(Build(rules, raw, p, createdAt).value.0), now, maxAge, p.indexedDb)
         == Success(Build(rules, raw, p, createdAt).value.0.state)
  {
    ExportedDocumentsImport(rules, validHost, raw, p, createdAt, now, maxAge, p.indexedDb);
    var s := ValidateState(rules, raw, p.indexedDb, false).value;
    if UsesDatabases(ExportOrigins(rules, p, s.origins)) {
      ExportedDatabasesAreDeclared(rules, p, s.origins);
    }
  }

  function Entries(os: seq<Origin>): nat {
    if os == [] then 0 else Entries(os[..|os| - 1]) + |os[|os| - 1].localStorage|
  }

  lemma {:induction false} EntriesAreConserved(rules: Rules, p: Policy, os: seq<Origin>)
    requires p.localStorage
    ensures Entries(ExportOrigins(rules, p, os)) + ExcludedFrom(rules, p, os) == Entries(os)
  {
    if os != [] {
      EntriesAreConserved(rules, p, os[..|os| - 1]);
      assert ExportOrigins(rules, p, os)[..|os| - 1] == ExportOrigins(rules, p, os[..|os| - 1]);
    }
  }

  /** These are, in order, the entries of the list that are not sensitive. */
  ghost predicate IsWithoutSensitive(rules: Rules, kept: seq<Item>, items: seq<Item>) {
    exists at: seq<nat> ::
      && Selects((item: Item) => !rules.sensitive(item.name, item.value), items, at)
      && |kept| == |at| && forall k :: 0 <= k < |at| ==> at[k] < |items| && kept[k] == items[at[k]]
  }

  lemma {:induction false} KeepPositions(rules: Rules, items: seq<Item>) returns (at: seq<nat>)
    ensures Selects((item: Item) => !rules.sensitive(item.name, item.value), items, at)
    ensures var kept := Keep(rules, items).0;
            |kept| == |at| && forall k :: 0 <= k < |at| ==> at[k] < |items| && kept[k] == items[at[k]]
  {
    if items == [] {
      at := [];
    } else {
      var init, last := items[..|items| - 1], items[|items| - 1];
      var before := KeepPositions(rules, init);
      assert items == init + [last];
      SelectsAppend((item: Item) => !rules.sensitive(item.name, item.value), init, before, last);
      at := if !rules.sensitive(last.name, last.value) then before + [|init|] else before;
    }
  }

  lemma KeepIsWithoutSensitive(rules: Rules, items: seq<Item>)
    ensures IsWithoutSensitive(rules, Keep(rules, items).0, items)
  {
    var at := KeepPositions(rules, items);
  }

  /** What an origin becomes in the document. */
  ghost predicate IsExportOf(rules: Rules, p: Policy, exported: Origin, o: Origin) {
    && exported.origin == o.origin
    && (p.localStorage ==> IsWithoutSensitive(rules, exported.localStorage, o.localStorage))
    && (!p.localStorage ==> exported.localStorage == [])
    && exported.indexedDb == if p.indexedDb then o.indexedDb else None
  }

  /** The document declares exactly the features of the policy, each once. */
  ghost predicate DeclaresPolicy(features: seq<string>, p: Policy) {
    && NoRepeats(features)
    && forall f :: f in features <==>
         (f == "cookies" && p.cookies) || (f == "local_storage" && p.localStorage) || (f == "indexed_db" && p.indexedDb)
  }

  lemma FeaturesDeclareThePolicy(p: Policy)
    ensures DeclaresPolicy(Features(p), p)
  {
    FeaturesAreDeclaredOnce(p);
  }

  /** Exporting is accepted exactly when the policy includes something and the state is accepted,
      databases only if the policy includes them. The document then holds the cookies exactly if
      the policy includes them; of every origin, in order, exactly the entries that are not
      sensitive and the databases, each exactly if the policy includes them; it declares exactly
      the policy's features; and kept and excluded entries add up to the input. */
  lemma ExportIsExact(rules: Rules, raw: RawState, p: Policy, createdAt: int)
    ensures Build(rules, raw, p, createdAt).Success? <==>
            (p.cookies || p.localStorage || p.indexedDb) && ValidateState(rules, raw, p.indexedDb, false).Success?
    ensures Build(rules, raw, p, createdAt).Success? ==>
              var (d, excluded) := Build(rules, raw, p, createdAt).value;
              var before := ValidateState(rules, raw, p.indexedDb, false).value;
              && d.schema == 2 && d.kind == "dingdongditch_portable_browser_state" && d.createdAt == createdAt
              && DeclaresPolicy(d.features, p)
              && d.state.cookies == (if p.cookies then before.cookies else [])
              && |d.state.origins| == |before.origins|
              && (forall i :: 0 <= i < |before.origins| ==> IsExportOf(rules, p, d.state.origins[i], before.origins[i]))
              && excluded == if p.localStorage then Entries(before.origins) - Entries(d.state.origins) else 0
  {
    if Build(rules, raw, p, createdAt).Success? {
      var before := ValidateState(rules, raw, p.indexedDb, false).value.origins;
      FeaturesDeclareThePolicy(p);
      forall i | 0 <= i < |before| ensures IsExportOf(rules, p, ExportOrigin(rules, p, before[i]), before[i]) {
        KeepIsWithoutSensitive(rules, before[i].localStorage);
      }
      if p.localStorage {
        EntriesAreConserved(rules, p, before);
      }
    }
  }
}
