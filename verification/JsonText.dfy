/** JSON text and line streams: `json.dumps(..., ensure_ascii=False)`, `json.loads`,
    `str.splitlines`, and the streams that dingdongditch/runtime/publication.py
    (`append_json_line`) writes and dingdongditch/continuity.py (`_read_events`) reads. */
module JsonText {
  import opened Wrappers

  /** The characters of numbers and of the words true, false and null. */
  predicate IsScalarChar(c: char) {
    '0' <= c <= '9' || 'a' <= c <= 'z' || 'A' <= c <= 'Z' || c == '+' || c == '-' || c == '.'
  }

  predicate IsScalar(s: string) {
    s != "" && forall i :: 0 <= i < |s| ==> IsScalarChar(s[i])
  }

  type Scalar = s: string | IsScalar(s) witness "0"

  /** A JSON value; an object lists its members in order. */
  datatype Json =
    | Plain(scalar: Scalar)
    | Text(text: string)
    | Array(items: seq<Json>)
    | Object(members: seq<Member>)

  datatype Member = Member(key: string, value: Json)

  // ---------------------------------------------------------------------------
  // Writing

  function HexDigit(n: nat): char
    requires n < 16
  {
    if n < 10 then '0' + n as char else 'a' + (n - 10) as char
  }

  function EscapeChar(c: char): (s: string)
    ensures s != ""
    ensures |s| == 1 <==> c != '\"' && c != '\\' && c >= ' '
    ensures |s| == 1 ==> s[0] == c
    ensures |s| > 1 ==> s[0] == '\\'
  {
    if c == '\"' then ['\\', '\"']
    else if c == '\\' then ['\\', '\\']
    else if c == '\n' then ['\\', 'n']
    else if c == '\r' then ['\\', 'r']
    else if c == '\t' then ['\\', 't']
    else if c == 8 as char then ['\\', 'b']
    else if c == 12 as char then ['\\', 'f']
    else if c < ' ' then ['\\', 'u', '0', '0', HexDigit(c as nat / 16), HexDigit(c as nat % 16)]
    else [c]
  }

  function EscapeAll(s: string): string {
    if s == "" then "" else EscapeChar(s[0]) + EscapeAll(s[1..])
  }

  function Quote(s: string): string {
    ['\"'] + EscapeAll(s) + ['\"']
  }

  /** The number of direct parts of a value. */
  function Width(v: Json): nat {
    if v.Array? then |v.items| else if v.Object? then |v.members| else 0
  }

  function Dump(v: Json): string
    decreases v, Width(v) + 1
  {
    match v
    case Plain(scalar) => scalar
    case Text(text) => Quote(text)
    case Array(items) => if items == [] then "[]" else ['['] + DumpItems(v, 0)
    case Object(members) => if members == [] then "{}" else ['{'] + DumpMembers(v, 0)
  }

  /** The items from the k-th on, with the closing bracket. */
  function DumpItems(v: Json, k: nat): string
    requires v.Array? && k < |v.items|
    decreases v, |v.items| - k
  {
    Dump(v.items[k]) + if k + 1 == |v.items| then [']'] else [',', ' '] + DumpItems(v, k + 1)
  }

  function DumpMembers(v: Json, k: nat): string
    requires v.Object? && k < |v.members|
    decreases v, |v.members| - k
  {
    Quote(v.members[k].key) + ([':', ' '] + (Dump(v.members[k].value) +
      if k + 1 == |v.members| then ['}'] else [',', ' '] + DumpMembers(v, k + 1)))
  }

  // ---------------------------------------------------------------------------
  // Reading

  /** What was read, and the text behind it. */
  datatype Got<+T> = Got(value: T, rest: string)

  predicate IsSpace(c: char) {
    c == ' ' || c == '\t' || c == '\n' || c == '\r'
  }

  function Skip(s: string): (r: string)
    ensures |r| <= |s|
  {
    if s != "" && IsSpace(s[0]) then Skip(s[1..]) else s
  }

  function HexValue(c: char): Option<nat> {
    if '0' <= c <= '9' then Some(c as nat - '0' as nat)
    else if 'a' <= c <= 'f' then Some(c as nat - 'a' as nat + 10)
    else if 'A' <= c <= 'F' then Some(c as nat - 'A' as nat + 10)
    else None
  }

  /** The character that four hexadecimal digits stand for, unless it is half of a pair. */
  function HexChar(s: string): Option<char>
    requires |s| == 4
  {
    var a, b, c, d := HexValue(s[0]), HexValue(s[1]), HexValue(s[2]), HexValue(s[3]);
    if a.None? || b.None? || c.None? || d.None? then None
    else
      var n := ((a.value * 16 + b.value) * 16 + c.value) * 16 + d.value;
      if n < 0xD800 || 0xE000 <= n < 0x10000 then Some(n as char) else None
  }

  function Unescaped(c: char): Option<char> {
    if c == '\"' || c == '\\' || c == '/' then Some(c)
    else if c == 'n' then Some('\n')
    else if c == 'r' then Some('\r')
    else if c == 't' then Some('\t')
    else if c == 'b' then Some(8 as char)
    else if c == 'f' then Some(12 as char)
    else None
  }

  function Before(c: Option<char>, r: Option<Got<string>>): Option<Got<string>> {
    if c.Some? && r.Some? then Some(Got([c.value] + r.value.value, r.value.rest)) else None
  }

  /** The rest of a string literal, up to its closing quote. */
  function ParseString(s: string): (r: Option<Got<string>>)
    ensures r.Some? ==> |r.value.rest| < |s|
    decreases |s|
  {
    if s == "" then None
    else if s[0] == '\"' then Some(Got("", s[1..]))
    else if s[0] == '\\' then
      if |s| >= 6 && s[1] == 'u' then Before(HexChar(s[2..6]), ParseString(s[6..]))
      else if |s| >= 2 then Before(Unescaped(s[1]), ParseString(s[2..]))
      else None
    else if s[0] < ' ' then None
    else Before(Some(s[0]), ParseString(s[1..]))
  }

  function ScalarLength(s: string): (n: nat)
    ensures n <= |s|
    ensures forall i :: 0 <= i < n ==> IsScalarChar(s[i])
    ensures n < |s| ==> !IsScalarChar(s[n])
  {
    if s != "" && IsScalarChar(s[0]) then 1 + ScalarLength(s[1..]) else 0
  }

  function ParseValue(s: string): (r: Option<Got<Json>>)
    ensures r.Some? ==> |r.value.rest| < |s|
    decreases |s|, 0
  {
    if s == "" then None
    else if s[0] == '\"' then
      (match ParseString(s[1..])
       case None => None
       case Some(got) => Some(Got(Text(got.value), got.rest)))
    else if s[0] == '[' then
      var t := Skip(s[1..]);
      if t != "" && t[0] == ']' then Some(Got(Array([]), t[1..]))
      else
        match ParseItems(t)
        case None => None
        case Some(got) => Some(Got(Array(got.value), got.rest))
    else if s[0] == '{' then
      var t := Skip(s[1..]);
      if t != "" && t[0] == '}' then Some(Got(Object([]), t[1..]))
      else
        match ParseMembers(t)
        case None => None
        case Some(got) => Some(Got(Object(got.value), got.rest))
    else
      var n := ScalarLength(s);
      if n == 0 then None else Some(Got(Plain(s[..n]), s[n..]))
  }

  /** One or more values separated by commas, and the closing bracket. */
  function ParseItems(s: string): (r: Option<Got<seq<Json>>>)
    ensures r.Some? ==> |r.value.rest| < |s|
    decreases |s|, 1
  {
    match ParseValue(Skip(s))
    case None => None
    case Some(got) =>
      var t := Skip(got.rest);
      if t == "" then None
      else if t[0] == ']' then Some(Got([got.value], t[1..]))
      else if t[0] != ',' then None
      else
        match ParseItems(t[1..])
        case None => None
        case Some(more) => Some(Got([got.value] + more.value, more.rest))
  }

  /** One or more members separated by commas, and the closing brace. */
  function ParseMembers(s: string): (r: Option<Got<seq<Member>>>)
    ensures r.Some? ==> |r.value.rest| < |s|
    decreases |s|, 1
  {
    match ParseKey(Skip(s))
    case None => None
    case Some(key) =>
      match ParseValue(Skip(key.rest))
      case None => None
      case Some(got) =>
        var t, member := Skip(got.rest), Member(key.value, got.value);
        if t == "" then None
        else if t[0] == '}' then Some(Got([member], t[1..]))
        else if t[0] != ',' then None
        else
          match ParseMembers(t[1..])
          case None => None
          case Some(more) => Some(Got([member] + more.value, more.rest))
  }

  /** A quoted key and its colon. */
  function ParseKey(s: string): (r: Option<Got<string>>)
    ensures r.Some? ==> |r.value.rest| < |s|
  {
    if s == "" || s[0] != '\"' then None
    else
      match ParseString(s[1..])
      case None => None
      case Some(got) =>
        var t := Skip(got.rest);
        if t == "" || t[0] != ':' then None else Some(Got(got.value, t[1..]))
  }

  /** `json.loads`: one value with nothing but space around it. */
  function Parse(s: string): Option<Json> {
    match ParseValue(Skip(s))
    case None => None
    case Some(got) => if Skip(got.rest) == "" then Some(got.value) else None
  }

  // ---------------------------------------------------------------------------
  // Reading gives back what was written

  lemma HexOfControl(c: char)
    requires c < ' '
    ensures HexChar(['0', '0', HexDigit(c as nat / 16), HexDigit(c as nat % 16)]) == Some(c)
  {
  }

  lemma Regroup(a: string, b: string, c: string)
    ensures (a + b) + c == a + (b + c)
  {
  }

  /** One escaped character is read back, whatever follows. */
  lemma ParseEscaped(c: char, more: string)
    ensures ParseString(EscapeChar(c) + more) == Before(Some(c), ParseString(more))
  {
    var e := EscapeChar(c);
    var s := e + more;
    assert s[|e|..] == more;
    if |e| == 6 {
      assert s[2..6] == ['0', '0', HexDigit(c as nat / 16), HexDigit(c as nat % 16)];
      HexOfControl(c);
    }
  }

  lemma {:induction false} ParseQuoted(text: string, rest: string)
    ensures ParseString(EscapeAll(text) + (['\"'] + rest)) == Some(Got(text, rest))
  {
    var tail := ['\"'] + rest;
    if text == "" {
      assert EscapeAll(text) + tail == tail && tail[1..] == rest;
    } else {
      ParseQuoted(text[1..], rest);
      Regroup(EscapeChar(text[0]), EscapeAll(text[1..]), tail);
      ParseEscaped(text[0], EscapeAll(text[1..]) + tail);
      assert text == [text[0]] + text[1..];
    }
  }

  /** A value ends before this text. */
  predicate Ends(rest: string) {
    rest == "" || !IsScalarChar(rest[0])
  }

  lemma {:induction false} ScalarStops(scalar: string, rest: string)
    requires (forall i :: 0 <= i < |scalar| ==> IsScalarChar(scalar[i])) && Ends(rest)
    ensures ScalarLength(scalar + rest) == |scalar|
  {
    if scalar == "" {
      assert scalar + rest == rest;
    } else {
      assert (scalar + rest)[1..] == scalar[1..] + rest;
      ScalarStops(scalar[1..], rest);
    }
  }

  lemma ParsePlain(scalar: Scalar, rest: string)
    requires Ends(rest)
    ensures ParseValue(scalar + rest) == Some(Got(Plain(scalar), rest))
  {
    ScalarStops(scalar, rest);
    var s := scalar + rest;
    assert s[..|scalar|] == scalar && s[|scalar|..] == rest && IsScalarChar(s[0]);
  }

  lemma QuotedText(text: string, rest: string)
    ensures Quote(text) + rest == ['\"'] + (EscapeAll(text) + (['\"'] + rest))
    ensures (Quote(text) + rest)[0] == '\"' && (Quote(text) + rest)[1..] == EscapeAll(text) + (['\"'] + rest)
  {
    var inner := EscapeAll(text) + (['\"'] + rest);
    assert Quote(text) + rest == ['\"'] + inner;
    assert (['\"'] + inner)[1..] == inner;
  }

  lemma ParseText(text: string, rest: string)
    ensures ParseValue(Quote(text) + rest) == Some(Got(Text(text), rest))
  {
    QuotedText(text, rest);
    ParseQuoted(text, rest);
  }

  lemma ParseQuotedKey(text: string, rest: string)
    ensures ParseKey(Quote(text) + ([':'] + rest)) == Some(Got(text, rest))
  {
    var colon := [':'] + rest;
    QuotedText(text, colon);
    ParseQuoted(text, colon);
    assert colon[1..] == rest && Skip(colon) == colon;
  }

  lemma DumpStartsVisibly(v: Json)
    ensures Dump(v) != "" && !IsSpace(Dump(v)[0]) && Dump(v)[0] != ']' && Dump(v)[0] != '}'
  {
    if v.Plain? {
      assert IsScalarChar(v.scalar[0]);
    }
  }

  lemma ParseBracketed(inner: string)
    requires inner != "" && !IsSpace(inner[0])
    ensures inner[0] == ']' ==> ParseValue(['['] + inner) == Some(Got(Array([]), inner[1..]))
    ensures inner[0] != ']' && ParseItems(inner).Some? ==>
              ParseValue(['['] + inner) == Some(Got(Array(ParseItems(inner).value.value), ParseItems(inner).value.rest))
    ensures inner[0] == '}' ==> ParseValue(['{'] + inner) == Some(Got(Object([]), inner[1..]))
    ensures inner[0] != '}' && ParseMembers(inner).Some? ==>
              ParseValue(['{'] + inner) == Some(Got(Object(ParseMembers(inner).value.value), ParseMembers(inner).value.rest))
  {
    assert (['['] + inner)[1..] == inner && (['{'] + inner)[1..] == inner;
  }

  lemma DumpBracketed(v: Json, rest: string)
    ensures v.Array? && v.items == [] ==> Dump(v) + rest == ['['] + ([']'] + rest)
    ensures v.Array? && v.items != [] ==> Dump(v) + rest == ['['] + (DumpItems(v, 0) + rest)
    ensures v.Object? && v.members == [] ==> Dump(v) + rest == ['{'] + (['}'] + rest)
    ensures v.Object? && v.members != [] ==> Dump(v) + rest == ['{'] + (DumpMembers(v, 0) + rest)
  {
    if v.Array? && v.items != [] {
      Regroup(['['], DumpItems(v, 0), rest);
    }
    if v.Object? && v.members != [] {
      Regroup(['{'], DumpMembers(v, 0), rest);
    }
  }

  lemma ItemsStartVisibly(v: Json, rest: string)
    requires v.Array? && v.items != []
    ensures var s := DumpItems(v, 0) + rest;
            s != "" && !IsSpace(s[0]) && s[0] != ']'
  {
    DumpStartsVisibly(v.items[0]);
  }

  lemma MembersStartVisibly(v: Json, rest: string)
    requires v.Object? && v.members != []
    ensures var s := DumpMembers(v, 0) + rest;
            s != "" && s[0] == '\"'
  {
    assert Quote(v.members[0].key)[0] == '\"';
  }

  lemma ParseDumpArray(v: Json, rest: string)
    requires v.Array?
    requires v.items != [] ==> ParseItems(DumpItems(v, 0) + rest) == Some(Got(v.items, rest))
    ensures ParseValue(Dump(v) + rest) == Some(Got(v, rest))
  {
    DumpBracketed(v, rest);
    if v.items == [] {
      assert ([']'] + rest)[1..] == rest;
      ParseBracketed([']'] + rest);
    } else {
      ItemsStartVisibly(v, rest);
      ParseBracketed(DumpItems(v, 0) + rest);
    }
  }

  lemma ParseDumpObject(v: Json, rest: string)
    requires v.Object?
    requires v.members != [] ==> ParseMembers(DumpMembers(v, 0) + rest) == Some(Got(v.members, rest))
    ensures ParseValue(Dump(v) + rest) == Some(Got(v, rest))
  {
    DumpBracketed(v, rest);
    if v.members == [] {
      assert (['}'] + rest)[1..] == rest;
      ParseBracketed(['}'] + rest);
    } else {
      MembersStartVisibly(v, rest);
      ParseBracketed(DumpMembers(v, 0) + rest);
    }
  }

  lemma {:induction false} ParseDump(v: Json, rest: string)
    requires Ends(rest)
    ensures ParseValue(Dump(v) + rest) == Some(Got(v, rest))
    decreases v, Width(v) + 1
  {
    match v {
      case Plain(scalar) => ParsePlain(scalar, rest);
      case Text(text) => ParseText(text, rest);
      case Array(items) =>
        if items != [] {
          ParseDumpItems(v, 0, rest);
          assert items[0..] == items;
        }
        ParseDumpArray(v, rest);
      case Object(members) =>
        if members != [] {
          ParseDumpMembers(v, 0, rest);
          assert members[0..] == members;
        }
        ParseDumpObject(v, rest);
    }
  }

  lemma SkipOneSpace(s: string)
    requires s != "" && !IsSpace(s[0])
    ensures Skip(s) == s && Skip([' '] + s) == s
  {
    assert ([' '] + s)[1..] == s;
  }

  lemma SuffixCons<T>(s: seq<T>, k: nat)
    requires k < |s|
    ensures s[k..] == [s[k]] + s[k + 1..]
    ensures k + 1 == |s| ==> s[k..] == [s[k]]
  {
  }

  lemma LastItem(s: string, item: Json, t: string)
    requires s != "" && !IsSpace(s[0]) && ParseValue(s) == Some(Got(item, t))
    requires t != "" && t[0] == ']'
    ensures ParseItems(s) == ParseItems([' '] + s) == Some(Got([item], t[1..]))
  {
    SkipOneSpace(s);
  }

  lemma OneMoreItem(s: string, item: Json, t: string, items: seq<Json>, rest: string)
    requires s != "" && !IsSpace(s[0]) && ParseValue(s) == Some(Got(item, t))
    requires t != "" && t[0] == ',' && ParseItems(t[1..]) == Some(Got(items, rest))
    ensures ParseItems(s) == ParseItems([' '] + s) == Some(Got([item] + items, rest))
  {
    SkipOneSpace(s);
  }

  /** What follows the k-th item of an array. */
  function BehindItem(v: Json, k: nat, rest: string): string
    requires v.Array? && k < |v.items|
  {
    if k + 1 == |v.items| then [']'] + rest else [','] + ([' '] + (DumpItems(v, k + 1) + rest))
  }

  lemma DumpItemsSplit(v: Json, k: nat, rest: string)
    requires v.Array? && k < |v.items|
    ensures DumpItems(v, k) + rest == Dump(v.items[k]) + BehindItem(v, k, rest)
    ensures (DumpItems(v, k) + rest) != "" && !IsSpace((DumpItems(v, k) + rest)[0])
    ensures BehindItem(v, k, rest)[1..] ==
            if k + 1 == |v.items| then rest else [' '] + (DumpItems(v, k + 1) + rest)
  {
    DumpStartsVisibly(v.items[k]);
    if k + 1 == |v.items| {
      Regroup(Dump(v.items[k]), [']'], rest);
      assert ([']'] + rest)[1..] == rest;
    } else {
      var more := DumpItems(v, k + 1);
      Regroup(Dump(v.items[k]), [',', ' '] + more, rest);
      Regroup([',', ' '], more, rest);
      assert [',', ' '] + (more + rest) == [','] + ([' '] + (more + rest));
      assert ([','] + ([' '] + (more + rest)))[1..] == [' '] + (more + rest);
    }
  }

  lemma {:induction false} ParseDumpItems(v: Json, k: nat, rest: string)
    requires v.Array? && k < |v.items|
    ensures ParseItems(DumpItems(v, k) + rest) == Some(Got(v.items[k..], rest))
    ensures ParseItems([' '] + (DumpItems(v, k) + rest)) == Some(Got(v.items[k..], rest))
    decreases v, |v.items| - k
  {
    var s, item, t := DumpItems(v, k) + rest, v.items[k], BehindItem(v, k, rest);
    DumpItemsSplit(v, k, rest);
    SuffixCons(v.items, k);
    ParseDump(item, t);
    if k + 1 == |v.items| {
      LastItem(s, item, t);
    } else {
      ParseDumpItems(v, k + 1, rest);
      OneMoreItem(s, item, t, v.items[k + 1..], rest);
    }
  }

  lemma ParseDumpMember(key: string, value: Json, t: string)
    requires ParseValue(Dump(value) + t) == Some(Got(value, t))
    ensures var s := Quote(key) + ([':', ' '] + (Dump(value) + t));
            && ParseKey(s) == Some(Got(key, [' '] + (Dump(value) + t)))
            && Skip([' '] + (Dump(value) + t)) == Dump(value) + t
  {
    var behind := [' '] + (Dump(value) + t);
    assert [':', ' '] + (Dump(value) + t) == [':'] + behind;
    ParseQuotedKey(key, behind);
    DumpStartsVisibly(value);
    SkipOneSpace(Dump(value) + t);
  }

  lemma LastMember(s: string, key: Got<string>, value: Json, t: string)
    requires s != "" && !IsSpace(s[0]) && ParseKey(s) == Some(key)
    requires ParseValue(Skip(key.rest)) == Some(Got(value, t)) && t != "" && t[0] == '}'
    ensures ParseMembers(s) == ParseMembers([' '] + s) == Some(Got([Member(key.value, value)], t[1..]))
  {
    SkipOneSpace(s);
  }

  lemma OneMoreMember(s: string, key: Got<string>, value: Json, t: string, members: seq<Member>, rest: string)
    requires s != "" && !IsSpace(s[0]) && ParseKey(s) == Some(key)
    requires ParseValue(Skip(key.rest)) == Some(Got(value, t))
    requires t != "" && t[0] == ',' && ParseMembers(t[1..]) == Some(Got(members, rest))
    ensures ParseMembers(s) == ParseMembers([' '] + s) == Some(Got([Member(key.value, value)] + members, rest))
  {
    SkipOneSpace(s);
  }

  /** What follows the k-th member of an object. */
  function BehindMember(v: Json, k: nat, rest: string): string
    requires v.Object? && k < |v.members|
  {
    if k + 1 == |v.members| then ['}'] + rest else [','] + ([' '] + (DumpMembers(v, k + 1) + rest))
  }

  lemma DumpMembersSplit(v: Json, k: nat, rest: string)
    requires v.Object? && k < |v.members|
    ensures DumpMembers(v, k) + rest ==
            Quote(v.members[k].key) + ([':', ' '] + (Dump(v.members[k].value) + BehindMember(v, k, rest)))
    ensures (DumpMembers(v, k) + rest) != "" && !IsSpace((DumpMembers(v, k) + rest)[0])
    ensures BehindMember(v, k, rest)[1..] ==
            if k + 1 == |v.members| then rest else [' '] + (DumpMembers(v, k + 1) + rest)
  {
    var key, value := Quote(v.members[k].key), Dump(v.members[k].value);
    var behind := if k + 1 == |v.members| then ['}'] else [',', ' '] + DumpMembers(v, k + 1);
    Regroup(key, [':', ' '] + (value + behind), rest);
    Regroup([':', ' '], value + behind, rest);
    Regroup(value, behind, rest);
    if k + 1 == |v.members| {
      assert (['}'] + rest)[1..] == rest;
    } else {
      var more := DumpMembers(v, k + 1);
      Regroup([',', ' '], more, rest);
      assert [',', ' '] + (more + rest) == [','] + ([' '] + (more + rest));
      assert ([','] + ([' '] + (more + rest)))[1..] == [' '] + (more + rest);
    }
    assert key[0] == '\"';
  }

  lemma {:induction false} ParseDumpMembers(v: Json, k: nat, rest: string)
    requires v.Object? && k < |v.members|
    ensures ParseMembers(DumpMembers(v, k) + rest) == Some(Got(v.members[k..], rest))
    ensures ParseMembers([' '] + (DumpMembers(v, k) + rest)) == Some(Got(v.members[k..], rest))
    decreases v, |v.members| - k
  {
    var s, member, t := DumpMembers(v, k) + rest, v.members[k], BehindMember(v, k, rest);
    DumpMembersSplit(v, k, rest);
    ParseDump(member.value, t);
    ParseDumpMember(member.key, member.value, t);
    SuffixCons(v.members, k);
    var key := Got(member.key, [' '] + (Dump(member.value) + t));
    if k + 1 == |v.members| {
      LastMember(s, key, member.value, t);
    } else {
      ParseDumpMembers(v, k + 1, rest);
      OneMoreMember(s, key, member.value, t, v.members[k + 1..], rest);
    }
  }

  /** Every value is read back from its text. */
  lemma ParseOfDump(v: Json)
    ensures Parse(Dump(v)) == Some(v)
  {
    ParseDump(v, "");
    assert Dump(v) + "" == Dump(v);
    DumpStartsVisibly(v);
  }
}
