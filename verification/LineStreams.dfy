/** Streams of JSON lines: `append_json_line` (dingdongditch/runtime/publication.py) writes
    them and `_read_events` (dingdongditch/continuity.py) reads them with `str.splitlines`. */
module LineStreams {
  import opened Wrappers
  import opened JsonText

  // ---------------------------------------------------------------------------
  // Lines

  const NEXT_LINE: char := '\U{0085}'
  const LINE_SEPARATOR: char := '\U{2028}'
  const PARAGRAPH_SEPARATOR: char := '\U{2029}'

  /** The characters at which `str.splitlines` ends a line. */
  predicate IsBreak(c: char) {
    || 10 as char <= c <= 13 as char
    || 28 as char <= c <= 30 as char
    || c == NEXT_LINE || c == LINE_SEPARATOR || c == PARAGRAPH_SEPARATOR
  }

  predicate NoBreaks(s: string) {
    forall i :: 0 <= i < |s| ==> !IsBreak(s[i])
  }

  function LineLength(s: string): (n: nat)
    ensures n <= |s| && (n < |s| ==> IsBreak(s[n]))
    ensures forall i :: 0 <= i < n ==> !IsBreak(s[i])
  {
    if s == "" || IsBreak(s[0]) then 0 else 1 + LineLength(s[1..])
  }

  function SplitLines(s: string): seq<string>
    decreases |s|
  {
    if s == "" then []
    else
      var n := LineLength(s);
      if n == |s| then [s]
      else if s[n] == '\r' && n + 1 < |s| && s[n + 1] == '\n' then [s[..n]] + SplitLines(s[n + 2..])
      else [s[..n]] + SplitLines(s[n + 1..])
  }

  /** The values of the lines that are not empty, if all of them can be read. */
  function ParseLines(lines: seq<string>): Option<seq<Json>> {
    if lines == [] then Some([])
    else if lines[0] == "" then ParseLines(lines[1..])
    else
      var first, rest := Parse(lines[0]), ParseLines(lines[1..]);
      if first.Some? && rest.Some? then Some([first.value] + rest.value) else None
  }

  function ReadStream(text: string): Option<seq<Json>> {
    ParseLines(SplitLines(text))
  }

  /** The text of a stream to which these values were appended one after the other. */
  function Stream(values: seq<Json>): string {
    if values == [] then ""
    else AppendLine(Stream(values[..|values| - 1]), values[|values| - 1])
  }

  function AppendLine(existing: string, v: Json): string {
    existing + (Dump(v) + ['\n'])
  }

  // ---------------------------------------------------------------------------
  // Texts that survive

  /** Nothing in the text ends a line once it is written as JSON. */
  predicate Clean(s: string) {
    forall i :: 0 <= i < |s| ==> s[i] != NEXT_LINE && s[i] != LINE_SEPARATOR && s[i] != PARAGRAPH_SEPARATOR
  }

  predicate CleanValue(v: Json) {
    match v
    case Plain(_) => true
    case Text(text) => Clean(text)
    case Array(items) => forall i :: 0 <= i < |items| ==> CleanValue(items[i])
    case Object(members) => forall i :: 0 <= i < |members| ==> Clean(members[i].key) && CleanValue(members[i].value)
  }

  predicate AllClean(values: seq<Json>) {
    forall i :: 0 <= i < |values| ==> CleanValue(values[i])
  }

  lemma NoBreaksConcat(a: string, b: string)
    ensures NoBreaks(a + b) <==> NoBreaks(a) && NoBreaks(b)
  {
    if NoBreaks(a + b) {
      assert forall i :: 0 <= i < |a| ==> a[i] == (a + b)[i];
      assert forall i :: 0 <= i < |b| ==> b[i] == (a + b)[|a| + i];
    }
  }

  lemma EscapedCharBreaks(c: char)
    ensures NoBreaks(EscapeChar(c)) <==> Clean([c])
  {
    if |EscapeChar(c)| == 1 {
      assert EscapeChar(c) == [c];
    }
  }

  lemma CleanHead(s: string)
    requires s != ""
    ensures Clean(s) <==> Clean([s[0]]) && Clean(s[1..])
  {
    assert s == [s[0]] + s[1..];
  }

  lemma {:induction false} EscapedBreaks(s: string)
    ensures NoBreaks(EscapeAll(s)) <==> Clean(s)
  {
    if s != "" {
      EscapedBreaks(s[1..]);
      EscapedCharBreaks(s[0]);
      CleanHead(s);
      NoBreaksConcat(EscapeChar(s[0]), EscapeAll(s[1..]));
    }
  }

  lemma QuotedBreaks(s: string)
    ensures NoBreaks(Quote(s)) <==> Clean(s)
  {
    EscapedBreaks(s);
    NoBreaksConcat(['\"'], EscapeAll(s));
    NoBreaksConcat(['\"'] + EscapeAll(s), ['\"']);
  }

  /** The text of a value has line breaks exactly when one of its texts has. */
  lemma {:induction false} DumpedBreaks(v: Json)
    ensures NoBreaks(Dump(v)) <==> CleanValue(v)
    decreases v, Width(v) + 1
  {
    match v {
      case Plain(scalar) => assert forall i :: 0 <= i < |scalar| ==> IsScalarChar(scalar[i]);
      case Text(text) => QuotedBreaks(text);
      case Array(items) =>
        if items != [] {
          NoBreaksConcat(['['], DumpItems(v, 0));
          DumpedItemsBreaks(v, 0);
        }
      case Object(members) =>
        if members != [] {
          NoBreaksConcat(['{'], DumpMembers(v, 0));
          DumpedMembersBreaks(v, 0);
          assert CleanFrom(members, 0) <==> CleanValue(v);
        }
    }
  }

  lemma {:induction false} DumpedItemsBreaks(v: Json, k: nat)
    requires v.Array? && k < |v.items|
    ensures NoBreaks(DumpItems(v, k)) <==> forall i :: k <= i < |v.items| ==> CleanValue(v.items[i])
    decreases v, |v.items| - k
  {
    DumpedBreaks(v.items[k]);
    if k + 1 == |v.items| {
      NoBreaksConcat(Dump(v.items[k]), [']']);
    } else {
      DumpedItemsBreaks(v, k + 1);
      NoBreaksConcat([',', ' '], DumpItems(v, k + 1));
      NoBreaksConcat(Dump(v.items[k]), [',', ' '] + DumpItems(v, k + 1));
    }
  }

  lemma MemberBreaks(key: string, value: string, behind: string)
    ensures NoBreaks(Quote(key) + ([':', ' '] + (value + behind))) <==>
            Clean(key) && NoBreaks(value) && NoBreaks(behind)
  {
    QuotedBreaks(key);
    NoBreaksConcat(value, behind);
    NoBreaksConcat([':', ' '], value + behind);
    NoBreaksConcat(Quote(key), [':', ' '] + (value + behind));
  }

  predicate CleanMember(m: Member) {
    Clean(m.key) && CleanValue(m.value)
  }

  ghost predicate CleanFrom(members: seq<Member>, k: nat) {
    forall i :: k <= i < |members| ==> CleanMember(members[i])
  }

  lemma CleanFromStep(members: seq<Member>, k: nat)
    requires k < |members|
    ensures CleanFrom(members, k) <==> CleanMember(members[k]) && CleanFrom(members, k + 1)
  {
  }

  lemma {:induction false} DumpedMembersBreaks(v: Json, k: nat)
    requires v.Object? && k < |v.members|
    ensures NoBreaks(DumpMembers(v, k)) <==> CleanFrom(v.members, k)
    decreases v, |v.members| - k
  {
    var member := v.members[k];
    var behind := if k + 1 == |v.members| then ['}'] else [',', ' '] + DumpMembers(v, k + 1);
    DumpedBreaks(member.value);
    MemberBreaks(member.key, Dump(member.value), behind);
    CleanFromStep(v.members, k);
    if k + 1 < |v.members| {
      DumpedMembersBreaks(v, k + 1);
      NoBreaksConcat([',', ' '], DumpMembers(v, k + 1));
    }
  }

  // ---------------------------------------------------------------------------
  // Inside and outside string literals

  datatype Mode = Outside | Inside | Escaped

  function Next(m: Mode, c: char): Mode {
    match m
    case Outside => if c == '\"' then Inside else Outside
    case Inside => if c == '\"' then Outside else if c == '\\' then Escaped else Inside
    case Escaped => Inside
  }

  function Lex(m: Mode, s: string): Mode
    decreases |s|
  {
    if s == "" then m else Lex(Next(m, s[0]), s[1..])
  }

  lemma {:induction false} LexConcat(m: Mode, a: string, b: string)
    ensures Lex(m, a + b) == Lex(Lex(m, a), b)
    decreases |a|
  {
    if a == "" {
      assert a + b == b;
    } else {
      assert (a + b)[1..] == a[1..] + b;
      LexConcat(Next(m, a[0]), a[1..], b);
    }
  }

  lemma LexFrom(m: Mode, s: string, n: nat)
    requires n <= |s|
    ensures Lex(m, s) == Lex(Lex(m, s[..n]), s[n..])
  {
    assert s == s[..n] + s[n..];
    LexConcat(m, s[..n], s[n..]);
  }

  lemma {:induction false} SkipIsOutside(s: string)
    ensures Lex(Outside, Skip(s)) == Lex(Outside, s)
  {
    if s != "" && IsSpace(s[0]) {
      SkipIsOutside(s[1..]);
    }
  }

  lemma {:induction false} OrdinaryStaysInside(s: string)
    requires forall i :: 0 <= i < |s| ==> s[i] != '\"' && s[i] != '\\'
    ensures Lex(Inside, s) == Inside && BreaksInside(Inside, s)
  {
    if s != "" {
      OrdinaryStaysInside(s[1..]);
    }
  }

  lemma EscapeStaysInside(x: char)
    ensures Lex(Inside, ['\\', x]) == Inside
    ensures !IsBreak(x) ==> BreaksInside(Inside, ['\\', x])
  {
    assert ['\\', x][1..] == [x] && [x][1..] == "";
    assert Lex(Escaped, [x]) == Lex(Inside, "");
  }

  /** A string literal that is read to its end is left again. */
  lemma {:induction false} StringIsLeft(s: string)
    requires ParseString(s).Some?
    ensures Lex(Inside, s) == Lex(Outside, ParseString(s).value.rest)
    decreases |s|
  {
    if s[0] == '\\' {
      if |s| >= 6 && s[1] == 'u' {
        StringIsLeft(s[6..]);
        LexFrom(Inside, s, 6);
        assert s[..6] == ['\\', 'u'] + s[2..6];
        EscapeStaysInside('u');
        OrdinaryStaysInside(s[2..6]);
        LexConcat(Inside, ['\\', 'u'], s[2..6]);
      } else {
        StringIsLeft(s[2..]);
        assert s[1..][1..] == s[2..];
      }
    } else if s[0] != '\"' {
      StringIsLeft(s[1..]);
    }
  }

  lemma {:induction false} ScalarIsOutside(s: string, n: nat)
    requires n <= |s| && forall i :: 0 <= i < n ==> IsScalarChar(s[i])
    ensures Lex(Outside, s) == Lex(Outside, s[n..])
    decreases n
  {
    if n == 0 {
      assert s[0..] == s;
    } else {
      assert s[1..][n - 1..] == s[n..];
      ScalarIsOutside(s[1..], n - 1);
    }
  }

  lemma KeyIsLeft(s: string)
    requires ParseKey(s).Some?
    ensures Lex(Outside, s) == Lex(Outside, ParseKey(s).value.rest)
  {
    StringIsLeft(s[1..]);
    SkipIsOutside(ParseString(s[1..]).value.rest);
  }

  /** Whatever is read as a value begins and ends outside of string literals. */
  lemma {:induction false} ValueIsLeft(s: string)
    requires ParseValue(s).Some?
    ensures Lex(Outside, s) == Lex(Outside, ParseValue(s).value.rest)
    decreases |s|, 0
  {
    if s[0] == '\"' {
      StringIsLeft(s[1..]);
    } else if s[0] == '[' {
      var t := Skip(s[1..]);
      SkipIsOutside(s[1..]);
      if t == "" || t[0] != ']' {
        ItemsAreLeft(t);
      }
    } else if s[0] == '{' {
      var t := Skip(s[1..]);
      SkipIsOutside(s[1..]);
      if t == "" || t[0] != '}' {
        MembersAreLeft(t);
      }
    } else {
      ScalarIsOutside(s, ScalarLength(s));
    }
  }

  lemma {:induction false} ItemsAreLeft(s: string)
    requires ParseItems(s).Some?
    ensures Lex(Outside, s) == Lex(Outside, ParseItems(s).value.rest)
    decreases |s|, 1
  {
    SkipIsOutside(s);
    ValueIsLeft(Skip(s));
    var rest := ParseValue(Skip(s)).value.rest;
    SkipIsOutside(rest);
    if Skip(rest)[0] == ',' {
      ItemsAreLeft(Skip(rest)[1..]);
    }
  }

  lemma {:induction false} MembersAreLeft(s: string)
    requires ParseMembers(s).Some?
    ensures Lex(Outside, s) == Lex(Outside, ParseMembers(s).value.rest)
    decreases |s|, 1
  {
    SkipIsOutside(s);
    KeyIsLeft(Skip(s));
    var key := ParseKey(Skip(s)).value.rest;
    SkipIsOutside(key);
    ValueIsLeft(Skip(key));
    var rest := ParseValue(Skip(key)).value.rest;
    SkipIsOutside(rest);
    if Skip(rest)[0] == ',' {
      MembersAreLeft(Skip(rest)[1..]);
    }
  }

  /** A text that breaks off inside a string literal is no JSON. */
  lemma BrokenOffIsUnreadable(s: string)
    requires Lex(Outside, s) == Inside
    ensures Parse(s).None?
  {
    SkipIsOutside(s);
    if ParseValue(Skip(s)).Some? {
      ValueIsLeft(Skip(s));
      SkipIsOutside(ParseValue(Skip(s)).value.rest);
    }
  }

  // ---------------------------------------------------------------------------
  // Breaks are inside string literals

  /** Read from mode m on, line breaks occur only inside string literals. */
  ghost predicate BreaksInside(m: Mode, s: string)
    decreases |s|
  {
    s == "" || ((IsBreak(s[0]) ==> m == Inside) && BreaksInside(Next(m, s[0]), s[1..]))
  }

  lemma {:induction false} BreaksInsideConcat(m: Mode, a: string, b: string)
    ensures BreaksInside(m, a + b) <==> BreaksInside(m, a) && BreaksInside(Lex(m, a), b)
    decreases |a|
  {
    if a == "" {
      assert a + b == b;
    } else {
      assert (a + b)[1..] == a[1..] + b;
      BreaksInsideConcat(Next(m, a[0]), a[1..], b);
    }
  }

  /** The text begins and ends outside of string literals and breaks only inside them. */
  ghost predicate Quiet(s: string) {
    Lex(Outside, s) == Outside && BreaksInside(Outside, s)
  }

  lemma QuietConcat(a: string, b: string)
    requires Quiet(a) && Quiet(b)
    ensures Quiet(a + b)
  {
    LexConcat(Outside, a, b);
    BreaksInsideConcat(Outside, a, b);
  }

  lemma {:induction false} PlainIsQuiet(s: string)
    requires forall i :: 0 <= i < |s| ==> s[i] != '\"' && !IsBreak(s[i])
    ensures Quiet(s)
  {
    if s != "" {
      PlainIsQuiet(s[1..]);
    }
  }

  lemma EscapedCharStaysInside(c: char)
    ensures Lex(Inside, EscapeChar(c)) == Inside && BreaksInside(Inside, EscapeChar(c))
  {
    var e := EscapeChar(c);
    if |e| == 1 {
      OrdinaryStaysInside(e);
    } else {
      assert e == e[..2] + e[2..] && e[..2] == ['\\', e[1]];
      EscapeStaysInside(e[1]);
      OrdinaryStaysInside(e[2..]);
      LexConcat(Inside, e[..2], e[2..]);
      BreaksInsideConcat(Inside, e[..2], e[2..]);
    }
  }

  lemma {:induction false} EscapedStaysInside(s: string)
    ensures Lex(Inside, EscapeAll(s)) == Inside && BreaksInside(Inside, EscapeAll(s))
  {
    if s != "" {
      EscapedCharStaysInside(s[0]);
      EscapedStaysInside(s[1..]);
      LexConcat(Inside, EscapeChar(s[0]), EscapeAll(s[1..]));
      BreaksInsideConcat(Inside, EscapeChar(s[0]), EscapeAll(s[1..]));
    }
  }

  lemma QuotedIsQuiet(s: string)
    ensures Quiet(Quote(s))
  {
    var unclosed := ['\"'] + EscapeAll(s);
    EscapedStaysInside(s);
    LexConcat(Outside, ['\"'], EscapeAll(s));
    BreaksInsideConcat(Outside, ['\"'], EscapeAll(s));
    LexConcat(Outside, unclosed, ['\"']);
    BreaksInsideConcat(Outside, unclosed, ['\"']);
    assert ['\"'][1..] == "";
  }

  lemma {:induction false} DumpIsQuiet(v: Json)
    ensures Quiet(Dump(v))
    decreases v, Width(v) + 1
  {
    match v {
      case Plain(scalar) =>
        assert forall i :: 0 <= i < |scalar| ==> IsScalarChar(scalar[i]);
        PlainIsQuiet(scalar);
      case Text(text) => QuotedIsQuiet(text);
      case Array(items) =>
        PlainIsQuiet("[]");
        if items != [] {
          PlainIsQuiet(['[']);
          DumpedItemsAreQuiet(v, 0);
          QuietConcat(['['], DumpItems(v, 0));
        }
      case Object(members) =>
        PlainIsQuiet("{}");
        if members != [] {
          PlainIsQuiet(['{']);
          DumpedMembersAreQuiet(v, 0);
          QuietConcat(['{'], DumpMembers(v, 0));
        }
    }
  }

  lemma {:induction false} DumpedItemsAreQuiet(v: Json, k: nat)
    requires v.Array? && k < |v.items|
    ensures Quiet(DumpItems(v, k))
    decreases v, |v.items| - k
  {
    DumpIsQuiet(v.items[k]);
    if k + 1 == |v.items| {
      PlainIsQuiet([']']);
      QuietConcat(Dump(v.items[k]), [']']);
    } else {
      PlainIsQuiet([',', ' ']);
      DumpedItemsAreQuiet(v, k + 1);
      QuietConcat([',', ' '], DumpItems(v, k + 1));
      QuietConcat(Dump(v.items[k]), [',', ' '] + DumpItems(v, k + 1));
    }
  }

  lemma {:induction false} DumpedMembersAreQuiet(v: Json, k: nat)
    requires v.Object? && k < |v.members|
    ensures Quiet(DumpMembers(v, k))
    decreases v, |v.members| - k
  {
    var key, value := v.members[k].key, v.members[k].value;
    var behind := if k + 1 == |v.members| then ['}'] else [',', ' '] + DumpMembers(v, k + 1);
    PlainIsQuiet(['}']);
    PlainIsQuiet([',', ' ']);
    PlainIsQuiet([':', ' ']);
    if k + 1 < |v.members| {
      DumpedMembersAreQuiet(v, k + 1);
      QuietConcat([',', ' '], DumpMembers(v, k + 1));
    }
    QuotedIsQuiet(key);
    DumpIsQuiet(value);
    QuietConcat(Dump(value), behind);
    QuietConcat([':', ' '], Dump(value) + behind);
    QuietConcat(Quote(key), [':', ' '] + (Dump(value) + behind));
  }

  /** Cut at a line break, the text of a value breaks off inside a string literal. */
  lemma CutDumpIsUnreadable(v: Json, n: nat)
    requires n < |Dump(v)| && IsBreak(Dump(v)[n])
    ensures n > 0 && Parse(Dump(v)[..n]).None?
  {
    var s := Dump(v);
    DumpIsQuiet(v);
    assert s == s[..n] + s[n..];
    BreaksInsideConcat(Outside, s[..n], s[n..]);
    assert s[n..][0] == s[n];
    assert Lex(Outside, s[..n]) == Inside;
    BrokenOffIsUnreadable(s[..n]);
    assert Lex(Outside, "") == Outside;
  }

  // ---------------------------------------------------------------------------
  // Reading a stream back

  lemma SplitFirst(line: string, rest: string)
    requires NoBreaks(line)
    ensures SplitLines(line + (['\n'] + rest)) == [line] + SplitLines(rest)
  {
    var s := line + (['\n'] + rest);
    assert s[..|line|] == line && s[|line|] == '\n' && s[|line| + 1..] == rest;
    assert forall i :: 0 <= i < |line| ==> s[i] == line[i];
    assert LineLength(s) == |line|;
  }

  lemma {:induction false} StreamFront(values: seq<Json>)
    requires values != []
    ensures Stream(values) == Dump(values[0]) + (['\n'] + Stream(values[1..]))
    decreases |values|
  {
    var n := |values| - 1;
    if n == 0 {
      assert values[..n] == [] && values[1..] == [];
      assert Dump(values[0]) + ['\n'] == "" + (Dump(values[0]) + ['\n']);
      assert ['\n'] + "" == ['\n'];
    } else {
      StreamFront(values[..n]);
      assert values[..n][1..] == values[1..][..n - 1];
      assert values[1..][n - 1] == values[n];
      var line := Dump(values[n]) + ['\n'];
      assert (Dump(values[0]) + (['\n'] + Stream(values[1..][..n - 1]))) + line
          == Dump(values[0]) + (['\n'] + (Stream(values[1..][..n - 1]) + line));
    }
  }

  lemma CleanFirstLine(v: Json, rest: string)
    requires CleanValue(v)
    ensures ReadStream(Dump(v) + (['\n'] + rest)) ==
            if ReadStream(rest).Some? then Some([v] + ReadStream(rest).value) else None
  {
    DumpedBreaks(v);
    SplitFirst(Dump(v), rest);
    ParseOfDump(v);
    DumpStartsVisibly(v);
    assert ([Dump(v)] + SplitLines(rest))[1..] == SplitLines(rest);
  }

  lemma UncleanFirstLine(v: Json, rest: string)
    requires !CleanValue(v)
    ensures ReadStream(Dump(v) + (['\n'] + rest)).None?
  {
    DumpedBreaks(v);
    var s, d := Dump(v) + (['\n'] + rest), Dump(v);
    var i :| 0 <= i < |d| && IsBreak(d[i]);
    var n := LineLength(s);
    assert s[i] == d[i];
    assert s[..n] == d[..n] && s[n] == d[n];
    CutDumpIsUnreadable(v, n);
    assert SplitLines(s)[0] == d[..n];
  }

  lemma AllCleanHead(values: seq<Json>)
    requires values != []
    ensures AllClean(values) <==> CleanValue(values[0]) && AllClean(values[1..])
    ensures values == [values[0]] + values[1..]
  {
    assert values == [values[0]] + values[1..];
  }

  /** What reading a stream must give. */
  function Back(values: seq<Json>): Option<seq<Json>> {
    if AllClean(values) then Some(values) else None
  }

  lemma OneMoreLine(v: Json, text: string, rest: string, values: seq<Json>)
    requires text == Dump(v) + (['\n'] + rest) && ReadStream(rest) == Back(values)
    ensures ReadStream(text) == if CleanValue(v) && AllClean(values) then Some([v] + values) else None
  {
    if CleanValue(v) {
      CleanFirstLine(v, rest);
    } else {
      UncleanFirstLine(v, rest);
    }
  }

  /** A stream reads back as exactly the values written to it if and only if no text in any of
      them contains U+0085, U+2028 or U+2029; otherwise reading it fails. */
  lemma {:induction false} StreamReadsBackIff(values: seq<Json>)
    ensures ReadStream(Stream(values)) == if AllClean(values) then Some(values) else None
    decreases |values|
  {
    if values == [] {
      assert SplitLines("") == [];
    } else {
      StreamFront(values);
      StreamReadsBackIff(values[1..]);
      AllCleanHead(values);
      OneMoreLine(values[0], Stream(values), Stream(values[1..]), values[1..]);
    }
  }
}
