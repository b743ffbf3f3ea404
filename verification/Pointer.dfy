/** JSON Pointers for validation issues (dingdongditch/machine_contract.py: `_to_pointer` and
    `_value_at_pointer`), after RFC 6901. */
module Pointer {
  import opened Wrappers
  import Decimal

  // ---------------------------------------------------------------------------
  // Escaping: section 3 and section 4 of RFC 6901

  /** `s.replace(c, text)` for a one-character pattern. */
  function ReplaceChar(s: string, c: char, text: string): string {
    if s == "" then "" else (if s[0] == c then text else [s[0]]) + ReplaceChar(s[1..], c, text)
  }

  /** `s.replace(ab, c)` for a two-character pattern, left to right. */
  function ReplacePair(s: string, a: char, b: char, c: char): string {
    if s == "" then ""
    else if |s| >= 2 && s[0] == a && s[1] == b then [c] + ReplacePair(s[2..], a, b, c)
    else [s[0]] + ReplacePair(s[1..], a, b, c)
  }

  function Escape(token: string): string {
    ReplaceChar(ReplaceChar(token, '~', "~0"), '/', "~1")
  }

  function Unescape(segment: string): string {
    ReplacePair(ReplacePair(segment, '~', '1', '/'), '~', '0', '~')
  }

  lemma ReplaceCharCons(x: char, s: string, c: char, text: string)
    ensures ReplaceChar([x] + s, c, text) == (if x == c then text else [x]) + ReplaceChar(s, c, text)
  {
    assert ([x] + s)[1..] == s;
  }

  lemma ReplacePairHit(s: string, a: char, b: char, c: char)
    ensures ReplacePair([a, b] + s, a, b, c) == [c] + ReplacePair(s, a, b, c)
  {
    assert ([a, b] + s)[2..] == s;
  }

  lemma ReplacePairSkip(x: char, s: string, a: char, b: char, c: char)
    requires x != a
    ensures ReplacePair([x] + s, a, b, c) == [x] + ReplacePair(s, a, b, c)
  {
    assert ([x] + s)[1..] == s;
  }

  lemma ReplacePairMiss(x: char, s: string, a: char, b: char, c: char)
    requires x != a && x != b
    ensures ReplacePair([a, x] + s, a, b, c) == [a, x] + ReplacePair(s, a, b, c)
  {
    assert ([a, x] + s)[1..] == [x] + s;
    ReplacePairSkip(x, s, a, b, c);
    assert [a] + ([x] + ReplacePair(s, a, b, c)) == [a, x] + ReplacePair(s, a, b, c);
  }

  function EscapeOne(c: char): string {
    if c == '~' then ['~', '0'] else if c == '/' then ['~', '1'] else [c]
  }

  /** Escaping works character by character. */
  lemma EscapeHead(token: string)
    requires token != ""
    ensures Escape(token) == EscapeOne(token[0]) + Escape(token[1..])
  {
    var rest := ReplaceChar(token[1..], '~', "~0");
    if token[0] == '~' {
      assert "~0" + rest == ['~'] + (['0'] + rest);
      ReplaceCharCons('~', ['0'] + rest, '/', "~1");
      ReplaceCharCons('0', rest, '/', "~1");
      assert ['~'] + (['0'] + Escape(token[1..])) == ['~', '0'] + Escape(token[1..]);
    } else {
      ReplaceCharCons(token[0], rest, '/', "~1");
    }
  }

  /** Undoing "~1" first gives back the text in which only "~" was escaped. */
  lemma {:induction false} UndoSlashes(token: string)
    ensures ReplacePair(Escape(token), '~', '1', '/') == ReplaceChar(token, '~', "~0")
  {
    if token != "" {
      EscapeHead(token);
      UndoSlashes(token[1..]);
      var rest := Escape(token[1..]);
      if token[0] == '~' {
        ReplacePairMiss('0', rest, '~', '1', '/');
      } else if token[0] == '/' {
        ReplacePairHit(rest, '~', '1', '/');
      } else {
        ReplacePairSkip(token[0], rest, '~', '1', '/');
      }
    }
  }

  lemma {:induction false} UndoTildes(token: string)
    ensures ReplacePair(ReplaceChar(token, '~', "~0"), '~', '0', '~') == token
  {
    if token != "" {
      UndoTildes(token[1..]);
      var rest := ReplaceChar(token[1..], '~', "~0");
      if token[0] == '~' {
        assert "~0" + rest == ['~', '0'] + rest;
        ReplacePairHit(rest, '~', '0', '~');
      } else {
        ReplacePairSkip(token[0], rest, '~', '0', '~');
      }
    }
  }

  lemma UnescapeUndoesEscape(token: string)
    ensures Unescape(Escape(token)) == token
  {
    UndoSlashes(token);
    UndoTildes(token);
  }

  /** A reference token of the RFC's grammar: no "/", and every "~" begins "~0" or "~1". */
  predicate IsReferenceToken(s: string) {
    || s == ""
    || (s[0] == '~' && |s| >= 2 && (s[1] == '0' || s[1] == '1') && IsReferenceToken(s[2..]))
    || (s[0] != '~' && s[0] != '/' && IsReferenceToken(s[1..]))
  }

  lemma {:induction false} EscapeGivesReferenceTokens(token: string)
    ensures IsReferenceToken(Escape(token))
    ensures Escape(token) == "" <==> token == ""
  {
    if token != "" {
      EscapeHead(token);
      EscapeGivesReferenceTokens(token[1..]);
      var rest := Escape(token[1..]);
      assert (EscapeOne(token[0]) + rest)[|EscapeOne(token[0])|..] == rest;
    }
  }

  predicate SlashFree(s: string) {
    forall i :: 0 <= i < |s| ==> s[i] != '/'
  }

  lemma {:induction false} ReferenceTokensAreSlashFree(s: string)
    requires IsReferenceToken(s)
    ensures SlashFree(s)
    decreases |s|
  {
    if s != "" {
      var n := if s[0] == '~' then 2 else 1;
      ReferenceTokensAreSlashFree(s[n..]);
      forall i | 0 <= i < |s| ensures s[i] != '/' {
        if i >= n {
          assert s[i] == s[n..][i - n];
        }
      }
    }
  }

  // ---------------------------------------------------------------------------
  // Joining and splitting

  /** `"/" + "/".join(parts)`, and nothing for no parts. */
  function Join(parts: seq<string>): string {
    if parts == [] then "" else ['/'] + parts[0] + Join(parts[1..])
  }

  /** `s.split("/")`. */
  function Split(s: string): (r: seq<string>)
    ensures r != []
  {
    if s == "" then [""]
    else
      var rest := Split(s[1..]);
      if s[0] == '/' then [""] + rest else [[s[0]] + rest[0]] + rest[1..]
  }

  /** `s.lstrip("/")`. */
  function StripSlashes(s: string): string {
    if s != "" && s[0] == '/' then StripSlashes(s[1..]) else s
  }

  function NonEmpty(parts: seq<string>): seq<string> {
    if parts == [] then []
    else (if parts[0] == "" then [] else [parts[0]]) + NonEmpty(parts[1..])
  }

  lemma {:induction false} SplitToken(t: string, s: string)
    requires SlashFree(t)
    ensures Split(t + (['/'] + s)) == [t] + Split(s)
  {
    if t == "" {
      assert t + (['/'] + s) == ['/'] + s;
      assert (['/'] + s)[1..] == s;
    } else {
      assert (t + (['/'] + s))[1..] == t[1..] + (['/'] + s);
      SplitToken(t[1..], s);
      assert t == [t[0]] + t[1..];
    }
  }

  lemma {:induction false} SplitLastToken(t: string)
    requires SlashFree(t)
    ensures Split(t) == [t]
  {
    if t != "" {
      SplitLastToken(t[1..]);
      assert t == [t[0]] + t[1..];
    }
  }

  /** Splitting a joined list gives its parts back after the empty text before the first "/". */
  lemma {:induction false} SplitOfJoin(parts: seq<string>)
    requires forall i :: 0 <= i < |parts| ==> SlashFree(parts[i])
    ensures Split(Join(parts)) == [""] + parts
  {
    if parts != [] {
      SplitOfJoin(parts[1..]);
      var rest := Join(parts[1..]);
      assert Join(parts) == ['/'] + (parts[0] + rest);
      assert Join(parts)[1..] == parts[0] + rest;
      assert parts == [parts[0]] + parts[1..];
      if parts[1..] == [] {
        assert parts[0] + rest == parts[0];
        SplitLastToken(parts[0]);
      } else {
        assert rest == ['/'] + rest[1..];
        assert Split(rest) == [""] + Split(rest[1..]);
        assert Split(rest[1..]) == Split(rest)[1..] == parts[1..];
        SplitToken(parts[0], rest[1..]);
      }
    }
  }

  /** Leading slashes only add empty segments. */
  lemma {:induction false} StrippingKeepsSegments(s: string)
    ensures NonEmpty(Split(StripSlashes(s))) == NonEmpty(Split(s))
  {
    if s != "" && s[0] == '/' {
      StrippingKeepsSegments(s[1..]);
      assert ([""] + Split(s[1..]))[1..] == Split(s[1..]);
    }
  }

  // ---------------------------------------------------------------------------
  // Printing and reading token lists

  function EscapeEach(tokens: seq<string>): (r: seq<string>)
    ensures |r| == |tokens| && forall i :: 0 <= i < |r| ==> r[i] == Escape(tokens[i])
  {
    seq(|tokens|, i requires 0 <= i < |tokens| => Escape(tokens[i]))
  }

  function UnescapeEach(segments: seq<string>): (r: seq<string>)
    ensures |r| == |segments| && forall i :: 0 <= i < |r| ==> r[i] == Unescape(segments[i])
  {
    seq(|segments|, i requires 0 <= i < |segments| => Unescape(segments[i]))
  }

  function Print(tokens: seq<string>): string {
    Join(EscapeEach(tokens))
  }

  /** The tokens a pointer is read as: strip, split, skip empty segments, unescape. */
  function Read(pointer: string): seq<string> {
    UnescapeEach(NonEmpty(Split(StripSlashes(pointer))))
  }

  lemma {:induction false} EscapingKeepsEmptiness(tokens: seq<string>)
    ensures NonEmpty(EscapeEach(tokens)) == EscapeEach(NonEmpty(tokens))
  {
    if tokens != [] {
      EscapeGivesReferenceTokens(tokens[0]);
      EscapingKeepsEmptiness(tokens[1..]);
      assert EscapeEach(tokens) == [Escape(tokens[0])] + EscapeEach(tokens[1..]);
      assert EscapeEach([tokens[0]] + NonEmpty(tokens[1..])) == [Escape(tokens[0])] + EscapeEach(NonEmpty(tokens[1..]));
    }
  }

  lemma EscapedPartsAreSlashFree(tokens: seq<string>)
    ensures forall i :: 0 <= i < |tokens| ==> SlashFree(EscapeEach(tokens)[i])
  {
    forall i | 0 <= i < |tokens| ensures SlashFree(EscapeEach(tokens)[i]) {
      EscapeGivesReferenceTokens(tokens[i]);
      ReferenceTokensAreSlashFree(Escape(tokens[i]));
    }
  }

  lemma UnescapeEachUndoes(tokens: seq<string>)
    ensures UnescapeEach(EscapeEach(tokens)) == tokens
  {
    forall i | 0 <= i < |tokens| ensures Unescape(Escape(tokens[i])) == tokens[i] {
      UnescapeUndoesEscape(tokens[i]);
    }
  }

  lemma NonEmptyAfterSplit(parts: seq<string>)
    requires forall i :: 0 <= i < |parts| ==> SlashFree(parts[i])
    ensures NonEmpty(Split(StripSlashes(Join(parts)))) == NonEmpty(parts)
  {
    SplitOfJoin(parts);
    StrippingKeepsSegments(Join(parts));
    assert ([""] + parts)[1..] == parts;
  }

  /** For every list of tokens, reading what was printed gives the list without its empty tokens. */
  lemma ReadOfPrint(tokens: seq<string>)
    ensures Read(Print(tokens)) == NonEmpty(tokens)
  {
    EscapedPartsAreSlashFree(tokens);
    NonEmptyAfterSplit(EscapeEach(tokens));
    EscapingKeepsEmptiness(tokens);
    UnescapeEachUndoes(NonEmpty(tokens));
  }

  /** So the round trip is the identity exactly on lists without empty tokens. */
  lemma RoundTripIff(tokens: seq<string>)
    ensures Read(Print(tokens)) == tokens <==> forall i :: 0 <= i < |tokens| ==> tokens[i] != ""
  {
    ReadOfPrint(tokens);
    NonEmptyIsIdentityIff(tokens);
  }

  lemma {:induction false} NonEmptyIsIdentityIff(parts: seq<string>)
    ensures |NonEmpty(parts)| <= |parts|
    ensures NonEmpty(parts) == parts <==> forall i :: 0 <= i < |parts| ==> parts[i] != ""
  {
    if parts != [] {
      NonEmptyIsIdentityIff(parts[1..]);
      assert parts == [parts[0]] + parts[1..];
      if parts[0] != "" {
        assert NonEmpty(parts) == parts <==> NonEmpty(parts[1..]) == parts[1..];
        assert (forall i :: 0 <= i < |parts| ==> parts[i] != "") <==>
               (forall i :: 0 <= i < |parts[1..]| ==> parts[1..][i] != "");
      }
    }
  }

  // ---------------------------------------------------------------------------
  // Looking a pointer up

  datatype Json =
    | Null
    | Boolean(b: bool)
    | Number(n: real)
    | Text(s: string)
    | Array(items: seq<Json>)
    | Object(members: map<string, Json>)

  /** What Python knows about digits: the characters for which `isdigit` holds, the value of
      those that `int` reads, and how many of them `int` reads at most. */
  datatype Numerals = Numerals(isDigit: char -> bool, decimal: char -> Option<nat>, most: nat)

  const SUPERSCRIPT_TWO: char := '\U{00B2}'
  const ARABIC_THREE: char := '\U{0663}'

  /** The facts about CPython's tables that matter here: `int` reads only characters for which
      `isdigit` holds, among ASCII characters both know exactly the ten digits, beyond ASCII
      there are digits that `int` reads and digits that it refuses, and the limit on the length
      of a numeral cannot be set below 640. */
  ghost predicate IsPython(u: Numerals) {
    && (forall c :: u.decimal(c).Some? ==> u.isDigit(c) && u.decimal(c).value < 10)
    && (forall c :: Decimal.IsDigit(c) ==> u.decimal(c) == Some(c as nat - '0' as nat))
    && (forall c :: c < 128 as char && u.isDigit(c) ==> Decimal.IsDigit(c))
    && u.isDigit(SUPERSCRIPT_TWO) && u.decimal(SUPERSCRIPT_TWO) == None
    && u.decimal(ARABIC_THREE) == Some(3)
    && u.most >= 640
  }

  /** `s.isdigit()`. */
  predicate IsDigits(u: Numerals, s: string) {
    s != "" && forall i :: 0 <= i < |s| ==> u.isDigit(s[i])
  }

  function DigitsValue(u: Numerals, s: string): Option<nat> {
    if s == "" then Some(0)
    else
      var before, last := DigitsValue(u, s[..|s| - 1]), u.decimal(s[|s| - 1]);
      if before.Some? && last.Some? then Some(10 * before.value + last.value) else None
  }

  /** `int(s)` for a text of digits; `None` when it raises ValueError. */
  function Int(u: Numerals, s: string): Option<nat> {
    if |s| > u.most then None else DigitsValue(u, s)
  }

  /** What a lookup comes to. */
  datatype Outcome = Value(v: Json) | RaisesValueError

  function Element(items: seq<Json>, i: nat): Json {
    if i < |items| then items[i] else Null
  }

  function Member(members: map<string, Json>, name: string): Json {
    if name in members then members[name] else Null
  }

  /** One lookup step; a missing member or element is null. */
  function Child(u: Numerals, v: Json, token: string): Outcome {
    match v
    case Object(members) => Value(Member(members, token))
    case Array(items) =>
      if !IsDigits(u, token) then Value(Null)
      else if Int(u, token).None? then RaisesValueError
      else Value(Element(items, Int(u, token).value))
    case _ => Value(Null)
  }

  function Follow(u: Numerals, v: Json, tokens: seq<string>): Outcome
    decreases |tokens|
  {
    if tokens == [] then Value(v)
    else
      match Child(u, v, tokens[0])
      case RaisesValueError => RaisesValueError
      case Value(child) => Follow(u, child, tokens[1..])
  }

  lemma {:induction false} NullHasNoChildren(u: Numerals, tokens: seq<string>)
    ensures Follow(u, Null, tokens) == Value(Null)
  {
    if tokens != [] {
      NullHasNoChildren(u, tokens[1..]);
    }
  }

  lemma FollowNext(u: Numerals, v: Json, segments: seq<string>, k: nat)
    requires k < |segments|
    ensures Follow(u, v, UnescapeEach(NonEmpty(segments[k..]))) ==
            if segments[k] == "" then Follow(u, v, UnescapeEach(NonEmpty(segments[k + 1..])))
            else
              match Child(u, v, Unescape(segments[k]))
              case RaisesValueError => RaisesValueError
              case Value(child) => Follow(u, child, UnescapeEach(NonEmpty(segments[k + 1..])))
  {
    assert segments[k..][1..] == segments[k + 1..];
    var rest := NonEmpty(segments[k + 1..]);
    if segments[k] != "" {
      assert UnescapeEach([segments[k]] + rest)[1..] == UnescapeEach(rest);
    } else {
      assert NonEmpty(segments[k..]) == rest;
    }
  }

  /** The lookup loop, with its early return on a value that has no such child. */
  method ValueAtPointer(u: Numerals, value: Json, pointer: string) returns (r: Outcome)
    ensures r == Follow(u, value, Read(pointer))
  {
    var current := value;
    var segments := Split(StripSlashes(pointer));
    assert segments[0..] == segments;
    for k := 0 to |segments|
      invariant Follow(u, value, Read(pointer)) == Follow(u, current, UnescapeEach(NonEmpty(segments[k..])))
    {
      FollowNext(u, current, segments, k);
      if segments[k] == "" {
        continue;
      }
      var segment := Unescape(segments[k]);
      NullHasNoChildren(u, UnescapeEach(NonEmpty(segments[k + 1..])));
      if current.Object? {
        current := Member(current.members, segment);
      } else if current.Array? && IsDigits(u, segment) {
        var index := Int(u, segment);
        if index.None? {
          return RaisesValueError;
        }
        if index.value >= |current.items| {
          return Value(Null);
        }
        current := current.items[index.value];
      } else {
        return Value(Null);
      }
    }
    return Value(current);
  }

  // ---------------------------------------------------------------------------
  // The lookup step and section 4 of RFC 6901

  /** An array index of the RFC: "0", or ASCII digits without a leading zero. */
  predicate IsArrayIndex(token: string) {
    token != "" && Decimal.AllDigits(token) && (token[0] == '0' ==> token == "0")
  }

  /** The step of the RFC, with null for its error conditions. */
  function RfcChild(v: Json, token: string): Json {
    match v
    case Object(members) => Member(members, token)
    case Array(items) => if IsArrayIndex(token) then Element(items, Decimal.Value(token)) else Null
    case _ => Null
  }

  lemma {:induction false} AsciiValue(u: Numerals, s: string)
    requires IsPython(u) && Decimal.AllDigits(s)
    ensures DigitsValue(u, s) == Some(Decimal.Value(s))
  {
    if s != "" {
      AsciiValue(u, s[..|s| - 1]);
    }
  }

  /** A token for which the code's step differs from the RFC's on some array: digits that are
      not an array index, or more of them than `int` reads. */
  predicate Misread(u: Numerals, token: string) {
    IsDigits(u, token) && (!IsArrayIndex(token) || |token| > u.most)
  }

  /** On one value the two steps agree exactly when the value is no array, the token is not
      misread, or the misreading finds nothing. */
  lemma StepIsTheRfcStepIff(u: Numerals, v: Json, token: string)
    requires IsPython(u)
    ensures Child(u, v, token) == Value(RfcChild(v, token)) <==>
            (v.Array? && Misread(u, token) ==>
               Int(u, token).Some? && Element(v.items, Int(u, token).value) == Null)
  {
    if v.Array? && Decimal.AllDigits(token) && token != "" {
      AsciiValue(u, token);
      assert IsDigits(u, token) by {
        assert forall i :: 0 <= i < |token| ==> Decimal.IsDigit(token[i]) && u.decimal(token[i]).Some?;
      }
    }
  }

  /** The array of n + 1 values of which the last is `last`. */
  function ArrayTo(n: nat, last: Json): Json {
    Array(seq(n, _ => Null) + [last])
  }

  /** A token means on every value what the RFC says exactly when it is not misread. */
  lemma TokenMeansTheRfcStepIff(u: Numerals, token: string)
    requires IsPython(u)
    ensures (forall v :: Child(u, v, token) == Value(RfcChild(v, token))) <==> !Misread(u, token)
  {
    forall v ensures Child(u, v, token) == Value(RfcChild(v, token)) || Misread(u, token) {
      StepIsTheRfcStepIff(u, v, token);
    }
    if Misread(u, token) {
      var n := if Int(u, token).Some? then Int(u, token).value else 0;
      StepIsTheRfcStepIff(u, ArrayTo(n, Boolean(true)), token);
    }
  }

  /** Leading zeros: "00" selects the first element, where the RFC knows no such index. */
  lemma LeadingZerosAreAccepted(u: Numerals, items: seq<Json>)
    requires IsPython(u) && items != []
    ensures Child(u, Array(items), "00") == Value(items[0]) && RfcChild(Array(items), "00") == Null
  {
    AsciiValue(u, "00");
    assert Decimal.Value("00") == 0 by {
      assert "00"[..1] == "0" && "0"[..0] == "";
    }
    assert forall i :: 0 <= i < 2 ==> "00"[i] == '0' && u.decimal('0').Some?;
  }

  /** Digits beyond ASCII: one raises, the other selects an element. */
  lemma OtherDigits(u: Numerals, items: seq<Json>)
    requires IsPython(u)
    ensures Child(u, Array(items), [SUPERSCRIPT_TWO]) == RaisesValueError
    ensures Child(u, Array(items), [ARABIC_THREE]) == Value(Element(items, 3))
  {
    var three := [ARABIC_THREE];
    assert three[..|three| - 1] == "" && DigitsValue(u, three) == Some(3);
    assert u.isDigit(ARABIC_THREE);
    assert [SUPERSCRIPT_TWO][..0] == "";
  }

  // ---------------------------------------------------------------------------
  // Context paths such as plan.operations[3].action

  predicate IsNameChar(c: char) {
    c != '.' && c != '[' && c != ']'
  }

  predicate IsName(s: string) {
    s != "" && forall i :: 0 <= i < |s| ==> IsNameChar(s[i])
  }

  /** The length of the longest prefix of name characters. */
  function NameRun(s: string): (n: nat)
    ensures n <= |s|
    ensures s != "" && IsNameChar(s[0]) ==> n > 0
  {
    if s != "" && IsNameChar(s[0]) then 1 + NameRun(s[1..]) else 0
  }

  function DigitRun(s: string): (n: nat)
    ensures n <= |s|
  {
    if s != "" && Decimal.IsDigit(s[0]) then 1 + DigitRun(s[1..]) else 0
  }

  /** The matches of `([^.[\\]]+)|\\[([0-9]+)\\]`, scanned from the left. */
  function Tokens(s: string): seq<string>
    decreases |s|
  {
    if s == "" then []
    else if IsNameChar(s[0]) then [s[..NameRun(s)]] + Tokens(s[NameRun(s)..])
    else
      var d := DigitRun(s[1..]);
      if s[0] == '[' && d > 0 && 1 + d < |s| && s[1 + d] == ']' then [s[1..1 + d]] + Tokens(s[2 + d..])
      else Tokens(s[1..])
  }

  function ToPointer(context: string): string {
    if context == "" || context == "document" || context == "input" then "" else Print(Tokens(context))
  }

  lemma {:induction false} TokensAreNotEmpty(s: string)
    ensures forall i :: 0 <= i < |Tokens(s)| ==> Tokens(s)[i] != ""
    decreases |s|
  {
    if s != "" {
      if IsNameChar(s[0]) {
        TokensAreNotEmpty(s[NameRun(s)..]);
      } else {
        var d := DigitRun(s[1..]);
        TokensAreNotEmpty(s[1..]);
        if s[0] == '[' && d > 0 && 1 + d < |s| && s[1 + d] == ']' {
          TokensAreNotEmpty(s[2 + d..]);
        }
      }
    }
  }

  /** The loop over the matches, collecting escaped parts. */
  method MakePointer(context: string) returns (pointer: string)
    ensures pointer == ToPointer(context)
  {
    if context == "" || context == "document" || context == "input" {
      return "";
    }
    var tokens := Tokens(context);
    TokensAreNotEmpty(context);
    var parts: seq<string> := [];
    for i := 0 to |tokens|
      invariant parts == EscapeEach(tokens[..i])
    {
      if tokens[i] != "" {
        parts := parts + [Escape(tokens[i])];
      }
      assert EscapeEach(tokens[..i + 1]) == EscapeEach(tokens[..i]) + [Escape(tokens[i])];
    }
    assert tokens[..|tokens|] == tokens;
    return Join(parts);
  }

  datatype Segment = Name(name: string) | Index(index: nat) {
    predicate Valid() { Name? ==> IsName(name) }
    function Token(): string { if Name? then name else Decimal.Print(index) }
  }

  /** The text of the rest of a path: ".name" and "[index]". */
  function RenderRest(path: seq<Segment>): string {
    if path == [] then ""
    else RenderSegment(path[0]) + RenderRest(path[1..])
  }

  /** The text of a path; the first name has no dot before it. */
  function Render(path: seq<Segment>): string {
    if path != [] && path[0].Name? then path[0].name + RenderRest(path[1..]) else RenderRest(path)
  }

  function TokensOf(path: seq<Segment>): (r: seq<string>)
    ensures |r| == |path| && forall i :: 0 <= i < |r| ==> r[i] == path[i].Token()
  {
    seq(|path|, i requires 0 <= i < |path| => path[i].Token())
  }

  ghost predicate AllValid(path: seq<Segment>) {
    forall i :: 0 <= i < |path| ==> path[i].Valid()
  }

  lemma {:induction false} NameRunStops(name: string, rest: string)
    requires forall i :: 0 <= i < |name| ==> IsNameChar(name[i])
    requires rest == "" || !IsNameChar(rest[0])
    ensures NameRun(name + rest) == |name|
  {
    if name == "" {
      assert name + rest == rest;
    } else {
      assert (name + rest)[1..] == name[1..] + rest;
      NameRunStops(name[1..], rest);
    }
  }

  lemma {:induction false} DigitRunStops(digits: string, rest: string)
    requires Decimal.AllDigits(digits)
    requires rest == "" || !Decimal.IsDigit(rest[0])
    ensures DigitRun(digits + rest) == |digits|
  {
    if digits == "" {
      assert digits + rest == rest;
    } else {
      assert (digits + rest)[1..] == digits[1..] + rest;
      DigitRunStops(digits[1..], rest);
    }
  }

  lemma TokenOfName(name: string, rest: string)
    requires IsName(name) && (rest == "" || !IsNameChar(rest[0]))
    ensures Tokens(name + rest) == [name] + Tokens(rest)
  {
    NameRunStops(name, rest);
    var s := name + rest;
    assert s[..|name|] == name && s[|name|..] == rest;
  }

  lemma TokenOfIndex(digits: string, rest: string)
    requires digits != "" && Decimal.AllDigits(digits)
    ensures Tokens((['['] + digits + [']']) + rest) == [digits] + Tokens(rest)
  {
    var s := (['['] + digits + [']']) + rest;
    assert s[1..] == digits + ([']'] + rest);
    DigitRunStops(digits, [']'] + rest);
    assert s[1..1 + |digits|] == digits && s[1 + |digits|] == ']' && s[2 + |digits|..] == rest;
  }

  lemma TokenOfDottedName(name: string, rest: string)
    requires IsName(name) && (rest == "" || !IsNameChar(rest[0]))
    ensures Tokens((['.'] + name) + rest) == [name] + Tokens(rest)
  {
    var s := (['.'] + name) + rest;
    assert s[1..] == name + rest;
    TokenOfName(name, rest);
  }

  function RenderSegment(seg: Segment): string {
    if seg.Name? then ['.'] + seg.name else ['['] + Decimal.Print(seg.index) + [']']
  }

  lemma TokenOfSegment(seg: Segment, rest: string)
    requires seg.Valid() && (rest == "" || !IsNameChar(rest[0]))
    ensures Tokens(RenderSegment(seg) + rest) == [seg.Token()] + Tokens(rest)
    ensures !IsNameChar((RenderSegment(seg) + rest)[0])
  {
    if seg.Name? {
      TokenOfDottedName(seg.name, rest);
    } else {
      TokenOfIndex(Decimal.Print(seg.index), rest);
    }
  }

  lemma {:induction false} TokensOfRest(path: seq<Segment>)
    requires AllValid(path)
    ensures Tokens(RenderRest(path)) == TokensOf(path)
    ensures RenderRest(path) != "" ==> !IsNameChar(RenderRest(path)[0])
  {
    if path != [] {
      assert AllValid(path[1..]);
      TokensOfRest(path[1..]);
      assert TokensOf(path) == [path[0].Token()] + TokensOf(path[1..]);
      TokenOfSegment(path[0], RenderRest(path[1..]));
    }
  }

  /** Scanning a rendered path finds exactly its names and indices. */
  lemma TokensOfRender(path: seq<Segment>)
    requires AllValid(path)
    ensures Tokens(Render(path)) == TokensOf(path)
  {
    TokensOfRest(path);
    if path != [] && path[0].Name? {
      assert AllValid(path[1..]);
      TokensOfRest(path[1..]);
      TokenOfName(path[0].name, RenderRest(path[1..]));
      assert TokensOf(path) == [path[0].Token()] + TokensOf(path[1..]);
    }
  }

  /** What one segment means: a name selects a member, an index selects an element, or, in an
      object, the member whose name is that number. */
  function Step(v: Json, seg: Segment): Json {
    match v
    case Object(members) => Member(members, seg.Token())
    case Array(items) => if seg.Index? then Element(items, seg.index) else Null
    case _ => Null
  }

  function Walk(v: Json, path: seq<Segment>): Json
    decreases |path|
  {
    if path == [] then v else Walk(Step(v, path[0]), path[1..])
  }

  /** Lookup takes the segment for something else on some array: a name that consists of
      digits, or an index with more digits than `int` reads. */
  predicate Confusing(u: Numerals, seg: Segment) {
    if seg.Name? then IsDigits(u, seg.name) else |seg.Token()| > u.most
  }

  lemma PrintedIndexIsRead(u: Numerals, n: nat)
    requires IsPython(u)
    ensures IsDigits(u, Decimal.Print(n)) && DigitsValue(u, Decimal.Print(n)) == Some(n)
  {
    var s := Decimal.Print(n);
    AsciiValue(u, s);
    Decimal.ValueOfPrint(n);
    assert forall i :: 0 <= i < |s| ==> Decimal.IsDigit(s[i]) && u.decimal(s[i]).Some?;
  }

  /** On one value lookup takes the right step exactly when the value is no array, the segment
      is not confusing, or it is a name that stands for no element. */
  lemma StepIsRightIff(u: Numerals, v: Json, seg: Segment)
    requires IsPython(u)
    ensures Child(u, v, seg.Token()) == Value(Step(v, seg)) <==>
            (v.Array? && Confusing(u, seg) ==>
               seg.Name? && Int(u, seg.name).Some? && Element(v.items, Int(u, seg.name).value) == Null)
  {
    if seg.Index? {
      PrintedIndexIsRead(u, seg.index);
    }
  }

  ghost predicate Clear(u: Numerals, path: seq<Segment>) {
    forall i :: 0 <= i < |path| ==> !Confusing(u, path[i])
  }

  lemma {:induction false} FollowIsWalk(u: Numerals, v: Json, path: seq<Segment>)
    requires IsPython(u) && Clear(u, path)
    ensures Follow(u, v, TokensOf(path)) == Value(Walk(v, path))
    decreases |path|
  {
    if path != [] {
      StepIsRightIff(u, v, path[0]);
      assert TokensOf(path)[1..] == TokensOf(path[1..]);
      FollowIsWalk(u, Step(v, path[0]), path[1..]);
    }
  }

  /** On this document the path meets no confusing segment at an array, or the first one is a
      name of digits under which, read as an index, the rest of the path leads nowhere. */
  ghost predicate Harmless(u: Numerals, v: Json, path: seq<Segment>)
    decreases |path|
  {
    if path == [] then true
    else if v.Array? && Confusing(u, path[0]) then
      && path[0].Name? && Int(u, path[0].name).Some?
      && Follow(u, Element(v.items, Int(u, path[0].name).value), TokensOf(path[1..])) == Value(Null)
    else Harmless(u, Step(v, path[0]), path[1..])
  }

  /** On one document, lookup comes to what the path means exactly when that is so. */
  lemma {:induction false} LookupIsWalkIff(u: Numerals, v: Json, path: seq<Segment>)
    requires IsPython(u)
    ensures Follow(u, v, TokensOf(path)) == Value(Walk(v, path)) <==> Harmless(u, v, path)
    decreases |path|
  {
    if path != [] {
      assert TokensOf(path)[1..] == TokensOf(path[1..]);
      if path[0].Index? {
        PrintedIndexIsRead(u, path[0].index);
      }
      if v.Array? && Confusing(u, path[0]) {
        WalkFromNull(path[1..]);
      } else {
        StepIsRightIff(u, v, path[0]);
        LookupIsWalkIff(u, Step(v, path[0]), path[1..]);
      }
    }
  }

  /** A document along a path of members, with `leaf` at its end. */
  function Chain(path: seq<Segment>, leaf: Json): Json
    decreases |path|
  {
    if path == [] then leaf else Object(map[path[0].Token() := Chain(path[1..], leaf)])
  }

  lemma {:induction false} ChainLeads(u: Numerals, path: seq<Segment>, rest: seq<Segment>, leaf: Json)
    ensures Follow(u, Chain(path, leaf), TokensOf(path + rest)) == Follow(u, leaf, TokensOf(rest))
    ensures Walk(Chain(path, leaf), path + rest) == Walk(leaf, rest)
    decreases |path|
  {
    if path == [] {
      assert path + rest == rest;
    } else {
      assert (path + rest)[1..] == path[1..] + rest;
      assert TokensOf(path + rest)[1..] == TokensOf(path[1..] + rest);
      ChainLeads(u, path[1..], rest, leaf);
    }
  }

  lemma {:induction false} WalkFromNull(path: seq<Segment>)
    ensures Walk(Null, path) == Null
  {
    if path != [] {
      WalkFromNull(path[1..]);
    }
  }

  /** An array on which the rest of a path, beginning with a confusing name, is looked up
      wrongly: as an index the name selects members down to a leaf. */
  lemma ConfusingNameFails(u: Numerals, seg: Segment, rest: seq<Segment>)
    requires seg.Name? && Confusing(u, seg)
    ensures var n := if Int(u, seg.name).Some? then Int(u, seg.name).value else 0;
            var v := ArrayTo(n, Chain(rest, Boolean(true)));
            Walk(v, [seg] + rest) == Null && Follow(u, v, TokensOf([seg] + rest)) != Value(Null)
  {
    assert ([seg] + rest)[1..] == rest && TokensOf([seg] + rest)[1..] == TokensOf(rest);
    WalkFromNull(rest);
    ChainLeads(u, rest, [], Boolean(true));
    assert rest + [] == rest && TokensOf([]) == [];
  }

  lemma ConfusingIndexFails(u: Numerals, seg: Segment, rest: seq<Segment>)
    requires IsPython(u) && seg.Index? && Confusing(u, seg)
    ensures Follow(u, Array([]), TokensOf([seg] + rest)) == RaisesValueError
  {
    PrintedIndexIsRead(u, seg.index);
  }

  /** A document on which a path with a confusing segment is looked up wrongly: members down to
      that segment, and there an array. */
  lemma ConfusingPathFails(u: Numerals, path: seq<Segment>, k: nat)
    requires IsPython(u) && k < |path| && Confusing(u, path[k])
    ensures exists v :: Follow(u, v, TokensOf(path)) != Value(Walk(v, path))
  {
    var before, seg, rest := path[..k], path[k], path[k + 1..];
    assert path == before + ([seg] + rest);
    var mistaken: Json;
    if seg.Index? {
      mistaken := Array([]);
      ConfusingIndexFails(u, seg, rest);
    } else {
      mistaken := ArrayTo(if Int(u, seg.name).Some? then Int(u, seg.name).value else 0, Chain(rest, Boolean(true)));
      ConfusingNameFails(u, seg, rest);
    }
    ChainLeads(u, before, [seg] + rest, mistaken);
    var v := Chain(before, mistaken);
    assert Follow(u, v, TokensOf(path)) != Value(Walk(v, path));
  }

  lemma ReadOfContext(path: seq<Segment>)
    requires AllValid(path) && Render(path) != "document" && Render(path) != "input"
    ensures Read(ToPointer(Render(path))) == TokensOf(path)
  {
    TokensOfRender(path);
    var tokens := TokensOf(path);
    assert forall i :: 0 <= i < |tokens| ==> path[i].Valid() && tokens[i] != "";
    RoundTripIff(tokens);
    if Render(path) == "" {
      assert Tokens("") == [];
      assert Print([]) == "";
    }
  }

  /** For every context path other than the lone names "document" and "input": the pointer made
      from its text looks up exactly that path in every document if and only if no name in it
      consists of digits and no index has more digits than `int` reads. */
  lemma PointerLooksUpItsPathIff(u: Numerals, path: seq<Segment>)
    requires IsPython(u)
    requires AllValid(path) && Render(path) != "document" && Render(path) != "input"
    ensures (forall v :: Follow(u, v, Read(ToPointer(Render(path)))) == Value(Walk(v, path))) <==> Clear(u, path)
  {
    ReadOfContext(path);
    if Clear(u, path) {
      forall v ensures Follow(u, v, TokensOf(path)) == Value(Walk(v, path)) {
        FollowIsWalk(u, v, path);
      }
    } else {
      var k :| 0 <= k < |path| && Confusing(u, path[k]);
      ConfusingPathFails(u, path, k);
    }
  }

  /** The two exceptions stand for the whole document. */
  lemma DocumentAndInputAreTheRoot(u: Numerals, v: Json)
    ensures Follow(u, v, Read(ToPointer("document"))) == Value(v) && Follow(u, v, Read(ToPointer("input"))) == Value(v)
  {
    ReadOfPrint([]);
    assert Print([]) == "";
  }
}
