/** Storage origins (dingdongditch/authentication/portable_state.py: `_safe_origin`), with the
    part of URL splitting that decides them. */
module Origins {
  import opened Wrappers

  /** The position of the first `c`, or the length. */
  function Find(s: string, c: char): (i: nat)
    ensures i <= |s|
    ensures i < |s| ==> s[i] == c
    ensures forall j :: 0 <= j < i ==> s[j] != c
  {
    if s == "" || s[0] == c then 0 else 1 + Find(s[1..], c)
  }

  predicate EndsAuthority(c: char) {
    c == '/' || c == '?' || c == '#'
  }

  /** The length of the authority: up to the first "/", "?" or "#". */
  function AuthorityLength(s: string): (i: nat)
    ensures i <= |s|
    ensures i < |s| ==> EndsAuthority(s[i])
    ensures forall j :: 0 <= j < i ==> !EndsAuthority(s[j])
  {
    if s == "" || EndsAuthority(s[0]) then 0 else 1 + AuthorityLength(s[1..])
  }

  predicate IsRemoved(c: char) {
    c == '\t' || c == '\r' || c == '\n'
  }

  /** Drop leading control characters and spaces. */
  function StripLeading(s: string): string {
    if s != "" && s[0] <= ' ' then StripLeading(s[1..]) else s
  }

  /** Drop tabs and line breaks everywhere. */
  function DropBreaks(s: string): (r: string)
    ensures forall i :: 0 <= i < |r| ==> !IsRemoved(r[i])
  {
    if s == "" then "" else (if IsRemoved(s[0]) then "" else [s[0]]) + DropBreaks(s[1..])
  }

  function LowerChar(c: char): char {
    if 'A' <= c <= 'Z' then ((c as int) - ('A' as int) + ('a' as int)) as char else c
  }

  function Lower(s: string): (r: string)
    ensures |r| == |s| && forall i :: 0 <= i < |r| ==> r[i] == LowerChar(s[i])
  {
    seq(|s|, i requires 0 <= i < |s| => LowerChar(s[i]))
  }

  predicate IsWeb(scheme: string) {
    scheme == "http" || scheme == "https"
  }

  /** Nothing but an empty or root path, with an empty query and an empty fragment. */
  predicate IsBareTail(tail: string) {
    var beforeFragment := tail[..Find(tail, '#')];
    var path := beforeFragment[..Find(beforeFragment, '?')];
    && |beforeFragment| + 1 >= |tail|
    && |path| + 1 >= |beforeFragment|
    && (path == "" || path == "/")
  }

  /** The canonical origin of a URL, if it is a plain web origin. `validHost` is the check of
      brackets and normalisation that URL splitting applies to the authority. */
  function SafeOrigin(validHost: string -> bool, url: string): Option<string> {
    var s := DropBreaks(StripLeading(url));
    var colon := Find(s, ':');
    var scheme, rest := Lower(s[..colon]), if colon < |s| then s[colon + 1..] else "";
    if !IsWeb(scheme) || |rest| < 2 || rest[..2] != "//" then None
    else
      var n := AuthorityLength(rest[2..]);
      var authority, tail := rest[2..][..n], rest[2..][n..];
      if authority == "" || '@' in authority || !validHost(authority) || !IsBareTail(tail) then None
      else Some(Canonical(scheme, authority))
  }

  function Canonical(scheme: string, authority: string): string {
    scheme + ([':'] + (['/', '/'] + authority))
  }

  // ---------------------------------------------------------------------------
  // Canonical origins are fixed points

  lemma {:induction false} NothingToDrop(s: string)
    requires forall i :: 0 <= i < |s| ==> !IsRemoved(s[i])
    ensures DropBreaks(s) == s
  {
    if s != "" {
      NothingToDrop(s[1..]);
      assert s == [s[0]] + s[1..];
    }
  }

  lemma {:induction false} FindIn(a: string, c: char, b: string)
    requires forall i :: 0 <= i < |a| ==> a[i] != c
    ensures Find(a + ([c] + b), c) == |a|
  {
    if a == "" {
      assert a + ([c] + b) == [c] + b;
    } else {
      assert (a + ([c] + b))[1..] == a[1..] + ([c] + b);
      FindIn(a[1..], c, b);
    }
  }

  lemma {:induction false} AuthorityIsWhole(s: string)
    requires forall i :: 0 <= i < |s| ==> !EndsAuthority(s[i])
    ensures AuthorityLength(s) == |s|
  {
    if s != "" {
      AuthorityIsWhole(s[1..]);
    }
  }

  lemma WebSchemesAreLower(scheme: string)
    requires IsWeb(scheme)
    ensures Lower(scheme) == scheme && scheme[0] == 'h'
    ensures forall i :: 0 <= i < |scheme| ==> scheme[i] != ':' && !IsRemoved(scheme[i])
  {
  }

  /** A canonical origin with an acceptable authority is its own origin. */
  lemma CanonicalIsFixed(validHost: string -> bool, scheme: string, authority: string)
    requires IsWeb(scheme) && authority != "" && '@' !in authority && validHost(authority)
    requires forall i :: 0 <= i < |authority| ==> !EndsAuthority(authority[i]) && !IsRemoved(authority[i])
    ensures SafeOrigin(validHost, Canonical(scheme, authority)) == Some(Canonical(scheme, authority))
  {
    WebSchemesAreLower(scheme);
    var rest := ['/', '/'] + authority;
    var s := Canonical(scheme, authority);
    assert s[0] == 'h' && StripLeading(s) == s;
    assert forall i :: 0 <= i < |s| ==> !IsRemoved(s[i]);
    NothingToDrop(s);
    FindIn(scheme, ':', rest);
    assert s[..|scheme|] == scheme && s[|scheme| + 1..] == rest;
    assert rest[..2] == "//" && rest[2..] == authority;
    AuthorityIsWhole(authority);
    assert authority[..|authority|] == authority && authority[|authority|..] == "";
  }

  /** The eight ways in which a URL can end after its authority and still be a plain origin. */
  predicate IsPlainEnd(tail: string) {
    tail == "" || tail == "/" || tail == "?" || tail == "#" || tail == "/?" || tail == "/#" || tail == "?#" || tail == "/?#"
  }

  lemma FindEnd(s: string, c: char)
    ensures Find(s, c) == |s| <==> c !in s
  {
  }

  /** Text up to a separator, with at most the separator itself behind it. */
  lemma UpToSeparator(s: string, c: char)
    ensures var front := s[..Find(s, c)];
            && c !in front
            && (|front| + 1 >= |s| <==> s == front || s == front + [c])
  {
    var i := Find(s, c);
    if i < |s| {
      assert s[..i + 1] == s[..i] + [c];
      assert i + 1 == |s| ==> s == s[..i + 1];
    } else {
      assert s[..i] == s;
    }
  }

  lemma PlainEnds(tail: string)
    ensures IsBareTail(tail) <==> IsPlainEnd(tail)
  {
    var front := tail[..Find(tail, '#')];
    var path := front[..Find(front, '?')];
    UpToSeparator(tail, '#');
    UpToSeparator(front, '?');
    if IsPlainEnd(tail) {
      PlainEndsAreBare(tail);
    }
  }

  lemma PlainEndsAreBare(tail: string)
    requires IsPlainEnd(tail)
    ensures IsBareTail(tail)
  {
    var path := if tail != "" && tail[0] == '/' then "/" else "";
    var rest := tail[|path|..];
    assert tail == path + rest;
    if rest == "" {
      FindEnd(tail, '#');
      FindEnd(tail, '?');
    } else if rest == "#" {
      FindIn(path, '#', "");
      assert path + (['#'] + "") == tail;
      FindEnd(path, '?');
      assert tail[..|path|] == path;
    } else if rest == "?" {
      FindEnd(tail, '#');
      assert tail[..|tail|] == tail;
      FindIn(path, '?', "");
      assert path + (['?'] + "") == tail;
      assert tail[..|path|] == path;
    } else {
      var front := path + ['?'];
      FindIn(front, '#', "");
      assert front + (['#'] + "") == tail && tail[..|front|] == front;
      FindIn(path, '?', "");
      assert path + (['?'] + "") == front && front[..|path|] == path;
    }
  }

  predicate HasBreaks(s: string) {
    exists i :: 0 <= i < |s| && IsRemoved(s[i])
  }

  lemma {:induction false} AuthorityBefore(authority: string, tail: string)
    requires forall i :: 0 <= i < |authority| ==> !EndsAuthority(authority[i])
    requires tail == "" || EndsAuthority(tail[0])
    ensures AuthorityLength(authority + tail) == |authority|
  {
    if authority == "" {
      assert authority + tail == tail;
    } else {
      assert (authority + tail)[1..] == authority[1..] + tail;
      AuthorityBefore(authority[1..], tail);
    }
  }

  /** The URL with these parts. */
  function UrlOf(scheme: string, authority: string, tail: string): string {
    scheme + ([':'] + (['/', '/'] + (authority + tail)))
  }

  /** A URL made of a scheme, an authority and what follows it is a safe origin exactly when the
      scheme is http or https in any case, the authority is not empty, has no user part and is
      acceptable, and nothing but a root path and empty query and fragment follow; its canonical
      form is the scheme in lower case and the authority. */
  lemma SafeOriginIff(validHost: string -> bool, scheme: string, authority: string, tail: string)
    requires scheme != "" && scheme[0] > ' ' && ':' !in scheme && !HasBreaks(UrlOf(scheme, authority, tail))
    requires forall i :: 0 <= i < |authority| ==> !EndsAuthority(authority[i])
    requires tail == "" || EndsAuthority(tail[0])
    ensures SafeOrigin(validHost, UrlOf(scheme, authority, tail)) ==
            if (Lower(scheme) == "http" || Lower(scheme) == "https") && authority != "" && '@' !in authority
               && validHost(authority) && IsPlainEnd(tail)
            then Some(Lower(scheme) + "://" + authority) else None
  {
    var url := UrlOf(scheme, authority, tail);
    var rest := ['/', '/'] + (authority + tail);
    assert url[0] == scheme[0] && StripLeading(url) == url;
    NothingToDrop(url);
    FindIn(scheme, ':', rest);
    assert url[..|scheme|] == scheme && url[|scheme| + 1..] == rest;
    assert rest[..2] == "//" && rest[2..] == authority + tail;
    AuthorityBefore(authority, tail);
    assert (authority + tail)[..|authority|] == authority && (authority + tail)[|authority|..] == tail;
    PlainEnds(tail);
    assert Canonical(Lower(scheme), authority) == Lower(scheme) + "://" + authority;
  }

  lemma AuthorityHasNoEnds(s: string, start: nat)
    requires start <= |s| && forall i :: 0 <= i < |s| ==> !IsRemoved(s[i])
    ensures var authority := s[start..][..AuthorityLength(s[start..])];
            forall i :: 0 <= i < |authority| ==> !EndsAuthority(authority[i]) && !IsRemoved(authority[i])
  {
    var rest := s[start..];
    var authority := rest[..AuthorityLength(rest)];
    forall i | 0 <= i < |authority| ensures !EndsAuthority(authority[i]) && !IsRemoved(authority[i]) {
      assert authority[i] == rest[i] == s[start + i];
    }
  }

  /** Taking the origin of an origin changes nothing. */
  lemma SafeOriginIsIdempotent(validHost: string -> bool, url: string)
    requires SafeOrigin(validHost, url).Some?
    ensures SafeOrigin(validHost, SafeOrigin(validHost, url).value) == SafeOrigin(validHost, url)
  {
    var s := DropBreaks(StripLeading(url));
    var colon := Find(s, ':');
    assert s[colon + 1..][2..] == s[colon + 3..];
    AuthorityHasNoEnds(s, colon + 3);
    var rest := s[colon + 3..];
    CanonicalIsFixed(validHost, Lower(s[..colon]), rest[..AuthorityLength(rest)]);
  }
}
