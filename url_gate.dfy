/**
 * The pre-crawl gate: `isValidURL` and `validateURLs` of go_wiki_reader.go.
 * Only the part of Go's `url.Parse` that decides the scheme is modelled:
 * the control-character check, the scheme scan and the lower-casing.
 */
module UrlGate {
  import opened Outcomes

  /** The errors `validateURLs` reports. */
  datatype UrlError = EmptyURLList | InvalidURL(url: string)

  /** The errors of `url.Parse` that the model distinguishes. */
  datatype ParseError = InvalidControlCharacter | MissingProtocolScheme

  /** A parsed URL; its scheme is the only field the gate reads. */
  datatype ParsedURL = ParsedURL(scheme: string)

  datatype ParseResult<+T> = Parsed(value: T) | ParseFailed(error: ParseError)

  predicate IsLetter(c: char) { 'a' <= c <= 'z' || 'A' <= c <= 'Z' }

  /** Characters allowed in a scheme after its first letter. */
  predicate IsSchemeChar(c: char) { IsLetter(c) || '0' <= c <= '9' || c == '+' || c == '-' || c == '.' }

  /** ASCII control characters, which `url.Parse` refuses outright. */
  predicate IsControl(c: char) { c < ' ' || c == '\U{007F}' }

  function LowerChar(c: char): char
  {
    if 'A' <= c <= 'Z' then (c - 'A' + 'a') as char else c
  }

  /** `strings.ToLower`, as it acts on the ASCII text a scheme is made of. */
  function ToLower(s: string): (r: string)
    ensures |r| == |s| && forall i :: 0 <= i < |s| ==> r[i] == LowerChar(s[i])
  {
    seq(|s|, i requires 0 <= i < |s| => LowerChar(s[i]))
  }

  /** The text before the first `#`: `url.Parse` cuts the fragment off before parsing. */
  function BeforeFragment(u: string): (r: string)
    ensures |r| <= |u| && r == u[..|r|] && '#' !in r
    ensures |r| < |u| ==> u[|r|] == '#'
  {
    if u == [] || u[0] == '#' then [] else [u[0]] + BeforeFragment(u[1..])
  }

  /**
   * Go's `getScheme` from position `i` on, the letters before `i` already
   * read: the scheme is the run of scheme characters that starts with a
   * letter and stops at a `:`; any other stop means "no scheme", and a `:`
   * in first position is an error.
   */
  function ScanScheme(raw: string, i: nat): (r: ParseResult<string>)
    requires i <= |raw|
    requires forall k :: 0 <= k < i ==> IsSchemeChar(raw[k])
    requires i > 0 ==> IsLetter(raw[0])
    ensures r.ParseFailed? <==> i == 0 && |raw| > 0 && raw[0] == ':'
    ensures r.Parsed? && r.value != [] ==>
      i <= |r.value| < |raw| && r.value == raw[..|r.value|] && raw[|r.value|] == ':' && IsLetter(raw[0])
      && forall k :: 0 <= k < |r.value| ==> IsSchemeChar(raw[k])
    ensures forall n ::
      (i <= n < |raw| && 0 < n && raw[n] == ':' && IsLetter(raw[0])
       && forall k :: 0 <= k < n ==> IsSchemeChar(raw[k])) ==> r == Parsed(raw[..n])
    decreases |raw| - i
  {
    if i == |raw| then Parsed([])
    else
      var c := raw[i];
      if IsLetter(c) then ScanScheme(raw, i + 1)
      else if '0' <= c <= '9' || c == '+' || c == '-' || c == '.' then
        if i == 0 then Parsed([]) else ScanScheme(raw, i + 1)
      else if c == ':' then
        if i == 0 then ParseFailed(MissingProtocolScheme) else Parsed(raw[..i])
      else Parsed([])
  }

  /** `url.Parse`, reduced to its verdict on control characters and the scheme. */
  function Parse(u: string): ParseResult<ParsedURL>
  {
    var v := BeforeFragment(u);
    if exists k :: 0 <= k < |v| && IsControl(v[k]) then ParseFailed(InvalidControlCharacter)
    else match ScanScheme(v, 0)
      case ParseFailed(e) => ParseFailed(e)
      case Parsed(scheme) => Parsed(ParsedURL(ToLower(scheme)))
  }

  /** `isValidURL`: the URL parses and its scheme is `http` or `https`. */
  predicate IsValidURL(u: string)
  {
    match Parse(u)
    case ParseFailed(_) => false
    case Parsed(p) => p.scheme == "http" || p.scheme == "https"
  }

  /** `u` begins with `p`, ignoring ASCII case in `u`. */
  predicate HasPrefixFold(u: string, p: string)
  {
    |p| <= |u| && ToLower(u[..|p|]) == p
  }

  predicate NoControlBeforeFragment(u: string)
  {
    var v := BeforeFragment(u);
    forall k :: 0 <= k < |v| ==> !IsControl(v[k])
  }

  /**
   * What `isValidURL` accepts, without reference to the parser: no control
   * character before the fragment, and the text starts with `http:` or
   * `https:` in any letter case.
   */
  lemma IsValidURLIffHttpPrefix(u: string)
    ensures IsValidURL(u) <==>
      NoControlBeforeFragment(u) && (HasPrefixFold(u, "http:") || HasPrefixFold(u, "https:"))
  {
    var v := BeforeFragment(u);
    if NoControlBeforeFragment(u) {
      var r := ScanScheme(v, 0);
      if IsValidURL(u) {
        var s := r.value;
        assert ToLower(s) == "http" || ToLower(s) == "https";
        assert v[..|s| + 1] == s + ":";
        assert u[..|s| + 1] == v[..|s| + 1];
        assert ToLower(s + ":") == ToLower(s) + ":";
      } else {
        if HasPrefixFold(u, "http:") {
          HttpPrefixScheme(u, v, "http");
        }
        if HasPrefixFold(u, "https:") {
          HttpPrefixScheme(u, v, "https");
        }
      }
    }
  }

  /** A text that starts with `scheme:` (any case) scans to a scheme that lower-cases to `scheme`. */
  lemma HttpPrefixScheme(u: string, v: string, scheme: string)
    requires v == BeforeFragment(u)
    requires scheme == "http" || scheme == "https"
    requires HasPrefixFold(u, scheme + ":")
    ensures ScanScheme(v, 0) == Parsed(v[..|scheme|]) && ToLower(v[..|scheme|]) == scheme
  {
    var n := |scheme|;
    var p := scheme + ":";
    forall k | 0 <= k <= n
      ensures LowerChar(u[k]) == p[k]
    {
      assert ToLower(u[..n + 1])[k] == LowerChar(u[k]);
    }
    forall k | 0 <= k <= n
      ensures k < |v| && v[k] == u[k]
    {
    }
    assert IsLetter(v[0]);
    assert forall k :: 0 <= k < n ==> IsLetter(v[k]);
    assert ToLower(v[..n]) == scheme;
  }

  /** The index of the first URL that is not valid, if any. */
  function FirstInvalid(urls: seq<string>): (r: Option<nat>)
    ensures r == None <==> forall i :: 0 <= i < |urls| ==> IsValidURL(urls[i])
    ensures r.Some? ==>
      (r.value < |urls| && !IsValidURL(urls[r.value])
       && forall j :: 0 <= j < r.value ==> IsValidURL(urls[j]))
  {
    if urls == [] then None
    else if !IsValidURL(urls[0]) then Some(0)
    else match FirstInvalid(urls[1..])
      case None => None
      case Some(k) => Some(k + 1)
  }

  /**
   * `validateURLs`: an empty list is refused; otherwise the list is scanned
   * in order and the first URL that is not valid is reported.
   */
  method ValidateURLs(urls: seq<string>) returns (r: Outcome<UrlError>)
    ensures urls == [] ==> r == Fail(EmptyURLList)
    ensures r == Pass <==> urls != [] && forall i :: 0 <= i < |urls| ==> IsValidURL(urls[i])
    ensures urls != [] && r.Fail? ==>
      FirstInvalid(urls).Some? && r.error == InvalidURL(urls[FirstInvalid(urls).value])
  {
    if |urls| == 0 {
      return Fail(EmptyURLList);
    }
    for i := 0 to |urls|
      invariant forall j :: 0 <= j < i ==> IsValidURL(urls[j])
    {
      if !IsValidURL(urls[i]) {
        return Fail(InvalidURL(urls[i]));
      }
    }
    return Pass;
  }

  /** No control character anywhere means none before the fragment either. */
  lemma NoControlAnywhere(u: string)
    requires forall k :: 0 <= k < |u| ==> !IsControl(u[k])
    ensures NoControlBeforeFragment(u)
  {
    var v := BeforeFragment(u);
    assert forall k :: 0 <= k < |v| ==> v[k] == u[k];
  }

  /** An `https` URL used by the tests of `validateURLs` is accepted. */
  lemma TestHttpsAccepted()
    ensures IsValidURL("https://example.com")
  {
    var u := "https://example.com";
    assert forall k :: 0 <= k < |u| ==> ' ' <= u[k] <= 'z';
    NoControlAnywhere(u);
    var p := ToLower(u[..6]);
    assert forall k :: 0 <= k < 6 ==> p[k] == "https:"[k];
    assert HasPrefixFold(u, "https:");
    IsValidURLIffHttpPrefix(u);
  }

  /** A text without a scheme, as in the tests' "invalid-url", is refused. */
  lemma TestNoSchemeRefused()
    ensures !IsValidURL("invalid-url")
  {
    var u := "invalid-url";
    assert ToLower(u[..5])[0] == 'i';
    assert ToLower(u[..6])[0] == 'i';
    IsValidURLIffHttpPrefix(u);
  }

  /** An `ftp` URL, as in the tests, is refused. */
  lemma TestFtpRefused()
    ensures !IsValidURL("ftp://example.com")
  {
    var u := "ftp://example.com";
    assert ToLower(u[..5])[0] == 'f';
    assert ToLower(u[..6])[0] == 'f';
    IsValidURLIffHttpPrefix(u);
  }
}
