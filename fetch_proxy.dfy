/**
 * The server-side fetch proxy: the hostname blocklist, the decision skeleton
 * of `fetchURL` (redirect budget, checks on every hop, status mapping, the
 * 50 MiB size rule, body plausibility) and the request handler.
 *
 * Sockets, timers and decompression are not modelled: one request to a URL
 * is an abstract `Hop` supplied by the environment, with the status, the two
 * headers the code reads, the sizes of the decompressed data chunks and the
 * text they decode to.
 */
module FetchProxy {
  import opened Wrappers
  import opened Text
  import opened Sitemap

  // ---------------------------------------------------------------------
  // isPrivateIP
  // ---------------------------------------------------------------------

  /** One of the regular expressions of the blocklist. */
  datatype Pattern =
    | Exact(text: string, ignoreCase: bool)   // `^text$`
    | Prefix(text: string, ignoreCase: bool)  // `^text`
    | Private172                              // `^172\.(1[6-9]|2[0-9]|3[0-1])\.`

  /** `1[6-9]|2[0-9]|3[0-1]`: the second octet of 172.16.0.0/12, as two digits. */
  predicate SecondOctet(a: char, b: char) {
    || (a == '1' && '6' <= b <= '9')
    || (a == '2' && '0' <= b <= '9')
    || (a == '3' && '0' <= b <= '1')
  }

  predicate Matches172(h: string) {
    |h| >= 7 && h[..4] == "172." && SecondOctet(h[4], h[5]) && h[6] == '.'
  }

  /**
   * `p.test(h)`. The case-insensitive patterns are written in lower case,
   * so matching them ignoring case is matching the lower-cased hostname.
   */
  predicate Matches(p: Pattern, h: string) {
    match p
    case Exact(t, ci) => (if ci then ToLower(h) else h) == t
    case Prefix(t, ci) => StartsWith(if ci then ToLower(h) else h, t)
    case Private172 => Matches172(h)
  }

  const PrivatePatterns: seq<Pattern> := [
    Exact("localhost", true), Prefix("127.", false), Prefix("10.", false), Private172,
    Prefix("192.168.", false), Prefix("0.", false), Prefix("169.254.", false), Exact("::1", false),
    Prefix("fc00:", true), Prefix("fe80:", true), Prefix("metadata.google", true)]

  /** `patterns.some(p => p.test(h))`. */
  predicate AnyMatches(patterns: seq<Pattern>, h: string)
    decreases |patterns|
  {
    patterns != [] && (Matches(patterns[0], h) || AnyMatches(patterns[1..], h))
  }

  lemma {:induction false} AnyMatchesExists(patterns: seq<Pattern>, h: string)
    ensures AnyMatches(patterns, h) <==> exists i :: 0 <= i < |patterns| && Matches(patterns[i], h)
    decreases |patterns|
  {
    if patterns != [] {
      AnyMatchesExists(patterns[1..], h);
      if AnyMatches(patterns[1..], h) {
        var i :| 0 <= i < |patterns[1..]| && Matches(patterns[1..][i], h);
        assert Matches(patterns[i + 1], h);
      }
      if exists i :: 0 <= i < |patterns| && Matches(patterns[i], h) {
        var i :| 0 <= i < |patterns| && Matches(patterns[i], h);
        if i > 0 {
          assert patterns[1..][i - 1] == patterns[i];
        }
      }
    }
  }

  /** `isPrivateIP`, as written: one of the eleven patterns matches the hostname. */
  predicate IsPrivateIP(h: string): (b: bool)
    ensures b <==> exists i :: 0 <= i < |PrivatePatterns| && Matches(PrivatePatterns[i], h)
  {
    AnyMatchesExists(PrivatePatterns, h);
    AnyMatches(PrivatePatterns, h)
  }

  /** Digits of a two-digit number. */
  lemma TwoDigits(n: nat)
    requires 10 <= n < 100
    ensures NatToString(n) == [DigitChar(n / 10), DigitChar(n % 10)]
  {
    assert NatToString(n / 10) == [DigitChar(n / 10)];
  }

  /**
   * The 172 pattern blocks exactly the second octets 16 to 31: a hostname
   * `172.<n>.<rest>` is matched iff 16 <= n <= 31.
   */
  lemma Private172Octet(n: nat, rest: string)
    ensures Matches172("172." + NatToString(n) + "." + rest) <==> 16 <= n <= 31
  {
    var d := NatToString(n);
    var h := "172." + d + "." + rest;
    assert h[..4] == "172.";
    if n < 10 {
      assert h[5] == '.';
    } else if n < 100 {
      TwoDigits(n);
      assert h[4] == DigitChar(n / 10) && h[5] == DigitChar(n % 10) && h[6] == '.';
    } else {
      assert d == NatToString(n / 10) + [DigitChar(n % 10)];
      assert |d| >= 3;
      assert h[6] == d[2];
    }
  }

  /** 172.20.0.1 is blocked, 172.32.0.1 is not. */
  lemma Private172Examples()
    ensures Matches172("172.20.0.1") && !Matches172("172.32.0.1")
  {
    Private172Octet(20, "0.1");
    TwoDigits(20);
    assert "172." + NatToString(20) + "." + "0.1" == "172.20.0.1";
    Private172Octet(32, "0.1");
    TwoDigits(32);
    assert "172." + NatToString(32) + "." + "0.1" == "172.32.0.1";
  }

  /** The cloud metadata address 169.254.169.254 is blocked; 172.20.0.1 is blocked. */
  lemma BlockedExamples()
    ensures IsPrivateIP("169.254.169.254") && IsPrivateIP("172.20.0.1")
  {
    Private172Examples();
    assert Matches(PrivatePatterns[3], "172.20.0.1");
    assert Matches(PrivatePatterns[6], "169.254.169.254");
  }

  /**
   * A hostname that starts with `[` matches no pattern. WHATWG URL parsing
   * gives IPv6 hosts in brackets (`http://[::1]/` has hostname `[::1]`), so
   * the `::1`, `fc00:` and `fe80:` patterns never see an IPv6 host.
   */
  lemma BracketedNeverPrivate(h: string)
    requires h != [] && h[0] == '['
    ensures !IsPrivateIP(h)
  {
    PatternsStartPlain();
    NoneMatchBracketed(PrivatePatterns, h);
  }

  /** The pattern cannot match text that starts with `[`. */
  predicate StartsPlain(p: Pattern) {
    match p
    case Exact(t, _) => t != [] && t[0] != '['
    case Prefix(t, _) => t != [] && t[0] != '['
    case Private172 => true
  }

  predicate AllStartPlain(patterns: seq<Pattern>) {
    forall i :: 0 <= i < |patterns| ==> StartsPlain(patterns[i])
  }

  lemma PatternsStartPlain()
    ensures AllStartPlain(PrivatePatterns)
  {
    forall i | 0 <= i < 6 ensures StartsPlain(PrivatePatterns[i]) {}
    forall i | 6 <= i < |PrivatePatterns| ensures StartsPlain(PrivatePatterns[i]) {}
  }

  lemma {:induction false} NoneMatchBracketed(patterns: seq<Pattern>, h: string)
    requires AllStartPlain(patterns)
    requires h != [] && h[0] == '['
    ensures !AnyMatches(patterns, h)
    decreases |patterns|
  {
    if patterns != [] {
      assert StartsPlain(patterns[0]);
      NoneMatchBracketed(patterns[1..], h);
      match patterns[0] {
        case Exact(t, ci) =>
          assert (if ci then ToLower(h) else h)[0] == '[';
        case Prefix(t, ci) =>
          assert (if ci then ToLower(h) else h)[0] == '[';
        case Private172 =>
      }
    }
  }

  /** The loopback address as a URL gives it: not blocked by the list as written. */
  lemma LoopbackV6NotBlocked()
    ensures !IsPrivateIP("[::1]")
  {
    BracketedNeverPrivate("[::1]");
  }

  /** The hostname without the brackets around an IPv6 literal. */
  function Unbracket(h: string): (r: string)
    ensures |r| <= |h|
  {
    if |h| >= 2 && h[0] == '[' && h[|h| - 1] == ']' then h[1..|h| - 1] else h
  }

  /** The blocklist applied to the address itself, brackets removed. */
  predicate IsBlockedHost(h: string) {
    IsPrivateIP(Unbracket(h))
  }

  /**
   * The corrected check blocks everything the list as written blocks, and
   * also the bracketed form of every listed address.
   */
  lemma BlockedHostExtends(h: string, a: string)
    ensures IsPrivateIP(h) ==> IsBlockedHost(h)
    ensures IsPrivateIP(a) ==> IsBlockedHost("[" + a + "]")
  {
    if h != [] && h[0] == '[' {
      BracketedNeverPrivate(h);
    }
    var b := "[" + a + "]";
    assert b[1..|b| - 1] == a;
  }

  /** With the brackets removed, the IPv6 loopback address is blocked. */
  lemma LoopbackV6Blocked()
    ensures IsBlockedHost("[::1]")
  {
    assert Matches(PrivatePatterns[7], "::1");
    BlockedHostExtends("::1", "::1");
    assert "[" + "::1" + "]" == "[::1]";
  }

  // ---------------------------------------------------------------------
  // parseInt(header, 10)
  // ---------------------------------------------------------------------

  predicate IsDigit(c: char) {
    '0' <= c <= '9'
  }

  /** The longest prefix of decimal digits. */
  function LeadingDigits(s: string): (r: string)
    ensures StartsWith(s, r)
    ensures forall i :: 0 <= i < |r| ==> IsDigit(r[i])
    ensures |r| < |s| ==> !IsDigit(s[|r|])
    decreases |s|
  {
    if s != [] && IsDigit(s[0]) then [s[0]] + LeadingDigits(s[1..]) else []
  }

  function DigitValue(c: char): (r: nat)
    requires IsDigit(c)
    ensures r < 10
  {
    c as int - '0' as int
  }

  /** The value of a string of decimal digits. */
  function DigitsValue(d: string): nat
    requires forall i :: 0 <= i < |d| ==> IsDigit(d[i])
    decreases |d|
  {
    if d == [] then 0 else DigitsValue(d[..|d| - 1]) * 10 + DigitValue(d[|d| - 1])
  }

  /**
   * `parseInt(s, 10)`: leading white space, an optional sign, then the longest
   * run of digits; `None` stands for NaN, when there is no digit.
   */
  function ParseInt(s: string): (r: Option<int>)
    ensures var t := TrimStart(s);
      var u := if t != [] && (t[0] == '-' || t[0] == '+') then t[1..] else t;
      && (r.None? <==> u == [] || !IsDigit(u[0]))
      && (r.Some? && t[0] != '-' ==> r.value == DigitsValue(LeadingDigits(u)))
      && (r.Some? && t[0] == '-' ==> r.value == -(DigitsValue(LeadingDigits(u)) as int))
  {
    ParseSigned(TrimStart(s))
  }

  /** The sign, if any, then the digits. */
  function ParseSigned(t: string): Option<int> {
    if t != [] && t[0] == '-' then
      match ParseDigits(t[1..])
      case None => None
      case Some(v) => Some(-v)
    else if t != [] && t[0] == '+' then ParseDigits(t[1..])
    else ParseDigits(t)
  }

  /** The value of the leading digits, `None` when there are none. */
  function ParseDigits(u: string): Option<int> {
    var d := LeadingDigits(u);
    if d == [] then None else Some(DigitsValue(d))
  }

  lemma {:induction false} DigitsOfNat(n: nat)
    ensures DigitsValue(NatToString(n)) == n
  {
    if n >= 10 {
      var d := NatToString(n);
      assert d[..|d| - 1] == NatToString(n / 10);
      DigitsOfNat(n / 10);
    }
  }

  lemma AllDigitsLead(d: string)
    requires forall i :: 0 <= i < |d| ==> IsDigit(d[i])
    ensures LeadingDigits(d) == d
  {
  }

  /** `parseInt` reads back the decimal rendering of every non-negative integer. */
  lemma ParseIntOfNat(n: nat)
    ensures ParseInt(NatToString(n)) == Some(n)
  {
    ParseIntOfDigits(NatToString(n));
    DigitsOfNat(n);
  }

  /** A non-empty string of digits alone is read as its value. */
  lemma ParseIntOfDigits(d: string)
    requires d != [] && forall i :: 0 <= i < |d| ==> IsDigit(d[i])
    ensures ParseInt(d) == Some(DigitsValue(d))
  {
    DigitsUntrimmed(d);
    AllDigitsLead(d);
    assert IsDigit(d[0]);
    assert ParseSigned(d) == ParseDigits(d);
  }

  lemma DigitsUntrimmed(d: string)
    requires d != [] && IsDigit(d[0])
    ensures TrimStart(d) == d
  {
    assert !IsSpace(d[0]);
  }

  /** `parseInt` of text with no leading digit, sign or space is NaN. */
  lemma ParseIntNaN(s: string)
    requires s != [] && !IsDigit(s[0]) && !IsSpace(s[0]) && s[0] != '-' && s[0] != '+'
    ensures ParseInt(s) == None
  {
  }

  // ---------------------------------------------------------------------
  // The size rule
  // ---------------------------------------------------------------------

  /** 50 MiB. */
  const MaxBodyBytes: nat := 50 * 1024 * 1024

  const TooLarge := "File too large (max 50MB)"

  /**
   * `parseInt(res.headers['content-length'] || '0', 10) > 50 MiB`; an absent
   * header is the empty string, and NaN compares false.
   */
  predicate DeclaredTooLarge(contentLength: string) {
    var v := ParseInt(if contentLength == [] then "0" else contentLength);
    v.Some? && v.value > MaxBodyBytes
  }

  /** A declared length is rejected exactly when it exceeds the limit. */
  lemma DeclaredLimit(n: nat)
    ensures DeclaredTooLarge(NatToString(n)) <==> n > MaxBodyBytes
  {
    ParseIntOfNat(n);
  }

  lemma NoDeclaredLength()
    ensures !DeclaredTooLarge([])
  {
    ParseIntOfNat(0);
    assert NatToString(0) == "0";
  }

  /** The bytes of the chunks received so far. */
  function Total(chunks: seq<nat>): nat
    decreases |chunks|
  {
    if chunks == [] then 0 else Total(chunks[..|chunks| - 1]) + chunks[|chunks| - 1]
  }

  /** A running total never exceeds the final one: chunk sizes are not negative. */
  lemma {:induction false} TotalPrefix(chunks: seq<nat>, i: nat)
    requires i <= |chunks|
    ensures Total(chunks[..i]) <= Total(chunks)
    decreases |chunks| - i
  {
    if i < |chunks| {
      TotalPrefix(chunks, i + 1);
      assert chunks[..i + 1][..i] == chunks[..i];
    } else {
      assert chunks[..i] == chunks;
    }
  }

  /**
   * The `data` handler: adds each chunk's size to `totalSize` and rejects as
   * soon as the total passes 50 MiB. Whether it rejects depends only on the
   * total, not on how the body is cut into chunks.
   */
  method ReadBody(chunks: seq<nat>) returns (r: Result<nat, string>)
    ensures r == if Total(chunks) <= MaxBodyBytes then Ok(Total(chunks)) else Err(TooLarge)
  {
    var totalSize := 0;
    for i := 0 to |chunks|
      invariant totalSize == Total(chunks[..i]) <= MaxBodyBytes
    {
      assert chunks[..i + 1][..i] == chunks[..i];
      totalSize := totalSize + chunks[i];
      if totalSize > MaxBodyBytes {
        TotalPrefix(chunks, i + 1);
        return Err(TooLarge);
      }
    }
    assert chunks[..|chunks|] == chunks;
    return Ok(totalSize);
  }

  /** Exactly 50 MiB is accepted, one byte more is not. */
  lemma SizeBoundary()
    ensures Total([MaxBodyBytes]) <= MaxBodyBytes
    ensures Total([MaxBodyBytes, 1]) > MaxBodyBytes
  {
    assert [MaxBodyBytes][..0] == [];
    assert [MaxBodyBytes, 1][..1] == [MaxBodyBytes];
  }

  // ---------------------------------------------------------------------
  // Body validation
  // ---------------------------------------------------------------------

  const HtmlInsteadOfXml := "The URL returned an HTML page instead of XML. Make sure the URL points to a sitemap.xml file."
  const EmptyResponse := "The URL returned an empty response."
  const NotXml := "The URL did not return valid XML. The response may be plain text, JSON, or another format."

  predicate StartsLikeXml(trimmed: string) {
    StartsWith(trimmed, "<?xml") || StartsWith(trimmed, "<urlset") || StartsWith(trimmed, "<sitemapindex")
  }

  /** The `end` handler's checks on the received text. */
  function ValidateBody(body: string): (r: Result<string, string>)
    ensures r.Ok? ==> r.value == body
  {
    var trimmed := TrimStart(body);
    if LooksLikeHtml(trimmed) then Err(HtmlInsteadOfXml)
    else if !StartsLikeXml(trimmed) && |trimmed| == 0 then Err(EmptyResponse)
    else if !StartsLikeXml(trimmed) && !StartsWith(trimmed, "<") then Err(NotXml)
    else Ok(body)
  }

  /** Each recognised XML opening starts with `<`. */
  lemma XmlOpeningsStartWithLt(t: string)
    requires StartsLikeXml(t)
    ensures t != [] && t[0] == '<'
  {
    if StartsWith(t, "<?xml") {
      StartsWithHead(t, "<?xml");
    } else if StartsWith(t, "<urlset") {
      StartsWithHead(t, "<urlset");
    } else {
      StartsWithHead(t, "<sitemapindex");
    }
  }

  /**
   * A body is accepted iff, after leading white space, it starts with `<`
   * and not with one of the HTML openings; the recognised XML openings add
   * nothing, since each starts with `<`. An accepted body is returned as it
   * came, leading white space included.
   */
  lemma ValidateBodyAccepts(body: string)
    ensures var t := TrimStart(body);
      ValidateBody(body).Ok? <==> !LooksLikeHtml(t) && t != [] && t[0] == '<'
  {
    var t := TrimStart(body);
    if StartsLikeXml(t) {
      XmlOpeningsStartWithLt(t);
    }
    StartsWithLt(t);
  }

  /** An empty or all-blank body is reported as an empty response, and only such a body. */
  lemma ValidateBodyEmpty(body: string)
    ensures ValidateBody(body) == Err(EmptyResponse) <==> TrimStart(body) == []
  {
    var t := TrimStart(body);
    var r := ValidateBody(body);
    if t == [] {
      assert !LooksLikeHtml(t) && !StartsLikeXml(t);
      assert r == Err(EmptyResponse);
    } else {
      assert r == Err(HtmlInsteadOfXml) || r == Err(NotXml) || r == Ok(body);
      MessagesDiffer();
    }
  }

  /** The empty-response message is neither of the other two body errors. */
  lemma MessagesDiffer()
    ensures EmptyResponse != HtmlInsteadOfXml && EmptyResponse != NotXml
  {
    assert |EmptyResponse| == 35 && |HtmlInsteadOfXml| == 93 && |NotXml| == 90;
  }

  // ---------------------------------------------------------------------
  // fetchURL
  // ---------------------------------------------------------------------

  /** What one response offers to the code. */
  datatype Response = Response(
    status: nat,
    location: string,        // the `location` header, empty when absent
    contentLength: string,   // the `content-length` header, empty when absent
    chunks: seq<nat>,        // sizes of the decompressed `data` chunks, in order
    streamError: Option<string>, // the stream's `error` event instead of `end`
    body: string)            // the text the chunks decode to

  /** What one request to a URL gives. */
  datatype Hop =
    | NoConnection(message: string)  // the request's `error` event
    | TimedOut                       // the request's `timeout` event
    | Answered(response: Response)

  /**
   * Which hostname test every hop makes: `AsWritten` is `isPrivateIP(hostname)`
   * as the proxy runs it; `Corrected` tests the address with its IPv6 brackets
   * removed.
   */
  datatype HostCheck = AsWritten | Corrected

  predicate HostBlocked(check: HostCheck, h: string) {
    match check
    case AsWritten => IsPrivateIP(h)
    case Corrected => IsBlockedHost(h)
  }

  /**
   * The environment: URL parsing, relative resolution, the network, and the
   * hostname test in force (`AsWritten` for the proxy as it stands).
   */
  datatype Env = Env(
    parse: UrlParser,
    resolve: (string, string) -> Option<string>,  // `new URL(location, base).href`
    net: string -> Hop,
    hosts: HostCheck)

  const TooManyRedirects := "Too many redirects"
  const InvalidUrl := "Invalid URL"
  const OnlyHttp := "Only HTTP/HTTPS URLs are supported"
  const BlockedAddress := "Access to private/internal addresses is blocked"
  const InvalidRedirect := "Invalid redirect URL"
  const NotFound := "Sitemap not found (404). Check the URL path."
  const AccessDenied := "Access denied (403). The server blocked the request."
  const TimedOutMessage := "Request timed out"

  const RedirectCodes: set<nat> := {301, 302, 303, 307, 308}

  /** The checks made on every hop before a request is issued. */
  function Admit(check: HostCheck, parse: UrlParser, url: string): (r: Result<Url, string>)
    ensures r.Ok? <==> parse(url).Some? && IsHttp(parse(url).value) && !HostBlocked(check, parse(url).value.hostname)
    ensures r.Ok? ==> r.value == parse(url).value
    ensures parse(url).None? ==> r == Err(InvalidUrl)
    ensures parse(url).Some? && !IsHttp(parse(url).value) ==> r == Err(OnlyHttp)
  {
    match parse(url)
    case None => Err(InvalidUrl)
    case Some(u) =>
      if !IsHttp(u) then Err(OnlyHttp)
      else if HostBlocked(check, u.hostname) then Err(BlockedAddress)
      else Ok(u)
  }

  /**
   * The two tests differ only in which hosts they block: the corrected one
   * admits no URL the proxy as written refuses, and both give the same
   * answer to every URL the proxy as written refuses.
   */
  lemma CorrectedAdmitsLess(parse: UrlParser, url: string)
    ensures Admit(Corrected, parse, url).Ok? ==> Admit(AsWritten, parse, url) == Admit(Corrected, parse, url)
    ensures Admit(AsWritten, parse, url).Err? ==> Admit(Corrected, parse, url) == Admit(AsWritten, parse, url)
  {
    if parse(url).Some? {
      BlockedHostExtends(parse(url).value.hostname, []);
    }
  }

  /** What the status line and `location` header decide. */
  datatype Step = Follow(location: string) | Fail(message: string) | Proceed

  function Classify(status: nat, location: string): (r: Step)
    ensures r.Follow? <==> status in RedirectCodes && location != []
    ensures r.Follow? ==> r.location == location
    ensures r.Proceed? <==> status == 200
  {
    if status in RedirectCodes && location != [] then Follow(location)
    else if status == 404 then Fail(NotFound)
    else if status == 403 then Fail(AccessDenied)
    else if status != 200 then Fail("HTTP " + NatToString(status))
    else Proceed
  }

  /** A redirect status without a `location` header is reported as a plain HTTP error. */
  lemma RedirectWithoutLocation(status: nat)
    requires status in RedirectCodes
    ensures Classify(status, []) == Fail("HTTP " + NatToString(status))
  {
  }

  /** A `200` response: the declared length, the running size, the stream's end, the body checks. */
  function Receive(res: Response): (r: Result<string, string>)
    ensures r.Ok? <==>
      (!DeclaredTooLarge(res.contentLength) && Total(res.chunks) <= MaxBodyBytes
       && res.streamError.None? && ValidateBody(res.body).Ok?)
    ensures r.Ok? ==> r.value == res.body
  {
    if DeclaredTooLarge(res.contentLength) then Err(TooLarge)
    else if Total(res.chunks) > MaxBodyBytes then Err(TooLarge)
    else match res.streamError
      case Some(m) => Err("Decompression error: " + m)
      case None => ValidateBody(res.body)
  }

  /** The result of a fetch and the URLs requested, in order. */
  datatype Outcome = Outcome(result: Result<string, string>, requested: seq<string>)

  /** `fetchURL(url, maxRedirects)`: following a redirect spends one unit of the budget. */
  function Fetch(env: Env, url: string, maxRedirects: int): (o: Outcome)
    ensures |o.requested| <= if maxRedirects < 0 then 0 else maxRedirects + 1
    ensures o.result.Ok? ==> o.requested != [] && ValidateBody(o.result.value).Ok?
    decreases if maxRedirects < 0 then 0 else maxRedirects + 1
  {
    if maxRedirects < 0 then Outcome(Err(TooManyRedirects), [])
    else
      match Admit(env.hosts, env.parse, url)
      case Err(m) => Outcome(Err(m), [])
      case Ok(_) =>
        match env.net(url)
        case NoConnection(m) => Outcome(Err("Fetch error: " + m), [url])
        case TimedOut => Outcome(Err(TimedOutMessage), [url])
        case Answered(res) =>
          match Classify(res.status, res.location)
          case Fail(m) => Outcome(Err(m), [url])
          case Proceed => Outcome(Receive(res), [url])
          case Follow(loc) =>
            match env.resolve(loc, url)
            case None => Outcome(Err(InvalidRedirect), [url])
            case Some(next) =>
              var o := Fetch(env, next, maxRedirects - 1);
              Outcome(o.result, [url] + o.requested)
  }

  /** The URL passes the per-hop checks. */
  predicate Admitted(env: Env, url: string) {
    Admit(env.hosts, env.parse, url).Ok?
  }

  /** The request to `url` is made and answered by a redirect that resolves. */
  predicate Redirects(env: Env, url: string) {
    Admitted(env, url) && env.net(url).Answered?
    && Classify(env.net(url).response.status, env.net(url).response.location).Follow?
    && env.resolve(env.net(url).response.location, url).Some?
  }

  /** Where a redirect from `url` leads. */
  function NextUrl(env: Env, url: string): string
    requires Redirects(env, url)
  {
    env.resolve(env.net(url).response.location, url).value
  }

  /**
   * Without a redirect to follow, the fetch ends at `url`: requested once if it
   * passed the checks, answered with the checks' error otherwise, and a success
   * is the received body.
   */
  lemma FetchStops(env: Env, url: string, maxRedirects: int)
    requires maxRedirects >= 0 && !Redirects(env, url)
    ensures Fetch(env, url, maxRedirects).requested == if Admitted(env, url) then [url] else []
    ensures Admit(env.hosts, env.parse, url).Err? ==> Fetch(env, url, maxRedirects).result == Err(Admit(env.hosts, env.parse, url).error)
    ensures Fetch(env, url, maxRedirects).result.Ok? ==>
      env.net(url).Answered? && Fetch(env, url, maxRedirects).result == Receive(env.net(url).response)
  {
    if Admitted(env, url) && env.net(url).Answered? {
      var res := env.net(url).response;
      if Classify(res.status, res.location).Follow? {
        assert env.resolve(res.location, url).None?;
        assert Fetch(env, url, maxRedirects) == Outcome(Err(InvalidRedirect), [url]);
      }
    }
  }

  /** One followed redirect: the request is recorded and the fetch goes on with one redirect fewer. */
  lemma FetchFollows(env: Env, url: string, maxRedirects: int)
    requires maxRedirects >= 0 && Redirects(env, url)
    ensures Fetch(env, url, maxRedirects)
      == Outcome(Fetch(env, NextUrl(env, url), maxRedirects - 1).result,
                 [url] + Fetch(env, NextUrl(env, url), maxRedirects - 1).requested)
  {
  }

  /**
   * Every URL requested, redirect targets included, passed the checks first;
   * a URL that fails them is answered with the check's error and no request.
   */
  lemma {:induction false} FetchRequestsAdmitted(env: Env, url: string, maxRedirects: int)
    ensures var o := Fetch(env, url, maxRedirects);
      forall i :: 0 <= i < |o.requested| ==> Admitted(env, o.requested[i])
    ensures maxRedirects >= 0 && Admit(env.hosts, env.parse, url).Err? ==>
      Fetch(env, url, maxRedirects) == Outcome(Err(Admit(env.hosts, env.parse, url).error), [])
    decreases if maxRedirects < 0 then 0 else maxRedirects + 1
  {
    if maxRedirects >= 0 {
      if Redirects(env, url) {
        FetchFollows(env, url, maxRedirects);
        FetchRequestsAdmitted(env, NextUrl(env, url), maxRedirects - 1);
      } else {
        FetchStops(env, url, maxRedirects);
      }
    }
  }

  /**
   * The proxy as it stands requests a URL whose host is the bracketed IPv6
   * loopback address: it passes every check and is the first request made.
   */
  lemma LoopbackV6Requested(env: Env, url: string, maxRedirects: int)
    requires env.hosts == AsWritten && maxRedirects >= 0
    requires env.parse(url).Some? && IsHttp(env.parse(url).value)
    requires env.parse(url).value.hostname == "[::1]"
    ensures Fetch(env, url, maxRedirects).requested != []
    ensures Fetch(env, url, maxRedirects).requested[0] == url
  {
    LoopbackV6NotBlocked();
    if Redirects(env, url) {
      FetchFollows(env, url, maxRedirects);
    } else {
      FetchStops(env, url, maxRedirects);
    }
  }

  /** With the corrected test the same URL is refused before any request. */
  lemma LoopbackV6Refused(env: Env, url: string, maxRedirects: int)
    requires env.hosts == Corrected && maxRedirects >= 0
    requires env.parse(url).Some? && IsHttp(env.parse(url).value)
    requires env.parse(url).value.hostname == "[::1]"
    ensures Fetch(env, url, maxRedirects) == Outcome(Err(BlockedAddress), [])
  {
    LoopbackV6Blocked();
  }

  /**
   * The budget bounds the requests: at most `maxRedirects + 1`, so from the
   * default of 5 at most 5 redirects are followed; a negative budget is
   * rejected before anything else.
   */
  lemma {:induction false} FetchRequestBound(env: Env, url: string, maxRedirects: int)
    ensures maxRedirects < 0 ==> Fetch(env, url, maxRedirects) == Outcome(Err(TooManyRedirects), [])
    ensures |Fetch(env, url, maxRedirects).requested| <= if maxRedirects < 0 then 0 else maxRedirects + 1
    decreases if maxRedirects < 0 then 0 else maxRedirects + 1
  {
    if maxRedirects >= 0 {
      if Redirects(env, url) {
        FetchFollows(env, url, maxRedirects);
        FetchRequestBound(env, NextUrl(env, url), maxRedirects - 1);
      } else {
        FetchStops(env, url, maxRedirects);
      }
    }
  }

  /** Every URL redirects, and every target passes the checks and resolves. */
  ghost predicate EndlessRedirects(env: Env) {
    forall u :: Redirects(env, u) && Admitted(env, NextUrl(env, u))
  }

  /** A redirect loop is cut off after exactly `maxRedirects + 1` requests. */
  lemma {:induction false} RedirectLoopStops(env: Env, url: string, maxRedirects: int)
    requires EndlessRedirects(env)
    ensures Fetch(env, url, maxRedirects).result == Err(TooManyRedirects)
    ensures |Fetch(env, url, maxRedirects).requested| == if maxRedirects < 0 then 0 else maxRedirects + 1
    decreases if maxRedirects < 0 then 0 else maxRedirects + 1
  {
    if maxRedirects >= 0 {
      assert Redirects(env, url);
      FetchFollows(env, url, maxRedirects);
      RedirectLoopStops(env, NextUrl(env, url), maxRedirects - 1);
    }
  }

  /** A successful fetch returns a body that passed the plausibility checks, within the size limit. */
  lemma {:induction false} FetchOkIsPlausible(env: Env, url: string, maxRedirects: int)
    requires Fetch(env, url, maxRedirects).result.Ok?
    ensures ValidateBody(Fetch(env, url, maxRedirects).result.value).Ok?
    ensures Fetch(env, url, maxRedirects).requested != []
    decreases if maxRedirects < 0 then 0 else maxRedirects + 1
  {
    if maxRedirects >= 0 {
      if Redirects(env, url) {
        FetchFollows(env, url, maxRedirects);
        FetchOkIsPlausible(env, NextUrl(env, url), maxRedirects - 1);
      } else {
        FetchStops(env, url, maxRedirects);
      }
    }
  }

  // ---------------------------------------------------------------------
  // The request handler
  // ---------------------------------------------------------------------

  /** The `url` member of the request body. */
  datatype BodyUrl = Missing | NotText | Given(value: string)

  datatype Request = Request(httpMethod: string, url: BodyUrl)

  /** The JSON bodies the handler sends. */
  datatype Payload = Failure(error: string) | Success(data: string)

  /** The status and body the handler answers with; `None` for the bodiless `end()`. */
  datatype Reply = Reply(status: nat, payload: Option<Payload>)

  const StandardHeaders: seq<(string, string)> := [
    ("Access-Control-Allow-Origin", "*"),
    ("Access-Control-Allow-Methods", "POST, OPTIONS"),
    ("Access-Control-Allow-Headers", "Content-Type"),
    ("X-Content-Type-Options", "nosniff"),
    ("X-Frame-Options", "DENY")]

  /**
   * The handler's branching after the headers are set: only OPTIONS gets no
   * body, and a 500 always carries an error.
   */
  function Route(req: Request, env: Env): (r: Reply)
    ensures r.status in {200, 400, 405, 500}
    ensures r.payload.None? <==> req.httpMethod == "OPTIONS"
    ensures r.status == 500 ==> r.payload.Some? && r.payload.value.Failure?
    ensures r.payload.Some? && r.payload.value.Success? ==> r.status == 200
  {
    if req.httpMethod == "OPTIONS" then Reply(200, None)
    else if req.httpMethod != "POST" then Reply(405, Some(Failure("Method not allowed")))
    else if !req.url.Given? || req.url.value == [] then Reply(400, Some(Failure("URL is required")))
    else match env.parse(req.url.value)
      case None => Reply(400, Some(Failure("Invalid URL format")))
      case Some(u) =>
        if !IsHttp(u) then Reply(400, Some(Failure(OnlyHttp)))
        else match Fetch(env, req.url.value, 5).result
          case Ok(data) => Reply(200, Some(Success(data)))
          case Err(m) => Reply(500, Some(Failure(m)))
  }

  /**
   * The handler's answers: 200 without body for OPTIONS, 405 for any other
   * method but POST, 400 for a missing, empty, non-text, unparsable or
   * non-HTTP URL, and otherwise 200 with the fetched text or 500 with the
   * fetch's error.
   */
  lemma RouteAnswers(req: Request, env: Env)
    ensures Route(req, env).status == 200 && Route(req, env).payload == None <==> req.httpMethod == "OPTIONS"
    ensures Route(req, env).status == 405 <==> req.httpMethod != "OPTIONS" && req.httpMethod != "POST"
    ensures Route(req, env).status == 400 <==>
      (req.httpMethod == "POST" &&
       (!req.url.Given? || req.url.value == [] || env.parse(req.url.value).None? || !IsHttp(env.parse(req.url.value).value)))
    ensures Route(req, env).payload.Some? && Route(req, env).payload.value.Success? ==>
      Route(req, env) == Reply(200, Some(Success(Fetch(env, req.url.value, 5).result.value)))
    ensures req.httpMethod == "POST" && req.url.Given? && req.url.value != []
      && env.parse(req.url.value).Some? && IsHttp(env.parse(req.url.value).value)
      ==> Route(req, env) == match Fetch(env, req.url.value, 5).result
        case Ok(d) => Reply(200, Some(Success(d)))
        case Err(m) => Reply(500, Some(Failure(m)))
  {
  }

  /**
   * A successful answer only ever carries text fetched from admitted URLs, at
   * most six of them (the request and five redirects), and that passed the
   * body checks.
   */
  lemma RouteSuccessIsSafe(req: Request, env: Env)
    requires Route(req, env).payload.Some? && Route(req, env).payload.value.Success?
    ensures req.url.Given?
    ensures var o := Fetch(env, req.url.value, 5);
      o.result.Ok? && ValidateBody(o.result.value).Ok? && 1 <= |o.requested| <= 6
      && forall i :: 0 <= i < |o.requested| ==> PassedChecks(env, o.requested[i])
  {
    RouteAnswers(req, env);
    FetchOkIsSafe(env, req.url.value, 5);
  }

  /**
   * What admission means for one requested URL: it parses, it is http(s),
   * and the hostname test in force does not block its hostname exactly as
   * URL parsing gives it (brackets kept, under `AsWritten`).
   */
  predicate PassedChecks(env: Env, url: string) {
    env.parse(url).Some? && IsHttp(env.parse(url).value)
    && !HostBlocked(env.hosts, env.parse(url).value.hostname)
  }

  /** What a successful fetch with a budget of `m` redirects guarantees. */
  lemma FetchOkIsSafe(env: Env, url: string, m: int)
    requires Fetch(env, url, m).result.Ok?
    ensures var o := Fetch(env, url, m);
      ValidateBody(o.result.value).Ok? && 1 <= |o.requested| <= m + 1
      && forall i :: 0 <= i < |o.requested| ==> PassedChecks(env, o.requested[i])
  {
    var o := Fetch(env, url, m);
    FetchRequestsAdmitted(env, url, m);
    forall i | 0 <= i < |o.requested|
      ensures PassedChecks(env, o.requested[i])
    {
      AdmittedPassesChecks(env, o.requested[i]);
    }
  }

  lemma AdmittedPassesChecks(env: Env, url: string)
    requires Admitted(env, url)
    ensures PassedChecks(env, url)
  {
  }

  /** The response object of the serverless runtime. */
  class ServerResponse {
    var headers: seq<(string, string)>
    var statusCode: nat
    var payload: Option<Payload>
    var ended: bool

    constructor ()
      ensures headers == [] && statusCode == 200 && payload == None && !ended
    {
      headers := [];
      statusCode := 200;
      payload := None;
      ended := false;
    }

    /** `res.setHeader(name, value)`. */
    method SetHeader(name: string, value: string)
      modifies this
      ensures headers == old(headers) + [(name, value)]
      ensures statusCode == old(statusCode) && payload == old(payload) && ended == old(ended)
    {
      headers := headers + [(name, value)];
    }

    /** `res.status(code).json(body)`, or `.end()` when `body` is `None`. */
    method Send(code: nat, body: Option<Payload>)
      modifies this
      ensures statusCode == code && payload == body && ended
      ensures headers == old(headers)
    {
      statusCode := code;
      payload := body;
      ended := true;
    }
  }

  /**
   * The exported handler: sets the CORS and security headers before any
   * branch, then answers as `Route` says.
   */
  method Handle(req: Request, env: Env, res: ServerResponse)
    modifies res
    ensures res.headers == old(res.headers) + StandardHeaders
    ensures Reply(res.statusCode, res.payload) == Route(req, env)
    ensures res.ended
  {
    ghost var before := res.headers;
    res.SetHeader("Access-Control-Allow-Origin", "*");
    res.SetHeader("Access-Control-Allow-Methods", "POST, OPTIONS");
    res.SetHeader("Access-Control-Allow-Headers", "Content-Type");
    res.SetHeader("X-Content-Type-Options", "nosniff");
    res.SetHeader("X-Frame-Options", "DENY");
    assert res.headers == before + StandardHeaders;
    var reply := Route(req, env);
    res.Send(reply.status, reply.payload);
  }
}
