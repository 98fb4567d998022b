/**
 * Web content fetcher: the SSRF guard on URLs, the content-type gate and
 * the readable-text extraction with whitespace normalisation.
 *
 * The WHATWG URL parser, the HTTP request, JSDOM and Readability are outside
 * the model: a parsed URL is a (protocol, hostname, href) record, and the network
 * answer together with what Readability and the DOM made of the page is an
 * input `Response`.
 */
module Fetcher {
  import opened Wrappers
  import opened Strings

  /**
   * What `new URL(s)` yields: the protocol (with its colon) and hostname the
   * guard looks at, and `href`, the serialised URL that is requested.
   */
  datatype ParsedUrl = ParsedUrl(protocol: string, hostname: string, href: string)

  const BlockedProtocols: seq<string> := ["file:", "ftp:", "data:", "javascript:"]
  const AllowedProtocols: seq<string> := ["http:", "https:"]

  const InvalidFormatMessage := "Invalid URL format"
  const UnsupportedProtocolMessage := "Only HTTP and HTTPS URLs are supported"
  const PrivateNetworkMessage := "URL not allowed (private network)"
  const UnsupportedTypeMessage := "Cannot monitor this file type — only HTML pages are supported"
  const NoReadableTextMessage := "Could not extract readable text from this page"

  function BlockedProtocolMessage(protocol: string): string {
    "Protocol \"" + protocol + "\" is not allowed"
  }

  /** The shapes of the anchored regular expressions in the hostname blocklist. */
  datatype HostPattern =
    | Prefix(text: string, ignoreCase: bool)   // /^text/  or /^text/i
    | Exact(text: string, ignoreCase: bool)    // /^text$/ or /^text$/i
    | Private172                               // /^172\.(1[6-9]|2\d|3[01])\./

  const PrivateIpPatterns: seq<HostPattern> := [
    Prefix("127.", false),
    Prefix("10.", false),
    Prefix("192.168.", false),
    Private172,
    Prefix("0.", false),
    Prefix("169.254.", false),
    Prefix("fc00:", true),
    Prefix("fe80:", true),
    Exact("::1", false),
    Exact("localhost", true)
  ]

  /** "172." then exactly the two characters of 16..31, then ".". */
  predicate Matches172(host: string) {
    |host| >= 7 && host[..4] == "172." && host[6] == '.'
    && (|| (host[4] == '1' && '6' <= host[5] <= '9')
        || (host[4] == '2' && IsDigit(host[5]))
        || (host[4] == '3' && (host[5] == '0' || host[5] == '1')))
  }

  /** `pattern.test(host)` */
  predicate Matches(pattern: HostPattern, host: string) {
    match pattern
    case Prefix(t, false) => StartsWith(host, t)
    case Prefix(t, true) => StartsWithIgnoreCase(host, t)
    case Exact(t, false) => host == t
    case Exact(t, true) => EqualsIgnoreCase(host, t)
    case Private172 => Matches172(host)
  }

  /** The loop over the patterns, which stops at the first one that matches. */
  function MatchesAny(patterns: seq<HostPattern>, host: string): bool {
    if patterns == [] then false
    else if Matches(patterns[0], host) then true
    else MatchesAny(patterns[1..], host)
  }

  /** The loop finds a match exactly when some pattern matches. */
  lemma {:induction false} MatchesAnyIff(patterns: seq<HostPattern>, host: string)
    ensures MatchesAny(patterns, host) <==> exists i :: 0 <= i < |patterns| && Matches(patterns[i], host)
    decreases |patterns|
  {
    if patterns != [] {
      MatchesAnyIff(patterns[1..], host);
      assert forall i :: 1 <= i < |patterns| ==> patterns[i] == patterns[1..][i - 1];
    }
  }

  predicate IsPrivateHostname(host: string) {
    MatchesAny(PrivateIpPatterns, host)
  }

  /** The second half of the blocklist, the IPv6 and name patterns. */
  lemma LaterPatternsIff(host: string)
    ensures MatchesAny(PrivateIpPatterns[5..], host) <==>
      || StartsWith(host, "169.254.")
      || StartsWithIgnoreCase(host, "fc00:")
      || StartsWithIgnoreCase(host, "fe80:")
      || host == "::1"
      || EqualsIgnoreCase(host, "localhost")
  {
    var p := PrivateIpPatterns;
    assert MatchesAny(p[5..], host) == (Matches(p[5], host) || MatchesAny(p[6..], host));
    assert MatchesAny(p[6..], host) == (Matches(p[6], host) || MatchesAny(p[7..], host));
    assert MatchesAny(p[7..], host) == (Matches(p[7], host) || MatchesAny(p[8..], host));
    assert MatchesAny(p[8..], host) == (Matches(p[8], host) || MatchesAny(p[9..], host));
    assert MatchesAny(p[9..], host) == (Matches(p[9], host) || MatchesAny(p[10..], host));
    assert p[10..] == [];
  }

  /**
   * The blocklist in plain terms. The test is on the text of the hostname
   * only; nothing is resolved.
   */
  lemma PrivateHostnameIff(host: string)
    ensures IsPrivateHostname(host) <==>
      || StartsWith(host, "127.")
      || StartsWith(host, "10.")
      || StartsWith(host, "192.168.")
      || Matches172(host)
      || StartsWith(host, "0.")
      || StartsWith(host, "169.254.")
      || StartsWithIgnoreCase(host, "fc00:")
      || StartsWithIgnoreCase(host, "fe80:")
      || host == "::1"
      || EqualsIgnoreCase(host, "localhost")
  {
    var p := PrivateIpPatterns;
    assert MatchesAny(p, host) == (Matches(p[0], host) || MatchesAny(p[1..], host));
    assert MatchesAny(p[1..], host) == (Matches(p[1], host) || MatchesAny(p[2..], host));
    assert MatchesAny(p[2..], host) == (Matches(p[2], host) || MatchesAny(p[3..], host));
    assert MatchesAny(p[3..], host) == (Matches(p[3], host) || MatchesAny(p[4..], host));
    assert MatchesAny(p[4..], host) == (Matches(p[4], host) || MatchesAny(p[5..], host));
    LaterPatternsIff(host);
  }

  /**
   * `validateUrl`: `parsed` is None when `new URL` throws. The checks run in
   * order: parse, blocked protocol, non-http(s) protocol, private hostname.
   */
  function ValidateUrl(parsed: Option<ParsedUrl>): (r: Result<ParsedUrl>)
    ensures parsed.None? ==> r == Err(InvalidFormatMessage)
    ensures parsed.Some? && parsed.value.protocol in BlockedProtocols ==>
      r == Err(BlockedProtocolMessage(parsed.value.protocol))
    ensures (parsed.Some? && parsed.value.protocol !in BlockedProtocols
             && parsed.value.protocol !in AllowedProtocols) ==> r == Err(UnsupportedProtocolMessage)
    ensures (parsed.Some? && parsed.value.protocol in AllowedProtocols
             && IsPrivateHostname(parsed.value.hostname)) ==> r == Err(PrivateNetworkMessage)
    ensures r.Ok? <==> (parsed.Some? && parsed.value.protocol in AllowedProtocols
                        && !IsPrivateHostname(parsed.value.hostname))
    ensures r.Ok? ==> r.value == parsed.value
  {
    if parsed.None? then Err(InvalidFormatMessage)
    else
      var url := parsed.value;
      if url.protocol in BlockedProtocols then Err(BlockedProtocolMessage(url.protocol))
      else if url.protocol !in AllowedProtocols then Err(UnsupportedProtocolMessage)
      else if MatchesAny(PrivateIpPatterns, url.hostname) then Err(PrivateNetworkMessage)
      else Ok(url)
  }

  /** A URL that passes the guard is http(s) and its hostname has none of the private shapes. */
  lemma ValidatedUrlIsPublic(parsed: Option<ParsedUrl>)
    requires ValidateUrl(parsed).Ok?
    ensures parsed.Some? && parsed.value.protocol in {"http:", "https:"}
    ensures var h := parsed.value.hostname;
      && !StartsWith(h, "127.") && !StartsWith(h, "10.") && !StartsWith(h, "192.168.")
      && !Matches172(h) && !StartsWith(h, "0.") && !StartsWith(h, "169.254.")
      && !StartsWithIgnoreCase(h, "fc00:") && !StartsWithIgnoreCase(h, "fe80:")
      && h != "::1" && !EqualsIgnoreCase(h, "localhost")
  {
    PrivateHostnameIff(parsed.value.hostname);
  }

  /** The guard is textual: a public name that merely starts like a private address is refused. */
  lemma LookalikeNameRefused()
    ensures ValidateUrl(Some(ParsedUrl("https:", "10.example.com", "https://10.example.com/"))) == Err(PrivateNetworkMessage)
  {
    PrivateHostnameIff("10.example.com");
  }

  /**
   * The URL parser writes an IPv6 hostname in brackets, as in `[::1]`; a
   * bracketed hostname matches none of the patterns, so an http(s) URL with
   * one passes the guard, the IPv6 loopback included.
   */
  lemma BracketedHostnamePasses(protocol: string, host: string, href: string)
    requires protocol in AllowedProtocols
    requires |host| > 0 && host[0] == '['
    ensures ValidateUrl(Some(ParsedUrl(protocol, host, href))).Ok?
  {
    PrivateHostnameIff(host);
    assert AsciiLower(host[0]) == '[';
    assert !StartsWithIgnoreCase(host, "fc00:") && !StartsWithIgnoreCase(host, "fe80:");
    assert !EqualsIgnoreCase(host, "localhost");
  }

  /** The content-type gate; a missing header counts as "". */
  function IsHtmlContentType(header: Option<string>): (ok: bool)
    ensures header.None? ==> !ok
    ensures ok <==> exists i :: OccursAt(header.GetOr(""), "text/html", i)
                                || OccursAt(header.GetOr(""), "application/xhtml", i)
  {
    var contentType := header.GetOr("");
    Contains(contentType, "text/html") || Contains(contentType, "application/xhtml")
  }

  /** No two whitespace characters in a row. */
  predicate NoDoubleSpace(s: string) {
    forall i :: 0 <= i < |s| - 1 ==> !(IsSpace(s[i]) && IsSpace(s[i + 1]))
  }

  /** The only whitespace character is the plain space. */
  predicate OnlyPlainSpaces(s: string) {
    forall i :: 0 <= i < |s| && IsSpace(s[i]) ==> s[i] == ' '
  }

  predicate NoEdgeSpace(s: string) {
    s == [] || (!IsSpace(s[0]) && !IsSpace(s[|s| - 1]))
  }

  /** The characters of `s` that are not whitespace, in order. */
  function Visible(s: string): string {
    if s == [] then [] else (if IsSpace(s[0]) then [] else [s[0]]) + Visible(s[1..])
  }

  lemma {:induction false} VisibleAppend(a: string, b: string)
    ensures Visible(a + b) == Visible(a) + Visible(b)
    decreases |a|
  {
    if a != [] {
      assert (a + b)[1..] == a[1..] + b;
      VisibleAppend(a[1..], b);
    } else {
      assert a + b == b;
    }
  }

  lemma {:induction false} VisibleOfSpaces(s: string)
    requires AllSpace(s)
    ensures Visible(s) == []
    decreases |s|
  {
    if s != [] {
      VisibleOfSpaces(s[1..]);
    }
  }

  lemma VisibleTrimEnd(s: string)
    ensures Visible(TrimEnd(s)) == Visible(s)
  {
    var r := TrimEnd(s);
    TrimEndIsPrefix(s);
    assert s == r + s[|r|..];
    VisibleAppend(r, s[|r|..]);
    VisibleOfSpaces(s[|r|..]);
  }

  /** Trimming removes whitespace only. */
  lemma VisibleTrim(s: string)
    ensures Visible(Trim(s)) == Visible(s)
  {
    VisibleTrimStart(s);
    VisibleTrimEnd(TrimStart(s));
  }

  lemma VisibleTrimStart(s: string)
    ensures Visible(TrimStart(s)) == Visible(s)
  {
    var r := TrimStart(s);
    var k := |s| - |r|;
    TrimStartIsSuffix(s);
    assert s == s[..k] + r;
    VisibleAppend(s[..k], r);
    VisibleOfSpaces(s[..k]);
  }

  /** The longest prefix of `s` holding no whitespace. */
  function FirstWord(s: string): (w: string)
    ensures |w| <= |s| && w == s[..|w|]
    ensures forall i :: 0 <= i < |w| ==> !IsSpace(w[i])
    ensures |w| < |s| ==> IsSpace(s[|w|])
    ensures s != [] && !IsSpace(s[0]) ==> |w| > 0
    decreases |s|
  {
    if s == [] || IsSpace(s[0]) then [] else [s[0]] + FirstWord(s[1..])
  }

  /** The words of `s`: its maximal runs of non-whitespace characters, in order. */
  function Words(s: string): seq<string>
    decreases |s|
  {
    var t := TrimStart(s);
    if t == [] then []
    else
      var w := FirstWord(t);
      [w] + Words(t[|w|..])
  }

  /** A whitespace character in front of a text does not change its words. */
  lemma WordsSpaceCons(c: char, x: string)
    requires IsSpace(c)
    ensures Words([c] + x) == Words(x)
  {
    assert ([c] + x)[1..] == x;
    assert TrimStart([c] + x) == TrimStart(x);
  }

  /** A visible character in front joins the first word of `x`, or is a word of its own when `x` starts with whitespace. */
  lemma WordsCons(c: char, x: string)
    requires !IsSpace(c)
    ensures x != [] && !IsSpace(x[0]) ==>
      Words(x) != [] && Words([c] + x) == [[c] + Words(x)[0]] + Words(x)[1..]
    ensures x == [] || IsSpace(x[0]) ==> Words([c] + x) == [[c]] + Words(x)
  {
    var s := [c] + x;
    assert s[1..] == x;
    assert TrimStart(s) == s;
    assert FirstWord(s) == [c] + FirstWord(x);
    var w := FirstWord(s);
    if x != [] && !IsSpace(x[0]) {
      assert TrimStart(x) == x;
      assert s[|w|..] == x[|FirstWord(x)|..];
    } else {
      assert s[|w|..] == x;
    }
  }

  lemma WordsOfSpaces(s: string)
    requires AllSpace(s)
    ensures Words(s) == []
  {
    TrimStartIsSuffix(s);
  }

  lemma {:induction false} WordsSpacePrefix(ws: string, s: string)
    requires AllSpace(ws)
    ensures Words(ws + s) == Words(s)
    decreases |ws|
  {
    if ws != [] {
      assert ws + s == [ws[0]] + (ws[1..] + s);
      assert AllSpace(ws[1..]) by {
        assert forall i :: 0 <= i < |ws| - 1 ==> ws[1..][i] == ws[i + 1];
      }
      WordsSpaceCons(ws[0], ws[1..] + s);
      WordsSpacePrefix(ws[1..], s);
    } else {
      assert ws + s == s;
    }
  }

  lemma {:induction false} WordsSpaceSuffix(x: string, ws: string)
    requires AllSpace(ws)
    ensures Words(x + ws) == Words(x)
    decreases |x|
  {
    if x == [] {
      assert x + ws == ws;
      WordsOfSpaces(ws);
      WordsOfSpaces(x);
    } else {
      var y := x[1..];
      assert x == [x[0]] + y;
      assert x + ws == [x[0]] + (y + ws);
      WordsSpaceSuffix(y, ws);
      if IsSpace(x[0]) {
        WordsSpaceCons(x[0], y + ws);
        WordsSpaceCons(x[0], y);
      } else {
        if y == [] {
          assert y + ws == ws;
        } else {
          assert (y + ws)[0] == y[0];
        }
        WordsCons(x[0], y + ws);
        WordsCons(x[0], y);
      }
    }
  }

  /** Trimming keeps the words. */
  lemma WordsTrim(s: string)
    ensures Words(Trim(s)) == Words(s)
  {
    var t := TrimStart(s);
    var r := TrimEnd(t);
    var k := |s| - |t|;
    TrimStartIsSuffix(s);
    TrimEndIsPrefix(t);
    assert s == s[..k] + t;
    assert t == r + t[|r|..];
    WordsSpacePrefix(s[..k], t);
    WordsSpaceSuffix(r, t[|r|..]);
  }

  /** `s.replace(/\s+/g, " ")`: every maximal whitespace run becomes one space. */
  function CollapseWhitespace(s: string): (r: string)
    ensures s == [] <==> r == []
    ensures r != [] ==> (IsSpace(r[0]) <==> IsSpace(s[0]))
    ensures NoDoubleSpace(r) && OnlyPlainSpaces(r)
    ensures Words(r) == Words(s)
    decreases |s|
  {
    if s == [] then []
    else if IsSpace(s[0]) then
      var t := TrimStart(s);
      var rest := CollapseWhitespace(t);
      WordsSpaceCons(' ', rest);
      TrimStartIsSuffix(s);
      assert s == s[..|s| - |t|] + t;
      WordsSpacePrefix(s[..|s| - |t|], t);
      [' '] + rest
    else
      var rest := CollapseWhitespace(s[1..]);
      WordsCons(s[0], rest);
      WordsCons(s[0], s[1..]);
      assert s == [s[0]] + s[1..];
      [s[0]] + rest
  }

  /** `s.replace(/\s\s+/g, " ")`: runs of two or more become one space; a lone one stays. */
  function CollapseLongRuns(s: string): (r: string)
    ensures s == [] <==> r == []
    ensures r != [] ==> (IsSpace(r[0]) <==> IsSpace(s[0]))
    ensures NoDoubleSpace(r)
    ensures Words(r) == Words(s)
    decreases |s|
  {
    if s == [] then []
    else if |s| >= 2 && IsSpace(s[0]) && IsSpace(s[1]) then
      var t := TrimStart(s);
      var rest := CollapseLongRuns(t);
      WordsSpaceCons(' ', rest);
      TrimStartIsSuffix(s);
      assert s == s[..|s| - |t|] + t;
      WordsSpacePrefix(s[..|s| - |t|], t);
      [' '] + rest
    else
      var rest := CollapseLongRuns(s[1..]);
      assert s == [s[0]] + s[1..];
      if IsSpace(s[0]) then
        WordsSpaceCons(s[0], rest);
        WordsSpaceCons(s[0], s[1..]);
        [s[0]] + rest
      else
        WordsCons(s[0], rest);
        WordsCons(s[0], s[1..]);
        [s[0]] + rest
  }

  lemma {:induction false} VisibleCollapseWhitespace(s: string)
    ensures Visible(CollapseWhitespace(s)) == Visible(s)
    decreases |s|
  {
    if s != [] {
      if IsSpace(s[0]) {
        var t := TrimStart(s);
        VisibleCollapseWhitespace(t);
        VisibleTrimStart(s);
      } else {
        VisibleCollapseWhitespace(s[1..]);
      }
    }
  }

  lemma {:induction false} VisibleCollapseLongRuns(s: string)
    ensures Visible(CollapseLongRuns(s)) == Visible(s)
    decreases |s|
  {
    if s != [] {
      if |s| >= 2 && IsSpace(s[0]) && IsSpace(s[1]) {
        var t := TrimStart(s);
        VisibleCollapseLongRuns(t);
        VisibleTrimStart(s);
      } else {
        VisibleCollapseLongRuns(s[1..]);
      }
    }
  }

  /** A slice keeps the no-double-space and plain-space properties. */
  lemma SliceKeepsSpacing(s: string, lo: int, hi: int)
    requires 0 <= lo <= hi <= |s|
    ensures NoDoubleSpace(s) ==> NoDoubleSpace(s[lo..hi])
    ensures OnlyPlainSpaces(s) ==> OnlyPlainSpaces(s[lo..hi])
  {
    var r := s[lo..hi];
    if NoDoubleSpace(s) {
      forall i | 0 <= i < |r| - 1 ensures !(IsSpace(r[i]) && IsSpace(r[i + 1])) {
        assert r[i] == s[lo + i] && r[i + 1] == s[lo + i + 1];
      }
    }
    if OnlyPlainSpaces(s) {
      forall i | 0 <= i < |r| && IsSpace(r[i]) ensures r[i] == ' ' {
        assert r[i] == s[lo + i];
      }
    }
  }

  /** A trimmed string keeps the no-double-space and plain-space properties. */
  lemma TrimKeepsSpacing(s: string)
    ensures NoDoubleSpace(s) ==> NoDoubleSpace(Trim(s))
    ensures OnlyPlainSpaces(s) ==> OnlyPlainSpaces(Trim(s))
  {
    var t := TrimStart(s);
    TrimStartIsSuffix(s);
    TrimEndIsPrefix(t);
    SliceKeepsSpacing(s, |s| - |t|, |s|);
    SliceKeepsSpacing(t, 0, |TrimEnd(t)|);
  }

  /** A text with single plain spaces between its words and none at its edges is its words joined by spaces. */
  lemma {:induction false} JoinWordsOfNormal(r: string)
    requires NoEdgeSpace(r) && NoDoubleSpace(r) && OnlyPlainSpaces(r)
    ensures r == Join(Words(r), " ")
    decreases |r|
  {
    if r != [] {
      assert TrimStart(r) == r;
      var w := FirstWord(r);
      var rest := r[|w|..];
      assert Words(r) == [w] + Words(rest);
      if |w| < |r| {
        assert IsSpace(r[|w|]) && r[|w|] == ' ';
        assert |w| + 1 < |r|;
        var tail := r[|w| + 1..];
        assert !IsSpace(tail[0]);
        SliceKeepsSpacing(r, |w| + 1, |r|);
        assert tail == r[|w| + 1..|r|];
        assert rest == [' '] + tail;
        WordsSpaceCons(' ', tail);
        JoinWordsOfNormal(tail);
        assert TrimStart(tail) == tail;
        var ws := Words(tail);
        assert ws != [];
        assert ([w] + ws)[1..] == ws;
        assert Join([w] + ws, " ") == w + " " + Join(ws, " ");
        assert r == w + " " + tail;
      } else {
        assert rest == [];
        assert Words(rest) == [];
      }
    }
  }

  /**
   * The body-text path: `text.replace(/\s+/g, " ").trim()`. Its words are
   * those of the text, joined by single plain spaces.
   */
  function NormalizeFallback(s: string): (r: string)
    ensures NoEdgeSpace(r) && NoDoubleSpace(r) && OnlyPlainSpaces(r)
    ensures Visible(r) == Visible(s)
    ensures Words(r) == Words(s)
    ensures r == Join(Words(s), " ")
  {
    var c := CollapseWhitespace(s);
    TrimKeepsSpacing(c);
    VisibleTrim(c);
    VisibleCollapseWhitespace(s);
    WordsTrim(c);
    JoinWordsOfNormal(Trim(c));
    Trim(c)
  }

  /**
   * The article path: `text.replace(/\s\s+/g, " ").trim()`. Its words are
   * those of the text, each two of them separated by exactly one whitespace
   * character.
   */
  function NormalizeArticle(s: string): (r: string)
    ensures NoEdgeSpace(r) && NoDoubleSpace(r)
    ensures Visible(r) == Visible(s)
    ensures Words(r) == Words(s)
  {
    var c := CollapseLongRuns(s);
    TrimKeepsSpacing(c);
    VisibleTrim(c);
    VisibleCollapseLongRuns(s);
    WordsTrim(c);
    Trim(c)
  }

  /** Reflowing the whitespace of a page does not change its body-text normalisation: only the words count. */
  lemma FallbackReflowInvariant(a: string, b: string)
    requires Words(a) == Words(b)
    ensures NormalizeFallback(a) == NormalizeFallback(b)
  {
  }

  lemma {:induction false} TrimOfTrimmed(s: string)
    requires NoEdgeSpace(s)
    ensures Trim(s) == s
  {
  }

  lemma {:induction false} CollapseWhitespaceFixpoint(s: string)
    requires NoDoubleSpace(s) && OnlyPlainSpaces(s)
    ensures CollapseWhitespace(s) == s
    decreases |s|
  {
    if s != [] {
      var tail := s[1..];
      assert NoDoubleSpace(tail) && OnlyPlainSpaces(tail) by {
        assert forall i :: 0 <= i < |tail| ==> tail[i] == s[i + 1];
      }
      CollapseWhitespaceFixpoint(tail);
      if IsSpace(s[0]) {
        assert tail == [] || !IsSpace(tail[0]);
        assert TrimStart(s) == tail;
        assert s == " " + tail;
      } else {
        assert s == [s[0]] + tail;
      }
    }
  }

  lemma {:induction false} CollapseLongRunsFixpoint(s: string)
    requires NoDoubleSpace(s)
    ensures CollapseLongRuns(s) == s
    decreases |s|
  {
    if s != [] {
      var tail := s[1..];
      assert NoDoubleSpace(tail) by {
        assert forall i :: 0 <= i < |tail| ==> tail[i] == s[i + 1];
      }
      CollapseLongRunsFixpoint(tail);
      assert s == [s[0]] + tail;
    }
  }

  /** Normalising the body text twice is normalising it once. */
  lemma NormalizeFallbackIdempotent(s: string)
    ensures NormalizeFallback(NormalizeFallback(s)) == NormalizeFallback(s)
  {
    var n := NormalizeFallback(s);
    CollapseWhitespaceFixpoint(n);
    TrimOfTrimmed(n);
  }

  /** Text with no runs and no edge whitespace is left as it is, whatever its whitespace characters. */
  lemma NormalizeArticleKeepsLoneWhitespace(s: string)
    requires NoEdgeSpace(s) && NoDoubleSpace(s)
    ensures NormalizeArticle(s) == s
  {
    CollapseLongRunsFixpoint(s);
    TrimOfTrimmed(s);
  }

  /** Leading whitespace in front of a visible character is exactly what `TrimStart` removes. */
  lemma {:induction false} TrimStartSpacePrefix(ws: string, b: string)
    requires AllSpace(ws) && (b == [] || !IsSpace(b[0]))
    ensures TrimStart(ws + b) == b
    decreases |ws|
  {
    if ws != [] {
      assert (ws + b)[1..] == ws[1..] + b;
      assert AllSpace(ws[1..]) by {
        assert forall i :: 0 <= i < |ws| - 1 ==> ws[1..][i] == ws[i + 1];
      }
      TrimStartSpacePrefix(ws[1..], b);
    } else {
      assert ws + b == b;
    }
  }

  /** Whatever follows a text ending in a visible character is not part of its leading whitespace. */
  lemma {:induction false} TrimStartAppend(a: string, b: string)
    requires a != [] && !IsSpace(a[|a| - 1])
    ensures TrimStart(a + b) == TrimStart(a) + b
    decreases |a|
  {
    if IsSpace(a[0]) {
      assert (a + b)[1..] == a[1..] + b;
      TrimStartAppend(a[1..], b);
    }
  }

  /** The long-run collapse of a text ending in a visible character ends in that character. */
  lemma {:induction false} LongRunsLast(s: string)
    requires s != [] && !IsSpace(s[|s| - 1])
    ensures CollapseLongRuns(s) != [] && CollapseLongRuns(s)[|CollapseLongRuns(s)| - 1] == s[|s| - 1]
    decreases |s|
  {
    if |s| >= 2 && IsSpace(s[0]) && IsSpace(s[1]) {
      var t := TrimStart(s);
      TrimStartIsSuffix(s);
      assert t != [] && t[|t| - 1] == s[|s| - 1];
      LongRunsLast(t);
    } else if |s| >= 2 {
      assert s[1..][|s| - 2] == s[|s| - 1];
      LongRunsLast(s[1..]);
    }
  }

  lemma ConcatAssoc(a: string, b: string, c: string)
    ensures a + b + c == a + (b + c)
  {
  }

  /** One step of the long-run collapse at a run of two or more. */
  lemma LongRunsUnfoldRun(s: string)
    requires |s| >= 2 && IsSpace(s[0]) && IsSpace(s[1])
    ensures CollapseLongRuns(s) == [' '] + CollapseLongRuns(TrimStart(s))
  {
  }

  /** One step of the long-run collapse at any other character. */
  lemma LongRunsUnfoldOne(s: string)
    requires s != [] && !(|s| >= 2 && IsSpace(s[0]) && IsSpace(s[1]))
    ensures CollapseLongRuns(s) == [s[0]] + CollapseLongRuns(s[1..])
  {
  }

  /** No run crosses a visible character, so the collapse works on each side of one separately. */
  lemma {:induction false} LongRunsAppend(a: string, b: string)
    requires a == [] || !IsSpace(a[|a| - 1])
    ensures CollapseLongRuns(a + b) == CollapseLongRuns(a) + CollapseLongRuns(b)
    decreases |a|
  {
    var s := a + b;
    if a == [] {
      assert s == b;
    } else if |a| >= 2 && IsSpace(a[0]) && IsSpace(a[1]) {
      var t := TrimStart(a);
      TrimStartIsSuffix(a);
      assert t != [] && t[|t| - 1] == a[|a| - 1];
      TrimStartAppend(a, b);
      LongRunsAppend(t, b);
      assert s[0] == a[0] && s[1] == a[1];
      LongRunsUnfoldRun(a);
      LongRunsUnfoldRun(s);
      ConcatAssoc([' '], CollapseLongRuns(t), CollapseLongRuns(b));
    } else {
      var a' := a[1..];
      assert s[1..] == a' + b;
      assert s[0] == a[0];
      if |a| >= 2 {
        assert a'[|a'| - 1] == a[|a| - 1];
        assert s[1] == a[1];
      }
      LongRunsAppend(a', b);
      LongRunsUnfoldOne(a);
      LongRunsUnfoldOne(s);
      ConcatAssoc([a[0]], CollapseLongRuns(a'), CollapseLongRuns(b));
    }
  }

  /** A lone whitespace character before a visible one (or the end) is kept as it is. */
  lemma LongRunsKeepLone(a: string, c: char, b: string)
    requires a == [] || !IsSpace(a[|a| - 1])
    requires IsSpace(c) && (b == [] || !IsSpace(b[0]))
    ensures CollapseLongRuns(a + [c] + b) == CollapseLongRuns(a) + [c] + CollapseLongRuns(b)
  {
    var t := [c] + b;
    ConcatAssoc(a, [c], b);
    LongRunsAppend(a, t);
    assert t[1..] == b;
    LongRunsUnfoldOne(t);
    ConcatAssoc(CollapseLongRuns(a), [c], CollapseLongRuns(b));
  }

  /** A run of two or more whitespace characters before a visible one (or the end) becomes one plain space. */
  lemma LongRunsCollapseRun(a: string, ws: string, b: string)
    requires a == [] || !IsSpace(a[|a| - 1])
    requires |ws| >= 2 && AllSpace(ws) && (b == [] || !IsSpace(b[0]))
    ensures CollapseLongRuns(a + ws + b) == CollapseLongRuns(a) + " " + CollapseLongRuns(b)
  {
    var t := ws + b;
    ConcatAssoc(a, ws, b);
    LongRunsAppend(a, t);
    assert t[0] == ws[0] && t[1] == ws[1];
    TrimStartSpacePrefix(ws, b);
    LongRunsUnfoldRun(t);
    ConcatAssoc(CollapseLongRuns(a), " ", CollapseLongRuns(b));
  }

  /** On the article path, text with visible edges is normalised by the collapse alone. */
  lemma ArticleOfVisibleEdges(s: string)
    requires s != [] && NoEdgeSpace(s)
    ensures NormalizeArticle(s) == CollapseLongRuns(s) && NoEdgeSpace(CollapseLongRuns(s))
  {
    LongRunsLast(s);
    TrimOfTrimmed(CollapseLongRuns(s));
  }

  /** The article path keeps a lone whitespace character between two visible ones, whatever the text around it. */
  lemma ArticleKeepsLone(a: string, c: char, b: string)
    requires a != [] && NoEdgeSpace(a) && b != [] && NoEdgeSpace(b) && IsSpace(c)
    ensures NormalizeArticle(a + [c] + b) == NormalizeArticle(a) + [c] + NormalizeArticle(b)
  {
    var s := a + [c] + b;
    LongRunsKeepLone(a, c, b);
    ArticleOfVisibleEdges(a);
    ArticleOfVisibleEdges(b);
    assert s[0] == a[0] && s[|s| - 1] == b[|b| - 1];
    ArticleOfVisibleEdges(s);
  }

  /** The article path turns a run of two or more whitespace characters between two visible ones into one plain space. */
  lemma ArticleCollapsesRun(a: string, ws: string, b: string)
    requires a != [] && NoEdgeSpace(a) && b != [] && NoEdgeSpace(b)
    requires |ws| >= 2 && AllSpace(ws)
    ensures NormalizeArticle(a + ws + b) == NormalizeArticle(a) + " " + NormalizeArticle(b)
  {
    var s := a + ws + b;
    LongRunsCollapseRun(a, ws, b);
    ArticleOfVisibleEdges(a);
    ArticleOfVisibleEdges(b);
    assert s[0] == a[0] && s[|s| - 1] == b[|b| - 1];
    ArticleOfVisibleEdges(s);
  }

  /** A single visible character is its own article normalisation. */
  lemma ArticleOfVisibleChar(x: char)
    requires !IsSpace(x)
    ensures NormalizeArticle([x]) == [x]
  {
    NormalizeArticleKeepsLoneWhitespace([x]);
  }

  /** A double space between two visible characters shrinks to one. */
  lemma ArticleDoubleSpace(y: char, z: char)
    requires !IsSpace(y) && !IsSpace(z)
    ensures NormalizeArticle([y, ' ', ' ', z]) == [y, ' ', z]
  {
    assert [y, ' ', ' ', z] == [y] + "  " + [z];
    ArticleCollapsesRun([y], "  ", [z]);
    ArticleOfVisibleChar(y);
    ArticleOfVisibleChar(z);
  }

  /** In mixed text such as "a\nb  c" the lone newline stays and the double space shrinks. */
  lemma ArticleMixedText(x: char, y: char, z: char)
    requires !IsSpace(x) && !IsSpace(y) && !IsSpace(z)
    ensures NormalizeArticle([x, '\n', y, ' ', ' ', z]) == [x, '\n', y, ' ', z]
  {
    var tail := [y, ' ', ' ', z];
    ArticleDoubleSpace(y, z);
    assert IsSpace('\n') && NoEdgeSpace(tail);
    ArticleKeepsLone([x], '\n', tail);
    ArticleOfVisibleChar(x);
    assert [x] + ['\n'] + tail == [x, '\n', y, ' ', ' ', z];
  }

  /** The two paths differ on a lone newline between two visible characters: the article path keeps it... */
  lemma ArticleKeepsLoneNewline(x: char, y: char)
    requires !IsSpace(x) && !IsSpace(y)
    ensures NormalizeArticle([x, '\n', y]) == [x, '\n', y]
  {
    var s := [x, '\n', y];
    assert IsSpace(s[1]) && !IsSpace(s[0]) && !IsSpace(s[2]);
    NormalizeArticleKeepsLoneWhitespace(s);
  }

  /** ...and the body path turns it into a plain space. */
  lemma FallbackReplacesLoneNewline(x: char, y: char)
    requires !IsSpace(x) && !IsSpace(y)
    ensures NormalizeFallback([x, '\n', y]) == [x, ' ', y]
  {
    var s := [x, '\n', y];
    var tail := [y];
    assert IsSpace('\n');
    assert s[1..][1..] == tail;
    assert TrimStart(s[1..]) == tail;
    CollapseWhitespaceFixpoint(tail);
    assert CollapseWhitespace(s[1..]) == [' ', y];
    assert CollapseWhitespace(s) == [x, ' ', y];
    TrimOfTrimmed([x, ' ', y]);
  }

  /** What Readability made of the page: its title and text, each possibly missing. */
  datatype Article = Article(title: Option<string>, textContent: Option<string>)

  /** The network answer; `Page` carries the header and what JSDOM and Readability made of the body. */
  datatype Response =
    | NetworkError(message: string)
    | Page(contentType: Option<string>, article: Option<Article>, documentTitle: string,
           bodyText: Option<string>)

  datatype FetchResult = FetchResult(text: string, title: string)

  /** Readability produced an article with non-blank text. */
  predicate HasArticleText(article: Option<Article>) {
    article.Some? && Trim(article.value.textContent.GetOr("")) != ""
  }

  /** What `fetchPageText` does with a page once it has arrived. */
  function ExtractPage(url: ParsedUrl, response: Response): (r: Result<FetchResult>)
    requires response.Page?
    ensures !IsHtmlContentType(response.contentType) ==> r == Err(UnsupportedTypeMessage)
    ensures (IsHtmlContentType(response.contentType) && !HasArticleText(response.article)
             && Trim(response.bodyText.GetOr("")) == "") ==> r == Err(NoReadableTextMessage)
    ensures r.Ok? ==> r.value.text != "" && NoEdgeSpace(r.value.text) && NoDoubleSpace(r.value.text)
    ensures r.Ok? && HasArticleText(response.article) ==>
      Visible(r.value.text) == Visible(response.article.value.textContent.value)
    ensures r.Ok? && !HasArticleText(response.article) ==>
      Visible(r.value.text) == Visible(response.bodyText.value) && OnlyPlainSpaces(r.value.text)
    ensures r.Ok? <==> IsHtmlContentType(response.contentType)
                       && (HasArticleText(response.article) || Trim(response.bodyText.GetOr("")) != "")
    ensures r.Ok? && HasArticleText(response.article) ==>
      && r.value.text == NormalizeArticle(response.article.value.textContent.value)
      && r.value.title == OrElse(response.article.value.title, OrElse(Some(response.documentTitle), url.hostname))
    ensures r.Ok? && !HasArticleText(response.article) ==>
      && r.value.text == NormalizeFallback(Trim(response.bodyText.value))
      && r.value.title == OrElse(Some(response.documentTitle), url.hostname)
  {
    if !IsHtmlContentType(response.contentType) then Err(UnsupportedTypeMessage)
    else if !HasArticleText(response.article) then
      var fallbackText := Trim(response.bodyText.GetOr(""));
      if fallbackText == "" then Err(NoReadableTextMessage)
      else
        VisibleTrim(response.bodyText.GetOr(""));
        assert Visible(fallbackText) != [] by {
          assert !IsSpace(fallbackText[0]);
        }
        Ok(FetchResult(NormalizeFallback(fallbackText), OrElse(Some(response.documentTitle), url.hostname)))
    else
      var text := response.article.value.textContent.value;
      VisibleTrim(text);
      assert Visible(text) != [] by {
        assert !IsSpace(Trim(text)[0]);
      }
      Ok(FetchResult(NormalizeArticle(text),
                     OrElse(response.article.value.title,
                            OrElse(Some(response.documentTitle), url.hostname))))
  }

  /** The title falls back from the article title to the document title to the hostname. */
  lemma TitleFallback(url: ParsedUrl, response: Response)
    requires response.Page? && ExtractPage(url, response).Ok?
    ensures var title := ExtractPage(url, response).value.title;
      var fromArticle := HasArticleText(response.article) && Truthy(response.article.value.title);
      && (fromArticle ==> title == response.article.value.title.value)
      && (!fromArticle && response.documentTitle != "" ==> title == response.documentTitle)
      && (!fromArticle && response.documentTitle == "" ==> title == url.hostname)
  {
  }

  /** `fetchPageText`: validate, fetch, then extract. */
  function FetchPageText(parsed: Option<ParsedUrl>, fetch: ParsedUrl -> Response): (r: Result<FetchResult>)
    ensures ValidateUrl(parsed).Err? ==> r == Err(ValidateUrl(parsed).message)
    ensures r.Ok? ==> (ValidateUrl(parsed).Ok? && fetch(parsed.value).Page?
                       && r == ExtractPage(parsed.value, fetch(parsed.value)))
    ensures ValidateUrl(parsed).Ok? && fetch(parsed.value).NetworkError? ==>
      r == Err(fetch(parsed.value).message)
    ensures ValidateUrl(parsed).Ok? && fetch(parsed.value).Page? ==>
      r == ExtractPage(parsed.value, fetch(parsed.value))
  {
    match ValidateUrl(parsed)
    case Err(m) => Err(m)
    case Ok(url) =>
      match fetch(url)
      case NetworkError(m) => Err(m)
      case Page(_, _, _, _) => ExtractPage(url, fetch(url))
  }
}
