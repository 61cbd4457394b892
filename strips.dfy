/** A strip: its configuration (name, pages, patterns, base URL), the checks
    and defaults applied when its stanza ends, the fetch of its search page
    (through an optional intermediate page) and the download of its images. */
module Strips {
  import opened Wrappers
  import opened Text
  import opened Calendar
  import opened Files
  import opened Images
  import opened Patterns

  /** The `baseurl` value that stands for the strip's homepage. */
  const HomepageSentinel := "$homepage"

  /** Everything a strip holds, as one value. */
  datatype StripView = StripView(
    stripId: string,
    name: Option<string>,
    artist: Option<string>,
    homepage: Option<string>,
    searchpage: Option<string>,
    intermediatePattern: Option<string>,
    foundIntermediate: Option<string>,
    intermediateUrl: Option<string>,
    intermediateRelative: bool,
    intermediateNeedsHostname: bool,
    patterns: seq<PatternView>,
    baseurl: string,
    error: Option<string>,
    fetchAttempted: bool,
    onhold: bool,
    unchangedSince: Option<Since>)

  /** A fresh pattern as `Pattern(title, pattern, mode)` builds it. */
  function NewPattern(title: string, pattern: Option<string>, mode: Mode): PatternView {
    PatternView(title, pattern, mode, "", None, None, None, None)
  }

  /** The first pattern is the image-mode "Main Strip" pattern. */
  predicate MainPatternFirst(s: StripView) {
    |s.patterns| >= 1 && s.patterns[0].title == MainStripTitle && s.patterns[0].mode == ImageMode
  }

  /** `Strip.__init__`: the search page defaults to the homepage when it is not
      given (or empty), and the strip starts with the main pattern only. */
  function NewStrip(stripId: string, name: Option<string>, artist: Option<string>, homepage: Option<string>,
                    searchpage: Option<string>, searchpattern: Option<string>, baseurl: string, onhold: bool): (s: StripView)
    ensures MainPatternFirst(s) && |s.patterns| == 1 && s.patterns[0].pattern == searchpattern
    ensures s.searchpage == if Truthy(searchpage) then searchpage else homepage
    ensures s.error.None? && !s.fetchAttempted && s.unchangedSince.None? && s.intermediatePattern.None?
  {
    StripView(stripId, name, artist, homepage, if Truthy(searchpage) then searchpage else homepage,
      None, None, None, false, false, [NewPattern(MainStripTitle, searchpattern, ImageMode)], baseurl,
      None, false, onhold, None)
  }

  /** `set_homepage`: the search page follows the homepage only while it is unset. */
  function WithHomepage(s: StripView, homepage: string): (t: StripView)
    ensures t.homepage == Some(homepage)
    ensures s.searchpage.None? ==> t.searchpage == Some(homepage)
    ensures s.searchpage.Some? ==> t.searchpage == s.searchpage
    ensures t.(homepage := s.homepage, searchpage := s.searchpage) == s
  {
    s.(homepage := Some(homepage), searchpage := if s.searchpage.None? then Some(homepage) else s.searchpage)
  }

  /** `set_searchpattern`: the main pattern's expression, and nothing else. */
  function WithSearchPattern(s: StripView, pattern: string): (t: StripView)
    requires |s.patterns| >= 1
    ensures |t.patterns| == |s.patterns| && t.patterns[0] == s.patterns[0].(pattern := Some(pattern))
    ensures t.patterns[1..] == s.patterns[1..]
    ensures t.(patterns := s.patterns) == s
    ensures MainPatternFirst(s) ==> MainPatternFirst(t)
  {
    s.(patterns := [s.patterns[0].(pattern := Some(pattern))] + s.patterns[1..])
  }

  /** `add_extra`: a new pattern after all the existing ones. */
  function WithExtra(s: StripView, title: string, pattern: string, mode: Mode): (t: StripView)
    ensures t.patterns == s.patterns + [NewPattern(title, Some(pattern), mode)]
    ensures t.(patterns := s.patterns) == s
    ensures MainPatternFirst(s) ==> MainPatternFirst(t)
  {
    s.(patterns := s.patterns + [NewPattern(title, Some(pattern), mode)])
  }

  /** `valid()`: a name, a homepage and a main search pattern are all set. */
  predicate IsValid(s: StripView)
    requires |s.patterns| >= 1
  {
    s.name.Some? && s.homepage.Some? && s.patterns[0].pattern.Some?
  }

  /** `invalid_reason()`: empty for a valid strip, otherwise the first missing
      field in the order name, homepage, search pattern. */
  function Reason(s: StripView): (r: string)
    requires |s.patterns| >= 1
    ensures r == "" <==> IsValid(s)
    ensures s.name.None? ==> r == "No name defined"
    ensures s.name.Some? && s.homepage.None? ==> r == "No homepage defined"
    ensures s.name.Some? && s.homepage.Some? && s.patterns[0].pattern.None? ==> r == "No searchpattern defined"
    ensures r != "Unknown error"
  {
    if IsValid(s) then ""
    else if s.name.None? then "No name defined"
    else if s.homepage.None? then "No homepage defined"
    else if s.patterns[0].pattern.None? then "No searchpattern defined"
    else "Unknown error"
  }

  /** The base URL `finish` settles on. */
  function FinalBaseurl(s: StripView): string
    requires s.baseurl == HomepageSentinel ==> s.homepage.Some?
  {
    if s.baseurl == HomepageSentinel then s.homepage.value else s.baseurl
  }

  /** `finish`: resolves the `$homepage` sentinel and gives every pattern the
      strip's base URL. */
  function Finished(s: StripView): (t: StripView)
    requires s.baseurl == HomepageSentinel ==> s.homepage.Some?
    ensures s.baseurl == HomepageSentinel ==> t.baseurl == s.homepage.value
    ensures s.baseurl != HomepageSentinel ==> t.baseurl == s.baseurl
    ensures |t.patterns| == |s.patterns|
    ensures forall i :: 0 <= i < |t.patterns| ==> t.patterns[i] == s.patterns[i].(baseurl := t.baseurl)
    ensures t.(baseurl := s.baseurl, patterns := s.patterns) == s
    ensures MainPatternFirst(s) ==> MainPatternFirst(t)
  {
    var b := FinalBaseurl(s);
    s.(baseurl := b, patterns := WithBaseurl(s.patterns, b))
  }

  /** Every pattern of a list with the given base URL. */
  function WithBaseurl(ps: seq<PatternView>, b: string): (qs: seq<PatternView>)
    ensures |qs| == |ps| && forall i :: 0 <= i < |ps| ==> qs[i] == ps[i].(baseurl := b)
  {
    seq(|ps|, i requires 0 <= i < |ps| => ps[i].(baseurl := b))
  }

  /** Finishing twice is finishing once. */
  lemma FinishedIdempotent(s: StripView)
    requires s.baseurl == HomepageSentinel ==> s.homepage.Some?
    ensures Finished(Finished(s)) == Finished(s)
  {
    var t := Finished(s);
    assert FinalBaseurl(t) == t.baseurl;
    assert Finished(t).patterns == t.patterns;
  }

  predicate IsAsciiLetter(c: char) {
    'a' <= c <= 'z' || 'A' <= c <= 'Z'
  }

  /** The characters `urllib.parse` allows in a scheme. */
  predicate IsSchemeChar(c: char) {
    IsAsciiLetter(c) || '0' <= c <= '9' || c == '+' || c == '-' || c == '.'
  }

  /** The end of the network location: the first `/`, `?` or `#`, or the end. */
  function NetlocEnd(s: string): (n: nat)
    ensures n <= |s|
    ensures forall k :: 0 <= k < n ==> s[k] != '/' && s[k] != '?' && s[k] != '#'
    ensures n < |s| ==> s[n] == '/' || s[n] == '?' || s[n] == '#'
  {
    if s == [] || s[0] == '/' || s[0] == '?' || s[0] == '#' then 0 else 1 + NetlocEnd(s[1..])
  }

  /** The scheme and network location `urllib.parse.urlparse` reports. */
  datatype UrlParts = UrlParts(scheme: string, netloc: string)

  predicate HasScheme(url: string, i: nat)
    requires i <= |url|
  {
    i > 0 && IsAsciiLetter(url[0]) && forall k :: 0 <= k < i ==> IsSchemeChar(url[k])
  }

  /** `urlparse(url).scheme` and `.netloc`. */
  function ParseUrl(url: string): UrlParts {
    var colon := IndexOf(url, ':');
    var scheme := if colon.Some? && HasScheme(url, colon.value) then Lower(url[..colon.value]) else "";
    var rest := if colon.Some? && HasScheme(url, colon.value) then url[colon.value + 1..] else url;
    var netloc := if |rest| >= 2 && rest[..2] == "//" then rest[2..][..NetlocEnd(rest[2..])] else "";
    UrlParts(scheme, netloc)
  }

  /** A scheme, when found, is the lower-cased text before the URL's first
      `:`; the network location never holds `/`, `?` or `#`. */
  lemma ParseUrlParts(url: string)
    ensures var u := ParseUrl(url);
      && (u.scheme != [] ==> |u.scheme| < |url| && url[|u.scheme|] == ':' && u.scheme == Lower(url[..|u.scheme|]))
      && (':' !in url ==> u.scheme == [])
      && (forall k :: 0 <= k < |u.netloc| ==> u.netloc[k] != '/' && u.netloc[k] != '?' && u.netloc[k] != '#')
  {
  }

  /** The intermediate URL: the relative flag wins, then the hostname flag, and
      without either the found link is used as it is. */
  function IntermediateUrl(searchpage: string, found: string, relative: bool, needsHostname: bool): (u: string)
    ensures relative ==> u == searchpage + found
    ensures !relative && needsHostname ==> u == ParseUrl(searchpage).scheme + "://" + ParseUrl(searchpage).netloc + found
    ensures !relative && !needsHostname ==> u == found
  {
    if relative then searchpage + found
    else if needsHostname then ParseUrl(searchpage).scheme + "://" + ParseUrl(searchpage).netloc + found
    else found
  }

  /** `urlparse` of `scheme://host/path` reports the lower-cased scheme and
      the host. */
  lemma ParseUrlOf(scheme: string, host: string, path: string)
    requires scheme != [] && IsAsciiLetter(scheme[0]) && forall k :: 0 <= k < |scheme| ==> IsSchemeChar(scheme[k])
    requires forall k :: 0 <= k < |host| ==> host[k] != '/' && host[k] != '?' && host[k] != '#'
    requires path == [] || path[0] == '/' || path[0] == '?' || path[0] == '#'
    ensures ParseUrl(scheme + "://" + host + path) == UrlParts(Lower(scheme), host)
  {
    var url := scheme + "://" + host + path;
    var tail := host + path;
    var rest := "//" + tail;
    assert url == scheme + [':'] + rest by {
      SchemeSeparator(scheme, host, path);
    }
    assert IndexOf(url, ':') == Some(|scheme|) by {
      assert ':' !in scheme by {
        forall k | 0 <= k < |scheme| ensures scheme[k] != ':' {
          assert IsSchemeChar(scheme[k]);
        }
      }
      IndexOfFirst(scheme, ':', rest);
    }
    assert url[..|scheme|] == scheme;
    assert HasScheme(url, |scheme|) by {
      forall k | 0 <= k < |scheme| ensures IsSchemeChar(url[k]) {
        assert url[k] == scheme[k];
      }
    }
    assert url[|scheme| + 1..] == rest;
    ParseUrlWithScheme(url, |scheme|, rest);
    assert rest[2..] == tail && rest[..2] == "//";
    NetlocOf(host, path);
  }

  /** `urlparse` of a URL whose first `:` ends a scheme. */
  lemma ParseUrlWithScheme(url: string, i: nat, rest: string)
    requires IndexOf(url, ':') == Some(i) && HasScheme(url, i) && url[i + 1..] == rest
    ensures ParseUrl(url).scheme == Lower(url[..i])
    ensures |rest| >= 2 && rest[..2] == "//" ==> ParseUrl(url).netloc == rest[2..][..NetlocEnd(rest[2..])]
  {
  }

  /** For a search page `scheme://host/path`, the hostname flag puts the found
      link right after `scheme://host`. */
  lemma HostnameJoin(scheme: string, host: string, path: string, found: string)
    requires scheme != [] && IsAsciiLetter(scheme[0]) && forall k :: 0 <= k < |scheme| ==> IsSchemeChar(scheme[k])
    requires forall k :: 0 <= k < |host| ==> host[k] != '/' && host[k] != '?' && host[k] != '#'
    requires path == [] || path[0] == '/' || path[0] == '?' || path[0] == '#'
    ensures IntermediateUrl(scheme + "://" + host + path, found, false, true) == Lower(scheme) + "://" + host + found
  {
    ParseUrlOf(scheme, host, path);
  }

  lemma SchemeSeparator(scheme: string, host: string, path: string)
    ensures scheme + "://" + host + path == scheme + [':'] + ("//" + (host + path))
  {
    assert "://" == [':'] + "//";
  }

  lemma {:induction false} NetlocOf(host: string, path: string)
    requires forall k :: 0 <= k < |host| ==> host[k] != '/' && host[k] != '?' && host[k] != '#'
    requires path == [] || path[0] == '/' || path[0] == '?' || path[0] == '#'
    ensures NetlocEnd(host + path) == |host|
  {
    if host != [] {
      assert (host + path)[1..] == host[1..] + path;
      NetlocOf(host[1..], path);
    } else {
      assert host + path == path;
    }
  }

  /** `str()` of a value that may be `None`, as `%s` prints it. */
  function Show(o: Option<string>): string {
    if o.Some? then o.value else "None"
  }

  /** The request for a page: its URL and the optional User-Agent header. */
  datatype PageRequest = PageRequest(url: string, userAgent: Option<string>)

  /** `requests.get(url).text.splitlines()`, or the message of the exception
      raised. */
  type PageFetch = PageRequest -> Result<seq<string>, string>

  /** Every pattern after `search_page` ran on the page. */
  function SearchAll(engine: RegexEngine, ps: seq<PatternView>, lines: seq<string>): (qs: seq<PatternView>)
    ensures |qs| == |ps|
    ensures forall i :: 0 <= i < |ps| ==> qs[i] == AfterSearch(ps[i], Search(engine, ps[i].title, ps[i].pattern, lines))
  {
    seq(|ps|, i requires 0 <= i < |ps| => AfterSearch(ps[i], Search(engine, ps[i].title, ps[i].pattern, lines)))
  }

  /** What `fetch_html` does after the optional intermediate page: run every
      pattern on the lines. */
  function WithMatches(s: StripView, engine: RegexEngine, lines: seq<string>): (t: StripView)
    ensures t.(patterns := s.patterns) == s
    ensures |t.patterns| == |s.patterns|
    ensures forall i :: 0 <= i < |s.patterns| ==>
      t.patterns[i] == AfterSearch(s.patterns[i], Search(engine, s.patterns[i].title, s.patterns[i].pattern, lines))
  {
    s.(patterns := SearchAll(engine, s.patterns, lines))
  }

  /** `fetch_html`: fetch the search page; with an intermediate pattern, find
      the intermediate link on it and fetch that page instead; then run every
      pattern on the page's lines. Each failure records its error and stops
      before the patterns run. */
  function FetchOf(s: StripView, engine: RegexEngine, get: PageFetch, userAgent: Option<string>): (t: StripView)
    ensures t.fetchAttempted
    ensures t.error != s.error ==> t.patterns == s.patterns
    ensures t.patterns != s.patterns ==> t.error == s.error
    ensures !Truthy(s.intermediatePattern) ==> t.foundIntermediate == s.foundIntermediate && t.intermediateUrl == s.intermediateUrl
    ensures get(PageRequest(Show(s.searchpage), HeaderValue(userAgent))).Err? ==> t.error.Some? && t.patterns == s.patterns
    ensures get(PageRequest(Show(s.searchpage), HeaderValue(userAgent))).Ok? && !Truthy(s.intermediatePattern) ==>
      t == WithMatches(s.(fetchAttempted := true), engine, get(PageRequest(Show(s.searchpage), HeaderValue(userAgent))).value)
  {
    var s1 := s.(fetchAttempted := true);
    var page := Show(s.searchpage);
    var header := HeaderValue(userAgent);
    match get(PageRequest(page, header))
    case Err(e) =>
      s1.(error := Some("ERROR: Unable to retrieve HTML for " + Show(s.name) + " (" + s.stripId + ") - " + page + ": " + e))
    case Ok(lines) => OnSearchPage(s1, engine, get, page, header, lines)
  }

  lemma FetchFailed(s: StripView, engine: RegexEngine, get: PageFetch, userAgent: Option<string>)
    requires get(PageRequest(Show(s.searchpage), HeaderValue(userAgent))).Err?
    ensures FetchOf(s, engine, get, userAgent) ==
      s.(fetchAttempted := true).(error := Some("ERROR: Unable to retrieve HTML for " + Show(s.name) + " (" + s.stripId + ") - "
        + Show(s.searchpage) + ": " + get(PageRequest(Show(s.searchpage), HeaderValue(userAgent))).error))
  {
  }

  lemma FetchRead(s: StripView, engine: RegexEngine, get: PageFetch, userAgent: Option<string>)
    requires get(PageRequest(Show(s.searchpage), HeaderValue(userAgent))).Ok?
    ensures FetchOf(s, engine, get, userAgent) ==
      OnSearchPage(s.(fetchAttempted := true), engine, get, Show(s.searchpage), HeaderValue(userAgent),
                   get(PageRequest(Show(s.searchpage), HeaderValue(userAgent))).value)
  {
  }

  /** The rest of `fetch_html` once the search page's `lines` are in. */
  function OnSearchPage(s: StripView, engine: RegexEngine, get: PageFetch, page: string,
                        header: Option<string>, lines: seq<string>): (t: StripView)
    ensures t.fetchAttempted == s.fetchAttempted
    ensures t.error != s.error ==> t.patterns == s.patterns
    ensures t.patterns != s.patterns ==> t.error == s.error
    ensures !Truthy(s.intermediatePattern) ==> t == WithMatches(s, engine, lines)
  {
    if !Truthy(s.intermediatePattern) then WithMatches(s, engine, lines)
    else
      var ip := s.intermediatePattern.value;
      match engine.compileError(ip)
      case Some(e) => s.(error := Some("ERROR: Unable to compile intermedate regex: " + e))
      case None =>
        var found := match FirstMatch(engine, ip, lines)
          case None => s.foundIntermediate
          case Some(i) => engine.search(ip, lines[i]).group;
        OnIntermediate(s.(foundIntermediate := found), engine, get, page, header)
  }

  /** The rest of `fetch_html` once the intermediate link is searched for:
      without one it fails, with one it fetches that page and searches it. */
  function OnIntermediate(s: StripView, engine: RegexEngine, get: PageFetch, page: string,
                          header: Option<string>): (t: StripView)
    ensures t.fetchAttempted == s.fetchAttempted && t.foundIntermediate == s.foundIntermediate
    ensures t.error != s.error ==> t.patterns == s.patterns
    ensures t.patterns != s.patterns ==> t.error == s.error
    ensures !Truthy(s.foundIntermediate) ==> t.error.Some? && t.patterns == s.patterns && t.intermediateUrl == s.intermediateUrl
    ensures Truthy(s.foundIntermediate) ==>
      t.intermediateUrl == Some(IntermediateUrl(page, s.foundIntermediate.value, s.intermediateRelative, s.intermediateNeedsHostname))
  {
    if !Truthy(s.foundIntermediate) then
      s.(error := Some("ERROR: Unable to find intermediate URL for " + Show(s.name) + " (" + s.stripId + ")"))
    else
      var iu := IntermediateUrl(page, s.foundIntermediate.value, s.intermediateRelative, s.intermediateNeedsHostname);
      IntermediatePage(s.(intermediateUrl := Some(iu)), engine, get, iu, header)
  }

  /** The last step of `fetch_html` with an intermediate link: fetch the page
      at `iu` and search it. */
  function IntermediatePage(s: StripView, engine: RegexEngine, get: PageFetch, iu: string,
                            header: Option<string>): (t: StripView)
    ensures t.(error := s.error, patterns := s.patterns) == s
    ensures t.error != s.error ==> t.patterns == s.patterns
    ensures t.patterns != s.patterns ==> t.error == s.error
    ensures get(PageRequest(iu, header)).Ok? ==> t == WithMatches(s, engine, get(PageRequest(iu, header)).value)
    ensures get(PageRequest(iu, header)).Err? ==> t.error.Some? && t.patterns == s.patterns
  {
    match get(PageRequest(iu, header))
    case Err(e) =>
      s.(error := Some("ERROR: Unable to retrieve intermediate HTML for " + Show(s.name) + " (" + s.stripId + ") - " + iu + ": " + e))
    case Ok(lines) => WithMatches(s, engine, lines)
  }

  /** With an intermediate pattern, the intermediate link found comes from the
      first line of the search page the pattern matches. */
  lemma IntermediateFromFirstMatch(s: StripView, engine: RegexEngine, get: PageFetch, userAgent: Option<string>, lines: seq<string>, i: nat)
    requires get(PageRequest(Show(s.searchpage), HeaderValue(userAgent))) == Ok(lines)
    requires Truthy(s.intermediatePattern) && engine.compileError(s.intermediatePattern.value).None?
    requires i < |lines| && engine.search(s.intermediatePattern.value, lines[i]).Matched?
    requires forall j :: 0 <= j < i ==> engine.search(s.intermediatePattern.value, lines[j]).NoMatch?
    ensures FetchOf(s, engine, get, userAgent).foundIntermediate == engine.search(s.intermediatePattern.value, lines[i]).group
  {
    var r := FirstMatch(engine, s.intermediatePattern.value, lines);
    assert r == Some(i);
  }

  /** With an intermediate pattern whose first match on the search page yields
      the link `f`, the page fetched next is `IntermediateUrl` of `f`: when that
      fetch succeeds every pattern runs on its lines and no error is recorded,
      and when it fails the error is recorded and the patterns stay as they were. */
  lemma IntermediateFetched(s: StripView, engine: RegexEngine, get: PageFetch, userAgent: Option<string>, lines: seq<string>, i: nat)
    requires get(PageRequest(Show(s.searchpage), HeaderValue(userAgent))) == Ok(lines)
    requires Truthy(s.intermediatePattern) && engine.compileError(s.intermediatePattern.value).None?
    requires i < |lines| && engine.search(s.intermediatePattern.value, lines[i]).Matched?
    requires forall j :: 0 <= j < i ==> engine.search(s.intermediatePattern.value, lines[j]).NoMatch?
    requires Truthy(engine.search(s.intermediatePattern.value, lines[i]).group)
    ensures var f := engine.search(s.intermediatePattern.value, lines[i]).group.value;
            var iu := IntermediateUrl(Show(s.searchpage), f, s.intermediateRelative, s.intermediateNeedsHostname);
            var t := FetchOf(s, engine, get, userAgent);
            && t.foundIntermediate == Some(f)
            && t.intermediateUrl == Some(iu)
            && (get(PageRequest(iu, HeaderValue(userAgent))).Ok? ==>
                  t.error == s.error && t.patterns == SearchAll(engine, s.patterns, get(PageRequest(iu, HeaderValue(userAgent))).value))
            && (get(PageRequest(iu, HeaderValue(userAgent))).Err? ==> t.error.Some? && t.patterns == s.patterns)
  {
    var r := FirstMatch(engine, s.intermediatePattern.value, lines);
    assert r == Some(i);
  }

  /** The first `unchanged_since` that is set, in list order. */
  function FirstSince(ss: seq<Option<Since>>): (r: Option<Since>)
    ensures r.None? <==> forall i :: 0 <= i < |ss| ==> ss[i].None?
    ensures r.Some? ==> exists i :: (0 <= i < |ss| && ss[i] == r && forall j :: 0 <= j < i ==> ss[j].None?)
  {
    if ss == [] then None
    else match FirstSince(ss[..|ss| - 1])
      case Some(d) => Some(d)
      case None => ss[|ss| - 1]
  }

  lemma FirstSinceSnoc(ss: seq<Option<Since>>, s: Option<Since>)
    ensures FirstSince(ss + [s]) == if FirstSince(ss).Some? then FirstSince(ss) else s
  {
    assert (ss + [s])[..|ss|] == ss;
  }

  /** The `unchanged_since` of every pattern of a list. */
  function SincesOf(ps: seq<Pattern>): (ss: seq<Option<Since>>)
    reads ps
    ensures |ss| == |ps| && forall i :: 0 <= i < |ps| ==> ss[i] == ps[i].unchangedSince
  {
    seq(|ps|, i reads ps requires 0 <= i < |ps| => ps[i].unchangedSince)
  }

  /** All the patterns of a list, as values. */
  function ViewsOf(ps: seq<Pattern>): (vs: seq<PatternView>)
    reads ps
    ensures |vs| == |ps|
    ensures forall i :: 0 <= i < |ps| ==> vs[i] == ps[i].View()
  {
    seq(|ps|, i reads ps requires 0 <= i < |ps| => ps[i].View())
  }

  /** A strip as a mutable object holding its pattern objects. */
  class Strip {
    const stripId: string
    var name: Option<string>
    var artist: Option<string>
    var homepage: Option<string>
    var searchpage: Option<string>
    var intermediatePattern: Option<string>
    var foundIntermediate: Option<string>
    var intermediateUrl: Option<string>
    var intermediateRelative: bool
    var intermediateNeedsHostname: bool
    var patterns: seq<Pattern>
    var baseurl: string
    var error: Option<string>
    var fetchAttempted: bool
    var onhold: bool
    var unchangedSince: Option<Since>

    /** The main pattern comes first, and the pattern objects are distinct. */
    ghost predicate Consistent()
      reads this, patterns
    {
      && |patterns| >= 1
      && patterns[0].title == MainStripTitle && patterns[0].mode == ImageMode
      && (forall i, j :: 0 <= i < j < |patterns| ==> patterns[i] != patterns[j])
    }

    function View(): (s: StripView)
      reads this, patterns
      ensures s.patterns == ViewsOf(patterns)
    {
      StripView(stripId, name, artist, homepage, searchpage, intermediatePattern, foundIntermediate,
        intermediateUrl, intermediateRelative, intermediateNeedsHostname, ViewsOf(patterns), baseurl,
        error, fetchAttempted, onhold, unchangedSince)
    }

    constructor (stripId: string, name: Option<string>, artist: Option<string>, homepage: Option<string>,
                 searchpage: Option<string>, searchpattern: Option<string>, baseurl: string, onhold: bool)
      ensures Consistent() && fresh(patterns[0])
      ensures View() == NewStrip(stripId, name, artist, homepage, searchpage, searchpattern, baseurl, onhold)
    {
      this.stripId := stripId;
      this.name := name;
      this.artist := artist;
      this.homepage := homepage;
      this.searchpage := if Truthy(searchpage) then searchpage else homepage;
      this.intermediatePattern := None;
      this.foundIntermediate := None;
      this.intermediateUrl := None;
      this.intermediateRelative := false;
      this.intermediateNeedsHostname := false;
      var main := new Pattern(MainStripTitle, searchpattern, ImageMode);
      this.patterns := [main];
      this.baseurl := baseurl;
      this.error := None;
      this.fetchAttempted := false;
      this.onhold := onhold;
      this.unchangedSince := None;
      new;
      assert ViewsOf(patterns) == [NewPattern(MainStripTitle, searchpattern, ImageMode)];
    }

    method SetHomepage(homepage: string)
      modifies this
      ensures patterns == old(patterns)
      ensures View() == WithHomepage(old(View()), homepage)
    {
      this.homepage := Some(homepage);
      if searchpage.None? {
        searchpage := Some(homepage);
      }
    }

    method SetSearchpattern(pattern: string)
      requires Consistent()
      modifies patterns[0]
      ensures Consistent()
      ensures View() == WithSearchPattern(old(View()), pattern)
    {
      patterns[0].pattern := Some(pattern);
      assert ViewsOf(patterns) == [old(patterns[0].View()).(pattern := Some(pattern))] + old(ViewsOf(patterns))[1..];
    }

    method AddExtra(title: string, pattern: string, mode: Mode)
      requires Consistent()
      modifies this
      ensures Consistent()
      ensures |patterns| == |old(patterns)| + 1 && patterns[..|patterns| - 1] == old(patterns)
      ensures fresh(patterns[|patterns| - 1])
      ensures View() == WithExtra(old(View()), title, pattern, mode)
    {
      var extra := new Pattern(title, Some(pattern), mode);
      patterns := patterns + [extra];
      assert patterns[..|patterns| - 1] == old(patterns);
    }

    /** `finish`. */
    method Finish()
      requires Consistent()
      requires baseurl == HomepageSentinel ==> homepage.Some?
      modifies this, patterns
      ensures Consistent() && patterns == old(patterns)
      ensures View() == Finished(old(View()))
    {
      if baseurl == HomepageSentinel {
        baseurl := homepage.value;
      }
      SetBaseurls(baseurl);
    }

    /** The loop of `finish` over the patterns. */
    method SetBaseurls(b: string)
      requires Consistent()
      modifies patterns
      ensures Consistent()
      ensures ViewsOf(patterns) == WithBaseurl(old(ViewsOf(patterns)), b)
    {
      var i := 0;
      while i < |patterns|
        invariant 0 <= i <= |patterns| && Consistent()
        invariant forall j :: 0 <= j < i ==> patterns[j].View() == old(patterns[j].View()).(baseurl := b)
        invariant forall j :: i <= j < |patterns| ==> patterns[j].View() == old(patterns[j].View())
      {
        patterns[i].baseurl := b;
        i := i + 1;
      }
    }

    /** `fetch_html`. */
    method FetchHtml(engine: RegexEngine, get: PageFetch, userAgent: Option<string>)
      requires Consistent()
      modifies this, patterns
      ensures Consistent() && patterns == old(patterns)
      ensures View() == FetchOf(old(View()), engine, get, userAgent)
    {
      fetchAttempted := true;
      var page := Show(searchpage);
      var header := HeaderValue(userAgent);
      var fetched := get(PageRequest(page, header));
      if fetched.Err? {
        error := Some("ERROR: Unable to retrieve HTML for " + Show(name) + " (" + stripId + ") - " + page + ": " + fetched.error);
        FetchFailed(old(View()), engine, get, userAgent);
        return;
      }
      ReadSearchPage(engine, get, page, header, fetched.value);
      FetchRead(old(View()), engine, get, userAgent);
    }

    /** `fetch_html` from the search page's lines on. */
    method ReadSearchPage(engine: RegexEngine, get: PageFetch, page: string, header: Option<string>, lines: seq<string>)
      requires Consistent()
      modifies this, patterns
      ensures Consistent() && patterns == old(patterns)
      ensures View() == OnSearchPage(old(View()), engine, get, page, header, lines)
    {
      if !Truthy(intermediatePattern) {
        SearchPatterns(engine, lines);
        return;
      }
      var ip := intermediatePattern.value;
      var compileError := engine.compileError(ip);
      if compileError.Some? {
        error := Some("ERROR: Unable to compile intermedate regex: " + compileError.value);
        return;
      }
      SearchIntermediate(engine, ip, lines);
      ReadIntermediate(engine, get, page, header);
    }

    /** `fetch_html` once the intermediate link is searched for. */
    method ReadIntermediate(engine: RegexEngine, get: PageFetch, page: string, header: Option<string>)
      requires Consistent()
      modifies this, patterns
      ensures Consistent() && patterns == old(patterns)
      ensures View() == OnIntermediate(old(View()), engine, get, page, header)
    {
      if !Truthy(foundIntermediate) {
        error := Some("ERROR: Unable to find intermediate URL for " + Show(name) + " (" + stripId + ")");
        return;
      }
      var iu := IntermediateUrl(page, foundIntermediate.value, intermediateRelative, intermediateNeedsHostname);
      intermediateUrl := Some(iu);
      ghost var mid := View();
      assert mid == old(View()).(intermediateUrl := Some(iu));
      assert OnIntermediate(old(View()), engine, get, page, header) == IntermediatePage(mid, engine, get, iu, header);
      ReadIntermediatePage(engine, get, iu, header);
    }

    /** `fetch_html` on the intermediate page at `iu`. */
    method ReadIntermediatePage(engine: RegexEngine, get: PageFetch, iu: string, header: Option<string>)
      requires Consistent()
      modifies this, patterns
      ensures Consistent() && patterns == old(patterns)
      ensures View() == IntermediatePage(old(View()), engine, get, iu, header)
    {
      var fetched := get(PageRequest(iu, header));
      if fetched.Err? {
        error := Some("ERROR: Unable to retrieve intermediate HTML for " + Show(name) + " (" + stripId + ") - " + iu + ": " + fetched.error);
        return;
      }
      SearchPatterns(engine, fetched.value);
    }

    /** The loop of `fetch_html` over the search page for the intermediate
        link: the first matching line's group, if any line matches. */
    method SearchIntermediate(engine: RegexEngine, ip: string, lines: seq<string>)
      modifies this
      ensures View() == old(View()).(foundIntermediate :=
        match FirstMatch(engine, ip, lines)
        case None => old(foundIntermediate)
        case Some(i) => engine.search(ip, lines[i]).group)
      ensures patterns == old(patterns)
    {
      var k := 0;
      while k < |lines|
        invariant 0 <= k <= |lines|
        invariant forall j :: 0 <= j < k ==> engine.search(ip, lines[j]).NoMatch?
        invariant View() == old(View())
      {
        var m := engine.search(ip, lines[k]);
        if m.Matched? {
          foundIntermediate := m.group;
          assert FirstMatch(engine, ip, lines) == Some(k);
          return;
        }
        k := k + 1;
      }
    }

    /** The loop of `fetch_html` over the patterns. */
    method SearchPatterns(engine: RegexEngine, lines: seq<string>)
      requires Consistent()
      modifies patterns
      ensures Consistent() && patterns == old(patterns)
      ensures View() == WithMatches(old(View()), engine, lines)
    {
      ghost var before := ViewsOf(patterns);
      ghost var after := SearchAll(engine, before, lines);
      var i := 0;
      while i < |patterns|
        invariant 0 <= i <= |patterns| && Consistent()
        invariant forall j :: 0 <= j < i ==> patterns[j].View() == after[j]
        invariant forall j :: i <= j < |patterns| ==> patterns[j].View() == before[j]
      {
        var p := patterns[i];
        label Before:
        assert p.title == before[i].title && p.pattern == before[i].pattern;
        var _ := p.SearchPage(engine, lines);
        forall j | 0 <= j < |patterns| && j != i
          ensures patterns[j].View() == old@Before(patterns[j].View())
        {
          assert patterns[j] != p;
        }
        assert p.View() == after[i];
        i := i + 1;
      }
      assert ViewsOf(patterns) == after;
    }

    /** `download`: each pattern downloads into the strip's directory in list
        order, and the strip is unchanged since the first date a pattern
        reports. */
    method Download(fs: FileSystem, basedir: string, now: Date, userAgent: Option<string>, web: Web)
        returns (ghost trees: seq<Tree>)
      requires Consistent() && ValidDate(now) && now != FirstDate && name.Some?
      requires forall i :: 0 <= i < |patterns| ==> patterns[i].unchangedSince.None?
      modifies this, fs, patterns
      ensures Consistent() && patterns == old(patterns)
      ensures |trees| == |patterns| + 1 && trees[0] == old(fs.entries) && fs.entries == trees[|patterns|]
      ensures forall i :: 0 <= i < |patterns| ==>
        DownloadStep(old(patterns[i].View()), patterns[i].View(), trees[i], trees[i + 1],
                     Join(basedir, old(name).value), old(name).value, now, old(searchpage), userAgent, web)
      ensures unchangedSince == if old(unchangedSince).Some? then old(unchangedSince) else FirstSince(SincesOf(patterns))
    {
      var since;
      since, trees := DownloadEach(patterns, fs, Join(basedir, name.value), name.value, now, searchpage, userAgent, web);
      if unchangedSince.None? {
        unchangedSince := since;
      }
    }
  }

  /** One `download_to` call: the pattern `before` and the filesystem `t0`
      become `after` and `t1`. */
  ghost predicate DownloadStep(before: PatternView, after: PatternView, t0: Tree, t1: Tree, dir: string, linkdir: string,
                               now: Date, referer: Option<string>, userAgent: Option<string>, web: Web)
    requires ValidDate(now) && now != FirstDate
  {
    var d := DownloadOf(before, t0, dir, linkdir, now, referer, userAgent, web);
    t1 == d.fs && after == AfterDownload(before, d)
  }

  /** The loop of `download` over distinct pattern objects: `trees[i]` is the
      filesystem the `i`-th pattern's `download_to` starts from, and each
      pattern ends up as that call leaves it. */
  method DownloadEach(ps: seq<Pattern>, fs: FileSystem, dir: string, linkdir: string, now: Date,
                      referer: Option<string>, userAgent: Option<string>, web: Web)
      returns (since: Option<Since>, ghost trees: seq<Tree>)
    requires ValidDate(now) && now != FirstDate
    requires forall i, j :: 0 <= i < j < |ps| ==> ps[i] != ps[j]
    requires forall i :: 0 <= i < |ps| ==> ps[i].unchangedSince.None?
    modifies fs, ps
    ensures |trees| == |ps| + 1 && trees[0] == old(fs.entries) && fs.entries == trees[|ps|]
    ensures forall i :: 0 <= i < |ps| ==>
      DownloadStep(old(ps[i].View()), ps[i].View(), trees[i], trees[i + 1], dir, linkdir, now, referer, userAgent, web)
    ensures since == FirstSince(SincesOf(ps))
  {
    ghost var before := ViewsOf(ps);
    ghost var done: seq<Option<Since>> := [];
    trees := [fs.entries];
    since := None;
    var i := 0;
    while i < |ps|
      invariant 0 <= i <= |ps|
      invariant |done| == i && |trees| == i + 1
      invariant trees[0] == old(fs.entries) && fs.entries == trees[i]
      invariant forall j :: 0 <= j < i ==>
        DownloadStep(before[j], ps[j].View(), trees[j], trees[j + 1], dir, linkdir, now, referer, userAgent, web)
      invariant forall j :: i <= j < |ps| ==> ps[j].View() == before[j]
      invariant forall j :: 0 <= j < i ==> ps[j].unchangedSince == done[j]
      invariant since == FirstSince(done)
    {
      label before_call:
      ps[i].DownloadTo(fs, dir, linkdir, now, referer, userAgent, web);
      assert DownloadStep(before[i], ps[i].View(), trees[i], fs.entries, dir, linkdir, now, referer, userAgent, web);
      forall j | 0 <= j < |ps| && j != i
        ensures ps[j].View() == old@before_call(ps[j].View())
      {
        assert ps[j] != ps[i];
      }
      trees := trees + [fs.entries];
      FirstSinceSnoc(done, ps[i].unchangedSince);
      if since.None? {
        since := ps[i].unchangedSince;
      }
      done := done + [ps[i].unchangedSince];
      i := i + 1;
    }
    assert SincesOf(ps) == done;
  }
}
