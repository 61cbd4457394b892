/** One pattern of a strip: the regular expression that finds it in the search
    page, the text or image URL it matched, and the download of a matched image
    into the strip's directory. */
module Patterns {
  import opened Wrappers
  import opened Text
  import opened Calendar
  import opened Files
  import opened Images

  /** `Pattern.M_IMG` and `Pattern.M_TEXT`. */
  datatype Mode = ImageMode | TextMode

  /** The title of the pattern every strip starts with. */
  const MainStripTitle := "Main Strip"

  predicate IsIdChar(c: char) {
    '0' <= c <= '9' || 'a' <= c <= 'z'
  }

  function IdChar(c: char): char {
    if IsIdChar(LowerChar(c)) then LowerChar(c) else '_'
  }

  /** `re.sub('[^0-9a-z]', '_', title.lower())`: the lower-cased title with every
      character outside `[0-9a-z]` replaced by `_`, safe in CSS names and file
      names. */
  function PatternId(title: string): (id: string)
    ensures |id| == |title|
    ensures forall i :: 0 <= i < |id| ==> IsIdChar(id[i]) || id[i] == '_'
    ensures forall i :: 0 <= i < |id| ==> (id[i] == '_' <==> !IsIdChar(LowerChar(title[i])))
    ensures forall i :: 0 <= i < |id| ==> id[i] != '_' ==> id[i] == LowerChar(title[i])
    ensures '/' !in id && '-' !in id && '.' !in id
  {
    if title == [] then [] else [IdChar(title[0])] + PatternId(title[1..])
  }

  /** An id is its own id. */
  lemma {:induction false} PatternIdIdempotent(title: string)
    ensures PatternId(PatternId(title)) == PatternId(title)
  {
    if title != [] {
      var id := PatternId(title);
      assert id == [IdChar(title[0])] + PatternId(title[1..]);
      assert id[1..] == PatternId(title[1..]);
      PatternIdIdempotent(title[1..]);
    }
  }

  /** What a compiled pattern's `search` finds on one line: nothing, or a match
      carrying the text of the group named `result` (`None` when that group did
      not take part in the match). */
  datatype MatchResult = NoMatch | Matched(group: Option<string>)

  /** Python's `re` as an oracle: the message `re.compile` raises for a pattern,
      if it raises, and `search` of a pattern on a line. */
  datatype RegexEngine = RegexEngine(compileError: string -> Option<string>, search: (string, string) -> MatchResult)

  /** The message `re.compile(None)` raises. */
  const NotAPatternMessage := "first argument must be string or compiled pattern"

  /** The index of the first line, in order, that the pattern matches. */
  function FirstMatch(engine: RegexEngine, pattern: string, lines: seq<string>): (r: Option<nat>)
    ensures r.Some? ==> r.value < |lines| && engine.search(pattern, lines[r.value]).Matched?
    ensures r.Some? ==> forall j :: 0 <= j < r.value ==> engine.search(pattern, lines[j]).NoMatch?
    ensures r.None? <==> forall j :: 0 <= j < |lines| ==> engine.search(pattern, lines[j]).NoMatch?
  {
    if lines == [] then None
    else if engine.search(pattern, lines[0]).Matched? then Some(0)
    else match FirstMatch(engine, pattern, lines[1..])
      case None => None
      case Some(k) => Some(k + 1)
  }

  /** The outcome of `search_page`: the matched group, or the error recorded. */
  datatype SearchOutcome = Found(result: Option<string>) | NotFound(error: string)

  /** `search_page`: a pattern that does not compile fails before any line is
      looked at; otherwise the first matching line gives the result, and a page
      without a match fails with the "Could not find" error. */
  function Search(engine: RegexEngine, title: string, pattern: Option<string>, lines: seq<string>): (o: SearchOutcome)
    ensures pattern.None? ==> o == NotFound("Error parsing regex: " + NotAPatternMessage)
    ensures pattern.Some? && engine.compileError(pattern.value).Some? ==>
      o == NotFound("Error parsing regex: " + engine.compileError(pattern.value).value)
    ensures o.Found? <==> (pattern.Some? && engine.compileError(pattern.value).None?
      && exists j :: 0 <= j < |lines| && engine.search(pattern.value, lines[j]).Matched?)
    ensures o.Found? ==> exists j :: (0 <= j < |lines| && engine.search(pattern.value, lines[j]) == Matched(o.result)
      && forall k :: 0 <= k < j ==> engine.search(pattern.value, lines[k]).NoMatch?)
    ensures o.NotFound? && pattern.Some? && engine.compileError(pattern.value).None? ==>
      o.error == "Could not find \"" + title + "\" pattern in HTML"
  {
    if pattern.None? then NotFound("Error parsing regex: " + NotAPatternMessage)
    else match engine.compileError(pattern.value)
      case Some(m) => NotFound("Error parsing regex: " + m)
      case None =>
        match FirstMatch(engine, pattern.value, lines)
        case Some(i) => Found(engine.search(pattern.value, lines[i]).group)
        case None => NotFound("Could not find \"" + title + "\" pattern in HTML")
  }

  /** Everything a pattern holds, as one value. */
  datatype PatternView = PatternView(
    title: string,
    pattern: Option<string>,
    mode: Mode,
    baseurl: string,
    result: Option<string>,
    error: Option<string>,
    url: Option<string>,
    unchangedSince: Option<Since>)

  /** The pattern after `search_page` has recorded its outcome. */
  function AfterSearch(p: PatternView, o: SearchOutcome): (q: PatternView)
    ensures o.Found? ==> q == p.(result := o.result)
    ensures o.NotFound? ==> q == p.(error := Some(o.error))
  {
    match o
    case Found(r) => p.(result := r)
    case NotFound(e) => p.(error := Some(e))
  }

  /** The request `requests.get` is given: the URL and the optional headers. */
  datatype Request = Request(url: string, referer: Option<string>, userAgent: Option<string>)

  /** What `requests.get` gives back: a response, or the message of the
      exception it raised. */
  datatype Response = Response(status: nat, reason: string, content: Bytes) | TransportError(message: string)

  /** The foreign calls `download_to` makes: the HTTP fetch, PIL's format
      sniffing (the format name, or the message of the error it raised),
      `html.unescape` and `urllib.parse.quote`. */
  datatype Web = Web(
    get: Request -> Response,
    sniff: Bytes -> Result<string, string>,
    unescape: string -> string,
    quote: string -> string)

  /** `get_result`: no result gives `None`; an image result is prefixed with the
      base URL, a text result is not. */
  function Rendered(mode: Mode, baseurl: string, result: Option<string>, unescape: string -> string): (r: Option<string>)
    ensures r.None? <==> result.None?
    ensures result.Some? && mode == ImageMode ==> r == Some(baseurl + unescape(result.value))
    ensures result.Some? && mode == TextMode ==> r == Some(unescape(result.value))
  {
    if result.None? then None
    else if mode == ImageMode then Some(baseurl + unescape(result.value))
    else Some(unescape(result.value))
  }

  /** Whether `download_to` goes past its two early returns: an image pattern
      with a non-empty result and no error. */
  predicate Eligible(p: PatternView) {
    p.mode == ImageMode && !Truthy(p.error) && Truthy(p.result)
  }

  /** The fields `download_to` changes, and the filesystem after it. */
  datatype Downloaded = Downloaded(fs: Tree, error: Option<string>, url: Option<string>, unchangedSince: Option<Since>)

  /** The pattern once `download_to` has set the fields it changes. */
  function AfterDownload(p: PatternView, d: Downloaded): (q: PatternView)
    ensures q.(error := p.error, url := p.url, unchangedSince := p.unchangedSince) == p
    ensures q.error == d.error && q.url == d.url && q.unchangedSince == d.unchangedSince
  {
    p.(error := d.error, url := d.url, unchangedSince := d.unchangedSince)
  }

  function HeaderValue(o: Option<string>): Option<string> {
    if Truthy(o) then o else None
  }

  function SaveError(title: string, e: OsError): string {
    "ERROR: Unable to save " + title + " image: " + Describe(e)
  }

  /** `download_to`, with the corrected save block. */
  function DownloadOf(p: PatternView, fs: Tree, basedir: string, linkdir: string, now: Date,
                      referer: Option<string>, userAgent: Option<string>, web: Web): (d: Downloaded)
    requires ValidDate(now) && now != FirstDate
    ensures !Eligible(p) ==> d == Downloaded(fs, p.error, p.url, p.unchangedSince)
    ensures d.fs != fs ==> Eligible(p)
    ensures d.url != p.url ==> Eligible(p) && d.error == p.error
  {
    if !Eligible(p) then Downloaded(fs, p.error, p.url, p.unchangedSince)
    else
      var request := Request(Rendered(p.mode, p.baseurl, p.result, web.unescape).value, HeaderValue(referer), HeaderValue(userAgent));
      match web.get(request)
      case TransportError(m) =>
        Downloaded(fs, Some("ERROR: Unable to retreive \"" + p.title + "\" image: " + m), p.url, p.unchangedSince)
      case Response(status, reason, content) =>
        if status != 200 then
          Downloaded(fs, Some("ERROR: Received HTTP " + NatToDecimal(status) + ": " + reason), p.url, p.unchangedSince)
        else match web.sniff(content)
          case Err(m) =>
            Downloaded(fs, Some("ERROR: Unable to determine \"" + p.title + "\" image type: " + m), p.url, p.unchangedSince)
          case Ok(format) =>
            var ext := Extension(format);
            var saved := SaveImage(fs, basedir, now, PatternId(p.title), ext, content);
            match saved.failure
            case Some(e) => Downloaded(saved.fs, Some(SaveError(p.title, e)), p.url, saved.since)
            case None => Downloaded(saved.fs, p.error, Some(Join(web.quote(linkdir), ImageFilename(now, PatternId(p.title), ext))), saved.since)
  }

  /** A fetched and recognised image goes through the save block: the
      filesystem and `unchanged_since` are the save's, and the public URL is
      recorded exactly when the save did not fail. */
  lemma DownloadSaves(p: PatternView, fs: Tree, basedir: string, linkdir: string, now: Date,
                      referer: Option<string>, userAgent: Option<string>, web: Web, content: Bytes, format: string)
    requires ValidDate(now) && now != FirstDate && Eligible(p)
    requires web.get(Request(p.baseurl + web.unescape(p.result.value), HeaderValue(referer), HeaderValue(userAgent))).Response?
    requires web.get(Request(p.baseurl + web.unescape(p.result.value), HeaderValue(referer), HeaderValue(userAgent))).status == 200
    requires web.get(Request(p.baseurl + web.unescape(p.result.value), HeaderValue(referer), HeaderValue(userAgent))).content == content
    requires web.sniff(content) == Ok(format)
    ensures var d := DownloadOf(p, fs, basedir, linkdir, now, referer, userAgent, web);
      var saved := SaveImage(fs, basedir, now, PatternId(p.title), Extension(format), content);
      && d.fs == saved.fs
      && d.unchangedSince == saved.since
      && (saved.failure.None? ==> d.error == p.error && d.url == Some(Join(web.quote(linkdir), ImageFilename(now, PatternId(p.title), Extension(format)))))
      && (saved.failure.Some? ==> d.error == Some(SaveError(p.title, saved.failure.value)) && d.url == p.url)
  {
  }

  /** Each of the three failures before the save block (the request raises,
      the status is not 200, the format cannot be told) records its message
      and leaves the filesystem, the URL and `unchanged_since` as they were. */
  lemma DownloadFails(p: PatternView, fs: Tree, basedir: string, linkdir: string, now: Date,
                      referer: Option<string>, userAgent: Option<string>, web: Web)
    requires ValidDate(now) && now != FirstDate && Eligible(p)
    ensures var r := web.get(Request(p.baseurl + web.unescape(p.result.value), HeaderValue(referer), HeaderValue(userAgent)));
      var d := DownloadOf(p, fs, basedir, linkdir, now, referer, userAgent, web);
      && (r.TransportError? ==>
            d == Downloaded(fs, Some("ERROR: Unable to retreive \"" + p.title + "\" image: " + r.message), p.url, p.unchangedSince))
      && (r.Response? && r.status != 200 ==>
            d == Downloaded(fs, Some("ERROR: Received HTTP " + NatToDecimal(r.status) + ": " + r.reason), p.url, p.unchangedSince))
      && (r.Response? && r.status == 200 && web.sniff(r.content).Err? ==>
            d == Downloaded(fs, Some("ERROR: Unable to determine \"" + p.title + "\" image type: " + web.sniff(r.content).error), p.url, p.unchangedSince))
  {
  }

  /** A pattern as a mutable object: `search_page`, `get_result` and
      `download_to` update its fields in place. */
  class Pattern {
    const title: string
    const mode: Mode
    var pattern: Option<string>
    var baseurl: string
    var result: Option<string>
    var error: Option<string>
    var url: Option<string>
    var unchangedSince: Option<Since>

    /** The id, derived from the title. */
    function Id(): string
    {
      PatternId(title)
    }

    function View(): PatternView
      reads this
    {
      PatternView(title, pattern, mode, baseurl, result, error, url, unchangedSince)
    }

    constructor (title: string, pattern: Option<string>, mode: Mode)
      ensures View() == PatternView(title, pattern, mode, "", None, None, None, None)
    {
      this.title := title;
      this.mode := mode;
      this.pattern := pattern;
      this.baseurl := "";
      this.result := None;
      this.error := None;
      this.url := None;
      this.unchangedSince := None;
    }

    /** `is_image`; with no error and a non-empty result, it decides whether
        `download_to` goes on. */
    predicate IsImage()
      reads this
      ensures Eligible(View()) <==> IsImage() && !Truthy(error) && Truthy(result)
    {
      mode == ImageMode
    }

    /** `get_result`. */
    function GetResult(unescape: string -> string): (r: Option<string>)
      reads this
      ensures r.None? <==> result.None?
      ensures result.Some? ==> r.value == (if IsImage() then baseurl else "") + unescape(result.value)
    {
      Rendered(mode, baseurl, result, unescape)
    }

    /** `search_page`: records the first match's group, or the error. */
    method SearchPage(engine: RegexEngine, lines: seq<string>) returns (found: bool)
      modifies this
      ensures var o := Search(engine, title, old(pattern), lines);
        found == o.Found? && View() == AfterSearch(old(View()), o)
    {
      if pattern.None? {
        error := Some("Error parsing regex: " + NotAPatternMessage);
        return false;
      }
      var compileError := engine.compileError(pattern.value);
      if compileError.Some? {
        error := Some("Error parsing regex: " + compileError.value);
        return false;
      }
      var i := 0;
      while i < |lines|
        invariant 0 <= i <= |lines|
        invariant forall j :: 0 <= j < i ==> engine.search(pattern.value, lines[j]).NoMatch?
        invariant View() == old(View())
      {
        var m := engine.search(pattern.value, lines[i]);
        if m.Matched? {
          result := m.group;
          return true;
        }
        i := i + 1;
      }
      error := Some("Could not find \"" + title + "\" pattern in HTML");
      return false;
    }

    /** `download_to`: fetches the matched image, names it after the date, the
        id and the sniffed format, and either writes it or links it to
        yesterday's identical image. A link standing at today's path is
        removed before new bytes are written (see `SaveImageAsWritten` for the
        block as the source writes it). */
    method DownloadTo(fs: FileSystem, basedir: string, linkdir: string, now: Date,
                      referer: Option<string>, userAgent: Option<string>, web: Web)
      requires ValidDate(now) && now != FirstDate
      requires unchangedSince.None?
      modifies this, fs
      ensures var d := DownloadOf(old(View()), old(fs.entries), basedir, linkdir, now, referer, userAgent, web);
        && fs.entries == d.fs
        && View() == AfterDownload(old(View()), d)
    {
      if !IsImage() || Truthy(error) || !Truthy(result) {
        return;
      }
      var request := Request(GetResult(web.unescape).value, HeaderValue(referer), HeaderValue(userAgent));
      var response := web.get(request);
      if response.TransportError? {
        error := Some("ERROR: Unable to retreive \"" + title + "\" image: " + response.message);
        return;
      }
      if response.status != 200 {
        error := Some("ERROR: Received HTTP " + NatToDecimal(response.status) + ": " + response.reason);
        return;
      }
      var format := web.sniff(response.content);
      if format.Err? {
        error := Some("ERROR: Unable to determine \"" + title + "\" image type: " + format.error);
        return;
      }
      var data := response.content;
      var ext := Extension(format.value);
      var since, failure := SaveTo(fs, basedir, now, Id(), ext, data);
      unchangedSince := since;
      if failure.Some? {
        error := Some(SaveError(title, failure.value));
        return;
      }
      var imgBase := ImageFilename(now, Id(), ext);
      url := Some(Join(web.quote(linkdir), imgBase));
    }
  }
}
