# pydailystrips, modelled in Dafny

pydailystrips fetches daily web comics. A plain-text configuration file
declares each strip: its name, home page, search page, the regular expression
that finds the comic image on that page, extra image or text patterns, and an
optional intermediate page. The tool fetches each strip's page and matches the
patterns line by line. It then downloads every matched image into a dated
file. When an image is byte-for-byte the same as yesterday's, the tool links
to yesterday's file instead of writing a new one, and it records how long the
strip has been unchanged.

This project models the core of `pydailystrips.py`:

- **Configuration loading** (`Collection.load_from_filename`, `Group.finish`).
  The loader is a state machine with three states: outside any stanza, inside
  a `strip` stanza, or inside a `group` stanza. The pure specification lives in
  module `Loading`. `Step` handles one line, `Scan` folds `Step` over the
  lines, `ResolveGroups` is the second pass over the groups, and `Load` puts
  them together. The open stanza is the tagged value `Cursor`
  (`Outer | InStrip | InGroup`). Each exception the loader raises is a
  `LoadError` value.
  `Collections.Collection.LoadFromLines` is the imperative loop over the
  lines. It works on `Strip`, `Pattern` and `Group` objects and fills the
  `strips` and `groups` dictionaries. It is proved equal to `Load`.
- **Strip and pattern records** (modules `Strips`, `Patterns`). Each is a
  class whose methods update fields in place. Each class also has a value view
  (`StripView`, `PatternView`), and the methods are proved against pure
  functions on that view. This covers validation and its reason, `finish`
  (the `$homepage` sentinel and base-URL propagation), the search-page default
  in `set_homepage`, `add_extra`, the pattern id, `get_result`, the
  first-match scan of `search_page`, the intermediate-URL composition and
  `fetch_html`.
- **Image naming and deduplication** (modules `Calendar`, `Images`, `Files`).
  This covers the `YYYY-MM-DD-<id>.<ext>` file name, the calendar-day
  predecessor, and the write-or-link decision against an abstract filesystem
  `map<string, Entry>` with `Entry = File(bytes) | Link(target)`. When
  yesterday's file is itself a link, the new link takes over its target, so
  one hop of the chain is collapsed. The module also reads the "unchanged
  since" date back from the link target.
  `Strips.Strip.Download` takes the first `unchanged_since` its patterns
  report.

Foreign behaviour is passed in as parameters:

- Python's `re` is `RegexEngine`: a compile-error oracle plus a search oracle
  that returns the `result` group.
- HTTP, PIL format sniffing, `html.unescape` and `urllib.parse.quote` are
  function-valued fields of `Web` and `PageFetch`.
- The run date is a `Date` parameter.

Behaviour of the code worth noting:

- A strip's "unchanged since" is the first value set in pattern order, not
  the earliest date (`pydailystrips.py:482-489`).
- An invalid strip's reason names only the first missing field, in the order
  name, homepage, searchpattern.
- `end` in a strip stanza ignores any words after it.
- A one-word strip line that is not a flag raises "Missing option data".

## Model

| member | source | states |
|---|---|---|
| `Calendar.Yesterday` | pydailystrips.py:191 | `now - timedelta(days=1)`: the result is a valid date strictly before the input, rolling over months, leap-year Februaries and years |
| `Calendar.TomorrowOfYesterday` | pydailystrips.py:191 | the next day after yesterday is the original date again |
| `Calendar.YesterdayOfTomorrow` | pydailystrips.py:191 | yesterday of the next day is the original date again, so the step is one day both ways |
| `Calendar.YesterdayIsAdjacent` | pydailystrips.py:191 | no valid date lies strictly between yesterday and today |
| `Text.Split1` | pydailystrips.py:646 | `line.split(maxsplit=1)`: at most two non-empty parts; no parts exactly when the line is all whitespace; the first part has no whitespace and the second does not start with whitespace |
| `Text.Split1OfWords` | pydailystrips.py:646 | a keyword, a whitespace separator and a value split back into exactly that keyword and that value |
| `Text.SplitOnce` | pydailystrips.py:710 | `split('\|', maxsplit=1)`: the whole value when it has no `\|`; otherwise two parts, the first without `\|`, that rejoin to the value around the first `\|` |
| `Text.LStrip` | pydailystrips.py:641 | `lstrip()`: drops exactly the leading whitespace; the result is a suffix that does not start with whitespace |
| `Text.RStrip` | pydailystrips.py:652 | `rstrip()`: drops exactly the trailing whitespace; the result is a prefix that does not end with whitespace |
| `Text.RStripNewlines` | pydailystrips.py:641 | `rstrip("\r\n")`: drops exactly the trailing CR and LF characters |
| `Text.Lower` | pydailystrips.py:652 | `lower()`: same length, each ASCII capital replaced by its small letter, every other character kept |
| `Text.LowerIdempotent` | pydailystrips.py:652 | lower-casing an id twice gives the same id as once |
| `Text.ZeroPad` | pydailystrips.py:194-198 | `'%0Nd'`: decimal digits only, at least N characters long |
| `Text.ZeroPadValue` | pydailystrips.py:194-198 | a zero-padded number denotes the number it was made from |
| `Text.SplitAll` | pydailystrips.py:245 | `split('-')`: at least one field, none containing `-`; a string without `-` is a single field, itself |
| `Text.SplitAllHead` | pydailystrips.py:245 | splitting `head-tail` gives `head` as the first field, then the fields of `tail` |
| `Text.ParseIntDigits` | pydailystrips.py:246-248 | `int(field)`: a number only when the field is whitespace, at most one `+`, a non-empty run of digits and whitespace, and then the number is the value of those digits |
| `Text.ParseIntOfDigits` | pydailystrips.py:246-248 | every field made of whitespace, an optional `+`, a non-empty run of digits and whitespace parses to the value of those digits |
| `Text.ParseIntZeroPad` | pydailystrips.py:194-248 | `int()` reads a zero-padded field back as its number |
| `Files.Join` | pydailystrips.py:195-199 | `os.path.join`: an absolute second part wins; otherwise the parts are joined with one `/` |
| `Files.Resolve` | pydailystrips.py:205-261 | following links stops at a regular file or a missing entry, or fails after 40 hops |
| `Files.Symlink` | pydailystrips.py:230-237 | `os.symlink` succeeds exactly when the target is non-empty and the path is free, and then adds only that link |
| `Files.WriteFile` | pydailystrips.py:256-259 | `open(p, 'wb').write` succeeds exactly when the link chain resolves, and it replaces the entry at the end of the chain |
| `Files.WriteThenRead` | pydailystrips.py:256-259 | after a successful write, the path exists and reads back exactly the written bytes |
| `Files.ResolveAfterReplace` | pydailystrips.py:256-259 | replacing the file at the end of a chain leaves the chain resolving to the same place |
| `Files.LinkToFile` | pydailystrips.py:237 | a link whose target names a regular file reads that file's bytes |
| `Files.DirnameOfJoin` | pydailystrips.py:229-237 | `dirname(join(dir, name))` is `dir` for a plain file name |
| `Files.JoinInjective` | pydailystrips.py:194-199 | distinct file names in one directory are distinct paths |
| `Files.FileSystem.Unlink` | pydailystrips.py:218-219 | `os.unlink` removes that entry and nothing else |
| `Files.FileSystem.MakeSymlink` | pydailystrips.py:230-237 | `os.symlink` on the filesystem object: the new tree is `Symlink`'s, or the tree is unchanged and the error is reported |
| `Files.FileSystem.Write` | pydailystrips.py:256-259 | the write on the filesystem object: the new tree is `WriteFile`'s, or the tree is unchanged and the error is reported |
| `Images.Extension` | pydailystrips.py:63-68 | `IMG_TO_EXT[format]` for PNG, JPEG, GIF and WEBP, otherwise `format.lower()` |
| `Images.ImageFilename` | pydailystrips.py:194-198 | `'%04d-%02d-%02d-%s.%s'` starts with a digit, and has no `/` when the id and extension have none |
| `Images.ParseSince` | pydailystrips.py:241-252 | the first three `-` fields of the link target give a valid date; otherwise the mtime fallback is taken on the link's full path |
| `Images.ParseSinceOfFilename` | pydailystrips.py:194-248 | a file name this program writes parses back to exactly its own date |
| `Images.ImageFilenameInjective` | pydailystrips.py:194-198 | different days never share an image file name |
| `Images.TodayIsNotYesterday` | pydailystrips.py:191-199 | today's and yesterday's paths are different entries |
| `Images.UnchangedImageIsLinked` | pydailystrips.py:205-241 | yesterday's identical image is a regular file: no bytes are written, today's path becomes a link to yesterday's base name, reading today's path yields the same bytes, and `unchanged_since` is yesterday's date |
| `Images.UnchangedLinkIsCollapsed` | pydailystrips.py:212-235 | yesterday's identical image is a link: today's link gets yesterday's target (one hop collapsed), and the date is read from that target |
| `Images.LinkToPreviousFile` | pydailystrips.py:237-239 | linking to a regular file of yesterday's adds only the new link and reads the date from yesterday's base name |
| `Images.LinkToPreviousLink` | pydailystrips.py:229-235 | linking past yesterday's link adds only a link to the same target |
| `Images.LinkToPrevious` | pydailystrips.py:212-239 | the link branch changes no entry but today's path; it records an unchanged-since date exactly when it does not fail, and then today's path is a link; an existing image at today's path is removed even when the link fails |
| `Images.LinkedFileReads` | pydailystrips.py:237 | the new link reads yesterday's file |
| `Images.ChangedImageIsWritten` | pydailystrips.py:256-259 | with different bytes or no yesterday, today's path holds exactly the new bytes, no other entry changes, and `unchanged_since` stays unset |
| `Images.SaveImage` | pydailystrips.py:202-261 | the corrected save block changes no entry but today's path, and it records an unchanged-since date only when yesterday's image holds the same bytes, and then without an error |
| `Images.SaveImageAsWritten` | pydailystrips.py:202-261 | the save block as written agrees with the corrected one whenever today's path is not already a link |
| `Images.AsWrittenOverwritesYesterday` | pydailystrips.py:256-259 | as written, a same-day re-run with new bytes overwrites yesterday's file through today's link; the corrected save leaves it intact |
| `Images.ConsecutiveRunsWithSameBytes` | pydailystrips.py:202-261 | two runs on consecutive days with identical bytes: the first writes the file, the second only links to it, reads the same bytes and reports the first day as unchanged-since |
| `Images.LinkPrevious` | pydailystrips.py:212-239 | the link branch on the filesystem object computes exactly `LinkToPrevious` |
| `Images.SaveTo` | pydailystrips.py:202-261 | the save block on the filesystem object computes exactly the corrected `SaveImage` |
| `Patterns.PatternId` | pydailystrips.py:81 | `re.sub('[^0-9a-z]', '_', title.lower())`: same length; each position is the lower-cased character if that is in `[0-9a-z]`, else `_`; no `/`, `-` or `.` |
| `Patterns.PatternIdIdempotent` | pydailystrips.py:81 | the id of an id is the id itself |
| `Patterns.FirstMatch` | pydailystrips.py:98-102 | the index of the first line in order that the pattern matches; none exactly when no line matches |
| `Patterns.Search` | pydailystrips.py:83-104 | a compile failure gives the "Error parsing regex" error without scanning; otherwise the result is the group of the first matching line; with no match the error is `Could not find "<title>" pattern in HTML` |
| `Patterns.AfterSearch` | pydailystrips.py:97-104 | `search_page` sets only `result` on success and only `error` on failure |
| `Patterns.Rendered` | pydailystrips.py:106-116 | `get_result` is None iff `result` is None; image mode gives `baseurl + unescape(result)`, text mode gives `unescape(result)` |
| `Patterns.DownloadOf` | pydailystrips.py:131-271 | a text pattern, or one with an error or no result, changes neither the filesystem nor the pattern; the filesystem changes only for an eligible pattern, and the URL changes only together with no new error |
| `Patterns.DownloadFails` | pydailystrips.py:151-187 | for an eligible pattern, a request that raises, a status other than 200 and an unknown image format each record their own error message and leave the filesystem, the URL and `unchanged_since` unchanged |
| `Patterns.AfterDownload` | pydailystrips.py:131-271 | `download_to` changes only the pattern's `error`, `url` and `unchanged_since` |
| `Patterns.DownloadSaves` | pydailystrips.py:131-264 | a fetched and recognised image goes through the save block; the URL is `quote(linkdir)/<today's name>` exactly when the save did not fail, and otherwise the save error is recorded |
| `Patterns.Pattern.constructor` | pydailystrips.py:70-81 | a new pattern has an empty base URL and no result, error, URL or unchanged-since |
| `Patterns.Pattern.IsImage` | pydailystrips.py:124-142 | `is_image`; together with no error and a non-empty result it is exactly the condition under which `download_to` goes past its early returns |
| `Patterns.Pattern.GetResult` | pydailystrips.py:106-116 | `get_result` on the object: None iff there is no result; the base URL is prefixed only in image mode |
| `Patterns.Pattern.SearchPage` | pydailystrips.py:83-104 | returns True exactly when `Search` finds a match, and the new fields are `AfterSearch` of the old ones |
| `Patterns.Pattern.DownloadTo` | pydailystrips.py:131-271 | the filesystem and the fields `error`, `url` and `unchanged_since` become exactly those `DownloadOf` gives |
| `Strips.NewStrip` | pydailystrips.py:279-303 | a new strip has exactly one pattern, the image-mode "Main Strip"; its search page is the homepage unless one is given |
| `Strips.WithHomepage` | pydailystrips.py:305-312 | `set_homepage` sets the homepage, and sets the search page only while it is unset |
| `Strips.WithSearchPattern` | pydailystrips.py:314-318 | `set_searchpattern` changes only the main pattern's expression |
| `Strips.WithExtra` | pydailystrips.py:320-325 | `add_extra` appends one new pattern after the existing ones and keeps the main pattern first |
| `Strips.Reason` | pydailystrips.py:491-516 | `invalid_reason` is empty iff the strip is valid; otherwise it names the first missing field in the order name, homepage, searchpattern, and never "Unknown error" |
| `Strips.Finished` | pydailystrips.py:345-357 | after `finish`, a `$homepage` base URL is the homepage, every pattern's base URL is the strip's, and nothing else changes |
| `Strips.FinishedIdempotent` | pydailystrips.py:345-357 | finishing twice is finishing once |
| `Strips.IntermediateUrl` | pydailystrips.py:423-433 | the relative flag wins with `searchpage + found`; otherwise the hostname flag gives `scheme://netloc + found`; with neither flag, `found` unchanged |
| `Strips.ParseUrlOf` | pydailystrips.py:427-429 | `urlparse` of `scheme://host/path` gives the lower-cased scheme and the host |
| `Strips.ParseUrlParts` | pydailystrips.py:427-429 | a scheme, when reported, is the lower-cased text before the URL's first `:`; the netloc never holds `/`, `?` or `#` |
| `Strips.HostnameJoin` | pydailystrips.py:427-429 | with the hostname flag and a search page `scheme://host/path`, the intermediate URL is `scheme://host + found` |
| `Strips.FetchOf` | pydailystrips.py:359-467 | `fetch_html` marks the fetch attempted; a failed search-page fetch records an error and leaves the patterns untouched; without an intermediate pattern, the patterns are searched on the search page's lines; a strip-level error and new pattern values never come together |
| `Strips.OnSearchPage` | pydailystrips.py:389-456 | without an intermediate pattern, every pattern is searched on the search page's lines |
| `Strips.OnIntermediate` | pydailystrips.py:410-433 | with no intermediate link found, an error is recorded and the patterns and intermediate URL stay; with a link, the intermediate URL becomes `IntermediateUrl` of the search page and that link |
| `Strips.IntermediatePage` | pydailystrips.py:435-456 | a successful fetch of the intermediate URL searches every pattern on that page's lines; a failed one records an error and leaves the patterns; nothing else changes |
| `Strips.IntermediateFromFirstMatch` | pydailystrips.py:404-408 | the intermediate link comes from the first line of the search page that the intermediate pattern matches |
| `Strips.IntermediateFetched` | pydailystrips.py:393-456 | with the intermediate link taken from the first matching line, the page fetched next is `IntermediateUrl` of that link; on success the patterns are searched on its lines with no error recorded, on failure an error is recorded and the patterns stay |
| `Strips.SearchAll` | pydailystrips.py:453-456 | every pattern, in order, holds the outcome of its own search on the same lines |
| `Strips.WithMatches` | pydailystrips.py:453-456 | only the patterns change, each holding the outcome of its own search on the lines |
| `Strips.FirstSince` | pydailystrips.py:482-489 | the first `unchanged_since` that is set, in list order; none iff no pattern has one |
| `Strips.Strip.constructor` | pydailystrips.py:279-303 | a new strip object has the view `NewStrip` and a fresh main pattern first |
| `Strips.Strip.SetHomepage` | pydailystrips.py:305-312 | the object's new view is `WithHomepage` of the old one |
| `Strips.Strip.SetSearchpattern` | pydailystrips.py:314-318 | the object's new view is `WithSearchPattern` of the old one |
| `Strips.Strip.AddExtra` | pydailystrips.py:320-325 | the pattern list grows by one fresh pattern at the end; the new view is `WithExtra` of the old one |
| `Strips.Strip.Finish` | pydailystrips.py:345-357 | the object's new view is `Finished` of the old one |
| `Strips.Strip.SetBaseurls` | pydailystrips.py:356-357 | the loop gives every pattern object the same base URL and changes nothing else |
| `Strips.Strip.FetchHtml` | pydailystrips.py:359-467 | the object's new view is `FetchOf` of the old one |
| `Strips.Strip.SearchIntermediate` | pydailystrips.py:404-408 | the loop sets `found_intermediate` from the first matching line, and keeps it when no line matches |
| `Strips.Strip.SearchPatterns` | pydailystrips.py:453-456 | the loop runs `search_page` on every pattern object in order; the new view is `WithMatches` of the old one |
| `Strips.Strip.ReadSearchPage` | pydailystrips.py:389-456 | the object's new view is `OnSearchPage` of the old one |
| `Strips.Strip.ReadIntermediate` | pydailystrips.py:410-433 | the object's new view is `OnIntermediate` of the old one |
| `Strips.Strip.ReadIntermediatePage` | pydailystrips.py:435-456 | the object's new view is `IntermediatePage` of the old one |
| `Strips.Strip.Download` | pydailystrips.py:469-489 | every pattern becomes what its `download_to` gives, in list order, each starting from the filesystem the previous one left; an unset `unchanged_since` on the strip becomes the first value its patterns report, and a value already set is kept |
| `Strips.DownloadEach` | pydailystrips.py:482-489 | the loop runs `download_to` on each pattern in order: each pattern's new fields and the filesystem after it are `DownloadOf` on the filesystem the previous pattern left, and the result is the first `unchanged_since` they report |
| `Loading.IdOf` | pydailystrips.py:652 | strip, group and member ids are right-trimmed and lower-cased |
| `Loading.Step` | pydailystrips.py:639-727 | one line keeps the loader state well formed (keys name their values, the main pattern stays first, at most one stanza is open, no open id is registered yet) and never drops or replaces a registered strip or group |
| `Loading.OuterLine` | pydailystrips.py:649-667 | a line outside a stanza, accepted or rejected, never breaks the loader invariants: registered ids stay unique, the group order lists each group once, and a newly opened id is not yet registered |
| `Loading.StripLine` | pydailystrips.py:668-715 | a line inside a strip stanza keeps the loader invariants, and it keeps registered strips valid, finished and keyed by lower-case ids |
| `Loading.EndStrip` | pydailystrips.py:669-679 | registering the finished strip at `end` keeps every registered strip valid, finished and keyed by its own lower-case id |
| `Loading.StripWords` | pydailystrips.py:681-715 | an accepted flag or option keeps the strip's id and its "Main Strip" pattern first |
| `Loading.StripFlag` | pydailystrips.py:681-689 | an accepted lone word changes nothing but the `onhold`, `intermediate_relative` and `intermediate_needs_hostname` flags |
| `Loading.StripOption` | pydailystrips.py:691-715 | an accepted option keeps the strip's id and its "Main Strip" pattern first |
| `Loading.GroupLine` | pydailystrips.py:716-725 | a line inside a group stanza keeps the loader invariants, and registered groups hold lower-case member ids and no resolved strips yet |
| `Loading.Scan` | pydailystrips.py:639-727 | every state reached is well formed: registered strips are valid and finished under lower-case ids, and no group is resolved yet |
| `Loading.ScanErrorStays` | pydailystrips.py:620-628 | the first error raised is the error of the whole scan; no later line is looked at |
| `Loading.ScanSkipped` | pydailystrips.py:641-645 | a blank or comment line leaves the state unchanged |
| `Loading.ScanGrows` | pydailystrips.py:639-727 | what the first lines register is still there, unchanged, after any later line |
| `Loading.ScanErrorLoads` | pydailystrips.py:620-628 | an error on an early line is the error of the whole load |
| `Loading.Members` | pydailystrips.py:575-585 | `Group.finish` lists the strips its ids name, in the same order and with duplicates; it fails on the first unknown id |
| `Loading.ResolveGroups` | pydailystrips.py:738-739 | resolving every group keeps the same group keys |
| `Loading.ResolveGroupsOk` | pydailystrips.py:738-739 | resolution succeeds iff every group's member ids all name registered strips |
| `Loading.ResolveGroupsValue` | pydailystrips.py:575-585 | after resolution, each group holds the strips its ids name, in order |
| `Loading.ResolveGroupsError` | pydailystrips.py:581-585 | a failed resolution names the first failing group and that group's first unknown member |
| `Loading.ResolveGroupsErrorStays` | pydailystrips.py:738-739 | the first group that fails decides the error |
| `Loading.Load` | pydailystrips.py:630-742 | a successful load scanned every line with no stanza left open, and it keeps the scanned strips, with only the groups resolved |
| `Loading.LoadedCollection` | pydailystrips.py:630-742 | a successful load holds only valid, finished strips under their lower-case ids, and groups that hold their member strips in file order, duplicates included |
| `Loading.UnknownMemberIff` | pydailystrips.py:575-585 | resolution fails iff some group names a strip that is not registered |
| `Loading.UnknownMemberFails` | pydailystrips.py:575-585 | a file with no stanza left open fails only because of an unknown member, and it fails whenever there is one |
| `Loading.OpenStanzaFails` | pydailystrips.py:730-733 | a strip or group still open at the end of input fails at the last line number, without the full line |
| `Loading.ClosedStripIsLoaded` | pydailystrips.py:669-679 | a strip stanza closed by `end` is, after a successful load, registered under its id as the finished strip: no strip is silently dropped |
| `Loading.InvalidStripFails` | pydailystrips.py:669-679 | `end` on an invalid strip fails the load at that line, without the full line, naming the strip and its first missing field |
| `Loading.ClosedGroupIsLoaded` | pydailystrips.py:716-725 | a group stanza closed by `end` is, after a successful load, registered under its id with its member ids in file order and the strips they name as members |
| `Loading.ErrorText` | pydailystrips.py:620-628 | `load_error`'s message starts with the file name, the line number and the error; for an unknown member it names the group |
| `Loading.ErrorTextFullLine` | pydailystrips.py:620-628 | the message with the full line is the message without it followed by ` - Full line: ` and the line |
| `Loading.OuterLineAccepted` | pydailystrips.py:649-667 | outside a stanza, a line is accepted iff it is skipped, or is `strip`/`group` with an id not yet registered |
| `Loading.StripOptionAccepted` | pydailystrips.py:691-715 | an option with a value is accepted iff its keyword is known and, for `extra_txt`/`extra_img`, the value holds a `\|` |
| `Loading.StripLineAccepted` | pydailystrips.py:668-715 | inside a strip stanza, a line is accepted iff it is `end` for a valid strip, a lone flag, or an accepted option |
| `Loading.GroupLineAccepted` | pydailystrips.py:716-725 | inside a group stanza, a line is accepted iff it is skipped or is one word |
| `Loading.CommentLineIgnored` | pydailystrips.py:641-645 | a comment, however indented, changes nothing |
| `Loading.EndIgnoresTrailingWords` | pydailystrips.py:669 | a line whose first word is `end` closes the strip, whatever follows it |
| `Loading.SearchPatternKeptAsWritten` | pydailystrips.py:691-700 | the `searchpattern` value is kept untrimmed, while `name` is right-trimmed |
| `Loading.KeywordLine` | pydailystrips.py:641-646 | a plain `keyword value` line is processed to itself and splits into the keyword and the value |
| `Loading.FinishedIsRegistered` | pydailystrips.py:670-672 | finishing a valid strip with a lower-case id gives a strip in the registered form |
| `Collections.Group.constructor` | pydailystrips.py:564-567 | a new group has its id and no member ids or strips |
| `Collections.Group.AddStrip` | pydailystrips.py:569-573 | `add_strip` appends the id and leaves the resolved strips alone |
| `Collections.Group.Len` | pydailystrips.py:596-597 | `len(group)` is the number of member ids, duplicates included |
| `Collections.Group.Finish` | pydailystrips.py:575-585 | the loop appends the strip for each id in order, and succeeds iff every id is registered; otherwise it fails naming the group and the first unknown id |
| `Collections.ApplyOption` | pydailystrips.py:691-715 | applying a `key value` line to the strip object gives the view `StripOption` computes, or exactly its error |
| `Collections.ApplyStripWords` | pydailystrips.py:681-715 | a flag or option line applied to the strip object gives the view `StripWords` computes, or exactly its error |
| `Collections.ApplyFlag` | pydailystrips.py:681-689 | a lone word applied to the strip object sets its flag iff `StripFlag` accepts it |
| `Collections.ApplyExtra` | pydailystrips.py:705-713 | `extra_txt`/`extra_img` appends the pattern, or fails with "Incomplete extra_txt stanza" |
| `Collections.Collection.constructor` | pydailystrips.py:604-612 | the dictionaries start empty, which is the loader's start state |
| `Collections.Collection.LoadFromLines` | pydailystrips.py:630-742 | the loop over the lines succeeds iff `Load` does; the collection then equals `Load`'s result, and otherwise the error is `Load`'s |
| `Collections.Collection.ScanLines` | pydailystrips.py:639-727 | after the loop, the collection and the open strip or group are the state `Scan` reaches, or the error is `Scan`'s |
| `Collections.Collection.ReadOuterLine` | pydailystrips.py:649-667 | a line outside a stanza leaves the collection and the new open stanza in the state `Scan` reaches after it, or fails with `Scan`'s error |
| `Collections.Collection.ReadStripLine` | pydailystrips.py:668-715 | a line inside a strip stanza leaves the collection and the strip object in the state `Scan` reaches after it, or fails with `Scan`'s error |
| `Collections.Collection.ReadGroupLine` | pydailystrips.py:716-725 | a line inside a group stanza leaves the collection and the group object in the state `Scan` reaches after it, or fails with `Scan`'s error |
| `Collections.Collection.OuterLineOf` | pydailystrips.py:649-667 | the object step outside a stanza agrees with `OuterLine` |
| `Collections.Collection.StripLineOf` | pydailystrips.py:668-715 | the object step inside a strip stanza agrees with `StripLine` |
| `Collections.Collection.EndStripOf` | pydailystrips.py:669-679 | `end` registers the finished strip's value iff it is valid, agreeing with `EndStrip` |
| `Collections.Collection.GroupLineOf` | pydailystrips.py:716-725 | the object step inside a group stanza agrees with `GroupLine`; `end` registers the group last in dictionary order |
| `Collections.Collection.FinishGroups` | pydailystrips.py:738-739 | `finish` on every group in dictionary order agrees with `ResolveGroups` |
| `Collections.Collection.GetStrip` | pydailystrips.py:744-748 | the strip registered under the id; None exactly where Python raises `KeyError` |

## Left out

- HTTP (`requests.get` for pages and images) is not modelled. Fetches are the parameters `PageFetch` and `Web.get`, so headers, TLS options, status reasons and transport errors are inputs.
- Python's `re` is not modelled. Compilation and `search` are the oracle `RegexEngine`. A pattern with no group named `result` makes `match.group('result')` raise `IndexError`, and that case is not modelled.
- `html.unescape` and `urllib.parse.quote` are not modelled. They are function parameters of `Web`.
- `Strips.ParseUrlOf`: `urlparse` is modelled only as a scheme and netloc split. Its validation errors, port handling and IPv6 brackets are left out.
- PIL format sniffing is the parameter `Web.sniff`.
- The mtime fallback for a link target without a date records only the path whose mtime would be read (`SinceMtime`). File times are not modelled.
- `datetime.today()` is not modelled. The run date is a parameter.
- Directories are not modelled: the `mkdir` in `Strip.download`, permissions, and I/O errors other than EEXIST, ENOENT and ELOOP.
- The run driver is not modelled: `process_strips`, `process_strip_id` and `process_group_id` (`pydailystrips.py:771-866`). This covers the Jinja2 rendering, CSS copying, the digest write, the `index.html` link swap and the next-day placeholder splice, which are templating and filesystem glue. The driver's per-strip sequence of `fetch_html` then `download` is modelled only through those two members.
- Printing is not modelled: `print_strip_info`, `print_group_info`, `list_*`, `get_error`, `unchanged_since_human`/`_link`, the verbose output and the command-line `__main__` block.
- Concurrent runs against one directory are not modelled; the code does not handle them.
- Object sharing after loading is not modelled. The collection and resolved groups keep each strip's value from the end of its stanza. So a later `fetch_html` on the strip object is not visible through `strips` or a group's `strips`.
- `Text.Lower`: lower-cases ASCII letters only. Python's `str.lower` also folds non-ASCII letters; for example KELVIN SIGN becomes `k`, and some characters lower-case to two. Ids containing such characters differ from Python's.
- `Text.IsSpace` is the list of characters Python's `str.isspace` accepts; it is used by `split`, `lstrip` and `rstrip`.
- `Text.ParseInt`: accepts optional whitespace, an optional `+` and ASCII digits. Python's `int` also accepts underscores between digits and non-ASCII digits, so such link targets fall back to the mtime in the model.
- `Collections.Collection.LoadFromLines`: requires the empty collection that the constructor makes, its only caller.
- `Patterns.Pattern.DownloadTo`: requires `unchanged_since` to be unset, which is true on the one download per run. A second download on the same object would parse a date object as a file name, and that is not modelled.
- `Strips.Strip.Download`: requires a name, which every registered strip has.
- `Images.SaveTo`, `Patterns.DownloadOf`, `Patterns.Pattern.DownloadTo`, `Strips.Strip.Download`, `Strips.DownloadEach`: these run the corrected save block `Images.SaveImage` (the corrected half of the finding below), not `Images.SaveImageAsWritten`. The two differ only when today's path is already a link, as on a second run on the same day.
- The loader's "Something went super wrong" branch cannot happen, because the open stanza is one `Cursor` value.

## Findings

| source | as written | input that shows it | evidently intended | confidence | as-written member | corrected member |
|---|---|---|---|---|---|---|
| pydailystrips.py:256-259 | new bytes are written with `open(img_filename, 'wb')`, which follows a link already at today's path | a second run on the same day, after the first run linked today's name to yesterday's identical file, fetches different bytes | remove a link at today's path before writing, so yesterday's archived image keeps its bytes | not executed | `Images.AsWrittenOverwritesYesterday` | `Images.ChangedImageIsWritten` |
