/** The configuration file as `Collection.load_from_filename` reads it: a
    line-by-line state machine that is outside any stanza, inside a `strip`
    stanza or inside a `group` stanza, followed by the check that no stanza
    is left open and the resolution of every group's members. Every error
    `load_error` raises is a value here. */
module Loading {
  import opened Wrappers
  import opened Text
  import opened Patterns
  import opened Strips

  /** A group: its id, the member ids in file order, and the member strips once
      `Group.finish` has looked them up. */
  datatype GroupView = GroupView(groupId: string, stripIds: seq<string>, members: seq<StripView>)

  /** The locals `cur_strip` and `cur_group`: at most one of them is set. */
  datatype Cursor = Outer | InStrip(strip: StripView) | InGroup(group: GroupView)

  /** The loader's state: the registered strips and groups, the order in which
      the groups were registered (the iteration order of the `groups` dict),
      and the open stanza. */
  datatype Loader = Loader(strips: map<string, StripView>, groups: map<string, GroupView>, order: seq<string>, cursor: Cursor)

  /** What loading raises: `load_error` on a line (with the full line or
      without it), or `Group.finish` on a member that names no strip. */
  datatype LoadError =
    | LineError(idx: nat, line: Option<string>, message: string)
    | UnknownMember(groupId: string, stripId: string)

  /** The exception's message: a line error starts with the file name, the
      line number and the message, and the full line, when given, is appended
      to that. */
  function ErrorText(filename: string, e: LoadError): (t: string)
    ensures e.LineError? ==> filename + ": line " + NatToDecimal(e.idx) + ": " + e.message <= t
    ensures e.UnknownMember? ==> "Group \"" + e.groupId + "\"" <= t
  {
    match e
    case LineError(idx, None, message) => filename + ": line " + NatToDecimal(idx) + ": " + message
    case LineError(idx, Some(line), message) =>
      filename + ": line " + NatToDecimal(idx) + ": " + message + " - Full line: " + line
    case UnknownMember(groupId, stripId) => "Group \"" + groupId + "\" - strip \"" + stripId + "\" is unknown"
  }

  /** The message with the full line is the message without it, followed by
      the full line. */
  lemma ErrorTextFullLine(filename: string, idx: nat, line: string, message: string)
    ensures ErrorText(filename, LineError(idx, Some(line), message))
            == ErrorText(filename, LineError(idx, None, message)) + " - Full line: " + line
  {
  }

  const Start := Loader(map[], map[], [], Outer)

  /** Nothing registered is lost or replaced: every strip and group of `st`
      is still in `st'` with the same value, and the group order only grows. */
  predicate Grows(st: Loader, st': Loader) {
    && (forall k :: k in st.strips ==> k in st'.strips && st'.strips[k] == st.strips[k])
    && (forall k :: k in st.groups ==> k in st'.groups && st'.groups[k] == st.groups[k])
    && st.order <= st'.order
  }

  /** The structure every reachable state has: keys name their values, strips
      start with the main pattern, the group order lists each group once, and
      the open stanza's id is not registered yet. */
  predicate WellFormed(st: Loader) {
    && (forall k :: k in st.strips ==> st.strips[k].stripId == k && MainPatternFirst(st.strips[k]))
    && (forall k :: k in st.groups ==> st.groups[k].groupId == k)
    && (forall i :: 0 <= i < |st.order| ==> st.order[i] in st.groups)
    && (forall k :: k in st.groups ==> k in st.order)
    && (forall i, j :: 0 <= i < j < |st.order| ==> st.order[i] != st.order[j])
    && (st.cursor.InStrip? ==> MainPatternFirst(st.cursor.strip) && st.cursor.strip.stripId !in st.strips)
    && (st.cursor.InGroup? ==> st.cursor.group.groupId !in st.groups)
  }

  /** A raw line as the loader looks at it: `line.lstrip().rstrip("\r\n")`. */
  function Processed(raw: string): string {
    RStripNewlines(LStrip(raw))
  }

  /** Empty lines and comments. */
  predicate Skipped(line: string) {
    line == [] || line[0] == '#'
  }

  /** `strip.lower()` of a stanza id, as the loader normalises ids. */
  function IdOf(word: string): (id: string)
    ensures IsLowerCase(id)
  {
    Lower(RStrip(word))
  }

  predicate IsLowerCase(s: string) {
    forall i :: 0 <= i < |s| ==> !('A' <= s[i] <= 'Z')
  }

  /** A strip as it is once registered: valid, finished (every pattern carries
      the strip's base URL and the `$homepage` sentinel is resolved) and keyed
      by a lower-case id. */
  predicate Registered(s: StripView) {
    && MainPatternFirst(s) && IsValid(s) && IsLowerCase(s.stripId)
    && (forall i :: 0 <= i < |s.patterns| ==> s.patterns[i].baseurl == s.baseurl)
    && (s.baseurl == HomepageSentinel ==> s.homepage == Some(HomepageSentinel))
  }

  predicate AllLowerCase(ids: seq<string>) {
    forall i :: 0 <= i < |ids| ==> IsLowerCase(ids[i])
  }

  /** The facts about the contents that scanning keeps: registered strips as
      above, lower-case group and member ids, and no group resolved yet. */
  predicate Settled(st: Loader) {
    && (forall k :: k in st.strips ==> Registered(st.strips[k]))
    && (forall k :: k in st.groups ==> IsLowerCase(k) && AllLowerCase(st.groups[k].stripIds) && st.groups[k].members == [])
    && (st.cursor.InStrip? ==> IsLowerCase(st.cursor.strip.stripId))
    && (st.cursor.InGroup? ==> IsLowerCase(st.cursor.group.groupId) && AllLowerCase(st.cursor.group.stripIds)
                               && st.cursor.group.members == [])
  }

  /** Finishing a valid strip registers it as `Registered` says. */
  lemma FinishedIsRegistered(s: StripView)
    requires MainPatternFirst(s) && IsValid(s)
    ensures IsLowerCase(s.stripId) ==> Registered(Finished(s))
  {
    var t := Finished(s);
    assert t.patterns[0] == s.patterns[0].(baseurl := t.baseurl);
  }

  /** One line of the file, numbered `idx` from 1. */
  function Step(st: Loader, idx: nat, raw: string): (r: Result<Loader, LoadError>)
    requires WellFormed(st)
    ensures r.Ok? ==> WellFormed(r.value) && Grows(st, r.value)
    ensures Settled(st) && r.Ok? ==> Settled(r.value)
  {
    var line := Processed(raw);
    if Skipped(line) then Ok(st)
    else
      var parts := Split1(line);
      if parts == [] then Ok(st)
      else match st.cursor
        case Outer => OuterLine(st, idx, line, parts)
        case InStrip(s) => StripLine(st, s, idx, line, parts)
        case InGroup(g) => GroupLine(st, g, idx, line, parts)
  }

  /** A line outside any stanza opens a `strip` or a `group` stanza whose id is
      not registered yet. */
  function OuterLine(st: Loader, idx: nat, line: string, parts: seq<string>): (r: Result<Loader, LoadError>)
    requires WellFormed(st) && st.cursor.Outer? && 1 <= |parts| <= 2
    ensures r.Ok? ==> WellFormed(r.value) && Grows(st, r.value)
    ensures Settled(st) && r.Ok? ==> Settled(r.value)
  {
    if parts[0] == "strip" then
      if |parts| == 2 then
        var id := IdOf(parts[1]);
        if id in st.strips then Err(LineError(idx, Some(line), "Duplicate strip \"" + id + "\" found"))
        else Ok(st.(cursor := InStrip(NewStrip(id, None, None, None, None, None, "", false))))
      else Err(LineError(idx, Some(line), "Found \"strip\" without ID"))
    else if parts[0] == "group" then
      if |parts| == 2 then
        var id := IdOf(parts[1]);
        if id in st.groups then Err(LineError(idx, Some(line), "Duplicate group \"" + id + "\" found"))
        else Ok(st.(cursor := InGroup(GroupView(id, [], []))))
      else Err(LineError(idx, Some(line), "Found \"group\" without ID"))
    else Err(LineError(idx, Some(line), "Expecting \"strip\" or \"group\""))
  }

  /** A line inside a strip stanza: `end` (whatever follows it) registers the
      finished strip if it is valid, a lone word is a flag, a word and a value
      set an option. */
  function StripLine(st: Loader, s: StripView, idx: nat, line: string, parts: seq<string>): (r: Result<Loader, LoadError>)
    requires WellFormed(st) && st.cursor == InStrip(s) && 1 <= |parts| <= 2
    ensures r.Ok? ==> WellFormed(r.value) && Grows(st, r.value)
    ensures Settled(st) && r.Ok? ==> Settled(r.value)
  {
    if parts[0] == "end" then EndStrip(st, s, idx)
    else
      match StripWords(s, parts)
      case Ok(t) => Ok(st.(cursor := InStrip(t)))
      case Err(message) => Err(LineError(idx, Some(line), message))
  }

  /** A strip-stanza line other than `end`: a lone flag or an option with its
      value, or the message of the error it raises. */
  function StripWords(s: StripView, parts: seq<string>): (r: Result<StripView, string>)
    requires MainPatternFirst(s) && 1 <= |parts| <= 2
    ensures r.Ok? ==> MainPatternFirst(r.value) && r.value.stripId == s.stripId
  {
    if |parts| == 1 then
      match StripFlag(s, parts[0])
      case Some(t) => Ok(t)
      case None => Err("Missing option data")
    else StripOption(s, parts[0], parts[1])
  }

  /** `end` in a strip stanza: a valid strip is finished and registered under
      its id; an invalid one fails with the first missing field. */
  function EndStrip(st: Loader, s: StripView, idx: nat): (r: Result<Loader, LoadError>)
    requires WellFormed(st) && st.cursor == InStrip(s)
    ensures r.Ok? ==> WellFormed(r.value) && Grows(st, r.value)
    ensures Settled(st) && r.Ok? ==> Settled(r.value)
  {
    if IsValid(s) then
      FinishedIsRegistered(s);
      Ok(Loader(st.strips[s.stripId := Finished(s)], st.groups, st.order, Outer))
    else Err(LineError(idx, None, "Invalid strip \"" + s.stripId + "\": " + Reason(s)))
  }

  /** A lone word in a strip stanza: one of the three flags. */
  function StripFlag(s: StripView, word: string): (r: Option<StripView>)
    ensures r.Some? ==> r.value.(onhold := s.onhold, intermediateRelative := s.intermediateRelative,
                                 intermediateNeedsHostname := s.intermediateNeedsHostname) == s
  {
    if word == "onhold" then Some(s.(onhold := true))
    else if word == "intermediate_relative" then Some(s.(intermediateRelative := true))
    else if word == "intermediate_needs_hostname" then Some(s.(intermediateNeedsHostname := true))
    else None
  }

  /** An option with a value. The single values are right-trimmed, except the
      main search pattern, which is kept as written; the value of an extra
      pattern is split at its first `|` without trimming. */
  function StripOption(s: StripView, key: string, value: string): (r: Result<StripView, string>)
    requires MainPatternFirst(s)
    ensures r.Ok? ==> MainPatternFirst(r.value) && r.value.stripId == s.stripId
  {
    if key == "name" then Ok(s.(name := Some(RStrip(value))))
    else if key == "artist" then Ok(s.(artist := Some(RStrip(value))))
    else if key == "homepage" then Ok(WithHomepage(s, RStrip(value)))
    else if key == "searchpage" then Ok(s.(searchpage := Some(RStrip(value))))
    else if key == "searchpattern" then Ok(WithSearchPattern(s, value))
    else if key == "intermediate_pattern" then Ok(s.(intermediatePattern := Some(RStrip(value))))
    else if key == "baseurl" then Ok(s.(baseurl := RStrip(value)))
    else if key == "extra_txt" || key == "extra_img" then
      var mode := if key == "extra_txt" then TextMode else ImageMode;
      var fields := SplitOnce(value, '|');
      if |fields| != 2 then Err("Incomplete extra_txt stanza")
      else Ok(WithExtra(s, fields[0], fields[1], mode))
    else Err("Unknown option \"" + key + "\"")
  }

  /** A line inside a group stanza: one word, either `end` or a member id. */
  function GroupLine(st: Loader, g: GroupView, idx: nat, line: string, parts: seq<string>): (r: Result<Loader, LoadError>)
    requires WellFormed(st) && st.cursor == InGroup(g) && 1 <= |parts| <= 2
    ensures r.Ok? ==> WellFormed(r.value) && Grows(st, r.value)
    ensures Settled(st) && r.Ok? ==> Settled(r.value)
  {
    if |parts| > 1 then Err(LineError(idx, Some(line), "Unknown group line"))
    else if parts[0] == "end" then Ok(Loader(st.strips, st.groups[g.groupId := g], st.order + [g.groupId], Outer))
    else Ok(st.(cursor := InGroup(g.(stripIds := g.stripIds + [IdOf(parts[0])]))))
  }

  /** The state after the first `n` lines, or the first error among them. */
  function Scan(lines: seq<string>, n: nat): (r: Result<Loader, LoadError>)
    requires n <= |lines|
    ensures r.Ok? ==> WellFormed(r.value)
    ensures r.Ok? ==> Settled(r.value)
    decreases n, 2
  {
    if n == 0 then Ok(Start) else ScanLine(lines, n)
  }

  /** Line `n`: an error on an earlier line stays the error of the scan. */
  function ScanLine(lines: seq<string>, n: nat): (r: Result<Loader, LoadError>)
    requires 0 < n <= |lines|
    ensures r.Ok? ==> WellFormed(r.value)
    ensures r.Ok? ==> Settled(r.value)
    decreases n, 1
  {
    if Scan(lines, n - 1).Err? then Scan(lines, n - 1) else StepLine(lines, n)
  }

  /** Line `n` on the state the lines before it reach. */
  function StepLine(lines: seq<string>, n: nat): (r: Result<Loader, LoadError>)
    requires 0 < n <= |lines| && Scan(lines, n - 1).Ok?
    ensures r.Ok? ==> WellFormed(r.value)
    ensures r.Ok? ==> Settled(r.value)
    decreases n, 0
  {
    Step(Scan(lines, n - 1).value, n, lines[n - 1])
  }

  /** `Group.finish`: the strips the ids name, in the same order, or the first
      id that names none. */
  function Members<T>(strips: map<string, T>, ids: seq<string>): (r: Result<seq<T>, string>)
    ensures r.Ok? <==> forall i :: 0 <= i < |ids| ==> ids[i] in strips
    ensures r.Ok? ==> |r.value| == |ids| && forall i :: 0 <= i < |ids| ==> r.value[i] == strips[ids[i]]
    ensures r.Err? ==> exists k :: (0 <= k < |ids| && ids[k] == r.error && ids[k] !in strips
                                    && forall j :: 0 <= j < k ==> ids[j] in strips)
  {
    if ids == [] then Ok([])
    else
      var last := ids[|ids| - 1];
      match Members(strips, ids[..|ids| - 1])
      case Err(id) => Err(id)
      case Ok(ms) => if last in strips then Ok(ms + [strips[last]]) else Err(last)
  }

  /** The scan of one line more. */
  lemma ScanNext(lines: seq<string>, n: nat)
    requires n < |lines|
    ensures Scan(lines, n + 1) == match Scan(lines, n)
      case Err(e) => Err(e)
      case Ok(st) => Step(st, n + 1, lines[n])
  {
    assert Scan(lines, n + 1) == ScanLine(lines, n + 1);
    if Scan(lines, n).Ok? {
      assert ScanLine(lines, n + 1) == StepLine(lines, n + 1);
    }
  }

  /** A line that is not skipped, outside any stanza. */
  lemma ScanOuterLine(lines: seq<string>, i: nat, st: Loader)
    requires i < |lines| && Scan(lines, i) == Ok(st) && st.cursor.Outer? && !Skipped(Processed(lines[i]))
    ensures Split1(Processed(lines[i])) != []
    ensures Scan(lines, i + 1) == OuterLine(st, i + 1, Processed(lines[i]), Split1(Processed(lines[i])))
  {
    ScanNext(lines, i);
    StepOf(st, i + 1, lines[i]);
  }

  /** A line that is not skipped, inside the stanza of strip `s`. */
  lemma ScanStripLine(lines: seq<string>, i: nat, st: Loader, s: StripView)
    requires i < |lines| && Scan(lines, i) == Ok(st) && st.cursor == InStrip(s) && !Skipped(Processed(lines[i]))
    ensures Split1(Processed(lines[i])) != []
    ensures Scan(lines, i + 1) == StripLine(st, s, i + 1, Processed(lines[i]), Split1(Processed(lines[i])))
  {
    ScanNext(lines, i);
    StepOf(st, i + 1, lines[i]);
  }

  /** A line that is not skipped, inside the stanza of group `g`. */
  lemma ScanGroupLine(lines: seq<string>, i: nat, st: Loader, g: GroupView)
    requires i < |lines| && Scan(lines, i) == Ok(st) && st.cursor == InGroup(g) && !Skipped(Processed(lines[i]))
    ensures Split1(Processed(lines[i])) != []
    ensures Scan(lines, i + 1) == GroupLine(st, g, i + 1, Processed(lines[i]), Split1(Processed(lines[i])))
  {
    ScanNext(lines, i);
    StepOf(st, i + 1, lines[i]);
  }

  /** An empty line or a comment leaves the scan where it was. */
  lemma ScanSkipped(lines: seq<string>, i: nat, st: Loader)
    requires i < |lines| && Scan(lines, i) == Ok(st) && Skipped(Processed(lines[i]))
    ensures Scan(lines, i + 1) == Ok(st)
  {
    ScanNext(lines, i);
  }

  /** An error on a line is the error of the whole scan. */
  lemma {:induction false} ScanErrorStays(lines: seq<string>, n: nat, m: nat)
    requires n <= m <= |lines| && Scan(lines, n).Err?
    ensures Scan(lines, m) == Scan(lines, n)
  {
    if m > n {
      ScanErrorStays(lines, n, m - 1);
    }
  }

  /** `Group.finish` on every group listed in `order`, in that order. */
  function ResolveGroups(strips: map<string, StripView>, groups: map<string, GroupView>, order: seq<string>): (r: Result<map<string, GroupView>, LoadError>)
    requires forall i :: 0 <= i < |order| ==> order[i] in groups
    ensures r.Ok? ==> r.value.Keys == groups.Keys
  {
    if order == [] then Ok(groups)
    else
      var k := order[|order| - 1];
      var g := groups[k];
      match ResolveGroups(strips, groups, order[..|order| - 1])
      case Err(e) => Err(e)
      case Ok(m) =>
        match Members(strips, g.stripIds)
        case Err(id) => Err(UnknownMember(g.groupId, id))
        case Ok(ms) => Ok(m[k := g.(members := g.members + ms)])
  }

  /** `load_from_filename` on the lines of a file: scan every line, fail on a
      stanza left open (at the number of the last line), then resolve the
      groups. */
  function Load(lines: seq<string>): (r: Result<Loader, LoadError>)
    ensures r.Ok? ==> Scan(lines, |lines|).Ok? && Scan(lines, |lines|).value.cursor.Outer?
    ensures r.Ok? ==> r.value == Scan(lines, |lines|).value.(groups := r.value.groups)
  {
    match Scan(lines, |lines|)
    case Err(e) => Err(e)
    case Ok(st) =>
      match st.cursor
      case InStrip(s) => Err(LineError(|lines|, None, "Strip \"" + s.stripId + "\" was never closed"))
      case InGroup(g) => Err(LineError(|lines|, None, "Group \"" + g.groupId + "\" was never closed"))
      case Outer =>
        match ResolveGroups(st.strips, st.groups, st.order)
        case Err(e) => Err(e)
        case Ok(gs) => Ok(st.(groups := gs))
  }

  /** Resolving one group more: the next listed group's members, or its error. */
  lemma ResolveGroupsNext(strips: map<string, StripView>, groups: map<string, GroupView>, order: seq<string>, n: nat)
    requires forall i :: 0 <= i < |order| ==> order[i] in groups
    requires n < |order| && ResolveGroups(strips, groups, order[..n]).Ok?
    ensures var g := groups[order[n]];
      ResolveGroups(strips, groups, order[..n + 1]) ==
        match Members(strips, g.stripIds)
        case Err(id) => Err(UnknownMember(g.groupId, id))
        case Ok(ms) => Ok(ResolveGroups(strips, groups, order[..n]).value[order[n] := g.(members := g.members + ms)])
  {
    assert order[..n + 1][..n] == order[..n];
  }

  /** The first group that fails decides the error of the whole resolution. */
  lemma {:induction false} ResolveGroupsErrorStays(strips: map<string, StripView>, groups: map<string, GroupView>, order: seq<string>, n: nat)
    requires forall i :: 0 <= i < |order| ==> order[i] in groups
    requires n <= |order| && ResolveGroups(strips, groups, order[..n]).Err?
    ensures ResolveGroups(strips, groups, order) == ResolveGroups(strips, groups, order[..n])
  {
    if n < |order| {
      var front := order[..|order| - 1];
      assert front[..n] == order[..n];
      ResolveGroupsErrorStays(strips, groups, front, n);
    } else {
      assert order[..n] == order;
    }
  }

  /** Resolving the groups succeeds exactly when every listed group's member
      ids all name strips. */
  lemma {:induction false} ResolveGroupsOk(strips: map<string, StripView>, groups: map<string, GroupView>, order: seq<string>)
    requires forall i :: 0 <= i < |order| ==> order[i] in groups
    ensures ResolveGroups(strips, groups, order).Ok? <==>
              forall i :: 0 <= i < |order| ==> Members(strips, groups[order[i]].stripIds).Ok?
  {
    if order != [] {
      var front := order[..|order| - 1];
      ResolveGroupsOk(strips, groups, front);
      assert forall i :: 0 <= i < |front| ==> front[i] == order[i];
    }
  }

  /** After a successful resolution each listed group holds its member strips
      in order, and the groups not listed are untouched. */
  lemma {:induction false} ResolveGroupsValue(strips: map<string, StripView>, groups: map<string, GroupView>, order: seq<string>)
    requires forall i :: 0 <= i < |order| ==> order[i] in groups
    requires forall i, j :: 0 <= i < j < |order| ==> order[i] != order[j]
    requires ResolveGroups(strips, groups, order).Ok?
    ensures forall i :: 0 <= i < |order| ==> Members(strips, groups[order[i]].stripIds).Ok?
    ensures forall k :: k in groups ==>
              (ResolveGroups(strips, groups, order).value[k] ==
               if k in order then groups[k].(members := groups[k].members + Members(strips, groups[k].stripIds).value)
               else groups[k])
  {
    if order != [] {
      var front := order[..|order| - 1];
      var k := order[|order| - 1];
      ResolveGroupsOk(strips, groups, order);
      ResolveGroupsValue(strips, groups, front);
      assert forall x :: x in order <==> x in front || x == k;
      assert k !in front;
    }
  }

  /** A failed resolution names the first listed group with an unknown member,
      and the first such member. */
  lemma {:induction false} ResolveGroupsError(strips: map<string, StripView>, groups: map<string, GroupView>, order: seq<string>)
    requires forall i :: 0 <= i < |order| ==> order[i] in groups
    requires ResolveGroups(strips, groups, order).Err?
    ensures exists i :: (0 <= i < |order|
              && (forall j :: 0 <= j < i ==> Members(strips, groups[order[j]].stripIds).Ok?)
              && Members(strips, groups[order[i]].stripIds).Err?
              && ResolveGroups(strips, groups, order).error
                   == UnknownMember(groups[order[i]].groupId, Members(strips, groups[order[i]].stripIds).error))
  {
    var front := order[..|order| - 1];
    if ResolveGroups(strips, groups, front).Err? {
      ResolveGroupsError(strips, groups, front);
      var i :| (0 <= i < |front|
              && (forall j :: 0 <= j < i ==> Members(strips, groups[front[j]].stripIds).Ok?)
              && Members(strips, groups[front[i]].stripIds).Err?
              && ResolveGroups(strips, groups, front).error
                   == UnknownMember(groups[front[i]].groupId, Members(strips, groups[front[i]].stripIds).error));
      assert front[i] == order[i];
      assert forall j :: 0 <= j < i ==> front[j] == order[j];
    } else {
      ResolveGroupsOk(strips, groups, front);
      assert forall j :: 0 <= j < |front| ==> front[j] == order[j];
    }
  }

  /** What a successful load holds: every strip is registered under its own
      lower-case id; every group is keyed by its lower-case id, is listed once
      in the registration order, and holds the registered strips its member
      ids name, in file order, duplicates included. */
  predicate Loaded(c: Loader) {
    && c.cursor.Outer?
    && (forall k :: k in c.strips ==> c.strips[k].stripId == k && Registered(c.strips[k]))
    && c.groups.Keys == (set i | 0 <= i < |c.order| :: c.order[i])
    && (forall i, j :: 0 <= i < j < |c.order| ==> c.order[i] != c.order[j])
    && (forall k :: k in c.groups ==> c.groups[k].groupId == k && IsLowerCase(k) && GroupOf(c.strips, c.groups[k]))
  }

  /** A group holds the strips its member ids name, in order. */
  predicate GroupOf(strips: map<string, StripView>, g: GroupView) {
    && |g.members| == |g.stripIds|
    && forall i :: 0 <= i < |g.stripIds| ==> g.stripIds[i] in strips && g.members[i] == strips[g.stripIds[i]]
  }

  /** Resolving the groups of a scanned state with no stanza open gives a
      `Loaded` collection. */
  lemma ResolvedIsLoaded(st: Loader)
    requires WellFormed(st) && Settled(st) && st.cursor.Outer?
    requires ResolveGroups(st.strips, st.groups, st.order).Ok?
    ensures Loaded(st.(groups := ResolveGroups(st.strips, st.groups, st.order).value))
  {
    ResolveGroupsValue(st.strips, st.groups, st.order);
    var gs := ResolveGroups(st.strips, st.groups, st.order).value;
    forall k | k in gs
      ensures gs[k].groupId == k && IsLowerCase(k) && GroupOf(st.strips, gs[k])
    {
      var i :| 0 <= i < |st.order| && st.order[i] == k;
      assert gs[k] == st.groups[k].(members := Members(st.strips, st.groups[k].stripIds).value);
    }
  }

  /** A successful load is `Loaded`. */
  lemma LoadedCollection(lines: seq<string>)
    requires Load(lines).Ok?
    ensures Loaded(Load(lines).value)
  {
    ResolvedIsLoaded(Scan(lines, |lines|).value);
  }

  /** What the first `n` lines register is still there after `m >= n` lines. */
  lemma {:induction false} ScanGrows(lines: seq<string>, n: nat, m: nat)
    requires n <= m <= |lines| && Scan(lines, m).Ok?
    ensures Scan(lines, n).Ok? && Grows(Scan(lines, n).value, Scan(lines, m).value)
    decreases m - n
  {
    if m > n {
      ScanGrows(lines, n + 1, m);
      ScanStepGrows(lines, n);
      GrowsTransitive(Scan(lines, n).value, Scan(lines, n + 1).value, Scan(lines, m).value);
    }
  }

  lemma ScanStepGrows(lines: seq<string>, n: nat)
    requires n < |lines| && Scan(lines, n + 1).Ok?
    ensures Scan(lines, n).Ok? && Grows(Scan(lines, n).value, Scan(lines, n + 1).value)
  {
    assert Scan(lines, n + 1) == ScanLine(lines, n + 1);
    assert Scan(lines, n).Ok?;
    assert ScanLine(lines, n + 1) == StepLine(lines, n + 1);
    assert StepLine(lines, n + 1) == Step(Scan(lines, n).value, n + 1, lines[n]);
  }

  lemma GrowsTransitive(a: Loader, b: Loader, c: Loader)
    requires Grows(a, b) && Grows(b, c)
    ensures Grows(a, c)
  {
  }

  /** A strip stanza closed by an accepted `end` on line `i + 1` is in the
      loaded collection, finished, under its own id: no strip is dropped. */
  lemma ClosedStripIsLoaded(lines: seq<string>, i: nat, st: Loader, s: StripView)
    requires i < |lines| && Scan(lines, i) == Ok(st) && st.cursor == InStrip(s) && !Skipped(Processed(lines[i]))
    requires Split1(Processed(lines[i])) != [] && Split1(Processed(lines[i]))[0] == "end"
    ensures Load(lines).Ok? ==> MainPatternFirst(s) && IsValid(s) && s.stripId in Load(lines).value.strips
                                && Load(lines).value.strips[s.stripId] == Finished(s)
  {
    ScanEndStrip(lines, i, st, s);
    EndStripKept(lines, i, st, s);
  }

  /** `end` on line `i + 1` of an invalid strip fails the load with the first
      missing field, numbered with that line and without the full line. */
  lemma InvalidStripFails(lines: seq<string>, i: nat, st: Loader, s: StripView)
    requires i < |lines| && Scan(lines, i) == Ok(st) && st.cursor == InStrip(s) && !Skipped(Processed(lines[i]))
    requires Split1(Processed(lines[i])) != [] && Split1(Processed(lines[i]))[0] == "end"
    requires MainPatternFirst(s) && !IsValid(s)
    ensures Load(lines) == Err(LineError(i + 1, None, "Invalid strip \"" + s.stripId + "\": " + Reason(s)))
  {
    ScanEndStrip(lines, i, st, s);
    ScanErrorLoads(lines, i + 1);
  }

  /** The scan through an `end` line of a strip stanza. */
  lemma ScanEndStrip(lines: seq<string>, i: nat, st: Loader, s: StripView)
    requires i < |lines| && Scan(lines, i) == Ok(st) && st.cursor == InStrip(s) && !Skipped(Processed(lines[i]))
    requires Split1(Processed(lines[i])) != [] && Split1(Processed(lines[i]))[0] == "end"
    ensures Scan(lines, i + 1) == EndStrip(st, s, i + 1)
  {
    EndIgnoresTrailingWords(st, s, i + 1, lines[i]);
    ScanNext(lines, i);
  }

  /** An error on the first `n` lines is the error of the load. */
  lemma ScanErrorLoads(lines: seq<string>, n: nat)
    requires n <= |lines| && Scan(lines, n).Err?
    ensures Load(lines) == Err(Scan(lines, n).error)
  {
    ScanErrorStays(lines, n, |lines|);
  }

  lemma EndStripKept(lines: seq<string>, i: nat, st: Loader, s: StripView)
    requires i < |lines| && Scan(lines, i) == Ok(st) && st.cursor == InStrip(s)
    requires Scan(lines, i + 1) == EndStrip(st, s, i + 1)
    ensures Load(lines).Ok? ==> MainPatternFirst(s) && IsValid(s) && s.stripId in Load(lines).value.strips
                                && Load(lines).value.strips[s.stripId] == Finished(s)
  {
    if !IsValid(s) {
      ScanErrorLoads(lines, i + 1);
    } else if Load(lines).Ok? {
      assert Scan(lines, i + 1).value.strips == st.strips[s.stripId := Finished(s)];
      ScanGrows(lines, i + 1, |lines|);
    }
  }

  /** A group stanza closed by `end` on line `i + 1` is in the loaded
      collection under its own id, with its member ids in file order and the
      strips they name as members. */
  lemma ClosedGroupIsLoaded(lines: seq<string>, i: nat, st: Loader, g: GroupView)
    requires i < |lines| && Scan(lines, i) == Ok(st) && st.cursor == InGroup(g) && !Skipped(Processed(lines[i]))
    requires Split1(Processed(lines[i])) == ["end"]
    ensures Load(lines).Ok? ==>
      && g.groupId in Load(lines).value.groups
      && Members(Load(lines).value.strips, g.stripIds).Ok?
      && Load(lines).value.groups[g.groupId] == g.(members := Members(Load(lines).value.strips, g.stripIds).value)
  {
    ScanEndGroup(lines, i, st, g);
    EndGroupKept(lines, i + 1, g);
  }

  /** The scan through the `end` line of a group stanza registers the group. */
  lemma ScanEndGroup(lines: seq<string>, i: nat, st: Loader, g: GroupView)
    requires i < |lines| && Scan(lines, i) == Ok(st) && st.cursor == InGroup(g) && !Skipped(Processed(lines[i]))
    requires Split1(Processed(lines[i])) == ["end"]
    ensures Scan(lines, i + 1).Ok? && g.groupId in Scan(lines, i + 1).value.groups
    ensures Scan(lines, i + 1).value.groups[g.groupId] == g
  {
    ScanGroupLine(lines, i, st, g);
  }

  /** A group registered after `n` lines is resolved into a successful load. */
  lemma EndGroupKept(lines: seq<string>, n: nat, g: GroupView)
    requires n <= |lines| && Scan(lines, n).Ok?
    requires g.groupId in Scan(lines, n).value.groups && Scan(lines, n).value.groups[g.groupId] == g
    ensures Load(lines).Ok? ==>
      && g.groupId in Load(lines).value.groups
      && Members(Load(lines).value.strips, g.stripIds).Ok?
      && Load(lines).value.groups[g.groupId] == g.(members := Members(Load(lines).value.strips, g.stripIds).value)
  {
    if Load(lines).Ok? {
      LoadResolves(lines);
      ScanGrows(lines, n, |lines|);
      ResolvedGroup(Scan(lines, |lines|).value, g);
    }
  }

  /** A successful load is the final scanned state with its groups resolved. */
  lemma LoadResolves(lines: seq<string>)
    requires Load(lines).Ok?
    ensures var st := Scan(lines, |lines|).value;
      && ResolveGroups(st.strips, st.groups, st.order).Ok?
      && Load(lines).value == st.(groups := ResolveGroups(st.strips, st.groups, st.order).value)
  {
  }

  /** A registered group, once resolved, holds the strips its member ids name. */
  lemma ResolvedGroup(st: Loader, g: GroupView)
    requires WellFormed(st) && Settled(st) && g.groupId in st.groups && st.groups[g.groupId] == g
    requires ResolveGroups(st.strips, st.groups, st.order).Ok?
    ensures Members(st.strips, g.stripIds).Ok?
    ensures ResolveGroups(st.strips, st.groups, st.order).value[g.groupId] == g.(members := Members(st.strips, g.stripIds).value)
  {
    ResolveGroupsValue(st.strips, st.groups, st.order);
    assert g.groupId in st.order && g.members == [];
    var n :| 0 <= n < |st.order| && st.order[n] == g.groupId;
    assert [] + Members(st.strips, g.stripIds).value == Members(st.strips, g.stripIds).value;
  }

  /** Resolution fails exactly when some group has a member id that names no
      registered strip. */
  lemma UnknownMemberIff(st: Loader)
    requires WellFormed(st)
    ensures ResolveGroups(st.strips, st.groups, st.order).Err? <==>
              exists k, i :: k in st.groups && 0 <= i < |st.groups[k].stripIds| && st.groups[k].stripIds[i] !in st.strips
  {
    ResolveGroupsOk(st.strips, st.groups, st.order);
    if ResolveGroups(st.strips, st.groups, st.order).Err? {
      var n :| 0 <= n < |st.order| && Members(st.strips, st.groups[st.order[n]].stripIds).Err?;
      var k := st.order[n];
      var j :| 0 <= j < |st.groups[k].stripIds| && st.groups[k].stripIds[j] !in st.strips;
    } else {
      forall k, i | k in st.groups && 0 <= i < |st.groups[k].stripIds|
        ensures st.groups[k].stripIds[i] in st.strips
      {
        var n :| 0 <= n < |st.order| && st.order[n] == k;
        assert Members(st.strips, st.groups[st.order[n]].stripIds).Ok?;
      }
    }
  }

  /** A file that scans to the end with no stanza open fails only on a group
      member that names no registered strip, and it fails on any such member. */
  lemma UnknownMemberFails(lines: seq<string>)
    requires Scan(lines, |lines|).Ok? && Scan(lines, |lines|).value.cursor.Outer?
    ensures var st := Scan(lines, |lines|).value;
      Load(lines).Err? <==> exists k, i :: k in st.groups && 0 <= i < |st.groups[k].stripIds| && st.groups[k].stripIds[i] !in st.strips
    ensures Load(lines).Err? ==> Load(lines).error.UnknownMember?
  {
    var st := Scan(lines, |lines|).value;
    UnknownMemberIff(st);
    if Load(lines).Err? {
      ResolveGroupsError(st.strips, st.groups, st.order);
    }
  }

  /** A stanza still open after the last line fails, numbered with the last
      line, without a full line. */
  lemma OpenStanzaFails(lines: seq<string>)
    requires Scan(lines, |lines|).Ok? && !Scan(lines, |lines|).value.cursor.Outer?
    ensures Load(lines).Err? && Load(lines).error.LineError?
    ensures Load(lines).error.idx == |lines| && Load(lines).error.line.None?
  {
  }

  /** A processed line that is not empty starts with a word. */
  lemma ProcessedStartsWithWord(raw: string)
    ensures Processed(raw) != [] ==> !IsSpace(Processed(raw)[0]) && Split1(Processed(raw)) != []
  {
    var t := LStrip(raw);
    var r := Processed(raw);
    if r != [] {
      assert r[0] == t[0];
    }
  }

  /** A line already without leading whitespace and trailing line break is
      processed to itself. */
  lemma ProcessedPlain(line: string)
    requires line != [] && !IsSpace(line[0]) && !IsNewline(line[|line| - 1])
    ensures Processed(line) == line
  {
  }

  /** An option line splits into its keyword and its value. */
  lemma KeywordLine(keyword: string, value: string)
    requires keyword != [] && NoSpace(keyword)
    requires value != [] && !IsSpace(value[0]) && !IsNewline(value[|value| - 1])
    ensures Processed(keyword + " " + value) == keyword + " " + value
    ensures Split1(keyword + " " + value) == [keyword, value]
  {
    var line := keyword + " " + value;
    assert line[0] == keyword[0] && line[|line| - 1] == value[|value| - 1];
    ProcessedPlain(line);
    Split1OfWords(keyword, " ", value);
  }

  /** A line that is not skipped goes to the handler of the open stanza with
      its words. */
  lemma StepOf(st: Loader, idx: nat, raw: string)
    requires WellFormed(st) && !Skipped(Processed(raw))
    ensures Split1(Processed(raw)) != []
    ensures var line := Processed(raw); var parts := Split1(line);
      Step(st, idx, raw) == match st.cursor
        case Outer => OuterLine(st, idx, line, parts)
        case InStrip(s) => StripLine(st, s, idx, line, parts)
        case InGroup(g) => GroupLine(st, g, idx, line, parts)
  {
    ProcessedStartsWithWord(raw);
  }

  /** Outside a stanza a line is accepted exactly when it is skipped or opens a
      `strip` or `group` stanza with an id not registered yet. */
  lemma OuterLineAccepted(st: Loader, idx: nat, raw: string)
    requires WellFormed(st) && st.cursor.Outer?
    ensures var parts := Split1(Processed(raw));
      Step(st, idx, raw).Ok? <==>
        Skipped(Processed(raw))
        || (|parts| == 2 && ((parts[0] == "strip" && IdOf(parts[1]) !in st.strips)
                             || (parts[0] == "group" && IdOf(parts[1]) !in st.groups)))
  {
    if !Skipped(Processed(raw)) {
      StepOf(st, idx, raw);
    }
  }

  /** The keywords of options that take a value. */
  const OptionKeys := {"name", "artist", "homepage", "searchpage", "searchpattern", "intermediate_pattern",
                       "baseurl", "extra_txt", "extra_img"}

  /** The lone words that are flags. */
  const FlagKeys := {"onhold", "intermediate_relative", "intermediate_needs_hostname"}

  /** An option with a value is accepted exactly when its keyword is known
      and, for an extra pattern, the value holds a `|`. */
  lemma StripOptionAccepted(s: StripView, key: string, value: string)
    requires MainPatternFirst(s)
    ensures StripOption(s, key, value).Ok? <==>
      key in OptionKeys && ((key == "extra_txt" || key == "extra_img") ==> '|' in value)
  {
  }

  /** The words of a strip-stanza line the loader accepts: `end` (with
      anything after it) for a valid strip, a lone flag, or an option
      `StripOption` accepts. */
  predicate StripWordsAccepted(s: StripView, parts: seq<string>)
    requires MainPatternFirst(s) && 1 <= |parts| <= 2
  {
    || (parts[0] == "end" && IsValid(s))
    || (|parts| == 1 && parts[0] != "end" && StripFlag(s, parts[0]).Some?)
    || (|parts| == 2 && parts[0] != "end" && StripOption(s, parts[0], parts[1]).Ok?)
  }

  /** Inside a strip stanza a line that is not skipped is accepted exactly
      when it is `end` (with anything after it) for a valid strip, is a lone
      flag, or is an option `StripOption` accepts. */
  lemma StripLineAccepted(st: Loader, s: StripView, idx: nat, raw: string)
    requires WellFormed(st) && st.cursor == InStrip(s) && !Skipped(Processed(raw))
    ensures Split1(Processed(raw)) != []
    ensures Step(st, idx, raw).Ok? <==> StripWordsAccepted(s, Split1(Processed(raw)))
  {
    StepOf(st, idx, raw);
    StripLineOk(st, s, idx, Processed(raw), Split1(Processed(raw)));
  }

  lemma StripLineOk(st: Loader, s: StripView, idx: nat, line: string, parts: seq<string>)
    requires WellFormed(st) && st.cursor == InStrip(s) && 1 <= |parts| <= 2
    ensures StripLine(st, s, idx, line, parts).Ok? <==> StripWordsAccepted(s, parts)
  {
  }

  /** Inside a group stanza a line is accepted exactly when it is skipped or is
      a single word. */
  lemma GroupLineAccepted(st: Loader, g: GroupView, idx: nat, raw: string)
    requires WellFormed(st) && st.cursor == InGroup(g)
    ensures Step(st, idx, raw).Ok? <==> Skipped(Processed(raw)) || |Split1(Processed(raw))| == 1
  {
    if !Skipped(Processed(raw)) {
      StepOf(st, idx, raw);
    }
  }

  /** A comment, however indented, changes nothing. */
  lemma CommentLineIgnored(st: Loader, idx: nat, indent: string, comment: string)
    requires WellFormed(st) && AllSpace(indent) && comment != [] && comment[0] == '#'
    ensures Step(st, idx, indent + comment) == Ok(st)
  {
    LStripOf(indent, comment);
    assert Processed(indent + comment)[0] == '#';
  }

  /** A line whose first word is `end` closes the strip, whatever follows. */
  lemma EndIgnoresTrailingWords(st: Loader, s: StripView, idx: nat, raw: string)
    requires WellFormed(st) && st.cursor == InStrip(s) && !Skipped(Processed(raw))
    requires Split1(Processed(raw)) != [] && Split1(Processed(raw))[0] == "end"
    ensures Step(st, idx, raw) == EndStrip(st, s, idx)
  {
    StepOf(st, idx, raw);
  }

  /** The main search pattern keeps the value's trailing whitespace, while the
      name (like the other single-valued options) loses it. */
  lemma SearchPatternKeptAsWritten(s: StripView, value: string)
    requires MainPatternFirst(s)
    ensures StripOption(s, "searchpattern", value) == Ok(WithSearchPattern(s, value))
    ensures StripOption(s, "name", value) == Ok(s.(name := Some(RStrip(value))))
  {
  }
}
