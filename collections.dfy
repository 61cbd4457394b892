/** The objects the configuration file becomes: strip objects, group objects
    that list strip ids and later hold the strips themselves, and the
    collection that owns both, with `load_from_filename` as a loop over the
    file's lines. The collection keeps each registered strip as the value it
    has when its stanza ends. */
module Collections {
  import opened Wrappers
  import opened Text
  import opened Patterns
  import opened Strips
  import opened Loading

  /** A group of strips retrieved together. */
  class Group {
    const groupId: string
    var stripIds: seq<string>
    var strips: seq<StripView>

    constructor (groupId: string)
      ensures this.groupId == groupId && stripIds == [] && strips == []
    {
      this.groupId := groupId;
      stripIds := [];
      strips := [];
    }

    function View(): GroupView
      reads this
    {
      GroupView(groupId, stripIds, strips)
    }

    /** `add_strip`. */
    method AddStrip(stripId: string)
      modifies this
      ensures stripIds == old(stripIds) + [stripId] && strips == old(strips)
    {
      stripIds := stripIds + [stripId];
    }

    /** `__len__`: the number of member ids, duplicates included. */
    function Len(): (n: nat)
      reads this
      ensures n == |stripIds|
    {
      |stripIds|
    }

    /** `finish`: appends the collection's strip for every member id, in
        order, and fails on the first id the collection does not know. */
    method Finish(c: Collection) returns (r: Outcome<LoadError>)
      modifies this
      ensures stripIds == old(stripIds)
      ensures r.Pass? <==> Members(c.strips, stripIds).Ok?
      ensures r.Pass? ==> strips == old(strips) + Members(c.strips, stripIds).value
      ensures r.Fail? ==> r.error == UnknownMember(groupId, Members(c.strips, stripIds).error)
    {
      var i := 0;
      while i < |stripIds|
        invariant 0 <= i <= |stripIds| && stripIds == old(stripIds)
        invariant Members(c.strips, stripIds[..i]).Ok?
        invariant strips == old(strips) + Members(c.strips, stripIds[..i]).value
      {
        var s := c.GetStrip(stripIds[i]);
        assert stripIds[..i + 1][..i] == stripIds[..i];
        if s.None? {
          return Fail(UnknownMember(groupId, stripIds[i]));
        }
        strips := strips + [s.value];
        i := i + 1;
      }
      assert stripIds[..i] == stripIds;
      return Pass;
    }
  }

  /** A strip stanza's `key value` line, applied to the open strip. */
  method ApplyOption(s: Strip, key: string, value: string) returns (err: Option<string>)
    requires s.Consistent()
    modifies s, s.patterns
    ensures s.Consistent()
    ensures forall p :: p in s.patterns ==> p in old(s.patterns) || fresh(p)
    ensures StripOption(old(s.View()), key, value).Ok? <==> err.None?
    ensures err.None? ==> s.View() == StripOption(old(s.View()), key, value).value
    ensures err.Some? ==> err.value == StripOption(old(s.View()), key, value).error
  {
    err := None;
    if key == "name" {
      s.name := Some(RStrip(value));
    } else if key == "artist" {
      s.artist := Some(RStrip(value));
    } else {
      err := ApplyPageOption(s, key, value);
    }
  }

  /** The options of `ApplyOption` from `homepage` on. */
  method ApplyPageOption(s: Strip, key: string, value: string) returns (err: Option<string>)
    requires s.Consistent() && key != "name" && key != "artist"
    modifies s, s.patterns
    ensures s.Consistent()
    ensures forall p :: p in s.patterns ==> p in old(s.patterns) || fresh(p)
    ensures StripOption(old(s.View()), key, value).Ok? <==> err.None?
    ensures err.None? ==> s.View() == StripOption(old(s.View()), key, value).value
    ensures err.Some? ==> err.value == StripOption(old(s.View()), key, value).error
  {
    err := None;
    if key == "homepage" {
      s.SetHomepage(RStrip(value));
    } else if key == "searchpage" {
      s.searchpage := Some(RStrip(value));
    } else {
      err := ApplyPatternOption(s, key, value);
    }
  }

  /** The options of `ApplyOption` from `searchpattern` on. */
  method ApplyPatternOption(s: Strip, key: string, value: string) returns (err: Option<string>)
    requires s.Consistent() && key != "name" && key != "artist" && key != "homepage" && key != "searchpage"
    modifies s, s.patterns
    ensures s.Consistent()
    ensures forall p :: p in s.patterns ==> p in old(s.patterns) || fresh(p)
    ensures StripOption(old(s.View()), key, value).Ok? <==> err.None?
    ensures err.None? ==> s.View() == StripOption(old(s.View()), key, value).value
    ensures err.Some? ==> err.value == StripOption(old(s.View()), key, value).error
  {
    err := None;
    if key == "searchpattern" {
      s.SetSearchpattern(value);
    } else if key == "intermediate_pattern" {
      s.intermediatePattern := Some(RStrip(value));
    } else if key == "baseurl" {
      s.baseurl := RStrip(value);
    } else if key == "extra_txt" || key == "extra_img" {
      err := ApplyExtra(s, key, value);
    } else {
      err := Some("Unknown option \"" + key + "\"");
    }
  }

  /** `extra_txt` and `extra_img`: a title and a pattern separated by the first `|`. */
  method ApplyExtra(s: Strip, key: string, value: string) returns (err: Option<string>)
    requires s.Consistent() && (key == "extra_txt" || key == "extra_img")
    modifies s
    ensures s.Consistent()
    ensures forall p :: p in s.patterns ==> p in old(s.patterns) || fresh(p)
    ensures StripOption(old(s.View()), key, value).Ok? <==> err.None?
    ensures err.None? ==> s.View() == StripOption(old(s.View()), key, value).value
    ensures err.Some? ==> err.value == StripOption(old(s.View()), key, value).error
  {
    var mode := if key == "extra_txt" then TextMode else ImageMode;
    var fields := SplitOnce(value, '|');
    if |fields| != 2 {
      return Some("Incomplete extra_txt stanza");
    }
    s.AddExtra(fields[0], fields[1], mode);
    return None;
  }

  /** A strip stanza's line other than `end`: a flag alone, or a key and its value. */
  method ApplyStripWords(s: Strip, parts: seq<string>) returns (err: Option<string>)
    requires s.Consistent() && 1 <= |parts| <= 2
    modifies s, s.patterns
    ensures s.Consistent()
    ensures forall p :: p in s.patterns ==> p in old(s.patterns) || fresh(p)
    ensures StripWords(old(s.View()), parts).Ok? <==> err.None?
    ensures err.None? ==> s.View() == StripWords(old(s.View()), parts).value
    ensures err.Some? ==> err.value == StripWords(old(s.View()), parts).error
  {
    if |parts| == 2 {
      err := ApplyOption(s, parts[0], parts[1]);
      return;
    }
    var applied := ApplyFlag(s, parts[0]);
    err := if applied then None else Some("Missing option data");
  }

  /** A strip stanza's flag word alone on its line; `false` for any other word. */
  method ApplyFlag(s: Strip, word: string) returns (applied: bool)
    requires s.Consistent()
    modifies s
    ensures s.Consistent() && s.patterns == old(s.patterns)
    ensures applied <==> StripFlag(old(s.View()), word).Some?
    ensures applied ==> s.View() == StripFlag(old(s.View()), word).value
  {
    applied := true;
    if word == "onhold" {
      s.onhold := true;
    } else if word == "intermediate_relative" {
      s.intermediateRelative := true;
    } else if word == "intermediate_needs_hostname" {
      s.intermediateNeedsHostname := true;
    } else {
      applied := false;
    }
  }

  /** The open stanza of the loader, as a value. */
  ghost function CursorOf(s: Strip?, g: Group?): Cursor
    reads s, g, if s != null then s.patterns else []
  {
    if s != null then InStrip(s.View())
    else if g != null then InGroup(g.View())
    else Outer
  }

  /** The pattern objects of the open strip, if any. */
  ghost function PatternsOf(s: Strip?): seq<Pattern>
    reads s
  {
    if s != null then s.patterns else []
  }

  /** The patterns of a strip as a set of objects. */
  ghost function PatternSet(ps: seq<Pattern>): set<object> {
    set p | p in ps
  }

  /** The complete collection of strips and groups. */
  class Collection {
    /** The registered strips, each as it was when its stanza ended. */
    var strips: map<string, StripView>
    var groups: map<string, Group>
    /** The keys of `groups` in insertion order, the order Python iterates a dict. */
    var groupOrder: seq<string>
    /** The registered group objects, and their values. */
    ghost var GroupSet: set<Group>
    ghost var groupViews: map<string, GroupView>

    /** Every group object sits under its own id, among `GroupSet`, with the
        value `groupViews` records, and no object is registered twice. */
    ghost predicate Valid()
      reads this, GroupSet
    {
      && groupViews.Keys == groups.Keys
      && (forall k :: k in groups ==> groups[k] in GroupSet && groups[k].groupId == k && groups[k].View() == groupViews[k])
      && (forall k, l :: k in groups && l in groups && k != l ==> groups[k] != groups[l])
    }

    /** The collection, as the loader's state with no stanza open. */
    ghost function View(): Loader
      reads this
    {
      Loader(strips, groupViews, groupOrder, Outer)
    }

    /** The dictionaries as `__init__` sets them up before loading. */
    constructor ()
      ensures Valid() && GroupSet == {} && View() == Start
    {
      strips := map[];
      groups := map[];
      groupOrder := [];
      GroupSet := {};
      groupViews := map[];
    }

    /** The loader's state while scanning: the collection so far and the open
        strip or group, not registered yet. */
    ghost predicate Scanning(s: Strip?, g: Group?)
      reads this, GroupSet, s, g, if s != null then s.patterns else []
    {
      && Valid() && (s == null || g == null)
      && (s != null ==> s.Consistent())
      && (g != null ==> g !in GroupSet && g.strips == [])
    }

    /** The loader's state, as a value. */
    ghost function State(s: Strip?, g: Group?): Loader
      reads this, s, g, if s != null then s.patterns else []
    {
      View().(cursor := CursorOf(s, g))
    }

    /** `load_from_filename` on the lines of the file, into the empty
        collection `__init__` makes: the scan, the check for a stanza left
        open and the `finish` of every group. */
    method LoadFromLines(lines: seq<string>) returns (r: Outcome<LoadError>)
      requires Valid() && GroupSet == {} && View() == Start
      modifies this
      ensures r.Pass? <==> Load(lines).Ok?
      ensures r.Pass? ==> Valid() && View() == Load(lines).value && Loaded(View())
      ensures r.Fail? ==> r.error == Load(lines).error
    {
      var s, g;
      r, s, g := ScanLines(lines);
      if r.Fail? {
        return;
      }
      if s != null {
        return Fail(LineError(|lines|, None, "Strip \"" + s.stripId + "\" was never closed"));
      }
      if g != null {
        return Fail(LineError(|lines|, None, "Group \"" + g.groupId + "\" was never closed"));
      }
      r := FinishGroups();
      if r.Pass? {
        LoadedCollection(lines);
      }
    }

    /** The loop of `load_from_filename` over the lines: the open strip or
        group after the last line, or the first error. */
    method ScanLines(lines: seq<string>) returns (r: Outcome<LoadError>, s: Strip?, g: Group?)
      requires Valid() && GroupSet == {} && View() == Start
      modifies this
      ensures r.Pass? <==> Scan(lines, |lines|).Ok?
      ensures r.Pass? ==> Scanning(s, g) && State(s, g) == Scan(lines, |lines|).value
      ensures r.Fail? ==> r.error == Scan(lines, |lines|).error
      ensures forall x :: x in GroupSet ==> fresh(x)
    {
      s, g := null, null;
      ghost var made: set<object> := {};
      var i := 0;
      while i < |lines|
        invariant Scanned(lines, i, s, g)
        invariant forall o :: o in made ==> fresh(o)
        invariant Made(s, g, made)
      {
        r, s, g, made := ScanNextLine(lines, i, s, g, made);
        if r.Fail? {
          ScanErrorStays(lines, i + 1, |lines|);
          return;
        }
        i := i + 1;
      }
      r := Pass;
    }

    /** The objects the loader may change are among `made`: the open strip,
        its patterns, the open group and the registered groups. */
    ghost predicate Made(s: Strip?, g: Group?, made: set<object>)
      reads this, s
    {
      && (s != null ==> s in made)
      && (forall j :: 0 <= j < |PatternsOf(s)| ==> PatternsOf(s)[j] in made)
      && (g != null ==> g in made)
      && (forall x :: x in GroupSet ==> x in made)
    }

    /** The first `i` lines scanned: the collection and the open stanza are
        the state the scan reaches. */
    ghost predicate Scanned(lines: seq<string>, i: nat, s: Strip?, g: Group?)
      reads this, GroupSet, s, g, if s != null then s.patterns else []
    {
      i <= |lines| && Scanning(s, g) && Scan(lines, i) == Ok(State(s, g))
    }

    /** The loop body of `load_from_filename` on line `i + 1`. */
    method ScanNextLine(lines: seq<string>, i: nat, s: Strip?, g: Group?, ghost made: set<object>)
      returns (r: Outcome<LoadError>, s': Strip?, g': Group?, ghost made': set<object>)
      requires i < |lines| && Scanned(lines, i, s, g) && Made(s, g, made)
      modifies this, made
      ensures r.Pass? ==> Scanned(lines, i + 1, s', g')
      ensures r.Fail? ==> Scan(lines, i + 1) == Err(r.error)
      ensures forall o :: o in made' ==> o in made || fresh(o)
      ensures Made(s', g', made')
    {
      r, s', g' := ReadLine(lines, i, s, g);
      ghost var strip: set<object> := if s' != null then {s'} else {};
      ghost var group: set<object> := if g' != null then {g'} else {};
      made' := made + strip + PatternSet(PatternsOf(s')) + group;
    }

    /** Line `i + 1` of the file, with the open strip `s` or group `g`: the
        state the scan reaches after it, or its error. */
    method ReadLine(lines: seq<string>, i: nat, s: Strip?, g: Group?) returns (r: Outcome<LoadError>, s': Strip?, g': Group?)
      requires i < |lines| && Scanned(lines, i, s, g)
      modifies this, s, g, PatternsOf(s)
      ensures r.Pass? ==> Scanned(lines, i + 1, s', g')
      ensures r.Fail? ==> Scan(lines, i + 1) == Err(r.error)
      ensures s' != null ==> s' == s || fresh(s')
      ensures fresh(PatternSet(PatternsOf(s')) - PatternSet(old(PatternsOf(s))))
      ensures g' != null ==> g' == g || fresh(g')
      ensures GroupSet == old(GroupSet) || (g != null && GroupSet == old(GroupSet) + {g})
    {
      if Skipped(Processed(lines[i])) {
        ScanSkipped(lines, i, State(s, g));
        return Pass, s, g;
      }
      r, s', g' := ReadWordsLine(lines, i, s, g);
    }

    /** A line that is not skipped, handed to the open stanza. */
    method ReadWordsLine(lines: seq<string>, i: nat, s: Strip?, g: Group?) returns (r: Outcome<LoadError>, s': Strip?, g': Group?)
      requires i < |lines| && Scanned(lines, i, s, g) && !Skipped(Processed(lines[i]))
      modifies this, s, g, PatternsOf(s)
      ensures r.Pass? ==> Scanned(lines, i + 1, s', g')
      ensures r.Fail? ==> Scan(lines, i + 1) == Err(r.error)
      ensures s' != null ==> s' == s || fresh(s')
      ensures fresh(PatternSet(PatternsOf(s')) - PatternSet(old(PatternsOf(s))))
      ensures g' != null ==> g' == g || fresh(g')
      ensures GroupSet == old(GroupSet) || (g != null && GroupSet == old(GroupSet) + {g})
    {
      if s != null {
        r, s' := ReadStripLine(lines, i, s);
        g' := null;
      } else if g != null {
        r, g' := ReadGroupLine(lines, i, g);
        s' := null;
      } else {
        r, s', g' := ReadOuterLine(lines, i);
      }
    }

    /** A line that is not skipped, outside any stanza. */
    method ReadOuterLine(lines: seq<string>, i: nat) returns (r: Outcome<LoadError>, s': Strip?, g': Group?)
      requires i < |lines| && Scanned(lines, i, null, null) && !Skipped(Processed(lines[i]))
      ensures r.Pass? ==> Scanned(lines, i + 1, s', g')
      ensures r.Fail? ==> Scan(lines, i + 1) == Err(r.error)
      ensures s' != null ==> fresh(s')
      ensures fresh(PatternSet(PatternsOf(s')))
      ensures g' != null ==> fresh(g')
    {
      ScanOuterLine(lines, i, State(null, null));
      var line := Processed(lines[i]);
      r, s', g' := OuterLineOf(i + 1, line, Split1(line));
    }

    /** A line that is not skipped, inside the stanza of strip `s`. */
    method ReadStripLine(lines: seq<string>, i: nat, s: Strip) returns (r: Outcome<LoadError>, s': Strip?)
      requires i < |lines| && Scanned(lines, i, s, null) && !Skipped(Processed(lines[i]))
      modifies this, s, s.patterns
      ensures r.Pass? ==> Scanned(lines, i + 1, s', null)
      ensures r.Fail? ==> Scan(lines, i + 1) == Err(r.error)
      ensures s' == null || s' == s
      ensures fresh(PatternSet(PatternsOf(s')) - PatternSet(old(s.patterns)))
      ensures GroupSet == old(GroupSet)
    {
      ScanStripLine(lines, i, State(s, null), s.View());
      var line := Processed(lines[i]);
      r, s' := StripLineOf(s, i + 1, line, Split1(line));
    }

    /** A line that is not skipped, inside the stanza of group `g`. */
    method ReadGroupLine(lines: seq<string>, i: nat, g: Group) returns (r: Outcome<LoadError>, g': Group?)
      requires i < |lines| && Scanned(lines, i, null, g) && !Skipped(Processed(lines[i]))
      modifies this, g
      ensures r.Pass? ==> Scanned(lines, i + 1, null, g')
      ensures r.Fail? ==> Scan(lines, i + 1) == Err(r.error)
      ensures g' == null || g' == g
      ensures GroupSet == old(GroupSet) || GroupSet == old(GroupSet) + {g}
    {
      ScanGroupLine(lines, i, State(null, g), g.View());
      var line := Processed(lines[i]);
      r, g' := GroupLineOf(g, i + 1, line, Split1(line));
    }

    /** A line outside any stanza: `strip` or `group` with an id not
        registered yet opens a new stanza. */
    method OuterLineOf(idx: nat, line: string, parts: seq<string>) returns (r: Outcome<LoadError>, s: Strip?, g: Group?)
      requires Scanning(null, null) && WellFormed(View()) && 1 <= |parts| <= 2
      ensures r.Pass? <==> OuterLine(View(), idx, line, parts).Ok?
      ensures r.Pass? ==> Scanning(s, g) && State(s, g) == OuterLine(View(), idx, line, parts).value
      ensures r.Fail? ==> r.error == OuterLine(View(), idx, line, parts).error
      ensures s != null ==> fresh(s)
      ensures fresh(PatternSet(PatternsOf(s)))
      ensures g != null ==> fresh(g)
    {
      s, g := null, null;
      if parts[0] == "strip" {
        if |parts| != 2 {
          return Fail(LineError(idx, Some(line), "Found \"strip\" without ID")), null, null;
        }
        var id := IdOf(parts[1]);
        if id in strips {
          return Fail(LineError(idx, Some(line), "Duplicate strip \"" + id + "\" found")), null, null;
        }
        s := new Strip(id, None, None, None, None, None, "", false);
        return Pass, s, null;
      } else if parts[0] == "group" {
        if |parts| != 2 {
          return Fail(LineError(idx, Some(line), "Found \"group\" without ID")), null, null;
        }
        var id := IdOf(parts[1]);
        if id in groups {
          return Fail(LineError(idx, Some(line), "Duplicate group \"" + id + "\" found")), null, null;
        }
        g := new Group(id);
        return Pass, null, g;
      }
      return Fail(LineError(idx, Some(line), "Expecting \"strip\" or \"group\"")), null, null;
    }

    /** A line inside the stanza of strip `s`. */
    method StripLineOf(s: Strip, idx: nat, line: string, parts: seq<string>) returns (r: Outcome<LoadError>, open: Strip?)
      requires Scanning(s, null) && WellFormed(State(s, null)) && 1 <= |parts| <= 2
      modifies this, s, s.patterns
      ensures r.Pass? <==> StripLine(old(State(s, null)), old(s.View()), idx, line, parts).Ok?
      ensures r.Pass? ==> Scanning(open, null)
                          && State(open, null) == StripLine(old(State(s, null)), old(s.View()), idx, line, parts).value
      ensures r.Fail? ==> r.error == StripLine(old(State(s, null)), old(s.View()), idx, line, parts).error
      ensures open == null || open == s
      ensures fresh(PatternSet(PatternsOf(open)) - PatternSet(old(PatternsOf(s))))
      ensures GroupSet == old(GroupSet)
    {
      if parts[0] == "end" {
        r := EndStripOf(s, idx);
        return r, null;
      }
      var err := ApplyStripWords(s, parts);
      if err.Some? {
        return Fail(LineError(idx, Some(line), err.value)), null;
      }
      return Pass, s;
    }

    /** `end` in the stanza of strip `s`: a valid strip is finished and
        registered under its id. */
    method EndStripOf(s: Strip, idx: nat) returns (r: Outcome<LoadError>)
      requires Scanning(s, null) && WellFormed(State(s, null))
      modifies this, s, s.patterns
      ensures r.Pass? <==> EndStrip(old(State(s, null)), old(s.View()), idx).Ok?
      ensures r.Pass? ==> Scanning(null, null) && View() == EndStrip(old(State(s, null)), old(s.View()), idx).value
      ensures r.Fail? ==> r.error == EndStrip(old(State(s, null)), old(s.View()), idx).error
      ensures s.patterns == old(s.patterns) && GroupSet == old(GroupSet)
    {
      if !IsValid(s.View()) {
        return Fail(LineError(idx, None, "Invalid strip \"" + s.stripId + "\": " + Reason(s.View())));
      }
      s.Finish();
      strips := strips[s.stripId := s.View()];
      return Pass;
    }

    /** A line inside the stanza of group `g`: `end` registers it under its
        id, last in the dictionary's order; any other single word is a member. */
    method GroupLineOf(g: Group, idx: nat, line: string, parts: seq<string>) returns (r: Outcome<LoadError>, open: Group?)
      requires Scanning(null, g) && WellFormed(State(null, g)) && 1 <= |parts| <= 2
      modifies this, g
      ensures r.Pass? <==> GroupLine(old(State(null, g)), old(g.View()), idx, line, parts).Ok?
      ensures r.Pass? ==> Scanning(null, open)
                          && State(null, open) == GroupLine(old(State(null, g)), old(g.View()), idx, line, parts).value
      ensures r.Fail? ==> r.error == GroupLine(old(State(null, g)), old(g.View()), idx, line, parts).error
      ensures open == null || open == g
      ensures GroupSet == old(GroupSet) || GroupSet == old(GroupSet) + {g}
    {
      if |parts| > 1 {
        return Fail(LineError(idx, Some(line), "Unknown group line")), null;
      }
      if parts[0] == "end" {
        groups, groupViews, groupOrder, GroupSet :=
          groups[g.groupId := g], groupViews[g.groupId := g.View()], groupOrder + [g.groupId], GroupSet + {g};
        return Pass, null;
      }
      g.AddStrip(IdOf(parts[0]));
      return Pass, g;
    }

    /** The `finish` of every group, in the dictionary's order. */
    method FinishGroups() returns (r: Outcome<LoadError>)
      requires Valid() && WellFormed(View())
      modifies this, GroupSet
      ensures r.Pass? <==> ResolveGroups(old(strips), old(groupViews), old(groupOrder)).Ok?
      ensures r.Pass? ==> Valid() && View() == old(View()).(groups := ResolveGroups(old(strips), old(groupViews), old(groupOrder)).value)
      ensures r.Fail? ==> r.error == ResolveGroups(old(strips), old(groupViews), old(groupOrder)).error
    {
      ghost var g0 := groupViews;
      assert Resolving(g0, 0) by {
        assert groupOrder[..0] == [];
      }
      var i := 0;
      while i < |groupOrder|
        invariant strips == old(strips) && groups == old(groups) && groupOrder == old(groupOrder) && GroupSet == old(GroupSet)
        invariant Resolving(g0, i)
      {
        r := FinishGroupAt(g0, i);
        if r.Fail? {
          return;
        }
        i := i + 1;
      }
      assert groupOrder[..i] == groupOrder;
      assert ResolveGroups(old(strips), old(groupViews), old(groupOrder)) == Ok(groupViews);
      r := Pass;
    }

    /** The groups listed before `i` resolved from the values `g0`, the
        others as `g0` has them. */
    ghost predicate Resolving(g0: map<string, GroupView>, i: nat)
      reads this, GroupSet
    {
      && Valid() && i <= |groupOrder|
      && (forall j :: 0 <= j < |groupOrder| ==> groupOrder[j] in g0)
      && (forall j, l :: 0 <= j < l < |groupOrder| ==> groupOrder[j] != groupOrder[l])
      && ResolveGroups(strips, g0, groupOrder[..i]) == Ok(groupViews)
    }

    /** The loop body of the `finish` of every group: the group listed at `i`. */
    method FinishGroupAt(ghost g0: map<string, GroupView>, i: nat) returns (r: Outcome<LoadError>)
      requires Resolving(g0, i) && i < |groupOrder|
      modifies this, groups[groupOrder[i]]
      ensures strips == old(strips) && groups == old(groups) && groupOrder == old(groupOrder) && GroupSet == old(GroupSet)
      ensures r.Pass? ==> Resolving(g0, i + 1)
      ensures r.Fail? ==> ResolveGroups(strips, g0, groupOrder) == Err(r.error)
    {
      var k := groupOrder[i];
      ResolveGroupsValue(strips, g0, groupOrder[..i]);
      assert k !in groupOrder[..i];
      ResolveGroupsNext(strips, g0, groupOrder, i);
      r := FinishGroup(k);
      if r.Fail? {
        ResolveGroupsErrorStays(strips, g0, groupOrder, i + 1);
      }
    }

    /** `group.finish(self)` for the group registered under `k`. */
    method FinishGroup(k: string) returns (r: Outcome<LoadError>)
      requires Valid() && k in groups
      modifies this, groups[k]
      ensures strips == old(strips) && groups == old(groups) && groupOrder == old(groupOrder) && GroupSet == old(GroupSet)
      ensures Valid()
      ensures r.Pass? <==> Members(strips, old(groupViews[k]).stripIds).Ok?
      ensures r.Pass? ==> groupViews == old(groupViews)[k := old(groupViews[k]).(members := old(groupViews[k]).members
                                                                                  + Members(strips, old(groupViews[k]).stripIds).value)]
      ensures r.Fail? ==> r.error == UnknownMember(old(groupViews[k]).groupId, Members(strips, old(groupViews[k]).stripIds).error)
    {
      var g := groups[k];
      r := g.Finish(this);
      groupViews := groupViews[k := g.View()];
    }

    /** `get_strip`: the strip registered under `stripId`; `None` where Python
        raises `KeyError`. */
    function GetStrip(stripId: string): (r: Option<StripView>)
      reads this
      ensures r.Some? <==> stripId in strips
      ensures r.Some? ==> r.value == strips[stripId]
    {
      if stripId in strips then Some(strips[stripId]) else None
    }
  }
}
