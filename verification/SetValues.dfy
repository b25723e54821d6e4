/** `--set key=value`: ParseSetValues builds a tree of maps from the dotted keys. */
module SetValues {
  import opened Decimal
  import opened Options

  /** A decoded YAML value. Scalars keep their text. */
  datatype Tree = Leaf(value: string) | Dict(entries: map<string, Tree>) | List(items: seq<Tree>)

  type Entries = map<string, Tree>
  type Path = seq<string>

  /** setNestedValue's type assertion panics on a scalar in the way. */
  datatype Result<+T> = Ok(value: T) | Panic

  /** The list position a path segment names in a list of n items. */
  function Index(segment: string, n: nat): (i: Option<nat>)
    ensures i.Some? ==> i.value < n
  {
    match Atoi(segment)
    case None => None
    case Some(i) => if 0 <= i < n then Some(i) else None
  }

  /** What a dotted path finds. */
  function Lookup(t: Tree, path: Path): Option<Tree>
    decreases path
  {
    if path == [] then Some(t)
    else match t
      case Leaf(_) => None
      case Dict(entries) => if path[0] in entries then Lookup(entries[path[0]], path[1..]) else None
      case List(items) =>
        var i := Index(path[0], |items|);
        if i.Some? then Lookup(items[i.value], path[1..]) else None
  }

  /** A list is entered by number: a segment that prints k finds item k, and any other
      segment finds nothing unless it reads as the number of an item. */
  lemma ItemFound(items: seq<Tree>, segment: string, rest: Path)
    ensures Lookup(List(items), [segment] + rest)
         == match Atoi(segment)
            case None => None
            case Some(i) => if 0 <= i < |items| then Lookup(items[i], rest) else None
    ensures forall k: nat {:trigger Itoa(k)} | segment == Itoa(k) ::
      Lookup(List(items), [segment] + rest) == if k < |items| then Lookup(items[k], rest) else None
  {
    assert ([segment] + rest)[1..] == rest;
    forall k: nat | segment == Itoa(k) ensures Atoi(segment) == Some(k) {
      AtoiOfItoa(k);
    }
  }

  // ----- ParseSetValues -----

  /** setNestedValue for the segments of a key. */
  function SetNested(m: Entries, path: Path, value: string): Result<Entries>
    requires path != []
    decreases path
  {
    if |path| == 1 then Ok(m[path[0] := Leaf(value)])
    else
      var child := if path[0] in m then m[path[0]] else Dict(map[]);
      if !child.Dict? then Panic
      else match SetNested(child.entries, path[1..], value)
        case Ok(inner) => Ok(m[path[0] := Dict(inner)])
        case Panic => Panic
  }

  /** A --set option after splitting: the key's segments and the value. */
  datatype Setting = Setting(path: Path, value: string)

  function Parse(settings: seq<Setting>): Result<Entries>
    requires forall k :: 0 <= k < |settings| ==> settings[k].path != []
  {
    if settings == [] then Ok(map[])
    else match Parse(settings[..|settings| - 1])
      case Ok(m) => SetNested(m, settings[|settings| - 1].path, settings[|settings| - 1].value)
      case Panic => Panic
  }

  /** strings.Split(key, "."), which never returns an empty list. */
  function Split(key: string): (path: Path)
    ensures path != []
  {
    if key == [] then [[]]
    else
      var before := Split(key[..|key| - 1]);
      if key[|key| - 1] == '.' then before + [[]]
      else before[..|before| - 1] + [before[|before| - 1] + [key[|key| - 1]]]
  }

  function Join(path: Path): string
    requires path != []
  {
    if |path| == 1 then path[0] else Join(path[..|path| - 1]) + "." + path[|path| - 1]
  }

  lemma JoinMore(path: Path, last: string)
    requires path != []
    ensures Join(path + [last]) == Join(path) + "." + last
  {
    assert (path + [last])[..|path|] == path;
  }

  /** One more character of the last segment. */
  lemma JoinLonger(head: Path, last: string, c: char)
    ensures Join(head + [last + [c]]) == Join(head + [last]) + [c]
  {
    if head != [] {
      JoinMore(head, last + [c]);
      JoinMore(head, last);
    }
  }

  /** Splitting loses nothing of a key. */
  lemma {:induction false} JoinOfSplit(key: string)
    ensures Join(Split(key)) == key
    decreases |key|
  {
    hide Join;
    if key == [] {
      JoinOne("");
    } else {
      var init, c := key[..|key| - 1], key[|key| - 1];
      var before := Split(init);
      JoinOfSplit(init);
      assert key == init + [c];
      if c == '.' {
        JoinMore(before, "");
      } else {
        var head, last := before[..|before| - 1], before[|before| - 1];
        assert before == head + [last];
        JoinLonger(head, last, c);
      }
    }
  }

  lemma JoinOne(segment: string)
    ensures Join([segment]) == segment
  {
  }

  ghost predicate DotFree(path: Path) {
    forall k :: 0 <= k < |path| ==> '.' !in path[k]
  }

  /** No segment of a split key holds a dot. */
  lemma {:induction false} SplitAtDots(key: string)
    ensures DotFree(Split(key))
    decreases |key|
  {
    if key != [] {
      SplitAtDots(key[..|key| - 1]);
    }
  }

  lemma {:induction false} SplitSegment(segment: string)
    requires '.' !in segment
    ensures Split(segment) == [segment]
    decreases |segment|
  {
    if segment != [] {
      SplitSegment(segment[..|segment| - 1]);
      assert segment == segment[..|segment| - 1] + [segment[|segment| - 1]];
    }
  }

  lemma {:induction false} SplitAppend(head: string, segment: string)
    requires '.' !in segment
    ensures Split(head + "." + segment) == Split(head) + [segment]
    decreases |segment|
  {
    var key := head + "." + segment;
    if segment == [] {
      assert key[..|key| - 1] == head;
    } else {
      var init, c := segment[..|segment| - 1], segment[|segment| - 1];
      assert segment == init + [c];
      assert key[..|key| - 1] == head + "." + init && key[|key| - 1] == c;
      SplitAppend(head, init);
    }
  }

  /** Splitting undoes joining whenever no segment holds a dot. */
  lemma {:induction false} SplitOfJoin(path: Path)
    requires path != [] && DotFree(path)
    ensures Split(Join(path)) == path
    decreases |path|
  {
    hide Split;
    var rest, last := path[..|path| - 1], path[|path| - 1];
    assert path == rest + [last];
    if rest == [] {
      SplitSegment(last);
    } else {
      SplitOfJoin(rest);
      SplitAppend(Join(rest), last);
    }
  }

  // ----- What Parse builds -----

  /** The first non-map on the way to path. */
  ghost predicate Blocked(m: Entries, path: Path) {
    exists n :: 0 < n < |path| && Lookup(Dict(m), path[..n]).Some? && !Lookup(Dict(m), path[..n]).value.Dict?
  }

  lemma LookupStep(m: Entries, path: Path, n: nat)
    requires 0 < n <= |path|
    ensures Lookup(Dict(m), path[..n])
         == if path[0] in m then Lookup(m[path[0]], path[1..][..n - 1]) else None
  {
    assert path[..n][1..] == path[1..][..n - 1];
  }

  lemma {:induction false} SetNestedPanics(m: Entries, path: Path, value: string)
    requires path != []
    ensures SetNested(m, path, value).Panic? <==> Blocked(m, path)
    decreases path
  {
    if |path| > 1 {
      var rest := path[1..];
      var child := if path[0] in m then m[path[0]] else Dict(map[]);
      LookupStep(m, path, 1);
      assert rest[..0] == [];
      if child.Dict? {
        SetNestedPanics(child.entries, rest, value);
        if Blocked(child.entries, rest) {
          var n :| 0 < n < |rest| && Lookup(child, rest[..n]).Some? && !Lookup(child, rest[..n]).value.Dict?;
          LookupStep(m, path, n + 1);
        }
        if Blocked(m, path) {
          var n :| 0 < n < |path| && Lookup(Dict(m), path[..n]).Some? && !Lookup(Dict(m), path[..n]).value.Dict?;
          LookupStep(m, path, n);
        }
      }
    }
  }

  /** What any path finds after one setNestedValue. */
  lemma {:induction false} SetNestedLookup(m: Entries, path: Path, value: string, q: Path)
    requires path != [] && SetNested(m, path, value).Ok?
    ensures
      var found := Lookup(Dict(SetNested(m, path, value).value), q);
      if q == path then found == Some(Leaf(value))
      else if path < q then found == None
      else if q < path then found.Some? && found.value.Dict?
      else found == Lookup(Dict(m), q)
    decreases path
  {
    if q != [] && q[0] == path[0] {
      assert path == [path[0]] + path[1..] && q == [q[0]] + q[1..];
      assert q == path <==> q[1..] == path[1..];
      if |path| > 1 {
        var child := if path[0] in m then m[path[0]] else Dict(map[]);
        SetNestedLookup(child.entries, path[1..], value, q[1..]);
        assert path < q <==> path[1..] < q[1..];
        assert q < path <==> q[1..] < path[1..];
      }
    }
  }

  ghost predicate ValidSettings(settings: seq<Setting>) {
    forall k :: 0 <= k < |settings| ==> settings[k].path != []
  }

  ghost predicate IsKey(settings: seq<Setting>, p: Path) {
    exists k :: 0 <= k < |settings| && settings[k].path == p
  }

  /** Scalars sit at keys only, and every key has a scalar on its way. */
  ghost predicate Planted(settings: seq<Setting>, m: Entries) {
    && (forall q: Path :: Lookup(Dict(m), q).Some? && !Lookup(Dict(m), q).value.Dict? ==>
          IsKey(settings, q) && Lookup(Dict(m), q).value.Leaf?)
    && (forall k :: 0 <= k < |settings| ==> ScalarOn(m, settings[k].path))
  }

  ghost predicate ScalarOn(m: Entries, path: Path) {
    exists n :: 0 < n <= |path| && Lookup(Dict(m), path[..n]).Some? && Lookup(Dict(m), path[..n]).value.Leaf?
  }

  lemma EmptyPlanted()
    ensures Planted([], map[])
  {
    forall q: Path ensures !(Lookup(Dict(map[]), q).Some? && !Lookup(Dict(map[]), q).value.Dict?) {
    }
  }

  lemma WayIsMaps(m: Entries, path: Path, q: Path)
    requires !Blocked(m, path) && q != [] && q < path && Lookup(Dict(m), q).Some?
    ensures Lookup(Dict(m), q).value.Dict?
  {
    assert path[..|q|] == q;
  }

  lemma PlantedStep(settings: seq<Setting>, m: Entries, s: Setting)
    requires Planted(settings, m) && s.path != [] && SetNested(m, s.path, s.value).Ok?
    ensures Planted(settings + [s], SetNested(m, s.path, s.value).value)
  {
    var m2, all := SetNested(m, s.path, s.value).value, settings + [s];
    SetNestedPanics(m, s.path, s.value);
    assert all[|settings|] == s;
    assert forall k :: 0 <= k < |settings| ==> all[k] == settings[k];
    forall q: Path | Lookup(Dict(m2), q).Some? && !Lookup(Dict(m2), q).value.Dict?
      ensures IsKey(all, q) && Lookup(Dict(m2), q).value.Leaf?
    {
      SetNestedLookup(m, s.path, s.value, q);
      if q != s.path {
        var k :| 0 <= k < |settings| && settings[k].path == q;
        assert all[k].path == q;
      }
    }
    forall k | 0 <= k < |all| ensures ScalarOn(m2, all[k].path) {
      if k == |settings| {
        SetNestedLookup(m, s.path, s.value, s.path);
        assert s.path[..|s.path|] == s.path;
      } else {
        var path := settings[k].path;
        var n :| 0 < n <= |path| && Lookup(Dict(m), path[..n]).Some? && Lookup(Dict(m), path[..n]).value.Leaf?;
        SetNestedLookup(m, s.path, s.value, path[..n]);
        if s.path < path[..n] {
          SetNestedLookup(m, s.path, s.value, s.path);
          assert path[..|s.path|] == s.path;
        } else if path[..n] < s.path {
          WayIsMaps(m, s.path, path[..n]);
          assert false;
        }
      }
    }
  }

  /** Some earlier key is a proper prefix of a later one. */
  ghost predicate Extends(settings: seq<Setting>) {
    exists i, j :: 0 <= i < j < |settings| && settings[i].path < settings[j].path
  }

  /** ParseSetValues panics exactly when some key goes beyond an earlier one, as in
      a=1 followed by a.b=2; otherwise scalars sit at keys only. */
  lemma {:induction false} ParsePanicsIff(settings: seq<Setting>)
    requires ValidSettings(settings)
    ensures Parse(settings).Panic? <==> Extends(settings)
    ensures Parse(settings).Ok? ==> Planted(settings, Parse(settings).value)
    decreases |settings|
  {
    if settings == [] {
      EmptyPlanted();
    } else {
      var init, s := settings[..|settings| - 1], settings[|settings| - 1];
      assert settings == init + [s];
      ParsePanicsIff(init);
      ExtendsStep(init, s);
      hide Extends;
      if Parse(init).Ok? {
        var m := Parse(init).value;
        SetNestedPanics(m, s.path, s.value);
        BlockedIff(init, m, s.path);
        hide Planted, Blocked, SetNested;
        if SetNested(m, s.path, s.value).Ok? {
          PlantedStep(init, m, s);
        }
      }
    }
  }

  lemma ExtendsStep(init: seq<Setting>, s: Setting)
    ensures Extends(init + [s])
       <==> Extends(init) || exists i :: 0 <= i < |init| && init[i].path < s.path
  {
    var all := init + [s];
    if Extends(init) {
      var i, j :| 0 <= i < j < |init| && init[i].path < init[j].path;
      assert all[i].path < all[j].path;
    }
    if i :| 0 <= i < |init| && init[i].path < s.path {
      assert all[i].path < all[|init|].path;
    }
  }

  lemma BlockedIff(settings: seq<Setting>, m: Entries, path: Path)
    requires Planted(settings, m) && ValidSettings(settings)
    ensures Blocked(m, path) <==> exists i :: 0 <= i < |settings| && settings[i].path < path
  {
    if Blocked(m, path) {
      var n :| 0 < n < |path| && Lookup(Dict(m), path[..n]).Some? && !Lookup(Dict(m), path[..n]).value.Dict?;
      assert IsKey(settings, path[..n]);
    }
    if i :| 0 <= i < |settings| && settings[i].path < path {
      assert ScalarOn(m, settings[i].path);
      var key := settings[i].path;
      var n :| 0 < n <= |key| && Lookup(Dict(m), key[..n]).Some? && Lookup(Dict(m), key[..n]).value.Leaf?;
      assert path[..n] == key[..n];
    }
  }

  /** a=1 followed by a.b=2 panics. */
  lemma PanicCase()
    ensures Parse([Setting(["a"], "1"), Setting(["a", "b"], "2")]).Panic?
  {
    var settings := [Setting(["a"], "1"), Setting(["a", "b"], "2")];
    assert settings[0].path < settings[1].path;
    ParsePanicsIff(settings);
  }

  /** One path leads along the other. */
  predicate Comparable(p: Path, q: Path) { p <= q || q <= p }

  /** The last setting whose key is comparable with q. */
  function Deciding(settings: seq<Setting>, q: Path): Option<Setting> {
    if settings == [] then None
    else
      var last := settings[|settings| - 1];
      if Comparable(last.path, q) then Some(last) else Deciding(settings[..|settings| - 1], q)
  }

  lemma {:induction false} DecidingIsSetting(settings: seq<Setting>, q: Path)
    ensures Deciding(settings, q).Some? ==>
      exists k :: 0 <= k < |settings| && settings[k] == Deciding(settings, q).value && Comparable(settings[k].path, q)
    ensures Deciding(settings, q).None? <==> forall k :: 0 <= k < |settings| ==> !Comparable(settings[k].path, q)
    decreases |settings|
  {
    hide Comparable;
    if settings != [] {
      DecidingIsSetting(settings[..|settings| - 1], q);
    }
  }

  /** What looking up q should find: the value of the deciding setting at its own key, a
      map on the way to it, nothing beyond it, and nothing when no setting decides. */
  ghost predicate Finds(settings: seq<Setting>, q: Path, found: Option<Tree>) {
    match Deciding(settings, q)
    case None => found == None
    case Some(s) =>
      if s.path == q then found == Some(Leaf(s.value))
      else if q < s.path then found.Some? && found.value.Dict?
      else found == None
  }

  lemma FindsStep(init: seq<Setting>, m: Entries, s: Setting, q: Path)
    requires Finds(init, q, Lookup(Dict(m), q)) && s.path != [] && SetNested(m, s.path, s.value).Ok?
    ensures Finds(init + [s], q, Lookup(Dict(SetNested(m, s.path, s.value).value), q))
  {
    hide SetNested, Lookup;
    SetNestedLookup(m, s.path, s.value, q);
    assert (init + [s])[..|init|] == init;
  }

  /** What ParseSetValues builds whenever it does not panic: of all settings whose keys
      are comparable with a path, the last one decides what the path finds. */
  lemma {:induction false} ParseLookup(settings: seq<Setting>, q: Path)
    requires ValidSettings(settings) && !Extends(settings) && q != []
    ensures Parse(settings).Ok?
    ensures Finds(settings, q, Lookup(Dict(Parse(settings).value), q))
    decreases |settings|
  {
    hide Extends, Planted, SetNested, Lookup, Finds;
    ParsePanicsIff(settings);
    if settings == [] {
      FindsNothing(q);
    } else {
      var init, s := settings[..|settings| - 1], settings[|settings| - 1];
      assert settings == init + [s];
      ExtendsStep(init, s);
      ParseLookup(init, q);
      FindsStep(init, Parse(init).value, s, q);
    }
  }

  lemma FindsNothing(q: Path)
    requires q != []
    ensures Finds([], q, Lookup(Dict(map[]), q))
  {
  }

  // ----- The loop over the --set options -----

  predicate IsSpace(c: char) { c == ' ' || '\t' <= c <= '\r' }

  /** strings.TrimSpace on ASCII text. */
  function Trim(s: string): (t: string)
    ensures t != [] ==> !IsSpace(t[0]) && !IsSpace(t[|t| - 1])
  {
    if s == [] then s
    else if IsSpace(s[0]) then Trim(s[1..])
    else if IsSpace(s[|s| - 1]) then Trim(s[..|s| - 1])
    else s
  }

  /** ASCII white space. */
  ghost predicate White(c: char) {
    c in {' ', '\t', '\n', 11 as char, 12 as char, '\r'}
  }

  ghost predicate AllWhite(s: string) { forall k :: 0 <= k < |s| ==> White(s[k]) }

  ghost predicate Trimmed(s: string) { s != [] ==> !White(s[0]) && !White(s[|s| - 1]) }

  /** t with white space around it. */
  ghost predicate Padded(s: string, lead: string, t: string, trail: string) {
    s == lead + t + trail && AllWhite(lead) && AllWhite(trail)
  }

  lemma PadMore(s: string, lead: string, t: string, trail: string, c: char)
    requires Padded(s, lead, t, trail) && White(c)
    ensures Padded([c] + s, [c] + lead, t, trail) && Padded(s + [c], lead, t, trail + [c])
  {
    hide White;
  }

  /** Trimming takes off the white space at both ends, all of it and nothing else. */
  lemma {:induction false} TrimStrips(s: string) returns (lead: string, trail: string)
    ensures Padded(s, lead, Trim(s), trail) && Trimmed(Trim(s))
    decreases |s|
  {
    SpacesAreWhite();
    hide White, IsSpace;
    lead, trail := "", "";
    if s != [] && IsSpace(s[0]) {
      var rest := s[1..];
      lead, trail := TrimStrips(rest);
      assert s == [s[0]] + rest;
      hide Padded;
      PadMore(rest, lead, Trim(rest), trail, s[0]);
      lead := [s[0]] + lead;
    } else if s != [] && IsSpace(s[|s| - 1]) {
      var rest, last := s[..|s| - 1], s[|s| - 1];
      lead, trail := TrimStrips(rest);
      assert s == rest + [last];
      hide Padded;
      PadMore(rest, lead, Trim(rest), trail, last);
      trail := trail + [last];
    }
  }

  lemma SpacesAreWhite()
    ensures forall c :: IsSpace(c) <==> White(c)
  {
  }

  /** The position of the first "=", or the length when there is none. */
  function Cut(s: string): (i: nat)
    ensures i <= |s| && '=' !in s[..i] && (i < |s| ==> s[i] == '=')
  {
    if s == [] then 0 else if s[0] == '=' then 0 else 1 + Cut(s[1..])
  }

  predicate Blank(pair: string) { Trim(pair) == [] }

  predicate WellFormed(pair: string) { Blank(pair) || '=' in Trim(pair) }

  function ToSetting(pair: string): Setting
    requires WellFormed(pair) && !Blank(pair)
  {
    var p := Trim(pair);
    Setting(Split(Trim(p[..Cut(p)])), Trim(p[Cut(p) + 1..]))
  }

  /** The options up to the first malformed one, without the blank ones. */
  function Settings(pairs: seq<string>): (settings: seq<Setting>)
    ensures forall k :: 0 <= k < |settings| ==> settings[k].path != []
  {
    if pairs == [] then []
    else
      var (init, last) := (pairs[..|pairs| - 1], pairs[|pairs| - 1]);
      Settings(init) +
      if WellFormed(last) && !Blank(last) && AllWellFormed(init) then [ToSetting(last)] else []
  }

  /** A setting written out, key segments joined by dots, is read back as it was; the key
      has no white space at its ends and no equals sign, and the value no white space at
      its ends. */
  lemma SettingOfText(path: Path, value: string)
    requires path != [] && DotFree(path) && '=' !in Join(path) && Trimmed(Join(path)) && Trimmed(value)
    ensures
      var text := Join(path) + "=" + value;
      WellFormed(text) && !Blank(text) && ToSetting(text) == Setting(path, value)
  {
    var key, text := Join(path), Join(path) + "=" + value;
    assert text[|key|] == '=';
    assert Trim(text) == text;
    hide Trim, White, IsSpace;
    CutAt(key, value);
    assert text[..|key|] == key && text[|key| + 1..] == value;
    TrimKeeps(key);
    TrimKeeps(value);
    SplitOfJoin(path);
  }

  lemma TrimKeeps(s: string)
    requires Trimmed(s)
    ensures Trim(s) == s
  {
  }

  /** The value may hold equals signs: the first one counts. */
  lemma CutAt(key: string, value: string)
    requires '=' !in key
    ensures Cut(key + "=" + value) == |key|
  {
    var text := key + "=" + value;
    assert text[|key|] == '=';
  }

  predicate AllWellFormed(pairs: seq<string>) {
    forall k :: 0 <= k < |pairs| ==> WellFormed(pairs[k])
  }

  datatype Outcome = Parsed(entries: Entries) | Malformed(pair: string) | Panicked

  lemma SettingsStep(pairs: seq<string>, n: nat)
    requires n < |pairs| && AllWellFormed(pairs[..n])
    ensures Settings(pairs[..n + 1])
         == Settings(pairs[..n]) + if WellFormed(pairs[n]) && !Blank(pairs[n]) then [ToSetting(pairs[n])] else []
  {
    assert pairs[..n + 1][..n] == pairs[..n];
  }

  /** What is wrong with the first n options stays wrong with all of them. */
  lemma {:induction false} ExtendsStays(pairs: seq<string>, n: nat)
    requires n <= |pairs| && Extends(Settings(pairs[..n]))
    ensures Extends(Settings(pairs))
    decreases |pairs|
  {
    if n == |pairs| {
      assert pairs[..n] == pairs;
    } else {
      var init := pairs[..|pairs| - 1];
      assert init[..n] == pairs[..n];
      ExtendsStays(init, n);
      var i, j :| 0 <= i < j < |Settings(init)| && Settings(init)[i].path < Settings(init)[j].path;
      assert Settings(pairs)[..|Settings(init)|] == Settings(init);
      assert Settings(pairs)[i].path < Settings(pairs)[j].path;
    }
  }

  lemma ParseStep(settings: seq<Setting>, s: Setting)
    requires ValidSettings(settings) && s.path != [] && Parse(settings).Ok?
    ensures Parse(settings + [s]) == SetNested(Parse(settings).value, s.path, s.value)
    ensures Parse(settings + [s]).Panic? <==> Extends(settings + [s])
  {
    ParsePanicsIff(settings + [s]);
    assert (settings + [s])[..|settings|] == settings;
    hide Extends, Planted;
  }

  /** The first n options were usable and the next one is malformed. */
  ghost predicate MalformedAt(pairs: seq<string>, n: nat) {
    n < |pairs| && AllWellFormed(pairs[..n]) && !Extends(Settings(pairs[..n])) && !WellFormed(pairs[n])
  }

  /** The first n options were usable and the next one's key extends an earlier key. */
  ghost predicate ExtendsAt(pairs: seq<string>, n: nat) {
    && n < |pairs| && AllWellFormed(pairs[..n + 1])
    && !Extends(Settings(pairs[..n])) && Extends(Settings(pairs[..n + 1]))
  }

  /** ParseSetValues stops at the first option it cannot use: a malformed one is
      reported, one whose key extends an earlier key panics. */
  method ParseSetValues(pairs: seq<string>) returns (r: Outcome)
    ensures r.Parsed? <==> AllWellFormed(pairs) && !Extends(Settings(pairs))
    ensures r.Parsed? ==> Parse(Settings(pairs)) == Ok(r.entries)
    ensures r.Malformed? ==> exists n: nat :: MalformedAt(pairs, n) && r.pair == Trim(pairs[n])
    ensures r.Panicked? ==> exists n: nat :: ExtendsAt(pairs, n)
  {
    hide Settings, Parse, SetNested, Extends, Trim, Split, Cut;
    var result: Entries := map[];
    assert Parse(Settings(pairs[..0])) == Ok(result) && !Extends(Settings(pairs[..0])) by {
      NothingSet(pairs[..0]);
    }
    for n := 0 to |pairs|
      invariant AllWellFormed(pairs[..n]) && !Extends(Settings(pairs[..n]))
      invariant Parse(Settings(pairs[..n])) == Ok(result)
    {
      var pair := Trim(pairs[n]);
      SettingsStep(pairs, n);
      if pair == [] {
        assert Settings(pairs[..n + 1]) == Settings(pairs[..n]);
        continue;
      }
      var eq := Cut(pair);
      if eq == |pair| {
        assert pair[..eq] == pair;
        assert MalformedAt(pairs, n);
        return Malformed(pair);
      }
      assert WellFormed(pairs[n]) by { assert pair[eq] == '='; }
      var path, value := Split(Trim(pair[..eq])), Trim(pair[eq + 1..]);
      var nested := SetNested(result, path, value);
      ParseStep(Settings(pairs[..n]), Setting(path, value));
      if nested.Panic? {
        assert ExtendsAt(pairs, n);
        ExtendsStays(pairs, n + 1);
        return Panicked;
      }
      result := nested.value;
    }
    assert pairs[..|pairs|] == pairs;
    return Parsed(result);
  }

  lemma NothingSet(pairs: seq<string>)
    requires pairs == []
    ensures Settings(pairs) == [] && !Extends([]) && Parse([]) == Ok(map[])
  {
  }
}
