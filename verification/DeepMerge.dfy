/** deepMerge lays the tree of --set values over the decoded configuration, walking
    into its lists by number. */
module DeepMerge {
  import opened Decimal
  import opened Options
  import opened SetValues

  ghost predicate Names(entries: Entries, key: string, i: nat, n: nat) {
    key in entries && Index(key, n) == Some(i)
  }

  /** A key of entries that names position i of a list of n items. */
  ghost function KeyOf(entries: Entries, i: nat, n: nat): (key: Option<string>)
    ensures key.Some? ==> Names(entries, key.value, i, n)
    ensures key.None? ==> forall k :: !Names(entries, k, i, n)
  {
    if exists k :: Names(entries, k, i, n) then
      var k :| Names(entries, k, i, n);
      Some(k)
    else None
  }

  /** What deepMerge leaves at a key that held d when the source has s there. A map over
      a map merges key by key, a map over a list goes by position and leaves out the keys
      that name none, and anything else overrides. */
  ghost function Over(d: Tree, s: Tree): Tree
    decreases s, 0
  {
    if !s.Dict? || d.Leaf? then s
    else if d.Dict? then
      Dict(map key | key in d.entries.Keys + s.entries.Keys ::
        if key !in s.entries then d.entries[key]
        else if key !in d.entries then s.entries[key]
        else Over(d.entries[key], s.entries[key]))
    else
      List(seq(|d.items|, i requires 0 <= i < |d.items| =>
        var key := KeyOf(s.entries, i, |d.items|);
        if key.None? then d.items[i] else OverItem(d.items[i], s.entries[key.value])))
  }

  /** A list item: only a map under a map is merged. */
  ghost function OverItem(item: Tree, s: Tree): Tree
    decreases s, 1
  {
    if item.Dict? then Over(item, s) else s
  }

  /** A tree of maps and scalars, as --set builds them. */
  ghost predicate ListFree(t: Tree)
    decreases t
  {
    match t
    case Leaf(_) => true
    case List(_) => false
    case Dict(entries) => forall k :: k in entries ==> ListFree(entries[k])
  }

  /** No two keys name the same position of a list of n items, as "1" and "01" would. */
  ghost predicate OneKeyPerItem(entries: Entries, n: nat) {
    forall a, b :: a in entries && b in entries && Index(a, n).Some? && Index(a, n) == Index(b, n) ==> a == b
  }

  /** Wherever a map of the source meets a list of the document, each item is named by
      one key at most. */
  ghost predicate Clear(d: Tree, s: Tree)
    decreases s
  {
    s.Dict? ==> match d
    case Leaf(_) => true
    case Dict(entries) => forall k :: k in s.entries && k in entries ==> Clear(entries[k], s.entries[k])
    case List(items) =>
      && OneKeyPerItem(s.entries, |items|)
      && forall k :: k in s.entries && Index(k, |items|).Some? && items[Index(k, |items|).value].Dict? ==>
           Clear(items[Index(k, |items|).value], s.entries[k])
  }

  /** Wherever q enters a list that a map of the source meets, no key but q's own names
      that item. */
  ghost predicate NoAlias(d: Tree, s: Tree, q: Path)
    decreases q
  {
    q != [] && s.Dict? ==> match d
    case Leaf(_) => true
    case Dict(entries) =>
      q[0] in s.entries && q[0] in entries ==> NoAlias(entries[q[0]], s.entries[q[0]], q[1..])
    case List(items) =>
      var i := Index(q[0], |items|);
      i.Some? ==>
        && (forall k :: k in s.entries && Index(k, |items|) == i ==> k == q[0])
        && (q[0] in s.entries && items[i.value].Dict? ==> NoAlias(items[i.value], s.entries[q[0]], q[1..]))
  }

  /** For the source's own paths that follows from Clear. */
  lemma {:induction false} ClearNoAlias(d: Tree, s: Tree, q: Path)
    requires Clear(d, s) && Lookup(s, q).Some? && ListFree(s)
    ensures NoAlias(d, s, q)
    decreases q
  {
    hide Index;
    if q != [] && s.Dict? {
      match d
      case Leaf(_) =>
      case Dict(entries) => if q[0] in entries { ClearNoAlias(entries[q[0]], s.entries[q[0]], q[1..]); }
      case List(items) =>
        var i := Index(q[0], |items|);
        if i.Some? && items[i.value].Dict? { ClearNoAlias(items[i.value], s.entries[q[0]], q[1..]); }
    }
  }

  // ----- One step of a lookup -----

  lemma OverListStep(d: Tree, s: Tree, q: Path)
    requires d.List? && s.Dict? && q != [] && NoAlias(d, s, q)
    ensures Lookup(Over(d, s), q)
         == match Index(q[0], |d.items|)
            case None => None
            case Some(i) =>
              if q[0] in s.entries then Lookup(OverItem(d.items[i], s.entries[q[0]]), q[1..])
              else Lookup(d, q)
  {
    hide Over, Index;
    OverListItems(d, s);
    var at := Index(q[0], |d.items|);
    if at.Some? {
      var key := KeyOf(s.entries, at.value, |d.items|);
      if key.None? {
        assert !Names(s.entries, q[0], at.value, |d.items|);
      }
    }
  }

  lemma OverListItems(d: Tree, s: Tree)
    requires d.List? && s.Dict?
    ensures Over(d, s).List? && |Over(d, s).items| == |d.items|
    ensures forall i :: 0 <= i < |d.items| ==>
      Over(d, s).items[i]
      == (var key := KeyOf(s.entries, i, |d.items|);
          if key.None? then d.items[i] else OverItem(d.items[i], s.entries[key.value]))
  {
  }

  /** A map with one numeric key over a list changes that item alone, merging map into map
      and overriding otherwise; a number that is no position changes nothing. */
  lemma OneItem(items: seq<Tree>, k: nat, v: Tree)
    ensures Over(List(items), Dict(map[Itoa(k) := v]))
         == if k < |items| then List(items[k := if items[k].Dict? then Over(items[k], v) else v]) else List(items)
  {
    var d, s := List(items), Dict(map[Itoa(k) := v]);
    AtoiOfItoa(k);
    OverListItems(d, s);
    hide Over, Itoa, Atoi;
    forall i | 0 <= i < |items|
      ensures Over(d, s).items[i] == if i == k then (if items[k].Dict? then Over(items[k], v) else v) else items[i]
    {
      assert i == k ==> Names(s.entries, Itoa(k), i, |items|);
    }
  }

  /** --set jobs.0=v over a list of two changes the first item. */
  lemma FirstItemCase()
    ensures Over(List([Leaf("x"), Leaf("y")]), Dict(map["0" := Leaf("v")])) == List([Leaf("v"), Leaf("y")])
  {
    assert Itoa(0) == "0";
    OneItem([Leaf("x"), Leaf("y")], 0, Leaf("v"));
  }

  // ----- The two loops -----

  /** deepMerge. The keys are ranged over in any order. */
  method Merge(dst: Tree, src: Tree) returns (merged: Tree)
    requires dst.Dict? && src.Dict? && Clear(dst, src)
    ensures merged == Over(dst, src)
    decreases src, 1
  {
    var out, todo := dst.entries, src.entries.Keys;
    while todo != {}
      invariant todo <= src.entries.Keys
      invariant out.Keys == dst.entries.Keys + (src.entries.Keys - todo)
      invariant forall k :: k in out && k in todo ==> out[k] == dst.entries[k]
      invariant forall k :: k in out && k !in todo ==> out[k] == Over(dst, src).entries[k]
    {
      var key :| key in todo;
      todo := todo - {key};
      var srcVal := src.entries[key];
      if key !in out {
        out := out[key := srcVal];
      } else {
        var dstVal := out[key];
        if dstVal.List? && srcVal.Dict? {
          var items := MergeItems(dstVal.items, srcVal);
          out := out[key := List(items)];
        } else if dstVal.Dict? && srcVal.Dict? {
          var inner := Merge(dstVal, srcVal);
          out := out[key := inner];
        } else {
          out := out[key := srcVal];
        }
      }
    }
    merged := Dict(out);
    assert out == Over(dst, src).entries;
  }

  /** deepMerge's inner loop, over the keys of a map that meets a list. */
  method MergeItems(items: seq<Tree>, src: Tree) returns (merged: seq<Tree>)
    requires src.Dict? && Clear(List(items), src)
    ensures List(merged) == Over(List(items), src)
    decreases src, 0
  {
    ghost var done: set<string> := {};
    var todo := src.entries.Keys;
    merged := items;
    OverListItems(List(items), src);
    while todo != {}
      invariant done + todo == src.entries.Keys && done !! todo && |merged| == |items|
      invariant forall i :: 0 <= i < |items| ==>
        merged[i] == (var key := KeyOf(src.entries, i, |items|);
                      if key.Some? && key.value in done then OverItem(items[i], src.entries[key.value]) else items[i])
    {
      hide Over, OverItem, Index;
      var idxStr :| idxStr in todo;
      todo, done := todo - {idxStr}, done + {idxStr};
      var idx := Index(idxStr, |merged|);
      OneKeyEach(src.entries, idxStr, |items|);
      if idx.Some? {
        var idxVal := src.entries[idxStr];
        if merged[idx.value].Dict? && idxVal.Dict? {
          var inner := Merge(merged[idx.value], idxVal);
          merged := merged[idx.value := inner];
        } else {
          merged := merged[idx.value := idxVal];
        }
      }
    }
  }

  /** key is the only key for its position. */
  lemma OneKeyEach(entries: Entries, key: string, n: nat)
    requires key in entries && OneKeyPerItem(entries, n)
    ensures forall i: nat :: KeyOf(entries, i, n) == Some(key) <==> Index(key, n) == Some(i)
  {
    hide Index;
    forall i: nat ensures KeyOf(entries, i, n) == Some(key) <==> Index(key, n) == Some(i) {
      if Index(key, n) == Some(i) {
        assert Names(entries, key, i, n);
      }
    }
  }

  // ----- What the merged configuration holds -----

  /** Every list on the way is entered at one of its positions. A missing key or a scalar
      ends the walk: the rest of the path is created. */
  ghost predicate Addressable(d: Tree, path: Path)
    decreases path
  {
    path == [] || match d
    case Leaf(_) => true
    case Dict(entries) => path[0] in entries ==> Addressable(entries[path[0]], path[1..])
    case List(items) =>
      var i := Index(path[0], |items|);
      i.Some? && (items[i.value].Dict? ==> Addressable(items[i.value], path[1..]))
  }

  /** A scalar of the source is found at its own path exactly when the document can be
      entered along it; otherwise the setting is dropped in silence. */
  lemma {:induction false} MergedScalar(d: Tree, s: Tree, path: Path)
    requires ListFree(s) && NoAlias(d, s, path)
    requires Lookup(s, path).Some? && Lookup(s, path).value.Leaf?
    ensures Lookup(Over(d, s), path) == if Addressable(d, path) then Lookup(s, path) else None
    decreases path
  {
    hide Index;
    if path != [] && !d.Leaf? {
      var key, rest := path[0], path[1..];
      var sc := s.entries[key];
      if d.Dict? {
        if key in d.entries {
          MergedScalar(d.entries[key], sc, rest);
        }
      } else {
        OverListStep(d, s, path);
        var i := Index(key, |d.items|);
        if i.Some? && d.items[i.value].Dict? {
          MergedScalar(d.items[i.value], sc, rest);
        }
      }
    }
  }

  /** --set a.3=v over a: [x] is dropped: the list has no position 3. */
  lemma DroppedCase()
    ensures
      var d := Dict(map["a" := List([Leaf("x")])]);
      var s := Dict(map["a" := Dict(map["3" := Leaf("v")])]);
      Lookup(s, ["a", "3"]) == Some(Leaf("v")) && Lookup(Over(d, s), ["a", "3"]) == None
  {
    var d := Dict(map["a" := List([Leaf("x")])]);
    var s := Dict(map["a" := Dict(map["3" := Leaf("v")])]);
    var path, rest := ["a", "3"], ["3"];
    assert path[1..] == rest && rest[1..] == [];
    assert Index("3", 1) == None by { assert Atoi("3") == Some(3); }
    hide Index, Over;
    assert Lookup(s.entries["a"], rest) == Some(Leaf("v"));
    assert NoAlias(d.entries["a"], s.entries["a"], rest);
    assert !Addressable(d.entries["a"], rest);
    assert ListFree(s.entries["a"]);
    MergedScalar(d, s, path);
  }

  /** The source's maps do not lead along q, and no scalar of it stands in the way. */
  ghost predicate Diverges(s: Tree, q: Path)
    decreases q
  {
    q != [] && s.Dict? && (q[0] in s.entries ==> Diverges(s.entries[q[0]], q[1..]))
  }

  /** On the way along q the source reaches a list held directly in a list, which it
      replaces, and q went on inside it. */
  ghost predicate DropsInnerList(d: Tree, s: Tree, q: Path)
    decreases q
  {
    q != [] && s.Dict? && q[0] in s.entries && match d
    case Leaf(_) => false
    case Dict(entries) => q[0] in entries && DropsInnerList(entries[q[0]], s.entries[q[0]], q[1..])
    case List(items) =>
      var i := Index(q[0], |items|);
      i.Some? && match items[i.value]
      case Leaf(_) => false
      case List(_) => Lookup(items[i.value], q[1..]).Some?
      case Dict(_) => DropsInnerList(items[i.value], s.entries[q[0]], q[1..])
  }

  lemma DivergingFindsNothing(s: Tree, q: Path)
    requires Diverges(s, q)
    ensures Lookup(s, q) == None
    decreases q
  {
    if q[0] in s.entries {
      DivergingFindsNothing(s.entries[q[0]], q[1..]);
    }
  }

  /** A path that no setting leads along finds after the merge what it found before,
      except inside a list directly in a list that a setting replaced. */
  lemma {:induction false} OthersUntouched(d: Tree, s: Tree, q: Path)
    requires NoAlias(d, s, q) && Diverges(s, q)
    ensures Lookup(Over(d, s), q) == Lookup(d, q) <==> !DropsInnerList(d, s, q)
    decreases q
  {
    hide Index;
    DivergingFindsNothing(s, q);
    if !d.Leaf? {
      var key, rest := q[0], q[1..];
      if d.Dict? {
        if key in s.entries && key in d.entries {
          OthersUntouched(d.entries[key], s.entries[key], rest);
        }
      } else {
        OverListStep(d, s, q);
        var i := Index(key, |d.items|);
        if i.Some? && key in s.entries {
          DivergingFindsNothing(s.entries[key], rest);
          if d.items[i.value].Dict? {
            OthersUntouched(d.items[i.value], s.entries[key], rest);
          }
        }
      }
    }
  }

  // ----- Lists -----

  /** No list is an item of a list. */
  ghost predicate FlatLists(d: Tree)
    decreases d
  {
    match d
    case Leaf(_) => true
    case Dict(entries) => forall k :: k in entries ==> FlatLists(entries[k])
    case List(items) => forall i :: 0 <= i < |items| ==> !items[i].List? && FlatLists(items[i])
  }

  lemma {:induction false} FlatKeepsInnerLists(d: Tree, s: Tree, q: Path)
    requires FlatLists(d)
    ensures !DropsInnerList(d, s, q)
    decreases q
  {
    hide Index;
    if q != [] && s.Dict? && q[0] in s.entries {
      match d
      case Leaf(_) =>
      case Dict(entries) => if q[0] in entries { FlatKeepsInnerLists(entries[q[0]], s.entries[q[0]], q[1..]); }
      case List(items) =>
        var i := Index(q[0], |items|);
        if i.Some? { FlatKeepsInnerLists(items[i.value], s.entries[q[0]], q[1..]); }
    }
  }

  /** No scalar of the source stands at path or on the way to it. */
  ghost predicate NoScalarOn(s: Tree, path: Path)
    decreases path
  {
    s.Dict? && (path != [] && path[0] in s.entries ==> NoScalarOn(s.entries[path[0]], path[1..]))
  }

  /** A list that no setting replaces, itself or around it, keeps its length; a list
      directly in a list is replaced when a setting reaches into it. */
  lemma {:induction false} ListsKeepLength(d: Tree, s: Tree, path: Path)
    requires ListFree(s) && NoAlias(d, s, path) && NoScalarOn(s, path)
    requires Lookup(d, path).Some? && Lookup(d, path).value.List?
    ensures
      var after := Lookup(Over(d, s), path);
      after.Some? && after.value.List? && |after.value.items| == |Lookup(d, path).value.items|
      <==> !DropsInnerList(d, s, path)
    decreases path
  {
    hide Index;
    if path == [] {
      OverListItems(d, s);
    } else {
      var key, rest := path[0], path[1..];
      if d.Dict? {
        if key in s.entries {
          ListsKeepLength(d.entries[key], s.entries[key], rest);
        }
      } else {
        OverListStep(d, s, path);
        var i := Index(key, |d.items|).value;
        if key in s.entries {
          if d.items[i].Dict? {
            ListsKeepLength(d.items[i], s.entries[key], rest);
          } else {
            NoListFound(s.entries[key], rest);
          }
        }
      }
    }
  }

  lemma {:induction false} NoListFound(s: Tree, path: Path)
    requires ListFree(s)
    ensures Lookup(s, path).Some? ==> !Lookup(s, path).value.List?
    decreases path
  {
    if path != [] && s.Dict? && path[0] in s.entries {
      NoListFound(s.entries[path[0]], path[1..]);
    }
  }

  // ----- Merging again -----

  lemma {:induction false} OverItself(s: Tree)
    ensures Over(s, s) == s
    decreases s
  {
    if s.Dict? {
      forall k | k in s.entries ensures Over(s.entries[k], s.entries[k]) == s.entries[k] {
        OverItself(s.entries[k]);
      }
      assert Over(s, s).entries == s.entries;
    }
  }

  /** Merging the same settings twice is merging them once. */
  lemma {:induction false} MergeIdempotent(d: Tree, s: Tree)
    ensures Over(Over(d, s), s) == Over(d, s)
    decreases s, 0
  {
    OverItself(s);
    if s.Dict? && d.Dict? {
      var r := Over(d, s);
      forall k | k in s.entries ensures Over(r.entries[k], s.entries[k]) == r.entries[k] {
        OverItself(s.entries[k]);
        if k in d.entries {
          MergeIdempotent(d.entries[k], s.entries[k]);
        }
      }
      assert Over(r, s).entries == r.entries;
    } else if s.Dict? && d.List? {
      hide Names;
      var r := Over(d, s);
      OverListItems(d, s);
      OverListItems(r, s);
      hide Over;
      forall i | 0 <= i < |d.items| ensures Over(r, s).items[i] == r.items[i] {
        var key := KeyOf(s.entries, i, |d.items|);
        if key.Some? {
          OverItemTwice(d.items[i], s.entries[key.value]);
        }
      }
      assert Over(r, s).items == r.items;
    }
  }

  lemma {:induction false} OverItemTwice(item: Tree, s: Tree)
    ensures OverItem(OverItem(item, s), s) == OverItem(item, s)
    decreases s, 1
  {
    hide Over;
    OverItself(s);
    MergeIdempotent(item, s);
    OverLeafOrDict(item, s);
  }

  lemma OverLeafOrDict(item: Tree, s: Tree)
    ensures item.Dict? && s.Dict? ==> Over(item, s).Dict?
    ensures !s.Dict? ==> Over(item, s) == s
  {
  }

  lemma {:induction false} ClearItself(s: Tree)
    requires ListFree(s)
    ensures Clear(s, s)
    decreases s
  {
    if s.Dict? {
      forall k | k in s.entries ensures Clear(s.entries[k], s.entries[k]) {
        ClearItself(s.entries[k]);
      }
    }
  }

  /** The merged configuration is one that deepMerge takes again, in any key order. */
  lemma {:induction false} ClearAgain(d: Tree, s: Tree)
    requires Clear(d, s) && ListFree(s)
    ensures Clear(Over(d, s), s)
    decreases s, 0
  {
    hide Index;
    var r := Over(d, s);
    if s.Dict? && d.Leaf? {
      ClearItself(s);
    } else if s.Dict? && d.Dict? {
      forall k | k in s.entries ensures Clear(r.entries[k], s.entries[k]) {
        ClearItself(s.entries[k]);
        if k in d.entries {
          ClearAgain(d.entries[k], s.entries[k]);
        }
      }
    } else if s.Dict? {
      OverListItems(d, s);
      hide Over;
      forall k | k in s.entries && Index(k, |d.items|).Some? && r.items[Index(k, |d.items|).value].Dict?
        ensures Clear(r.items[Index(k, |d.items|).value], s.entries[k])
      {
        OneKeyEach(s.entries, k, |d.items|);
        ClearItem(d.items[Index(k, |d.items|).value], s.entries[k]);
      }
    }
  }

  lemma {:induction false} ClearItem(item: Tree, s: Tree)
    requires ListFree(s) && (item.Dict? ==> Clear(item, s))
    ensures Clear(OverItem(item, s), s)
    decreases s, 1
  {
    if item.Dict? {
      ClearAgain(item, s);
    } else {
      ClearItself(s);
    }
  }

  // ----- From the command line to the configuration -----

  lemma {:induction false} SetNestedListFree(m: Entries, path: Path, value: string)
    requires path != [] && ListFree(Dict(m)) && SetNested(m, path, value).Ok?
    ensures ListFree(Dict(SetNested(m, path, value).value))
    decreases path
  {
    if |path| > 1 {
      var child := if path[0] in m then m[path[0]] else Dict(map[]);
      SetNestedListFree(child.entries, path[1..], value);
    }
  }

  lemma {:induction false} ParseListFree(settings: seq<Setting>)
    requires ValidSettings(settings) && Parse(settings).Ok?
    ensures ListFree(Dict(Parse(settings).value))
    decreases |settings|
  {
    if settings != [] {
      var init, s := settings[..|settings| - 1], settings[|settings| - 1];
      ParseListFree(init);
      SetNestedListFree(Parse(init).value, s.path, s.value);
    }
  }

  /** A --set key that no later key overrides finds its value in the merged configuration
      exactly when the document can be entered along the key. */
  lemma {:induction false} SettingsApply(document: Entries, settings: seq<Setting>, key: Path)
    requires ValidSettings(settings) && !Extends(settings) && Parse(settings).Ok? && key != []
    requires Deciding(settings, key).Some? && Deciding(settings, key).value.path == key
    requires NoAlias(Dict(document), Dict(Parse(settings).value), key)
    ensures Lookup(Over(Dict(document), Dict(Parse(settings).value)), key)
         == if Addressable(Dict(document), key) then Some(Leaf(Deciding(settings, key).value.value)) else None
  {
    ParseLookup(settings, key);
    ParseListFree(settings);
    MergedScalar(Dict(document), Dict(Parse(settings).value), key);
  }

  lemma {:induction false} DivergesIf(s: Tree, q: Path)
    requires s.Dict? && Lookup(s, q).None?
    requires forall n :: 0 < n < |q| && Lookup(s, q[..n]).Some? ==> Lookup(s, q[..n]).value.Dict?
    ensures Diverges(s, q)
    decreases q
  {
    if q[0] in s.entries {
      var child, rest := s.entries[q[0]], q[1..];
      assert rest == [] ==> Lookup(child, rest) == Some(child);
      LookupStep(s.entries, q, 1);
      assert rest[..0] == [];
      forall n | 0 < n < |rest| && Lookup(child, rest[..n]).Some? ensures Lookup(child, rest[..n]).value.Dict? {
        LookupStep(s.entries, q, n + 1);
      }
      DivergesIf(child, rest);
    }
  }

  lemma UndecidedDiverges(settings: seq<Setting>, q: Path)
    requires ValidSettings(settings) && !Extends(settings) && Deciding(settings, q).None? && q != []
    ensures Parse(settings).Ok? && Diverges(Dict(Parse(settings).value), q)
  {
    ParseLookup(settings, q);
    DecidingIsSetting(settings, q);
    hide Parse, Lookup, Deciding, Extends;
    var s := Dict(Parse(settings).value);
    forall n | 0 < n < |q| && Lookup(s, q[..n]).Some? ensures Lookup(s, q[..n]).value.Dict? {
      ParseLookup(settings, q[..n]);
      DecidingIsSetting(settings, q[..n]);
      assert forall k :: 0 <= k < |settings| && settings[k].path <= q[..n] ==> settings[k].path <= q;
    }
    DivergesIf(s, q);
  }

  /** A path that is comparable with no --set key stays as the file had it, except inside
      a list held directly in a list that a key reached into. */
  lemma {:induction false} SettingsLeaveRest(document: Entries, settings: seq<Setting>, q: Path)
    requires ValidSettings(settings) && !Extends(settings) && Deciding(settings, q).None? && q != []
    requires Parse(settings).Ok? && NoAlias(Dict(document), Dict(Parse(settings).value), q)
    ensures
      var s := Dict(Parse(settings).value);
      Lookup(Over(Dict(document), s), q) == Lookup(Dict(document), q)
      <==> !DropsInnerList(Dict(document), s, q)
    ensures FlatLists(Dict(document)) ==>
      Lookup(Over(Dict(document), Dict(Parse(settings).value)), q) == Lookup(Dict(document), q)
  {
    UndecidedDiverges(settings, q);
    var s := Dict(Parse(settings).value);
    OthersUntouched(Dict(document), s, q);
    if FlatLists(Dict(document)) {
      FlatKeepsInnerLists(Dict(document), s, q);
    }
  }

  /** --set a.0.5=v over a: [[x]] replaces the inner list, so what a.0.0 held is lost. */
  lemma InnerListLost()
    ensures
      var d := Dict(map["a" := List([List([Leaf("x")])])]);
      var s := Dict(map["a" := Dict(map["0" := Dict(map["5" := Leaf("v")])])]);
      var q := ["a", "0", "0"];
      Diverges(s, q) && Lookup(d, q) == Some(Leaf("x")) && Lookup(Over(d, s), q) != Lookup(d, q)
  {
    var d := Dict(map["a" := List([List([Leaf("x")])])]);
    var s := Dict(map["a" := Dict(map["0" := Dict(map["5" := Leaf("v")])])]);
    var q, rest, last := ["a", "0", "0"], ["0", "0"], ["0"];
    assert q[1..] == rest && rest[1..] == last && last[1..] == [];
    hide Atoi, Over;
    assert Lookup(d.entries["a"].items[0], last) == Some(Leaf("x"));
    assert Lookup(d.entries["a"], rest) == Some(Leaf("x"));
    assert DropsInnerList(d.entries["a"], s.entries["a"], rest);
    assert Diverges(s.entries["a"].entries["0"], last);
    assert Diverges(s.entries["a"], rest);
    assert NoAlias(d.entries["a"].items[0], s.entries["a"].entries["0"], last);
    assert NoAlias(d.entries["a"], s.entries["a"], rest);
    OthersUntouched(d, s, q);
  }
}
