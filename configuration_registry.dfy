/** `ConfigurationRegistry`: named configuration sources, lookups and updates
    of keys inside them, and the flattening of a source into path/value pairs.
    A source is a tree of sections; a key such as `a:b:c` names a path in it. */
module ConfigurationRegistry {
  import opened Wrappers
  import opened Exceptions
  import opened Text

  /** An `IConfigurationSection`: its key (the last segment of its path), its
      value, and its child sections in the order `GetChildren` lists them. */
  datatype Section = Section(key: string, value: Option<string>, children: seq<Section>)

  const KeyDelimiter: char := ':'

  /** What every configuration tree satisfies: sibling keys are distinct, and
      no key holds the delimiter (a delimiter in a key always makes a path). */
  predicate WellFormed(cs: seq<Section>)
    decreases cs
  {
    && (forall i, j :: 0 <= i < j < |cs| ==> cs[i].key != cs[j].key)
    && (forall i :: 0 <= i < |cs| ==> KeyDelimiter !in cs[i].key && WellFormed(cs[i].children))
  }

  /** An `IConfigurationRoot`: its top-level sections. */
  type ConfigurationRoot = cs: seq<Section> | WellFormed(cs) witness []

  /** Position of the first section with `key`, or `|cs|` when there is none. */
  function FindChild(cs: seq<Section>, key: string): (i: nat)
    ensures i <= |cs|
    ensures i < |cs| ==> cs[i].key == key
    ensures forall j :: 0 <= j < i ==> cs[j].key != key
  {
    if cs == [] then 0
    else if cs[0].key == key then 0
    else
      var i := 1 + FindChild(cs[1..], key);
      assert forall j :: 1 <= j < i ==> cs[j] == cs[1..][j - 1];
      i
  }

  lemma {:induction false} FindChildAppend(cs: seq<Section>, s: Section, key: string)
    ensures FindChild(cs + [s], key) == if FindChild(cs, key) < |cs| then FindChild(cs, key)
                                        else if s.key == key then |cs| else |cs| + 1
  {
    if cs != [] {
      assert (cs + [s])[1..] == cs[1..] + [s];
      FindChildAppend(cs[1..], s, key);
    }
  }

  lemma {:induction false} FindChildUpdate(cs: seq<Section>, i: nat, s: Section, key: string)
    requires i < |cs| && cs[i].key == s.key
    ensures FindChild(cs[i := s], key) == FindChild(cs, key)
  {
    if i > 0 {
      assert cs[i := s][1..] == cs[1..][i - 1 := s];
      FindChildUpdate(cs[1..], i - 1, s, key);
    }
  }

  /** The section at the path `segments`, following the first match at each level. */
  function Find(cs: seq<Section>, segments: seq<string>): (r: Option<Section>)
    requires |segments| >= 1
    ensures r.Some? ==> r.value.key == segments[|segments| - 1]
    decreases |segments|
  {
    var i := FindChild(cs, segments[0]);
    if i == |cs| then None
    else if |segments| == 1 then Some(cs[i])
    else Find(cs[i].children, segments[1..])
  }

  /** The value at the path `segments`; null when there is no such section. */
  function ValueOf(cs: seq<Section>, segments: seq<string>): Option<string>
    requires |segments| >= 1
  {
    match Find(cs, segments)
    case None => None
    case Some(s) => s.value
  }

  /** The chain of sections a new path creates, ending in the value. */
  function Create(segments: seq<string>, value: string): (r: Section)
    requires |segments| >= 1
    ensures r.key == segments[0]
    ensures ValueOf([r], segments) == Some(value)
    decreases |segments|
  {
    if |segments| == 1 then Section(segments[0], Some(value), [])
    else Section(segments[0], None, [Create(segments[1..], value)])
  }

  /** Setting the value at a path: the existing section is updated, or the
      missing sections are created. */
  function SetAt(cs: seq<Section>, segments: seq<string>, value: string): (r: seq<Section>)
    requires |segments| >= 1
    ensures |cs| <= |r| <= |cs| + 1
    ensures forall j :: 0 <= j < |cs| ==> r[j].key == cs[j].key
    decreases |segments|
  {
    var i := FindChild(cs, segments[0]);
    if i == |cs| then cs + [Create(segments, value)]
    else if |segments| == 1 then cs[i := cs[i].(value := Some(value))]
    else cs[i := cs[i].(children := SetAt(cs[i].children, segments[1..], value))]
  }

  /** A value set at a path is the value read back at that path. */
  lemma {:induction false} SetThenGet(cs: seq<Section>, segments: seq<string>, value: string)
    requires |segments| >= 1
    ensures ValueOf(SetAt(cs, segments, value), segments) == Some(value)
    decreases |segments|
  {
    var i := FindChild(cs, segments[0]);
    if i == |cs| {
      FindChildAppend(cs, Create(segments, value), segments[0]);
      assert SetAt(cs, segments, value)[|cs|] == Create(segments, value);
      if |segments| > 1 {
        assert SetAt([], segments[1..], value) == [Create(segments[1..], value)];
        SetThenGet([], segments[1..], value);
      }
    } else if |segments| == 1 {
      FindChildUpdate(cs, i, cs[i].(value := Some(value)), segments[0]);
    } else {
      FindChildUpdate(cs, i, cs[i].(children := SetAt(cs[i].children, segments[1..], value)), segments[0]);
      SetThenGet(cs[i].children, segments[1..], value);
    }
  }

  lemma SameHeadAndTail(a: seq<string>, b: seq<string>)
    requires |a| >= 1 && |b| >= 1
    ensures a[0] == b[0] && a[1..] == b[1..] ==> a == b
  {
    assert a == [a[0]] + a[1..] && b == [b[0]] + b[1..];
  }

  /** Setting a value at one path changes the value at no other path. */
  lemma {:induction false} SetKeepsOthers(cs: seq<Section>, segments: seq<string>, value: string, other: seq<string>)
    requires |segments| >= 1 && |other| >= 1 && other != segments
    ensures ValueOf(SetAt(cs, segments, value), other) == ValueOf(cs, other)
    decreases |segments|
  {
    var i := FindChild(cs, segments[0]);
    var updated := SetAt(cs, segments, value);
    if i == |cs| {
      FindChildAppend(cs, Create(segments, value), other[0]);
      assert updated[|cs|] == Create(segments, value);
      assert forall j :: 0 <= j < |cs| ==> updated[j] == cs[j];
      if other[0] != segments[0] {
        if FindChild(cs, other[0]) < |cs| {
          assert Find(updated, other) == Find(cs, other);
        } else {
          assert Find(updated, other) == None;
        }
      } else if |other| == 1 {
        assert |segments| > 1;
        assert Find(updated, other) == Some(Create(segments, value));
      } else if |segments| == 1 {
        assert Find(updated, other) == Find([], other[1..]);
      } else {
        SameHeadAndTail(other, segments);
        assert SetAt([], segments[1..], value) == [Create(segments[1..], value)];
        SetKeepsOthers([], segments[1..], value, other[1..]);
        assert Find(updated, other) == Find(SetAt([], segments[1..], value), other[1..]);
      }
    } else {
      var s := if |segments| == 1 then cs[i].(value := Some(value))
               else cs[i].(children := SetAt(cs[i].children, segments[1..], value));
      FindChildUpdate(cs, i, s, other[0]);
      if other[0] == segments[0] {
        if |segments| == 1 {
          SameHeadAndTail(other, segments);
          assert |other| > 1;
        } else if |other| > 1 {
          SameHeadAndTail(other, segments);
          SetKeepsOthers(cs[i].children, segments[1..], value, other[1..]);
        }
      }
    }
  }

  lemma {:induction false} CreateWellFormed(segments: seq<string>, value: string)
    requires |segments| >= 1 && forall k :: 0 <= k < |segments| ==> KeyDelimiter !in segments[k]
    ensures WellFormed([Create(segments, value)])
    decreases |segments|
  {
    if |segments| > 1 {
      CreateWellFormed(segments[1..], value);
      assert segments[1..][0] == segments[1];
    }
  }

  /** Setting a value keeps the tree a configuration tree. */
  lemma {:induction false} SetAtWellFormed(cs: seq<Section>, segments: seq<string>, value: string)
    requires WellFormed(cs)
    requires |segments| >= 1 && forall k :: 0 <= k < |segments| ==> KeyDelimiter !in segments[k]
    ensures WellFormed(SetAt(cs, segments, value))
    decreases |segments|
  {
    var i := FindChild(cs, segments[0]);
    var updated := SetAt(cs, segments, value);
    if i == |cs| {
      CreateWellFormed(segments, value);
      assert forall j :: 0 <= j < |cs| ==> updated[j] == cs[j];
    } else if |segments| > 1 {
      assert forall k :: 0 <= k < |segments| - 1 ==> segments[1..][k] == segments[k + 1];
      SetAtWellFormed(cs[i].children, segments[1..], value);
      assert forall j :: 0 <= j < |cs| && j != i ==> updated[j] == cs[j];
    } else {
      assert forall j :: 0 <= j < |cs| && j != i ==> updated[j] == cs[j];
    }
  }


  /** Every prefix of a sibling list, and every child list, is well formed too. */
  lemma WellFormedParts(cs: seq<Section>, n: nat)
    requires WellFormed(cs) && n <= |cs|
    ensures WellFormed(cs[..n])
    ensures forall i :: 0 <= i < |cs| ==> WellFormed(cs[i].children)
  {
    assert forall i :: 0 <= i < n ==> cs[..n][i] == cs[i];
  }

  predicate NoDelimiter(segments: seq<string>) {
    forall k :: 0 <= k < |segments| ==> KeyDelimiter !in segments[k]
  }

  /** `IConfigurationSection.Path` of a child: its key below its parent's path. */
  function ChildPath(parent: Option<string>, key: string): string {
    match parent
    case None => key
    case Some(p) => p + [KeyDelimiter] + key
  }

  /** A child's path ends with its key; a top-level section's path is its key,
      and a nested one starts with its parent's path and the delimiter. */
  lemma ChildPathParts(parent: Option<string>, key: string)
    ensures var r := ChildPath(parent, key);
            && |r| >= |key| && r[|r| - |key|..] == key
            && (parent.None? ==> r == key)
            && (parent.Some? ==> |r| > |parent.value| && r[..|parent.value|] == parent.value && r[|parent.value|] == KeyDelimiter)
  {
  }

  /** The path that `segments` name below `parent`. */
  function PathOf(parent: Option<string>, segments: seq<string>): string
    requires |segments| >= 1
  {
    match parent
    case None => Join(segments, KeyDelimiter)
    case Some(p) => p + [KeyDelimiter] + Join(segments, KeyDelimiter)
  }

  lemma PathOfCons(parent: Option<string>, key: string, rest: seq<string>)
    requires |rest| >= 1
    ensures PathOf(Some(ChildPath(parent, key)), rest) == PathOf(parent, [key] + rest)
  {
    assert ([key] + rest)[1..] == rest;
    assert Join([key] + rest, KeyDelimiter) == key + [KeyDelimiter] + Join(rest, KeyDelimiter);
  }

  /** Distinct delimiter-free segment lists name distinct paths. */
  lemma PathOfInjective(parent: Option<string>, a: seq<string>, b: seq<string>)
    requires |a| >= 1 && |b| >= 1 && NoDelimiter(a) && NoDelimiter(b)
    ensures PathOf(parent, a) == PathOf(parent, b) ==> a == b
  {
    SplitJoin(a, KeyDelimiter);
    SplitJoin(b, KeyDelimiter);
    if parent.Some? {
      var p := parent.value;
      var n := |p| + 1;
      assert PathOf(parent, a)[n..] == Join(a, KeyDelimiter);
      assert PathOf(parent, b)[n..] == Join(b, KeyDelimiter);
    }
  }

  /** A section is listed itself unless it has children and a null or empty value. */
  predicate Emits(s: Section) {
    |s.children| == 0 || !IsNullOrEmpty(s.value)
  }

  /** `first.Concat(second).GroupBy(Key).ToDictionary(First)`: on a shared key the entry of `first` wins. */
  function Merge(first: map<string, Option<string>>, second: map<string, Option<string>>): (r: map<string, Option<string>>)
    ensures r.Keys == first.Keys + second.Keys
    ensures forall k :: k in first ==> r[k] == first[k]
    ensures forall k :: k in second && k !in first ==> r[k] == second[k]
  {
    map k | k in first.Keys + second.Keys :: if k in first then first[k] else second[k]
  }

  /** What `RecurseConfig` returns for the children `cs` of the section at `parent`. */
  function Flatten(parent: Option<string>, cs: seq<Section>): map<string, Option<string>>
    decreases cs
  {
    if cs == [] then map[]
    else
      var child := cs[|cs| - 1];
      var path := ChildPath(parent, child.key);
      var result := Flatten(parent, cs[..|cs| - 1]);
      var merged := if |child.children| != 0 then Merge(result, Flatten(Some(path), child.children)) else result;
      if Emits(child) then merged[path := child.value] else merged
  }

  /** The section a key in `cs` found through `segments` is also found in `cs + [child]`. */
  lemma FindInPrefix(init: seq<Section>, child: Section, segments: seq<string>)
    requires |segments| >= 1 && Find(init, segments).Some?
    ensures Find(init + [child], segments) == Find(init, segments)
  {
    FindChildAppend(init, child, segments[0]);
    var i := FindChild(init, segments[0]);
    assert (init + [child])[i] == init[i];
  }

  /** `segments` leads from the sections `cs` below `parent` to a section that
      is listed by itself, under the path `k`, with the value `v`. */
  predicate Locates(parent: Option<string>, cs: seq<Section>, k: string, v: Option<string>, segments: seq<string>) {
    && |segments| >= 1 && NoDelimiter(segments) && k == PathOf(parent, segments)
    && Find(cs, segments).Some? && Emits(Find(cs, segments).value) && v == Find(cs, segments).value.value
  }

  lemma LocatesInPrefix(parent: Option<string>, init: seq<Section>, child: Section, k: string, v: Option<string>, segments: seq<string>)
    requires Locates(parent, init, k, v, segments)
    ensures Locates(parent, init + [child], k, v, segments)
  {
    FindInPrefix(init, child, segments);
  }

  /** `cs[i]` is the first section of `cs` with its own key. */
  predicate FirstWithKey(cs: seq<Section>, i: nat) {
    i < |cs| && FindChild(cs, cs[i].key) == i
  }

  lemma FindThroughChild(cs: seq<Section>, i: nat, rest: seq<string>)
    requires FirstWithKey(cs, i) && |rest| >= 1
    ensures Find(cs, [cs[i].key] + rest) == Find(cs[i].children, rest)
  {
    var segments := [cs[i].key] + rest;
    assert segments[0] == cs[i].key && segments[1..] == rest;
  }

  lemma NoDelimiterCons(key: string, rest: seq<string>)
    requires KeyDelimiter !in key && NoDelimiter(rest)
    ensures NoDelimiter([key] + rest)
  {
    var segments := [key] + rest;
    assert forall j :: 1 <= j < |segments| ==> segments[j] == rest[j - 1];
  }

  lemma LocatesBelowChild(parent: Option<string>, cs: seq<Section>, k: string, v: Option<string>, rest: seq<string>)
    requires cs != [] && FirstWithKey(cs, |cs| - 1) && KeyDelimiter !in cs[|cs| - 1].key
    requires Locates(Some(ChildPath(parent, cs[|cs| - 1].key)), cs[|cs| - 1].children, k, v, rest)
    ensures Locates(parent, cs, k, v, [cs[|cs| - 1].key] + rest)
  {
    var child := cs[|cs| - 1];
    PathOfCons(parent, child.key, rest);
    FindThroughChild(cs, |cs| - 1, rest);
    NoDelimiterCons(child.key, rest);
  }

  /** Every listed path names a section below `parent`, through delimiter-free
      segments, and is listed with that section's value. */
  lemma {:induction false} FlattenSound(parent: Option<string>, cs: seq<Section>)
    requires WellFormed(cs)
    ensures forall k :: k in Flatten(parent, cs) ==> exists segments :: Locates(parent, cs, k, Flatten(parent, cs)[k], segments)
    decreases cs
  {
    if cs != [] {
      var n := |cs| - 1;
      var init := cs[..n];
      var child := cs[n];
      var path := ChildPath(parent, child.key);
      assert cs == init + [child];
      WellFormedParts(cs, n);
      FlattenSound(parent, init);
      var result := Flatten(parent, init);
      var flat := Flatten(parent, cs);
      FindChildAppend(init, child, child.key);
      if |child.children| != 0 {
        FlattenSound(Some(path), child.children);
      }
      forall k | k in flat
        ensures exists segments :: Locates(parent, cs, k, flat[k], segments)
      {
        if Emits(child) && k == path {
          assert Find(cs, [child.key]) == Some(child);
          assert Locates(parent, cs, k, flat[k], [child.key]);
        } else if k in result {
          var segments :| Locates(parent, init, k, result[k], segments);
          LocatesInPrefix(parent, init, child, k, result[k], segments);
        } else {
          var sub := Flatten(Some(path), child.children);
          assert |child.children| != 0 && k in sub && flat[k] == sub[k];
          var rest :| Locates(Some(path), child.children, k, sub[k], rest);
          LocatesBelowChild(parent, cs, k, sub[k], rest);
        }
      }
    }
  }

  /** What the last child adds to `Flatten`: the paths listed before it stay
      listed, its own path when it is listed by itself, and all its children's. */
  lemma FlattenLastKeys(parent: Option<string>, cs: seq<Section>)
    requires cs != []
    ensures var child := cs[|cs| - 1];
            var path := ChildPath(parent, child.key);
            && Flatten(parent, cs[..|cs| - 1]).Keys <= Flatten(parent, cs).Keys
            && (Emits(child) ==> path in Flatten(parent, cs))
            && (|child.children| != 0 ==> Flatten(Some(path), child.children).Keys <= Flatten(parent, cs).Keys)
  {
  }

  /** Every section below `parent` that is listed by itself is listed under its path. */
  lemma {:induction false} FlattenComplete(parent: Option<string>, cs: seq<Section>, segments: seq<string>)
    requires WellFormed(cs) && |segments| >= 1
    requires Find(cs, segments).Some? && Emits(Find(cs, segments).value)
    ensures PathOf(parent, segments) in Flatten(parent, cs)
    decreases cs
  {
    var n := |cs| - 1;
    var init := cs[..n];
    var child := cs[n];
    var path := ChildPath(parent, child.key);
    assert cs == init + [child];
    WellFormedParts(cs, n);
    FindChildAppend(init, child, segments[0]);
    FlattenLastKeys(parent, cs);
    var i := FindChild(cs, segments[0]);
    if i < n {
      FindInPrefix(init, child, segments);
      FlattenComplete(parent, init, segments);
    } else if |segments| == 1 {
      assert PathOf(parent, segments) == path;
    } else {
      var rest := segments[1..];
      assert Find(child.children, rest).Some?;
      FlattenComplete(Some(path), child.children, rest);
      PathOfCons(parent, child.key, rest);
      assert segments == [child.key] + rest;
    }
  }

  /** The path `RecurseConfig` adds for the last child is not yet in its result:
      `Dictionary.Add` never meets a duplicate in a well-formed tree. */
  lemma PathIsNew(parent: Option<string>, cs: seq<Section>)
    requires WellFormed(cs) && cs != []
    ensures var child := cs[|cs| - 1];
            var path := ChildPath(parent, child.key);
            && path !in Flatten(parent, cs[..|cs| - 1])
            && (|child.children| != 0 ==> path !in Flatten(Some(path), child.children))
  {
    var n := |cs| - 1;
    var init := cs[..n];
    var child := cs[n];
    var path := ChildPath(parent, child.key);
    WellFormedParts(cs, n);
    FlattenSound(parent, init);
    assert path == PathOf(parent, [child.key]);
    forall k | k in Flatten(parent, init)
      ensures k != path
    {
      var segments :| Locates(parent, init, k, Flatten(parent, init)[k], segments);
      var j := FindChild(init, segments[0]);
      assert init[j] == cs[j] && cs[j].key != child.key;
      PathOfInjective(parent, segments, [child.key]);
    }
    if |child.children| != 0 {
      FlattenSound(Some(path), child.children);
      forall k | k in Flatten(Some(path), child.children)
        ensures k != path
      {
        var rest :| Locates(Some(path), child.children, k, Flatten(Some(path), child.children)[k], rest);
        assert |k| > |path|;
      }
    }
  }

  /** One turn of the loop of `RecurseConfig`: the flattening grows by the child. */
  lemma FlattenPrefixStep(parent: Option<string>, cs: seq<Section>, i: nat)
    requires i < |cs|
    ensures var child := cs[i];
            var path := ChildPath(parent, child.key);
            var before := Flatten(parent, cs[..i]);
            var merged := if |child.children| != 0 then Merge(before, Flatten(Some(path), child.children)) else before;
            Flatten(parent, cs[..i + 1]) == if Emits(child) then merged[path := child.value] else merged
  {
    assert cs[..i + 1][..i] == cs[..i] && cs[..i + 1][i] == cs[i];
  }

  /** ... the child is well formed, and its path is new on both sides of the merge. */
  lemma PathIsNewAt(parent: Option<string>, cs: seq<Section>, i: nat)
    requires WellFormed(cs) && i < |cs|
    ensures var child := cs[i];
            var path := ChildPath(parent, child.key);
            && WellFormed(child.children)
            && path !in Flatten(parent, cs[..i])
            && (|child.children| != 0 ==> path !in Flatten(Some(path), child.children))
  {
    assert cs[..i + 1][..i] == cs[..i] && cs[..i + 1][i] == cs[i];
    WellFormedParts(cs, i + 1);
    PathIsNew(parent, cs[..i + 1]);
  }

  /** `RecurseConfig`: walks the children in order, merging each child's own
      flattening in first and then adding the child unless it has children and
      no value. */
  method RecurseConfig(parent: Option<string>, children: seq<Section>) returns (result: map<string, Option<string>>)
    requires WellFormed(children)
    ensures result == Flatten(parent, children)
    decreases children
  {
    result := map[];
    for i := 0 to |children|
      invariant result == Flatten(parent, children[..i])
    {
      var child := children[i];
      FlattenPrefixStep(parent, children, i);
      PathIsNewAt(parent, children, i);
      var path := ChildPath(parent, child.key);
      if |child.children| != 0 {
        var sub := RecurseConfig(Some(path), child.children);
        result := Merge(result, sub);
      }
      if |child.children| != 0 && IsNullOrEmpty(child.value) {
        continue;
      }
      result := result[path := child.value];
    }
    assert children[..|children|] == children;
  }

  /** `GetAllValuesFromSource` lists exactly what `GetKey` reads: every listed
      key leads to a section that is listed by itself, with that section's value. */
  lemma AllValuesAreKeys(root: ConfigurationRoot)
    ensures forall k :: k in Flatten(None, root) ==>
              Find(root, Split(k, KeyDelimiter)).Some? && Emits(Find(root, Split(k, KeyDelimiter)).value)
              && Flatten(None, root)[k] == ValueOf(root, Split(k, KeyDelimiter))
  {
    FlattenSound(None, root);
    forall k | k in Flatten(None, root)
      ensures Find(root, Split(k, KeyDelimiter)).Some? && Emits(Find(root, Split(k, KeyDelimiter)).value)
              && Flatten(None, root)[k] == ValueOf(root, Split(k, KeyDelimiter))
    {
      var segments :| Locates(None, root, k, Flatten(None, root)[k], segments);
      SplitJoin(segments, KeyDelimiter);
    }
  }

  /** ... and every key whose section is listed by itself is listed. */
  lemma KeysAreListed(root: ConfigurationRoot, key: string)
    requires Find(root, Split(key, KeyDelimiter)).Some? && Emits(Find(root, Split(key, KeyDelimiter)).value)
    ensures key in Flatten(None, root)
  {
    FlattenComplete(None, root, Split(key, KeyDelimiter));
    JoinSplit(key, KeyDelimiter);
  }


  /** `GetSection(key)`: the section at the key's path; when there is none, an
      empty section whose key is the last segment. */
  function SectionAt(root: ConfigurationRoot, key: string): (s: Section)
    ensures Find(root, Split(key, KeyDelimiter)).Some? ==> s == Find(root, Split(key, KeyDelimiter)).value
    ensures Find(root, Split(key, KeyDelimiter)).None? ==> s.value.None? && s.children == []
    ensures s.value == ValueOf(root, Split(key, KeyDelimiter))
  {
    var segments := Split(key, KeyDelimiter);
    match Find(root, segments)
    case Some(section) => section
    case None => Section(segments[|segments| - 1], None, [])
  }

  function AlreadyRegistered(sourceName: string): Exception {
    InvalidOperation("There is already a configuration source registered with the name " + sourceName)
  }

  function NotRegistered(sourceName: string): Exception {
    InvalidOperation("There is no configuration source registered with the name " + sourceName)
  }

  /** The message `GetAllValuesFromSource` uses, worded differently from the others. */
  function NoSuchSource(sourceName: string): Exception {
    InvalidOperation("No configuration source registered with name " + sourceName)
  }

  class ConfigurationRegistry {
    /** `Sources`. */
    var sources: map<string, ConfigurationRoot>

    constructor()
      ensures sources == map[]
    {
      sources := map[];
    }

    /** `AddConfigurationSource`: a name already registered is refused and nothing changes. */
    method AddConfigurationSource(configuration: ConfigurationRoot, sourceName: string) returns (thrown: Option<Exception>)
      modifies this
      ensures sourceName in old(sources) ==> thrown == Some(AlreadyRegistered(sourceName)) && sources == old(sources)
      ensures sourceName !in old(sources) ==> thrown.None? && sources == old(sources)[sourceName := configuration]
    {
      if sourceName in sources {
        return Some(AlreadyRegistered(sourceName));
      }
      sources := sources[sourceName := configuration];
      return None;
    }

    /** `RemoveConfigurationSource`: a name not registered is refused and nothing changes. */
    method RemoveConfigurationSource(sourceName: string) returns (thrown: Option<Exception>)
      modifies this
      ensures sourceName !in old(sources) ==> thrown == Some(NotRegistered(sourceName)) && sources == old(sources)
      ensures sourceName in old(sources) ==> thrown.None? && sources == old(sources) - {sourceName}
    {
      if sourceName !in sources {
        return Some(NotRegistered(sourceName));
      }
      sources := sources - {sourceName};
      return None;
    }

    /** `RemoveAllConfigurationSources`. */
    method RemoveAllConfigurationSources()
      modifies this
      ensures sources == map[]
    {
      sources := map[];
    }

    /** `GetConfigurationSection`. */
    function GetConfigurationSection(sourceName: string, key: string): (r: Result<Section, Exception>)
      reads this
      ensures sourceName !in sources ==> r == Failure(NotRegistered(sourceName))
      ensures sourceName in sources ==> r == Success(SectionAt(sources[sourceName], key))
    {
      if sourceName !in sources then Failure(NotRegistered(sourceName))
      else Success(SectionAt(sources[sourceName], key))
    }

    /** `GetKey`: the value of the section at the key; null when there is none. */
    function GetKey(sourceName: string, key: string): (r: Result<Option<string>, Exception>)
      reads this
      ensures sourceName !in sources ==> r == Failure(NotRegistered(sourceName))
      ensures sourceName in sources ==> r == Success(ValueOf(sources[sourceName], Split(key, KeyDelimiter)))
    {
      if sourceName !in sources then Failure(NotRegistered(sourceName))
      else Success(SectionAt(sources[sourceName], key).value)
    }

    /** `SetKey`: sets the value at the key's path in that source alone. */
    method SetKey(sourceName: string, key: string, value: string) returns (thrown: Option<Exception>)
      modifies this
      ensures sourceName !in old(sources) ==> thrown == Some(NotRegistered(sourceName)) && sources == old(sources)
      ensures sourceName in old(sources) ==>
                && thrown.None?
                && sources.Keys == old(sources).Keys
                && sources[sourceName] == SetAt(old(sources)[sourceName], Split(key, KeyDelimiter), value)
                && forall other :: other in sources && other != sourceName ==> sources[other] == old(sources)[other]
    {
      if sourceName !in sources {
        return Some(NotRegistered(sourceName));
      }
      var segments := Split(key, KeyDelimiter);
      SetAtWellFormed(sources[sourceName], segments, value);
      var updated: ConfigurationRoot := SetAt(sources[sourceName], segments, value);
      sources := sources[sourceName := updated];
      return None;
    }

    /** `GetAllValuesFromSource`: the flattened source. */
    method GetAllValuesFromSource(sourceName: string) returns (r: Result<map<string, Option<string>>, Exception>)
      ensures sourceName !in sources ==> r == Failure(NoSuchSource(sourceName))
      ensures sourceName in sources ==> r == Success(Flatten(None, sources[sourceName]))
    {
      if sourceName !in sources {
        return Failure(NoSuchSource(sourceName));
      }
      var sourceConfiguration := sources[sourceName];
      var valuesDictionary := RecurseConfig(None, sourceConfiguration);
      return Success(valuesDictionary);
    }
  }

  /** After `SetKey` on a registered source, `GetKey` of the same key returns the value. */
  lemma GetKeyAfterSetKey(root: ConfigurationRoot, key: string, value: string)
    ensures ValueOf(SetAt(root, Split(key, KeyDelimiter), value), Split(key, KeyDelimiter)) == Some(value)
  {
    SetThenGet(root, Split(key, KeyDelimiter), value);
  }

  /** Registering a second source under a taken name is refused. */
  method RegistryRefusesDuplicate(source: string) returns (duplicate: Option<Exception>)
    ensures duplicate == Some(AlreadyRegistered(source))
  {
    var registry := new ConfigurationRegistry();
    var empty: ConfigurationRoot := [];
    var added := registry.AddConfigurationSource(empty, source);
    duplicate := registry.AddConfigurationSource(empty, source);
  }

  /** A key set in a new source is read back, and any other key reads as null
      (the tests use `testKey` and `testKey111`). */
  method RegistryReadsBack(source: string, key: string, absent: string, value: string) returns (
    readBack: Result<Option<string>, Exception>, missing: Result<Option<string>, Exception>)
    requires KeyDelimiter !in key && KeyDelimiter !in absent && key != absent
    ensures readBack == Success(Some(value))
    ensures missing == Success(None)
  {
    SplitNone(key, KeyDelimiter);
    SplitNone(absent, KeyDelimiter);
    var empty: ConfigurationRoot := [];
    SetThenGet(empty, [key], value);
    SetKeepsOthers(empty, [key], value, [absent]);
    var registry := new ConfigurationRegistry();
    var added := registry.AddConfigurationSource(empty, source);
    var stored := registry.SetKey(source, key, value);
    readBack := registry.GetKey(source, key);
    missing := registry.GetKey(source, absent);
  }

  /** A source that was removed answers no lookup. */
  method RegistryForgetsRemoved(source: string, key: string) returns (afterRemoval: Result<Option<string>, Exception>)
    ensures afterRemoval == Failure(NotRegistered(source))
  {
    var registry := new ConfigurationRegistry();
    var empty: ConfigurationRoot := [];
    var added := registry.AddConfigurationSource(empty, source);
    var removed := registry.RemoveConfigurationSource(source);
    afterRemoval := registry.GetKey(source, key);
  }

}
