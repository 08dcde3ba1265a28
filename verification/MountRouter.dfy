/**
  The mount router: longest-prefix resolution over a list kept sorted by path length, and
  directory listings that merge a provider's entries with the mounts below.

  Paths are those `filepath.Clean` returns. A provider is what it answers to `Stat` and `ReadDir`
  at one moment.
 */
module MountRouter {
  import opened MemoryDirectory
  import opened Sequences
  import opened Sorting
  import opened Wrappers

  datatype Errno = ENOENT | ENOTDIR | Other(code: nat)

  datatype Result<T> = Ok(value: T) | Err(errno: Errno)

  datatype FileInfo = FileInfo(name: string, size: nat, mode: nat, isDir: bool)

  datatype Entry = Entry(name: string, isDir: bool, info: FileInfo)

  datatype Provider = Provider(stat: string -> Result<FileInfo>, readDir: string -> Result<seq<Entry>>)

  datatype Mount = Mount(path: string, provider: Provider)

  datatype Target = Target(provider: Provider, rel: string)

  predicate IsMissingPath(e: Errno) { e == ENOENT || e == ENOTDIR }

  // ----- Resolution

  /** The test `resolve` makes: the mount is at the path or above it. */
  predicate Covers(mountPath: string, path: string) {
    path == mountPath || mountPath + "/" <= path
  }

  function Below(mountPath: string, path: string): string
    requires Covers(mountPath, path)
  {
    if path == mountPath then "/" else path[|mountPath|..]
  }

  /** The first mount of the list that covers the path. */
  function Resolved(mounts: seq<Mount>, path: string): Result<Target> {
    if mounts == [] then Err(ENOENT)
    else if Covers(mounts[0].path, path) then Ok(Target(mounts[0].provider, Below(mounts[0].path, path)))
    else Resolved(mounts[1..], path)
  }

  ghost predicate LongestFirst(mounts: seq<Mount>) {
    forall i, j :: 0 <= i < j < |mounts| ==> |mounts[i].path| >= |mounts[j].path|
  }

  ghost predicate DistinctPaths(mounts: seq<Mount>) {
    forall i, j :: 0 <= i < j < |mounts| ==> mounts[i].path != mounts[j].path
  }

  /** `m` is the mount the path belongs to: it covers the path and no longer one does. */
  ghost predicate Governs(mounts: seq<Mount>, m: Mount, path: string) {
    && m in mounts && Covers(m.path, path)
    && forall other :: other in mounts && Covers(other.path, path) ==> |other.path| <= |m.path|
  }

  lemma {:induction false} GoverningMount(mounts: seq<Mount>, path: string) returns (m: Mount)
    requires LongestFirst(mounts) && Resolved(mounts, path).Ok?
    ensures Governs(mounts, m, path)
    ensures Resolved(mounts, path).value == Target(m.provider, Below(m.path, path))
  {
    assert mounts == [mounts[0]] + mounts[1..];
    if Covers(mounts[0].path, path) {
      m := mounts[0];
    } else {
      m := GoverningMount(mounts[1..], path);
    }
  }

  lemma {:induction false} NoMountCovers(mounts: seq<Mount>, path: string)
    requires Resolved(mounts, path).Err?
    ensures Resolved(mounts, path).errno == ENOENT && forall m :: m in mounts ==> !Covers(m.path, path)
  {
    if mounts != [] {
      NoMountCovers(mounts[1..], path);
      assert mounts == [mounts[0]] + mounts[1..];
    }
  }

  /** Mount path and rest give the path back. */
  predicate Rejoins(mountPath: string, rel: string, path: string) {
    if path == mountPath then rel == "/" else rel != "" && rel[0] == '/' && path == mountPath + rel
  }

  /** Resolution finds the longest mount, gives the path below it, and fails only when there is none. */
  lemma ResolvesToLongest(mounts: seq<Mount>, path: string)
    requires LongestFirst(mounts)
    ensures match Resolved(mounts, path)
            case Ok(t) => exists m :: Governs(mounts, m, path) && t.provider == m.provider
                                      && t.rel == Below(m.path, path) && Rejoins(m.path, t.rel, path)
            case Err(e) => e == ENOENT && forall m :: m in mounts ==> !Covers(m.path, path)
  {
    if Resolved(mounts, path).Ok? {
      var m := GoverningMount(mounts, path);
      assert path != m.path ==> path[|m.path|] == (m.path + "/")[|m.path|];
    } else {
      NoMountCovers(mounts, path);
    }
  }

  /** Two governing mounts have the same path, so with distinct paths they are the same mount. */
  lemma GoverningMountIsUnique(mounts: seq<Mount>, a: Mount, b: Mount, path: string)
    requires DistinctPaths(mounts) && Governs(mounts, a, path) && Governs(mounts, b, path)
    ensures a == b
  {
    assert |a.path| == |b.path|;
    assert a.path == path[..|a.path|] && b.path == path[..|b.path|];
    var i :| 0 <= i < |mounts| && mounts[i] == a;
    var j :| 0 <= j < |mounts| && mounts[j] == b;
  }

  /** The mounts alone decide every resolution, not the order the sort leaves equal lengths in. */
  lemma ResolutionIgnoresOrder(a: seq<Mount>, b: seq<Mount>, path: string)
    requires LongestFirst(a) && LongestFirst(b) && DistinctPaths(a)
    requires multiset(a) == multiset(b)
    ensures Resolved(a, path) == Resolved(b, path)
  {
    ResolvesToLongest(a, path);
    ResolvesToLongest(b, path);
    assert forall m :: m in a <==> m in multiset(a);
    assert forall m :: m in b <==> m in multiset(b);
    if Resolved(a, path).Ok? && Resolved(b, path).Ok? {
      var m :| Governs(a, m, path) && Resolved(a, path).value == Target(m.provider, Below(m.path, path));
      var n :| Governs(b, n, path) && Resolved(b, path).value == Target(n.provider, Below(n.path, path));
      assert Governs(a, n, path);
      GoverningMountIsUnique(a, m, n, path);
    }
  }

  /** A mount at `/` covers no path but itself: the test looks for two slashes. */
  lemma RootMountCoversOnlyRoot(path: string)
    requires Normal(path)
    ensures Covers("/", path) <==> path == "/"
  {
    assert |path| >= 2 ==> !(path[0] == '/' && path[0 + 1] == '/');
  }

  predicate NotShorter(a: Mount, b: Mount) { |a.path| >= |b.path| }

  /** The sort by descending length; it is not stable, so only this is promised. */
  method SortByLength(ms: seq<Mount>) returns (sorted: seq<Mount>)
    ensures LongestFirst(sorted) && multiset(sorted) == multiset(ms)
  {
    sorted := Sort(ms, NotShorter);
    assert forall i, j :: 0 <= i < j < |sorted| ==> NotShorter(sorted[i], sorted[j]);
  }

  // ----- Mounts below a directory

  /** `relativeDescendantPath`: the rest of `path` below `parent`, if there is one. */
  function Relative(path: string, parent: string): Option<string> {
    if path == parent then None
    else if parent == "/" then
      var rel := if "/" <= path then path[1..] else path;
      if rel == "" then None else Some(rel)
    else if !(parent + "/" <= path) then None
    else
      var rel := path[|parent| + 1..];
      if rel == "" then None else Some(rel)
  }

  /** The mount lies below the directory, reached through its entry `name`. */
  predicate Through(m: Mount, dir: string, name: string) {
    Relative(m.path, dir).Some? && name != "" && FirstComponent(Relative(m.path, dir).value) == name
  }

  /** The mount lies deeper than `dir/name`. */
  predicate Nested(m: Mount, dir: string, name: string) {
    Through(m, dir, name) && |name| < |Relative(m.path, dir).value|
  }

  ghost predicate HasDescendantMount(mounts: seq<Mount>, dir: string) {
    exists m :: m in mounts && Relative(m.path, dir).Some?
  }

  function SyntheticInfo(name: string): FileInfo { FileInfo(name, 0, 0x8000_01ed, true) }

  function SyntheticEntry(name: string): Entry { Entry(name, true, SyntheticInfo(name)) }

  /** The entry for a mount directly in the directory. */
  function MountEntry(m: Mount, name: string): Entry {
    match m.provider.stat("/")
    case Ok(info) => Entry(name, info.isDir, FileInfo(name, info.size, info.mode, info.isDir))
    case Err(_) => SyntheticEntry(name)
  }

  /** A mount name stands for a directory if anything is mounted deeper, else for the mount at that name. */
  ghost predicate EntryFor(mounts: seq<Mount>, dir: string, name: string, e: Entry) {
    if exists m :: m in mounts && Nested(m, dir, name) then e == SyntheticEntry(name)
    else exists m :: m in mounts && Through(m, dir, name) && e == MountEntry(m, name)
  }

  ghost predicate MountsOfDir(mounts: seq<Mount>, dir: string, entries: map<string, Entry>) {
    && (forall name :: name in entries <==> exists m :: m in mounts && Through(m, dir, name))
    && (forall name :: name in entries ==> EntryFor(mounts, dir, name, entries[name]) && entries[name].name == name)
  }

  // ----- Listings

  predicate LexLe(a: string, b: string) {
    a == "" || (b != "" && (a[0] < b[0] || (a[0] == b[0] && LexLe(a[1..], b[1..]))))
  }

  lemma {:induction false} LexTotal(a: string, b: string)
    ensures LexLe(a, b) || LexLe(b, a)
  {
    if a != "" && b != "" { LexTotal(a[1..], b[1..]); }
  }

  lemma {:induction false} LexTransitive(a: string, b: string, c: string)
    requires LexLe(a, b) && LexLe(b, c)
    ensures LexLe(a, c)
  {
    if a != "" && a[0] == b[0] == c[0] { LexTransitive(a[1..], b[1..], c[1..]); }
  }

  ghost predicate Ascending(names: seq<string>) {
    forall i, j :: 0 <= i < j < |names| ==> LexLe(names[i], names[j])
  }

  lemma LexIsTotal()
    ensures Total(LexLe)
  {
    forall a, b ensures LexLe(a, b) || LexLe(b, a) { LexTotal(a, b); }
    forall a, b, c | LexLe(a, b) && LexLe(b, c) ensures LexLe(a, c) { LexTransitive(a, b, c); }
  }

  method SortStrings(names: seq<string>) returns (sorted: seq<string>)
    ensures Ascending(sorted) && multiset(sorted) == multiset(names)
  {
    LexIsTotal();
    sorted := Sort(names, LexLe);
  }

  function NamesOf(entries: seq<Entry>): seq<string> {
    seq(|entries|, i requires 0 <= i < |entries| => entries[i].name)
  }

  /** The first occurrences, in order. */
  function Dedup(names: seq<string>): seq<string> {
    if names == [] then []
    else
      var last, init := names[|names| - 1], names[..|names| - 1];
      Dedup(init) + if last in init then [] else [last]
  }

  lemma {:induction false} DedupElements(names: seq<string>)
    ensures forall name :: name in Dedup(names) <==> name in names
    ensures Distinct(Dedup(names))
  {
    if names != [] {
      var last, init := names[|names| - 1], names[..|names| - 1];
      DedupElements(init);
      assert names == init + [last];
    }
  }

  /** What the provider in charge of the path has to say about it. */
  function Base(mounts: seq<Mount>, path: string): Result<seq<Entry>> {
    match Resolved(mounts, path)
    case Err(e) => Err(e)
    case Ok(t) => t.provider.readDir(t.rel)
  }

  /** What `ReadDir` answers. */
  ghost predicate IsListing(mounts: seq<Mount>, path: string, r: Result<seq<Entry>>) {
    match Base(mounts, path)
    case Ok(entries) => r.Ok? && Merged(mounts, path, entries, r.value)
    case Err(e) =>
      if IsMissingPath(e) && exists m, name :: m in mounts && Through(m, path, name)
      then r.Ok? && Merged(mounts, path, [], r.value)
      else r == Err(e)
  }

  /**
    Provider entries first, in their own order and each name once, then the names only mounts have,
    sorted; a mount's entry takes the place of a provider's entry of that name.
   */
  ghost predicate Merged(mounts: seq<Mount>, path: string, entries: seq<Entry>, merged: seq<Entry>) {
    var base := Dedup(NamesOf(entries));
    && |base| <= |merged|
    && NamesOf(merged)[..|base|] == base
    && Ascending(NamesOf(merged)[|base|..])
    && Distinct(NamesOf(merged))
    && (forall name :: name in NamesOf(merged) <==> name in base || exists m :: m in mounts && Through(m, path, name))
    && (forall e :: e in merged ==>
          if exists m :: m in mounts && Through(m, path, e.name) then EntryFor(mounts, path, e.name, e)
          else LastNamed(entries, e))
  }

  /** The last entry of its name. */
  ghost predicate LastNamed(entries: seq<Entry>, e: Entry) {
    exists i :: 0 <= i < |entries| && entries[i] == e && forall j :: i < j < |entries| ==> entries[j].name != e.name
  }

  /** `filepath.Base` of a clean path. */
  function BaseName(path: string): string {
    if path == "/" then "/" else LastComponent(path)
  }

  function LastComponent(path: string): string {
    if path == "" || path[|path| - 1] == '/' then "" else LastComponent(path[..|path| - 1]) + [path[|path| - 1]]
  }

  ghost function StatOf(mounts: seq<Mount>, path: string): Result<FileInfo> {
    var synthetic := Ok(SyntheticInfo(BaseName(path)));
    match Resolved(mounts, path)
    case Err(e) => if HasDescendantMount(mounts, path) then synthetic else Err(e)
    case Ok(t) =>
      match t.provider.stat(t.rel)
      case Ok(info) => Ok(info)
      case Err(e) => if IsMissingPath(e) && HasDescendantMount(mounts, path) then synthetic else Err(e)
  }

  predicate IsFirstAt(mounts: seq<Mount>, path: string, i: nat) {
    i < |mounts| && mounts[i].path == path && forall j :: 0 <= j < i ==> mounts[j].path != path
  }

  function WithoutAt(mounts: seq<Mount>, i: nat): (rest: seq<Mount>)
    requires i < |mounts|
    ensures multiset(rest) == multiset(mounts) - multiset{mounts[i]}
  {
    assert mounts == mounts[..i] + [mounts[i]] + mounts[i + 1..];
    mounts[..i] + mounts[i + 1..]
  }

  class Router {
    var mounts: seq<Mount>

    ghost predicate Valid()
      reads this
    {
      LongestFirst(mounts)
    }

    /** The mounts arrive in the arbitrary order of a map. */
    constructor (ms: seq<Mount>)
      ensures Valid() && multiset(mounts) == multiset(ms)
      ensures DistinctPaths(ms) ==> DistinctPaths(mounts)
    {
      var sorted := SortByLength(ms);
      if DistinctPaths(ms) { SameMountsDistinct(ms, sorted); }
      mounts := sorted;
    }

    method Resolve(path: string) returns (r: Result<Target>)
      ensures r == Resolved(mounts, path)
    {
      for i := 0 to |mounts|
        invariant Resolved(mounts, path) == Resolved(mounts[i..], path)
      {
        var m := mounts[i];
        if path == m.path || m.path + "/" <= path {
          var rel := path[|m.path|..];
          if rel == "" {
            rel := "/";
          }
          return Ok(Target(m.provider, rel));
        }
      }
      return Err(ENOENT);
    }

    method AddMount(path: string, provider: Provider)
      modifies this
      ensures Valid()
      ensures multiset(mounts) == multiset(old(mounts)) + multiset{Mount(path, provider)}
      ensures DistinctPaths(old(mounts)) && (forall m :: m in old(mounts) ==> m.path != path) ==> DistinctPaths(mounts)
    {
      var appended := mounts + [Mount(path, provider)];
      mounts := SortByLength(appended);
      if DistinctPaths(appended) { SameMountsDistinct(appended, mounts); }
    }

    method RemoveMount(path: string)
      requires Valid()
      modifies this
      ensures Valid()
      ensures DistinctPaths(old(mounts)) ==> DistinctPaths(mounts)
      ensures (mounts == old(mounts) && forall m :: m in mounts ==> m.path != path)
              || (exists i: nat :: IsFirstAt(old(mounts), path, i) && mounts == WithoutAt(old(mounts), i))
    {
      for i := 0 to |mounts|
        invariant mounts == old(mounts)
        invariant forall j :: 0 <= j < i ==> mounts[j].path != path
      {
        if mounts[i].path == path {
          assert IsFirstAt(mounts, path, i);
          mounts := WithoutAt(mounts, i);
          return;
        }
      }
    }

    /** Mounting at a new path and unmounting it again leaves every resolution as it was. */
    method AddThenRemove(path: string, provider: Provider)
      requires Valid() && DistinctPaths(mounts)
      requires forall m :: m in mounts ==> m.path != path
      modifies this
      ensures Valid() && DistinctPaths(mounts)
      ensures forall p :: Resolved(mounts, p) == Resolved(old(mounts), p)
    {
      ghost var before := mounts;
      AddMount(path, provider);
      ghost var during := mounts;
      RemoveMount(path);
      RemovedAgain(before, during, mounts, Mount(path, provider));
    }

    method HasDescendant(path: string) returns (b: bool)
      ensures b <==> HasDescendantMount(mounts, path)
    {
      for i := 0 to |mounts|
        invariant forall j :: 0 <= j < i ==> Relative(mounts[j].path, path).None?
      {
        if Relative(mounts[i].path, path).Some? {
          return true;
        }
      }
      return false;
    }

    method Stat(path: string) returns (r: Result<FileInfo>)
      ensures r == StatOf(mounts, path)
    {
      var t := Resolve(path);
      var below := HasDescendant(path);
      if t.Err? {
        if below {
          return Ok(SyntheticInfo(BaseName(path)));
        }
        return Err(t.errno);
      }
      var info := t.value.provider.stat(t.value.rel);
      if info.Ok? {
        return info;
      }
      if !IsMissingPath(info.errno) || !below {
        return info;
      }
      return Ok(SyntheticInfo(BaseName(path)));
    }

    method DescendantMountEntries(path: string) returns (entries: map<string, Entry>)
      ensures MountsOfDir(mounts, path, entries)
    {
      entries := map[];
      for i := 0 to |mounts|
        invariant MountsOfDir(mounts[..i], path, entries)
      {
        var m := mounts[i];
        ghost var before := entries;
        assert mounts[..i + 1] == mounts[..i] + [m];
        var rel := Relative(m.path, path);
        if rel.None? {
          NotThrough(mounts[..i], m, path, entries);
          continue;
        }
        var name := FirstComponent(rel.value);
        if name == "" {
          NotThrough(mounts[..i], m, path, entries);
          continue;
        }
        if |name| < |rel.value| {
          entries := entries[name := SyntheticEntry(name)];
          AddedNested(mounts[..i], m, path, name, before);
          continue;
        }
        if name in entries && entries[name].isDir {
          KeptDirectory(mounts[..i], m, path, name, before);
          continue;
        }
        entries := entries[name := MountEntry(m, name)];
        AddedDirect(mounts[..i], m, path, name, before);
      }
      assert mounts[..|mounts|] == mounts;
    }

    method ReadDir(path: string) returns (r: Result<seq<Entry>>)
      ensures IsListing(mounts, path, r)
    {
      var entries, readErr := ReadBase(path);
      if readErr.Some? && !IsMissingPath(readErr.value) {
        return Err(readErr.value);
      }
      var mountEntries := DescendantMountEntries(path);
      EntriesExist(mounts, path, mountEntries);
      if readErr.Some? && |mountEntries| == 0 {
        return Err(readErr.value);
      }
      var merged := Merge(entries, mountEntries);
      MergedListing(mounts, path, entries, mountEntries, merged);
      return Ok(merged);
    }

    /** What the provider in charge lists; nothing, and the error, if it fails. */
    method ReadBase(path: string) returns (entries: seq<Entry>, readErr: Option<Errno>)
      ensures match Base(mounts, path)
              case Ok(es) => entries == es && readErr == None
              case Err(e) => entries == [] && readErr == Some(e)
    {
      var t := Resolve(path);
      if t.Err? {
        return [], Some(t.errno);
      }
      var listed := t.value.provider.readDir(t.value.rel);
      match listed {
        case Ok(es) => return es, None;
        case Err(e) => return [], Some(e);
      }
    }
  }

  lemma EntriesExist(mounts: seq<Mount>, dir: string, entries: map<string, Entry>)
    requires MountsOfDir(mounts, dir, entries)
    ensures |entries| == 0 <==> !exists m, name :: m in mounts && Through(m, dir, name)
  {
    if m, name :| m in mounts && Through(m, dir, name) {
      assert name in entries;
      assert entries.Keys != {};
    }
    if |entries| != 0 {
      assert entries.Keys != {};
      var name :| name in entries;
    }
  }

  lemma RemovedIsAdded(before: seq<Mount>, during: seq<Mount>, i: nat, added: Mount)
    requires forall m :: m in before ==> m.path != added.path
    requires multiset(during) == multiset(before) + multiset{added}
    requires IsFirstAt(during, added.path, i)
    ensures multiset(WithoutAt(during, i)) == multiset(before)
  {
    assert forall m :: m in multiset(before) ==> m in before;
    assert during[i] in multiset(during);
    assert during[i] == added;
  }

  lemma RemovedAgain(before: seq<Mount>, during: seq<Mount>, after: seq<Mount>, added: Mount)
    requires LongestFirst(before) && LongestFirst(after) && DistinctPaths(before)
    requires forall m :: m in before ==> m.path != added.path
    requires multiset(during) == multiset(before) + multiset{added}
    requires (after == during && forall m :: m in during ==> m.path != added.path)
             || (exists i: nat :: IsFirstAt(during, added.path, i) && after == WithoutAt(during, i))
    ensures DistinctPaths(after)
    ensures forall p :: Resolved(after, p) == Resolved(before, p)
  {
    assert added in multiset(during);
    var i: nat :| IsFirstAt(during, added.path, i) && after == WithoutAt(during, i);
    RemovedIsAdded(before, during, i, added);
    SameMountsDistinct(before, after);
    forall p ensures Resolved(after, p) == Resolved(before, p) {
      ResolutionIgnoresOrder(before, after, p);
    }
  }

  lemma SameMountsDistinct(a: seq<Mount>, b: seq<Mount>)
    requires DistinctPaths(a) && multiset(a) == multiset(b)
    ensures DistinctPaths(b)
  {
    PermutationKeeps(a, b);
    assert Distinct(a);
    forall i, j | 0 <= i < j < |b| ensures b[i].path != b[j].path {
      assert b[i] in b && b[j] in b;
      var k :| 0 <= k < |a| && a[k] == b[i];
      var l :| 0 <= l < |a| && a[l] == b[j];
    }
  }

  // ----- The mount entries, one mount at a time

  lemma NotThrough(mounts: seq<Mount>, m: Mount, dir: string, entries: map<string, Entry>)
    requires MountsOfDir(mounts, dir, entries)
    requires forall name :: !Through(m, dir, name)
    ensures MountsOfDir(mounts + [m], dir, entries)
  {
    forall name | name in entries ensures EntryFor(mounts + [m], dir, name, entries[name]) {
      OtherName(mounts, m, dir, name, entries[name]);
    }
    forall name ensures name in entries <==> exists x :: x in mounts + [m] && Through(x, dir, name) {
      if x :| x in mounts && Through(x, dir, name) { assert x in mounts + [m]; }
    }
  }

  lemma OtherName(mounts: seq<Mount>, m: Mount, dir: string, name: string, e: Entry)
    requires EntryFor(mounts, dir, name, e) && !Through(m, dir, name)
    ensures EntryFor(mounts + [m], dir, name, e)
  {
    if x :| x in mounts && Nested(x, dir, name) {
      assert x in mounts + [m];
    } else {
      assert forall y :: y in mounts + [m] ==> !Nested(y, dir, name);
      var x :| x in mounts && Through(x, dir, name) && e == MountEntry(x, name);
      assert x in mounts + [m];
    }
  }

  lemma ThroughOne(m: Mount, dir: string, name: string)
    requires Through(m, dir, name)
    ensures forall other :: other != name ==> !Through(m, dir, other)
  {
  }

  lemma Added(mounts: seq<Mount>, m: Mount, dir: string, name: string, entries: map<string, Entry>, e: Entry)
    requires MountsOfDir(mounts, dir, entries) && Through(m, dir, name)
    requires EntryFor(mounts + [m], dir, name, e) && e.name == name
    ensures MountsOfDir(mounts + [m], dir, entries[name := e])
  {
    ThroughOne(m, dir, name);
    var entries' := entries[name := e];
    forall n | n in entries' ensures EntryFor(mounts + [m], dir, n, entries'[n]) && entries'[n].name == n {
      if n != name { OtherName(mounts, m, dir, n, entries[n]); }
    }
    forall n ensures n in entries' <==> exists x :: x in mounts + [m] && Through(x, dir, n) {
      if n == name { assert m in mounts + [m]; }
      if x :| x in mounts && Through(x, dir, n) { assert x in mounts + [m]; }
    }
  }

  lemma AddedNested(mounts: seq<Mount>, m: Mount, dir: string, name: string, entries: map<string, Entry>)
    requires MountsOfDir(mounts, dir, entries) && Nested(m, dir, name)
    ensures MountsOfDir(mounts + [m], dir, entries[name := SyntheticEntry(name)])
  {
    assert m in mounts + [m];
    Added(mounts, m, dir, name, entries, SyntheticEntry(name));
  }

  /** An entry that is a directory already stays, whether something is nested below it or not. */
  lemma KeptDirectory(mounts: seq<Mount>, m: Mount, dir: string, name: string, entries: map<string, Entry>)
    requires MountsOfDir(mounts, dir, entries) && Through(m, dir, name) && !Nested(m, dir, name)
    requires name in entries
    ensures MountsOfDir(mounts + [m], dir, entries)
  {
    var e := entries[name];
    assert EntryFor(mounts + [m], dir, name, e) by {
      if x :| x in mounts && Nested(x, dir, name) {
        assert x in mounts + [m];
      } else {
        assert forall y :: y in mounts + [m] ==> !Nested(y, dir, name);
        var x :| x in mounts && Through(x, dir, name) && e == MountEntry(x, name);
        assert x in mounts + [m];
      }
    }
    Added(mounts, m, dir, name, entries, e);
    assert entries[name := e] == entries;
  }

  lemma AddedDirect(mounts: seq<Mount>, m: Mount, dir: string, name: string, entries: map<string, Entry>)
    requires MountsOfDir(mounts, dir, entries) && Through(m, dir, name) && !Nested(m, dir, name)
    requires name in entries ==> !entries[name].isDir
    ensures MountsOfDir(mounts + [m], dir, entries[name := MountEntry(m, name)])
  {
    forall x | x in mounts ensures Nested(x, dir, name) ==> name in entries && entries[name] == SyntheticEntry(name) {}
    assert m in mounts + [m];
    Added(mounts, m, dir, name, entries, MountEntry(m, name));
  }

  // ----- The merge

  /** The three loops that put a listing together. */
  method Merge(entries: seq<Entry>, mountEntries: map<string, Entry>) returns (merged: seq<Entry>)
    requires forall name :: name in mountEntries ==> mountEntries[name].name == name
    ensures MergedWith(entries, mountEntries, merged)
  {
    var byName, baseNames := BaseEntries(entries);
    DedupElements(NamesOf(entries));
    var sorted := MountOnlyNames(baseNames, mountEntries);
    var names := baseNames + sorted;
    merged := Pick(byName + mountEntries, names);
    assert names[..|baseNames|] == baseNames && names[|baseNames|..] == sorted;
    DistinctHalves(baseNames, sorted);
  }

  lemma DistinctHalves(a: seq<string>, b: seq<string>)
    requires Distinct(a) && Distinct(b) && forall x :: x in b ==> x !in a
    ensures Distinct(a + b)
    ensures forall x :: x in a + b <==> x in a || x in b
  {
    forall i, j | 0 <= i < j < |a + b| ensures (a + b)[i] != (a + b)[j] {
      if i < |a| <= j { assert b[j - |a|] in b && a[i] in a; }
    }
  }

  method MountOnlyNames(baseNames: seq<string>, mountEntries: map<string, Entry>) returns (sorted: seq<string>)
    ensures Ascending(sorted) && Distinct(sorted)
    ensures forall name :: name in sorted <==> name in mountEntries && name !in baseNames
  {
    var names: seq<string> := [];
    var todo := mountEntries.Keys;
    while todo != {}
      invariant todo <= mountEntries.Keys
      invariant Distinct(names)
      invariant forall name :: name in names <==> name in mountEntries && name !in todo && name !in baseNames
    {
      var name :| name in todo;
      todo := todo - {name};
      if name !in baseNames {
        names := names + [name];
      }
    }
    sorted := SortStrings(names);
    PermutationKeeps(names, sorted);
  }

  method Pick(all: map<string, Entry>, names: seq<string>) returns (merged: seq<Entry>)
    requires forall name :: name in names ==> name in all
    requires forall name :: name in all ==> all[name].name == name
    ensures NamesOf(merged) == names
    ensures forall e :: e in merged ==> e.name in all && e == all[e.name]
  {
    merged := [];
    for i := 0 to |names|
      invariant |merged| == i
      invariant forall j :: 0 <= j < i ==> merged[j] == all[names[j]]
    {
      merged := merged + [all[names[i]]];
    }
  }

  /** The last entry of each name, and the names in order of first occurrence. */
  method BaseEntries(entries: seq<Entry>) returns (byName: map<string, Entry>, baseNames: seq<string>)
    ensures IsBase(entries, byName, baseNames)
  {
    byName, baseNames := map[], [];
    var seen: set<string> := {};
    for i := 0 to |entries|
      invariant IsBase(entries[..i], byName, baseNames)
      invariant forall name :: name in seen <==> name in baseNames
    {
      var e := entries[i];
      BaseNext(entries, i, byName, baseNames);
      byName := byName[e.name := e];
      if e.name !in seen {
        baseNames := baseNames + [e.name];
        seen := seen + {e.name};
      }
    }
    assert entries[..|entries|] == entries;
  }

  ghost predicate IsBase(entries: seq<Entry>, byName: map<string, Entry>, baseNames: seq<string>) {
    && baseNames == Dedup(NamesOf(entries))
    && (forall name :: name in byName <==> name in baseNames)
    && forall name :: name in byName ==> LastNamed(entries, byName[name]) && byName[name].name == name
  }

  lemma BaseNext(entries: seq<Entry>, i: nat, byName: map<string, Entry>, baseNames: seq<string>)
    requires i < |entries| && IsBase(entries[..i], byName, baseNames)
    ensures var e := entries[i];
            IsBase(entries[..i + 1], byName[e.name := e], if e.name in baseNames then baseNames else baseNames + [e.name])
  {
    var e := entries[i];
    assert NamesOf(entries[..i + 1]) == NamesOf(entries[..i]) + [e.name];
    DedupElements(NamesOf(entries[..i]));
    var byName' := byName[e.name := e];
    forall name | name in byName' ensures LastNamed(entries[..i + 1], byName'[name]) && byName'[name].name == name {
      if name == e.name { NowLast(entries, i); } else { StillLast(entries, i, byName[name]); }
    }
  }

  lemma StillLast(entries: seq<Entry>, i: nat, e: Entry)
    requires i < |entries| && LastNamed(entries[..i], e) && entries[i].name != e.name
    ensures LastNamed(entries[..i + 1], e)
  {
    var k :| 0 <= k < i && entries[..i][k] == e && forall j :: k < j < i ==> entries[..i][j].name != e.name;
    var more := entries[..i + 1];
    assert more[k] == e && forall j :: k < j < i ==> more[j] == entries[..i][j];
  }

  lemma NowLast(entries: seq<Entry>, i: nat)
    requires i < |entries|
    ensures LastNamed(entries[..i + 1], entries[i])
  {
    assert entries[..i + 1][i] == entries[i];
  }

  ghost predicate MergedWith(entries: seq<Entry>, mountEntries: map<string, Entry>, merged: seq<Entry>) {
    var base := Dedup(NamesOf(entries));
    && |base| <= |merged|
    && NamesOf(merged)[..|base|] == base
    && Ascending(NamesOf(merged)[|base|..])
    && Distinct(NamesOf(merged))
    && (forall name :: name in NamesOf(merged) <==> name in base || name in mountEntries)
    && (forall e :: e in merged ==> if e.name in mountEntries then e == mountEntries[e.name] else LastNamed(entries, e))
  }

  lemma MergedListing(mounts: seq<Mount>, path: string, entries: seq<Entry>, mountEntries: map<string, Entry>, merged: seq<Entry>)
    requires MountsOfDir(mounts, path, mountEntries)
    requires MergedWith(entries, mountEntries, merged)
    ensures Merged(mounts, path, entries, merged)
  {
  }

  // ----- Every mount can be reached from the root

  function Child(dir: string, name: string): string {
    PrefixOf(dir) + name
  }

  ghost predicate OnlyMissingPaths(mounts: seq<Mount>) {
    forall m, p :: m in mounts ==>
      && (m.provider.stat(p).Err? ==> IsMissingPath(m.provider.stat(p).errno))
      && (m.provider.readDir(p).Err? ==> IsMissingPath(m.provider.readDir(p).errno))
  }

  /** `dir` answers `Stat`, and every listing `ReadDir` may give of it shows `name` exactly once. */
  ghost predicate ShowsOnce(mounts: seq<Mount>, dir: string, name: string) {
    && StatOf(mounts, dir).Ok?
    && forall r :: IsListing(mounts, dir, r) ==>
         r.Ok? && name in NamesOf(r.value) && Distinct(NamesOf(r.value))
  }

  /** From `dir` one gets to `path` by following listed names. */
  ghost predicate Walkable(mounts: seq<Mount>, dir: string, path: string)
    decreases |path| - |dir|
  {
    dir == path
    || exists name :: |dir| < |Child(dir, name)| <= |path|
                      && ShowsOnce(mounts, dir, name) && Walkable(mounts, Child(dir, name), path)
  }

  lemma {:induction false} ResolvedIsMount(mounts: seq<Mount>, path: string)
    ensures Resolved(mounts, path).Ok? ==> exists m :: m in mounts && m.provider == Resolved(mounts, path).value.provider
    ensures Resolved(mounts, path).Err? ==> Resolved(mounts, path).errno == ENOENT
  {
    if mounts != [] && !Covers(mounts[0].path, path) { ResolvedIsMount(mounts[1..], path); }
    if mounts != [] && Covers(mounts[0].path, path) { assert mounts[0] in mounts; }
  }

  lemma AncestorShowsNext(mounts: seq<Mount>, m: Mount, dir: string, name: string)
    requires m in mounts && Through(m, dir, name) && OnlyMissingPaths(mounts)
    ensures ShowsOnce(mounts, dir, name)
  {
    ResolvedIsMount(mounts, dir);
    assert HasDescendantMount(mounts, dir);
    forall r | IsListing(mounts, dir, r) ensures r.Ok? && name in NamesOf(r.value) && Distinct(NamesOf(r.value)) {
    }
  }

  /** The provider in charge of a path reports something there that is not a directory. */
  predicate ReportsFile(mounts: seq<Mount>, path: string) {
    match Resolved(mounts, path)
    case Err(_) => false
    case Ok(t) => match t.provider.stat(t.rel) case Ok(info) => !info.isDir case Err(_) => false
  }

  /**
    Above a mount, where the parent lists a directory, `Stat` says directory too exactly if no provider reports
    a file there: a mount below does not hide the file.
   */
  lemma AncestorIsDirectoryExactly(mounts: seq<Mount>, m: Mount, dir: string)
    requires m in mounts && Relative(m.path, dir).Some? && OnlyMissingPaths(mounts)
    ensures StatOf(mounts, dir).Ok?
    ensures StatOf(mounts, dir).value.isDir <==> !ReportsFile(mounts, dir)
  {
    ResolvedIsMount(mounts, dir);
    assert HasDescendantMount(mounts, dir);
  }

  /** The next component of a clean path below one of its ancestors is not empty and leads to the next ancestor. */
  lemma NextComponent(path: string, dir: string) returns (name: string)
    requires Normal(path) && Normal(dir) && Relative(path, dir).Some?
    ensures name != "" && FirstComponent(Relative(path, dir).value) == name
    ensures Normal(Child(dir, name)) && Child(dir, name) <= path
    ensures Child(dir, name) == path || Relative(path, Child(dir, name)).Some?
  {
    var prefix := PrefixOf(dir);
    var rel := Relative(path, dir).value;
    name := FirstComponent(rel);
    assert path == prefix + rel by { assert prefix <= path && path[|prefix|..] == rel; }
    assert rel[0] == path[|prefix|] && path[|prefix| - 1] == prefix[|prefix| - 1] == '/';
    assert name != "";
    NormalPrefix(path, prefix, name, rel);
  }

  lemma NormalPrefix(path: string, prefix: string, name: string, rel: string)
    requires Normal(path) && path == prefix + rel && prefix != "" && prefix[0] == '/'
    requires name != "" && '/' !in name && name <= rel && (|name| < |rel| ==> rel[|name|] == '/')
    ensures Normal(prefix + name) && prefix + name <= path
    ensures prefix + name == path || Relative(path, prefix + name).Some?
  {
    var child := prefix + name;
    var rest := rel[|name|..];
    assert path == child + rest;
    forall i | 0 <= i < |child| - 1 ensures !(child[i] == '/' && child[i + 1] == '/') {
      assert child[i] == path[i] && child[i + 1] == path[i + 1];
    }
    assert child[|child| - 1] == name[|name| - 1];
    if rest != "" {
      assert rest[0] == '/';
      assert path == (child + "/") + rest[1..];
      assert path[|path| - 1] == rest[|rest| - 1];
    }
  }

  /** Starting at any of its ancestors, a walk over `ReadDir` reaches the mount. */
  lemma {:induction false} WalkReaches(mounts: seq<Mount>, m: Mount, dir: string)
    requires m in mounts && OnlyMissingPaths(mounts)
    requires Normal(m.path) && Normal(dir)
    requires dir == m.path || Relative(m.path, dir).Some?
    ensures Walkable(mounts, dir, m.path)
    decreases |m.path| - |dir|
  {
    if dir != m.path {
      var name := NextComponent(m.path, dir);
      AncestorShowsNext(mounts, m, dir, name);
      WalkReaches(mounts, m, Child(dir, name));
    }
  }

  /** Every mount is found by walking `ReadDir` from the root. */
  lemma EveryMountReachable(mounts: seq<Mount>, m: Mount)
    requires m in mounts && OnlyMissingPaths(mounts) && Normal(m.path)
    ensures Walkable(mounts, "/", m.path)
  {
    WalkReaches(mounts, m, "/");
  }

  // ----- What a path shows, from the mount it belongs to

  lemma Resolves(mounts: seq<Mount>, m: Mount, path: string, rel: string)
    requires LongestFirst(mounts) && DistinctPaths(mounts) && Governs(mounts, m, path) && Rejoins(m.path, rel, path)
    ensures Resolved(mounts, path) == Ok(Target(m.provider, rel))
  {
    ResolvesToLongest(mounts, path);
    var t := Resolved(mounts, path).value;
    var n :| Governs(mounts, n, path) && t.provider == n.provider && t.rel == Below(n.path, path);
    GoverningMountIsUnique(mounts, m, n, path);
    assert path != m.path ==> rel == path[|m.path|..];
  }

  lemma {:induction false} DedupOfDistinct(names: seq<string>)
    requires Distinct(names)
    ensures Dedup(names) == names
  {
    if names != [] {
      DedupOfDistinct(names[..|names| - 1]);
      assert names == names[..|names| - 1] + [names[|names| - 1]];
    }
  }

  ghost predicate NothingMountedBelow(mounts: seq<Mount>, path: string) {
    forall m, name :: m in mounts ==> !Through(m, path, name)
  }

  lemma RepeatedName(names: seq<string>, base: seq<string>, n: nat)
    requires |base| <= n < |names| && names[..|base|] == base && names[n] in base
    ensures !Distinct(names)
  {
    var k :| 0 <= k < |base| && base[k] == names[n];
    assert names[..|base|][k] == names[k];
  }

  lemma NoMoreNames(names: seq<string>, base: seq<string>)
    requires |base| <= |names| && names[..|base|] == base && Distinct(names)
    requires forall name :: name in names ==> name in base
    ensures |names| == |base|
  {
    if |names| > |base| { RepeatedName(names, base, |base|); }
  }

  lemma MergedWithNothing(mounts: seq<Mount>, path: string, entries: seq<Entry>, merged: seq<Entry>)
    requires NothingMountedBelow(mounts, path) && Merged(mounts, path, entries, merged)
    requires Distinct(NamesOf(entries))
    ensures merged == entries
  {
    DedupOfDistinct(NamesOf(entries));
    var names := NamesOf(merged);
    NoMoreNames(names, NamesOf(entries));
    forall i | 0 <= i < |entries| ensures merged[i] == entries[i] {
      assert merged[i] in merged && names[..|entries|][i] == merged[i].name;
      var k :| 0 <= k < |entries| && entries[k] == merged[i];
      assert NamesOf(entries)[k] == NamesOf(entries)[i];
    }
  }

  /**
    A directory belongs to the longest mount above it. With no mount below it, its listing is what that mount's
    provider lists at the rest of the path, or the provider's error. With mounts below, an entry that no mount has
    taken the name of is the provider's, and no entry of the provider is missing.
   */
  lemma ListingOfProvider(mounts: seq<Mount>, m: Mount, path: string, rel: string, r: Result<seq<Entry>>)
    requires LongestFirst(mounts) && DistinctPaths(mounts) && Governs(mounts, m, path) && Rejoins(m.path, rel, path)
    requires IsListing(mounts, path, r)
    ensures NothingMountedBelow(mounts, path) ==>
              match m.provider.readDir(rel)
              case Ok(entries) => Distinct(NamesOf(entries)) ==> r == Ok(entries)
              case Err(e) => r == Err(e)
    ensures match m.provider.readDir(rel)
            case Ok(entries) =>
              && r.Ok?
              && (forall e :: e in r.value && (forall n :: n in mounts ==> !Through(n, path, e.name)) ==> LastNamed(entries, e))
              && (forall e :: e in entries ==> e.name in NamesOf(r.value))
            case Err(e) => !IsMissingPath(e) ==> r == Err(e)
  {
    Resolves(mounts, m, path, rel);
    match m.provider.readDir(rel) {
      case Err(_) =>
      case Ok(entries) =>
        DedupElements(NamesOf(entries));
        forall e | e in entries ensures e.name in NamesOf(entries) {
          var i :| 0 <= i < |entries| && entries[i] == e;
          assert NamesOf(entries)[i] == e.name;
        }
        if NothingMountedBelow(mounts, path) && Distinct(NamesOf(entries)) {
          MergedWithNothing(mounts, path, entries, r.value);
        }
    }
  }

  lemma {:induction false} LastComponentIs(path: string, dir: string, name: string)
    requires path == dir + "/" + name && '/' !in name
    ensures LastComponent(path) == name
  {
    if name == "" {
      assert path[|path| - 1] == '/';
    } else {
      var init := name[..|name| - 1];
      assert path[..|path| - 1] == dir + "/" + init;
      LastComponentIs(path[..|path| - 1], dir, init);
      assert path[|path| - 1] == name[|name| - 1] && name == init + [name[|name| - 1]];
    }
  }

  /**
    `Stat` is answered by the provider of the longest mount above the path, at the rest of the path, information
    and errors as they come. Only a missing path above some mount is a directory all the same, under its last
    component and with mode 0755.
   */
  lemma StatOfProvider(mounts: seq<Mount>, m: Mount, path: string, rel: string)
    requires LongestFirst(mounts) && DistinctPaths(mounts) && Governs(mounts, m, path) && Rejoins(m.path, rel, path)
    ensures match m.provider.stat(rel)
            case Ok(info) => StatOf(mounts, path) == Ok(info)
            case Err(e) => !IsMissingPath(e) || !HasDescendantMount(mounts, path) ==> StatOf(mounts, path) == Err(e)
    ensures forall dir, name ::
              path == dir + "/" + name && name != "" && '/' !in name && HasDescendantMount(mounts, path)
              && m.provider.stat(rel).Err? && IsMissingPath(m.provider.stat(rel).errno) ==>
                StatOf(mounts, path) == Ok(FileInfo(name, 0, 0x8000_01ed, true))
  {
    Resolves(mounts, m, path, rel);
    forall dir, name | path == dir + "/" + name && name != "" && '/' !in name ensures BaseName(path) == name {
      LastComponentIs(path, dir, name);
    }
  }

  /** Where no mount is above the path: a directory if one is below, else the path is missing. */
  lemma StatWithoutProvider(mounts: seq<Mount>, path: string, dir: string, name: string)
    requires LongestFirst(mounts) && forall m :: m in mounts ==> !Covers(m.path, path)
    requires path == dir + "/" + name && name != "" && '/' !in name
    ensures StatOf(mounts, path)
            == if HasDescendantMount(mounts, path) then Ok(FileInfo(name, 0, 0x8000_01ed, true)) else Err(ENOENT)
  {
    ResolvesToLongest(mounts, path);
    LastComponentIs(path, dir, name);
  }

  /**
    A mount right below the directory appears under its name, with the information its provider gives of its
    root; one further below, or with a provider that fails, as a directory of mode 0755.
   */
  lemma ListingOfMount(mounts: seq<Mount>, m: Mount, path: string, name: string, r: Result<seq<Entry>>, e: Entry)
    requires m in mounts && Through(m, path, name) && IsListing(mounts, path, r)
    requires forall n :: n in mounts && Through(n, path, name) ==> n == m
    requires r.Ok? && e in r.value && e.name == name
    ensures match m.provider.stat("/")
            case Ok(info) =>
              if Relative(m.path, path) == Some(name) then e == Entry(name, info.isDir, FileInfo(name, info.size, info.mode, info.isDir))
              else e == Entry(name, true, FileInfo(name, 0, 0x8000_01ed, true))
            case Err(_) => e == Entry(name, true, FileInfo(name, 0, 0x8000_01ed, true))
  {
    assert EntryFor(mounts, path, name, e);
    var rel := Relative(m.path, path).value;
    assert name <= rel && (|name| == |rel| ==> name == rel);
    assert rel != name ==> Nested(m, path, name);
  }

  // ----- The order of names

  /** Names are in dictionary order: one is the beginning of the other, or the first difference decides. */
  lemma {:induction false} LexLeExactly(a: string, b: string)
    ensures LexLe(a, b) <==> a <= b || exists k :: FirstDifference(a, b, k) && a[k] < b[k]
  {
    if a != "" && b != "" && a[0] == b[0] {
      var s, t := a[1..], b[1..];
      LexLeExactly(s, t);
      assert a == [a[0]] + s && b == [a[0]] + t;
      assert s <= t <==> a <= b;
      if k :| FirstDifference(s, t, k) && s[k] < t[k] {
        LaterDifference(a, b, k + 1);
      }
      if k :| FirstDifference(a, b, k) && a[k] < b[k] {
        LaterDifference(a, b, k);
      }
    } else if a != "" && b != "" {
      assert FirstDifference(a, b, 0);
      if k :| FirstDifference(a, b, k) && a[k] < b[k] {
        assert k > 0 ==> a[..k][0] == b[..k][0];
      }
    }
  }

  predicate FirstDifference(a: string, b: string, k: int) {
    0 <= k < |a| && k < |b| && a[..k] == b[..k] && a[k] != b[k]
  }

  lemma LaterDifference(a: string, b: string, k: nat)
    requires a != "" && b != "" && a[0] == b[0]
    ensures FirstDifference(a, b, k) <==> k > 0 && FirstDifference(a[1..], b[1..], k - 1)
  {
    if 0 < k < |a| && k < |b| {
      assert a[..k] == [a[0]] + a[1..][..k - 1] && b[..k] == [b[0]] + b[1..][..k - 1];
      assert a[..k][1..] == a[1..][..k - 1] && b[..k][1..] == b[1..][..k - 1];
    }
  }
}
