/**
  The name space of the in-memory provider: a flat map of paths, whose directories are read off
  the path prefixes.
 */
module MemoryDirectory {
  import opened Sequences

  const SLASH := '/'

  /** What a directory's own entries start with. */
  function PrefixOf(dir: string): string {
    if dir == "/" then "/" else dir + "/"
  }

  /** The part before the first slash, as `strings.SplitN(rel, "/", 2)[0]`. */
  function FirstComponent(rel: string): (name: string)
    ensures name <= rel && SLASH !in name
    ensures |name| < |rel| ==> rel[|name|] == SLASH
  {
    if rel == "" || rel[0] == SLASH then "" else [rel[0]] + FirstComponent(rel[1..])
  }

  /** `path` lies under the prefix and its first component below it is `name`. */
  predicate Lists(prefix: string, path: string, name: string) {
    prefix <= path && FirstComponent(path[|prefix|..]) == name
  }

  datatype DirEntry = DirEntry(name: string, isDir: bool)

  datatype Listing = NotDir | Listing(entries: seq<DirEntry>)

  /** The names a directory shows: the first components of the paths below it. */
  ghost function Names(files: set<string>, dirs: set<string>, dir: string): set<string> {
    (set path | path in files && PrefixOf(dir) <= path :: FirstComponent(path[|PrefixOf(dir)|..]))
    + (set path | path in dirs && path != dir && PrefixOf(dir) <= path :: FirstComponent(path[|PrefixOf(dir)|..]))
  }

  function EntryNames(entries: seq<DirEntry>): seq<string> {
    seq(|entries|, i requires 0 <= i < |entries| => entries[i].name)
  }

  /** The paths `RemoveAll(path)` takes away. */
  predicate Beneath(path: string, k: string) {
    k == path || PrefixOf(path) <= k
  }

  class Provider<File(==)> {
    var files: map<string, File>
    var dirs: map<string, nat> // file modes

    constructor ()
      ensures files == map[] && dirs.Keys == {"/"}
    {
      files, dirs := map[], map["/" := 0x1ed];
    }

    /** Every entry stands for a path of the provider. */
    ghost predicate Stands(e: DirEntry, path: string)
      reads this
    {
      if e.isDir then
        exists k :: k in files.Keys + dirs.Keys && Lists(PrefixOf(path), k, e.name)
                    && (k in dirs || PrefixOf(path) + e.name + [SLASH] <= k)
      else PrefixOf(path) + e.name in files
    }

    /** The first loop of `ReadDir`; it ranges over a map, so the order is arbitrary. */
    method FileEntries(path: string) returns (entries: seq<DirEntry>, seen: set<string>)
      ensures Collected(entries, seen) && seen == Names(files.Keys, {}, path)
      ensures forall e :: e in entries ==> Stands(e, path)
    {
      var prefix := PrefixOf(path);
      seen, entries := {}, [];
      var todo := files.Keys;
      while todo != {}
        invariant todo <= files.Keys
        invariant Collected(entries, seen)
        invariant seen == Names(files.Keys - todo, {}, path)
        invariant forall e :: e in entries ==> Stands(e, path)
      {
        var filePath :| filePath in todo;
        NamesAddFile(files.Keys - todo, {}, path, filePath);
        assert files.Keys - (todo - {filePath}) == files.Keys - todo + {filePath};
        todo := todo - {filePath};
        if !(prefix <= filePath) {
          continue;
        }
        var rel := filePath[|prefix|..];
        var name := FirstComponent(rel);
        if name in seen {
          continue;
        }
        var e := DirEntry(name, |name| < |rel|);
        CollectOne(entries, seen, e);
        StandsForFile(path, filePath);
        seen := seen + {name};
        entries := entries + [e];
      }
    }

    lemma StandsForFile(path: string, k: string)
      requires k in files && PrefixOf(path) <= k
      ensures var rel := k[|PrefixOf(path)|..];
              var name := FirstComponent(rel);
              Stands(DirEntry(name, |name| < |rel|), path)
    {
      var prefix := PrefixOf(path);
      var rel := k[|prefix|..];
      var name := FirstComponent(rel);
      assert k == prefix + rel;
      if |name| < |rel| {
        assert prefix + name + [SLASH] <= k;
        assert Lists(prefix, k, name);
      } else {
        assert k == prefix + name;
      }
    }

    /** The second loop of `ReadDir`. */
    method AddDirEntries(path: string, entries0: seq<DirEntry>, seen0: set<string>) returns (entries: seq<DirEntry>)
      requires Collected(entries0, seen0) && seen0 == Names(files.Keys, {}, path)
      requires forall e :: e in entries0 ==> Stands(e, path)
      ensures Collected(entries, Names(files.Keys, dirs.Keys, path))
      ensures forall e :: e in entries ==> Stands(e, path)
    {
      var prefix := PrefixOf(path);
      var seen := seen0;
      entries := entries0;
      var todo := dirs.Keys;
      while todo != {}
        invariant todo <= dirs.Keys
        invariant Collected(entries, seen)
        invariant seen == Names(files.Keys, dirs.Keys - todo, path)
        invariant forall e :: e in entries ==> Stands(e, path)
      {
        var dirPath :| dirPath in todo;
        NamesAddDir(files.Keys, dirs.Keys - todo, path, dirPath);
        assert dirs.Keys - (todo - {dirPath}) == dirs.Keys - todo + {dirPath};
        todo := todo - {dirPath};
        if !(prefix <= dirPath) || dirPath == path {
          continue;
        }
        var name := FirstComponent(dirPath[|prefix|..]);
        if name in seen {
          continue;
        }
        var e := DirEntry(name, true);
        CollectOne(entries, seen, e);
        assert Lists(prefix, dirPath, name);
        assert Stands(e, path);
        seen := seen + {name};
        entries := entries + [e];
      }
      assert dirs.Keys - todo == dirs.Keys;
    }

    /** `ReadDir` on a normalised path. */
    method ReadDir(path: string) returns (r: Listing)
      ensures r.NotDir? <==> path !in dirs
      ensures r.Listing? ==> Distinct(EntryNames(r.entries))
      ensures r.Listing? ==> forall name :: name in EntryNames(r.entries) <==> name in Names(files.Keys, dirs.Keys, path)
      ensures r.Listing? ==> forall e :: e in r.entries ==> Stands(e, path)
    {
      if path !in dirs {
        return NotDir;
      }
      var entries, seen := FileEntries(path);
      entries := AddDirEntries(path, entries, seen);
      return Listing(entries);
    }

    method RemoveAll(path: string)
      modifies this
      ensures files.Keys == set k | k in old(files).Keys && !Beneath(path, k)
      ensures dirs.Keys == set k | k in old(dirs).Keys && !Beneath(path, k)
      ensures forall k :: k in files ==> files[k] == old(files)[k]
      ensures forall k :: k in dirs ==> dirs[k] == old(dirs)[k]
    {
      var prefix := PrefixOf(path);
      var todo := files.Keys;
      while todo != {}
        invariant todo <= old(files).Keys
        invariant files == map k | k in old(files) && (k in todo || !Beneath(path, k)) :: old(files)[k]
        invariant dirs == old(dirs)
      {
        var k :| k in todo;
        todo := todo - {k};
        if k == path || prefix <= k {
          files := files - {k};
        }
      }
      todo := dirs.Keys;
      while todo != {}
        invariant todo <= old(dirs).Keys
        invariant files == map k | k in old(files) && !Beneath(path, k) :: old(files)[k]
        invariant dirs == map k | k in old(dirs) && (k in todo || !Beneath(path, k)) :: old(dirs)[k]
      {
        var k :| k in todo;
        todo := todo - {k};
        if k == path || prefix <= k {
          dirs := dirs - {k};
        }
      }
    }
  }

  /** Removing what `dir` lists as `name`: the name is gone, and every other one is still there. */
  method RemoveEntry<File(==)>(p: Provider<File>, dir: string, name: string)
    requires name != "" && SLASH !in name
    modifies p
    ensures dir in p.dirs <==> dir in old(p.dirs)
    ensures Names(p.files.Keys, p.dirs.Keys, dir) == Names(old(p.files).Keys, old(p.dirs).Keys, dir) - {name}
  {
    p.RemoveAll(PrefixOf(dir) + name);
    RemoveAllTakesOneName(old(p.files).Keys, old(p.dirs).Keys, dir, name);
  }

  /** The entries collected so far have exactly the names seen so far, each once. */
  ghost predicate Collected(entries: seq<DirEntry>, seen: set<string>) {
    && Distinct(EntryNames(entries))
    && (forall name :: name in EntryNames(entries) <==> name in seen)
  }

  lemma CollectOne(entries: seq<DirEntry>, seen: set<string>, e: DirEntry)
    requires e.name !in seen && Collected(entries, seen)
    ensures Collected(entries + [e], seen + {e.name})
  {
    var names := EntryNames(entries);
    assert e.name !in names;
    assert EntryNames(entries + [e]) == names + [e.name];
  }

  lemma NamesAddFile(files: set<string>, dirs: set<string>, dir: string, path: string)
    ensures Names(files + {path}, dirs, dir)
            == Names(files, dirs, dir) + (if PrefixOf(dir) <= path then {FirstComponent(path[|PrefixOf(dir)|..])} else {})
  {
  }

  lemma NamesAddDir(files: set<string>, dirs: set<string>, dir: string, path: string)
    ensures Names(files, dirs + {path}, dir)
            == Names(files, dirs, dir)
               + (if PrefixOf(dir) <= path && path != dir then {FirstComponent(path[|PrefixOf(dir)|..])} else {})
  {
  }

  lemma BeneathImpliesListed(prefix: string, name: string, k: string)
    requires name != "" && SLASH !in name
    requires k == prefix + name || prefix + name + "/" <= k
    ensures Lists(prefix, k, name)
  {
    var path := prefix + name;
    var rest := k[|path|..];
    assert k == path + rest;
    assert k[|prefix|..] == name + rest;
    assert rest != "" ==> rest[0] == k[|path|] == (path + "/")[|path|];
    FirstComponentOf(name, rest);
  }

  lemma ListedImpliesBeneath(prefix: string, name: string, k: string)
    requires Lists(prefix, k, name)
    ensures k == prefix + name || prefix + name + "/" <= k
  {
    var rel := k[|prefix|..];
    assert k == prefix + rel;
    if |name| < |rel| {
      assert rel == name + [SLASH] + rel[|name| + 1..];
      assert k == (prefix + name + "/") + rel[|name| + 1..];
    } else {
      assert rel == name;
    }
  }

  /** What lies at or beneath `dir/name` is what `dir` lists as `name`. */
  lemma BeneathIsListed(dir: string, name: string, k: string)
    requires name != "" && SLASH !in name
    ensures Beneath(PrefixOf(dir) + name, k) <==> Lists(PrefixOf(dir), k, name)
  {
    var prefix := PrefixOf(dir);
    assert |prefix + name| == |prefix| + |name| > 1;
    if Beneath(prefix + name, k) { BeneathImpliesListed(prefix, name, k); }
    if Lists(prefix, k, name) { ListedImpliesBeneath(prefix, name, k); }
  }

  lemma {:induction false} FirstComponentOf(name: string, rest: string)
    requires SLASH !in name && (rest == "" || rest[0] == SLASH)
    ensures FirstComponent(name + rest) == name
  {
    if name != "" {
      assert (name + rest)[1..] == name[1..] + rest;
      FirstComponentOf(name[1..], rest);
    } else {
      assert name + rest == rest;
    }
  }

  /**
    After `RemoveAll(dir/name)` the directory is still one if it was one, it no longer lists `name`,
    and it lists the same other names as before - for any two maps, consistent or not.
   */
  lemma RemoveAllTakesOneName(files: set<string>, dirs: set<string>, dir: string, name: string)
    requires name != "" && SLASH !in name
    ensures var path := PrefixOf(dir) + name;
            var files', dirs' := set k | k in files && !Beneath(path, k), set k | k in dirs && !Beneath(path, k);
            && (dir in dirs' <==> dir in dirs)
            && Names(files', dirs', dir) == Names(files, dirs, dir) - {name}
  {
    var prefix := PrefixOf(dir);
    var path := prefix + name;
    var files', dirs' := set k | k in files && !Beneath(path, k), set k | k in dirs && !Beneath(path, k);
    forall k ensures Beneath(path, k) <==> Lists(prefix, k, name) { BeneathIsListed(dir, name, k); }
    assert !(prefix <= dir) || dir == "/";
    assert dir == "/" ==> FirstComponent(dir[|prefix|..]) == "";
    assert !Lists(prefix, dir, name);
    forall n | n in Names(files, dirs, dir) - {name} ensures n in Names(files', dirs', dir) {
      if k :| k in files && prefix <= k && FirstComponent(k[|prefix|..]) == n {
        assert !Lists(prefix, k, name);
        assert k in files';
      } else {
        var k :| k in dirs && k != dir && prefix <= k && FirstComponent(k[|prefix|..]) == n;
        assert !Lists(prefix, k, name);
        assert k in dirs';
      }
    }
  }

  /** A path as `normPath` returns it for an absolute argument. */
  predicate Normal(path: string) {
    && path != "" && path[0] == SLASH
    && (path == "/" || path[|path| - 1] != SLASH)
    && forall i :: 0 <= i < |path| - 1 ==> !(path[i] == SLASH && path[i + 1] == SLASH)
  }

  lemma NameBelow(k: string, prefix: string)
    requires Normal(k) && prefix <= k && prefix != "" && prefix[|prefix| - 1] == SLASH
    ensures FirstComponent(k[|prefix|..]) == "" <==> k == prefix == "/"
  {
    if |prefix| < |k| {
      assert !(k[|prefix| - 1] == SLASH && k[|prefix| - 1 + 1] == SLASH);
      assert k[|prefix|..][0] != SLASH;
    }
  }

  /**
    A listing has an entry without a name in one case only: `/` itself has been created as a file,
    and `/` is listed.
   */
  lemma EmptyNameExactly(files: set<string>, dirs: set<string>, dir: string)
    requires Normal(dir)
    requires forall k :: k in files + dirs ==> Normal(k)
    ensures "" in Names(files, dirs, dir) <==> dir == "/" && "/" in files
  {
    var prefix := PrefixOf(dir);
    forall k | k in files + dirs && prefix <= k ensures FirstComponent(k[|prefix|..]) == "" <==> k == prefix == "/" {
      NameBelow(k, prefix);
    }
    if dir == "/" && "/" in files {
      assert "/"[|prefix|..] == "";
    }
  }
}
