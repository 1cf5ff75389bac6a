/**
 A directory tree as the quota file system of the daemon sees it (daemon/internal/ufs): regular
 files with a size, directories, symbolic links. `pinned` marks an entry the kernel refuses to
 unlink: an immutable file or link, or a directory that is a mount point.
 */
module FsTree {
  import opened Wrappers
  import opened Integers

  /** The size of a file as the kernel reports it, a signed 64-bit number. */
  type FileSize = n: int | 0 <= n <= MAX_INT64

  datatype Entry =
    | File(size: FileSize, pinned: bool)
    | Dir(entries: map<string, Entry>, pinned: bool)
    | Symlink(pinned: bool)

  type Path = seq<string>

  // ---------------------------------------------------------------------------
  // Total size
  // ---------------------------------------------------------------------------

  /** The summed size of the regular files in a tree. */
  ghost function Total(e: Entry): nat
    decreases e, 1, 0
  {
    match e
    case File(size, _) => size
    case Dir(entries, _) => TotalOf(e, entries.Keys)
    case Symlink(_) => 0
  }

  /** The summed size under the entries `names` of a directory. */
  ghost function TotalOf(d: Entry, names: set<string>): nat
    requires d.Dir? && names <= d.entries.Keys
    decreases d, 0, |names|
  {
    if names == {} then 0
    else
      var n :| n in names;
      Total(d.entries[n]) + TotalOf(d, names - {n})
  }

  /** The order in which entries are summed does not matter. */
  lemma {:induction false} TotalSplit(d: Entry, names: set<string>, n: string)
    requires d.Dir? && names <= d.entries.Keys && n in names
    ensures TotalOf(d, names) == Total(d.entries[n]) + TotalOf(d, names - {n})
    decreases |names|
  {
    var m :| m in names && TotalOf(d, names) == Total(d.entries[m]) + TotalOf(d, names - {m});
    if m != n {
      TotalSplit(d, names - {m}, n);
      TotalSplit(d, names - {n}, m);
      assert names - {m} - {n} == names - {n} - {m};
    }
  }

  /** Only the entries named count. */
  lemma {:induction false} TotalCongruence(d: Entry, d': Entry, names: set<string>)
    requires d.Dir? && d'.Dir? && names <= d.entries.Keys && names <= d'.entries.Keys
    requires forall n :: n in names ==> d.entries[n] == d'.entries[n]
    ensures TotalOf(d, names) == TotalOf(d', names)
    decreases |names|
  {
    if names != {} {
      var n :| n in names;
      TotalSplit(d, names, n);
      TotalSplit(d', names, n);
      TotalCongruence(d, d', names - {n});
    }
  }

  /** Replacing, adding or dropping one entry changes the total by exactly its share. */
  lemma TotalPut(entries: map<string, Entry>, pinned: bool, n: string, e: Entry)
    ensures Total(Dir(entries[n := e], pinned))
            == Total(Dir(entries, pinned)) - (if n in entries then Total(entries[n]) else 0) + Total(e)
  {
    var d, d' := Dir(entries, pinned), Dir(entries[n := e], pinned);
    TotalSplit(d', d'.entries.Keys, n);
    TotalCongruence(d', d, entries.Keys - {n});
    assert d'.entries.Keys - {n} == entries.Keys - {n};
    if n in entries {
      TotalSplit(d, entries.Keys, n);
    } else {
      assert entries.Keys - {n} == entries.Keys;
    }
  }

  lemma TotalDrop(entries: map<string, Entry>, pinned: bool, n: string)
    requires n in entries
    ensures Total(Dir(entries - {n}, pinned)) == Total(Dir(entries, pinned)) - Total(entries[n])
  {
    var d, d' := Dir(entries, pinned), Dir(entries - {n}, pinned);
    TotalSplit(d, entries.Keys, n);
    assert d'.entries.Keys == entries.Keys - {n};
    TotalCongruence(d', d, entries.Keys - {n});
  }

  // ---------------------------------------------------------------------------
  // Paths
  // ---------------------------------------------------------------------------

  datatype Lookup = Found(entry: Entry) | Missing | NotDirectory

  /** What the kernel answers for a path. */
  function Find(e: Entry, path: Path): Lookup {
    if path == [] then Found(e)
    else if !e.Dir? then NotDirectory
    else if path[0] !in e.entries then Missing
    else Find(e.entries[path[0]], path[1..])
  }

  predicate IsDirAt(e: Entry, path: Path) {
    Find(e, path).Found? && Find(e, path).entry.Dir?
  }

  function KidsAt(e: Entry, path: Path): map<string, Entry>
    requires IsDirAt(e, path)
  {
    Find(e, path).entry.entries
  }

  /** The tree with the contents of the directory at `path` replaced. */
  function WithKids(e: Entry, path: Path, kids: map<string, Entry>): (r: Entry)
    requires IsDirAt(e, path)
    ensures r.Dir?
  {
    if path == [] then Dir(kids, e.pinned)
    else Dir(e.entries[path[0] := WithKids(e.entries[path[0]], path[1..], kids)], e.pinned)
  }

  lemma {:induction false} WithKidsFinds(e: Entry, path: Path, kids: map<string, Entry>)
    requires IsDirAt(e, path)
    ensures IsDirAt(WithKids(e, path, kids), path)
    ensures KidsAt(WithKids(e, path, kids), path) == kids
    ensures Find(WithKids(e, path, kids), path).entry.pinned == Find(e, path).entry.pinned
  {
    if path != [] {
      WithKidsFinds(e.entries[path[0]], path[1..], kids);
    }
  }

  lemma {:induction false} WithKidsTwice(e: Entry, path: Path, kids: map<string, Entry>, kids': map<string, Entry>)
    requires IsDirAt(e, path)
    ensures IsDirAt(WithKids(e, path, kids), path)
    ensures WithKids(WithKids(e, path, kids), path, kids') == WithKids(e, path, kids')
  {
    if path != [] {
      var n := path[0];
      WithKidsTwice(e.entries[n], path[1..], kids, kids');
      assert e.entries[n := WithKids(e.entries[n], path[1..], kids)][n := WithKids(e.entries[n], path[1..], kids')]
          == e.entries[n := WithKids(e.entries[n], path[1..], kids')];
    }
  }

  lemma {:induction false} WithSameKids(e: Entry, path: Path)
    requires IsDirAt(e, path)
    ensures WithKids(e, path, KidsAt(e, path)) == e
  {
    if path != [] {
      WithSameKids(e.entries[path[0]], path[1..]);
      assert e.entries[path[0] := e.entries[path[0]]] == e.entries;
    }
  }

  /** Changing a subdirectory is changing its entry in the directory above. */
  lemma {:induction false} WithKidsBelow(e: Entry, path: Path, n: string, kids: map<string, Entry>)
    requires IsDirAt(e, path) && n in KidsAt(e, path) && KidsAt(e, path)[n].Dir?
    ensures Find(e, path + [n]) == Found(KidsAt(e, path)[n])
    ensures WithKids(e, path + [n], kids)
            == WithKids(e, path, KidsAt(e, path)[n := Dir(kids, KidsAt(e, path)[n].pinned)])
  {
    if path == [] {
      assert [n][1..] == [];
      assert path + [n] == [n];
    } else {
      assert (path + [n])[1..] == path[1..] + [n];
      WithKidsBelow(e.entries[path[0]], path[1..], n, kids);
    }
  }

  lemma {:induction false} FindBelow(e: Entry, path: Path, n: string)
    ensures Find(e, path + [n]) == match Find(e, path)
                                   case Found(d) => Find(d, [n])
                                   case Missing => Missing
                                   case NotDirectory => NotDirectory
  {
    if path == [] {
      assert path + [n] == [n];
    } else if e.Dir? && path[0] in e.entries {
      assert (path + [n])[1..] == path[1..] + [n];
      FindBelow(e.entries[path[0]], path[1..], n);
    }
  }

  lemma {:induction false} TotalWithKids(e: Entry, path: Path, kids: map<string, Entry>)
    requires IsDirAt(e, path)
    ensures Total(WithKids(e, path, kids))
            == Total(e) - Total(Dir(KidsAt(e, path), false)) + Total(Dir(kids, false))
  {
    if path == [] {
      SameTotal(e.entries, e.pinned, false);
      SameTotal(kids, e.pinned, false);
    } else {
      TotalWithKids(e.entries[path[0]], path[1..], kids);
      TotalPut(e.entries, e.pinned, path[0], WithKids(e.entries[path[0]], path[1..], kids));
    }
  }

  lemma SameTotal(entries: map<string, Entry>, p: bool, q: bool)
    ensures Total(Dir(entries, p)) == Total(Dir(entries, q))
  {
    TotalCongruence(Dir(entries, p), Dir(entries, q), entries.Keys);
  }

  /** Everything outside the directory at `path` is left alone. */
  lemma {:induction false} WithKidsElsewhere(e: Entry, path: Path, kids: map<string, Entry>, other: Path)
    requires IsDirAt(e, path)
    requires !(path <= other) && !(other <= path)
    ensures Find(WithKids(e, path, kids), other) == Find(e, other)
  {
    if path[0] == other[0] {
      assert path == [path[0]] + path[1..] && other == [other[0]] + other[1..];
      WithKidsElsewhere(e.entries[path[0]], path[1..], kids, other[1..]);
    }
  }

  // ---------------------------------------------------------------------------
  // What removal leaves
  // ---------------------------------------------------------------------------

  /** Nothing in a tree is larger than the tree. */
  lemma {:induction false} TotalCovers(e: Entry, path: Path)
    ensures Find(e, path).Found? ==> Total(Find(e, path).entry) <= Total(e)
    decreases |path|
  {
    if path != [] && e.Dir? && path[0] in e.entries {
      TotalCovers(e.entries[path[0]], path[1..]);
      TotalDrop(e.entries, e.pinned, path[0]);
    }
  }

  /** What is left of an entry when everything that can be removed is: the pinned entries and the
      directories that lead to them. */
  ghost function Survives(e: Entry): Option<Entry> {
    match e
    case File(_, pinned) => if pinned then Some(e) else None
    case Symlink(pinned) => if pinned then Some(e) else None
    case Dir(entries, pinned) =>
      var kids := map n | n in entries && Survives(entries[n]).Some? :: Survives(entries[n]).value;
      if kids == map[] && !pinned then None else Some(Dir(kids, pinned))
  }

  ghost function Survivors(entries: map<string, Entry>): map<string, Entry> {
    map n | n in entries && Survives(entries[n]).Some? :: Survives(entries[n]).value
  }

  lemma SurvivesDir(e: Entry)
    requires e.Dir?
    ensures Survives(e) == if Survivors(e.entries) == map[] && !e.pinned then None else Some(Dir(Survivors(e.entries), e.pinned))
  {
  }

  /** Removing again changes nothing. */
  lemma {:induction false} SurvivesTwice(e: Entry)
    requires Survives(e).Some?
    ensures Survives(Survives(e).value) == Survives(e)
  {
    if e.Dir? {
      SurvivesDir(e);
      var s := Survivors(e.entries);
      forall n | n in s ensures Survives(s[n]) == Some(s[n]) {
        SurvivesTwice(e.entries[n]);
      }
      SurvivesDir(Dir(s, e.pinned));
      assert Survivors(s) == s;
    }
  }

  /** No entry of the tree is pinned. */
  ghost predicate Unpinned(e: Entry) {
    !e.pinned && (e.Dir? ==> forall n :: n in e.entries ==> Unpinned(e.entries[n]))
  }

  /** A tree vanishes entirely exactly when nothing in it is pinned. */
  lemma {:induction false} VanishesExactlyWhenUnpinned(e: Entry)
    ensures Survives(e) == None <==> Unpinned(e)
  {
    if e.Dir? {
      SurvivesDir(e);
      forall n | n in e.entries ensures Survives(e.entries[n]) == None <==> Unpinned(e.entries[n]) {
        VanishesExactlyWhenUnpinned(e.entries[n]);
      }
      if Survives(e) == None {
        forall n | n in e.entries ensures Unpinned(e.entries[n]) {
          assert n !in Survivors(e.entries);
        }
      }
    }
  }

  /** Of a tree that does not vanish exactly those paths survive that lead to something with a pinned entry in
      it; files and links among them as they were. */
  lemma {:induction false} SurvivingPaths(e: Entry, path: Path)
    requires Survives(e).Some?
    ensures var s := Find(Survives(e).value, path);
            && (s.Found? <==> Find(e, path).Found? && !Unpinned(Find(e, path).entry))
            && (s.Found? ==> s.entry.pinned == Find(e, path).entry.pinned && s.entry.Dir? == Find(e, path).entry.Dir?
                             && (!s.entry.Dir? ==> s.entry == Find(e, path).entry))
    decreases |path|
  {
    VanishesExactlyWhenUnpinned(e);
    if path != [] && e.Dir? {
      SurvivesDir(e);
      if path[0] in e.entries {
        VanishesExactlyWhenUnpinned(e.entries[path[0]]);
        if Survives(e.entries[path[0]]).Some? {
          SurvivingPaths(e.entries[path[0]], path[1..]);
        } else {
          UnpinnedBelow(e.entries[path[0]], path[1..]);
        }
      }
    }
  }

  lemma {:induction false} UnpinnedBelow(e: Entry, path: Path)
    requires Unpinned(e)
    ensures Find(e, path).Found? ==> Unpinned(Find(e, path).entry)
  {
    if path != [] && e.Dir? && path[0] in e.entries {
      UnpinnedBelow(e.entries[path[0]], path[1..]);
    }
  }

  ghost function TotalSurviving(e: Entry): nat {
    if Survives(e).Some? then Total(Survives(e).value) else 0
  }
}
