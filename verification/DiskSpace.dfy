/**
 The size walk over a server's data directory (daemon/server/filesystem/disk_space.go over
 daemon/internal/ufs/walk_unix.go): a pre-order walk in whatever order the kernel lists names, which
 adds up the sizes of regular files and counts an inode with several links once.
 */
module DiskSpace {
  import FsTree
  import opened Sequences

  /** What stat reports of an inode: its size and how many names it has anywhere. */
  datatype Inode = Inode(size: FsTree.FileSize, links: nat)

  type InodeTable = map<nat, Inode>

  datatype Node =
    | File(ino: nat)
    | Dir(entries: map<string, Node>)
    | Other

  type Path = seq<string>

  // ---------------------------------------------------------------------------
  // Sums over sets of inodes
  // ---------------------------------------------------------------------------

  ghost function Sum(table: InodeTable, inodes: set<nat>): nat
    requires inodes <= table.Keys
    decreases |inodes|
  {
    if inodes == {} then 0
    else
      var i :| i in inodes;
      table[i].size + Sum(table, inodes - {i})
  }

  lemma {:induction false} SumSplit(table: InodeTable, inodes: set<nat>, i: nat)
    requires inodes <= table.Keys && i in inodes
    ensures Sum(table, inodes) == table[i].size + Sum(table, inodes - {i})
    decreases |inodes|
  {
    var j :| j in inodes && Sum(table, inodes) == table[j].size + Sum(table, inodes - {j});
    if j != i {
      SumSplit(table, inodes - {j}, i);
      SumSplit(table, inodes - {i}, j);
      assert inodes - {j} - {i} == inodes - {i} - {j};
    }
  }

  lemma {:induction false} SumDisjoint(table: InodeTable, a: set<nat>, b: set<nat>)
    requires a <= table.Keys && b <= table.Keys && a !! b
    ensures Sum(table, a + b) == Sum(table, a) + Sum(table, b)
    decreases |a|
  {
    if a == {} {
      assert a + b == b;
    } else {
      var i :| i in a;
      SumSplit(table, a, i);
      SumSplit(table, a + b, i);
      assert a + b - {i} == (a - {i}) + b;
      SumDisjoint(table, a - {i}, b);
    }
  }

  // ---------------------------------------------------------------------------
  // Trees
  // ---------------------------------------------------------------------------

  /** The inodes of the regular files of a tree. */
  ghost function Inodes(n: Node): set<nat> {
    match n
    case File(ino) => {ino}
    case Dir(entries) => set k, i | k in entries && i in Inodes(entries[k]) :: i
    case Other => {}
  }

  /** The inodes of those of the entries `names` of a directory. */
  ghost function InodesOf(n: Node, names: set<string>): set<nat>
    requires n.Dir?
  {
    set k, i | k in names && k in n.entries && i in Inodes(n.entries[k]) :: i
  }

  ghost predicate Known(table: InodeTable, n: Node) {
    Inodes(n) <= table.Keys
  }

  ghost function Shared(table: InodeTable, inodes: set<nat>): set<nat> {
    set i | i in inodes && i in table && table[i].links > 1
  }

  /** What the kernel guarantees: an inode with a single link has a single name. */
  ghost predicate Lawful(table: InodeTable, n: Node) {
    && Known(table, n)
    && (n.Dir? ==>
          && (forall k :: k in n.entries ==> Lawful(table, n.entries[k]))
          && forall k, l :: k in n.entries && l in n.entries && k != l
               ==> Inodes(n.entries[k]) * Inodes(n.entries[l]) <= Shared(table, table.Keys))
  }

  /** The paths of all entries of a tree, the root's being empty. */
  ghost function Paths(n: Node): set<Path> {
    match n
    case File(_) => {[]}
    case Other => {[]}
    case Dir(entries) => {[]} + set k, p | k in entries && p in Paths(entries[k]) :: [k] + p
  }

  /** The paths below the entries `names` of a directory. */
  ghost function PathsOf(n: Node, names: set<string>): set<Path>
    requires n.Dir?
  {
    set k, p | k in names && k in n.entries && p in Paths(n.entries[k]) :: [k] + p
  }

  /** `visits` meets each of `paths`, taken below `rel`, exactly once. */
  ghost predicate Covers(visits: seq<Path>, rel: Path, paths: set<Path>) {
    && Distinct(visits)
    && (forall p :: p in paths ==> rel + p in visits)
    && forall v :: v in visits ==> rel <= v && v[|rel|..] in paths
  }

  // ---------------------------------------------------------------------------
  // The walk
  // ---------------------------------------------------------------------------

  class SizeWalk {
    const table: InodeTable
    var size: int
    var hardLinks: set<nat>

    constructor (table: InodeTable)
      ensures this.table == table && size == 0 && hardLinks == {}
    {
      this.table, size, hardLinks := table, 0, {};
    }

    /** The callback on each entry of the walk. */
    method Visit(n: Node)
      requires Known(table, n)
      modifies this
      ensures Met(table, old(hardLinks), old(size), hardLinks, size, if n.File? then Inodes(n) else {})
    {
      if !n.File? {
        assert Shared(table, {}) == {};
        return;
      }
      FileShare(table, n.ino, hardLinks);
      var info := table[n.ino];
      if info.links > 1 {
        if n.ino in hardLinks {
          return;
        }
        hardLinks := hardLinks + {n.ino};
      }
      size := size + info.size;
    }

    /** Visits an entry and, if it is a directory, everything below it, in any order. */
    method WalkDir(n: Node, rel: Path) returns (ghost visits: seq<Path>)
      requires Lawful(table, n)
      modifies this
      ensures Met(table, old(hardLinks), old(size), hardLinks, size, Inodes(n))
      ensures Covers(visits, rel, Paths(n)) && [rel] <= visits
      decreases n
    {
      Visit(n);
      visits := [rel];
      assert rel[|rel|..] == [] && rel + [] == rel;
      if !n.Dir? {
        return;
      }
      var todo := n.entries.Keys;
      ghost var done: set<string> := {};
      NoEntries(table, n, hardLinks, size);
      while todo != {}
        invariant done + todo == n.entries.Keys && done !! todo
        invariant Met(table, old(hardLinks), old(size), hardLinks, size, InodesOf(n, done))
        invariant Covers(visits, rel, {[]} + PathsOf(n, done)) && [rel] <= visits
      {
        var k :| k in todo;
        ghost var below;
        ghost var links, part := hardLinks, size;
        below := WalkDir(n.entries[k], rel + [k]);
        MetOneMore(table, n, done, k, old(hardLinks), old(size), links, part, hardLinks, size);
        EntryVisits(visits, below, n, done, k, rel);
        visits := visits + below;
        todo, done := todo - {k}, done + {k};
      }
      assert done == n.entries.Keys;
      AllEntries(n);
    }
  }

  /** A walk that met `inodes` went from `links`, `size` to `links'`, `size'`: it added the size of each
      of them, except those with several links that had been met before. */
  ghost predicate Met(table: InodeTable, links: set<nat>, size: int, links': set<nat>, size': int, inodes: set<nat>) {
    && inodes <= table.Keys
    && links' == links + Shared(table, inodes)
    && size' == size + Sum(table, inodes - Shared(table, links))
  }

  lemma MetMore(table: InodeTable, l0: set<nat>, s0: int, l1: set<nat>, s1: int, l2: set<nat>, s2: int, a: set<nat>, b: set<nat>)
    requires Met(table, l0, s0, l1, s1, a) && Met(table, l1, s1, l2, s2, b)
    requires a * b <= Shared(table, table.Keys)
    ensures Met(table, l0, s0, l2, s2, a + b)
  {
    assert Shared(table, a + b) == Shared(table, a) + Shared(table, b);
    forall i | i in a && i in b ensures i in Shared(table, l1) {
      assert i in a * b;
      assert i in Shared(table, a);
    }
    assert (a + b) - Shared(table, l0) == (a - Shared(table, l0)) + (b - Shared(table, l1));
    SumDisjoint(table, a - Shared(table, l0), b - Shared(table, l1));
  }

  lemma OneMoreEntry(table: InodeTable, n: Node, done: set<string>, k: string)
    requires n.Dir? && Lawful(table, n) && done <= n.entries.Keys && k in n.entries && k !in done
    ensures InodesOf(n, done + {k}) == InodesOf(n, done) + Inodes(n.entries[k])
    ensures InodesOf(n, done) * Inodes(n.entries[k]) <= Shared(table, table.Keys)
  {
    forall i | i in InodesOf(n, done) && i in Inodes(n.entries[k]) ensures i in Shared(table, table.Keys) {
      var l :| l in done && l in n.entries && i in Inodes(n.entries[l]);
      assert i in Inodes(n.entries[k]) * Inodes(n.entries[l]);
    }
  }

  lemma MetOneMore(table: InodeTable, n: Node, done: set<string>, k: string,
                   l0: set<nat>, s0: int, l1: set<nat>, s1: int, l2: set<nat>, s2: int)
    requires n.Dir? && Lawful(table, n) && done <= n.entries.Keys && k in n.entries && k !in done
    requires Met(table, l0, s0, l1, s1, InodesOf(n, done)) && Met(table, l1, s1, l2, s2, Inodes(n.entries[k]))
    ensures Met(table, l0, s0, l2, s2, InodesOf(n, done + {k}))
  {
    OneMoreEntry(table, n, done, k);
    MetMore(table, l0, s0, l1, s1, l2, s2, InodesOf(n, done), Inodes(n.entries[k]));
  }

  lemma NoEntries(table: InodeTable, n: Node, links: set<nat>, size: int)
    requires n.Dir?
    ensures Met(table, links, size, links, size, InodesOf(n, {})) && {[]} + PathsOf(n, {}) == {[]}
  {
    assert InodesOf(n, {}) == {};
    assert Shared(table, {}) == {};
  }

  lemma AllEntries(n: Node)
    requires n.Dir?
    ensures InodesOf(n, n.entries.Keys) == Inodes(n) && {[]} + PathsOf(n, n.entries.Keys) == Paths(n)
  {
  }

  lemma FileShare(table: InodeTable, ino: nat, links: set<nat>)
    requires ino in table
    ensures Shared(table, {ino}) == if table[ino].links > 1 then {ino} else {}
    ensures Sum(table, {ino} - Shared(table, links)) == if ino in links && table[ino].links > 1 then 0 else table[ino].size
  {
    SumSplit(table, {ino}, ino);
    assert {ino} - {ino} == {};
    assert {ino} - Shared(table, links) == if ino in links && table[ino].links > 1 then {} else {ino};
  }

  lemma StepBelow(v: Path, rel: Path, k: string)
    requires rel + [k] <= v
    ensures rel <= v && |v| > |rel| && v[|rel|] == k
    ensures v[|rel|..] == [k] + v[|rel| + 1..] && v[|rel + [k]|..] == v[|rel| + 1..]
  {
    assert (rel + [k])[|rel|] == k && (rel + [k])[..|rel|] == rel;
    assert v[..|rel|] == rel;
  }

  lemma VisitsBelow(below: seq<Path>, rel: Path, k: string, paths: set<Path>)
    requires Covers(below, rel + [k], paths)
    ensures forall v :: v in below ==> rel <= v && |v| > |rel| && v[|rel|] == k && v[|rel|..] == [k] + v[|rel| + 1..]
                                       && v[|rel| + 1..] in paths
    ensures forall q :: q in paths ==> rel + ([k] + q) in below
  {
    forall v | v in below
      ensures rel <= v && |v| > |rel| && v[|rel|] == k && v[|rel|..] == [k] + v[|rel| + 1..] && v[|rel| + 1..] in paths
    {
      StepBelow(v, rel, k);
    }
    forall q | q in paths ensures rel + ([k] + q) in below {
      assert rel + [k] + q == rel + ([k] + q);
    }
  }

  lemma PathsOfMore(n: Node, done: set<string>, k: string, p: Path)
    requires n.Dir? && k in n.entries
    ensures p in PathsOf(n, done + {k}) <==> p in PathsOf(n, done) || (p != [] && p[0] == k && p[1..] in Paths(n.entries[k]))
  {
    if p in PathsOf(n, done + {k}) {
      var l, q :| l in done + {k} && l in n.entries && q in Paths(n.entries[l]) && p == [l] + q;
      assert p[1..] == q;
    }
    if p != [] && p[0] == k && p[1..] in Paths(n.entries[k]) {
      assert p == [k] + p[1..];
    }
  }

  /** The paths of the entries attempted so far start with other names than `k`. */
  lemma VisitsApart(visits: seq<Path>, below: seq<Path>, n: Node, done: set<string>, k: string, rel: Path)
    requires n.Dir? && k in n.entries && k !in done
    requires Covers(visits, rel, {[]} + PathsOf(n, done)) && Covers(below, rel + [k], Paths(n.entries[k]))
    ensures forall v :: v in visits ==> v !in below
  {
    VisitsBelow(below, rel, k, Paths(n.entries[k]));
    forall v | v in visits ensures v !in below {
      var r := v[|rel|..];
      assert r in {[]} + PathsOf(n, done);
      assert r == [] || (r[0] == v[|rel|] && r[0] in done);
    }
  }

  lemma DistinctConcat(a: seq<Path>, b: seq<Path>)
    requires Distinct(a) && Distinct(b) && forall v :: v in a ==> v !in b
    ensures Distinct(a + b)
  {
    forall i, j | 0 <= i < j < |a + b| ensures (a + b)[i] != (a + b)[j] {
      if i < |a| <= j {
        assert (a + b)[i] in a && (a + b)[j] in b;
      }
    }
  }

  lemma EntryVisits(visits: seq<Path>, below: seq<Path>, n: Node, done: set<string>, k: string, rel: Path)
    requires n.Dir? && done <= n.entries.Keys && k in n.entries && k !in done
    requires Covers(visits, rel, {[]} + PathsOf(n, done)) && Covers(below, rel + [k], Paths(n.entries[k]))
    ensures Covers(visits + below, rel, {[]} + PathsOf(n, done + {k}))
  {
    VisitsApart(visits, below, n, done, k, rel);
    DistinctConcat(visits, below);
    VisitsBelow(below, rel, k, Paths(n.entries[k]));
    forall p | p in {[]} + PathsOf(n, done + {k}) ensures rel + p in visits + below {
      PathsOfMore(n, done, k, p);
      if p !in {[]} + PathsOf(n, done) {
        assert p == [k] + p[1..];
      }
    }
    forall v | v in visits + below ensures rel <= v && v[|rel|..] in {[]} + PathsOf(n, done + {k}) {
      if v in below {
        assert v[|rel|..] == [k] + v[|rel| + 1..];
      }
      PathsOfMore(n, done, k, v[|rel|..]);
    }
  }

  /** The size of a directory is the summed size of its distinct inodes, whatever the listing order. */
  method DirectorySize(table: InodeTable, root: Node) returns (size: int)
    requires Lawful(table, root)
    ensures size == Sum(table, Inodes(root))
  {
    var walk := new SizeWalk(table);
    ghost var visits := walk.WalkDir(root, []);
    assert Inodes(root) - Shared(table, {}) == Inodes(root);
    size := walk.size;
  }

  // ---------------------------------------------------------------------------
  // Agreement with the accounting per name
  // ---------------------------------------------------------------------------

  /** The tree as the quota accounting sees it: every name carries its size. */
  ghost function Named(table: InodeTable, n: Node): FsTree.Entry
    requires Known(table, n)
  {
    match n
    case File(ino) => FsTree.File(table[ino].size, false)
    case Other => FsTree.Symlink(false)
    case Dir(entries) =>
      FsTree.Dir(map k | k in entries :: assert Inodes(entries[k]) <= Inodes(n); Named(table, entries[k]), false)
  }

  /** The inode has several names in the tree. */
  ghost predicate Several(n: Node, i: nat)
    decreases n, 1
  {
    n.Dir? && SeveralOf(n, n.entries.Keys, i)
  }

  /** It has several names below the entries `names` of a directory. */
  ghost predicate SeveralOf(n: Node, names: set<string>, i: nat)
    requires n.Dir?
    decreases n, 0
  {
    || (exists k :: k in names && k in n.entries && Several(n.entries[k], i))
    || (exists k, l :: k in names && l in names && k in n.entries && l in n.entries && k != l
                       && i in Inodes(n.entries[k]) && i in Inodes(n.entries[l]))
  }

  lemma SeveralSplit(n: Node, names: set<string>, k: string, i: nat)
    requires n.Dir? && names <= n.entries.Keys && k in names
    ensures SeveralOf(n, names, i)
            <==> SeveralOf(n, names - {k}, i) || Several(n.entries[k], i) || i in InodesOf(n, names - {k}) * Inodes(n.entries[k])
  {
    if SeveralOf(n, names, i) && !(exists l :: l in names && Several(n.entries[l], i)) {
      var l, m :| l in names && m in names && l != m && i in Inodes(n.entries[l]) && i in Inodes(n.entries[m]);
      if l != k && m != k {
        assert l in names - {k} && m in names - {k};
      }
    }
    if i in InodesOf(n, names - {k}) * Inodes(n.entries[k]) {
      var l :| l in names - {k} && i in Inodes(n.entries[l]);
    }
  }

  /** Nothing of what has several names has any bytes. */
  ghost predicate SeveralAreEmpty(table: InodeTable, n: Node) {
    forall i :: Several(n, i) ==> i in table && table[i].size == 0
  }

  ghost predicate SeveralOfAreEmpty(table: InodeTable, n: Node, names: set<string>)
    requires n.Dir?
  {
    forall i :: SeveralOf(n, names, i) ==> i in table && table[i].size == 0
  }

  lemma {:induction false} SumZero(table: InodeTable, inodes: set<nat>)
    requires inodes <= table.Keys
    ensures Sum(table, inodes) == 0 <==> forall i :: i in inodes ==> table[i].size == 0
    decreases |inodes|
  {
    if inodes != {} {
      var i :| i in inodes;
      SumSplit(table, inodes, i);
      SumZero(table, inodes - {i});
      assert forall j :: j in inodes <==> j == i || j in inodes - {i};
    }
  }

  lemma SumUnion(table: InodeTable, a: set<nat>, b: set<nat>)
    requires a <= table.Keys && b <= table.Keys
    ensures Sum(table, a + b) + Sum(table, a * b) == Sum(table, a) + Sum(table, b)
  {
    assert a + b == a + (b - a) && b == (b - a) + a * b;
    SumDisjoint(table, a, b - a);
    SumDisjoint(table, b - a, a * b);
  }

  lemma EmptySplit(table: InodeTable, n: Node, names: set<string>, k: string)
    requires n.Dir? && Known(table, n) && names <= n.entries.Keys && k in names
    requires InodesOf(n, names - {k}) <= table.Keys && Inodes(n.entries[k]) <= table.Keys
    ensures SeveralOfAreEmpty(table, n, names)
            <==> && SeveralOfAreEmpty(table, n, names - {k}) && SeveralAreEmpty(table, n.entries[k])
                 && Sum(table, InodesOf(n, names - {k}) * Inodes(n.entries[k])) == 0
  {
    SumZero(table, InodesOf(n, names - {k}) * Inodes(n.entries[k]));
    forall i ensures SeveralOf(n, names, i)
                     <==> SeveralOf(n, names - {k}, i) || Several(n.entries[k], i) || i in InodesOf(n, names - {k}) * Inodes(n.entries[k])
    {
      SeveralSplit(n, names, k, i);
    }
  }

  lemma {:induction false} NamedTotal(table: InodeTable, n: Node)
    requires Known(table, n)
    ensures Sum(table, Inodes(n)) <= FsTree.Total(Named(table, n))
    ensures Sum(table, Inodes(n)) == FsTree.Total(Named(table, n)) <==> SeveralAreEmpty(table, n)
    decreases n, 1
  {
    match n
    case File(ino) =>
      SumSplit(table, {ino}, ino);
      assert {ino} - {ino} == {};
    case Other =>
    case Dir(entries) =>
      NamedTotalOf(table, n, entries.Keys);
      assert InodesOf(n, entries.Keys) == Inodes(n);
      assert Named(table, n).entries.Keys == entries.Keys;
      assert SeveralAreEmpty(table, n) <==> SeveralOfAreEmpty(table, n, entries.Keys);
  }

  lemma InodesSplit(n: Node, names: set<string>, k: string)
    requires n.Dir? && names <= n.entries.Keys && k in names
    ensures InodesOf(n, names) == InodesOf(n, names - {k}) + Inodes(n.entries[k])
    ensures InodesOf(n, names) <= Inodes(n)
  {
  }

  lemma {:induction false} NamedTotalOf(table: InodeTable, n: Node, names: set<string>)
    requires n.Dir? && Known(table, n) && names <= n.entries.Keys
    ensures InodesOf(n, names) <= table.Keys
    ensures Sum(table, InodesOf(n, names)) <= FsTree.TotalOf(Named(table, n), names)
    ensures Sum(table, InodesOf(n, names)) == FsTree.TotalOf(Named(table, n), names) <==> SeveralOfAreEmpty(table, n, names)
    decreases n, 0, |names|
  {
    if names == {} {
      assert InodesOf(n, names) == {};
    } else {
      var k :| k in names;
      InodesSplit(n, names, k);
      NamedTotal(table, n.entries[k]);
      NamedTotalOf(table, n, names - {k});
      SumUnion(table, InodesOf(n, names - {k}), Inodes(n.entries[k]));
      EmptySplit(table, n, names, k);
      FsTree.TotalSplit(Named(table, n), names, k);
    }
  }

  /** Recalculating the usage yields the total the write and delete accounting keeps if and only if every
      inode with several names in the tree is empty; otherwise it is smaller. */
  lemma RecalculationAgrees(table: InodeTable, root: Node)
    requires Lawful(table, root)
    ensures Sum(table, Inodes(root)) <= FsTree.Total(Named(table, root))
    ensures Sum(table, Inodes(root)) == FsTree.Total(Named(table, root))
            <==> forall i :: Several(root, i) ==> i in table && table[i].size == 0
  {
    NamedTotal(table, root);
  }
}
