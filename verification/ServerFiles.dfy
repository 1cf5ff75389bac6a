/**
 The file operations of a server's data directory and what they do to its disk usage
 (daemon/server/filesystem/filesystem.go, daemon/internal/ufs/fs_quota.go).
 */
module ServerFiles {
  import opened Wrappers
  import opened Sequences
  import opened Integers
  import opened Numerals
  import opened FsTree
  import opened Sweep
  import opened QuotaFs

  datatype FsError = Ufs(errno: Errno) | IsDirectory | DiskSpace

  /** A quota file system by value. */
  datatype Disk = Disk(root: Entry, usage: int64, limit: int64)

  /** The tracked usage is the total size of the regular files. */
  ghost predicate Exact(d: Disk) {
    d.usage == Total(d.root)
  }

  predicate Fits(d: Disk, size: int64) {
    HasRoom(d.usage, d.limit, size)
  }

  // ---------------------------------------------------------------------------
  // Placing a file
  // ---------------------------------------------------------------------------

  predicate CanPlace(e: Entry, path: Path) {
    path != [] && e.Dir? && (Find(e, path).Missing? || (Find(e, path).Found? && Find(e, path).entry.File?))
  }

  /** Touch: puts a file at `path`, creating the missing directories on the way. */
  function PutFile(e: Entry, path: Path, f: Entry): (r: Entry)
    requires CanPlace(e, path)
    ensures r.Dir? && r.pinned == e.pinned
    decreases |path|
  {
    if |path| == 1 then Dir(e.entries[path[0] := f], e.pinned)
    else
      var sub := if path[0] in e.entries then e.entries[path[0]] else Dir(map[], false);
      assert Find(sub, path[1..]) == (if path[0] in e.entries then Find(e, path) else Missing);
      Dir(e.entries[path[0] := PutFile(sub, path[1..], f)], e.pinned)
  }

  /** The size of the file at `path`, 0 if there is none. */
  function SizeAt(e: Entry, path: Path): FileSize {
    match Find(e, path)
    case Found(File(size, _)) => size
    case _ => 0
  }

  lemma {:induction false} PutFileIsExact(e: Entry, path: Path, f: Entry)
    requires CanPlace(e, path)
    ensures Find(PutFile(e, path, f), path) == Found(f)
    ensures Total(PutFile(e, path, f)) == Total(e) - SizeAt(e, path) + Total(f)
    ensures Unpinned(e) && Unpinned(f) ==> Unpinned(PutFile(e, path, f))
    decreases |path|
  {
    if |path| == 1 {
      assert path[1..] == [];
      TotalPut(e.entries, e.pinned, path[0], f);
      assert Find(e, path) == if path[0] in e.entries then Found(e.entries[path[0]]) else Missing;
    } else {
      var sub := if path[0] in e.entries then e.entries[path[0]] else Dir(map[], false);
      assert Find(sub, path[1..]) == (if path[0] in e.entries then Find(e, path) else Missing);
      PutFileIsExact(sub, path[1..], f);
      TotalPut(e.entries, e.pinned, path[0], PutFile(sub, path[1..], f));
      if path[0] !in e.entries {
        assert Find(sub, path[1..]) == Missing;
        assert Total(sub) == 0;
      }
    }
  }

  lemma {:induction false} PutFileElsewhere(e: Entry, path: Path, f: Entry, other: Path)
    requires CanPlace(e, path)
    requires Find(e, other).Found? && !(path <= other) && !(other <= path)
    ensures Find(PutFile(e, path, f), other) == Find(e, other)
    decreases |path|
  {
    if path[0] == other[0] && |path| > 1 {
      assert path == [path[0]] + path[1..] && other == [other[0]] + other[1..];
      PutFileElsewhere(e.entries[path[0]], path[1..], f, other[1..]);
    }
  }

  // ---------------------------------------------------------------------------
  // Write
  // ---------------------------------------------------------------------------

  /** What copying from a reader with `available` bytes through a limit of `newSize` transfers. */
  function Transferred(available: nat, newSize: int64): FileSize {
    assert InInt64(newSize);
    if newSize <= 0 then 0 else if available < newSize then available else newSize
  }

  /** It is the most that both the reader and the limit allow. */
  lemma TransferredIsMost(available: nat, newSize: int64, n: nat)
    ensures Transferred(available, newSize) <= available && (newSize >= 0 ==> Transferred(available, newSize) <= newSize)
    ensures newSize < 0 ==> Transferred(available, newSize) == 0
    ensures n <= available && n <= newSize ==> n <= Transferred(available, newSize)
  {
    assert InInt64(newSize);
  }

  predicate PinnedAt(e: Entry, path: Path) {
    Find(e, path).Found? && Find(e, path).entry.pinned
  }

  /** The outcome of a write of declared size `newSize` from a reader that has `available` bytes. */
  function Written(d: Disk, p: Path, available: nat, newSize: int64): (Disk, Option<FsError>) {
    match Find(d.root, p)
    case NotDirectory => (d, Some(Ufs(NotDir)))
    case Found(Dir(_, _)) => (d, Some(IsDirectory))
    case Found(Symlink(_)) => (d, Some(Ufs(Loop)))
    case _ =>
      var currentSize := SizeAt(d.root, p);
      if !Fits(d, Wrap64(newSize - currentSize)) then (d, Some(DiskSpace))
      else if PinnedAt(d.root, p) then (d, Some(Ufs(NotPermitted)))
      else if p == [] || !d.root.Dir? then (d, Some(Ufs(NotDir)))
      else
        var n := Transferred(available, newSize);
        (d.(root := PutFile(d.root, p, File(n, false)), usage := Bumped(d.usage, n - currentSize)), None)
  }

  /** The size check is on the declared size. */
  predicate Admitted(d: Disk, p: Path, newSize: int64) {
    Fits(d, Wrap64(newSize - SizeAt(d.root, p)))
  }

  /** The write is carried out. */
  predicate WriteGoesThrough(d: Disk, p: Path, newSize: int64) {
    CanPlace(d.root, p) && !PinnedAt(d.root, p) && Admitted(d, p, newSize)
  }

  /** The bytes in use, as far as they are known, once the file at `p` has `n` of them. */
  function WithFileOf(d: Disk, p: Path, n: FileSize): int {
    d.usage - SizeAt(d.root, p) + n
  }

  lemma BumpedToTotal(d: Disk, p: Path, n: FileSize)
    requires Exact(d) && CanPlace(d.root, p)
    ensures Total(PutFile(d.root, p, File(n, false))) == WithFileOf(d, p, n)
    ensures Bumped(d.usage, n - SizeAt(d.root, p)) == WithFileOf(d, p, n) <==> WithFileOf(d, p, n) <= MAX_INT64
  {
    PutFileIsExact(d.root, p, File(n, false));
    if WithFileOf(d, p, n) <= MAX_INT64 {
      WrapIsIdentity(WithFileOf(d, p, n));
    }
  }

  /** A write keeps exact usage exact, whether the reader is shorter or longer than declared, if and only if
      the bytes in use stay a 64-bit number; and the file ends up with the transferred bytes. */
  lemma WriteKeepsExactExactly(d: Disk, p: Path, available: nat, newSize: int64)
    requires Exact(d)
    ensures var (d', err) := Written(d, p, available, newSize);
            var n := Transferred(available, newSize);
            && (err == None <==> WriteGoesThrough(d, p, newSize))
            && (Exact(d') <==> !(WriteGoesThrough(d, p, newSize) && WithFileOf(d, p, n) > MAX_INT64))
            && d'.limit == d.limit && (err.Some? ==> d' == d)
            && (err == None ==> Find(d'.root, p) == Found(File(n, false)) && Total(d'.root) == WithFileOf(d, p, n))
            && (Unpinned(d.root) ==> Unpinned(d'.root)) && (d.root.Dir? ==> d'.root.Dir?)
  {
    if WriteGoesThrough(d, p, newSize) {
      var n := Transferred(available, newSize);
      PutFileIsExact(d.root, p, File(n, false));
      BumpedToTotal(d, p, n);
    }
  }

  /** Why a write is refused. The size check comes before the file is opened. */
  lemma WriteErrors(d: Disk, p: Path, available: nat, newSize: int64)
    ensures var err := Written(d, p, available, newSize).1;
            match Find(d.root, p)
            case NotDirectory => err == Some(Ufs(NotDir))
            case Found(Dir(_, _)) => err == Some(IsDirectory)
            case Found(Symlink(_)) => err == Some(Ufs(Loop))
            case Missing => err == if !HasRoom(d.usage, d.limit, Wrap64(newSize)) then Some(DiskSpace) else None
            case Found(File(size, pinned)) =>
              && (err == Some(DiskSpace) <==> !HasRoom(d.usage, d.limit, Wrap64(newSize - size)))
              && (err == Some(Ufs(NotPermitted)) <==> HasRoom(d.usage, d.limit, Wrap64(newSize - size)) && pinned)
              && (err == None <==> HasRoom(d.usage, d.limit, Wrap64(newSize - size)) && !pinned && p != [])
              && (err == Some(Ufs(NotDir)) <==> HasRoom(d.usage, d.limit, Wrap64(newSize - size)) && !pinned && p == [])
  {
  }

  /** The two special limits: -1 keeps everything out, and 0, like a usage that is not known, nothing. */
  lemma SpecialLimits(d: Disk, p: Path, available: nat, newSize: int64, stamp: string)
    ensures d.limit == -1 ==> Written(d, p, available, newSize).0 == d && Copied(d, p, stamp).0 == d
    ensures d.limit == 0 || (d.limit != -1 && d.usage == -1) ==>
              Written(d, p, available, newSize).1 != Some(DiskSpace) && Copied(d, p, stamp).1 != Some(DiskSpace)
  {
  }

  /** Unless its 64-bit sums wrap, the check admits a write exactly when the declared size fits. */
  lemma CheckIsExactUnlessItWraps(d: Disk, p: Path, newSize: int64)
    requires Exact(d) && 0 < d.limit
    requires InInt64(newSize - SizeAt(d.root, p)) && InInt64(d.usage + newSize - SizeAt(d.root, p))
    ensures Admitted(d, p, newSize) <==> d.usage + newSize - SizeAt(d.root, p) <= d.limit
  {
    WrapIsIdentity(newSize - SizeAt(d.root, p));
    WrapIsIdentity(d.usage + newSize - SizeAt(d.root, p));
  }

  /** A write keeps the files within the limit for every reader exactly when it is not carried out or the
      declared size really fits. */
  lemma WriteStaysWithinExactly(d: Disk, p: Path, newSize: int64)
    requires Exact(d) && d.usage <= d.limit
    ensures (forall available: nat :: Total(Written(d, p, available, newSize).0.root) <= d.limit)
            <==> !WriteGoesThrough(d, p, newSize) || d.usage - SizeAt(d.root, p) + newSize <= d.limit
  {
    TotalCovers(d.root, p);
    forall available: nat
      ensures Total(Written(d, p, available, newSize).0.root)
              == if WriteGoesThrough(d, p, newSize) then WithFileOf(d, p, Transferred(available, newSize)) else d.usage
    {
      WriteKeepsExactExactly(d, p, available, newSize);
    }
    if WriteGoesThrough(d, p, newSize) && d.usage - SizeAt(d.root, p) + newSize > d.limit {
      var all: nat := newSize;
      assert Total(Written(d, p, all, newSize).0.root) > d.limit;
    }
  }

  /** A declared size near the top of the int64 range wraps the check and passes a limit it exceeds. */
  lemma WrappedCheckAdmits()
    ensures var d := Disk(Dir(map["a" := File(1, false)], false), 1, 10);
            var (d', err) := Written(d, ["b"], 100, 0x7FFF_FFFF_FFFF_FFFF);
            Exact(d) && err == None && d'.usage == 101 > d'.limit
  {
    var e := Dir(map["a" := File(1, false)], false);
    TotalPut(map[], false, "a", File(1, false));
    assert map["a" := File(1, false)] == map[]["a" := File(1, false)];
    assert Find(e, ["b"]) == Missing;
  }

  /** The outcome of the older write, which asks for no size and makes no check. */
  function Rewritten(d: Disk, p: Path, available: FileSize): (Disk, Option<FsError>) {
    match Find(d.root, p)
    case NotDirectory => (d, Some(Ufs(NotDir)))
    case Found(Dir(_, _)) => (d, Some(IsDirectory))
    case Found(Symlink(_)) => (d, Some(Ufs(Loop)))
    case _ =>
      if PinnedAt(d.root, p) then (d, Some(Ufs(NotPermitted)))
      else if p == [] || !d.root.Dir? then (d, Some(Ufs(NotDir)))
      else
        (d.(root := PutFile(d.root, p, File(available, false)),
            usage := Bumped(d.usage, available - SizeAt(d.root, p))), None)
  }

  /** Why it is refused. */
  lemma WritefileErrors(d: Disk, p: Path, available: FileSize)
    ensures var err := Rewritten(d, p, available).1;
            match Find(d.root, p)
            case NotDirectory => err == Some(Ufs(NotDir))
            case Found(Dir(_, _)) => err == Some(IsDirectory)
            case Found(Symlink(_)) => err == Some(Ufs(Loop))
            case Missing => err == None
            case Found(File(_, pinned)) => err == if pinned then Some(Ufs(NotPermitted)) else if p == [] then Some(Ufs(NotDir)) else None
  {
  }

  /** It keeps exact usage exact on the same condition, and the files within a limit exactly when the data
      fits. */
  lemma WritefileKeepsExact(d: Disk, p: Path, available: FileSize)
    requires Exact(d)
    ensures var (d', err) := Rewritten(d, p, available);
            && (err == None <==> CanPlace(d.root, p) && !PinnedAt(d.root, p)) && (err.Some? ==> d' == d)
            && (Exact(d') <==> !(CanPlace(d.root, p) && !PinnedAt(d.root, p) && WithFileOf(d, p, available) > MAX_INT64))
            && (err == None ==> (Total(d'.root) <= d.limit <==> WithFileOf(d, p, available) <= d.limit))
  {
    if CanPlace(d.root, p) && !PinnedAt(d.root, p) {
      BumpedToTotal(d, p, available);
    }
  }

  // ---------------------------------------------------------------------------
  // Copy
  // ---------------------------------------------------------------------------

  function CopySuffix(i: nat): string {
    if i == 0 then " copy" else " copy " + Decimal(i)
  }

  /** "stem copy.ext", "stem copy 1.ext", "stem copy 2.ext", ... */
  function Numbered(name: string, extension: string, i: nat): string {
    name + CopySuffix(i) + extension
  }

  /** How many numbered names are tried before falling back to a time stamp. */
  const COPY_TRIES := 51

  function Candidates(name: string, extension: string): seq<string> {
    seq(COPY_TRIES, i requires 0 <= i < COPY_TRIES => Numbered(name, extension, i))
  }

  function FirstFree(taken: set<string>, candidates: seq<string>): Option<string> {
    if candidates == [] then None
    else if candidates[0] !in taken then Some(candidates[0])
    else FirstFree(taken, candidates[1..])
  }

  function CopyName(taken: set<string>, name: string, extension: string, stamp: string): string {
    match FirstFree(taken, Candidates(name, extension))
    case Some(n) => n
    case None => name + "copy." + stamp + extension
  }

  lemma {:induction false} FirstFreeIsFree(taken: set<string>, candidates: seq<string>)
    ensures match FirstFree(taken, candidates)
            case Some(n) => n !in taken && n in candidates
            case None => forall c :: c in candidates ==> c in taken
  {
    if candidates != [] && candidates[0] in taken {
      FirstFreeIsFree(taken, candidates[1..]);
      assert forall c :: c in candidates ==> c == candidates[0] || c in candidates[1..];
    }
  }

  function LastDot(s: string): (i: int)
    ensures -1 <= i < |s|
    ensures i >= 0 ==> s[i] == '.'
  {
    if s == [] then -1
    else if s[|s| - 1] == '.' then |s| - 1
    else LastDot(s[..|s| - 1])
  }

  predicate HasSuffix(s: string, suffix: string) {
    |suffix| <= |s| && s[|s| - |suffix|..] == suffix
  }

  /** A file name cut into stem and extension, with ".tar" counted as part of the extension. */
  function SplitName(base: string): (r: (string, string))
    ensures r.0 + r.1 == base
  {
    var dot := LastDot(base);
    var extension := if dot < 0 then "" else base[dot..];
    var stem := base[..|base| - |extension|];
    if HasSuffix(stem, ".tar") then (stem[..|stem| - 4], ".tar" + extension) else (stem, extension)
  }

  lemma {:induction false} LastDotOf(s: string, i: nat)
    requires i < |s| && s[i] == '.' && forall j :: i < j < |s| ==> s[j] != '.'
    ensures LastDot(s) == i
    decreases |s|
  {
    if i < |s| - 1 {
      LastDotOf(s[..|s| - 1], i);
    }
  }

  lemma {:induction false} NoDot(s: string)
    requires '.' !in s
    ensures LastDot(s) == -1
  {
    if s != "" {
      assert '.' !in s[..|s| - 1];
      NoDot(s[..|s| - 1]);
    }
  }

  /** A dot and what follows it up to the end of a name. */
  predicate IsExtension(ext: string) {
    ext != "" && ext[0] == '.' && '.' !in ext[1..]
  }

  /** The extension begins at the last dot; a ".tar" in front of it belongs to it; a name without a dot has none. */
  lemma SplitNameMeans(stem: string, ext: string)
    ensures IsExtension(ext) && !HasSuffix(stem, ".tar") ==> SplitName(stem + ext) == (stem, ext)
    ensures IsExtension(ext) ==> SplitName(stem + ".tar" + ext) == (stem, ".tar" + ext)
    ensures '.' !in stem ==> SplitName(stem) == (stem, "")
  {
    if IsExtension(ext) {
      SplitAtDot(stem, ext);
      var long := stem + ".tar";
      SplitAtDot(long, ext);
      assert long[|long| - 4..] == ".tar" && long[..|long| - 4] == stem;
    }
    if '.' !in stem {
      NoDot(stem);
      assert stem[..|stem|] == stem;
      assert ".tar"[0] == '.';
    }
  }

  lemma SplitAtDot(stem: string, ext: string)
    requires IsExtension(ext)
    ensures LastDot(stem + ext) == |stem| && (stem + ext)[|stem|..] == ext && (stem + ext)[..|stem|] == stem
  {
    var s := stem + ext;
    forall j | |stem| < j < |s| ensures s[j] != '.' {
      assert s[j] == ext[1..][j - |stem| - 1];
    }
    LastDotOf(s, |stem|);
  }

  function CopyTarget(kids: map<string, Entry>, base: string, stamp: string): string {
    var (stem, extension) := SplitName(base);
    CopyName(kids.Keys, stem, extension, stamp)
  }

  /** The destination is opened without truncating it and written from the start. */
  function Overwritten(kids: map<string, Entry>, target: string, size: FileSize): FileSize {
    if target in kids && kids[target].File? && kids[target].size > size then kids[target].size else size
  }

  function Copied(d: Disk, p: Path, stamp: string): (Disk, Option<FsError>) {
    match Find(d.root, p)
    case Missing => (d, Some(Ufs(NotExist)))
    case NotDirectory => (d, Some(Ufs(NotDir)))
    case Found(Dir(_, _)) => (d, Some(Ufs(NotExist)))
    case Found(Symlink(_)) => (d, Some(Ufs(Loop)))
    case Found(File(size, _)) =>
      if !Fits(d, size) then (d, Some(DiskSpace))
      else if p == [] || !IsDirAt(d.root, p[..|p| - 1]) then (d, Some(Ufs(NotDir)))
      else
        var dir := p[..|p| - 1];
        var kids := KidsAt(d.root, dir);
        var target := CopyTarget(kids, p[|p| - 1], stamp);
        if target in kids && kids[target].Dir? then (d, Some(Ufs(IsDir)))
        else if target in kids && kids[target].Symlink? then (d, Some(Ufs(Loop)))
        else if target in kids && kids[target].pinned then (d, Some(Ufs(NotPermitted)))
        else
          (d.(root := WithKids(d.root, dir, kids[target := File(Overwritten(kids, target, size), false)]),
              usage := Bumped(d.usage, size)), None)
  }

  /** The size of the file a copy lands on, 0 if the name is free. */
  function TargetSize(d: Disk, p: Path, stamp: string): FileSize
    requires p != [] && IsDirAt(d.root, p[..|p| - 1])
  {
    var kids := KidsAt(d.root, p[..|p| - 1]);
    var target := CopyTarget(kids, p[|p| - 1], stamp);
    if target in kids && kids[target].File? then kids[target].size else 0
  }

  lemma ParentIsDir(e: Entry, p: Path)
    requires p != [] && Find(e, p).Found?
    ensures IsDirAt(e, p[..|p| - 1]) && p[|p| - 1] in KidsAt(e, p[..|p| - 1])
    ensures KidsAt(e, p[..|p| - 1])[p[|p| - 1]] == Find(e, p).entry
  {
    assert p == p[..|p| - 1] + [p[|p| - 1]];
    FindBelow(e, p[..|p| - 1], p[|p| - 1]);
  }

  /** A copy can only land on an existing name when the 51 numbered names are all taken. */
  lemma CopyTargetTakenOnlyWhenAllAre(kids: map<string, Entry>, base: string, stamp: string)
    requires CopyTarget(kids, base, stamp) in kids
    ensures var (stem, extension) := SplitName(base);
            forall c :: c in Candidates(stem, extension) ==> c in kids
  {
    var (stem, extension) := SplitName(base);
    FirstFreeIsFree(kids.Keys, Candidates(stem, extension));
  }

  /** The `i`th name that is tried for a copy: "stem copy.ext", "stem copy 1.ext", ... */
  function NthCopy(stem: string, ext: string, i: nat): string {
    if i == 0 then stem + " copy" + ext else stem + " copy " + Decimal(i) + ext
  }

  lemma {:induction false} FirstFreeAt(taken: set<string>, candidates: seq<string>, k: nat)
    requires k <= |candidates| && forall i :: 0 <= i < k ==> candidates[i] in taken
    ensures k < |candidates| && candidates[k] !in taken ==> FirstFree(taken, candidates) == Some(candidates[k])
    ensures k == |candidates| ==> FirstFree(taken, candidates) == None
    decreases k
  {
    if k > 0 {
      FirstFreeAt(taken, candidates[1..], k - 1);
    }
  }

  /** The name of a copy: the first of the 51 numbered ones that is free, and if all are taken the one with the time
      stamp, which nothing is tried against. */
  lemma CopyIsNamed(kids: map<string, Entry>, base: string, stem: string, ext: string, stamp: string, k: nat)
    requires SplitName(base) == (stem, ext)
    requires k <= 51 && forall i :: 0 <= i < k ==> NthCopy(stem, ext, i) in kids
    ensures k < 51 && NthCopy(stem, ext, k) !in kids ==> CopyTarget(kids, base, stamp) == NthCopy(stem, ext, k)
    ensures k == 51 ==> CopyTarget(kids, base, stamp) == stem + "copy." + stamp + ext
  {
    var names := Candidates(stem, ext);
    forall i | 0 <= i < 51 ensures names[i] == NthCopy(stem, ext, i) {
      assert stem + (" copy " + Decimal(i)) + ext == stem + " copy " + Decimal(i) + ext;
    }
    FirstFreeAt(kids.Keys, names, k);
  }

  /** The tree and usage after a successful copy. */
  lemma CopiedTree(d: Disk, p: Path, stamp: string, dir: Path, kids: map<string, Entry>, target: string, size: FileSize)
    requires p != [] && dir == p[..|p| - 1]
    requires Find(d.root, p).Found? && Find(d.root, p).entry.File? && Find(d.root, p).entry.size == size
    requires IsDirAt(d.root, dir) && kids == KidsAt(d.root, dir) && target == CopyTarget(kids, p[|p| - 1], stamp)
    requires Copied(d, p, stamp).1 == None
    ensures var (d', _) := Copied(d, p, stamp);
            var old' := if target in kids then kids[target].size else 0;
            && (target in kids ==> kids[target].File?)
            && d' == d.(root := WithKids(d.root, dir, kids[target := File(Overwritten(kids, target, size), false)]),
                        usage := Bumped(d.usage, size))
            && Total(d'.root) == Total(d.root) - TargetSize(d, p, stamp) + Overwritten(kids, target, size)
  {
    var f := File(Overwritten(kids, target, size), false);
    TotalWithKids(d.root, dir, kids[target := f]);
    TotalPut(kids, false, target, f);
  }

  /** The copy is carried out: its source is a file that fits, and its name is free or that of a file that
      can be written to. */
  predicate CopyGoesThrough(d: Disk, p: Path, stamp: string) {
    && p != [] && Find(d.root, p).Found? && Find(d.root, p).entry.File? && Fits(d, Find(d.root, p).entry.size)
    && IsDirAt(d.root, p[..|p| - 1])
    && var kids := KidsAt(d.root, p[..|p| - 1]);
       var target := CopyTarget(kids, p[|p| - 1], stamp);
       target in kids ==> kids[target].File? && !kids[target].pinned
  }

  /** The copy writes some bytes over some that were there, or makes the bytes in use more than a 64-bit
      number. */
  predicate CopyDrifts(d: Disk, p: Path, stamp: string) {
    CopyGoesThrough(d, p, stamp)
    && ((SizeAt(d.root, p) > 0 && TargetSize(d, p, stamp) > 0) || d.usage + SizeAt(d.root, p) > MAX_INT64)
  }

  lemma CopiedUsage(d: Disk, p: Path, size: FileSize)
    requires Exact(d)
    ensures Bumped(d.usage, size) == if d.usage + size <= MAX_INT64 then d.usage + size else 0
  {
    if d.usage + size <= MAX_INT64 {
      WrapIsIdentity(d.usage + size);
    }
  }

  lemma TargetInTotal(d: Disk, p: Path, stamp: string)
    requires p != [] && IsDirAt(d.root, p[..|p| - 1])
    ensures TargetSize(d, p, stamp) <= Total(d.root)
  {
    var dir := p[..|p| - 1];
    var target := CopyTarget(KidsAt(d.root, dir), p[|p| - 1], stamp);
    FindBelow(d.root, dir, target);
    TotalCovers(d.root, dir + [target]);
  }

  lemma CopyGoesThroughExactly(d: Disk, p: Path, stamp: string)
    ensures Copied(d, p, stamp).1 == None <==> CopyGoesThrough(d, p, stamp)
    ensures Copied(d, p, stamp).1.Some? ==> Copied(d, p, stamp).0 == d
  {
  }

  /** Whatever is copied: exact usage stays exact if and only if the copy does not write a non-empty file
      over a non-empty file and the sum stays a 64-bit number; without overflow the usage is never too
      low. */
  lemma CopyKeepsExactExactly(d: Disk, p: Path, stamp: string)
    requires Exact(d)
    ensures var (d', err) := Copied(d, p, stamp);
            && (Exact(d') <==> !CopyDrifts(d, p, stamp))
            && (d.usage + SizeAt(d.root, p) <= MAX_INT64 ==> d'.usage >= Total(d'.root))
            && d'.limit == d.limit && (err.Some? <==> !CopyGoesThrough(d, p, stamp)) && (err.Some? ==> d' == d)
            && (!CopyDrifts(d, p, stamp) ==> d'.usage == if err.Some? then d.usage else d.usage + SizeAt(d.root, p))
            && (d.root.Dir? ==> d'.root.Dir?)
            && (Unpinned(d.root) ==> Unpinned(d'.root))
  {
    CopyGoesThroughExactly(d, p, stamp);
    if CopyGoesThrough(d, p, stamp) {
      var dir := p[..|p| - 1];
      var kids := KidsAt(d.root, dir);
      var target := CopyTarget(kids, p[|p| - 1], stamp);
      CopiedTree(d, p, stamp, dir, kids, target, SizeAt(d.root, p));
      CopiedUsage(d, p, SizeAt(d.root, p));
      TargetInTotal(d, p, stamp);
      if Unpinned(d.root) {
        UnpinnedBelow(d.root, dir);
        WithKidsUnpinned(d.root, dir, kids[target := File(Overwritten(kids, target, SizeAt(d.root, p)), false)]);
      }
    }
  }

  /** Where a copy that is carried out ends up: a file of the source's size, or of the old size if it was written
      over a longer one; every path that neither leads to it nor goes through it finds what it found before. */
  lemma CopyLands(d: Disk, p: Path, stamp: string, other: Path)
    requires CopyGoesThrough(d, p, stamp)
    ensures var dir := p[..|p| - 1];
            var target := CopyTarget(KidsAt(d.root, dir), p[|p| - 1], stamp);
            var size, was := SizeAt(d.root, p), TargetSize(d, p, stamp);
            var root := Copied(d, p, stamp).0.root;
            && Find(root, dir + [target]) == Found(File(if was > size then was else size, false))
            && (!(dir + [target] <= other) && !(other <= dir + [target]) ==> Find(root, other) == Find(d.root, other))
  {
    var dir := p[..|p| - 1];
    var kids := KidsAt(d.root, dir);
    var target := CopyTarget(kids, p[|p| - 1], stamp);
    var f := File(Overwritten(kids, target, SizeAt(d.root, p)), false);
    var kids' := kids[target := f];
    WithKidsFinds(d.root, dir, kids');
    FindBelow(WithKids(d.root, dir, kids'), dir, target);
    assert [target][1..] == [];
    if !(dir + [target] <= other) && !(other <= dir + [target]) {
      if dir <= other {
        assert kids' - {target} == kids - {target};
        SiblingUntouched(d.root, dir, target, kids', other);
      } else {
        assert dir <= dir + [target];
        WithKidsElsewhere(d.root, dir, kids', other);
      }
    }
  }

  /** Why a copy is refused: the source is missing or no regular file, it does not fit, or the name it would take is
      that of something that cannot be written to. */
  lemma CopyErrors(d: Disk, p: Path, stamp: string)
    ensures var err := Copied(d, p, stamp).1;
            match Find(d.root, p)
            case Missing => err == Some(Ufs(NotExist))
            case NotDirectory => err == Some(Ufs(NotDir))
            case Found(Dir(_, _)) => err == Some(Ufs(NotExist))
            case Found(Symlink(_)) => err == Some(Ufs(Loop))
            case Found(File(size, _)) =>
              && (err == Some(DiskSpace) <==> !HasRoom(d.usage, d.limit, size))
              && (HasRoom(d.usage, d.limit, size) && p != [] ==>
                    IsDirAt(d.root, p[..|p| - 1]) &&
                    var kids := KidsAt(d.root, p[..|p| - 1]);
                    var target := CopyTarget(kids, p[|p| - 1], stamp);
                    && (err == None <==> target !in kids || (kids[target].File? && !kids[target].pinned))
                    && (err == Some(Ufs(IsDir)) <==> target in kids && kids[target].Dir?)
                    && (err == Some(Ufs(Loop)) <==> target in kids && kids[target].Symlink?)
                    && (err == Some(Ufs(NotPermitted)) <==> target in kids && kids[target].File? && kids[target].pinned))
  {
    if p != [] && Find(d.root, p).Found? {
      ParentIsDir(d.root, p);
    }
  }

  lemma {:induction false} OneByteEach(d: Entry, names: set<string>)
    requires d.Dir? && names <= d.entries.Keys && forall n :: n in names ==> d.entries[n] == File(1, false)
    ensures TotalOf(d, names) == |names|
    decreases |names|
  {
    if names != {} {
      var n :| n in names;
      TotalSplit(d, names, n);
      OneByteEach(d, names - {n});
    }
  }

  lemma {:induction false} NoMoreThanListed(s: seq<string>)
    ensures |ToSet(s)| <= |s|
  {
    if s == [] {
      assert ToSet(s) == {};
    } else {
      NoMoreThanListed(s[1..]);
      assert s == [s[0]] + s[1..] && ToSet(s) == {s[0]} + ToSet(s[1..]);
    }
  }

  lemma FewBytes(names: set<string>, stamp: string)
    requires names == ToSet(Candidates("a", "")) + {"a", "a" + "copy." + stamp}
    ensures Total(Dir(map n | n in names :: File(1, false), false)) <= MAX_INT64
  {
    var d := Dir(map n | n in names :: File(1, false), false);
    OneByteEach(d, names);
    assert d.entries.Keys == names;
    NoMoreThanListed(Candidates("a", ""));
    assert |names| <= |ToSet(Candidates("a", ""))| + |{"a", "a" + "copy." + stamp}|;
  }

  /** With every numbered name taken, a second copy within the same second overwrites the first, and
      its size is added once more. */
  lemma SecondCopyInOneSecondDrifts(stamp: string)
    ensures var names := ToSet(Candidates("a", "")) + {"a", "a" + "copy." + stamp};
            var root := Dir(map n | n in names :: File(1, false), false);
            && Total(root) <= MAX_INT64
            && var (d', err) := Copied(Disk(root, Total(root), 0), ["a"], stamp);
               err == None && !Exact(d')
  {
    var names := ToSet(Candidates("a", "")) + {"a", "a" + "copy." + stamp};
    var kids := map n | n in names :: File(1, false);
    FewBytes(names, stamp);
    var d := Disk(Dir(kids, false), Total(Dir(kids, false)), 0);
    assert Find(d.root, ["a"]) == Found(File(1, false));
    assert LastDot("a") == -1 by { assert "a"[..0] == []; }
    assert SplitName("a") == ("a", "") by {
      assert "a"[..1] == "a";
      assert !HasSuffix("a", ".tar");
    }
    FirstFreeIsFree(kids.Keys, Candidates("a", ""));
    assert forall c :: c in Candidates("a", "") ==> c in ToSet(Candidates("a", ""));
    assert "a" + "copy." + stamp + "" == "a" + "copy." + stamp;
    assert CopyTarget(kids, "a", stamp) == "a" + "copy." + stamp;
    assert ["a"][..0] == [];
    CopyKeepsExactExactly(d, ["a"], stamp);
  }

  lemma {:induction false} WithKidsUnpinned(e: Entry, path: Path, kids: map<string, Entry>)
    requires IsDirAt(e, path) && Unpinned(e) && forall n :: n in kids ==> Unpinned(kids[n])
    ensures Unpinned(WithKids(e, path, kids))
  {
    if path != [] {
      WithKidsUnpinned(e.entries[path[0]], path[1..], kids);
    }
  }

  // ---------------------------------------------------------------------------
  // Delete, and runs of operations
  // ---------------------------------------------------------------------------

  /** What a deletion may subtract beyond the size of what is gone: nothing, unless bytes stay. */
  ghost predicate MayCharge(d: Disk, p: Path, over: nat) {
    if p != [] && Find(d.root, p).Found? then
      var kept := TotalSurviving(Find(d.root, p).entry);
      over >= kept && (kept == 0 ==> over == 0)
    else over == 0
  }

  /** Deleting what can be deleted, with `over` subtracted too much. */
  ghost function Deleted(d: Disk, p: Path, over: nat): Disk {
    if p != [] && Find(d.root, p).Found? then
      var e := Find(d.root, p).entry;
      SurvivingIsLess(e);
      d.(root := RemovedAt(d.root, p), usage := Reduced(d.usage, Total(e) - TotalSurviving(e) + over))
    else d
  }

  /** The deletion leaves a file with some bytes behind. */
  ghost predicate DeleteDrifts(d: Disk, p: Path) {
    p != [] && Find(d.root, p).Found? && !PinnedFilesEmpty(Find(d.root, p).entry)
  }

  /** Exact usage stays exact through a deletion if and only if no file with some bytes stays behind. */
  lemma DeleteKeepsExactExactly(d: Disk, p: Path, over: nat)
    requires Exact(d) && MayCharge(d, p, over)
    ensures var d' := Deleted(d, p, over);
            && (Exact(d') <==> !DeleteDrifts(d, p))
            && Total(d'.root) <= Total(d.root) && d'.limit == d.limit
    ensures p != [] && Find(d.root, p).Found? && Unpinned(Find(d.root, p).entry) ==> Find(Deleted(d, p, over).root, p) == Missing
  {
    if p != [] && Find(d.root, p).Found? {
      var e := Find(d.root, p).entry;
      SurvivingIsLess(e);
      RemovalIsExact(d.root, p, p);
      RemovalKeepsExactExactly(d.root, p, Deleted(d, p, over).usage, over);
    }
  }

  /** `over` stands for what a deletion subtracts too much. */
  datatype Op =
    | Write(p: Path, available: nat, newSize: int64)
    | Copy(p: Path, stamp: string)
    | Delete(p: Path, over: nat)

  ghost function Do(d: Disk, op: Op): Disk {
    match op
    case Write(p, available, newSize) => Written(d, p, available, newSize).0
    case Copy(p, stamp) => Copied(d, p, stamp).0
    case Delete(p, over) => Deleted(d, p, over)
  }

  ghost function DoAll(d: Disk, ops: seq<Op>): Disk
    decreases |ops|
  {
    if ops == [] then d else DoAll(Do(d, ops[0]), ops[1..])
  }

  /** Every deletion of the run subtracts what it may. */
  ghost predicate Possible(d: Disk, ops: seq<Op>)
    decreases |ops|
  {
    ops == [] || ((ops[0].Delete? ==> MayCharge(d, ops[0].p, ops[0].over)) && Possible(Do(d, ops[0]), ops[1..]))
  }

  /** A copy that writes a non-empty file over a non-empty file, a deletion that leaves a non-empty file
      behind, or an operation that makes the bytes in use more than a 64-bit number. */
  ghost predicate Drifts(d: Disk, op: Op) {
    match op
    case Write(p, available, newSize) =>
      WriteGoesThrough(d, p, newSize) && WithFileOf(d, p, Transferred(available, newSize)) > MAX_INT64
    case Copy(p, stamp) => CopyDrifts(d, p, stamp)
    case Delete(p, _) => DeleteDrifts(d, p)
  }

  /** No operation along the run drifts. */
  ghost predicate NeverDrifts(d: Disk, ops: seq<Op>)
    decreases |ops|
  {
    ops == [] || (!Drifts(d, ops[0]) && NeverDrifts(Do(d, ops[0]), ops[1..]))
  }

  lemma DoKeepsExactExactly(d: Disk, op: Op)
    requires Exact(d) && Possible(d, [op])
    ensures (Exact(Do(d, op)) <==> !Drifts(d, op)) && Do(d, op).limit == d.limit
  {
    match op
    case Write(p, available, newSize) => WriteKeepsExactExactly(d, p, available, newSize);
    case Copy(p, stamp) => CopyKeepsExactExactly(d, p, stamp);
    case Delete(p, over) => DeleteKeepsExactExactly(d, p, over);
  }

  /** While nothing in the tree is pinned no deletion drifts, and no operation pins anything. */
  lemma UnpinnedDeletesDoNotDrift(d: Disk, op: Op)
    requires Exact(d) && Unpinned(d.root)
    ensures Unpinned(Do(d, op).root) && (op.Delete? ==> !Drifts(d, op))
  {
    match op
    case Write(p, available, newSize) => WriteKeepsExactExactly(d, p, available, newSize);
    case Copy(p, stamp) => CopyKeepsExactExactly(d, p, stamp);
    case Delete(p, over) =>
      if p != [] && Find(d.root, p).Found? {
        var e := Find(d.root, p).entry;
        UnpinnedBelow(d.root, p);
        VanishesExactlyWhenUnpinned(e);
        NothingKeptExactly(e);
        ParentIsDir(d.root, p);
        UnpinnedBelow(d.root, p[..|p| - 1]);
        WithKidsUnpinned(d.root, p[..|p| - 1], KidsAt(d.root, p[..|p| - 1]) - {p[|p| - 1]});
      }
  }

  lemma PossibleStep(d: Disk, ops: seq<Op>)
    requires ops != [] && Possible(d, ops)
    ensures Possible(d, [ops[0]]) && Possible(Do(d, ops[0]), ops[1..])
  {
    assert [ops[0]][1..] == [];
  }

  /** The usage is exact at the start and after each operation. */
  ghost predicate AlwaysExact(d: Disk, ops: seq<Op>) {
    forall k :: 0 <= k <= |ops| ==> Exact(DoAll(d, ops[..k]))
  }

  /** The files are within the limit at the start and after each operation. */
  ghost predicate AlwaysWithin(d: Disk, ops: seq<Op>) {
    forall k :: 0 <= k <= |ops| ==> Total(DoAll(d, ops[..k]).root) <= d.limit
  }

  lemma PrefixAfter(d: Disk, ops: seq<Op>, k: nat)
    requires 0 < k <= |ops|
    ensures DoAll(d, ops[..k]) == DoAll(Do(d, ops[0]), ops[1..][..k - 1])
  {
    assert ops[..k][0] == ops[0] && ops[..k][1..] == ops[1..][..k - 1];
  }

  lemma AlwaysExactUnfolds(d: Disk, ops: seq<Op>)
    requires ops != []
    ensures AlwaysExact(d, ops) <==> Exact(d) && AlwaysExact(Do(d, ops[0]), ops[1..])
  {
    assert DoAll(d, ops[..0]) == d;
    forall k | 0 < k <= |ops| ensures DoAll(d, ops[..k]) == DoAll(Do(d, ops[0]), ops[1..][..k - 1]) {
      PrefixAfter(d, ops, k);
    }
    if AlwaysExact(d, ops) {
      forall k | 0 <= k <= |ops[1..]| ensures Exact(DoAll(Do(d, ops[0]), ops[1..][..k])) {
        assert Exact(DoAll(d, ops[..k + 1]));
      }
    }
  }

  lemma AlwaysWithinUnfolds(d: Disk, ops: seq<Op>)
    requires ops != [] && Do(d, ops[0]).limit == d.limit
    ensures AlwaysWithin(d, ops) <==> Total(d.root) <= d.limit && AlwaysWithin(Do(d, ops[0]), ops[1..])
  {
    assert DoAll(d, ops[..0]) == d;
    forall k | 0 < k <= |ops| ensures DoAll(d, ops[..k]) == DoAll(Do(d, ops[0]), ops[1..][..k - 1]) {
      PrefixAfter(d, ops, k);
    }
    if AlwaysWithin(d, ops) {
      forall k | 0 <= k <= |ops[1..]| ensures Total(DoAll(Do(d, ops[0]), ops[1..][..k]).root) <= d.limit {
        assert Total(DoAll(d, ops[..k + 1]).root) <= d.limit;
      }
    }
  }

  lemma AtTheStart(d: Disk, ops: seq<Op>)
    ensures AlwaysExact(d, ops) ==> Exact(d)
    ensures AlwaysWithin(d, ops) ==> Total(d.root) <= d.limit
    ensures ops == [] ==> (AlwaysExact(d, ops) <==> Exact(d)) && (AlwaysWithin(d, ops) <==> Total(d.root) <= d.limit)
  {
    assert DoAll(d, ops[..0]) == d;
  }

  /** Starting from exact usage, on any tree, the usage is the total size of the regular files after every
      operation of a run of writes, copies and deletes if and only if no copy along the run writes a
      non-empty file over a non-empty file, no deletion leaves a non-empty file behind, and the total stays
      a 64-bit number. */
  lemma {:induction false} RunKeepsExact(d: Disk, ops: seq<Op>)
    requires Exact(d) && Possible(d, ops)
    ensures AlwaysExact(d, ops) <==> NeverDrifts(d, ops)
    decreases |ops|
  {
    AtTheStart(d, ops);
    if ops != [] {
      PossibleStep(d, ops);
      AlwaysExactUnfolds(d, ops);
      DoKeepsExactExactly(d, ops[0]);
      AtTheStart(Do(d, ops[0]), ops[1..]);
      if !Drifts(d, ops[0]) {
        RunKeepsExact(Do(d, ops[0]), ops[1..]);
      }
    }
  }

  // ---------------------------------------------------------------------------
  // The limit
  // ---------------------------------------------------------------------------

  /** The operation is not carried out, or what it declares really fits: the size given with a write, the
      size of the source of a copy. */
  predicate DeclaredFits(d: Disk, op: Op) {
    match op
    case Write(p, _, newSize) => WriteGoesThrough(d, p, newSize) ==> d.usage - SizeAt(d.root, p) + newSize <= d.limit
    case Copy(p, stamp) => CopyGoesThrough(d, p, stamp) ==> d.usage + SizeAt(d.root, p) <= d.limit
    case Delete(_, _) => true
  }

  ghost predicate AllDeclaredFit(d: Disk, ops: seq<Op>)
    decreases |ops|
  {
    ops == [] || (DeclaredFits(d, ops[0]) && AllDeclaredFit(Do(d, ops[0]), ops[1..]))
  }

  /** A copy that writes a non-empty file over a non-empty file, or a deletion that leaves a non-empty file
      behind: what makes the usage wrong without any overflow. */
  ghost predicate Collides(d: Disk, op: Op) {
    match op
    case Write(_, _, _) => false
    case Copy(p, stamp) => CopyGoesThrough(d, p, stamp) && SizeAt(d.root, p) > 0 && TargetSize(d, p, stamp) > 0
    case Delete(p, _) => DeleteDrifts(d, p)
  }

  ghost predicate NeverCollides(d: Disk, ops: seq<Op>)
    decreases |ops|
  {
    ops == [] || (!Collides(d, ops[0]) && NeverCollides(Do(d, ops[0]), ops[1..]))
  }

  /** Within the limit, an operation that fits and does not collide does not drift either. */
  lemma DeclaredThenWithin(d: Disk, op: Op)
    requires Exact(d) && d.usage <= d.limit && Possible(d, [op]) && !Collides(d, op) && DeclaredFits(d, op)
    ensures !Drifts(d, op) && Exact(Do(d, op)) && Do(d, op).limit == d.limit && Total(Do(d, op).root) <= d.limit
  {
    DoKeepsExactExactly(d, op);
    match op
    case Write(p, available, newSize) => WriteStaysWithinExactly(d, p, newSize);
    case Copy(p, stamp) => CopyKeepsExactExactly(d, p, stamp);
    case Delete(p, over) => DeleteKeepsExactExactly(d, p, over);
  }

  /** If everything carried out along a run fits by what it declares and nothing collides, the files are
      within the limit after every operation and the usage is exact, whether the readers are shorter or
      longer than declared. */
  lemma {:induction false} RunStaysWithin(d: Disk, ops: seq<Op>)
    requires Exact(d) && d.usage <= d.limit && Possible(d, ops) && NeverCollides(d, ops) && AllDeclaredFit(d, ops)
    ensures AlwaysExact(d, ops) && AlwaysWithin(d, ops)
    decreases |ops|
  {
    AtTheStart(d, ops);
    if ops != [] {
      PossibleStep(d, ops);
      DeclaredThenWithin(d, ops[0]);
      AlwaysExactUnfolds(d, ops);
      AlwaysWithinUnfolds(d, ops);
      RunStaysWithin(Do(d, ops[0]), ops[1..]);
    }
  }

  /** The same request, whatever its reader holds or its deletion subtracts. */
  predicate SameRequest(a: Op, b: Op) {
    match a
    case Write(p, _, newSize) => b.Write? && b.p == p && b.newSize == newSize
    case Copy(p, stamp) => b == a
    case Delete(p, _) => b.Delete? && b.p == p
  }

  predicate SameRequests(ops: seq<Op>, others: seq<Op>) {
    |ops| == |others| && forall i :: 0 <= i < |ops| ==> SameRequest(ops[i], others[i])
  }

  /** `run` is a run of the requests of `ops`. */
  ghost predicate IsRun(d: Disk, ops: seq<Op>, run: seq<Op>) {
    SameRequests(ops, run) && Possible(d, run)
  }

  ghost predicate NoRunCollides(d: Disk, ops: seq<Op>) {
    forall run :: IsRun(d, ops, run) ==> NeverCollides(d, run)
  }

  /** The requests can be carried out from anywhere. */
  lemma {:induction false} SomeRun(d: Disk, ops: seq<Op>) returns (run: seq<Op>)
    ensures IsRun(d, ops, run)
    decreases |ops|
  {
    if ops == [] {
      run := [];
    } else {
      var op := ops[0];
      if op.Delete? {
        op := Delete(op.p, if op.p != [] && Find(d.root, op.p).Found? then TotalSurviving(Find(d.root, op.p).entry) else 0);
      }
      var rest := SomeRun(Do(d, op), ops[1..]);
      run := RunOf(d, ops, op, rest);
    }
  }

  lemma RunOf(d: Disk, ops: seq<Op>, op: Op, rest: seq<Op>) returns (run: seq<Op>)
    requires ops != [] && SameRequest(ops[0], op) && (op.Delete? ==> MayCharge(d, op.p, op.over))
    requires IsRun(Do(d, op), ops[1..], rest)
    ensures run == [op] + rest && IsRun(d, ops, run) && run[0] == op && run[1..] == rest
  {
    run := [op] + rest;
    forall i | 0 <= i < |ops| ensures SameRequest(ops[i], run[i]) {
      if i > 0 {
        assert ops[i] == ops[1..][i - 1] && run[i] == rest[i - 1];
      }
    }
    assert run[1..] == rest;
  }

  lemma CopyThatDoesNotFit(d: Disk, p: Path, stamp: string)
    requires Exact(d) && d.usage <= d.limit && !DeclaredFits(d, Copy(p, stamp)) && !Collides(d, Copy(p, stamp))
    ensures Total(Copied(d, p, stamp).0.root) > d.limit
  {
    var dir := p[..|p| - 1];
    var kids := KidsAt(d.root, dir);
    CopyGoesThroughExactly(d, p, stamp);
    CopiedTree(d, p, stamp, dir, kids, CopyTarget(kids, p[|p| - 1], stamp), SizeAt(d.root, p));
  }

  /** An operation that does not fit exceeds the limit when its reader holds all that was declared. */
  lemma Exceeds(d: Disk, op: Op) returns (full: Op)
    requires Exact(d) && d.usage <= d.limit && !DeclaredFits(d, op) && !Collides(d, op)
    ensures SameRequest(op, full) && !full.Delete? && Total(Do(d, full).root) > d.limit
  {
    match op
    case Write(p, _, newSize) =>
      TotalCovers(d.root, p);
      full := Write(p, newSize, newSize);
      WriteKeepsExactExactly(d, p, newSize, newSize);
    case Copy(p, stamp) =>
      full := op;
      CopyThatDoesNotFit(d, p, stamp);
  }

  /** From a run with an operation that does not fit, one with the same requests that exceeds the limit. */
  lemma {:induction false} Exceeding(d: Disk, ops: seq<Op>) returns (run: seq<Op>)
    requires Exact(d) && d.usage <= d.limit && Possible(d, ops) && NoRunCollides(d, ops) && !AllDeclaredFit(d, ops)
    ensures IsRun(d, ops, run) && !AlwaysWithin(d, run)
    decreases |ops|
  {
    var op, rest := ops[0], [];
    PossibleStep(d, ops);
    assert IsRun(d, ops, ops) && NeverCollides(d, ops);
    if DeclaredFits(d, op) {
      DeclaredThenWithin(d, op);
      LaterRunsDoNotCollide(d, ops);
      rest := Exceeding(Do(d, op), ops[1..]);
    } else {
      op := Exceeds(d, op);
      rest := SomeRun(Do(d, op), ops[1..]);
    }
    run := RunOf(d, ops, op, rest);
    DoKeepsLimit(d, op);
    AlwaysWithinUnfolds(d, run);
    AtTheStart(Do(d, op), rest);
  }

  lemma DoKeepsLimit(d: Disk, op: Op)
    ensures Do(d, op).limit == d.limit
  {
  }

  lemma LaterRunsDoNotCollide(d: Disk, ops: seq<Op>)
    requires ops != [] && Possible(d, ops) && NoRunCollides(d, ops)
    ensures NoRunCollides(Do(d, ops[0]), ops[1..])
  {
    forall rest | IsRun(Do(d, ops[0]), ops[1..], rest) ensures NeverCollides(Do(d, ops[0]), rest) {
      var run := RunOf(d, ops, ops[0], rest);
      assert NeverCollides(d, run);
    }
  }

  /** For given requests none of whose runs collides: all their runs, whatever the readers hold, stay within
      the limit throughout if and only if along all of them everything carried out fits by what it
      declares. */
  lemma RunsStayWithinExactly(d: Disk, ops: seq<Op>)
    requires Exact(d) && d.usage <= d.limit && NoRunCollides(d, ops)
    ensures (forall run :: IsRun(d, ops, run) ==> AlwaysWithin(d, run))
            <==> forall run :: IsRun(d, ops, run) ==> AllDeclaredFit(d, run)
  {
    forall run | IsRun(d, ops, run) && AllDeclaredFit(d, run) ensures AlwaysWithin(d, run) {
      RunStaysWithin(d, run);
    }
    forall run | IsRun(d, ops, run) && !AllDeclaredFit(d, run)
      ensures exists over :: IsRun(d, ops, over) && !AlwaysWithin(d, over)
    {
      SameRuns(d, ops, run);
      var over := Exceeding(d, run);
      SameRuns(d, ops, run);
      assert IsRun(d, ops, over);
    }
  }

  lemma SameRuns(d: Disk, ops: seq<Op>, run: seq<Op>)
    requires SameRequests(ops, run)
    ensures forall other :: IsRun(d, run, other) <==> IsRun(d, ops, other)
  {
    forall other ensures SameRequests(run, other) <==> SameRequests(ops, other) {
      if SameRequests(run, other) {
        assert forall i :: 0 <= i < |ops| ==> SameRequest(ops[i], run[i]) && SameRequest(run[i], other[i]);
      }
      if SameRequests(ops, other) {
        assert forall i :: 0 <= i < |ops| ==> SameRequest(ops[i], run[i]) && SameRequest(ops[i], other[i]);
      }
    }
  }

  /** With what it declares, the operation would make the bytes in use more than a 64-bit number; nothing but
      the size check stands against it. */
  predicate Overflows(d: Disk, op: Op) {
    match op
    case Write(p, _, newSize) =>
      CanPlace(d.root, p) && !PinnedAt(d.root, p) && d.usage - SizeAt(d.root, p) + newSize > MAX_INT64
    case Copy(p, stamp) => CopyGoesThrough(d.(limit := 0), p, stamp) && d.usage + SizeAt(d.root, p) > MAX_INT64
    case Delete(_, _) => false
  }

  /** Under a positive limit the check fails to keep out what does not fit exactly when the bytes in use would
      overflow: the wrapped sum is negative, and passes. */
  lemma FitsExactlyUnlessItOverflows(d: Disk, op: Op)
    requires Exact(d) && 0 < d.limit && d.usage <= d.limit
    ensures DeclaredFits(d, op) <==> !Overflows(d, op)
  {
    match op
    case Write(p, _, newSize) =>
      TotalCovers(d.root, p);
      WriteFitsExactly(d, p, newSize);
    case Copy(p, stamp) =>
      if d.usage + SizeAt(d.root, p) <= MAX_INT64 {
        WrapIsIdentity(d.usage + SizeAt(d.root, p));
      } else {
        WrapsOnce(d.usage + SizeAt(d.root, p));
      }
    case Delete(_, _) =>
  }

  lemma WriteFitsExactly(d: Disk, p: Path, newSize: int64)
    requires Exact(d) && 0 < d.limit && d.usage <= d.limit && SizeAt(d.root, p) <= d.usage
    ensures (WriteGoesThrough(d, p, newSize) ==> d.usage - SizeAt(d.root, p) + newSize <= d.limit)
            <==> !(CanPlace(d.root, p) && !PinnedAt(d.root, p) && d.usage - SizeAt(d.root, p) + newSize > MAX_INT64)
  {
    if newSize >= 0 {
      assert InInt64(newSize);
      var more := newSize - SizeAt(d.root, p);
      WrapIsIdentity(more);
      if d.usage + more <= MAX_INT64 {
        WrapIsIdentity(d.usage + more);
      } else {
        WrapsOnce(d.usage + more);
      }
    }
  }

  /** No operation along the run overflows. */
  ghost predicate NeverOverflows(d: Disk, ops: seq<Op>)
    decreases |ops|
  {
    ops == [] || (!Overflows(d, ops[0]) && NeverOverflows(Do(d, ops[0]), ops[1..]))
  }

  /** Under a positive limit, as long as nothing collides, everything along a run fits exactly if nothing
      overflows; then the run stays within the limit and exact. */
  lemma {:induction false} FittingRunsExactly(d: Disk, ops: seq<Op>)
    requires Exact(d) && 0 < d.limit && d.usage <= d.limit && Possible(d, ops) && NeverCollides(d, ops)
    ensures AllDeclaredFit(d, ops) <==> NeverOverflows(d, ops)
    ensures NeverOverflows(d, ops) ==> AlwaysExact(d, ops) && AlwaysWithin(d, ops)
    decreases |ops|
  {
    if ops != [] {
      FitsExactlyUnlessItOverflows(d, ops[0]);
      PossibleStep(d, ops);
      if DeclaredFits(d, ops[0]) {
        DeclaredThenWithin(d, ops[0]);
        FittingRunsExactly(Do(d, ops[0]), ops[1..]);
      }
    }
    if AllDeclaredFit(d, ops) {
      RunStaysWithin(d, ops);
    }
  }

  /** For given requests under a positive limit none of whose runs collides: all their runs, whatever the
      readers hold, stay within the limit throughout if and only if nothing along any of them overflows. */
  lemma LimitHoldsExactlyWithoutOverflow(d: Disk, ops: seq<Op>)
    requires Exact(d) && 0 < d.limit && d.usage <= d.limit && NoRunCollides(d, ops)
    ensures (forall run :: IsRun(d, ops, run) ==> AlwaysWithin(d, run))
            <==> forall run :: IsRun(d, ops, run) ==> NeverOverflows(d, run)
  {
    RunsStayWithinExactly(d, ops);
    forall run | IsRun(d, ops, run) ensures AllDeclaredFit(d, run) <==> NeverOverflows(d, run) {
      FittingRunsExactly(d, run);
    }
  }

  /** The sums of the size check stay in 64 bits. */
  predicate SumsFit(d: Disk, op: Op) {
    match op
    case Write(p, _, newSize) =>
      InInt64(newSize - SizeAt(d.root, p)) && InInt64(d.usage + newSize - SizeAt(d.root, p))
    case Copy(p, _) => InInt64(d.usage + SizeAt(d.root, p))
    case Delete(_, _) => true
  }

  /** Under a positive limit, what the check admits fits while its sums do not wrap. */
  lemma SumsThatFitAreSound(d: Disk, op: Op)
    requires Exact(d) && 0 < d.limit && SumsFit(d, op)
    ensures DeclaredFits(d, op) && !Overflows(d, op)
  {
    match op
    case Write(p, available, newSize) => CheckIsExactUnlessItWraps(d, p, newSize);
    case Copy(p, stamp) => WrapIsIdentity(d.usage + SizeAt(d.root, p));
    case Delete(_, _) =>
  }

  /** So it is with the wrapped write above: nothing collides, and the limit is exceeded. */
  lemma WrappedRunExceeds()
    ensures var d := Disk(Dir(map["a" := File(1, false)], false), 1, 10);
            var ops := [Write(["b"], 100, 0x7FFF_FFFF_FFFF_FFFF)];
            Exact(d) && IsRun(d, ops, ops) && NoRunCollides(d, ops) && !NeverOverflows(d, ops) && !AlwaysWithin(d, ops)
  {
    var d := Disk(Dir(map["a" := File(1, false)], false), 1, 10);
    var op := Write(["b"], 100, 0x7FFF_FFFF_FFFF_FFFF);
    WrappedCheckAdmits();
    assert Find(d.root, ["b"]) == Missing;
    WriteKeepsExactExactly(d, ["b"], 100, 0x7FFF_FFFF_FFFF_FFFF);
    assert [op][1..] == [];
    AlwaysWithinUnfolds(d, [op]);
    AtTheStart(Do(d, op), []);
    forall run | IsRun(d, [op], run) ensures NeverCollides(d, run) {
      assert SameRequest([op][0], run[0]) && run[1..] == [];
    }
  }

  // ---------------------------------------------------------------------------
  // The mutable file system
  // ---------------------------------------------------------------------------

  class Filesystem {
    const unixFS: Quota

    constructor (unixFS: Quota)
      ensures this.unixFS == unixFS
    {
      this.unixFS := unixFS;
    }

    ghost function State(): Disk
      reads unixFS
    {
      Disk(unixFS.root, unixFS.usage, unixFS.limit)
    }

    method Write(p: Path, available: nat, newSize: int64) returns (err: Option<FsError>)
      modifies unixFS`root, unixFS`usage
      ensures (State(), err) == Written(old(State()), p, available, newSize)
    {
      var currentSize := 0;
      var st := Find(unixFS.root, p);
      match st {
        case NotDirectory => return Some(Ufs(NotDir));
        case Missing =>
        case Found(Dir(_, _)) => return Some(IsDirectory);
        case Found(Symlink(_)) => return Some(Ufs(Loop));
        case Found(File(size, _)) => currentSize := size;
      }
      var ok := unixFS.CanFit(Wrap64(newSize - currentSize));
      if !ok {
        return Some(DiskSpace);
      }
      err := Fill(p, available, newSize, currentSize);
    }

    /** Truncates the file, fills it from the reader and counts the change. */
    method Fill(p: Path, available: nat, newSize: int64, currentSize: FileSize) returns (err: Option<FsError>)
      requires Find(unixFS.root, p).Missing? || (Find(unixFS.root, p).Found? && Find(unixFS.root, p).entry.File?)
      modifies unixFS`root, unixFS`usage
      ensures var n := Transferred(available, newSize);
              if PinnedAt(old(unixFS.root), p) then err == Some(Ufs(NotPermitted)) && State() == old(State())
              else if p == [] || !old(unixFS.root).Dir? then err == Some(Ufs(NotDir)) && State() == old(State())
              else
                && err == None && unixFS.root == PutFile(old(unixFS.root), p, File(n, false))
                && unixFS.usage == Bumped(old(unixFS.usage), n - currentSize)
    {
      err := Touch(p);
      if err != None {
        return err;
      }
      if newSize == 0 {
        var _ := unixFS.Add(0 - currentSize);
      } else {
        var n := Transferred(available, newSize);
        unixFS.root := PutFile(unixFS.root, p, File(n, false));
        var _ := unixFS.Add(n - currentSize);
      }
    }

    method Writefile(p: Path, available: FileSize) returns (err: Option<FsError>)
      modifies unixFS`root, unixFS`usage
      ensures (State(), err) == Rewritten(old(State()), p, available)
    {
      var currentSize := 0;
      var st := Find(unixFS.root, p);
      match st {
        case NotDirectory => return Some(Ufs(NotDir));
        case Missing =>
        case Found(Dir(_, _)) => return Some(IsDirectory);
        case Found(Symlink(_)) => return Some(Ufs(Loop));
        case Found(File(size, _)) => currentSize := size;
      }
      err := Touch(p);
      if err != None {
        return err;
      }
      unixFS.root := PutFile(unixFS.root, p, File(available, false));
      var _ := unixFS.Add(available - currentSize);
    }

    /** Creates or truncates the file at `p`. */
    method Touch(p: Path) returns (err: Option<FsError>)
      requires Find(unixFS.root, p).Missing? || (Find(unixFS.root, p).Found? && Find(unixFS.root, p).entry.File?)
      modifies unixFS`root
      ensures if PinnedAt(old(unixFS.root), p) then err == Some(Ufs(NotPermitted)) && unixFS.root == old(unixFS.root)
              else if p == [] || !old(unixFS.root).Dir? then err == Some(Ufs(NotDir)) && unixFS.root == old(unixFS.root)
              else
                && err == None && unixFS.root == PutFile(old(unixFS.root), p, File(0, false))
                && CanPlace(unixFS.root, p)
                && forall f :: PutFile(unixFS.root, p, f) == PutFile(old(unixFS.root), p, f)
    {
      if PinnedAt(unixFS.root, p) {
        return Some(Ufs(NotPermitted));
      }
      if p == [] || !unixFS.root.Dir? {
        return Some(Ufs(NotDir));
      }
      ghost var before := unixFS.root;
      unixFS.root := PutFile(unixFS.root, p, File(0, false));
      PutFileIsExact(before, p, File(0, false));
      forall f ensures PutFile(unixFS.root, p, f) == PutFile(before, p, f) {
        PutFileTwice(before, p, File(0, false), f);
      }
      return None;
    }

    /** Tries "stem copy", "stem copy 1", ... and falls back to a time stamp after 51 taken names. */
    method FindCopySuffix(dir: Path, name: string, extension: string, stamp: string) returns (r: string)
      requires IsDirAt(unixFS.root, dir)
      ensures r == CopyName(KidsAt(unixFS.root, dir).Keys, name, extension, stamp)
    {
      var kids := KidsAt(unixFS.root, dir);
      ghost var all := Candidates(name, extension);
      var i, suffix := 0, " copy";
      while i < COPY_TRIES
        invariant 0 <= i <= COPY_TRIES
        invariant FirstFree(kids.Keys, all) == FirstFree(kids.Keys, all[i..])
        invariant i == COPY_TRIES ==> suffix == "copy." + stamp
      {
        suffix := CopySuffix(i);
        var n := name + suffix + extension;
        assert n == all[i] == all[i..][0];
        if n !in kids {
          break;
        }
        if i == 50 {
          suffix := "copy." + stamp;
        }
        i := i + 1;
      }
      return name + suffix + extension;
    }

    method Copy(p: Path, stamp: string) returns (err: Option<FsError>)
      modifies unixFS`root, unixFS`usage
      ensures (State(), err) == Copied(old(State()), p, stamp)
    {
      var st := Find(unixFS.root, p);
      match st {
        case Missing => return Some(Ufs(NotExist));
        case NotDirectory => return Some(Ufs(NotDir));
        case Found(Dir(_, _)) => return Some(Ufs(NotExist));
        case Found(Symlink(_)) => return Some(Ufs(Loop));
        case Found(File(currentSize, _)) =>
          var ok := unixFS.CanFit(currentSize);
          if !ok {
            return Some(DiskSpace);
          }
          if p == [] || !IsDirAt(unixFS.root, p[..|p| - 1]) {
            return Some(Ufs(NotDir));
          }
          var dir, base := p[..|p| - 1], p[|p| - 1];
          var (baseName, extension) := SplitName(base);
          var newName := FindCopySuffix(dir, baseName, extension, stamp);
          var kids := KidsAt(unixFS.root, dir);
          if newName in kids {
            if kids[newName].Dir? {
              return Some(Ufs(IsDir));
            }
            if kids[newName].Symlink? {
              return Some(Ufs(Loop));
            }
            if kids[newName].pinned {
              return Some(Ufs(NotPermitted));
            }
          }
          var f := File(Overwritten(kids, newName, currentSize), false);
          unixFS.root := WithKids(unixFS.root, dir, kids[newName := f]);
          var _ := unixFS.Add(currentSize);
          return None;
      }
    }

    /** Deletes what can be deleted; the size of files that stay is subtracted as `over` says. */
    method Delete(p: Path) returns (err: Option<Errno>, ghost over: nat)
      modifies unixFS`root, unixFS`usage
      ensures old(unixFS.usage) >= 0 ==> MayCharge(old(State()), p, over) && State() == Deleted(old(State()), p, over)
      ensures err == if p == [] then Some(BadPathResolution) else
                match Find(old(unixFS.root), p)
                case Missing => None
                case NotDirectory => Some(NotDir)
                case Found(e) => if Survives(e) == None then None else Some(if e.Dir? then IsDir else NotPermitted)
      ensures p != [] && Find(old(unixFS.root), p).Found? ==> unixFS.root == RemovedAt(old(unixFS.root), p)
      ensures !(p != [] && Find(old(unixFS.root), p).Found?) ==> State() == old(State())
    {
      err, over := unixFS.RemoveAll(p);
      if p == [] || !Find(old(unixFS.root), p).Found? {
        over := 0;
      }
    }
  }

  lemma {:induction false} PutFileTwice(e: Entry, path: Path, f: Entry, g: Entry)
    requires CanPlace(e, path) && f.File?
    ensures CanPlace(PutFile(e, path, f), path)
    ensures PutFile(PutFile(e, path, f), path, g) == PutFile(e, path, g)
    decreases |path|
  {
    PutFileIsExact(e, path, f);
    if |path| == 1 {
      assert e.entries[path[0] := f][path[0] := g] == e.entries[path[0] := g];
    } else {
      var sub := if path[0] in e.entries then e.entries[path[0]] else Dir(map[], false);
      assert Find(sub, path[1..]) == (if path[0] in e.entries then Find(e, path) else Missing);
      PutFileTwice(sub, path[1..], f, g);
      var once := PutFile(sub, path[1..], f);
      assert e.entries[path[0] := once][path[0] := PutFile(once, path[1..], g)] == e.entries[path[0] := PutFile(sub, path[1..], g)];
    }
  }
}
