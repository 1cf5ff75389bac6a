/**
 The quota file system of the daemon: usage accounting (daemon/internal/ufs/fs_quota.go) and the
 recursive removal that runs in batches of directory names (daemon/internal/ufs/removeall_unix.go).
 */
module QuotaFs {
  import opened Wrappers
  import opened Sequences
  import opened Integers
  import opened FsTree
  import opened Sweep

  datatype Errno = BadPathResolution | NotExist | NotDir | IsDir | NotPermitted | NotEmpty | Loop

  /** How many names one directory read asks for. */
  const REQ_SIZE := 1024

  /** A usage of `u` changed by `i`: 0 if the 64-bit sum is negative, as it is after an overflow. */
  function Bumped(u: int, i: int): int64 {
    if Wrap64(u + i) < 0 then 0 else Wrap64(u + i)
  }

  /** A usage of `u` reduced by `k`, but not below zero. */
  function Reduced(u: int, k: int): int {
    if u - k < 0 then 0 else u - k
  }

  /** A known usage went from `u` to `u'` by subtractions of `k` in all. */
  ghost predicate Charged(u: int, u': int, k: int) {
    k >= 0 && (0 <= u <= MAX_INT64 ==> u' == Reduced(u, k))
  }

  lemma ChargedTwice(u: int, u': int, u'': int, a: int, b: int)
    requires Charged(u, u', a) && Charged(u', u'', b)
    ensures Charged(u, u'', a + b)
  {
  }

  /** Two charges in a row, while the total went from `t` by way of `t'` to `t''`. */
  lemma ChargedOn(u: int, u': int, u'': int, t: int, t': int, t'': int, over: int, more: int)
    requires Charged(u, u', t - t' + over) && Charged(u', u'', t' - t'' + more)
    ensures Charged(u, u'', t - t'' + (over + more))
  {
    ChargedTwice(u, u', u'', t - t' + over, t' - t'' + more);
  }

  /** What a removal of `e` charges: what is gone and `over`, at least the size of what stays. */
  ghost predicate Accounted(e: Entry, u: int, u': int, over: nat) {
    && Charged(u, u', Total(e) - TotalSurviving(e) + over)
    && over >= TotalSurviving(e) && (TotalSurviving(e) == 0 ==> over == 0)
  }

  ghost function TotalOfKids(kids: map<string, Entry>): nat {
    Total(Dir(kids, false))
  }

  /** The summed size of the entries of `kids` that are among `names`. */
  ghost function Share(kids: map<string, Entry>, names: set<string>): nat {
    TotalOf(Dir(kids, false), names * kids.Keys)
  }

  /** Whether `size` more bytes are admitted: never, always, or if the 64-bit sum is within the limit. */
  predicate HasRoom(usage: int, limit: int, size: int) {
    limit != -1 && (limit == 0 || usage == -1 || Wrap64(usage + size) <= limit)
  }

  class Quota {
    var root: Entry
    /** Bytes in use as far as is known; -1 before the first calculation. */
    var usage: int64
    /** -1 denies every write, 0 allows everything. */
    var limit: int64

    constructor (root: Entry, limit: int64)
      ensures this.root == root && this.limit == limit && usage == 0
    {
      this.root, this.limit, usage := root, limit, 0;
    }

    method Add(i: int64) returns (r: int64)
      modifies this`usage
      ensures r == usage == Bumped(old(usage), i)
    {
      var current := usage;
      if Wrap64(current + i) < 0 {
        usage := 0;
        return 0;
      }
      usage := Wrap64(usage + i);
      return usage;
    }

    method CanFit(size: int64) returns (ok: bool)
      ensures ok <==> HasRoom(usage, limit, size)
    {
      if limit == -1 {
        return false;
      }
      if limit == 0 {
        return true;
      }
      var current := usage;
      if current == -1 {
        return true;
      }
      return Wrap64(current + size) <= limit;
    }

    /** The kernel's unlinkat on a name in an open directory. */
    method RawUnlinkAt(dir: Path, name: string, removeDir: bool) returns (err: Option<Errno>)
      requires IsDirAt(root, dir)
      modifies this`root
      ensures var kids := KidsAt(old(root), dir);
              if name in kids && !kids[name].pinned && kids[name].Dir? == removeDir && (removeDir ==> kids[name].entries == map[])
              then err == None && root == WithKids(old(root), dir, kids - {name})
              else
                && root == old(root)
                && err == Some(if name !in kids then NotExist
                               else if removeDir && !kids[name].Dir? then NotDir
                               else if !removeDir && kids[name].Dir? then IsDir
                               else if removeDir && kids[name].entries != map[] then NotEmpty
                               else NotPermitted)
    {
      var kids := KidsAt(root, dir);
      if name !in kids {
        return Some(NotExist);
      }
      var e := kids[name];
      if removeDir != e.Dir? {
        return Some(if removeDir then NotDir else IsDir);
      }
      if removeDir && e.entries != map[] {
        return Some(NotEmpty);
      }
      if e.pinned {
        return Some(NotPermitted);
      }
      root := WithKids(root, dir, kids - {name});
      return None;
    }

    /** The quota's unlinkat subtracts the size of a regular file before it tries to unlink it. */
    method UnlinkAt(dir: Path, name: string, removeDir: bool) returns (err: Option<Errno>)
      requires IsDirAt(root, dir)
      modifies this`root, this`usage
      ensures var kids := KidsAt(old(root), dir);
              && usage == (if !removeDir && name in kids && kids[name].File? then Bumped(old(usage), 0 - kids[name].size) else old(usage))
              && if name in kids && !kids[name].pinned && kids[name].Dir? == removeDir && (removeDir ==> kids[name].entries == map[])
                 then err == None && root == WithKids(old(root), dir, kids - {name})
                 else
                   && root == old(root)
                   && err == Some(if name !in kids then NotExist
                                  else if removeDir && !kids[name].Dir? then NotDir
                                  else if !removeDir && kids[name].Dir? then IsDir
                                  else if removeDir && kids[name].entries != map[] then NotEmpty
                                  else NotPermitted)
    {
      if !removeDir {
        var kids := KidsAt(root, dir);
        if name in kids && kids[name].File? {
          var size: int := kids[name].size;
          var _ := Add(-size);
        }
      }
      err := RawUnlinkAt(dir, name, removeDir);
    }

    /** The names of an open directory, in whatever order the kernel lists them. */
    method ListNames(dir: Path) returns (names: seq<string>)
      requires IsDirAt(root, dir)
      ensures ToSet(names) == KidsAt(root, dir).Keys && Distinct(names)
    {
      names := [];
      var todo := KidsAt(root, dir).Keys;
      while todo != {}
        invariant ToSet(names) !! todo && ToSet(names) + todo == KidsAt(root, dir).Keys && Distinct(names)
      {
        var n :| n in todo;
        names := names + [n];
        todo := todo - {n};
      }
    }

    // -------------------------------------------------------------------------
    // Recursive removal
    // -------------------------------------------------------------------------

    /**
     Removes what can be removed of `name` in `dir`: what survives is exactly `Survives`. The usage
     goes down by the size of the files removed, plus `over`, which counts every failed attempt on a
     file that stays: nothing if those files are all empty, and at least their size otherwise.
     */
    method RemoveAllFrom(dir: Path, name: string, ghost bound: Entry) returns (err: Option<Errno>, ghost over: nat)
      requires IsDirAt(root, dir)
      requires name in KidsAt(root, dir) ==> PrunedFrom(KidsAt(root, dir)[name], bound)
      modifies this`root, this`usage
      ensures var kids := KidsAt(old(root), dir);
              if name !in kids then err == None && root == old(root) && usage == old(usage) && over == 0
              else
                && root == RemovedIn(old(root), dir, name)
                && err == (if Survives(kids[name]) == None then None else Some(if kids[name].Dir? then IsDir else NotPermitted))
                && Charged(old(usage), usage, Total(kids[name]) - TotalSurviving(kids[name]) + over)
                && over >= TotalSurviving(kids[name])
                && (TotalSurviving(kids[name]) == 0 ==> over == 0)
      decreases bound, 3
    {
      ghost var kids := KidsAt(root, dir);
      over := 0;
      err := UnlinkAt(dir, name, false);
      if err == None || err == Some(NotExist) {
        return None, 0;
      }
      if err == Some(IsDir) {
        over := RemoveContentsFrom(dir, name, bound);
        ghost var mid := kids[name := Dir(Survivors(kids[name].entries), kids[name].pinned)];
        WithKidsFinds(old(root), dir, mid);
        SurvivesDir(kids[name]);
        SameTotal(Survivors(kids[name].entries), kids[name].pinned, false);
        var unlinkErr := UnlinkAt(dir, name, true);
        WithKidsTwice(old(root), dir, mid, mid - {name});
        assert mid - {name} == kids - {name};
        if unlinkErr == None || unlinkErr == Some(NotExist) {
          return None, over;
        }
        return err, over;
      }
      // A pinned file or link: it stays, but a file has been subtracted all the same.
      over := if kids[name].File? then kids[name].size else 0;
      WithSameKids(old(root), dir);
      assert kids[name := kids[name]] == kids;
    }

    /** Removes what can be removed inside the directory `name` of `dir`, a batch of names at a time. */
    method RemoveContentsFrom(dir: Path, name: string, ghost bound: Entry) returns (ghost over: nat)
      requires IsDirAt(root, dir) && name in KidsAt(root, dir) && KidsAt(root, dir)[name].Dir?
      requires PrunedFrom(KidsAt(root, dir)[name], bound)
      modifies this`root, this`usage
      ensures var kids := KidsAt(old(root), dir);
              var left := Dir(Survivors(kids[name].entries), kids[name].pinned);
              && root == WithKids(old(root), dir, kids[name := left])
              && Charged(old(usage), usage, Total(kids[name]) - Total(left) + over)
              && over >= Total(left) && (Total(left) == 0 ==> over == 0)
      decreases bound, 2
    {
      var sub := dir + [name];
      ghost var kids := KidsAt(root, dir);
      ghost var all := kids[name].entries;
      FindBelow(root, dir, name);
      WithSameKids(root, sub);
      SweptNone(all);
      ghost var tried: set<string>, left := {}, all;
      over := 0;
      while true
        invariant left == Swept(all, tried) && root == WithKids(old(root), sub, left)
        invariant Charged(old(usage), usage, TotalOfKids(all) - TotalOfKids(left) + over)
        invariant KeepsNothing(all) ==> over == 0
        decreases |left|
      {
        ghost var u, before, spent := usage, left, over;
        var done;
        ghost var extra;
        done, tried, left, extra := SweepOnce(sub, bound, old(root), all, tried, left);
        over := over + extra;
        ChargedTwice(old(usage), u, usage, TotalOfKids(all) - TotalOfKids(before) + spent,
                     TotalOfKids(before) - TotalOfKids(left) + extra);
        if done {
          break;
        }
      }
      SweptAll(all, tried);
      WithKidsBelow(old(root), dir, name, Survivors(all));
      KeepsNothingMeans(all);
      SameTotal(all, kids[name].pinned, false);
      SameTotal(Survivors(all), kids[name].pinned, false);
    }

    /** Opens the directory and removes batches of its names until a batch is not one of nothing but
        failures; `done` tells that this batch was the last of the listing. */
    method SweepOnce(sub: Path, ghost bound: Entry, ghost root0: Entry, ghost all: map<string, Entry>,
                     ghost tried0: set<string>, ghost start: map<string, Entry>)
      returns (done: bool, ghost tried: set<string>, ghost left: map<string, Entry>, ghost over: nat)
      requires IsDirAt(root0, sub) && KidsAt(root0, sub) == all && PrunedFrom(Dir(all, false), bound)
      requires start == Swept(all, tried0) && root == WithKids(root0, sub, start)
      modifies this`root, this`usage
      ensures left == Swept(all, tried) && root == WithKids(root0, sub, left)
      ensures Charged(old(usage), usage, TotalOfKids(start) - TotalOfKids(left) + over)
      ensures KeepsNothing(all) ==> over == 0
      ensures done ==> left.Keys <= tried && over >= TotalOfKids(left)
      ensures !done ==> |left| < |start|
      decreases bound, 1, 5
    {
      WithKidsFinds(root0, sub, start);
      var names := ListNames(sub);
      ghost var l := Listing(bound, root0, all, start, usage);
      var respSize;
      ghost var end;
      respSize, end := SweepListing(sub, names, l, tried0);
      tried, left, over := end.tried, end.left, end.over;
      done := respSize < REQ_SIZE;
      if done {
        SweepEnd(end);
      }
    }

    method SweepListing(sub: Path, names: seq<string>, ghost l: Listing, ghost tried: set<string>)
      returns (respSize: nat, ghost now: Progress)
      requires OnListing(sub, l) && l.usage == usage && root == WithKids(l.root, sub, l.start)
      requires l.start == Swept(l.all, tried) && l.start.Keys == ToSet(names) && Distinct(names)
      modifies this`root, this`usage
      ensures root == WithKids(l.root, sub, now.left) && ListingEnds(l, now, respSize, usage)
      decreases l.bound, 1, 4
    {
      now := Progress(tried, {}, l.start, TotalOfKids(l.start), 0);
      var rest := names;
      while true
        invariant root == WithKids(l.root, sub, now.left) && ListingState(l, now, rest, usage)
        decreases |rest|
      {
        var numErr;
        numErr, respSize, rest, now := SweepNext(sub, rest, l, now);
        if numErr != REQ_SIZE {
          break;
        }
      }
    }

    /** One turn of the loop over a listing: reads the next names and attempts them. */
    method SweepNext(sub: Path, rest: seq<string>, ghost l: Listing, ghost before: Progress)
      returns (numErr: nat, respSize: nat, rest': seq<string>, ghost now: Progress)
      requires OnListing(sub, l) && root == WithKids(l.root, sub, before.left) && ListingState(l, before, rest, usage)
      modifies this`root, this`usage
      ensures root == WithKids(l.root, sub, now.left)
      ensures if numErr == REQ_SIZE then ListingState(l, now, rest', usage) && |rest'| < |rest|
              else ListingEnds(l, now, respSize, usage)
      decreases l.bound, 1, 3
    {
      respSize := if REQ_SIZE < |rest| then REQ_SIZE else |rest|;
      rest' := rest[respSize..];
      NextBatch(l.start.Keys, before.attempted, rest, respSize);
      numErr, now := SweepBatch(sub, rest[..respSize], l, before);
    }

    /** One batch of a listing. */
    method SweepBatch(sub: Path, batch: seq<string>, ghost l: Listing, ghost before: Progress)
      returns (numErr: nat, ghost now: Progress)
      requires OnListing(sub, l) && root == WithKids(l.root, sub, before.left) && SweepState(l, before, usage)
      requires Distinct(batch) && before.attempted !! ToSet(batch) && before.attempted + ToSet(batch) <= before.left.Keys
      modifies this`root, this`usage
      ensures now.attempted == before.attempted + ToSet(batch)
      ensures root == WithKids(l.root, sub, now.left) && SweepState(l, now, usage)
      ensures now.left.Keys <= before.left.Keys && numErr <= |batch|
      ensures if numErr == |batch| then now.left.Keys == before.left.Keys && |now.left| == |before.left|
              else |now.left| < |before.left|
      decreases l.bound, 1, 2
    {
      ghost var b, u, extra := ToSet(batch), usage, 0;
      WithKidsFinds(l.root, sub, before.left);
      SweptIsPruned(l.all, before.tried, l.bound, false);
      numErr, extra := RemoveBatch(sub, batch, l.bound);
      now := After(before, b, extra);
      BatchStep(l, before, b, extra, u, usage);
      SweptShrinks(before.left, b);
      WithKidsTwice(l.root, sub, before.left, now.left);
    }

    /** Attempts every name of a batch once, and counts the failures. */
    method RemoveBatch(sub: Path, batch: seq<string>, ghost bound: Entry) returns (numErr: nat, ghost over: nat)
      requires IsDirAt(root, sub) && Distinct(batch) && ToSet(batch) <= KidsAt(root, sub).Keys
      requires PrunedFrom(Dir(KidsAt(root, sub), false), bound)
      modifies this`root, this`usage
      ensures var kids := KidsAt(old(root), sub);
              var left := Swept(kids, ToSet(batch));
              && root == WithKids(old(root), sub, left)
              && Charged(old(usage), usage, TotalOfKids(kids) - TotalOfKids(left) + over)
              && over >= Share(left, ToSet(batch))
              && (KeepsNothing(kids) ==> over == 0)
              && numErr <= |batch| && |left| + |batch| == |kids| + numErr
      decreases bound, 1, 1
    {
      ghost var kids := KidsAt(root, sub);
      ghost var now := kids;
      numErr, over := 0, 0;
      WithSameKids(root, sub);
      BatchStart(kids, batch);
      for i := 0 to |batch|
        invariant root == WithKids(old(root), sub, now)
        invariant Charged(old(usage), usage, TotalOfKids(kids) - TotalOfKids(now) + over)
        invariant BatchState(kids, batch, i, now, over) && numErr <= i && |now| + i == |kids| + numErr
      {
        var err;
        err, now, over := RemoveName(sub, batch, i, bound, old(root), kids, now, over, old(usage));
        if err != None {
          numErr := numErr + 1;
        }
      }
      assert batch[..|batch|] == batch;
    }

    /** One name of a batch; `u0` is the usage when the batch was begun. */
    method RemoveName(sub: Path, batch: seq<string>, i: nat, ghost bound: Entry, ghost root0: Entry, ghost kids: map<string, Entry>,
                      ghost now: map<string, Entry>, ghost spent: nat, ghost u0: int)
      returns (err: Option<Errno>, ghost next: map<string, Entry>, ghost over: nat)
      requires IsDirAt(root0, sub) && root == WithKids(root0, sub, now)
      requires i < |batch| && Distinct(batch) && ToSet(batch) <= kids.Keys && BatchState(kids, batch, i, now, spent)
      requires PrunedFrom(Dir(kids, false), bound)
      requires Charged(u0, usage, TotalOfKids(kids) - TotalOfKids(now) + spent)
      modifies this`root, this`usage
      ensures root == WithKids(root0, sub, next) && BatchState(kids, batch, i + 1, next, over)
      ensures Charged(u0, usage, TotalOfKids(kids) - TotalOfKids(next) + over)
      ensures |next| == |now| - (if err == None then 1 else 0)
      decreases bound, 1, 0
    {
      ghost var u, extra := usage, 0;
      next := WithEntry(now, batch[i], Survives(kids[batch[i]]));
      WithKidsFinds(root0, sub, now);
      BatchStateIsPruned(kids, batch, i, now, spent, bound);
      err, extra := RemoveAllFrom(sub, batch[i], bound.entries[batch[i]]);
      over := spent + extra;
      WithKidsTwice(root0, sub, now, next);
      NameStep(kids, batch, i, now, spent, extra);
      ChargedOn(u0, u, usage, TotalOfKids(kids), TotalOfKids(now), TotalOfKids(next), spent, extra);
    }

    // -------------------------------------------------------------------------
    // Removal by path
    // -------------------------------------------------------------------------

    /** Removes a file or an empty directory. */
    method Remove(path: Path) returns (err: Option<Errno>)
      requires path != []
      modifies this`root, this`usage
      ensures match Find(old(root), path)
              case Missing => err == Some(NotExist) && root == old(root) && usage == old(usage)
              case NotDirectory => err == Some(NotDir) && root == old(root) && usage == old(usage)
              case Found(e) =>
                if !e.pinned && (e.Dir? ==> e.entries == map[]) then
                  && err == None && root == RemovedAt(old(root), path)
                  && usage == if e.File? then Bumped(old(usage), 0 - e.size) else old(usage)
                else
                  && err == Some(if e.Dir? && e.entries != map[] then NotEmpty else NotPermitted)
                  && root == old(root) && usage == old(usage)
    {
      var dir, base := path[..|path| - 1], path[|path| - 1];
      assert path == dir + [base];
      FindBelow(root, dir, base);
      match Find(root, dir) {
        case Missing => return Some(NotExist);
        case NotDirectory => return Some(NotDir);
        case Found(d) =>
          if !d.Dir? {
            return Some(NotDir);
          }
          if base !in d.entries {
            return Some(NotExist);
          }
          var e := d.entries[base];
          err := RawUnlinkAt(dir, base, e.Dir?);
          if err == None && e.File? {
            var size: int := e.size;
            var _ := Add(-size);
          }
      }
    }

    /** Removes `path` and everything below it that can be removed. */
    method RemoveAll(path: Path) returns (err: Option<Errno>, ghost over: nat)
      modifies this`root, this`usage
      ensures path == [] ==> err == Some(BadPathResolution) && root == old(root) && usage == old(usage)
      ensures path != [] ==>
                match Find(old(root), path)
                case Missing => err == None && root == old(root) && usage == old(usage)
                case NotDirectory => err == Some(NotDir) && root == old(root) && usage == old(usage)
                case Found(e) =>
                  && root == RemovedAt(old(root), path)
                  && err == (if Survives(e) == None then None else Some(if e.Dir? then IsDir else NotPermitted))
                  && Accounted(e, old(usage), usage, over)
                  && (old(usage) >= 0 ==>
                        (usage == Reduced(old(usage), Total(e) - TotalSurviving(e))
                         <==> PinnedFilesEmpty(e) || old(usage) <= Total(e) - TotalSurviving(e)))
    {
      over := 0;
      if path == [] {
        return Some(BadPathResolution), 0;
      }
      ghost var u, was := usage, Find(root, path);
      err := Remove(path);
      if err == None || err == Some(NotExist) {
        err := None;
      } else {
        err, over := RemoveAllIn(path);
      }
      if was.Found? {
        AccountingExactlyWhen(was.entry, u, usage, over);
      }
    }

    /** Opens the directory above `path` and removes what can be removed from there. */
    method RemoveAllIn(path: Path) returns (err: Option<Errno>, ghost over: nat)
      requires path != [] && !Find(root, path).Missing?
      modifies this`root, this`usage
      ensures match Find(old(root), path)
              case Missing => true
              case NotDirectory => err == Some(NotDir) && root == old(root) && usage == old(usage)
              case Found(e) =>
                && root == RemovedAt(old(root), path)
                && err == (if Survives(e) == None then None else Some(if e.Dir? then IsDir else NotPermitted))
                && Accounted(e, old(usage), usage, over)
    {
      over := 0;
      var dir, base := path[..|path| - 1], path[|path| - 1];
      assert path == dir + [base];
      FindBelow(root, dir, base);
      match Find(root, dir) {
        case Missing => err := None;
        case NotDirectory => return Some(NotDir), 0;
        case Found(d) =>
          if !d.Dir? {
            return Some(NotDir), 0;
          }
          PrunedFromItself(d.entries[base]);
          err, over := RemoveAllFrom(dir, base, d.entries[base]);
      }
    }
  }

  /** The tree with everything that can be removed of the entry `base` of the directory `dir` gone. */
  ghost function RemovedIn(root: Entry, dir: Path, base: string): Entry
    requires IsDirAt(root, dir) && base in KidsAt(root, dir)
  {
    WithKids(root, dir, WithEntry(KidsAt(root, dir), base, Survives(KidsAt(root, dir)[base])))
  }

  /** The tree with everything that can be removed of `path` gone. */
  ghost function RemovedAt(root: Entry, path: Path): Entry
    requires path != [] && Find(root, path).Found?
  {
    var dir, base := path[..|path| - 1], path[|path| - 1];
    assert path == dir + [base];
    FindBelow(root, dir, base);
    RemovedIn(root, dir, base)
  }

  lemma RemovedInFinds(root: Entry, dir: Path, base: string)
    requires IsDirAt(root, dir) && base in KidsAt(root, dir)
    ensures Find(RemovedIn(root, dir, base), dir + [base])
            == match Survives(KidsAt(root, dir)[base]) case None => Missing case Some(s) => Found(s)
  {
    var kids' := WithEntry(KidsAt(root, dir), base, Survives(KidsAt(root, dir)[base]));
    WithKidsFinds(root, dir, kids');
    FindBelow(RemovedIn(root, dir, base), dir, base);
    assert [base][1..] == [];
  }

  lemma RemovedInTotals(root: Entry, dir: Path, base: string)
    requires IsDirAt(root, dir) && base in KidsAt(root, dir)
    ensures var e := KidsAt(root, dir)[base];
            Total(RemovedIn(root, dir, base)) == Total(root) - Total(e) + TotalSurviving(e)
  {
    var kids := KidsAt(root, dir);
    TotalWithKids(root, dir, WithEntry(kids, base, Survives(kids[base])));
    TotalWithEntry(kids, base);
  }

  lemma RemovedInElsewhere(root: Entry, dir: Path, base: string, other: Path)
    requires IsDirAt(root, dir) && base in KidsAt(root, dir)
    requires !(dir + [base] <= other) && !(other <= dir + [base])
    ensures Find(RemovedIn(root, dir, base), other) == Find(root, other)
  {
    var kids := KidsAt(root, dir);
    var kids' := WithEntry(kids, base, Survives(kids[base]));
    if dir <= other {
      SiblingUntouched(root, dir, base, kids', other);
    } else {
      assert dir <= dir + [base];
      WithKidsElsewhere(root, dir, kids', other);
    }
  }

  /** Removal leaves exactly what survives of the subtree, touches nothing else, and the total goes
      down by the size of what is gone. */
  lemma RemovalIsExact(root: Entry, path: Path, other: Path)
    requires path != [] && Find(root, path).Found?
    ensures var e, root' := Find(root, path).entry, RemovedAt(root, path);
            && Find(root', path) == (match Survives(e) case None => Missing case Some(s) => Found(s))
            && (!(path <= other) && !(other <= path) ==> Find(root', other) == Find(root, other))
            && Total(root') == Total(root) - Total(e) + TotalSurviving(e)
            && (Unpinned(e) ==> Find(root', path) == Missing && Total(root') == Total(root) - Total(e))
  {
    var dir, base := path[..|path| - 1], path[|path| - 1];
    assert path == dir + [base];
    FindBelow(root, dir, base);
    RemovedInFinds(root, dir, base);
    RemovedInTotals(root, dir, base);
    VanishesExactlyWhenUnpinned(Find(root, path).entry);
    if !(path <= other) && !(other <= path) {
      RemovedInElsewhere(root, dir, base, other);
    }
  }

  lemma {:induction false} SiblingUntouched(root: Entry, dir: Path, base: string, kids: map<string, Entry>, other: Path)
    requires IsDirAt(root, dir) && dir < other && other[|dir|] != base
    requires kids - {base} == KidsAt(root, dir) - {base}
    ensures Find(WithKids(root, dir, kids), other) == Find(root, other)
  {
    if dir == [] {
      var n := other[0];
      assert n in kids <==> n in kids - {base};
      assert n in root.entries <==> n in root.entries - {base};
      if n in kids { assert kids[n] == (kids - {base})[n] == (root.entries - {base})[n]; }
    } else {
      SiblingUntouched(root.entries[dir[0]], dir[1..], base, kids, other[1..]);
    }
  }

  /** The accounting of a removal, which RemoveAll guarantees, is exact, that is each removed file is
      subtracted once and nothing else, if and only if every pinned file is empty or the usage runs out
      anyway. */
  lemma AccountingExactlyWhen(e: Entry, u: int, u': int, over: nat)
    requires Accounted(e, u, u', over)
    ensures 0 <= u <= MAX_INT64 ==>
              (u' == Reduced(u, Total(e) - TotalSurviving(e))
               <==> PinnedFilesEmpty(e) || u <= Total(e) - TotalSurviving(e))
  {
    NothingKeptExactly(e);
  }

  /** Exact usage stays exact through a removal if and only if every pinned file below the path is empty;
      otherwise it is too low. */
  lemma RemovalKeepsExactExactly(root: Entry, path: Path, u': int, over: nat)
    requires path != [] && Find(root, path).Found?
    requires Total(root) <= MAX_INT64 && Accounted(Find(root, path).entry, Total(root), u', over)
    ensures u' == Total(RemovedAt(root, path)) <==> PinnedFilesEmpty(Find(root, path).entry)
    ensures u' <= Total(RemovedAt(root, path))
  {
    var e := Find(root, path).entry;
    RemovalIsExact(root, path, path);
    NothingKeptExactly(e);
    SurvivingIsLess(e);
    TotalCovers(root, path);
  }

  /** Files that refuse to be unlinked make the usage drift: of a directory with one such file of three bytes
      nothing goes, but three bytes are subtracted. */
  lemma PinnedFileDrifts(u': int, over: nat)
    ensures var d := Dir(map["f" := File(3, true)], false);
            var root := Dir(map["d" := d], false);
            && Find(root, ["d"]) == Found(d) && Total(root) == 3
            && (Accounted(d, 3, u', over) ==> u' == 0 && Total(RemovedAt(root, ["d"])) == 3)
  {
    var f := File(3, true);
    var d := Dir(map["f" := f], false);
    var root := Dir(map["d" := d], false);
    OnlyEntry("f", f, false);
    OnlyEntry("d", d, false);
    assert Find(root, ["d"]) == Found(d);
    SurvivesDir(d);
    assert Survivors(d.entries) == d.entries;
    RemovalIsExact(root, ["d"], ["d"]);
  }

  lemma OnlyEntry(n: string, e: Entry, pinned: bool)
    ensures Total(Dir(map[n := e], pinned)) == Total(e)
  {
    TotalPut(map[], pinned, n, e);
    assert map[n := e] == map[][n := e];
  }

  /** `now` is what the first `i` attempts of a batch left, `over` at least the size of what they failed to remove. */
  ghost predicate BatchState(kids: map<string, Entry>, batch: seq<string>, i: nat, now: map<string, Entry>, over: nat)
    requires i <= |batch|
  {
    && now == Swept(kids, ToSet(batch[..i]))
    && over >= Share(now, ToSet(batch[..i]))
    && (KeepsNothing(kids) ==> over == 0)
  }

  lemma BatchStart(kids: map<string, Entry>, batch: seq<string>)
    ensures BatchState(kids, batch, 0, kids, 0)
  {
    assert ToSet(batch[..0]) == {};
    SweptNone(kids);
  }

  lemma BatchStateIsPruned(kids: map<string, Entry>, batch: seq<string>, i: nat, now: map<string, Entry>, over: nat, bound: Entry)
    requires i < |batch| && Distinct(batch) && ToSet(batch) <= kids.Keys && BatchState(kids, batch, i, now, over)
    requires PrunedFrom(Dir(kids, false), bound)
    ensures batch[i] in now && now[batch[i]] == kids[batch[i]]
    ensures batch[i] in bound.entries && PrunedFrom(kids[batch[i]], bound.entries[batch[i]])
  {
    assert batch[i] in ToSet(batch) && batch[i] !in ToSet(batch[..i]);
    assert batch[i] in Dir(kids, false).entries;
  }

  /** One more name of a batch attempted. */
  lemma NameStep(kids: map<string, Entry>, batch: seq<string>, i: nat, now: map<string, Entry>, over: nat, extra: nat)
    requires i < |batch| && Distinct(batch) && ToSet(batch) <= kids.Keys && BatchState(kids, batch, i, now, over)
    requires extra >= TotalSurviving(kids[batch[i]]) && (TotalSurviving(kids[batch[i]]) == 0 ==> extra == 0)
    ensures var next := WithEntry(now, batch[i], Survives(kids[batch[i]]));
            && TotalOfKids(next) == TotalOfKids(now) - Total(kids[batch[i]]) + TotalSurviving(kids[batch[i]])
            && BatchState(kids, batch, i + 1, next, over + extra)
            && |next| == |now| - (if Survives(kids[batch[i]]) == None then 1 else 0)
  {
    var n, done := batch[i], ToSet(batch[..i]);
    assert ToSet(batch[..i + 1]) == done + {n} by { assert batch[..i + 1] == batch[..i] + [n]; }
    assert n in ToSet(batch) && n !in done;
    var next := WithEntry(now, n, Survives(kids[n]));
    SweptTwice(kids, done, {n});
    SweptOne(now, n);
    TotalWithEntry(now, n);
    CountWithEntry(now, n);
    TotalCongruence(Dir(now, false), Dir(next, false), done * now.Keys);
    assert done * next.Keys == done * now.Keys;
    if n in next {
      assert (done + {n}) * next.Keys == done * next.Keys + {n};
      TotalSplit(Dir(next, false), done * next.Keys + {n}, n);
      assert done * next.Keys + {n} - {n} == done * next.Keys;
    } else {
      assert (done + {n}) * next.Keys == done * next.Keys;
    }
  }

  lemma CountWithEntry(kids: map<string, Entry>, n: string)
    requires n in kids
    ensures |WithEntry(kids, n, Survives(kids[n]))| == |kids| - (if Survives(kids[n]) == None then 1 else 0)
  {
    var next := WithEntry(kids, n, Survives(kids[n]));
    assert |next| == |next.Keys| && |kids| == |kids.Keys|;
    assert next.Keys == if Survives(kids[n]) == None then kids.Keys - {n} else kids.Keys;
  }

  /** A listing of a directory: a bound on it, the tree and the contents before the removal began, the contents
      when the listing was taken, and the usage then. */
  datatype Listing = Listing(bound: Entry, root: Entry, all: map<string, Entry>, start: map<string, Entry>, usage: int)

  ghost predicate OnListing(sub: Path, l: Listing) {
    IsDirAt(l.root, sub) && PrunedFrom(Dir(l.all, false), l.bound)
  }

  /** How far a removal has come: all names tried, those `attempted` since the listing was taken, what is `left` and
      its total size, and what has been charged beyond the sizes that have gone since. */
  datatype Progress = Progress(tried: set<string>, attempted: set<string>, left: map<string, Entry>, total: int, over: nat)

  /** After the attempts on `b`, which charged `extra` too much. */
  ghost function After(g: Progress, b: set<string>, extra: nat): Progress {
    var left := Swept(g.left, b);
    Progress(g.tried + b, g.attempted + b, left, TotalOfKids(left), g.over + extra)
  }

  /** What is left is what the attempts so far left; those since the listing was taken have charged at least
      the size of what they failed to remove. */
  ghost predicate SweepState(l: Listing, g: Progress, u: int) {
    && g.left == Swept(l.all, g.tried) && g.attempted <= g.tried
    && g.over >= Share(g.left, g.attempted)
    && (KeepsNothing(l.all) ==> g.over == 0)
    && g.total == TotalOfKids(g.left) && Charged(l.usage, u, TotalOfKids(l.start) - g.total + g.over)
  }

  /** Attempts on `b` leave the share of the untouched names `a` as it was. */
  lemma TotalAfterSweep(now: map<string, Entry>, a: set<string>, b: set<string>)
    requires a !! b && a + b <= now.Keys
    ensures var left := Swept(now, b);
            && a * left.Keys == a * now.Keys
            && Share(left, a + b) == Share(now, a) + Share(left, b)
  {
    var left := Swept(now, b);
    assert a * left.Keys == a * now.Keys;
    TotalCongruence(Dir(now, false), Dir(left, false), a * now.Keys);
    assert (a + b) * left.Keys == a * left.Keys + b * left.Keys;
    TotalDisjoint(Dir(left, false), a * left.Keys, b * left.Keys);
  }

  lemma SweptShrinks(now: map<string, Entry>, b: set<string>)
    ensures Swept(now, b).Keys <= now.Keys
    ensures |Swept(now, b)| == |now| ==> Swept(now, b).Keys == now.Keys
  {
    var left := Swept(now, b);
    assert |left| == |left.Keys| && |now| == |now.Keys|;
    if |left| == |now| {
      SubsetOfSameSize(left.Keys, now.Keys);
    }
  }

  /** One more batch of a listing attempted. */
  lemma BatchStep(l: Listing, g: Progress, b: set<string>, extra: nat, u: int, u': int)
    requires g.attempted !! b && g.attempted + b <= g.left.Keys && SweepState(l, g, u)
    requires extra >= Share(Swept(g.left, b), b) && (KeepsNothing(g.left) ==> extra == 0)
    requires Charged(u, u', g.total - TotalOfKids(Swept(g.left, b)) + extra)
    ensures SweepState(l, After(g, b, extra), u')
  {
    SweptTwice(l.all, g.tried, b);
    TotalAfterSweep(g.left, g.attempted, b);
    ChargedOn(l.usage, u, u', TotalOfKids(l.start), g.total, TotalOfKids(Swept(g.left, b)), g.over, extra);
    if KeepsNothing(l.all) {
      SweptKeepsNothing(l.all, g.tried);
    }
  }

  /** The end of a listing: every name that is left has been attempted and charged. */
  lemma SweepEnd(g: Progress)
    requires g.left.Keys <= g.attempted <= g.tried && g.over >= Share(g.left, g.attempted)
    ensures g.left.Keys <= g.tried && g.over >= TotalOfKids(g.left)
  {
    assert g.attempted * g.left.Keys == g.left.Keys;
  }

  /** The names of a listing are those attempted so far and, each once, those still to come. */
  ghost predicate Unlisted(listing: set<string>, a: set<string>, rest: seq<string>) {
    Distinct(rest) && a !! ToSet(rest) && listing == a + ToSet(rest)
  }

  /** How a batch cuts a listing. */
  lemma NextBatch(listing: set<string>, a: set<string>, rest: seq<string>, n: nat)
    requires Unlisted(listing, a, rest) && n <= |rest|
    ensures var b := ToSet(rest[..n]);
            && Distinct(rest[..n]) && a !! b && a + b <= listing && Unlisted(listing, a + b, rest[n..])
            && (n == |rest| ==> a + b == listing)
  {
    forall x | x in rest[..n] ensures x !in rest[n..] {
      var i :| 0 <= i < n && rest[i] == x;
      forall j | n <= j < |rest| ensures rest[j] != x {}
    }
    assert rest == rest[..n] + rest[n..];
  }

  /** Between two batches of a listing, from none of which anything has gone. */
  ghost predicate ListingState(l: Listing, g: Progress, rest: seq<string>, u: int) {
    && Unlisted(l.start.Keys, g.attempted, rest) && SweepState(l, g, u)
    && g.left.Keys == l.start.Keys && |g.left| == |l.start|
  }

  /** After the last batch of a sweep: the listing has ended, or something has gone. */
  ghost predicate ListingEnds(l: Listing, g: Progress, respSize: nat, u: int) {
    SweepState(l, g, u) && if respSize < REQ_SIZE then g.left.Keys <= g.attempted else |g.left| < |l.start|
  }

  lemma SubsetOfSameSize(a: set<string>, b: set<string>)
    requires a <= b && |a| == |b|
    ensures a == b
  {
    assert b == a + (b - a);
    assert |b| == |a| + |b - a|;
  }
}
