/** What attempting to remove some of the entries of a directory does to it, as plain functions. */
module Sweep {
  import opened Wrappers
  import opened FsTree

  /** The contents of a directory after an attempt to remove each of `names`. */
  ghost function Swept(kids: map<string, Entry>, names: set<string>): map<string, Entry> {
    map n | n in kids && (n in names ==> Survives(kids[n]).Some?)
      :: if n in names then Survives(kids[n]).value else kids[n]
  }

  lemma SweptNone(kids: map<string, Entry>)
    ensures Swept(kids, {}) == kids
  {
  }

  /** Attempts add up, and attempting an entry twice is attempting it once. */
  lemma SweptTwice(kids: map<string, Entry>, a: set<string>, b: set<string>)
    ensures Swept(Swept(kids, a), b) == Swept(kids, a + b)
  {
    forall n | n in kids && n in a && Survives(kids[n]).Some? ensures Survives(Survives(kids[n]).value) == Survives(kids[n]) {
      SurvivesTwice(kids[n]);
    }
  }

  /** Once every remaining entry has been attempted, what remains is what survives. */
  lemma SweptAll(kids: map<string, Entry>, names: set<string>)
    requires Swept(kids, names).Keys <= names
    ensures Swept(kids, names) == Survivors(kids)
  {
    assert forall n :: n in kids && n !in names ==> n in Swept(kids, names).Keys;
  }

  ghost function WithEntry(kids: map<string, Entry>, n: string, e: Option<Entry>): map<string, Entry> {
    match e
    case None => kids - {n}
    case Some(x) => kids[n := x]
  }

  lemma SweptOne(kids: map<string, Entry>, n: string)
    requires n in kids
    ensures Swept(kids, {n}) == WithEntry(kids, n, Survives(kids[n]))
  {
  }

  lemma TotalWithEntry(kids: map<string, Entry>, n: string)
    requires n in kids
    ensures Total(Dir(WithEntry(kids, n, Survives(kids[n])), false))
            == Total(Dir(kids, false)) - Total(kids[n]) + TotalSurviving(kids[n])
  {
    if Survives(kids[n]).Some? {
      TotalPut(kids, false, n, Survives(kids[n]).value);
    } else {
      TotalDrop(kids, false, n);
    }
  }

  // ---------------------------------------------------------------------------
  // Sums over part of a directory
  // ---------------------------------------------------------------------------

  lemma {:induction false} TotalDisjoint(d: Entry, a: set<string>, b: set<string>)
    requires d.Dir? && a <= d.entries.Keys && b <= d.entries.Keys && a !! b
    ensures TotalOf(d, a + b) == TotalOf(d, a) + TotalOf(d, b)
    decreases |a|
  {
    if a == {} {
      assert a + b == b;
    } else {
      var n :| n in a;
      TotalSplit(d, a, n);
      TotalSplit(d, a + b, n);
      assert a + b - {n} == (a - {n}) + b;
      TotalDisjoint(d, a - {n}, b);
    }
  }

  lemma {:induction false} TotalZero(d: Entry, names: set<string>)
    requires d.Dir? && names <= d.entries.Keys
    ensures TotalOf(d, names) == 0 <==> forall n :: n in names ==> Total(d.entries[n]) == 0
    decreases |names|
  {
    if names != {} {
      var n :| n in names;
      TotalSplit(d, names, n);
      TotalZero(d, names - {n});
      assert forall m :: m in names <==> m == n || m in names - {n};
    }
  }

  /** Every file that can be kept is empty. */
  ghost predicate KeepsNothing(kids: map<string, Entry>) {
    forall n :: n in kids ==> TotalSurviving(kids[n]) == 0
  }

  lemma KeepsNothingMeans(kids: map<string, Entry>)
    ensures KeepsNothing(kids) <==> Total(Dir(Survivors(kids), false)) == 0
  {
    var s := Dir(Survivors(kids), false);
    TotalZero(s, s.entries.Keys);
    if Total(s) == 0 {
      forall n | n in kids ensures TotalSurviving(kids[n]) == 0 {
        if Survives(kids[n]).Some? { assert n in s.entries; }
      }
    }
  }

  /** No file that refuses to be unlinked has any bytes. */
  ghost predicate PinnedFilesEmpty(e: Entry) {
    match e
    case File(size, pinned) => pinned ==> size == 0
    case Dir(entries, _) => forall n :: n in entries ==> PinnedFilesEmpty(entries[n])
    case Symlink(_) => true
  }

  /** What survives of a tree has no bytes exactly when its pinned files have none. */
  lemma {:induction false} NothingKeptExactly(e: Entry)
    ensures TotalSurviving(e) == 0 <==> PinnedFilesEmpty(e)
  {
    if e.Dir? {
      forall n | n in e.entries ensures TotalSurviving(e.entries[n]) == 0 <==> PinnedFilesEmpty(e.entries[n]) {
        NothingKeptExactly(e.entries[n]);
      }
      SurvivesDir(e);
      KeepsNothingMeans(e.entries);
      SameTotal(Survivors(e.entries), e.pinned, false);
      if Survives(e) == None {
        assert Total(Dir(Survivors(e.entries), false)) == 0;
      }
    }
  }

  /** What survives is no more than what was there. */
  lemma {:induction false} SurvivingIsLess(e: Entry)
    ensures TotalSurviving(e) <= Total(e)
    decreases e, 1
  {
    if e.Dir? {
      SurvivingIsLessOf(e, e.entries.Keys);
      SurvivesDir(e);
      SameTotal(Survivors(e.entries), e.pinned, false);
      assert e.entries.Keys * Survivors(e.entries).Keys == Survivors(e.entries).Keys;
    }
  }

  lemma {:induction false} SurvivingIsLessOf(d: Entry, names: set<string>)
    requires d.Dir? && names <= d.entries.Keys
    ensures var s := Dir(Survivors(d.entries), false);
            TotalOf(s, names * s.entries.Keys) <= TotalOf(d, names)
    decreases d, 0, |names|
  {
    if names != {} {
      var s := Dir(Survivors(d.entries), false);
      var n :| n in names;
      SurvivingIsLess(d.entries[n]);
      SurvivingIsLessOf(d, names - {n});
      TotalSplit(d, names, n);
      var left := names * s.entries.Keys;
      if n in s.entries {
        TotalSplit(s, left, n);
        assert left - {n} == (names - {n}) * s.entries.Keys;
      } else {
        assert left == (names - {n}) * s.entries.Keys;
      }
    }
  }

  lemma SweptKeepsNothing(kids: map<string, Entry>, names: set<string>)
    requires KeepsNothing(kids)
    ensures KeepsNothing(Swept(kids, names))
  {
    var s := Swept(kids, names);
    forall n | n in s ensures TotalSurviving(s[n]) == 0 {
      if n in names { SurvivesTwice(kids[n]); }
    }
  }

  // ---------------------------------------------------------------------------
  // A well-founded bound for the recursion
  // ---------------------------------------------------------------------------

  /** `e` is `b` with some entries gone. */
  ghost predicate PrunedFrom(e: Entry, b: Entry)
    decreases b
  {
    e.Dir? ==> b.Dir? && forall n :: n in e.entries ==> n in b.entries && PrunedFrom(e.entries[n], b.entries[n])
  }

  lemma {:induction false} PrunedFromItself(e: Entry)
    ensures PrunedFrom(e, e)
  {
    if e.Dir? {
      forall n | n in e.entries ensures PrunedFrom(e.entries[n], e.entries[n]) {
        PrunedFromItself(e.entries[n]);
      }
    }
  }

  lemma {:induction false} SurvivorIsPruned(e: Entry, b: Entry)
    requires PrunedFrom(e, b) && Survives(e).Some?
    ensures PrunedFrom(Survives(e).value, b)
    decreases b
  {
    if e.Dir? {
      var s := Survives(e).value;
      SurvivesDir(e);
      forall n | n in s.entries ensures n in b.entries && PrunedFrom(s.entries[n], b.entries[n]) {
        SurvivorIsPruned(e.entries[n], b.entries[n]);
      }
    }
  }

  lemma SweptIsPruned(kids: map<string, Entry>, names: set<string>, b: Entry, pinned: bool)
    requires PrunedFrom(Dir(kids, pinned), b)
    ensures PrunedFrom(Dir(Swept(kids, names), pinned), b)
  {
    var s := Swept(kids, names);
    forall n | n in s ensures n in b.entries && PrunedFrom(s[n], b.entries[n]) {
      assert n in Dir(kids, pinned).entries;
      if n in names { SurvivorIsPruned(kids[n], b.entries[n]); }
    }
  }
}
