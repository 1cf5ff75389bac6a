/**
 The install lock protocol (daemon/server/install_lock.go, daemon/server/power.go): any number of
 servers share one base folder and coordinate only through the existence of the folder and of the
 file `.lock` in it. Every file system access is one step; the steps of the processes interleave
 freely. A process is one pass through the install loop that precedes a start.
 */
module InstallLock {

  /** Where a process stands: what its next file system access is. */
  datatype Pc =
    | Entering        // IsBaseInstalled in the install loop
    | Testing         // IsBaseInstalled in AcquireInstallLock
    | Making          // MkdirAll
    | Locking         // open `.lock` with O_CREATE and O_EXCL
    | Inspecting      // holds the lock, ReadDir
    | Installing      // holds the lock, the install body runs
    | Releasing       // removes `.lock`, then waits
    | FailReleasing   // the install failed: removes `.lock` first
    | FailRemoving    // and removes the folder after that
    | ErrReleasing    // ReadDir failed: removes `.lock`, then gives up
    | Waiting         // InstallLockExists
    | Left            // left the loop, goes on to boot
    | Aborted         // returned an error

  /** Which schedules are considered: whether creating the folder and the lock in it happen without
      anything in between, and whether an install may fail. */
  datatype Regime = Regime(atomicCreate: bool, mayFail: bool)

  /** `content`: the folder has an entry besides `.lock`. `complete`: a successful install put it there.
      `started`: how often the install body has been entered. */
  datatype State = State(folder: bool, lock: bool, content: bool, complete: bool, started: nat, pcs: seq<Pc>)

  /** What the install body does next. */
  datatype Choice = WriteEntry | Succeed | Fail

  /** Opening the lock file: the first to create it goes on, the others sleep and test again. */
  function TryLock(s: State): (State, Pc) {
    if !s.folder then (s, Aborted)
    else if s.lock then (s, Testing)
    else (s.(lock := true), Inspecting)
  }

  /** The file system access of a process at `pc`, and where it goes from there. */
  function Act(r: Regime, s: State, pc: Pc, c: Choice): (State, Pc) {
    match pc
    case Entering => (s, if s.folder then Waiting else Testing)
    case Testing => (s, if s.folder then Waiting else Making)
    case Making =>
      var made := s.(folder := true);
      if r.atomicCreate then TryLock(made) else (made, Locking)
    case Locking => TryLock(s)
    case Inspecting =>
      if !s.folder then (s, ErrReleasing)
      else if s.content then (s, Releasing)
      else (s.(started := s.started + 1), Installing)
    case Installing =>
      if c == Fail then (s, if r.mayFail then FailReleasing else Installing)
      else if c == WriteEntry then (s.(content := s.content || s.folder), Installing)
      else if s.content then (s.(complete := true), Releasing)  // success leaves an entry
      else (s, Installing)
    case Releasing => (s.(lock := false), Waiting)
    case FailReleasing => (s.(lock := false), FailRemoving)
    case FailRemoving => (s.(folder := false, lock := false, content := false, complete := false), Aborted)
    case ErrReleasing => (s.(lock := false), Aborted)
    case Waiting => (s, if s.lock then Waiting else Left)
    case Left => (s, Left)
    case Aborted => (s, Aborted)
  }

  function Step(r: Regime, s: State, p: nat, c: Choice): State
    requires p < |s.pcs|
  {
    var (s', pc) := Act(r, s, s.pcs[p], c);
    s'.(pcs := s.pcs[p := pc])
  }

  /** Who moves, and what an install body does if it is its turn. */
  datatype Move = Move(p: nat, c: Choice)

  predicate Fits(schedule: seq<Move>, n: nat) {
    forall i :: 0 <= i < |schedule| ==> schedule[i].p < n
  }

  function Start(n: nat): State {
    State(false, false, false, false, 0, seq(n, i => Entering))
  }

  function Run(r: Regime, s: State, schedule: seq<Move>): (s': State)
    requires Fits(schedule, |s.pcs|)
    ensures |s'.pcs| == |s.pcs|
    decreases |schedule|
  {
    if schedule == [] then s
    else Run(r, Step(r, s, schedule[0].p, schedule[0].c), schedule[1..])
  }

  // ---------------------------------------------------------------------------
  // Failure-free runs
  // ---------------------------------------------------------------------------

  predicate Holds(pc: Pc) {
    pc.Inspecting? || pc.Installing? || pc.Releasing?
  }

  ghost predicate Exclusive(s: State) {
    forall p, q :: 0 <= p < q < |s.pcs| ==> !(s.pcs[p] == Installing && s.pcs[q] == Installing)
  }

  /** The lock file exists exactly while one process holds it. */
  ghost predicate LockInv(s: State) {
    && AtMostOneHolder(s.pcs)
    && (s.lock <==> SomeHolder(s.pcs))
    && (forall p :: 0 <= p < |s.pcs| ==> s.pcs[p] !in {FailReleasing, FailRemoving, ErrReleasing, Aborted})
    && (!s.folder ==> forall p :: 0 <= p < |s.pcs| ==> s.pcs[p] in {Entering, Testing, Making})
  }

  /** Content means an install is under way or done; the body is entered once. */
  ghost predicate InstallInv(s: State) {
    && s.started <= 1
    && (s.complete ==> s.content)
    && (s.content ==> s.folder && s.started == 1)
    && (s.started == 1 ==> s.complete || exists p :: 0 <= p < |s.pcs| && s.pcs[p] == Installing)
    && (forall p :: 0 <= p < |s.pcs| && s.pcs[p] == Installing ==> s.started == 1)
    && (forall p :: 0 <= p < |s.pcs| && s.pcs[p] == Releasing ==> s.complete)
  }

  /** With folder and lock created together, an unlocked folder is an installed base. */
  ghost predicate LeaveInv(s: State) {
    && (forall p :: 0 <= p < |s.pcs| ==> s.pcs[p] != Locking)
    && (s.folder && !s.lock ==> s.complete)
    && (forall p :: 0 <= p < |s.pcs| && s.pcs[p] == Left ==> s.complete)
  }

  ghost predicate AtMostOneHolder(pcs: seq<Pc>) {
    forall p, q :: 0 <= p < q < |pcs| ==> !(Holds(pcs[p]) && Holds(pcs[q]))
  }

  ghost predicate SomeHolder(pcs: seq<Pc>) {
    exists p :: 0 <= p < |pcs| && Holds(pcs[p])
  }

  /** What one process moving to `pc` does to the holders. */
  lemma HoldersAfter(pcs: seq<Pc>, p: nat, pc: Pc)
    requires p < |pcs| && AtMostOneHolder(pcs)
    requires Holds(pc) ==> Holds(pcs[p]) || !SomeHolder(pcs)
    ensures AtMostOneHolder(pcs[p := pc])
    ensures SomeHolder(pcs[p := pc]) <==> Holds(pc) || (SomeHolder(pcs) && !Holds(pcs[p]))
  {
    var after := pcs[p := pc];
    if Holds(pc) {
      assert Holds(after[p]);
    } else if SomeHolder(pcs) && !Holds(pcs[p]) {
      var q :| 0 <= q < |pcs| && Holds(pcs[q]);
      assert Holds(after[q]);
    }
  }

  lemma StepKeepsLock(r: Regime, s: State, p: nat, c: Choice)
    requires !r.mayFail && p < |s.pcs| && LockInv(s)
    ensures LockInv(Step(r, s, p, c))
  {
    var s' := Step(r, s, p, c);
    assert s'.pcs == s.pcs[p := s'.pcs[p]];
    HoldersAfter(s.pcs, p, s'.pcs[p]);
  }

  lemma StepKeepsInstall(r: Regime, s: State, p: nat, c: Choice)
    requires !r.mayFail && p < |s.pcs| && LockInv(s) && InstallInv(s)
    ensures InstallInv(Step(r, s, p, c))
  {
    var s' := Step(r, s, p, c);
    if s.started == 1 && !s.complete {
      var q :| 0 <= q < |s.pcs| && s.pcs[q] == Installing;
      if q != p {
        assert s'.pcs[q] == Installing;
        assert !Holds(s.pcs[p]);
      } else if s'.pcs[p] == Installing {
        assert s'.started == 1;
      }
    }
    if s.pcs[p] == Inspecting && s'.pcs[p] == Installing {
      assert s'.pcs[p] == Installing && s.started == 0;
    }
  }

  lemma StepKeepsLeave(r: Regime, s: State, p: nat, c: Choice)
    requires !r.mayFail && r.atomicCreate && p < |s.pcs| && LockInv(s) && InstallInv(s) && LeaveInv(s)
    ensures LeaveInv(Step(r, s, p, c))
  {
  }

  lemma {:induction false} RunKeepsInvariants(r: Regime, s: State, schedule: seq<Move>)
    requires !r.mayFail && Fits(schedule, |s.pcs|)
    requires LockInv(s) && InstallInv(s) && (r.atomicCreate ==> LeaveInv(s))
    ensures var s' := Run(r, s, schedule); LockInv(s') && InstallInv(s') && (r.atomicCreate ==> LeaveInv(s'))
    decreases |schedule|
  {
    if schedule != [] {
      var m := schedule[0];
      StepKeepsLock(r, s, m.p, m.c);
      StepKeepsInstall(r, s, m.p, m.c);
      if r.atomicCreate {
        StepKeepsLeave(r, s, m.p, m.c);
      }
      RunKeepsInvariants(r, Step(r, s, m.p, m.c), schedule[1..]);
    }
  }

  /** Whether or not folder and lock are created together: as long as no install fails, at most one
      process is installing at any moment and the install body is entered at most once. */
  lemma InstallsExclusivelyOnce(r: Regime, n: nat, schedule: seq<Move>)
    requires !r.mayFail && Fits(schedule, n)
    ensures var s := Run(r, Start(n), schedule); Exclusive(s) && s.started <= 1
  {
    RunKeepsInvariants(r, Start(n), schedule);
    var s := Run(r, Start(n), schedule);
    forall p, q | 0 <= p < q < |s.pcs| ensures !(s.pcs[p] == Installing && s.pcs[q] == Installing) {
      assert !(Holds(s.pcs[p]) && Holds(s.pcs[q]));
    }
  }

  /** Once the folder exists, a process that has not tested for it yet never comes near the lock: it waits and
      leaves. */
  lemma {:induction false} LatecomersTakeNoLock(r: Regime, s: State, schedule: seq<Move>, p: nat)
    requires !r.mayFail && Fits(schedule, |s.pcs|) && LockInv(s) && s.folder
    requires p < |s.pcs| && s.pcs[p] in {Entering, Testing, Waiting, Left}
    ensures var s' := Run(r, s, schedule); s'.folder && s'.pcs[p] in {Entering, Testing, Waiting, Left}
    decreases |schedule|
  {
    if schedule != [] {
      StepKeepsLock(r, s, schedule[0].p, schedule[0].c);
      LatecomersTakeNoLock(r, Step(r, s, schedule[0].p, schedule[0].c), schedule[1..], p);
    }
  }

  /** The next access creates the lock file if it can. */
  predicate TriesLock(r: Regime, pc: Pc) {
    pc == Locking || (pc == Making && r.atomicCreate)
  }

  /** Who changes what in the file system, whether or not installs fail. */
  lemma FileSystemChanges(r: Regime, s: State, p: nat, c: Choice)
    requires p < |s.pcs|
    ensures var s', pc := Step(r, s, p, c), s.pcs[p];
            && (s'.folder && !s.folder <==> pc == Making && !s.folder)
            && (!s'.folder && s.folder <==> pc == FailRemoving && s.folder)
            && (s'.lock && !s.lock <==> TriesLock(r, pc) && s'.folder && !s.lock)
            && (!s'.lock && s.lock <==> pc in {Releasing, FailReleasing, ErrReleasing, FailRemoving} && s.lock)
            && (s'.content && !s.content <==> pc == Installing && c == WriteEntry && s.folder && !s.content)
            && (!s'.content && s.content <==> pc == FailRemoving && s.content)
            && (s'.complete && !s.complete <==> pc == Installing && c == Succeed && s.content && !s.complete)
            && (!s'.complete && s.complete <==> pc == FailRemoving && s.complete)
            && s'.started == s.started + if pc == Inspecting && s.folder && !s.content then 1 else 0
  {
  }

  /** When a process gives up with an error, when it leaves, and when it is sent back to test again: the lock file
      cannot be created in a folder that is gone, and one that exists is another process's. */
  lemma ErrorsExactly(r: Regime, s: State, p: nat, c: Choice)
    requires p < |s.pcs| && s.pcs[p] != Aborted
    ensures var pc, pc' := s.pcs[p], Step(r, s, p, c).pcs[p];
            && (pc' == Aborted <==> pc in {FailRemoving, ErrReleasing} || (pc == Locking && !s.folder))
            && (pc' == ErrReleasing <==> pc == Inspecting && !s.folder)
            && (pc' == Left <==> pc == Left || (pc == Waiting && !s.lock))
            && (TriesLock(r, pc) && (pc == Making || s.folder) ==> pc' == if s.lock then Testing else Inspecting)
  {
  }

  /** A process has left the loop only if the base was completely installed. */
  ghost predicate LeavesOnlyInstalled(s: State) {
    forall p :: 0 <= p < |s.pcs| && s.pcs[p] == Left ==> s.complete
  }

  // ---------------------------------------------------------------------------
  // Nobody gets stuck
  // ---------------------------------------------------------------------------

  /** How many more steps a process needs that nobody interferes with. */
  function StepsLeft(s: State, p: nat): nat
    requires p < |s.pcs|
  {
    match s.pcs[p]
    case Entering => 9
    case Testing => 8
    case Making => 7
    case Locking => 6
    case Inspecting => 5
    case Installing => if s.content then 3 else 4
    case Releasing => 2
    case Waiting => 1
    case _ => 0
  }

  /** Nobody else holds the lock. */
  predicate MayGoOn(s: State, p: nat)
    requires p < |s.pcs|
  {
    s.lock ==> Holds(s.pcs[p])
  }

  lemma GoesOn(r: Regime, s: State, p: nat) returns (c: Choice)
    requires !r.mayFail && p < |s.pcs| && LockInv(s) && MayGoOn(s, p) && s.pcs[p] != Left
    ensures var s' := Step(r, s, p, c);
            StepsLeft(s', p) < StepsLeft(s, p) && MayGoOn(s', p) && s'.pcs == s.pcs[p := s'.pcs[p]]
  {
    c := if s.content then Succeed else WriteEntry;
  }

  lemma {:induction false} LeavesAlone(r: Regime, s: State, p: nat) returns (schedule: seq<Move>)
    requires !r.mayFail && p < |s.pcs| && LockInv(s) && MayGoOn(s, p)
    ensures Fits(schedule, |s.pcs|) && LockInv(Run(r, s, schedule))
    ensures Run(r, s, schedule).pcs == s.pcs[p := Left] && !Run(r, s, schedule).lock
    decreases StepsLeft(s, p)
  {
    if s.pcs[p] == Left {
      schedule := [];
    } else {
      var c := GoesOn(r, s, p);
      StepKeepsLock(r, s, p, c);
      var rest := LeavesAlone(r, Step(r, s, p, c), p);
      schedule := [Move(p, c)] + rest;
      assert schedule[1..] == rest;
    }
  }

  /** From every state that a run without failing installs can reach, any process can still leave the loop:
      the one that holds the lock first, if any, and then this one. */
  lemma EveryProcessCanLeave(r: Regime, n: nat, before: seq<Move>, p: nat) returns (after: seq<Move>)
    requires !r.mayFail && Fits(before, n) && p < n
    ensures Fits(before + after, n) && Run(r, Start(n), before + after).pcs[p] == Left
  {
    RunKeepsInvariants(r, Start(n), before);
    var s, first := Run(r, Start(n), before), [];
    if !MayGoOn(s, p) {
      var h :| 0 <= h < n && Holds(s.pcs[h]);
      first := LeavesAlone(r, s, h);
    }
    var second := LeavesAlone(r, Run(r, s, first), p);
    after := first + second;
    RunSplits(r, s, first, second);
    RunSplits(r, Start(n), before, after);
  }

  // ---------------------------------------------------------------------------
  // Exactly when the guarantees hold
  // ---------------------------------------------------------------------------

  ghost predicate AlwaysExclusive(r: Regime, n: nat) {
    forall schedule :: Fits(schedule, n) ==> Exclusive(Run(r, Start(n), schedule))
  }

  ghost predicate AlwaysLeavesInstalled(r: Regime, n: nat) {
    forall schedule :: Fits(schedule, n) ==> LeavesOnlyInstalled(Run(r, Start(n), schedule))
  }

  lemma {:induction false} RunSplits(r: Regime, s: State, a: seq<Move>, b: seq<Move>)
    requires Fits(a, |s.pcs|) && Fits(b, |s.pcs|)
    ensures Fits(a + b, |s.pcs|) && Run(r, s, a + b) == Run(r, Run(r, s, a), b)
    decreases |a|
  {
    if a == [] {
      assert a + b == b;
    } else {
      var s1 := Step(r, s, a[0].p, a[0].c);
      RunSplits(r, s1, a[1..], b);
      assert (a + b)[1..] == a[1..] + b;
    }
  }

  /** One more move of `p`. */
  lemma Extend(r: Regime, s: State, before: seq<Move>, m: Move)
    requires Fits(before, |s.pcs|) && m.p < |s.pcs|
    ensures Fits(before + [m], |s.pcs|)
    ensures Run(r, s, before + [m]) == Step(r, Run(r, s, before), m.p, m.c)
  {
    RunSplits(r, s, before, [m]);
    var t := Run(r, s, before);
    assert Run(r, t, [m]) == Run(r, Step(r, t, m.p, m.c), []);
  }

  /** Folder and lock created apart: a newcomer meets a folder without a lock and goes on to boot. */
  lemma EarlyLeaveBetweenMkdirAndLock(mayFail: bool, n: nat) returns (schedule: seq<Move>)
    requires n >= 2
    ensures Fits(schedule, n)
    ensures !LeavesOnlyInstalled(Run(Regime(false, mayFail), Start(n), schedule))
  {
    var r := Regime(false, mayFail);
    schedule := [];
    var todo := [0, 0, 0, 1, 1];
    var s := Start(n);
    var i := 0;
    while i < 5
      invariant 0 <= i <= 5 && Fits(schedule, n)
      invariant s == Run(r, Start(n), schedule) && |s.pcs| == n
      invariant s.folder == (i >= 3) && !s.lock && !s.complete && !s.content
      invariant s.pcs[0] == [Entering, Testing, Making, Locking, Locking, Locking][i]
      invariant s.pcs[1] == [Entering, Entering, Entering, Entering, Waiting, Left][i]
    {
      var m := Move(todo[i], Succeed);
      Extend(r, Start(n), schedule, m);
      s := Step(r, s, m.p, m.c);
      schedule := schedule + [m];
      i := i + 1;
    }
  }

  /** A failed install removes its lock before its folder: a newcomer in between goes on to boot. */
  lemma EarlyLeaveAfterFailure(atomic: bool, n: nat) returns (schedule: seq<Move>)
    requires n >= 2
    ensures Fits(schedule, n)
    ensures !LeavesOnlyInstalled(Run(Regime(atomic, true), Start(n), schedule))
  {
    var r := Regime(atomic, true);
    var s := Start(n);
    schedule := [];
    s, schedule := Drive(r, n, s, schedule, 0);
    var path := [Installing, FailReleasing, FailRemoving];
    var i := 0;
    while i < 4
      invariant 0 <= i <= 4 && Fits(schedule, n)
      invariant s == Run(r, Start(n), schedule) && |s.pcs| == n
      invariant s.folder && s.lock == (i < 2) && !s.complete && !s.content
      invariant s.pcs[0] == path[if i < 2 then i else 2]
      invariant s.pcs[1] == (if i < 3 then Entering else if i == 3 then Waiting else Left)
    {
      var m := Move(if i < 2 then 0 else 1, Fail);
      Extend(r, Start(n), schedule, m);
      s := Step(r, s, m.p, m.c);
      schedule := schedule + [m];
      i := i + 1;
    }
  }

  /** Takes process `p` from the top of the loop into the install body of an untouched base. */
  lemma Drive(r: Regime, n: nat, s: State, before: seq<Move>, p: nat) returns (s': State, schedule: seq<Move>)
    requires p < n && Fits(before, n) && s == Run(r, Start(n), before) && |s.pcs| == n
    requires s.pcs[p] == Entering && !s.folder && !s.lock && !s.content
    ensures Fits(schedule, n) && s' == Run(r, Start(n), schedule)
    ensures s'.pcs == s.pcs[p := Installing] && s'.folder && s'.lock && !s'.content && s'.complete == s.complete
  {
    s', schedule := s, before;
    while s'.pcs[p] != Installing
      invariant Fits(schedule, n) && s' == Run(r, Start(n), schedule) && |s'.pcs| == n
      invariant s'.pcs == s.pcs[p := s'.pcs[p]] && !s'.content && s'.complete == s.complete
      invariant s'.pcs[p] in {Entering, Testing, Making, Locking, Inspecting, Installing}
      invariant s'.folder == (s'.pcs[p] in {Locking, Inspecting, Installing})
      invariant s'.lock == (s'.pcs[p] in {Inspecting, Installing})
      decreases match s'.pcs[p] case Entering => 5 case Testing => 4 case Making => 3 case Locking => 2 case Inspecting => 1 case _ => 0
    {
      var m := Move(p, Fail);
      Extend(r, Start(n), schedule, m);
      s' := Step(r, s', p, Fail);
      schedule := schedule + [m];
    }
  }

  /** Process 1 is about to create the folder while process 0 installs, fails and gives up its lock. */
  lemma FailWithBystander(r: Regime, n: nat) returns (s: State, schedule: seq<Move>)
    requires n >= 3 && r.mayFail
    ensures Fits(schedule, n) && s == Run(r, Start(n), schedule)
    ensures s.folder && !s.lock && !s.content && s.pcs == Start(n).pcs[1 := Making][0 := FailRemoving]
  {
    s, schedule := Start(n), [];
    var i := 0;
    while i < 2
      invariant 0 <= i <= 2 && Fits(schedule, n)
      invariant s == Run(r, Start(n), schedule) && |s.pcs| == n
      invariant !s.folder && !s.lock && !s.content
      invariant s.pcs == Start(n).pcs[1 := [Entering, Testing, Making][i]]
    {
      var m := Move(1, Fail);
      Extend(r, Start(n), schedule, m);
      s := Step(r, s, 1, Fail);
      schedule := schedule + [m];
      i := i + 1;
    }
    s, schedule := Drive(r, n, s, schedule, 0);
    i := 0;
    while i < 2
      invariant 0 <= i <= 2 && Fits(schedule, n)
      invariant s == Run(r, Start(n), schedule) && |s.pcs| == n
      invariant s.folder && s.lock == (i < 2) && !s.content
      invariant s.pcs == Start(n).pcs[1 := Making][0 := [Installing, FailReleasing, FailRemoving][i]]
    {
      var m := Move(0, Fail);
      Extend(r, Start(n), schedule, m);
      s := Step(r, s, 0, Fail);
      schedule := schedule + [m];
      i := i + 1;
    }
  }

  /** After a failure, the late removal of the folder takes a successor's lock with it, and a third
      process starts to install beside the second. */
  lemma TwoInstallersAfterFailure(atomic: bool, n: nat) returns (schedule: seq<Move>)
    requires n >= 3
    ensures Fits(schedule, n)
    ensures !Exclusive(Run(Regime(atomic, true), Start(n), schedule))
  {
    var r := Regime(atomic, true);
    var s;
    s, schedule := FailWithBystander(r, n);
    // Process 1 takes the lock over and installs.
    while s.pcs[1] != Installing
      invariant Fits(schedule, n)
      invariant s == Run(r, Start(n), schedule) && |s.pcs| == n
      invariant s.folder && !s.content && s.lock == (s.pcs[1] in {Inspecting, Installing})
      invariant s.pcs == Start(n).pcs[1 := s.pcs[1]][0 := FailRemoving]
      invariant s.pcs[1] in {Making, Locking, Inspecting, Installing}
      decreases match s.pcs[1] case Making => 3 case Locking => 2 case Inspecting => 1 case _ => 0
    {
      var m := Move(1, Fail);
      Extend(r, Start(n), schedule, m);
      s := Step(r, s, 1, Fail);
      schedule := schedule + [m];
    }
    // Process 0 removes the folder, lock included; process 2 finds nothing and installs as well.
    var m := Move(0, Fail);
    Extend(r, Start(n), schedule, m);
    s := Step(r, s, 0, Fail);
    schedule := schedule + [m];
    s, schedule := Drive(r, n, s, schedule, 2);
    assert s.pcs[1] == Installing && s.pcs[2] == Installing;
  }

  // Few processes

  /** From taking the lock to giving it up. */
  predicate Active(pc: Pc) {
    Holds(pc) || pc.FailReleasing? || pc.ErrReleasing?
  }

  /** On the way to the lock. */
  predicate Before(pc: Pc) {
    pc.Entering? || pc.Testing? || pc.Making? || pc.Locking?
  }

  /** Of two processes one at most is active, and the other cannot get past the lock as long as it is. */
  predicate PairSafe(a: Pc, b: Pc, lock: bool) {
    && !(Active(a) && Active(b))
    && (Active(a) && Before(b) ==> lock)
    && (Active(b) && Before(a) ==> lock)
  }

  /** What a step does to its process and the lock. */
  predicate Moves(pc: Pc, lock: bool, pc': Pc, lock': bool) {
    && (Active(pc') ==> Active(pc) || (Before(pc) && !lock && lock'))
    && (Before(pc') ==> Before(pc))
    && (lock && !lock' ==> (Active(pc) || pc.FailRemoving?) && !Active(pc') && !Before(pc'))
  }

  lemma ActMoves(r: Regime, s: State, pc: Pc, c: Choice)
    ensures Moves(pc, s.lock, Act(r, s, pc, c).1, Act(r, s, pc, c).0.lock)
  {
  }

  lemma PairMoves(a: Pc, b: Pc, lock: bool, a': Pc, lock': bool)
    requires PairSafe(a, b, lock) && Moves(a, lock, a', lock')
    ensures PairSafe(a', b, lock') && PairSafe(b, a', lock')
  {
  }

  lemma PairStep(r: Regime, s: State, p: nat, c: Choice)
    requires p < 2 == |s.pcs| && PairSafe(s.pcs[0], s.pcs[1], s.lock)
    ensures var s' := Step(r, s, p, c); |s'.pcs| == 2 && PairSafe(s'.pcs[0], s'.pcs[1], s'.lock)
  {
    var s' := Step(r, s, p, c);
    ActMoves(r, s, s.pcs[p], c);
    PairMoves(s.pcs[p], s.pcs[1 - p], s.lock, s'.pcs[p], s'.lock);
  }

  lemma {:induction false} RunKeepsPair(r: Regime, s: State, schedule: seq<Move>)
    requires |s.pcs| == 2 && PairSafe(s.pcs[0], s.pcs[1], s.lock) && Fits(schedule, 2)
    ensures var s' := Run(r, s, schedule); |s'.pcs| == 2 && PairSafe(s'.pcs[0], s'.pcs[1], s'.lock)
    decreases |schedule|
  {
    if schedule != [] {
      PairStep(r, s, schedule[0].p, schedule[0].c);
      RunKeepsPair(r, Step(r, s, schedule[0].p, schedule[0].c), schedule[1..]);
    }
  }

  /** A process that has the folder to itself. */
  ghost predicate LoneInv(s: State) {
    |s.pcs| == 1 &&
    match s.pcs[0]
    case Entering => !s.folder && !s.lock && !s.content
    case Testing => !s.folder && !s.lock && !s.content
    case Making => !s.folder && !s.lock && !s.content
    case Locking => s.folder && !s.lock && !s.content
    case Inspecting => s.folder && s.lock && !s.content
    case Installing => s.folder && s.lock
    case Releasing => s.complete
    case Waiting => s.complete
    case Left => s.complete
    case ErrReleasing => false
    case _ => true
  }

  lemma {:induction false} RunKeepsLone(r: Regime, s: State, schedule: seq<Move>)
    requires LoneInv(s) && Fits(schedule, 1)
    ensures LoneInv(Run(r, s, schedule))
    decreases |schedule|
  {
    if schedule != [] {
      RunKeepsLone(r, Step(r, s, schedule[0].p, schedule[0].c), schedule[1..]);
    }
  }

  /** Mutual exclusion of installs is guaranteed exactly when no install can fail or there are no more than
      two processes. */
  lemma ExclusiveExactlyWithoutFailures(r: Regime, n: nat)
    ensures AlwaysExclusive(r, n) <==> !r.mayFail || n <= 2
  {
    if r.mayFail && n > 2 {
      var bad := TwoInstallersAfterFailure(r.atomicCreate, n);
    } else {
      forall schedule | Fits(schedule, n) ensures Exclusive(Run(r, Start(n), schedule)) {
        if !r.mayFail {
          InstallsExclusivelyOnce(r, n, schedule);
        } else if n == 2 {
          RunKeepsPair(r, Start(n), schedule);
        }
      }
    }
  }

  /** Leaving the loop means an installed base exactly when no install can fail and nothing comes between
      creating the folder and creating the lock, or there is a single process. */
  lemma LeavesInstalledExactly(r: Regime, n: nat)
    ensures AlwaysLeavesInstalled(r, n) <==> (r.atomicCreate && !r.mayFail) || n <= 1
  {
    if n > 1 && r.mayFail {
      var bad := EarlyLeaveAfterFailure(r.atomicCreate, n);
    } else if n > 1 && !r.atomicCreate {
      var bad := EarlyLeaveBetweenMkdirAndLock(r.mayFail, n);
    } else {
      forall schedule | Fits(schedule, n) ensures LeavesOnlyInstalled(Run(r, Start(n), schedule)) {
        if n > 1 {
          RunKeepsInvariants(r, Start(n), schedule);
        } else if n == 1 {
          RunKeepsLone(r, Start(n), schedule);
        }
      }
    }
  }
}
