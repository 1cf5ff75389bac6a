/**
 Power actions and resets competing for one server's power lock (daemon/server/power.go). Each
 request runs in its own thread; every access to the lock and every environment or overlay
 operation is one step, and the steps of the threads interleave freely. The lock may be destroyed
 at any time at which nobody is blocked waiting for it, also before a request comes to it.
 */
module PowerLock {
  import opened Wrappers
  import opened Locker

  datatype Action = Start | Stop | Restart | Kill | Pause | Unpause

  /** Actions that must have the lock; the others go on without it. */
  predicate NeedsLock(a: Action) {
    a in {Start, Stop, Restart}
  }

  datatype Pc =
    | Acquiring(action: Action, blocking: bool)  // HandlePowerAction: comes to the lock
    | Waiting(action: Action)                    // TryAcquire: blocked at the channel
    | Body(action: Action, held: bool)           // carrying out the action
    | Unlocking                                  // the deferred release
    | Checking                                   // HandleReset: IsRunning
    | ResetAcquiring
    | ResetStopping                              // Environment.Stop
    | ResetWaiting                               // Environment.WaitForStop
    | Resetting(locked: bool)                    // Overlay().Reset
    | ResetUnlocking(restart: bool)              // Release, then start again or return
    | Done

  /** `acquired` and `released` count the thread's successful acquisitions and its releases. */
  datatype Thread = Thread(pc: Pc, acquired: nat, released: nat)

  /** `owner` is the thread whose token is in the channel. */
  datatype State = State(ch: Channel, owner: Option<nat>, threads: seq<Thread>)

  /** What one step does: a thread moves, its operation succeeding or not; the check whether the server is
      running fails; or the lock is destroyed. */
  datatype Move = Go(t: nat, ok: bool) | CheckFails(t: nat) | Destroy

  /** What a step does to the lock: nothing, put the thread's token into the channel, or empty it. */
  datatype Access = Leave | Take | Drop

  /** A step of a thread at `pc`, and where it goes from there. */
  function Act(ch: Channel, pc: Pc, ok: bool): (Access, Pc) {
    var free := Acquired(ch).1;
    match pc
    case Acquiring(a, blocking) =>
      if blocking && NeedsLock(a) then
        // TryAcquire: succeeds only on a free slot, gives up when its time is over.
        if !ok then (Leave, Done) else if free then (Take, Body(a, true)) else (Leave, Waiting(a))
      else if free then (Take, Body(a, true))
      else (Leave, if NeedsLock(a) then Done else Body(a, false))
    case Waiting(a) => if !ok then (Leave, Done) else if free then (Take, Body(a, true)) else (Leave, pc)
    case Body(_, held) => (Leave, if held then Unlocking else Done)
    case Unlocking => (Drop, Done)
    case Checking => (Leave, if ok then ResetAcquiring else Resetting(false))
    case ResetAcquiring => if free then (Take, ResetStopping) else (Leave, Done)
    case ResetStopping => (Leave, if ok then ResetWaiting else ResetUnlocking(false))
    case ResetWaiting => (Leave, if ok then Resetting(true) else ResetUnlocking(false))
    case Resetting(locked) => (Leave, if locked then ResetUnlocking(ok) else Done)
    case ResetUnlocking(restart) => (Drop, if restart then Acquiring(Start, false) else Done)
    case Done => (Leave, Done)
  }

  /** The thread goes to `pc`; a release empties the channel, whoever filled it. */
  function Goto(s: State, t: nat, access: Access, pc: Pc): State
    requires t < |s.threads|
  {
    var th := s.threads[t];
    match access
    case Leave => s.(threads := s.threads[t := th.(pc := pc)])
    case Take => State(Open(true), Some(t), s.threads[t := Thread(pc, th.acquired + 1, th.released)])
    case Drop => State(Released(s.ch), None, s.threads[t := Thread(pc, th.acquired, th.released + 1)])
  }

  predicate SomebodyWaits(threads: seq<Thread>) {
    exists t :: 0 <= t < |threads| && threads[t].pc.Waiting?
  }

  function Step(s: State, m: Move): State
    requires m.Destroy? || m.t < |s.threads|
  {
    match m
    case Destroy => if SomebodyWaits(s.threads) then s else s.(ch := Nil, owner := None)
    case CheckFails(t) => if s.threads[t].pc == Checking then Goto(s, t, Leave, Done) else s
    case Go(t, ok) =>
      var (access, pc) := Act(s.ch, s.threads[t].pc, ok);
      Goto(s, t, access, pc)
  }

  predicate Fits(moves: seq<Move>, n: nat) {
    forall i :: 0 <= i < |moves| && !moves[i].Destroy? ==> moves[i].t < n
  }

  function Run(s: State, moves: seq<Move>): (s': State)
    requires Fits(moves, |s.threads|)
    ensures |s'.threads| == |s.threads|
    decreases |moves|
  {
    if moves == [] then s else Run(Step(s, moves[0]), moves[1..])
  }

  /** A request as it comes in: a power action, with or without waiting for the lock, or a reset. */
  ghost predicate Fresh(th: Thread) {
    (th.pc.Acquiring? || th.pc == Checking) && th.acquired == 0 && th.released == 0
  }

  ghost predicate Initial(s: State) {
    s.ch == Open(false) && s.owner == None && forall t :: 0 <= t < |s.threads| ==> Fresh(s.threads[t])
  }

  // ---------------------------------------------------------------------------
  // The invariant
  // ---------------------------------------------------------------------------

  predicate Holds(pc: Pc) {
    match pc
    case Body(_, held) => held
    case Resetting(locked) => locked
    case Unlocking => true
    case ResetStopping => true
    case ResetWaiting => true
    case ResetUnlocking(_) => true
    case _ => false
  }

  /** The thread is, or is about to be, carrying out an action without the lock. */
  predicate Lockless(pc: Pc) {
    (pc.Acquiring? && !NeedsLock(pc.action)) || (pc.Body? && !pc.held)
  }

  ghost predicate ThreadInv(th: Thread) {
    && th.acquired == th.released + (if Holds(th.pc) then 1 else 0)
    && (th.pc.Body? && NeedsLock(th.pc.action) ==> th.pc.held)
    && (Lockless(th.pc) ==> th.acquired == 0 && th.released == 0)
  }

  ghost predicate LockInv(s: State) {
    && (forall t, u :: 0 <= t < u < |s.threads| ==> !(Holds(s.threads[t].pc) && Holds(s.threads[u].pc)))
    && (s.ch.Open? ==> forall t :: 0 <= t < |s.threads| ==> (Holds(s.threads[t].pc) <==> s.owner == Some(t)))
    && (s.ch.Open? ==> (s.ch.full <==> s.owner.Some?))
    && (s.ch.Nil? ==> s.owner == None)
    && (s.owner.Some? ==> s.owner.value < |s.threads|)
  }

  ghost predicate Inv(s: State) {
    (forall t :: 0 <= t < |s.threads| ==> ThreadInv(s.threads[t])) && LockInv(s)
  }

  /** A step changes no thread but its own. */
  lemma StepIsLocal(s: State, m: Move, u: nat)
    requires (m.Destroy? || m.t < |s.threads|) && u < |s.threads| && (m.Destroy? || u != m.t)
    ensures Step(s, m).threads[u] == s.threads[u]
  {
  }

  lemma StepKeepsThread(s: State, m: Move)
    requires !m.Destroy? && m.t < |s.threads| && ThreadInv(s.threads[m.t])
    ensures ThreadInv(Step(s, m).threads[m.t])
  {
  }

  /** A thread takes the lock only if it is free, drops it only if it holds it, and otherwise keeps standing
      to it as it did. */
  predicate Proper(ch: Channel, held: bool, access: Access, holds: bool) {
    match access
    case Leave => held == holds
    case Take => Acquired(ch).1 && holds
    case Drop => held && !holds
  }

  lemma ActIsProper(ch: Channel, pc: Pc, ok: bool)
    ensures Proper(ch, Holds(pc), Act(ch, pc, ok).0, Holds(Act(ch, pc, ok).1))
  {
  }

  lemma GotoKeepsLockInv(s: State, t: nat, access: Access, pc: Pc)
    requires LockInv(s) && t < |s.threads| && Proper(s.ch, Holds(s.threads[t].pc), access, Holds(pc))
    ensures LockInv(Goto(s, t, access, pc))
  {
  }

  lemma StepKeepsLockInv(s: State, m: Move)
    requires LockInv(s) && (m.Destroy? || m.t < |s.threads|)
    ensures LockInv(Step(s, m))
  {
    match m
    case Destroy =>
    case CheckFails(t) =>
      if s.threads[t].pc == Checking {
        GotoKeepsLockInv(s, t, Leave, Done);
      }
    case Go(t, ok) =>
      var (access, pc) := Act(s.ch, s.threads[t].pc, ok);
      ActIsProper(s.ch, s.threads[t].pc, ok);
      GotoKeepsLockInv(s, t, access, pc);
  }

  lemma StepKeepsInv(s: State, m: Move)
    requires Inv(s) && (m.Destroy? || m.t < |s.threads|)
    ensures Inv(Step(s, m))
  {
    StepKeepsLockInv(s, m);
    forall u | 0 <= u < |s.threads| ensures ThreadInv(Step(s, m).threads[u]) {
      if m.Destroy? || u != m.t {
        StepIsLocal(s, m, u);
      } else {
        StepKeepsThread(s, m);
      }
    }
  }

  lemma {:induction false} RunKeepsInv(s: State, moves: seq<Move>)
    requires Inv(s) && Fits(moves, |s.threads|)
    ensures Inv(Run(s, moves))
    decreases |moves|
  {
    if moves != [] {
      StepKeepsInv(s, moves[0]);
      RunKeepsInv(Step(s, moves[0]), moves[1..]);
    }
  }

  // ---------------------------------------------------------------------------
  // Main results
  // ---------------------------------------------------------------------------

  /** A start, stop or restart is being carried out. */
  predicate InPowerBody(th: Thread) {
    th.pc.Body? && NeedsLock(th.pc.action)
  }

  /** The overlay is being reset or the server stopped for it, under the lock. */
  predicate InLockedReset(th: Thread) {
    th.pc in {ResetStopping, ResetWaiting, Resetting(true)}
  }

  predicate Releasing(th: Thread) {
    th.pc == Unlocking || th.pc.ResetUnlocking?
  }

  /** How often a request that began at `start` has acquired and released the lock by now. A reset does both
      at most once, and the start after it once more. */
  predicate Counts(start: Pc, th: Thread) {
    var (a, r) := (th.acquired, th.released);
    if start == Checking then
      match th.pc
      case Checking => a == r == 0
      case ResetAcquiring => a == r == 0
      case Resetting(locked) => a == (if locked then 1 else 0) && r == 0
      case ResetStopping => a == 1 && r == 0
      case ResetWaiting => a == 1 && r == 0
      case ResetUnlocking(_) => a == 1 && r == 0
      case Acquiring(action, blocking) => action == Start && !blocking && a == r == 1
      case Waiting(_) => false
      case Body(action, held) => action == Start && held && a == 2 && r == 1
      case Unlocking => a == 2 && r == 1
      case Done => a == r <= 2
    else
      match th.pc
      case Acquiring(_, _) => a == r == 0
      case Waiting(_) => a == r == 0
      case Body(_, held) => a == (if held then 1 else 0) && r == 0
      case Unlocking => a == 1 && r == 0
      case Done => a == r <= 1
      case _ => false
  }

  lemma {:induction false} RunCounts(s: State, moves: seq<Move>, t: nat, start: Pc)
    requires Fits(moves, |s.threads|) && t < |s.threads| && Counts(start, s.threads[t])
    ensures Counts(start, Run(s, moves).threads[t])
    decreases |moves|
  {
    if moves != [] {
      StepCounts(s, moves[0], t, start);
      RunCounts(Step(s, moves[0]), moves[1..], t, start);
    }
  }

  lemma StepCounts(s: State, m: Move, t: nat, start: Pc)
    requires (m.Destroy? || m.t < |s.threads|) && t < |s.threads| && Counts(start, s.threads[t])
    ensures Counts(start, Step(s, m).threads[t])
  {
    if m.Destroy? || m.t != t {
      StepIsLocal(s, m, t);
    }
  }

  lemma InvMeans(r: State)
    requires Inv(r)
    ensures forall t, u :: 0 <= t < u < |r.threads| ==>
              !((InPowerBody(r.threads[t]) || InLockedReset(r.threads[t]))
                && (InPowerBody(r.threads[u]) || InLockedReset(r.threads[u])))
    ensures forall t :: 0 <= t < |r.threads| && Releasing(r.threads[t]) && r.ch.Open? ==> r.ch.full && r.owner == Some(t)
    ensures forall t :: 0 <= t < |r.threads| && r.threads[t].pc.Body? && !r.threads[t].pc.held
                        ==> r.threads[t].acquired == 0 && r.threads[t].released == 0
    ensures forall t :: 0 <= t < |r.threads| && (r.threads[t].pc == Done || r.threads[t].pc.Acquiring? || r.threads[t].pc.Waiting?)
                        ==> r.threads[t].acquired == r.threads[t].released
  {
    forall t | 0 <= t < |r.threads| ensures ThreadInv(r.threads[t]) {}
    forall t, u | 0 <= t < u < |r.threads|
      ensures !((InPowerBody(r.threads[t]) || InLockedReset(r.threads[t]))
                && (InPowerBody(r.threads[u]) || InLockedReset(r.threads[u])))
    {
      assert !(Holds(r.threads[t].pc) && Holds(r.threads[u].pc));
    }
  }

  /**
   In every state any number of requests can reach, in any interleaving:
   at most one start, stop or restart, or locked reset, is being carried out;
   a thread about to release is the one whose token is in the channel, unless the lock is destroyed;
   in each phase a request has acquired and released the lock exactly as often as `Counts` says: a kill,
   pause or unpause that goes ahead without the lock never does either; a reset that has acquired it has
   done so once, and has released it exactly once when it goes on to start the server.
   */
  lemma LockDiscipline(s: State, moves: seq<Move>)
    requires Initial(s) && Fits(moves, |s.threads|)
    ensures var r := Run(s, moves);
            && (forall t, u :: 0 <= t < u < |r.threads| ==>
                  !((InPowerBody(r.threads[t]) || InLockedReset(r.threads[t]))
                    && (InPowerBody(r.threads[u]) || InLockedReset(r.threads[u]))))
            && (forall t :: 0 <= t < |r.threads| && Releasing(r.threads[t]) && r.ch.Open? ==> r.ch.full && r.owner == Some(t))
            && (forall t :: 0 <= t < |r.threads| && r.threads[t].pc.Body? && !r.threads[t].pc.held
                            ==> r.threads[t].acquired == 0 && r.threads[t].released == 0)
            && (forall t :: 0 <= t < |r.threads| && (r.threads[t].pc == Done || r.threads[t].pc.Acquiring? || r.threads[t].pc.Waiting?)
                            ==> r.threads[t].acquired == r.threads[t].released)
            && (forall t :: 0 <= t < |r.threads| ==> Counts(s.threads[t].pc, r.threads[t]))
  {
    RunKeepsInv(s, moves);
    var r := Run(s, moves);
    InvMeans(r);
    forall t | 0 <= t < |r.threads| ensures Counts(s.threads[t].pc, r.threads[t]) {
      assert Fresh(s.threads[t]);
      RunCounts(s, moves, t, s.threads[t].pc);
    }
  }

  /** Once the lock is destroyed it stays so, and no thread ever acquires it again. */
  lemma {:induction false} NoAcquireAfterDestroy(s: State, moves: seq<Move>)
    requires s.ch == Nil && Fits(moves, |s.threads|)
    ensures var r := Run(s, moves);
            r.ch == Nil && forall t :: 0 <= t < |s.threads| ==> r.threads[t].acquired == s.threads[t].acquired
    decreases |moves|
  {
    if moves != [] {
      var s' := Step(s, moves[0]);
      assert s'.ch == Nil && forall t :: 0 <= t < |s.threads| ==> s'.threads[t].acquired == s.threads[t].acquired;
      NoAcquireAfterDestroy(s', moves[1..]);
    }
  }

  /** A kill, pause or unpause that went ahead without the lock never releases, then or later. */
  lemma {:induction false} LocklessNeverReleases(s: State, moves: seq<Move>, t: nat)
    requires Fits(moves, |s.threads|) && t < |s.threads| && s.threads[t].released == 0
    requires s.threads[t].pc == Done || (s.threads[t].pc.Body? && !s.threads[t].pc.held)
    ensures Run(s, moves).threads[t].released == 0
    decreases |moves|
  {
    if moves != [] {
      if moves[0].Destroy? || moves[0].t != t {
        StepIsLocal(s, moves[0], t);
      }
      LocklessNeverReleases(Step(s, moves[0]), moves[1..], t);
    }
  }

  predicate NobodyWaits(s: State) {
    forall t :: 0 <= t < |s.threads| ==> !s.threads[t].pc.Waiting?
  }

  /** Destroying the lock while nobody waits disturbs no request, and from then on none acquires it; while somebody
      waits it is not among the steps. */
  lemma DestroyedForGood(s: State, moves: seq<Move>)
    requires Fits(moves, |s.threads|)
    ensures Step(s, Destroy).threads == s.threads && (!NobodyWaits(s) ==> Step(s, Destroy) == s)
    ensures NobodyWaits(s) ==>
            var r := Run(Step(s, Destroy), moves);
            r.ch == Nil && forall t :: 0 <= t < |s.threads| ==> r.threads[t].acquired == s.threads[t].acquired
  {
    if NobodyWaits(s) {
      NoAcquireAfterDestroy(Step(s, Destroy), moves);
    }
  }

  // ---------------------------------------------------------------------------
  // The course of a reset
  // ---------------------------------------------------------------------------

  /** The operation under way is the stop, the wait for it, or the reset of the overlay under the lock. */
  predicate CanFail(pc: Pc) {
    pc in {ResetStopping, ResetWaiting, Resetting(true)}
  }

  /** A reset whose stop, wait or overlay reset fails does nothing more but release the lock, once, and end:
      it neither goes on with the reset nor starts the server. */
  lemma {:induction false} FailedResetEnds(s: State, t: nat, moves: seq<Move>)
    requires t < |s.threads| && Fits(moves, |s.threads|) && CanFail(s.threads[t].pc)
    ensures var before, r := s.threads[t], Run(Step(s, Go(t, false)), moves).threads[t];
            && !InReset(r) && !InPowerBody(r) && r.acquired == before.acquired
            && (if r.pc == Done then r.released == before.released + 1 else Releasing(r) && r.released == before.released)
  {
    OnlyReleases(Step(s, Go(t, false)), t, moves);
  }

  lemma {:induction false} OnlyReleases(s: State, t: nat, moves: seq<Move>)
    requires t < |s.threads| && Fits(moves, |s.threads|) && s.threads[t].pc in {ResetUnlocking(false), Done}
    ensures var before, r := s.threads[t], Run(s, moves).threads[t];
            && r.pc in {ResetUnlocking(false), Done} && r.acquired == before.acquired
            && r.released == before.released + (if before.pc != Done && r.pc == Done then 1 else 0)
            && (before.pc == Done ==> r.pc == Done)
    decreases |moves|
  {
    if moves != [] {
      if moves[0].Destroy? || moves[0].t != t {
        StepIsLocal(s, moves[0], t);
      }
      OnlyReleases(Step(s, moves[0]), t, moves[1..]);
    }
  }

  /** A reset that works without the lock never takes it, and never starts the server. */
  lemma {:induction false} UnlockedResetEnds(s: State, t: nat, moves: seq<Move>)
    requires t < |s.threads| && Fits(moves, |s.threads|) && s.threads[t].pc in {Resetting(false), Done}
    ensures var r := Run(s, moves).threads[t];
            r.pc in {Resetting(false), Done} && r.acquired == s.threads[t].acquired && r.released == s.threads[t].released
    decreases |moves|
  {
    if moves != [] {
      if moves[0].Destroy? || moves[0].t != t {
        StepIsLocal(s, moves[0], t);
      }
      UnlockedResetEnds(Step(s, moves[0]), t, moves[1..]);
    }
  }

  /** A reset that cannot tell whether the server is running, or does not get the lock, ends at once. */
  lemma ResetGivesUp(s: State, t: nat, ok: bool)
    requires t < |s.threads|
    ensures s.threads[t].pc == Checking ==> Step(s, CheckFails(t)) == s.(threads := s.threads[t := s.threads[t].(pc := Done)])
    ensures s.threads[t].pc == ResetAcquiring && s.ch != Open(false) ==>
              Step(s, Go(t, ok)) == s.(threads := s.threads[t := s.threads[t].(pc := Done)])
  {
  }

  /** Thread `t` has made its moves at `pcs`, in that order, each with success. */
  ghost predicate Went(s: State, moves: seq<Move>, t: nat, pcs: seq<Pc>)
    requires Fits(moves, |s.threads|) && t < |s.threads|
    decreases |pcs|
  {
    pcs == [] || exists i :: 0 <= i < |moves| && WentLast(s, moves, t, pcs, i)
  }

  ghost predicate WentLast(s: State, moves: seq<Move>, t: nat, pcs: seq<Pc>, i: nat)
    requires Fits(moves, |s.threads|) && t < |s.threads| && pcs != [] && i < |moves|
    decreases |pcs|, 0
  {
    moves[i] == Go(t, true) && Run(s, moves[..i]).threads[t].pc == pcs[|pcs| - 1]
    && Went(s, moves[..i], t, pcs[..|pcs| - 1])
  }

  lemma {:induction false} RunThen(s: State, moves: seq<Move>, m: Move)
    requires Fits(moves, |s.threads|) && (m.Destroy? || m.t < |s.threads|)
    ensures Fits(moves + [m], |s.threads|) && Run(s, moves + [m]) == Step(Run(s, moves), m)
    decreases |moves|
  {
    if moves == [] {
      assert moves + [m] == [m] && [m][1..] == [];
    } else {
      RunThen(Step(s, moves[0]), moves[1..], m);
      assert (moves + [m])[1..] == moves[1..] + [m];
    }
  }

  lemma WentOn(s: State, moves: seq<Move>, m: Move, t: nat, pcs: seq<Pc>)
    requires Fits(moves + [m], |s.threads|) && Fits(moves, |s.threads|) && t < |s.threads| && Went(s, moves, t, pcs)
    ensures Went(s, moves + [m], t, pcs)
    ensures m == Go(t, true) ==> Went(s, moves + [m], t, pcs + [Run(s, moves).threads[t].pc])
  {
    var more := moves + [m];
    if pcs != [] {
      var i :| 0 <= i < |moves| && WentLast(s, moves, t, pcs, i);
      assert more[..i] == moves[..i] && WentLast(s, more, t, pcs, i);
    }
    if m == Go(t, true) {
      var pc := Run(s, moves).threads[t].pc;
      assert more[..|moves|] == moves && (pcs + [pc])[..|pcs|] == pcs;
      assert WentLast(s, more, t, pcs + [pc], |moves|);
    }
  }

  /** What a request that began as a reset has behind it. */
  function Behind(pc: Pc): seq<Pc> {
    match pc
    case ResetAcquiring => [Checking]
    case ResetStopping => [Checking]
    case ResetWaiting => [Checking, ResetStopping]
    case Resetting(locked) => if locked then [Checking, ResetStopping, ResetWaiting] else []
    case ResetUnlocking(restart) => if restart then [Checking, ResetStopping, ResetWaiting, Resetting(true)] else []
    case Acquiring(_, _) => [Checking, ResetStopping, ResetWaiting, Resetting(true)]
    case Body(_, _) => [Checking, ResetStopping, ResetWaiting, Resetting(true)]
    case Unlocking => [Checking, ResetStopping, ResetWaiting, Resetting(true)]
    case _ => []
  }

  /** A reset resets the overlay under the lock only after it found the server running, stopped it and waited for
      it, each with success and in this order; and it goes on to start the server only if the overlay reset
      succeeded as well. */
  lemma {:induction false} ResetGoesInOrder(s: State, moves: seq<Move>, t: nat)
    requires Initial(s) && Fits(moves, |s.threads|) && t < |s.threads| && s.threads[t].pc == Checking
    ensures Went(s, moves, t, Behind(Run(s, moves).threads[t].pc))
    decreases |moves|
  {
    if moves != [] {
      var n := |moves| - 1;
      var before, m := moves[..n], moves[n];
      assert before + [m] == moves;
      ResetGoesInOrder(s, before, t);
      RunThen(s, before, m);
      var r := Run(s, before);
      WentOn(s, before, m, t, Behind(r.threads[t].pc));
      RunCounts(s, before, t, Checking);
      if m.Destroy? || m.t != t {
        StepIsLocal(r, m, t);
      } else {
        BehindGrows(r, m);
      }
    }
  }

  /** What is behind a thread after a step of its own: what was, and after a success the step itself. */
  lemma BehindGrows(s: State, m: Move)
    requires !m.Destroy? && m.t < |s.threads| && Counts(Checking, s.threads[m.t])
    ensures var pc, pc' := s.threads[m.t].pc, Step(s, m).threads[m.t].pc;
            Behind(pc') == Behind(pc) || Behind(pc') == [] || (m == Go(m.t, true) && Behind(pc') == Behind(pc) + [pc])
  {
  }

  // ---------------------------------------------------------------------------
  // Resets and power actions
  // ---------------------------------------------------------------------------

  /** A reset is at work, with or without the lock. */
  predicate InReset(th: Thread) {
    InLockedReset(th) || th.pc == Resetting(false)
  }

  /** A reset and a start, stop or restart are being carried out at the same time. */
  ghost predicate Overlap(s: State, t: nat, u: nat)
    requires t < |s.threads| && u < |s.threads|
  {
    t != u && InReset(s.threads[t]) && InPowerBody(s.threads[u])
  }

  ghost predicate Apart(s: State) {
    forall t, u :: 0 <= t < |s.threads| && 0 <= u < |s.threads| ==> !Overlap(s, t, u)
  }

  /** In every reachable state a reset overlaps another request's start, stop or restart exactly if it
      goes on without the lock, because the server was not running when it looked. */
  lemma OverlapIsLockless(s: State, moves: seq<Move>, t: nat, u: nat)
    requires Initial(s) && Fits(moves, |s.threads|) && t < |s.threads| && u < |s.threads|
    ensures var r := Run(s, moves);
            Overlap(r, t, u) <==> r.threads[t].pc == Resetting(false) && InPowerBody(r.threads[u])
  {
    LockDiscipline(s, moves);
  }

  /** The step in which a reset finds the server not running. */
  predicate FindsStopped(s: State, m: Move)
    requires m.Destroy? || m.t < |s.threads|
  {
    m.Go? && !m.ok && s.threads[m.t].pc == Checking
  }

  predicate NeverFindsStopped(s: State, moves: seq<Move>)
    requires Fits(moves, |s.threads|)
    decreases |moves|
  {
    moves == [] || (!FindsStopped(s, moves[0]) && NeverFindsStopped(Step(s, moves[0]), moves[1..]))
  }

  lemma {:induction false} LockedIfNeverStopped(s: State, moves: seq<Move>, t: nat)
    requires Fits(moves, |s.threads|) && NeverFindsStopped(s, moves)
    requires t < |s.threads| && s.threads[t].pc != Resetting(false)
    ensures Run(s, moves).threads[t].pc != Resetting(false)
    decreases |moves|
  {
    if moves != [] {
      if moves[0].Destroy? || moves[0].t != t {
        StepIsLocal(s, moves[0], t);
      }
      LockedIfNeverStopped(Step(s, moves[0]), moves[1..], t);
    }
  }

  /** Over all runs of `n` requests; `mayBeStopped` says whether a reset may find the server not running. */
  ghost predicate AlwaysApart(mayBeStopped: bool, n: nat) {
    forall s, moves :: Initial(s) && |s.threads| == n && Fits(moves, n) && (mayBeStopped || NeverFindsStopped(s, moves))
                       ==> Apart(Run(s, moves))
  }

  /** The request, undisturbed and with the lock free or its own, is on its way into a start, stop or restart. */
  predicate HeadsForPower(s: State, u: nat)
    requires u < |s.threads|
  {
    match s.threads[u].pc
    case Checking => s.ch == Open(false)
    case ResetAcquiring => s.ch == Open(false)
    case Acquiring(a, _) => NeedsLock(a) && s.ch == Open(false)
    case Waiting(a) => NeedsLock(a) && s.ch == Open(false)
    case Body(a, _) => NeedsLock(a)
    case ResetStopping => s.ch == Open(true)
    case ResetWaiting => s.ch == Open(true)
    case Resetting(locked) => locked && s.ch == Open(true)
    case ResetUnlocking(restart) => restart && s.ch == Open(true)
    case _ => false
  }

  lemma {:induction false} ReachPower(s: State, u: nat) returns (moves: seq<Move>)
    requires u < |s.threads| && HeadsForPower(s, u)
    ensures Fits(moves, |s.threads|) && InPowerBody(Run(s, moves).threads[u])
    ensures forall t :: 0 <= t < |s.threads| && t != u ==> Run(s, moves).threads[t] == s.threads[t]
    decreases StepsLeft(s.threads[u].pc)
  {
    if s.threads[u].pc.Body? {
      moves := [];
    } else {
      var m := Go(u, true);
      var rest := ReachPower(Step(s, m), u);
      moves := [m] + rest;
      assert moves[1..] == rest;
    }
  }

  /** A request that ends in a start, stop or restart: one that asks for it, or a reset, which starts the
      server again. */
  predicate ComesToPower(pc: Pc) {
    pc == Checking || (pc.Acquiring? && NeedsLock(pc.action))
  }

  /** A reset that finds the server not running, and another request that then takes the free lock. */
  lemma UnlockedResetMeetsStart(s: State, t: nat, u: nat) returns (moves: seq<Move>)
    requires Initial(s) && t < |s.threads| && u < |s.threads| && t != u
    requires s.threads[t].pc == Checking && ComesToPower(s.threads[u].pc)
    ensures Fits(moves, |s.threads|) && Overlap(Run(s, moves), t, u)
  {
    var m := Go(t, false);
    var rest := ReachPower(Step(s, m), u);
    moves := [m] + rest;
    assert moves[1..] == rest;
  }

  /** Resets and power actions are always kept apart exactly if no reset finds the server not running, or
      there is only one request. */
  lemma ApartExactlyWhenNeverStopped(mayBeStopped: bool, n: nat)
    ensures AlwaysApart(mayBeStopped, n) <==> !mayBeStopped || n <= 1
  {
    if mayBeStopped && n > 1 {
      var threads := seq(n, i => if i == 0 then Thread(Checking, 0, 0) else Thread(Acquiring(Start, false), 0, 0));
      var s := State(Open(false), None, threads);
      var moves := UnlockedResetMeetsStart(s, 0, 1);
      assert !Apart(Run(s, moves));
    } else {
      forall s, moves | Initial(s) && |s.threads| == n && Fits(moves, n) && (mayBeStopped || NeverFindsStopped(s, moves))
        ensures Apart(Run(s, moves))
      {
        forall t, u | 0 <= t < n && 0 <= u < n && t != u ensures !Overlap(Run(s, moves), t, u) {
          assert Fresh(s.threads[t]);
          LockedIfNeverStopped(s, moves, t);
          OverlapIsLockless(s, moves, t, u);
        }
      }
    }
  }

  /** Where a request for the action `a` can be. */
  predicate PursuesAction(a: Action, pc: Pc) {
    match pc
    case Acquiring(b, _) => b == a
    case Waiting(b) => b == a
    case Body(b, _) => b == a
    case Unlocking => true
    case Done => true
    case _ => false
  }

  lemma {:induction false} RunPursuesAction(s: State, moves: seq<Move>, t: nat, a: Action)
    requires Fits(moves, |s.threads|) && t < |s.threads| && PursuesAction(a, s.threads[t].pc)
    ensures PursuesAction(a, Run(s, moves).threads[t].pc)
    decreases |moves|
  {
    if moves != [] {
      if moves[0].Destroy? || moves[0].t != t {
        StepIsLocal(s, moves[0], t);
      }
      RunPursuesAction(Step(s, moves[0]), moves[1..], t, a);
    }
  }

  ghost predicate ApartFrom(s: State) {
    forall moves :: Fits(moves, |s.threads|) ==> Apart(Run(s, moves))
  }

  /** One request is a reset and another one a start, stop, restart or reset. */
  ghost predicate CanMeet(s: State) {
    exists t, u :: 0 <= t < |s.threads| && 0 <= u < |s.threads| && t != u
                   && s.threads[t].pc == Checking && ComesToPower(s.threads[u].pc)
  }

  lemma MeetingRequests(s: State, moves: seq<Move>, t: nat, u: nat)
    requires Initial(s) && Fits(moves, |s.threads|) && t < |s.threads| && u < |s.threads| && Overlap(Run(s, moves), t, u)
    ensures s.threads[t].pc == Checking && ComesToPower(s.threads[u].pc)
  {
    OverlapIsLockless(s, moves, t, u);
    assert Fresh(s.threads[t]) && Fresh(s.threads[u]);
    if s.threads[t].pc.Acquiring? {
      RunPursuesAction(s, moves, t, s.threads[t].pc.action);
    }
    if s.threads[u].pc.Acquiring? {
      RunPursuesAction(s, moves, u, s.threads[u].pc.action);
    }
  }

  /** For the requests at hand: some run overlaps a reset with a start, stop or restart exactly if one of
      them is a reset and another one is a start, stop, restart or reset. */
  lemma ApartExactlyByRequests(s: State)
    requires Initial(s)
    ensures ApartFrom(s) <==> !CanMeet(s)
  {
    if CanMeet(s) {
      var t, u :| 0 <= t < |s.threads| && 0 <= u < |s.threads| && t != u
                  && s.threads[t].pc == Checking && ComesToPower(s.threads[u].pc);
      var moves := UnlockedResetMeetsStart(s, t, u);
      assert !Apart(Run(s, moves));
    } else {
      forall moves | Fits(moves, |s.threads|) ensures Apart(Run(s, moves)) {
        forall t, u | 0 <= t < |s.threads| && 0 <= u < |s.threads| ensures !Overlap(Run(s, moves), t, u) {
          if Overlap(Run(s, moves), t, u) {
            MeetingRequests(s, moves, t, u);
          }
        }
      }
    }
  }

  /** Two resets at work at the same time. */
  ghost predicate ResetsMeet(s: State, t: nat, u: nat)
    requires t < |s.threads| && u < |s.threads|
  {
    t != u && InReset(s.threads[t]) && InReset(s.threads[u])
  }

  /** In every reachable state two resets are at work at once exactly if one of them goes on without the
      lock beside the other one. */
  lemma ResetsMeetLockless(s: State, moves: seq<Move>, t: nat, u: nat)
    requires Initial(s) && Fits(moves, |s.threads|) && t < |s.threads| && u < |s.threads|
    ensures var r := Run(s, moves);
            ResetsMeet(r, t, u)
            <==> || (t != u && r.threads[t].pc == Resetting(false) && InReset(r.threads[u]))
                 || (t != u && InReset(r.threads[t]) && r.threads[u].pc == Resetting(false))
  {
    LockDiscipline(s, moves);
  }

  ghost predicate ResetsApart(s: State) {
    forall t, u :: 0 <= t < |s.threads| && 0 <= u < |s.threads| ==> !ResetsMeet(s, t, u)
  }

  ghost predicate ResetsApartFrom(s: State) {
    forall moves :: Fits(moves, |s.threads|) ==> ResetsApart(Run(s, moves))
  }

  /** For the requests at hand: in some run two resets are at work at once exactly if two of the requests are
      resets. */
  lemma ResetsApartExactlyByRequests(s: State)
    requires Initial(s)
    ensures ResetsApartFrom(s)
            <==> forall t, u :: 0 <= t < u < |s.threads| ==> !(s.threads[t].pc == Checking && s.threads[u].pc == Checking)
  {
    if t, u :| 0 <= t < u < |s.threads| && s.threads[t].pc == Checking && s.threads[u].pc == Checking {
      var moves := [Go(t, false), Go(u, false)];
      assert moves[1..] == [Go(u, false)] && moves[1..][1..] == [];
      var first := Step(s, Go(t, false));
      assert Run(first, [Go(u, false)]) == Run(Step(first, Go(u, false)), []);
      assert ResetsMeet(Run(s, moves), t, u);
    } else {
      forall moves | Fits(moves, |s.threads|) ensures ResetsApart(Run(s, moves)) {
        forall t, u | 0 <= t < |s.threads| && 0 <= u < |s.threads| ensures !ResetsMeet(Run(s, moves), t, u) {
          if ResetsMeet(Run(s, moves), t, u) {
            ResetBegins(s, moves, t);
            ResetBegins(s, moves, u);
          }
        }
      }
    }
  }

  /** Only a reset is ever at work on the overlay. */
  lemma ResetBegins(s: State, moves: seq<Move>, t: nat)
    requires Initial(s) && Fits(moves, |s.threads|) && t < |s.threads| && InReset(Run(s, moves).threads[t])
    ensures s.threads[t].pc == Checking
  {
    assert Fresh(s.threads[t]);
    if s.threads[t].pc.Acquiring? {
      RunPursuesAction(s, moves, t, s.threads[t].pc.action);
    }
  }

  /** Over all runs of `n` requests, resets are kept apart from each other. */
  ghost predicate ResetsAlwaysApart(mayBeStopped: bool, n: nat) {
    forall s, moves :: Initial(s) && |s.threads| == n && Fits(moves, n) && (mayBeStopped || NeverFindsStopped(s, moves))
                       ==> ResetsApart(Run(s, moves))
  }

  /** That is so exactly if no reset finds the server not running, or there is only one request. */
  lemma ResetsApartExactlyWhenNeverStopped(mayBeStopped: bool, n: nat)
    ensures ResetsAlwaysApart(mayBeStopped, n) <==> !mayBeStopped || n <= 1
  {
    if mayBeStopped && n > 1 {
      var s := State(Open(false), None, seq(n, i => Thread(Checking, 0, 0)));
      ResetsApartExactlyByRequests(s);
      assert s.threads[0].pc == Checking && s.threads[1].pc == Checking;
      var moves :| Fits(moves, n) && !ResetsApart(Run(s, moves));
    } else {
      forall s, moves | Initial(s) && |s.threads| == n && Fits(moves, n) && (mayBeStopped || NeverFindsStopped(s, moves))
        ensures ResetsApart(Run(s, moves))
      {
        forall t, u | 0 <= t < n && 0 <= u < n && t != u ensures !ResetsMeet(Run(s, moves), t, u) {
          assert Fresh(s.threads[t]) && Fresh(s.threads[u]);
          LockedIfNeverStopped(s, moves, t);
          LockedIfNeverStopped(s, moves, u);
          ResetsMeetLockless(s, moves, t, u);
        }
      }
    }
  }

  // ---------------------------------------------------------------------------
  // Nobody gets stuck
  // ---------------------------------------------------------------------------

  /** The thread waits for a lock that it cannot get now. */
  predicate Blocked(s: State, t: nat)
    requires t < |s.threads|
  {
    s.threads[t].pc.Waiting? && !Acquired(s.ch).1
  }

  /** How many more steps a request can take. */
  function StepsLeft(pc: Pc): nat {
    match pc
    case Checking => 9
    case ResetAcquiring => 8
    case ResetStopping => 7
    case ResetWaiting => 6
    case Resetting(_) => 5
    case ResetUnlocking(restart) => if restart then 4 else 1
    case Acquiring(_, blocking) => if blocking then 4 else 3
    case Waiting(_) => 3
    case Body(_, _) => 2
    case Unlocking => 1
    case Done => 0
  }

  /** Every step of a request that is not waiting for the lock brings it closer to its end, whatever the
      operations answer. */
  lemma EveryStepProgresses(s: State, t: nat, ok: bool)
    requires t < |s.threads| && s.threads[t].pc != Done && (Blocked(s, t) ==> !ok)
    ensures StepsLeft(Step(s, Go(t, ok)).threads[t].pc) < StepsLeft(s.threads[t].pc)
  {
  }

  /** From any state, any request can come to its end by its own steps alone: nobody ever has to be waited
      for, because waiting for the lock ends when its time is over. */
  lemma {:induction false} EveryRequestCanFinish(s: State, t: nat) returns (moves: seq<Move>)
    requires t < |s.threads|
    ensures |moves| <= StepsLeft(s.threads[t].pc) && Fits(moves, |s.threads|)
    ensures forall i :: 0 <= i < |moves| ==> moves[i].Go? && moves[i].t == t
    ensures Run(s, moves).threads[t].pc == Done
    decreases StepsLeft(s.threads[t].pc)
  {
    if s.threads[t].pc == Done {
      moves := [];
    } else {
      var m := Go(t, !Blocked(s, t));
      EveryStepProgresses(s, t, m.ok);
      var rest := EveryRequestCanFinish(Step(s, m), t);
      moves := [m] + rest;
      assert moves[1..] == rest;
    }
  }

  /** At the lock: a kill, pause or unpause is always carried out, with the lock if it is free; a start,
      stop or restart is carried out exactly if it gets the lock; otherwise it returns an error or, if it was
      told to wait and has time left, waits. */
  lemma AtTheLock(s: State, t: nat, ok: bool)
    requires t < |s.threads| && (s.threads[t].pc.Acquiring? || s.threads[t].pc.Waiting?)
    ensures var pc := s.threads[t].pc;
            var free := Acquired(s.ch).1;
            Step(s, Go(t, ok)).threads[t].pc
            == if pc.Acquiring? && pc.action in {Kill, Pause, Unpause} then Body(pc.action, free)
               else if pc.Waiting? || pc.blocking then
                 if !ok then Done else if free then Body(pc.action, true) else Waiting(pc.action)
               else if free then Body(pc.action, true) else Done
  {
    var a := s.threads[t].pc.action;
    assert a.Start? || a.Stop? || a.Restart? || a.Kill? || a.Pause? || a.Unpause?;
  }
}
