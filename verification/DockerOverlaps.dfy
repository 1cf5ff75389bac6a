/**
 The operations of the container environment (module DockerEnv) running at the same time: a kill, for
 instance, does not wait for a start to end (daemon/server/power.go). Each change of state and each look
 at the state is one step, and the steps of the operations interleave freely.
 */
module DockerOverlaps {
  import opened DockerEnv

  /** Setting the state; or looking at it, and setting some states one after the other unless it is Offline. */
  datatype Act = Put(state: ProcessState) | UnlessOffline(states: seq<ProcessState>)

  /** What an operation still has to do. */
  type Program = seq<Act>

  function Puts(states: seq<ProcessState>): (p: Program)
    ensures |p| == |states| && forall i :: 0 <= i < |p| ==> p[i] == Put(states[i])
  {
    if states == [] then [] else [Put(states[0])] + Puts(states[1..])
  }

  // ---------------------------------------------------------------------------
  // The operations as programs
  // ---------------------------------------------------------------------------

  function StartProgram(inspect: Inspect, truncated: bool, attached: bool, booted: bool): Program {
    if inspect == Failed then []
    else if inspect.Container? && inspect.running then [Put(if inspect.paused then Paused else Running)]
    else if inspect.Container? && !truncated then []
    else if attached && booted then [Put(Starting)]
    else [Put(Starting), Put(Stopping), Put(Offline)]
  }

  function SignalProgram(inspect: Inspect): Program {
    match inspect
    case NotFound => []
    case Failed => []
    case Container(running, _) => if running then [Put(Stopping)] else [UnlessOffline([Stopping, Offline])]
  }

  function StopProgram(stop: StopArgs): Program {
    [UnlessOffline([Stopping])]
    + if stop.kind == BySignal then SignalProgram(stop.inspect)
      else if stop.isAttached && stop.kind == ByCommand then [Put(Stopping)]
      else if stop.answer == Gone then [Put(Offline)]
      else []
  }

  function TerminateProgram(inspect: Inspect, answer: Answer): Program {
    SignalProgram(inspect) + if SignalSucceeds(inspect, answer) then [Put(Offline)] else []
  }

  function ProgramOf(op: Op): Program {
    match op
    case IsRunning(inspect) => if inspect.Container? && inspect.paused then [Put(Paused)] else []
    case Start(inspect, truncated, attached, booted) => StartProgram(inspect, truncated, attached, booted)
    case Stop(kind, isAttached, inspect, answer) => StopProgram(StopBy(kind, isAttached, inspect, answer))
    case Terminate(inspect, answer) => TerminateProgram(inspect, answer)
    case Pause(inspect, answer) =>
      if inspect.Container? && (inspect.paused || (inspect.running && answer != Error)) then [Put(Paused)] else []
    case Unpause(inspect, answer) =>
      if inspect.Container? && (if inspect.paused then answer != Error else inspect.running) then [Put(Running)] else []
    case WaitForStop(stop, terminate, deadline, wait, inspect, answer) =>
      StopProgram(stop) + if terminate && TooLong(stop, deadline, wait) then TerminateProgram(inspect, answer) else []
  }

  // ---------------------------------------------------------------------------
  // Interleaving
  // ---------------------------------------------------------------------------

  /** The environment, and what each operation still has to do. */
  datatype State = State(env: Env, programs: seq<Program>)

  function EnvAfter(e: Env, p: Program): Env {
    if p != [] && p[0].Put? then Set(e, p[0].state) else e
  }

  function ProgramAfter(e: Env, p: Program): Program {
    if p == [] then []
    else if p[0].Put? || e.state == Offline then p[1..]
    else Puts(p[0].states) + p[1..]
  }

  /** One step of the operation `t`. */
  function Go(s: State, t: nat): State
    requires t < |s.programs|
  {
    State(EnvAfter(s.env, s.programs[t]), s.programs[t := ProgramAfter(s.env, s.programs[t])])
  }

  ghost predicate Fits(schedule: seq<nat>, n: nat) {
    forall i :: 0 <= i < |schedule| ==> schedule[i] < n
  }

  ghost function GoAll(s: State, schedule: seq<nat>): (r: State)
    requires Fits(schedule, |s.programs|)
    ensures |r.programs| == |s.programs|
    decreases |schedule|
  {
    if schedule == [] then s else GoAll(Go(s, schedule[0]), schedule[1..])
  }

  lemma {:induction false} GoAllSplits(s: State, a: seq<nat>, b: seq<nat>)
    requires Fits(a, |s.programs|) && Fits(b, |s.programs|)
    ensures Fits(a + b, |s.programs|) && GoAll(s, a + b) == GoAll(GoAll(s, a), b)
    decreases |a|
  {
    if a == [] {
      assert a + b == b;
    } else {
      GoAllSplits(Go(s, a[0]), a[1..], b);
      assert (a + b)[1..] == a[1..] + b;
    }
  }

  ghost function Programs(ops: seq<Op>): (ps: seq<Program>)
    ensures |ps| == |ops|
  {
    seq(|ops|, i requires 0 <= i < |ops| => ProgramOf(ops[i]))
  }

  // ---------------------------------------------------------------------------
  // One operation alone
  // ---------------------------------------------------------------------------

  function Size(p: Program): nat {
    if p == [] then 0 else (if p[0].Put? then 1 else 1 + |p[0].states|) + Size(p[1..])
  }

  lemma {:induction false} SizeOfPuts(states: seq<ProcessState>, rest: Program)
    ensures Size(Puts(states) + rest) == |states| + Size(rest)
  {
    if states == [] {
      assert Puts(states) + rest == rest;
    } else {
      SizeOfPuts(states[1..], rest);
      assert (Puts(states) + rest)[1..] == Puts(states[1..]) + rest;
    }
  }

  lemma ShorterAfter(e: Env, p: Program)
    requires p != []
    ensures Size(ProgramAfter(e, p)) < Size(p)
  {
    if p[0].UnlessOffline? {
      SizeOfPuts(p[0].states, p[1..]);
    }
  }

  /** The environment when nothing comes between the steps of a program. */
  ghost function Alone(e: Env, p: Program): Env
    decreases Size(p)
  {
    if p == [] then e
    else
      ShorterAfter(e, p);
      Alone(EnvAfter(e, p), ProgramAfter(e, p))
  }

  lemma {:induction false} AloneSplits(e: Env, p: Program, q: Program)
    ensures Alone(e, p + q) == Alone(Alone(e, p), q)
    decreases Size(p)
  {
    if p == [] {
      assert p + q == q;
    } else {
      ShorterAfter(e, p);
      AfterSplits(e, p, q);
      AloneSplits(EnvAfter(e, p), ProgramAfter(e, p), q);
    }
  }

  lemma AfterSplits(e: Env, p: Program, q: Program)
    requires p != []
    ensures EnvAfter(e, p + q) == EnvAfter(e, p) && ProgramAfter(e, p + q) == ProgramAfter(e, p) + q
  {
    assert (p + q)[0] == p[0] && (p + q)[1..] == p[1..] + q;
    if p[0].UnlessOffline? {
      assert Puts(p[0].states) + (p[1..] + q) == Puts(p[0].states) + p[1..] + q;
    }
  }

  lemma AlonePut(e: Env, s: ProcessState)
    ensures Alone(e, [Put(s)]) == Set(e, s)
  {
    assert [Put(s)][1..] == [];
  }

  lemma AlonePutTwo(e: Env, s: ProcessState, s': ProcessState)
    ensures Alone(e, [Put(s), Put(s')]) == Set(Set(e, s), s')
  {
    assert [Put(s), Put(s')] == [Put(s)] + [Put(s')];
    AloneSplits(e, [Put(s)], [Put(s')]);
    AlonePut(e, s);
    AlonePut(Set(e, s), s');
  }

  lemma AloneSignal(e: Env, inspect: Inspect)
    ensures Alone(e, SignalProgram(inspect)) == SignalStep(e, inspect)
  {
    AlonePut(e, Stopping);
    AlonePutTwo(e, Stopping, Offline);
    var p := [UnlessOffline([Stopping, Offline])];
    assert p[1..] == [] && Puts([Stopping, Offline]) + [] == [Put(Stopping), Put(Offline)];
  }

  lemma AloneStop(e: Env, stop: StopArgs)
    ensures Alone(e, StopProgram(stop)) == StopStep(e, stop.kind, stop.isAttached, stop.inspect, stop.answer)
  {
    var first := [UnlessOffline([Stopping])];
    var stopping := if e.state == Offline then e else Set(e, Stopping);
    assert first[1..] == [] && Puts([Stopping]) + [] == [Put(Stopping)];
    AlonePut(e, Stopping);
    assert Alone(e, first) == stopping;
    AloneSplits(e, first, StopProgram(stop)[1..]);
    assert first + StopProgram(stop)[1..] == StopProgram(stop);
    AloneSignal(stopping, stop.inspect);
    AlonePut(stopping, Stopping);
    AlonePut(stopping, Offline);
  }

  lemma AloneTerminate(e: Env, inspect: Inspect, answer: Answer)
    ensures Alone(e, TerminateProgram(inspect, answer)) == TerminateStep(e, inspect, answer)
  {
    AloneSignal(e, inspect);
    AloneSplits(e, SignalProgram(inspect), if SignalSucceeds(inspect, answer) then [Put(Offline)] else []);
    AlonePut(SignalStep(e, inspect), Offline);
  }

  lemma AloneStart(e: Env, inspect: Inspect, truncated: bool, attached: bool, booted: bool)
    ensures Alone(e, StartProgram(inspect, truncated, attached, booted)) == StartStep(e, inspect, truncated, attached, booted)
  {
    AlonePut(e, Paused);
    AlonePut(e, Running);
    AlonePut(e, Starting);
    assert [Put(Starting), Put(Stopping), Put(Offline)] == [Put(Starting)] + [Put(Stopping), Put(Offline)];
    AloneSplits(e, [Put(Starting)], [Put(Stopping), Put(Offline)]);
    AlonePutTwo(Set(e, Starting), Stopping, Offline);
  }

  /** Undisturbed, the program of an operation does what the operation does. */
  lemma AloneIsStep(e: Env, op: Op)
    ensures Alone(e, ProgramOf(op)) == Step(e, op)
  {
    AlonePut(e, Paused);
    AlonePut(e, Running);
    match op
    case Start(inspect, truncated, attached, booted) => AloneStart(e, inspect, truncated, attached, booted);
    case Stop(kind, isAttached, inspect, answer) => AloneStop(e, StopBy(kind, isAttached, inspect, answer));
    case Terminate(inspect, answer) => AloneTerminate(e, inspect, answer);
    case WaitForStop(stop, terminate, deadline, wait, inspect, answer) =>
      var kill := if terminate && TooLong(stop, deadline, wait) then TerminateProgram(inspect, answer) else [];
      AloneStop(e, stop);
      AloneSplits(e, StopProgram(stop), kill);
      AloneTerminate(Alone(e, StopProgram(stop)), inspect, answer);
    case _ =>
  }

  lemma {:induction false} Undisturbed(s: State, t: nat) returns (schedule: seq<nat>)
    requires t < |s.programs|
    ensures Fits(schedule, |s.programs|)
    ensures GoAll(s, schedule) == State(Alone(s.env, s.programs[t]), s.programs[t := []])
    decreases Size(s.programs[t])
  {
    if s.programs[t] == [] {
      assert s.programs[t := []] == s.programs;
      schedule := [];
    } else {
      ShorterAfter(s.env, s.programs[t]);
      var rest := Undisturbed(Go(s, t), t);
      schedule := [t] + rest;
      assert schedule[1..] == rest;
      assert Go(s, t).programs[t := []] == s.programs[t := []];
    }
  }

  /** The runs of module DockerEnv, in which each operation ends before the next one begins, are among the
      interleavings. */
  lemma {:induction false} RunIsInterleaving(e: Env, ops: seq<Op>, n: nat) returns (schedule: seq<nat>)
    requires n <= |ops|
    ensures Fits(schedule, |ops|)
    ensures var r := GoAll(State(e, Programs(ops)), schedule);
            r.env == Run(e, ops[..n]) && forall t :: n <= t < |ops| ==> r.programs[t] == ProgramOf(ops[t])
  {
    if n == 0 {
      schedule := [];
    } else {
      var before := RunIsInterleaving(e, ops, n - 1);
      var s := GoAll(State(e, Programs(ops)), before);
      var last := Undisturbed(s, n - 1);
      schedule := before + last;
      GoAllSplits(State(e, Programs(ops)), before, last);
      AloneIsStep(s.env, ops[n - 1]);
      RunThen(e, ops[..n - 1], ops[n - 1]);
      assert ops[..n] == ops[..n - 1] + [ops[n - 1]];
    }
  }

  lemma {:induction false} RunThen(e: Env, ops: seq<Op>, op: Op)
    ensures Run(e, ops + [op]) == Step(Run(e, ops), op)
    decreases |ops|
  {
    if ops == [] {
      assert ops + [op] == [op] && [op][1..] == [];
    } else {
      RunThen(Step(e, ops[0]), ops[1..], op);
      assert (ops + [op])[1..] == ops[1..] + [op];
    }
  }

  // ---------------------------------------------------------------------------
  // Which operations can publish a crash together
  // ---------------------------------------------------------------------------

  predicate IsUp(state: ProcessState) {
    state in {Starting, Running}
  }

  /** The program begins by taking the server up. */
  predicate Ups(p: Program) {
    p != [] && p[0].Put? && IsUp(p[0].state)
  }

  /** Undisturbed from a state that is Offline or not, as `offline` says, the program sets the state to Offline. */
  predicate Downs(p: Program, offline: bool) {
    p != []
    && match p[0]
       case Put(s) => s == Offline || Downs(p[1..], false)
       case UnlessOffline(states) => if offline then Downs(p[1..], true) else Offline in states || Downs(p[1..], false)
  }

  /** The program takes a server that is Offline to another state. */
  predicate Stirs(p: Program) {
    p != [] && ((p[0].Put? && p[0].state != Offline) || Stirs(p[1..]))
  }

  /** One operation sets Offline right away while the server is up; or one takes the server up and another one
      sets it Offline, at once or after a third one has taken it out of Offline. */
  ghost predicate Hazard(state: ProcessState, ps: seq<Program>) {
    || (IsUp(state) && exists i :: 0 <= i < |ps| && HeadsOffline(ps[i]))
    || exists i, j :: 0 <= i < |ps| && 0 <= j < |ps| && Meet(state, ps, i, j)
  }

  ghost predicate Meet(state: ProcessState, ps: seq<Program>, i: nat, j: nat)
    requires i < |ps| && j < |ps|
  {
    i != j && Ups(ps[j]) && DownsAmong(state, ps, i, j)
  }

  predicate HeadsOffline(p: Program) {
    p != [] && p[0] == Put(Offline)
  }

  ghost predicate DownsAmong(state: ProcessState, ps: seq<Program>, i: nat, j: nat)
    requires i < |ps|
  {
    Downs(ps[i], state == Offline)
    || (Downs(ps[i], false) && SomeOtherStirs(ps, i, j))
  }

  ghost predicate SomeOtherStirs(ps: seq<Program>, i: nat, j: nat) {
    exists k :: 0 <= k < |ps| && k != i && k != j && Stirs(ps[k])
  }

  predicate CalmAct(a: Act) {
    match a
    case Put(s) => !IsUp(s)
    case UnlessOffline(states) => states in {[Stopping], [Stopping, Offline]}
  }

  /** The program never takes the server up. */
  predicate Calm(p: Program) {
    forall i :: 0 <= i < |p| ==> CalmAct(p[i])
  }

  /** Only the first step may take the server up, and Offline does not follow at once. */
  predicate WellFormed(p: Program) {
    Calm(p) || (Ups(p) && Calm(p[1..]) && !HeadsOffline(p[1..]))
  }

  lemma CalmStop(stop: StopArgs)
    ensures Calm(StopProgram(stop))
  {
  }

  lemma CalmTerminate(inspect: Inspect, answer: Answer)
    ensures Calm(TerminateProgram(inspect, answer))
  {
  }

  lemma ProgramsAreWellFormed(op: Op)
    ensures WellFormed(ProgramOf(op))
  {
    if op.Stop? {
      CalmStop(StopBy(op.kind, op.isAttached, op.inspect, op.answer));
    } else if op.Terminate? {
      CalmTerminate(op.inspect, op.answer);
    } else if op.WaitForStop? {
      CalmStop(op.stop);
      CalmTerminate(op.inspect, op.answer);
    }
  }

  // ---------------------------------------------------------------------------
  // Without a hazard no crash is published
  // ---------------------------------------------------------------------------

  lemma {:induction false} DownsFromElsewhere(p: Program)
    ensures Downs(p, true) ==> Downs(p, false)
  {
    if p != [] {
      DownsFromElsewhere(p[1..]);
    }
  }

  lemma DownsAfterUnless(p: Program, offline: bool)
    requires WellFormed(p) && p != [] && p[0].UnlessOffline?
    ensures offline ==> Downs(p, true) == Downs(p[1..], true) && (Downs(p[1..], false) ==> Downs(p, false))
    ensures Downs(Puts(p[0].states) + p[1..], false) == Downs(p, false)
    ensures Stirs(p) == Stirs(p[1..])
  {
    var q := Puts(p[0].states) + p[1..];
    assert q[0] == Put(Stopping);
    if p[0].states == [Stopping] {
      assert q[1..] == p[1..];
    } else {
      assert q[1] == Put(Offline) && q[1..][0] == Put(Offline);
    }
  }

  lemma NoHazardAfterUnless(state: ProcessState, ps: seq<Program>, t: nat)
    requires t < |ps| && WellFormed(ps[t]) && ps[t] != [] && ps[t][0].UnlessOffline? && !Hazard(state, ps)
    ensures var p := ps[t];
            var p' := if state == Offline then p[1..] else Puts(p[0].states) + p[1..];
            !Ups(p') && Calm(p') && !Hazard(state, ps[t := p'])
  {
    var p := ps[t];
    var p' := if state == Offline then p[1..] else Puts(p[0].states) + p[1..];
    var ps' := ps[t := p'];
    DownsAfterUnless(p, state == Offline);
    DownsFromElsewhere(p);
    assert state != Offline ==> p'[0] == Put(Stopping);
    forall i, j | 0 <= i < |ps| && 0 <= j < |ps| ensures !Meet(state, ps', i, j) {
      assert !Meet(state, ps, i, j);
    }
  }

  lemma NoHazardAfterOffline(state: ProcessState, ps: seq<Program>, t: nat)
    requires t < |ps| && WellFormed(ps[t]) && HeadsOffline(ps[t]) && !Hazard(state, ps)
    ensures !IsUp(state) && Calm(ps[t][1..]) && !Hazard(Offline, ps[t := ps[t][1..]])
  {
    var ps' := ps[t := ps[t][1..]];
    forall i, j | 0 <= i < |ps| && 0 <= j < |ps| ensures !Meet(Offline, ps', i, j) {
      assert j != t ==> !Meet(state, ps, t, j);
    }
  }

  lemma NoHazardAfterPut(state: ProcessState, ps: seq<Program>, t: nat)
    requires t < |ps| && WellFormed(ps[t]) && ps[t] != [] && ps[t][0].Put? && ps[t][0].state != Offline && !Hazard(state, ps)
    ensures Calm(ps[t][1..]) && !Hazard(ps[t][0].state, ps[t := ps[t][1..]])
  {
    var s', ps' := ps[t][0].state, ps[t := ps[t][1..]];
    forall i | 0 <= i < |ps| ensures !(IsUp(s') && HeadsOffline(ps'[i])) {
      if i != t {
        assert !Meet(state, ps, i, t);
      }
    }
    forall i, j | 0 <= i < |ps| && 0 <= j < |ps| ensures !Meet(s', ps', i, j) {
      assert !Meet(state, ps, i, j);
      assert Stirs(ps[t]);
    }
  }

  ghost predicate AllWellFormed(ps: seq<Program>) {
    forall i :: 0 <= i < |ps| ==> WellFormed(ps[i])
  }

  /** A step without a hazard publishes no crash and brings about no hazard. */
  lemma StepWithoutHazard(s: State, t: nat)
    requires t < |s.programs| && AllWellFormed(s.programs) && !Hazard(s.env.state, s.programs)
    requires LogMatches(s.env) && NoCrashEdgeFrom(s.env.log, 0)
    ensures AllWellFormed(Go(s, t).programs) && !Hazard(Go(s, t).env.state, Go(s, t).programs)
    ensures LogMatches(Go(s, t).env) && NoCrashEdgeFrom(Go(s, t).env.log, 0)
  {
    var p := s.programs[t];
    if p == [] {
      assert s.programs[t := p] == s.programs;
    } else if p[0].UnlessOffline? {
      NoHazardAfterUnless(s.env.state, s.programs, t);
    } else {
      if p[0].state == Offline {
        NoHazardAfterOffline(s.env.state, s.programs, t);
      } else {
        NoHazardAfterPut(s.env.state, s.programs, t);
      }
      SetOne(s.env, p[0].state, 0);
    }
  }

  lemma {:induction false} QuietWithoutHazard(s: State, schedule: seq<nat>)
    requires Fits(schedule, |s.programs|) && AllWellFormed(s.programs) && !Hazard(s.env.state, s.programs)
    requires LogMatches(s.env) && NoCrashEdgeFrom(s.env.log, 0)
    ensures NoCrashEdgeFrom(GoAll(s, schedule).env.log, 0)
    decreases |schedule|
  {
    if schedule != [] {
      StepWithoutHazard(s, schedule[0]);
      QuietWithoutHazard(Go(s, schedule[0]), schedule[1..]);
    }
  }

  // ---------------------------------------------------------------------------
  // With a hazard some interleaving publishes one
  // ---------------------------------------------------------------------------

  lemma GoKeepsLog(s: State, t: nat)
    requires t < |s.programs| && LogMatches(s.env)
    ensures LogMatches(Go(s, t).env) && s.env.log <= Go(s, t).env.log
  {
  }

  /** A program that can set Offline is taken to the point where it does so next. */
  lemma {:induction false} ReachOffline(s: State, t: nat) returns (schedule: seq<nat>)
    requires t < |s.programs| && Downs(s.programs[t], s.env.state == Offline) && LogMatches(s.env)
    ensures Fits(schedule, |s.programs|)
    ensures var r := GoAll(s, schedule);
            LogMatches(r.env) && HeadsOffline(r.programs[t])
            && forall u :: 0 <= u < |s.programs| && u != t ==> r.programs[u] == s.programs[u]
    decreases Size(s.programs[t])
  {
    var p := s.programs[t];
    if HeadsOffline(p) {
      schedule := [];
    } else {
      ShorterAfter(s.env, p);
      GoKeepsLog(s, t);
      DownsAfter(s.env, p);
      var rest := ReachOffline(Go(s, t), t);
      schedule := [t] + rest;
      assert schedule[1..] == rest;
    }
  }

  lemma DownsAfter(e: Env, p: Program)
    requires Downs(p, e.state == Offline) && !HeadsOffline(p)
    ensures Downs(ProgramAfter(e, p), EnvAfter(e, p).state == Offline)
  {
    if p[0].UnlessOffline? && e.state != Offline {
      DownsAfterPuts(p[0].states, p[1..]);
    }
  }

  lemma {:induction false} DownsAfterPuts(states: seq<ProcessState>, rest: Program)
    requires Offline in states || Downs(rest, false)
    ensures Downs(Puts(states) + rest, false)
  {
    if states == [] {
      assert Puts(states) + rest == rest;
    } else {
      assert (Puts(states) + rest)[1..] == Puts(states[1..]) + rest;
      if states[0] != Offline {
        DownsAfterPuts(states[1..], rest);
      }
    }
  }

  /** A program that takes the server out of Offline is taken to where it has done so. */
  lemma {:induction false} ReachStir(s: State, t: nat) returns (schedule: seq<nat>)
    requires t < |s.programs| && Stirs(s.programs[t]) && LogMatches(s.env)
    ensures Fits(schedule, |s.programs|)
    ensures var r := GoAll(s, schedule);
            LogMatches(r.env) && r.env.state != Offline
            && forall u :: 0 <= u < |s.programs| && u != t ==> r.programs[u] == s.programs[u]
    decreases Size(s.programs[t])
  {
    if s.env.state != Offline {
      schedule := [];
    } else {
      ShorterAfter(s.env, s.programs[t]);
      GoKeepsLog(s, t);
      var rest := [];
      if Go(s, t).env.state == Offline {
        rest := ReachStir(Go(s, t), t);
      }
      schedule := [t] + rest;
      assert schedule[1..] == rest;
    }
  }

  /** An operation sets Offline while the server is up. */
  lemma CrashNow(s: State, i: nat)
    requires i < |s.programs| && HeadsOffline(s.programs[i]) && IsUp(s.env.state) && LogMatches(s.env)
    ensures !NoCrashEdgeFrom(GoAll(s, [i]).env.log, 0)
  {
    assert [i][1..] == [];
    assert GoAll(s, [i]) == Go(s, i);
    SetOne(s.env, Offline, 0);
  }

  /** One operation at the point of setting Offline, and one that takes the server up just before. */
  lemma CrashNext(s: State, i: nat, j: nat)
    requires i < |s.programs| && j < |s.programs| && i != j && LogMatches(s.env)
    requires HeadsOffline(s.programs[i]) && Ups(s.programs[j])
    ensures !NoCrashEdgeFrom(GoAll(s, [j, i]).env.log, 0)
  {
    GoKeepsLog(s, j);
    CrashNow(Go(s, j), i);
    assert [j, i][1..] == [i];
  }

  lemma CrashAfterDown(s: State, i: nat, j: nat) returns (schedule: seq<nat>)
    requires i < |s.programs| && j < |s.programs| && i != j && LogMatches(s.env)
    requires Downs(s.programs[i], s.env.state == Offline) && Ups(s.programs[j])
    ensures Fits(schedule, |s.programs|) && !NoCrashEdgeFrom(GoAll(s, schedule).env.log, 0)
  {
    var reach := ReachOffline(s, i);
    CrashNext(GoAll(s, reach), i, j);
    GoAllSplits(s, reach, [j, i]);
    schedule := reach + [j, i];
  }

  lemma CrashFromHazard(s: State) returns (schedule: seq<nat>)
    requires Hazard(s.env.state, s.programs) && LogMatches(s.env)
    ensures Fits(schedule, |s.programs|) && !NoCrashEdgeFrom(GoAll(s, schedule).env.log, 0)
  {
    if i :| 0 <= i < |s.programs| && IsUp(s.env.state) && HeadsOffline(s.programs[i]) {
      CrashNow(s, i);
      schedule := [i];
    } else {
      var i, j :| 0 <= i < |s.programs| && 0 <= j < |s.programs| && Meet(s.env.state, s.programs, i, j);
      if Downs(s.programs[i], s.env.state == Offline) {
        schedule := CrashAfterDown(s, i, j);
      } else {
        var k :| 0 <= k < |s.programs| && k != i && k != j && Stirs(s.programs[k]);
        var stir := ReachStir(s, k);
        var rest := CrashAfterDown(GoAll(s, stir), i, j);
        GoAllSplits(s, stir, rest);
        schedule := stir + rest;
      }
    }
  }

  // ---------------------------------------------------------------------------
  // In terms of the operations
  // ---------------------------------------------------------------------------

  /** The operation takes the server up: a start that gets as far as booting or finds the container running, and
      resuming. */
  predicate TakesUp(op: Op) {
    match op
    case Start(i, truncated, _, _) => i == NotFound || (i.Container? && if i.running then !i.paused else truncated)
    case Unpause(i, a) => i.Container? && if i.paused then a != Error else i.running
    case _ => false
  }

  /** A stop sets Offline if Docker does not know the container, and one by signal that finds the container
      not running if the server is not Offline already. */
  predicate StopSetsOffline(stop: StopArgs, offline: bool) {
    if stop.kind == BySignal then !offline && stop.inspect.Container? && !stop.inspect.running
    else !(stop.isAttached && stop.kind == ByCommand) && stop.answer == Gone
  }

  /** The operation, undisturbed, sets Offline: a start that fails after the boot began, a stop as above, and a kill
      that succeeds. */
  predicate SetsOffline(op: Op, offline: bool) {
    match op
    case Start(i, truncated, attached, booted) =>
      (i == NotFound || (i.Container? && !i.running && truncated)) && !(attached && booted)
    case Stop(kind, isAttached, i, a) => StopSetsOffline(StopBy(kind, isAttached, i, a), offline)
    case Terminate(i, a) => SignalSucceeds(i, a)
    case WaitForStop(stop, terminate, deadline, wait, i, a) =>
      StopSetsOffline(stop, offline) || (terminate && TooLong(stop, deadline, wait) && SignalSucceeds(i, a))
    case _ => false
  }

  predicate StopLeavesOffline(stop: StopArgs) {
    if stop.kind == BySignal then stop.inspect.Container? && stop.inspect.running
    else stop.isAttached && stop.kind == ByCommand
  }

  /** The operation takes a server that is Offline to another state. */
  predicate LeavesOffline(op: Op) {
    match op
    case IsRunning(i) => i.Container? && i.paused
    case Start(i, truncated, _, _) => i == NotFound || (i.Container? && (i.running || truncated))
    case Stop(kind, isAttached, i, a) => StopLeavesOffline(StopBy(kind, isAttached, i, a))
    case Terminate(i, _) => i.Container? && i.running
    case Pause(i, a) => i.Container? && (i.paused || (i.running && a != Error))
    case Unpause(_, _) => TakesUp(op)
    case WaitForStop(stop, terminate, deadline, wait, i, _) =>
      StopLeavesOffline(stop) || (terminate && TooLong(stop, deadline, wait) && i.Container? && i.running)
  }

  lemma {:induction false} DownsOfBoth(p: Program, q: Program)
    ensures Stirs(p + q) <==> Stirs(p) || Stirs(q)
    ensures Downs(p + q, false) <==> Downs(p, false) || Downs(q, false)
    ensures !Stirs(p) && !Downs(p, true) ==> Downs(p + q, true) == Downs(q, true)
    ensures Stirs(p) && !Downs(p, true) ==> Downs(p + q, true) == Downs(q, false)
    ensures Downs(p, true) ==> Downs(p + q, true)
  {
    if p == [] {
      assert p + q == q;
    } else {
      DownsOfBoth(p[1..], q);
      assert (p + q)[1..] == p[1..] + q;
    }
  }

  lemma SignalMeans(inspect: Inspect, offline: bool)
    ensures Downs(SignalProgram(inspect), offline) <==> !offline && inspect.Container? && !inspect.running
    ensures Stirs(SignalProgram(inspect)) <==> inspect.Container? && inspect.running
  {
    assert [UnlessOffline([Stopping, Offline])][1..] == [] && [Put(Stopping)][1..] == [];
  }

  lemma OneMeans(s: ProcessState, offline: bool)
    ensures Downs([Put(s)], offline) <==> s == Offline
    ensures Stirs([Put(s)]) <==> s != Offline
  {
    assert [Put(s)][1..] == [];
  }

  lemma StopMeans(stop: StopArgs, offline: bool)
    ensures Downs(StopProgram(stop), offline) <==> StopSetsOffline(stop, offline)
    ensures Stirs(StopProgram(stop)) <==> StopLeavesOffline(stop)
  {
    var p := StopProgram(stop);
    SignalMeans(stop.inspect, offline);
    OneMeans(Stopping, offline);
    OneMeans(Offline, offline);
    assert p[1..] == if stop.kind == BySignal then SignalProgram(stop.inspect)
                     else if stop.isAttached && stop.kind == ByCommand then [Put(Stopping)]
                     else if stop.answer == Gone then [Put(Offline)]
                     else [];
  }

  lemma TerminateMeans(inspect: Inspect, answer: Answer, offline: bool)
    ensures Downs(TerminateProgram(inspect, answer), offline) <==> SignalSucceeds(inspect, answer)
    ensures Stirs(TerminateProgram(inspect, answer)) <==> inspect.Container? && inspect.running
  {
    var q := if SignalSucceeds(inspect, answer) then [Put(Offline)] else [];
    DownsOfBoth(SignalProgram(inspect), q);
    SignalMeans(inspect, true);
    SignalMeans(inspect, false);
    OneMeans(Offline, true);
    OneMeans(Offline, false);
  }

  lemma StartMeans(inspect: Inspect, truncated: bool, attached: bool, booted: bool, offline: bool)
    ensures var p, op := StartProgram(inspect, truncated, attached, booted), Start(inspect, truncated, attached, booted);
            (Downs(p, offline) <==> SetsOffline(op, offline)) && (Stirs(p) <==> LeavesOffline(op)) && (Ups(p) <==> TakesUp(op))
  {
    OneMeans(Starting, offline);
    OneMeans(Running, offline);
    OneMeans(Paused, offline);
    OneMeans(Offline, false);
    var failed := [Put(Starting), Put(Stopping), Put(Offline)];
    assert failed[1..] == [Put(Stopping), Put(Offline)] && failed[1..][1..] == [Put(Offline)];
    assert Downs(failed, offline);
  }

  /** What the program of an operation does to the state, said of the operation. */
  lemma ProgramMeans(op: Op, offline: bool)
    ensures Ups(ProgramOf(op)) <==> TakesUp(op)
    ensures Downs(ProgramOf(op), offline) <==> SetsOffline(op, offline)
    ensures Stirs(ProgramOf(op)) <==> LeavesOffline(op)
    ensures HeadsOffline(ProgramOf(op)) <==> op.Terminate? && op.inspect == NotFound
  {
    OneMeans(Paused, offline);
    OneMeans(Running, offline);
    match op
    case Start(i, truncated, attached, booted) => StartMeans(i, truncated, attached, booted, offline);
    case Stop(kind, isAttached, i, a) => StopMeans(StopBy(kind, isAttached, i, a), offline);
    case Terminate(i, a) => TerminateMeans(i, a, offline);
    case WaitForStop(stop, terminate, deadline, wait, i, a) => WaitMeans(stop, terminate, deadline, wait, i, a, offline);
    case _ =>
  }

  lemma WaitMeans(stop: StopArgs, terminate: bool, deadline: bool, wait: Waited, i: Inspect, a: Answer, offline: bool)
    ensures var op := WaitForStop(stop, terminate, deadline, wait, i, a);
            && !Ups(ProgramOf(op)) && !HeadsOffline(ProgramOf(op))
            && (Downs(ProgramOf(op), offline) <==> SetsOffline(op, offline)) && (Stirs(ProgramOf(op)) <==> LeavesOffline(op))
  {
    var kill := if terminate && TooLong(stop, deadline, wait) then TerminateProgram(i, a) else [];
    DownsOfBoth(StopProgram(stop), kill);
    StopMeans(stop, true);
    StopMeans(stop, false);
    TerminateMeans(i, a, true);
    TerminateMeans(i, a, false);
  }

  /** The server is up and its missing container is killed; or one operation takes the server up and another one
      sets Offline, at once or after a third one has taken the server out of Offline. */
  ghost predicate CanCrash(state: ProcessState, ops: seq<Op>) {
    || (IsUp(state) && exists i :: 0 <= i < |ops| && ops[i].Terminate? && ops[i].inspect == NotFound)
    || exists i, j :: 0 <= i < |ops| && 0 <= j < |ops| && Clash(state, ops, i, j)
  }

  ghost predicate Clash(state: ProcessState, ops: seq<Op>, i: nat, j: nat)
    requires i < |ops| && j < |ops|
  {
    && i != j && TakesUp(ops[j])
    && (SetsOffline(ops[i], state == Offline) || (SetsOffline(ops[i], false) && SomeOtherLeavesOffline(ops, i, j)))
  }

  ghost predicate SomeOtherLeavesOffline(ops: seq<Op>, i: nat, j: nat) {
    exists k :: 0 <= k < |ops| && k != i && k != j && LeavesOffline(ops[k])
  }

  lemma OthersMean(ops: seq<Op>, i: nat, j: nat)
    ensures SomeOtherStirs(Programs(ops), i, j) <==> SomeOtherLeavesOffline(ops, i, j)
  {
    var ps := Programs(ops);
    forall k | 0 <= k < |ops| ensures Stirs(ps[k]) <==> LeavesOffline(ops[k]) {
      ProgramMeans(ops[k], true);
    }
  }

  lemma ClashMeans(state: ProcessState, ops: seq<Op>, i: nat, j: nat)
    requires i < |ops| && j < |ops|
    ensures Meet(state, Programs(ops), i, j) <==> Clash(state, ops, i, j)
  {
    ProgramMeans(ops[i], state == Offline);
    ProgramMeans(ops[i], false);
    ProgramMeans(ops[j], false);
    OthersMean(ops, i, j);
  }

  lemma HazardMeans(state: ProcessState, ops: seq<Op>)
    ensures Hazard(state, Programs(ops)) <==> CanCrash(state, ops)
  {
    var ps := Programs(ops);
    forall i | 0 <= i < |ops| ensures HeadsOffline(ps[i]) <==> ops[i].Terminate? && ops[i].inspect == NotFound {
      ProgramMeans(ops[i], false);
    }
    forall i, j | 0 <= i < |ops| && 0 <= j < |ops| ensures Meet(state, ps, i, j) <==> Clash(state, ops, i, j) {
      ClashMeans(state, ops, i, j);
    }
  }

  /** Some interleaving of the operations from `e` publishes an edge that looks like a crash. */
  ghost predicate CrashReachable(e: Env, ops: seq<Op>) {
    exists schedule :: Fits(schedule, |ops|) && !NoCrashEdgeFrom(GoAll(State(e, Programs(ops)), schedule).env.log, 0)
  }

  /** For any number of operations and whatever Docker answers: some interleaving publishes an edge that looks
      like a crash if and only if the server is up and a missing container is killed, or one operation takes the
      server up while another one can set Offline. */
  lemma OverlapsCrashExactly(e: Env, ops: seq<Op>)
    requires LogMatches(e) && NoCrashEdgeFrom(e.log, 0)
    ensures CrashReachable(e, ops) <==> CanCrash(e.state, ops)
  {
    var s := State(e, Programs(ops));
    HazardMeans(e.state, ops);
    if CanCrash(e.state, ops) {
      var schedule := CrashFromHazard(s);
      assert Fits(schedule, |ops|);
    } else {
      forall i | 0 <= i < |ops| ensures WellFormed(s.programs[i]) {
        ProgramsAreWellFormed(ops[i]);
      }
      forall schedule | Fits(schedule, |ops|) ensures NoCrashEdgeFrom(GoAll(s, schedule).env.log, 0) {
        QuietWithoutHazard(s, schedule);
      }
    }
  }

  lemma QuietInTurn(e: Env, a: Op, b: Op)
    requires LogMatches(e) && NoCrashEdgeFrom(e.log, 0) && !KillsMissing(e, a) && !KillsMissing(Step(e, a), b)
    ensures NoCrashEdgeFrom(Run(e, [a, b]).log, 0)
  {
    assert [a, b][1..] == [b] && [b][1..] == [];
    assert NeverKillsMissing(Step(e, a), [b]);
    RunKeepsLog(e, [a, b]);
  }

  /** A kill that finds the container, not running, beside a start of the stopped server: the start can be
      reported as a crash, although in neither order of the two, one after the other, it is. */
  lemma KillBesideStart(e: Env)
    requires LogMatches(e) && NoCrashEdgeFrom(e.log, 0) && e.state == Offline
    ensures var start, kill := Start(Container(false, false), true, true, true), Terminate(Container(false, false), Ok);
            && CrashReachable(e, [start, kill])
            && NoCrashEdgeFrom(Run(e, [start, kill]).log, 0) && NoCrashEdgeFrom(Run(e, [kill, start]).log, 0)
  {
    var start, kill := Start(Container(false, false), true, true, true), Terminate(Container(false, false), Ok);
    OverlapsCrashExactly(e, [start, kill]);
    assert Clash(e.state, [start, kill], 1, 0);
    QuietInTurn(e, start, kill);
    QuietInTurn(e, kill, start);
  }
}
