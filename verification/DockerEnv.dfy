/**
 The process states of a server's container environment (daemon/environment/docker/power.go and
 environment.go): every change of state is published, and crash detection takes a running or starting
 server that goes offline directly for a crash. What Docker answers is a parameter of each operation.
 */
module DockerEnv {

  datatype ProcessState = Offline | Starting | Running | Stopping | Paused

  /** The answer to a container inspection. */
  datatype Inspect = NotFound | Failed | Container(running: bool, paused: bool)

  /** The answer to any other request. */
  datatype Answer = Ok | Gone | Error

  /** How the server is stopped: by a signal, by a console command, or by Docker itself. */
  datatype StopKind = BySignal | ByCommand | Native

  /** How the wait for the container to stop running ends. */
  datatype Waited = NotRunning | Vanished | Cancelled | WaitFailed

  datatype Op =
    | IsRunning(inspect: Inspect)
    | Start(inspect: Inspect, truncated: bool, attached: bool, booted: bool)
    | Stop(kind: StopKind, isAttached: bool, inspect: Inspect, answer: Answer)
    | Terminate(inspect: Inspect, answer: Answer)
    | Pause(inspect: Inspect, answer: Answer)
    | Unpause(inspect: Inspect, answer: Answer)
    | WaitForStop(stop: StopArgs, terminate: bool, deadline: bool, wait: Waited, inspect: Inspect, answer: Answer)

  /** What a stop depends on. */
  datatype StopArgs = StopBy(kind: StopKind, isAttached: bool, inspect: Inspect, answer: Answer)

  /** The current state and everything published so far. */
  datatype Env = Env(state: ProcessState, log: seq<ProcessState>)

  /** SetState publishes only changes. */
  function Set(e: Env, s: ProcessState): Env {
    if e.state == s then e else Env(s, e.log + [s])
  }

  // ---------------------------------------------------------------------------
  // The operations
  // ---------------------------------------------------------------------------

  function StartStep(e: Env, inspect: Inspect, truncated: bool, attached: bool, booted: bool): Env {
    if inspect == Failed then e
    else if inspect.Container? && inspect.running then Set(e, if inspect.paused then Paused else Running)
    else if inspect.Container? && !truncated then e
    else
      var starting := Set(e, Starting);
      // After an error the state passes through Stopping, so that it is not taken for a crash.
      if attached && booted then starting else Set(Set(starting, Stopping), Offline)
  }

  function SignalStep(e: Env, inspect: Inspect): Env {
    match inspect
    case NotFound => e
    case Failed => e
    case Container(running, _) =>
      if running then Set(e, Stopping)
      else if e.state == Offline then e
      else Set(Set(e, Stopping), Offline)
  }

  predicate SignalSucceeds(inspect: Inspect, answer: Answer) {
    match inspect
    case NotFound => true
    case Failed => false
    case Container(running, _) => running ==> answer != Error
  }

  function StopStep(e: Env, kind: StopKind, isAttached: bool, inspect: Inspect, answer: Answer): Env {
    var stopping := if e.state == Offline then e else Set(e, Stopping);
    if kind == BySignal then SignalStep(stopping, inspect)
    else if isAttached && kind == ByCommand then Set(stopping, Stopping)
    else if answer == Gone then Set(stopping, Offline)
    else stopping
  }

  function TerminateStep(e: Env, inspect: Inspect, answer: Answer): Env {
    var signalled := SignalStep(e, inspect);
    if SignalSucceeds(inspect, answer) then Set(signalled, Offline) else signalled
  }

  function PauseStep(e: Env, inspect: Inspect, answer: Answer): Env {
    match inspect
    case NotFound => e
    case Failed => e
    case Container(running, paused) =>
      if !running || paused then (if paused then Set(e, Paused) else e)
      else if answer == Error then e
      else Set(e, Paused)
  }

  function UnpauseStep(e: Env, inspect: Inspect, answer: Answer): Env {
    match inspect
    case NotFound => e
    case Failed => e
    case Container(running, paused) =>
      if !paused then (if running then Set(e, Running) else e)
      else if answer == Error then e
      else Set(e, Running)
  }

  predicate StopSucceeds(kind: StopKind, inspect: Inspect, answer: Answer) {
    if kind == BySignal then SignalSucceeds(inspect, answer) else answer != Error
  }

  /** The stop took too long, or the wait after it. */
  predicate TooLong(stop: StopArgs, deadline: bool, wait: Waited) {
    if StopSucceeds(stop.kind, stop.inspect, stop.answer) then wait in {Cancelled, WaitFailed} else deadline
  }

  /** A stop, a wait, and a kill if either took too long and the caller asked for it. */
  function WaitStep(e: Env, stop: StopArgs, terminate: bool, deadline: bool, wait: Waited, inspect: Inspect, answer: Answer): Env {
    var stopped := StopStep(e, stop.kind, stop.isAttached, stop.inspect, stop.answer);
    if terminate && TooLong(stop, deadline, wait) then TerminateStep(stopped, inspect, answer) else stopped
  }

  /** What an operation reports to its caller. For a wait that took too long it is what the kill reports, and for
      IsRunning the answer itself. */
  predicate Succeeds(op: Op) {
    match op
    case IsRunning(i) => i.Container? && i.running && !i.paused
    case Start(i, truncated, attached, booted) =>
      if i.Container? && i.running then !i.paused && attached
      else i != Failed && (i.Container? ==> truncated) && attached && booted
    case Stop(kind, _, i, a) => StopSucceeds(kind, i, a)
    case Terminate(i, a) => SignalSucceeds(i, a)
    case Pause(i, a) => i != Failed && (i.Container? && i.running && !i.paused ==> a != Error)
    case Unpause(i, a) => i != Failed && (i.Container? && i.paused ==> a != Error)
    case WaitForStop(stop, terminate, deadline, wait, i, a) =>
      if TooLong(stop, deadline, wait) then terminate && SignalSucceeds(i, a) else StopSucceeds(stop.kind, stop.inspect, stop.answer)
  }

  function CheckStep(e: Env, inspect: Inspect): Env {
    if inspect.Container? && inspect.paused then Set(e, Paused) else e
  }

  function Step(e: Env, op: Op): Env {
    match op
    case IsRunning(inspect) => CheckStep(e, inspect)
    case WaitForStop(stop, terminate, deadline, wait, inspect, answer) =>
      WaitStep(e, stop, terminate, deadline, wait, inspect, answer)
    case Start(inspect, truncated, attached, booted) => StartStep(e, inspect, truncated, attached, booted)
    case Stop(kind, isAttached, inspect, answer) => StopStep(e, kind, isAttached, inspect, answer)
    case Terminate(inspect, answer) => TerminateStep(e, inspect, answer)
    case Pause(inspect, answer) => PauseStep(e, inspect, answer)
    case Unpause(inspect, answer) => UnpauseStep(e, inspect, answer)
  }

  function Run(e: Env, ops: seq<Op>): Env
    decreases |ops|
  {
    if ops == [] then e else Run(Step(e, ops[0]), ops[1..])
  }

  // ---------------------------------------------------------------------------
  // The published log
  // ---------------------------------------------------------------------------

  /** An edge that crash detection reports. */
  predicate LooksLikeCrash(from: ProcessState, to: ProcessState) {
    from in {Running, Starting} && to == Offline
  }

  ghost predicate Chained(log: seq<ProcessState>) {
    forall i :: 0 < i < |log| ==> log[i - 1] != log[i]
  }

  /** The log started at `first`; consecutive entries differ and the last one is the current state. */
  ghost predicate LogMatches(e: Env) {
    |e.log| > 0 && e.log[|e.log| - 1] == e.state && Chained(e.log)
  }

  ghost predicate NoCrashEdgeFrom(log: seq<ProcessState>, k: nat) {
    forall i :: k < i < |log| ==> !LooksLikeCrash(log[i - 1], log[i])
  }

  lemma SetKeepsLog(e: Env, s: ProcessState)
    requires LogMatches(e)
    ensures LogMatches(Set(e, s)) && e.log <= Set(e, s).log
  {
  }

  lemma SetEdge(e: Env, s: ProcessState, k: nat)
    requires LogMatches(e) && k < |e.log|
    ensures NoCrashEdgeFrom(Set(e, s).log, k) <==> NoCrashEdgeFrom(e.log, k) && !LooksLikeCrash(e.state, s)
  {
    if e.state != s {
      var log' := e.log + [s];
      assert forall i :: 0 <= i < |e.log| ==> log'[i] == e.log[i];
      assert log'[|e.log| - 1] == e.state && log'[|e.log|] == s;
    }
  }

  lemma SetOne(e: Env, s: ProcessState, k: nat)
    requires LogMatches(e) && k < |e.log|
    ensures LogMatches(Set(e, s)) && e.log <= Set(e, s).log
    ensures NoCrashEdgeFrom(Set(e, s).log, k) <==> NoCrashEdgeFrom(e.log, k) && !LooksLikeCrash(e.state, s)
  {
    SetKeepsLog(e, s);
    SetEdge(e, s, k);
  }

  /** Nothing but sound edges after position `k`. */
  ghost predicate Quiet(e: Env, e': Env, k: nat) {
    LogMatches(e') && e.log <= e'.log && NoCrashEdgeFrom(e'.log, k)
  }

  lemma QuietSet(e: Env, e': Env, s: ProcessState, k: nat)
    requires Quiet(e, e', k) && k < |e.log| && !LooksLikeCrash(e'.state, s)
    ensures Quiet(e, Set(e', s), k)
  {
    SetOne(e', s, k);
  }

  /** Going offline by way of Stopping never looks like a crash. */
  lemma StopTwice(e: Env, e': Env, k: nat)
    requires Quiet(e, e', k) && k < |e.log|
    ensures Quiet(e, Set(Set(e', Stopping), Offline), k)
  {
    QuietSet(e, e', Stopping, k);
    QuietSet(e, Set(e', Stopping), Offline, k);
  }

  lemma SignalIsQuiet(e: Env, e': Env, inspect: Inspect, k: nat)
    requires Quiet(e, e', k) && k < |e.log|
    ensures Quiet(e, SignalStep(e', inspect), k)
  {
    QuietSet(e, e', Stopping, k);
    StopTwice(e, e', k);
  }

  lemma StartIsQuiet(e: Env, inspect: Inspect, truncated: bool, attached: bool, booted: bool, k: nat)
    requires Quiet(e, e, k) && k < |e.log|
    ensures Quiet(e, StartStep(e, inspect, truncated, attached, booted), k)
  {
    QuietSet(e, e, Paused, k);
    QuietSet(e, e, Running, k);
    QuietSet(e, e, Starting, k);
    StopTwice(e, Set(e, Starting), k);
  }

  lemma StopIsQuiet(e: Env, kind: StopKind, isAttached: bool, inspect: Inspect, answer: Answer, k: nat)
    requires Quiet(e, e, k) && k < |e.log|
    ensures Quiet(e, StopStep(e, kind, isAttached, inspect, answer), k)
  {
    QuietSet(e, e, Stopping, k);
    var stopping := if e.state == Offline then e else Set(e, Stopping);
    SignalIsQuiet(e, stopping, inspect, k);
    QuietSet(e, stopping, Stopping, k);
    QuietSet(e, stopping, Offline, k);
  }

  /** An operation that kills a running or starting server whose container is gone. */
  predicate KillsMissing(e: Env, op: Op) {
    op.Terminate? && op.inspect == NotFound && e.state in {Running, Starting}
  }

  lemma TerminateEdge(e: Env, inspect: Inspect, answer: Answer, k: nat)
    requires Quiet(e, e, k) && k < |e.log|
    ensures var e' := TerminateStep(e, inspect, answer);
            LogMatches(e') && e.log <= e'.log
            && (NoCrashEdgeFrom(e'.log, k) <==> !KillsMissing(e, Terminate(inspect, answer)))
  {
    SignalIsQuiet(e, e, inspect, k);
    SetOne(SignalStep(e, inspect), Offline, k);
  }

  /** A kill that follows a stop finds the server stopping or offline, so it never looks like a crash,
      whether the container still exists or not. */
  lemma WaitForStopIsQuiet(e: Env, stop: StopArgs, terminate: bool, deadline: bool, wait: Waited, inspect: Inspect, answer: Answer, k: nat)
    requires Quiet(e, e, k) && k < |e.log|
    ensures Quiet(e, WaitStep(e, stop, terminate, deadline, wait, inspect, answer), k)
  {
    var stopped := StopStep(e, stop.kind, stop.isAttached, stop.inspect, stop.answer);
    StopIsQuiet(e, stop.kind, stop.isAttached, stop.inspect, stop.answer, k);
    StoppedState(e, stop);
    SignalIsQuiet(e, stopped, inspect, k);
    QuietSet(e, SignalStep(stopped, inspect), Offline, k);
  }

  lemma StoppedState(e: Env, stop: StopArgs)
    ensures StopStep(e, stop.kind, stop.isAttached, stop.inspect, stop.answer).state in {Stopping, Offline}
  {
  }

  /** An operation publishes an edge that looks like a crash exactly when it is a Terminate of a running
      or starting server whose container does not exist. */
  lemma CrashEdgeExactly(e: Env, op: Op)
    requires LogMatches(e)
    ensures LogMatches(Step(e, op)) && e.log <= Step(e, op).log
    ensures NoCrashEdgeFrom(Step(e, op).log, |e.log| - 1) <==> !KillsMissing(e, op)
  {
    var k := |e.log| - 1;
    match op
    case IsRunning(inspect) =>
      QuietSet(e, e, Paused, k);
    case WaitForStop(stop, terminate, deadline, wait, inspect, answer) =>
      WaitForStopIsQuiet(e, stop, terminate, deadline, wait, inspect, answer, k);
    case Start(inspect, truncated, attached, booted) =>
      StartIsQuiet(e, inspect, truncated, attached, booted, k);
    case Stop(kind, isAttached, inspect, answer) =>
      StopIsQuiet(e, kind, isAttached, inspect, answer, k);
    case Terminate(inspect, answer) =>
      TerminateEdge(e, inspect, answer, k);
    case Pause(inspect, answer) =>
      QuietSet(e, e, Paused, k);
    case Unpause(inspect, answer) =>
      QuietSet(e, e, Running, k);
  }

  /** Where each operation leaves the server. A start that succeeds leaves it starting or running and one
      that fails after the boot began leaves it offline; a stop leaves it stopping or offline, a kill that
      succeeds offline; pausing and resuming agree with the container; and without an answer from Docker
      nothing changes. */
  lemma ReachedState(e: Env, op: Op)
    ensures match op
            case IsRunning(i) => if i.Container? && i.paused then Step(e, op).state == Paused else Step(e, op) == e
            case Start(i, truncated, attached, booted) =>
              var running := i.Container? && i.running;
              && (i == Failed || (i.Container? && !running && !truncated) ==> Step(e, op) == e)
              && (running ==> Step(e, op).state == if i.paused then Paused else Running)
              && (i == NotFound || (i.Container? && !running && truncated) ==>
                    Step(e, op).state == if attached && booted then Starting else Offline)
            case Stop(kind, isAttached, i, a) =>
              && Step(e, op).state in {Stopping, Offline}
              && (Step(e, op).state == Offline
                  <==> if kind == BySignal then (i.Container? && !i.running) || (e.state == Offline && !i.Container?)
                       else !(isAttached && kind == ByCommand) && (a == Gone || e.state == Offline))
              && (e.state == Offline && !(isAttached && kind == ByCommand) && !(i.Container? && i.running) ==> Step(e, op) == e)
            case Terminate(i, a) =>
              && (SignalSucceeds(i, a) ==> Step(e, op).state == Offline)
              && (i == Failed ==> Step(e, op) == e)
              && (!SignalSucceeds(i, a) && i != Failed ==> Step(e, op).state == Stopping)
            case Pause(i, a) =>
              if i.Container? && (i.paused || (i.running && a != Error)) then Step(e, op).state == Paused else Step(e, op) == e
            case Unpause(i, a) =>
              if i.Container? && (if i.paused then a != Error else i.running) then Step(e, op).state == Running else Step(e, op) == e
            case WaitForStop(_, _, _, _, _, _) => Step(e, op).state in {Stopping, Offline}
  {
    if op.WaitForStop? {
      StoppedState(e, op.stop);
    }
  }

  /** The boot of a start has begun: the state was set to Starting. */
  predicate BootBegins(op: Op) {
    op.Start? && (op.inspect == NotFound || (op.inspect.Container? && !op.inspect.running && op.truncated))
  }

  /** What a report means. A start reported as successful leaves the server starting, or running with its
      console attached, and no other start does; one that fails after its boot began leaves it offline. A kill is
      reported as successful exactly if it leaves the server offline by its own doing. A pause or resume is
      reported as failed exactly if nothing changed for want of an answer, and a successful one leaves the server
      as its name says unless the container was not in a state for it. */
  lemma ReportMeans(e: Env, op: Op)
    ensures match op
            case Start(i, _, attached, booted) =>
              && (Succeeds(op) ==> Step(e, op).state in {Starting, Running})
              && (BootBegins(op) ==> Step(e, op).state == if Succeeds(op) then Starting else Offline)
              && (!BootBegins(op) ==>
                    (Succeeds(op) <==> i == Container(true, false) && attached)
                    && (i == Failed || (i.Container? && !i.running) ==> Step(e, op) == e && !Succeeds(op)))
            case Terminate(i, a) =>
              if Succeeds(op) then Step(e, op).state == Offline
              else Step(e, op) == if i == Failed then e else Set(e, Stopping)
            case Pause(i, a) =>
              if Succeeds(op) then Step(e, op).state == Paused || (Step(e, op) == e && (i == NotFound || !i.running))
              else Step(e, op) == e && (i == Failed || (i == Container(true, false) && a == Error))
            case Unpause(i, a) =>
              if Succeeds(op) then Step(e, op).state == Running || (Step(e, op) == e && (i == NotFound || !(i.running || i.paused)))
              else Step(e, op) == e && (i == Failed || (i.Container? && i.paused && a == Error))
            case Stop(kind, isAttached, i, a) =>
              (!Succeeds(op) <==> if kind == BySignal then i == Failed || (i.Container? && i.running && a == Error) else a == Error)
            case WaitForStop(stop, terminate, deadline, wait, i, a) =>
              && (Succeeds(op) ==> (Succeeds(Stop(stop.kind, stop.isAttached, stop.inspect, stop.answer)) && wait in {NotRunning, Vanished})
                                   || (terminate && Succeeds(Terminate(i, a)) && Step(e, op).state == Offline))
              && (Succeeds(Stop(stop.kind, stop.isAttached, stop.inspect, stop.answer)) && wait in {NotRunning, Vanished} ==> Succeeds(op))
              && (!terminate && wait in {Cancelled, WaitFailed} ==> !Succeeds(op))
            case IsRunning(i) => Succeeds(op) ==> Step(e, op) == e
  {
    if op.WaitForStop? {
      assert op.wait.NotRunning? || op.wait.Vanished? || op.wait.Cancelled? || op.wait.WaitFailed?;
    }
  }

  /** No operation of a run kills a running or starting server whose container is gone. */
  ghost predicate NeverKillsMissing(e: Env, ops: seq<Op>)
    decreases |ops|
  {
    ops == [] || (!KillsMissing(e, ops[0]) && NeverKillsMissing(Step(e, ops[0]), ops[1..]))
  }

  /** Over every run, whatever Docker answers: consecutive published states differ, the last one is the
      current state, and the log has an edge that looks like a crash exactly when some Terminate hit
      a running or starting server without a container. */
  lemma {:induction false} RunKeepsLog(e: Env, ops: seq<Op>)
    requires LogMatches(e) && NoCrashEdgeFrom(e.log, 0)
    ensures LogMatches(Run(e, ops)) && e.log <= Run(e, ops).log
    ensures NoCrashEdgeFrom(Run(e, ops).log, 0) <==> NeverKillsMissing(e, ops)
    decreases |ops|
  {
    if ops != [] {
      var e' := Step(e, ops[0]);
      StepEdges(e, ops[0]);
      RunExtendsLog(e', ops[1..]);
      if KillsMissing(e, ops[0]) {
        EdgesStay(e'.log, Run(e', ops[1..]).log);
      } else {
        RunKeepsLog(e', ops[1..]);
      }
    }
  }

  lemma StepEdges(e: Env, op: Op)
    requires LogMatches(e) && NoCrashEdgeFrom(e.log, 0)
    ensures LogMatches(Step(e, op)) && e.log <= Step(e, op).log
    ensures NoCrashEdgeFrom(Step(e, op).log, 0) <==> !KillsMissing(e, op)
  {
    CrashEdgeExactly(e, op);
    Prefix(e.log, Step(e, op).log, |e.log| - 1);
  }

  /** A published edge is never taken back. */
  lemma EdgesStay(log: seq<ProcessState>, log': seq<ProcessState>)
    requires log <= log' && !NoCrashEdgeFrom(log, 0)
    ensures !NoCrashEdgeFrom(log', 0)
  {
    var i :| 0 < i < |log| && LooksLikeCrash(log[i - 1], log[i]);
    assert log'[i - 1] == log[i - 1] && log'[i] == log[i];
  }

  lemma Prefix(log: seq<ProcessState>, log': seq<ProcessState>, k: nat)
    requires log <= log' && |log| == k + 1 && NoCrashEdgeFrom(log, 0)
    ensures NoCrashEdgeFrom(log', 0) <==> NoCrashEdgeFrom(log', k)
  {
    assert forall i :: 0 <= i <= k ==> log'[i] == log[i];
  }

  lemma {:induction false} RunExtendsLog(e: Env, ops: seq<Op>)
    requires LogMatches(e)
    ensures LogMatches(Run(e, ops)) && e.log <= Run(e, ops).log
    decreases |ops|
  {
    if ops != [] {
      CrashEdgeExactly(e, ops[0]);
      RunExtendsLog(Step(e, ops[0]), ops[1..]);
    }
  }

  // ---------------------------------------------------------------------------
  // The mutable environment
  // ---------------------------------------------------------------------------

  class Environment {
    var st: ProcessState
    /** What has been published to the listeners. */
    ghost var log: seq<ProcessState>

    constructor ()
      ensures Now() == Env(Offline, [Offline])
    {
      st, log := Offline, [Offline];
    }

    ghost function Now(): Env
      reads this
    {
      Env(st, log)
    }

    method SetState(state: ProcessState)
      modifies this
      ensures Now() == Set(old(Now()), state)
    {
      if st != state {
        st := state;
        log := log + [state];
      }
    }

    method StartServer(inspect: Inspect, truncated: bool, attached: bool, booted: bool) returns (ok: bool)
      modifies this
      ensures Now() == StartStep(old(Now()), inspect, truncated, attached, booted)
      ensures ok <==> Succeeds(Start(inspect, truncated, attached, booted))
    {
      match inspect {
        case Failed => return false;
        case NotFound =>
        case Container(running, paused) =>
          if running {
            if paused {
              SetState(Paused);
              return false;
            }
            SetState(Running);
            return attached;
          }
          if !truncated {
            return false;
          }
      }
      SetState(Starting);
      if !attached || !booted {
        SetState(Stopping);
        SetState(Offline);
        return false;
      }
      return true;
    }

    method SignalContainer(inspect: Inspect, answer: Answer) returns (ok: bool)
      modifies this
      ensures Now() == SignalStep(old(Now()), inspect) && (ok <==> SignalSucceeds(inspect, answer))
    {
      match inspect {
        case NotFound => return true;
        case Failed => return false;
        case Container(running, _) =>
          if !running {
            if st != Offline {
              SetState(Stopping);
              SetState(Offline);
            }
            return true;
          }
          SetState(Stopping);
          return answer != Error;
      }
    }

    method StopServer(kind: StopKind, isAttached: bool, inspect: Inspect, answer: Answer) returns (ok: bool)
      modifies this
      ensures Now() == StopStep(old(Now()), kind, isAttached, inspect, answer)
      ensures ok <==> StopSucceeds(kind, inspect, answer)
    {
      if st != Offline {
        SetState(Stopping);
      }
      if kind == BySignal {
        ok := SignalContainer(inspect, answer);
        return;
      }
      if isAttached && kind == ByCommand {
        SetState(Stopping);
        return answer != Error;
      }
      if answer == Gone {
        SetState(Offline);
      }
      return answer != Error;
    }

    method TerminateServer(inspect: Inspect, answer: Answer) returns (ok: bool)
      modifies this
      ensures Now() == TerminateStep(old(Now()), inspect, answer) && (ok <==> Succeeds(Terminate(inspect, answer)))
    {
      ok := SignalContainer(inspect, answer);
      if !ok {
        return;
      }
      SetState(Offline);
    }

    /** `deadline` tells whether a failed stop failed because its time was over. */
    method WaitForStop(stop: StopArgs, terminate: bool, deadline: bool, wait: Waited, inspect: Inspect, answer: Answer) returns (ok: bool)
      modifies this
      ensures Now() == WaitStep(old(Now()), stop, terminate, deadline, wait, inspect, answer)
      ensures ok <==> Succeeds(Op.WaitForStop(stop, terminate, deadline, wait, inspect, answer))
    {
      ok := StopServer(stop.kind, stop.isAttached, stop.inspect, stop.answer);
      if !ok {
        if terminate && deadline {
          ok := TerminateServer(inspect, answer);
        }
        return;
      }
      if wait == Cancelled || wait == WaitFailed {
        ok := false;
        if terminate {
          ok := TerminateServer(inspect, answer);
        }
      }
    }

    /** A paused container does not count as running, and the state is brought in line with it. */
    method IsRunning(inspect: Inspect) returns (running: bool)
      modifies this
      ensures Now() == CheckStep(old(Now()), inspect)
      ensures running <==> inspect.Container? && inspect.running && !inspect.paused
    {
      if !inspect.Container? {
        return false;
      }
      if inspect.paused {
        SetState(Paused);
        return false;
      }
      return inspect.running;
    }

    method PauseServer(inspect: Inspect, answer: Answer) returns (ok: bool)
      modifies this
      ensures Now() == PauseStep(old(Now()), inspect, answer) && (ok <==> Succeeds(Pause(inspect, answer)))
    {
      match inspect {
        case NotFound => return true;
        case Failed => return false;
        case Container(running, paused) =>
          if !running || paused {
            if paused {
              SetState(Paused);
            }
            return true;
          }
          if answer == Error {
            return false;
          }
          SetState(Paused);
          return true;
      }
    }

    method UnpauseServer(inspect: Inspect, answer: Answer) returns (ok: bool)
      modifies this
      ensures Now() == UnpauseStep(old(Now()), inspect, answer) && (ok <==> Succeeds(Unpause(inspect, answer)))
    {
      match inspect {
        case NotFound => return true;
        case Failed => return false;
        case Container(running, paused) =>
          if !paused {
            if running {
              SetState(Running);
            }
            return true;
          }
          if answer == Error {
            return false;
          }
          SetState(Running);
          return true;
      }
    }
  }
}
