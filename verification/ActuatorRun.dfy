/** scripts/actuator.mjs: the main sequence of one actuator run, from launch to exit, as a program. */
module ActuatorRun {
  // With its try, catch and finally. Every path through it is a sequence of the steps of Actuator.dfy.

  import opened Wrappers
  import opened Actuator

  /** What the operating system answers: each flag says that one call succeeds. */
  datatype Luck = Luck(
    lockWritten: bool,
    refusalLogged: bool,
    simulationLogged: bool,
    preflight: bool,
    claimCreated: bool,
    claimWritten: bool,
    announced: bool,
    high: bool,
    low: bool,
    recorded: bool,
    unlinked: bool)

  /** When the stages happen; a refusal is journalled at the stage it keeps the run from. */
  datatype Times = Times(read: int, claim: int, announce: int, high: int, low: int, record: int)

  /** The clock never goes back, and a run sleeps for its pulse unless commanding HIGH failed. */
  predicate Timely(now: int, times: Times, run: Run, luck: Luck) {
    && now <= times.read <= times.claim <= times.announce <= times.high <= times.low <= times.record
    && (run.dry || luck.high ==> times.high + PULSE_MS <= times.low)
  }

  /** One more step at the end of a path. */
  lemma Extend(env: Env, path: seq<State>, s': State, step: Step)
    requires Path(env, path) && Next(env, path[|path| - 1], s', step)
    ensures Path(env, path + [s']) && (path + [s'])[0] == path[0] && (path + [s'])[|path|] == s'
  {
    hide Next;
    var r := path + [s'];
    forall i | 0 <= i < |r| - 1 ensures Steps(env, r[i], r[i + 1]) {
      if i < |path| - 1 {
        assert Steps(env, path[i], path[i + 1]);
      }
    }
  }

  /** A path from `s` to `t`. */
  ghost predicate Leads(env: Env, path: seq<State>, s: State, t: State) {
    Path(env, path) && path[0] == s && path[|path| - 1] == t
  }

  /** The run is still process `pid`, with its command line. */
  predicate Runs(s: State, pid: nat, run: Run) {
    pid in s.procs && s.procs[pid].run == run
  }

  /** The other processes and the orders are as they were, and time may have passed. */
  predicate Undisturbed(s: State, t: State, pid: nat) {
    t.now >= s.now && t.orders == s.orders && pid in t.procs && t.procs == s.procs[pid := t.procs[pid]]
  }

  /** Process `pid`, running `run`, has come from `start` to `t` alone. */
  ghost predicate Came(env: Env, path: seq<State>, start: State, t: State, pid: nat, run: Run) {
    Leads(env, path, start, t) && Runs(t, pid, run) && Undisturbed(start, t, pid)
  }

  /** A step of a run that it takes by itself. */
  predicate Own(step: Step) {
    !step.Tick? && !step.Launch? && !step.Persist? && !step.ClaimElsewhere?
  }

  lemma OwnStep(env: Env, t: State, t': State, step: Step, run: Run)
    requires Own(step) && Next(env, t, t', step) && Runs(t, step.pid, run)
    ensures Runs(t', step.pid, run) && Undisturbed(t, t', step.pid) && t'.now == t.now
  {
    hide Matching, LastPulse, WithOutcome;
  }

  /** The run takes a step at time `at`. */
  lemma Go(env: Env, path: seq<State>, start: State, t: State, at: int, t': State, pid: nat, run: Run, step: Step)
    requires Came(env, path, start, t, pid, run) && t.now <= at
    requires Own(step) && step.pid == pid && Next(env, t.(now := at), t', step)
    ensures Came(env, path + [t.(now := at)] + [t'], start, t', pid, run) && t'.now == at
  {
    var u := t.(now := at);
    assert Next(env, t, u, Tick(at));
    OwnStep(env, u, t', step, run);
    hide Next;
    Extend(env, path, u, Tick(at));
    Extend(env, path + [u], t', step);
    hide Path;
    assert t'.procs == start.procs[pid := t'.procs[pid]];
  }

  // ---- What a run writes -------------------------------------------------------------------

  function Written(event: Event, run: Run, at: int, written: bool): seq<Line> {
    if written then [Entry(event, run.reference, Some(at))] else []
  }

  /** The cooldown after the last completed pulse is over. */
  predicate Cold(s: State, at: int) {
    at - LastPulse(s.journal) >= COOLDOWN_MS
  }

  /** The claim file can be created: the payment matches and nobody claimed. */
  predicate Creatable(env: Env, s: State, run: Run, luck: Luck, at: int) {
    Matching(env, s, run) && run.reference !in s.claims && 0 <= at <= MAX_SAFE_INTEGER && luck.claimCreated
  }

  /** The claim is granted: its file is created and written. */
  predicate Granted(env: Env, s: State, run: Run, luck: Luck, at: int) {
    Creatable(env, s, run, luck, at) && luck.claimWritten
  }

  function ClaimsAfter(env: Env, s: State, pid: nat, run: Run, luck: Luck, at: int): map<string, ClaimFile> {
    if Creatable(env, s, run, luck, at) then s.claims[run.reference := if luck.claimWritten then ByRun(pid) else Torn] else s.claims
  }

  /** The last journal line of a pulse. */
  function PulseLine(run: Run, luck: Luck, times: Times): seq<Line> {
    Written(if luck.high && luck.low then PulseCompleted else Fault, run, times.record, luck.recorded)
  }

  /** What a run with a claim writes. */
  function ClaimedLines(run: Run, luck: Luck, times: Times): seq<Line> {
    Written(Actuating, run, times.announce, luck.announced) + if luck.announced then PulseLine(run, luck, times) else []
  }

  /** What a cooled run writes. */
  function CooledLines(env: Env, s: State, run: Run, luck: Luck, times: Times): seq<Line> {
    if run.dry then Written(Simulated, run, times.record, Matching(env, s, run) && luck.simulationLogged)
    else if !luck.preflight then []
    else if !Granted(env, s, run, luck, times.claim) then Written(Refused, run, times.announce, luck.refusalLogged)
    else ClaimedLines(run, luck, times)
  }

  function Lines(env: Env, s: State, run: Run, luck: Luck, times: Times): seq<Line> {
    if Cold(s, times.read) then CooledLines(env, s, run, luck, times)
    else Written(Refused, run, times.claim, luck.refusalLogged)
  }

  // ---- From the inside out -----------------------------------------------------------------

  /** The HIGH command of a run, and what became of its pulse. */
  function PulseOf(pid: nat, run: Run, luck: Luck, times: Times): High {
    High(pid, run.reference, times.high, luck.high, if Worked(luck) then Completed(times.record) else Unrecorded)
  }

  predicate Worked(luck: Luck) {
    luck.high && luck.low && luck.recorded
  }

  /** `gpio('high')`, the sleep, `gpio('low')` in the inner finally, and the last journal line. */
  method Pulse(env: Env, s: State, pid: nat, run: Run, luck: Luck, times: Times, ghost path0: seq<State>, ghost start: State)
    returns (ok: bool, t: State, ghost path: seq<State>)
    requires Came(env, path0, start, s, pid, run) && At(s, pid, Armed) && Runs(s, pid, run)
    requires s.now <= times.high <= times.low <= times.record && (luck.high ==> times.high + PULSE_MS <= times.low)
    ensures Came(env, path, start, t, pid, run) && At(t, pid, Ending)
    ensures t.lock == s.lock && t.claims == s.claims && (t.pinHigh <==> !luck.low)
    ensures ok <==> Worked(luck)
    ensures t.highs == s.highs + [PulseOf(pid, run, luck, times)] && t.journal == s.journal + PulseLine(run, luck, times)
  {
    hide Matching, LastPulse, Came, Log;
    t, path := CommandHigh(env, s, pid, run, luck, times.high, path0, start);
    t, path := CommandLow(env, t, pid, run, luck, times, path, start);
    ok, t, path := Finish(env, t, pid, run, luck, times, path, start);
  }

  method CommandHigh(env: Env, s: State, pid: nat, run: Run, luck: Luck, at: int, ghost path0: seq<State>, ghost start: State)
    returns (t: State, ghost path: seq<State>)
    requires Came(env, path0, start, s, pid, run) && At(s, pid, Armed) && Runs(s, pid, run) && s.now <= at
    ensures Came(env, path, start, t, pid, run) && At(t, pid, Pulsing(luck.high, at)) && Runs(t, pid, run)
    ensures t.now == at && t.lock == s.lock && t.claims == s.claims && t.journal == s.journal
    ensures t.highs == s.highs + [High(pid, run.reference, at, luck.high, InFlight)]
  {
    hide Matching, LastPulse, Came, Log;
    var u := s.(now := at);
    t := Move(u.(pinHigh := true, highs := s.highs + [High(pid, run.reference, at, luck.high, InFlight)]), pid, Pulsing(luck.high, at));
    Go(env, path0, start, s, at, t, pid, run, Raise(pid, luck.high, true));
    path := path0 + [u] + [t];
  }

  method CommandLow(env: Env, s: State, pid: nat, run: Run, luck: Luck, times: Times, ghost path0: seq<State>, ghost start: State)
    returns (t: State, ghost path: seq<State>)
    requires Came(env, path0, start, s, pid, run) && At(s, pid, Pulsing(luck.high, times.high)) && Runs(s, pid, run)
    requires s.now <= times.low && (luck.high ==> times.high + PULSE_MS <= times.low)
    ensures Came(env, path, start, t, pid, run) && At(t, pid, Pulsed(luck.high && luck.low)) && Runs(t, pid, run)
    ensures t.now == times.low && t.lock == s.lock && t.claims == s.claims && t.journal == s.journal && t.highs == s.highs
    ensures t.pinHigh <==> !luck.low
  {
    hide Matching, LastPulse, Came, Log;
    var u := s.(now := times.low);
    t := Move(u.(pinHigh := !luck.low), pid, Pulsed(luck.high && luck.low));
    Go(env, path0, start, s, times.low, t, pid, run, Lower(pid, luck.low, !luck.low));
    path := path0 + [u] + [t];
  }

  method Finish(env: Env, s: State, pid: nat, run: Run, luck: Luck, times: Times, ghost path0: seq<State>, ghost start: State)
    returns (ok: bool, t: State, ghost path: seq<State>)
    requires Came(env, path0, start, s, pid, run) && At(s, pid, Pulsed(luck.high && luck.low)) && s.highs != []
    requires s.now <= times.record && Runs(s, pid, run)
    ensures Came(env, path, start, t, pid, run) && At(t, pid, Ending)
    ensures t.lock == s.lock && t.claims == s.claims && t.pinHigh == s.pinHigh && ok == Worked(luck)
    ensures t.highs == WithOutcome(s.highs, if ok then Completed(times.record) else Unrecorded)
    ensures t.journal == s.journal + PulseLine(run, luck, times)
  {
    hide Matching, LastPulse, Came, WithOutcome;
    ok := luck.high && luck.low && luck.recorded;
    var u := s.(now := times.record);
    t := Move(Log(u, pid, if luck.high && luck.low then PulseCompleted else Fault, luck.recorded)
                .(highs := WithOutcome(s.highs, if ok then Completed(times.record) else Unrecorded)), pid, Ending);
    Go(env, path0, start, s, times.record, t, pid, run, Record(pid, luck.recorded));
    path := path0 + [u] + [t];
  }

  /** The exclusive claim, or its refusal. */
  method TakeClaim(env: Env, s: State, pid: nat, run: Run, luck: Luck, times: Times, ghost path0: seq<State>, ghost start: State)
    returns (ok: bool, t: State, ghost path: seq<State>)
    requires Came(env, path0, start, s, pid, run) && At(s, pid, Ready) && Runs(s, pid, run)
    requires s.now <= times.claim <= times.announce
    ensures Came(env, path, start, t, pid, run) && At(t, pid, if ok then Claimed else Ending) && Runs(t, pid, run)
    ensures ok <==> Granted(env, s, run, luck, times.claim)
    ensures t.lock == s.lock && t.highs == s.highs && t.now <= times.announce
    ensures t.claims == ClaimsAfter(env, s, pid, run, luck, times.claim)
    ensures t.journal == s.journal + if ok then [] else Written(Refused, run, times.announce, luck.refusalLogged)
  {
    hide Matching, LastPulse, Came, Log;
    ok := Granted(env, s, run, luck, times.claim);
    t, path := s, path0;
    if Creatable(env, s, run, luck, times.claim) {
      var u := s.(now := times.claim);
      t := Move(u.(claims := s.claims[run.reference := if ok then ByRun(pid) else Torn]), pid, if ok then Claimed else Denied);
      MatchingMoves(env, s, u, run);
      Go(env, path0, start, s, times.claim, t, pid, run, Grant(pid, ok));
      path := path0 + [u] + [t];
    }
    if !ok {
      t, path := Refusal(env, t, pid, run, luck, times.announce, path, start);
    }
  }

  method Refusal(env: Env, s: State, pid: nat, run: Run, luck: Luck, at: int, ghost path0: seq<State>, ghost start: State)
    returns (t: State, ghost path: seq<State>)
    requires Came(env, path0, start, s, pid, run) && (At(s, pid, Ready) || At(s, pid, Denied)) && s.now <= at && Runs(s, pid, run)
    ensures Came(env, path, start, t, pid, run) && At(t, pid, Ending) && Runs(t, pid, run)
    ensures t.lock == s.lock && t.highs == s.highs && t.now == at && t.claims == s.claims
    ensures t.journal == s.journal + Written(Refused, run, at, luck.refusalLogged)
  {
    hide Matching, LastPulse, Came;
    t := Move(Log(s.(now := at), pid, Refused, luck.refusalLogged), pid, Ending);
    Go(env, path0, start, s, at, t, pid, run, Refuse(pid, luck.refusalLogged));
    path := path0 + [s.(now := at)] + [t];
  }

  /** Everything that has to hold before a cooled real run commands HIGH. */
  predicate Fires(env: Env, s: State, run: Run, luck: Luck, times: Times) {
    luck.preflight && Granted(env, s, run, luck, times.claim) && luck.announced
  }

  /** The real branch: preflight LOW, the exclusive claim, the announcement, the pulse. */
  method Fire(env: Env, s: State, pid: nat, run: Run, luck: Luck, times: Times, ghost path0: seq<State>, ghost start: State)
    returns (ok: bool, t: State, ghost path: seq<State>)
    requires Came(env, path0, start, s, pid, run) && At(s, pid, Cooled) && !run.dry && Runs(s, pid, run)
    requires Timely(s.now, times, run, luck)
    ensures Came(env, path, start, t, pid, run) && At(t, pid, Ending) && t.lock == s.lock
    ensures ok <==> Fires(env, s, run, luck, times) && Worked(luck)
    ensures t.highs == s.highs + if Fires(env, s, run, luck, times) then [PulseOf(pid, run, luck, times)] else []
    ensures t.claims == if luck.preflight then ClaimsAfter(env, s, pid, run, luck, times.claim) else s.claims
    ensures t.journal == s.journal + CooledLines(env, s, run, luck, times)
    ensures Fires(env, s, run, luck, times) ==> (t.pinHigh <==> !luck.low)
  {
    hide Matching, LastPulse, Came, Granted, Creatable, ClaimedLines, PulseOf, Worked;
    ok := false;
    var u := s.(now := times.read);
    t := Move(u.(pinHigh := s.pinHigh && !luck.preflight), pid, if luck.preflight then Ready else Ending);
    Go(env, path0, start, s, times.read, t, pid, run, Preflight(pid, luck.preflight, s.pinHigh && !luck.preflight));
    path := path0 + [u] + [t];
    if !luck.preflight {
      return;
    }
    GrantedMoves(env, s, t, pid, run, luck, times.claim);
    var granted: bool;
    granted, t, path := TakeClaim(env, t, pid, run, luck, times, path, start);
    if !granted {
      return;
    }
    ok, t, path := AnnounceAndPulse(env, t, pid, run, luck, times, path, start);
  }

  method AnnounceAndPulse(env: Env, s: State, pid: nat, run: Run, luck: Luck, times: Times, ghost path0: seq<State>, ghost start: State)
    returns (ok: bool, t: State, ghost path: seq<State>)
    requires Came(env, path0, start, s, pid, run) && At(s, pid, Claimed) && Runs(s, pid, run)
    requires s.now <= times.announce <= times.high <= times.low <= times.record && (luck.high ==> times.high + PULSE_MS <= times.low)
    ensures Came(env, path, start, t, pid, run) && At(t, pid, Ending) && t.lock == s.lock && t.claims == s.claims
    ensures ok <==> luck.announced && Worked(luck)
    ensures t.highs == s.highs + if luck.announced then [PulseOf(pid, run, luck, times)] else []
    ensures t.journal == s.journal + ClaimedLines(run, luck, times)
    ensures luck.announced ==> (t.pinHigh <==> !luck.low)
  {
    hide Matching, LastPulse, Came;
    ok := false;
    t := Move(Log(s.(now := times.announce), pid, Actuating, luck.announced), pid, if luck.announced then Armed else Ending);
    Go(env, path0, start, s, times.announce, t, pid, run, Announce(pid, luck.announced));
    path := path0 + [s.(now := times.announce)] + [t];
    if luck.announced {
      ok, t, path := Pulse(env, t, pid, run, luck, times, path, start);
    }
  }

  lemma GrantedMoves(env: Env, s: State, t: State, pid: nat, run: Run, luck: Luck, at: int)
    requires t.orders == s.orders && t.claims == s.claims
    ensures Creatable(env, t, run, luck, at) <==> Creatable(env, s, run, luck, at)
    ensures Granted(env, t, run, luck, at) <==> Granted(env, s, run, luck, at)
    ensures ClaimsAfter(env, t, pid, run, luck, at) == ClaimsAfter(env, s, pid, run, luck, at)
  {
    MatchingMoves(env, s, t, run);
  }

  lemma MatchingMoves(env: Env, s: State, t: State, run: Run)
    requires t.orders == s.orders
    ensures Matching(env, t, run) <==> Matching(env, s, run)
  {
  }

  /** The dry branch: the order is validated, then the pulse is only slept out. */
  method Rehearsal(env: Env, s: State, pid: nat, run: Run, luck: Luck, times: Times, ghost path0: seq<State>, ghost start: State)
    returns (ok: bool, t: State, ghost path: seq<State>)
    requires Came(env, path0, start, s, pid, run) && At(s, pid, Cooled) && run.dry && Runs(s, pid, run)
    requires Timely(s.now, times, run, luck)
    ensures Came(env, path, start, t, pid, run) && At(t, pid, Ending) && t.lock == s.lock
    ensures ok <==> Matching(env, s, run) && luck.simulationLogged
    ensures t.highs == s.highs && t.claims == s.claims && t.pinHigh == s.pinHigh
    ensures t.journal == s.journal + CooledLines(env, s, run, luck, times)
  {
    hide Matching, LastPulse, Came, Granted;
    var u := s.(now := times.claim);
    MatchingMoves(env, s, u, run);
    ok := Matching(env, s, run);
    t := Move(u, pid, if ok then Rehearsing(times.claim) else Ending);
    Go(env, path0, start, s, times.claim, t, pid, run, Rehearse(pid));
    path := path0 + [u] + [t];
    if ok {
      ghost var rehearsed := t;
      ok := luck.simulationLogged;
      t := Move(Log(t.(now := times.record), pid, Simulated, ok), pid, Ending);
      Go(env, path, start, rehearsed, times.record, t, pid, run, Simulate(pid, ok));
      path := path + [rehearsed.(now := times.record)] + [t];
    }
  }

  /** The cooldown: one reading of the clock, then the journal. */
  method Cool(env: Env, s: State, pid: nat, run: Run, luck: Luck, times: Times, ghost path0: seq<State>, ghost start: State)
    returns (ok: bool, t: State, ghost path: seq<State>)
    requires Came(env, path0, start, s, pid, run) && At(s, pid, Locked) && Runs(s, pid, run)
    requires s.now <= times.read <= times.claim
    ensures Came(env, path, start, t, pid, run) && At(t, pid, if ok then Cooled else Ending) && Runs(t, pid, run)
    ensures ok <==> Cold(s, times.read)
    ensures t.lock == s.lock && t.highs == s.highs && t.claims == s.claims && t.orders == s.orders && (ok ==> t.now == times.read)
    ensures t.journal == s.journal + if ok then [] else Written(Refused, run, times.claim, luck.refusalLogged)
  {
    hide Matching, LastPulse, Came;
    var timed := Move(s.(now := times.read), pid, Timed(times.read));
    Go(env, path0, start, s, times.read, timed, pid, run, ReadClock(pid));
    path := path0 + [s.(now := times.read)] + [timed];
    var last := LastPulseMs(s.journal);
    ok := times.read - last >= COOLDOWN_MS;
    ghost var at := if ok then times.read else times.claim;
    var u := timed.(now := if ok then times.read else times.claim);
    t := if ok then Move(u, pid, Cooled) else Move(Log(u, pid, Refused, luck.refusalLogged), pid, Ending);
    Go(env, path, start, timed, at, t, pid, run, CoolDown(pid, luck.refusalLogged));
    path := path + [u] + [t];
  }

  /** The try block: cooldown, then the dry or the real branch. */
  method Guarded(env: Env, s: State, pid: nat, run: Run, luck: Luck, times: Times, ghost path0: seq<State>, ghost start: State)
    returns (ok: bool, t: State, ghost path: seq<State>)
    requires Came(env, path0, start, s, pid, run) && At(s, pid, Locked) && Runs(s, pid, run) && Timely(s.now, times, run, luck)
    ensures Came(env, path, start, t, pid, run) && At(t, pid, Ending) && t.lock == s.lock
    ensures ok <==> Cold(s, times.read) && if run.dry then Matching(env, s, run) && luck.simulationLogged
                                           else Fires(env, s, run, luck, times) && Worked(luck)
    ensures t.highs == s.highs + if Pulses(env, s, run, luck, times) then [PulseOf(pid, run, luck, times)] else []
    ensures t.claims == if Cold(s, times.read) && !run.dry && luck.preflight
                        then ClaimsAfter(env, s, pid, run, luck, times.claim) else s.claims
    ensures t.journal == s.journal + Lines(env, s, run, luck, times)
    ensures Pulses(env, s, run, luck, times) ==> (t.pinHigh <==> !luck.low)
  {
    hide Matching, LastPulse, Came, Granted, ClaimedLines, PulseOf, Worked;
    ok, t, path := Cool(env, s, pid, run, luck, times, path0, start);
    if !ok {
      return;
    }
    MatchingMoves(env, s, t, run);
    GrantedMoves(env, s, t, pid, run, luck, times.claim);
    if run.dry {
      ok, t, path := Rehearsal(env, t, pid, run, luck, times, path, start);
    } else {
      ok, t, path := Fire(env, t, pid, run, luck, times, path, start);
    }
  }

  /** Everything that has to hold before a real run commands HIGH. */
  predicate Pulses(env: Env, s: State, run: Run, luck: Luck, times: Times) {
    !run.dry && Cold(s, times.read) && Fires(env, s, run, luck, times)
  }

  /** The finally block. */
  method Unlock(env: Env, s: State, pid: nat, run: Run, luck: Luck, ghost path0: seq<State>, ghost start: State)
    returns (t: State, ghost path: seq<State>)
    requires Came(env, path0, start, s, pid, run) && At(s, pid, Ending)
    ensures Came(env, path, start, t, pid, run) && At(t, pid, Gone)
    ensures t == s.(lock := t.lock, procs := t.procs) && t.lock == if luck.unlinked then None else s.lock
  {
    hide Matching, LastPulse, Came;
    t := Move(if luck.unlinked then s.(lock := None) else s, pid, Gone);
    Go(env, path0, start, s, s.now, t, pid, run, Release(pid, luck.unlinked));
    path := path0 + [s.(now := s.now)] + [t];
  }

  /** Launch and the exclusive lock; a run that does not get it leaves everything as it was. */
  method Enter(env: Env, s: State, pid: nat, run: Run, luck: Luck)
    returns (ok: bool, t: State, ghost path: seq<State>, ghost started: State)
    requires pid !in s.procs
    ensures started == s.(procs := s.procs[pid := Process(run, Started)]) && Steps(env, s, started)
    ensures Came(env, path, started, t, pid, run) && At(t, pid, if ok then Locked else Gone) && Runs(t, pid, run)
    ensures ok <==> Entered(s, luck)
    ensures t == s.(lock := t.lock, procs := t.procs) && t.lock == if s.lock.None? then Some(pid) else s.lock
  {
    hide Matching, LastPulse;
    started := s.(procs := s.procs[pid := Process(run, Started)]);
    var u := s.(procs := s.procs[pid := Process(run, Started)]);
    assert Next(env, s, u, Launch(pid, run));
    path := [u];
    assert Came(env, path, started, u, pid, run);
    hide Came;
    ok := s.lock.None? && luck.lockWritten;
    if s.lock.Some? {
      t := Move(u, pid, Gone);
      Go(env, path, started, u, s.now, t, pid, run, Busy(pid));
    } else {
      t := Move(u.(lock := Some(pid)), pid, if luck.lockWritten then Locked else Gone);
      Go(env, path, started, u, s.now, t, pid, run, Acquire(pid, luck.lockWritten));
    }
    path := path + [u.(now := s.now)] + [t];
  }

  /** The run gets the lock. */
  predicate Entered(s: State, luck: Luck) {
    s.lock.None? && luck.lockWritten
  }

  /**
   * One whole run: exactly when it exits with 0; exactly when, and at which time, it commands HIGH, which
   * a run that exits with 1 may have done too; what it writes into journal and claims. A held lock stops
   * it before it touches anything, and the lock it took is released on every way out but a failed write of
   * the lock itself and a failed unlink.
   */
  method RunOnce(env: Env, s: State, pid: nat, run: Run, luck: Luck, times: Times)
    returns (exit: nat, t: State, ghost path: seq<State>)
    requires pid !in s.procs && Timely(s.now, times, run, luck)
    ensures Path(env, path) && path[0] == s && path[|path| - 1] == t && At(t, pid, Gone)
    ensures exit == 0 <==> && Entered(s, luck) && Cold(s, times.read)
                           && if run.dry then Matching(env, s, run) && luck.simulationLogged
                              else Fires(env, s, run, luck, times) && Worked(luck)
    ensures t.highs == s.highs + if Entered(s, luck) && Pulses(env, s, run, luck, times)
                                 then [PulseOf(pid, run, luck, times)] else []
    ensures t.journal == s.journal + if Entered(s, luck) then Lines(env, s, run, luck, times) else []
    ensures t.claims == if Entered(s, luck) && Cold(s, times.read) && !run.dry && luck.preflight
                        then ClaimsAfter(env, s, pid, run, luck, times.claim) else s.claims
    ensures t.lock == if s.lock.Some? then s.lock else if luck.lockWritten && luck.unlinked then None else Some(pid)
    ensures Entered(s, luck) && Pulses(env, s, run, luck, times) ==> (t.pinHigh <==> !luck.low)
  {
    hide Matching, LastPulse, Came, Granted, Fires, CooledLines, PulseOf, Worked;
    exit := 1;
    ghost var started: State;
    var ok: bool;
    ok, t, path, started := Enter(env, s, pid, run, luck);
    if ok {
      SameRun(env, s, t, pid, run, luck, times);
      ok, t, path := Guarded(env, t, pid, run, luck, times, path, started);
      exit := if ok then 0 else 1;
      t, path := Unlock(env, t, pid, run, luck, path, started);
    }
    FromTheStart(env, s, started, path, t, pid, run);
    path := [s] + path;
  }

  /** Entering changes nothing that decides what the run does. */
  lemma SameRun(env: Env, s: State, t: State, pid: nat, run: Run, luck: Luck, times: Times)
    requires t == s.(lock := t.lock, procs := t.procs)
    ensures Matching(env, t, run) <==> Matching(env, s, run)
    ensures Cold(t, times.read) <==> Cold(s, times.read)
    ensures Fires(env, t, run, luck, times) <==> Fires(env, s, run, luck, times)
    ensures CooledLines(env, t, run, luck, times) == CooledLines(env, s, run, luck, times)
    ensures ClaimsAfter(env, t, pid, run, luck, times.claim) == ClaimsAfter(env, s, pid, run, luck, times.claim)
  {
    MatchingMoves(env, s, t, run);
    GrantedMoves(env, s, t, pid, run, luck, times.claim);
    hide Matching, LastPulse;
  }

  lemma FromTheStart(env: Env, s: State, started: State, path: seq<State>, t: State, pid: nat, run: Run)
    requires Steps(env, s, started) && Came(env, path, started, t, pid, run)
    ensures Path(env, [s] + path) && ([s] + path)[0] == s && ([s] + path)[|path|] == t
  {
    hide Steps;
    var r := [s] + path;
    forall i | 0 <= i < |r| - 1 ensures Steps(env, r[i], r[i + 1]) {
      if i > 0 {
        assert Steps(env, path[i - 1], path[i]);
      }
    }
  }

  // ---- The outcome, spelled out --------------------------------------------------------------

  /** The order of this reference is on file and the payment matches it. */
  predicate Matches(env: Env, s: State, run: Run) {
    run.reference in s.orders && env.accepts(run.reference, run.raw, s.orders[run.reference])
  }

  /** A run that gets this far pulses. */
  predicate Reaches(env: Env, s: State, run: Run, luck: Luck, times: Times) {
    && !run.dry && times.read - LastPulse(s.journal) >= 3_000 && luck.preflight
    && Matches(env, s, run) && run.reference !in s.claims && 0 <= times.claim <= 9_007_199_254_740_991
    && luck.claimCreated && luck.claimWritten && luck.announced
  }

  /** The terms in which a run's outcome is stated, each in those of the state it starts from and of its luck. */
  lemma OutcomeIs(env: Env, s: State, pid: nat, run: Run, luck: Luck, times: Times)
    ensures Entered(s, luck) <==> s.lock == None && luck.lockWritten
    ensures Cold(s, times.read) <==> times.read - LastPulse(s.journal) >= 3_000
    ensures Matching(env, s, run) <==> Matches(env, s, run)
    ensures Pulses(env, s, run, luck, times) <==> Reaches(env, s, run, luck, times)
    ensures Worked(luck) <==> luck.high && luck.low && luck.recorded
    ensures PulseOf(pid, run, luck, times) ==
            High(pid, run.reference, times.high, luck.high,
                 if luck.high && luck.low && luck.recorded then Completed(times.record) else Unrecorded)
    ensures Lines(env, s, run, luck, times) ==
            if times.read - LastPulse(s.journal) < 3_000 then
              (if luck.refusalLogged then [Entry(Refused, run.reference, Some(times.claim))] else [])
            else if run.dry then
              (if Matches(env, s, run) && luck.simulationLogged then [Entry(Simulated, run.reference, Some(times.record))] else [])
            else if !luck.preflight then []
            else if !Matches(env, s, run) || run.reference in s.claims || times.claim < 0 || times.claim > 9_007_199_254_740_991
                    || !luck.claimCreated || !luck.claimWritten then
              (if luck.refusalLogged then [Entry(Refused, run.reference, Some(times.announce))] else [])
            else if !luck.announced then []
            else [Entry(Actuating, run.reference, Some(times.announce))]
                 + if !luck.recorded then []
                   else [Entry(if luck.high && luck.low then PulseCompleted else Fault, run.reference, Some(times.record))]
    ensures ClaimsAfter(env, s, pid, run, luck, times.claim) ==
            if Matches(env, s, run) && run.reference !in s.claims && 0 <= times.claim <= 9_007_199_254_740_991 && luck.claimCreated
            then s.claims[run.reference := if luck.claimWritten then ByRun(pid) else Torn] else s.claims
  {
    hide LastPulse;
  }
}
