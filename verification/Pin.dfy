/** scripts/actuator.mjs: the pin, the dry runs and the claims, step by step over all interleavings. */
module Pin {
  // What Actuator.dfy proves about HIGH commands is about what is journalled and claimed. This is about the pin
  // itself, and about what a run may do at all.

  import opened Wrappers
  import opened Actuator

  predicate Prepared(p: Place) {
    p.Ready? || p.Denied? || p.Claimed? || p.Armed?
  }

  /** The pin under a run that is past its preflight, and the kind of run that it is. */
  predicate PinAt(s: State, pid: nat)
    requires pid in s.procs
  {
    var p := s.procs[pid];
    && (Prepared(p.place) ==> !s.pinHigh && !p.run.dry)
    && (p.place.Pulsing? && p.place.ok ==> s.pinHigh)
    && (p.place.Pulsed? && p.place.ok ==> !s.pinHigh)
    && (p.place.Rehearsing? ==> p.run.dry)
  }

  predicate PinInv(s: State) {
    && (forall pid :: pid in s.procs ==> PinAt(s, pid))
    && (forall r :: r in s.claims && s.claims[r].ByRun? ==> s.claims[r].pid in s.procs && !s.procs[s.claims[r].pid].run.dry)
  }

  // ---- One step ----------------------------------------------------------------------------

  /** The process that takes the step. */
  predicate Acts(step: Step, pid: nat) {
    !step.Tick? && !step.Persist? && !step.ClaimElsewhere? && step.pid == pid
  }

  /** The steps up to the claim, and those from it on. */
  predicate Early(step: Step) {
    step.Acquire? || step.Busy? || step.ReadClock? || step.CoolDown? || step.Rehearse? || step.Simulate? || step.Preflight?
  }

  /** A step changes its own process at most, and never which run that is. */
  predicate Touches(s: State, s': State, step: Step) {
    if step.Tick? || step.Persist? || step.ClaimElsewhere? then s'.procs == s.procs
    else && step.pid in s'.procs && s'.procs == s.procs[step.pid := s'.procs[step.pid]]
         && (step.pid in s.procs ==> s'.procs[step.pid].run == s.procs[step.pid].run)
  }

  lemma EarlyTouches(env: Env, s: State, s': State, step: Step)
    requires Next(env, s, s', step) && Early(step)
    ensures Touches(s, s', step)
  {
    hide Matching, LastPulse, WithOutcome;
  }

  lemma LateTouches(env: Env, s: State, s': State, step: Step)
    requires Next(env, s, s', step) && !Early(step)
    ensures Touches(s, s', step)
  {
    hide Matching, LastPulse, WithOutcome;
  }

  lemma StepTouches(env: Env, s: State, s': State, step: Step)
    requires Next(env, s, s', step)
    ensures Touches(s, s', step)
  {
    hide Next, Touches;
    if Early(step) {
      EarlyTouches(env, s, s', step);
    } else {
      LateTouches(env, s, s', step);
    }
  }

  lemma Others(env: Env, s: State, s': State, step: Step, pid: nat)
    requires Next(env, s, s', step) && !Acts(step, pid)
    ensures pid in s'.procs <==> pid in s.procs
    ensures pid in s.procs ==> s'.procs[pid] == s.procs[pid]
  {
    hide Next;
    StepTouches(env, s, s', step);
  }

  /** Only the preflight and a pulse's own commands touch the pin. */
  predicate Commands(step: Step) {
    step.Preflight? || step.Raise? || step.Lower?
  }

  lemma PinStays(env: Env, s: State, s': State, step: Step)
    requires Next(env, s, s', step)
    ensures s'.pinHigh == s.pinHigh || Commands(step)
    ensures Commands(step) ==> step.pid in s.procs && Holding(s.procs[step.pid].place)
  {
    hide Matching, LastPulse, WithOutcome;
  }

  lemma ClaimsStay(env: Env, s: State, s': State, step: Step, r: string)
    requires Next(env, s, s', step)
    ensures r in s.claims ==> r in s'.claims && s'.claims[r] == s.claims[r]
    ensures r !in s.claims && r in s'.claims && s'.claims[r].ByRun? ==>
              step == Grant(s'.claims[r].pid, true) && s.procs[step.pid].run.reference == r
  {
    hide Matching, LastPulse, WithOutcome;
  }

  lemma RunStays(env: Env, s: State, s': State, step: Step, pid: nat)
    requires Next(env, s, s', step) && pid in s.procs
    ensures pid in s'.procs && s'.procs[pid].run == s.procs[pid].run
  {
    hide Next;
    StepTouches(env, s, s', step);
  }

  /** What the acting run's pin and place come to. */
  lemma EarlyPin(env: Env, s: State, s': State, step: Step, pid: nat)
    requires Next(env, s, s', step) && Acts(step, pid) && Early(step) && (pid in s.procs ==> PinAt(s, pid))
    ensures pid in s'.procs && PinAt(s', pid)
  {
    hide Matching, LastPulse, WithOutcome;
  }

  lemma LatePin(env: Env, s: State, s': State, step: Step, pid: nat)
    requires Next(env, s, s', step) && Acts(step, pid) && !Early(step) && (pid in s.procs ==> PinAt(s, pid))
    ensures pid in s'.procs && PinAt(s', pid)
  {
    hide Matching, LastPulse, WithOutcome;
  }

  lemma ActorPin(env: Env, s: State, s': State, step: Step, pid: nat)
    requires Next(env, s, s', step) && Acts(step, pid) && (pid in s.procs ==> PinAt(s, pid))
    ensures pid in s'.procs && PinAt(s', pid)
  {
    hide Next, PinAt;
    if Early(step) {
      EarlyPin(env, s, s', step, pid);
    } else {
      LatePin(env, s, s', step, pid);
    }
  }

  lemma NextKeeps(env: Env, s: State, s': State, step: Step)
    requires Inv(env, s) && PinInv(s) && Next(env, s, s', step)
    ensures PinInv(s')
  {
    PinStays(env, s, s', step);
    hide Next, ProcessInv, ClaimsInv, HighsInv, PinAt, Commands, Acts;
    forall pid | pid in s'.procs ensures PinAt(s', pid) {
      if Acts(step, pid) {
        assert pid in s.procs ==> PinAt(s, pid);
        ActorPin(env, s, s', step, pid);
      } else {
        Others(env, s, s', step, pid);
        assert PinAt(s, pid);
        OtherPin(env, s, s', step, pid);
      }
    }
    forall r | r in s'.claims && s'.claims[r].ByRun? ensures s'.claims[r].pid in s'.procs && !s'.procs[s'.claims[r].pid].run.dry {
      ClaimIsReal(env, s, s', step, r);
    }
  }

  lemma ClaimIsReal(env: Env, s: State, s': State, step: Step, r: string)
    requires PinInv(s) && Next(env, s, s', step) && r in s'.claims && s'.claims[r].ByRun?
    ensures s'.claims[r].pid in s'.procs && !s'.procs[s'.claims[r].pid].run.dry
  {
    hide Next;
    ClaimsStay(env, s, s', step, r);
    if r !in s.claims {
      GrantIsReal(env, s, s', step);
    }
    RunStays(env, s, s', step, s'.claims[r].pid);
  }

  lemma GrantIsReal(env: Env, s: State, s': State, step: Step)
    requires PinInv(s) && Next(env, s, s', step) && step.Grant?
    ensures step.pid in s.procs && s.procs[step.pid].place.Ready? && !s.procs[step.pid].run.dry && !s.pinHigh
  {
    hide Matching;
    assert PinAt(s, step.pid);
  }

  lemma OtherPin(env: Env, s: State, s': State, step: Step, pid: nat)
    requires Inv(env, s) && Next(env, s, s', step) && !Acts(step, pid) && pid in s.procs && pid in s'.procs
    requires s'.procs[pid] == s.procs[pid] && PinAt(s, pid)
    ensures PinAt(s', pid)
  {
    PinStays(env, s, s', step);
    hide Next, ClaimsInv, HighsInv, LastPulse;
    assert ProcessInv(s, pid);
    if Commands(step) {
      assert ProcessInv(s, step.pid);
    }
  }

  lemma InitialPin(s: State)
    requires Initial(s)
    ensures PinInv(s)
  {
  }

  lemma {:induction false} ReachablePin(env: Env, run: seq<State>, i: nat)
    requires Execution(env, run) && i < |run|
    ensures PinInv(run[i])
  {
    hide Inv, PinInv, Next, Initial;
    if i == 0 {
      InitialPin(run[0]);
    } else {
      ReachablePin(env, run, i - 1);
      ReachableInv(env, run, i - 1);
      assert Steps(env, run[i - 1], run[i]);
      var step :| Next(env, run[i - 1], run[i], step);
      NextKeeps(env, run[i - 1], run[i], step);
    }
  }

  // ---- Main results ------------------------------------------------------------------------

  /** The pin is LOW from the preflight up to the HIGH command, HIGH throughout a successful pulse, and LOW after it. */
  lemma PinFollows(env: Env, run: seq<State>, i: nat, pid: nat)
    requires Execution(env, run) && i < |run| && pid in run[i].procs
    ensures var place := run[i].procs[pid].place;
            && (place.Ready? || place.Denied? || place.Claimed? || place.Armed? ==> !run[i].pinHigh)
            && (place.Pulsing? && place.ok ==> run[i].pinHigh)
            && (place.Pulsed? && place.ok ==> !run[i].pinHigh)
  {
    ReachablePin(env, run, i);
    assert PinAt(run[i], pid);
  }

  /** A dry run gets no claim and commands no HIGH, and only a dry run rehearses. */
  lemma DryIsInert(env: Env, run: seq<State>, i: nat, pid: nat)
    requires Execution(env, run) && i < |run| && pid in run[i].procs
    ensures run[i].procs[pid].run.dry ==>
              && (forall r :: r in run[i].claims ==> run[i].claims[r] != ByRun(pid))
              && (forall k :: 0 <= k < |run[i].highs| ==> run[i].highs[k].pid != pid)
    ensures run[i].procs[pid].place.Rehearsing? ==> run[i].procs[pid].run.dry
  {
    ReachablePin(env, run, i);
    ReachableInv(env, run, i);
    assert PinAt(run[i], pid);
    hide ProcessesInv, ClaimsInv, LastPulse, Matching, Execution;
    forall k | 0 <= k < |run[i].highs| && run[i].procs[pid].run.dry ensures run[i].highs[k].pid != pid {
      assert HighInv(run[i], k);
    }
  }

  /** The pin rises at no other time than when an announced run commands it. */
  lemma RisesByCommand(env: Env, run: seq<State>, i: nat)
    requires Execution(env, run) && i + 1 < |run| && !run[i].pinHigh && run[i + 1].pinHigh
    ensures exists pid :: pid in run[i].procs && (run[i].procs[pid].place.Armed? || run[i].procs[pid].place.Pulsing?)
  {
    assert Steps(env, run[i], run[i + 1]);
    var step :| Next(env, run[i], run[i + 1], step);
    PinStays(env, run[i], run[i + 1], step);
    hide Matching, LastPulse, WithOutcome;
  }

  /**
   * A claim is granted to a real run that is ready for it and whose payment matches the order, while the clock shows a
   * safe timestamp, and to nobody else: an earlier claim stays.
   */
  lemma GrantIsValid(env: Env, run: seq<State>, i: nat, r: string, pid: nat)
    requires Execution(env, run) && i + 1 < |run| && r in run[i + 1].claims && run[i + 1].claims[r] == ByRun(pid)
    requires r !in run[i].claims || run[i].claims[r] != ByRun(pid)
    ensures r !in run[i].claims && 0 <= run[i].now <= 9_007_199_254_740_991
    ensures pid in run[i].procs && run[i].procs[pid].place.Ready? && run[i].procs[pid].run.reference == r
    ensures !run[i].procs[pid].run.dry && run[i].lock == Some(pid) && !run[i].pinHigh
    ensures r in run[i].orders && env.accepts(r, run[i].procs[pid].run.raw, run[i].orders[r])
  {
    ReachablePin(env, run, i);
    ReachableInv(env, run, i);
    assert Steps(env, run[i], run[i + 1]);
    var step :| Next(env, run[i], run[i + 1], step);
    hide Execution, LastPulse, WithOutcome, ClaimsInv, HighsInv;
    ClaimsStay(env, run[i], run[i + 1], step, r);
    Granted(env, run[i], run[i + 1], r, pid);
  }

  lemma Granted(env: Env, s: State, s': State, r: string, pid: nat)
    requires Inv(env, s) && PinInv(s) && Next(env, s, s', Grant(pid, true)) && pid in s.procs && s.procs[pid].run.reference == r
    ensures r !in s.claims && 0 <= s.now <= 9_007_199_254_740_991 && s.procs[pid].place.Ready?
    ensures !s.procs[pid].run.dry && s.lock == Some(pid) && !s.pinHigh
    ensures r in s.orders && env.accepts(r, s.procs[pid].run.raw, s.orders[r])
  {
    hide ClaimsInv, HighsInv, LastPulse;
    assert PinAt(s, pid) && ProcessInv(s, pid);
  }

  /** A rehearsal of a matching order ends after 400 ms at the earliest, and then in nothing but a line that says so. */
  lemma RehearsalSleeps(env: Env, run: seq<State>, i: nat, pid: nat)
    requires Execution(env, run) && i + 1 < |run| && pid in run[i].procs && run[i].procs[pid].place.Rehearsing?
    requires pid in run[i + 1].procs && run[i + 1].procs[pid].place != run[i].procs[pid].place
    ensures var p, now := run[i].procs[pid], run[i].now;
            || (run[i + 1].procs[pid].place.Gone? && run[i + 1].journal == run[i].journal)
            || (run[i + 1].procs[pid].place.Ending? && now >= p.place.sinceMs + 400
                && (run[i + 1].journal == run[i].journal
                    || run[i + 1].journal == run[i].journal + [Entry(Simulated, p.run.reference, Some(now))]))
  {
    assert Steps(env, run[i], run[i + 1]);
    var step :| Next(env, run[i], run[i + 1], step);
    hide Execution;
    if !Acts(step, pid) {
      Others(env, run[i], run[i + 1], step, pid);
    } else {
      EndsRehearsal(env, run[i], run[i + 1], step, pid);
    }
  }

  lemma EndsRehearsal(env: Env, s: State, s': State, step: Step, pid: nat)
    requires Next(env, s, s', step) && Acts(step, pid) && pid in s.procs && s.procs[pid].place.Rehearsing? && pid in s'.procs
    ensures var p := s.procs[pid];
            || (s'.procs[pid].place.Gone? && s'.journal == s.journal)
            || (s'.procs[pid].place.Ending? && s.now >= p.place.sinceMs + 400
                && (s'.journal == s.journal || s'.journal == s.journal + [Entry(Simulated, p.run.reference, Some(s.now))]))
  {
    hide Matching, LastPulse, WithOutcome;
    assert step.Simulate? || step.Crash?;
  }

  /** A run starts to rehearse only with an order that its payment matches, after a cooldown of 3000 ms. */
  lemma RehearsalIsValid(env: Env, run: seq<State>, i: nat, pid: nat)
    requires Execution(env, run) && i + 1 < |run| && pid in run[i + 1].procs && run[i + 1].procs[pid].place.Rehearsing?
    requires pid !in run[i].procs || !run[i].procs[pid].place.Rehearsing?
    ensures pid in run[i].procs && run[i].procs[pid].run.dry && run[i + 1].procs[pid].place.sinceMs == run[i].now
    ensures run[i].now >= LastPulse(run[i].journal) + 3_000
    ensures var r := run[i].procs[pid].run;
            r.reference in run[i].orders && env.accepts(r.reference, r.raw, run[i].orders[r.reference])
  {
    ReachableInv(env, run, i);
    assert Steps(env, run[i], run[i + 1]);
    var step :| Next(env, run[i], run[i + 1], step);
    hide Execution;
    if !Acts(step, pid) {
      Others(env, run[i], run[i + 1], step, pid);
    }
    StartsRehearsal(env, run[i], run[i + 1], step, pid);
  }

  lemma StartsRehearsal(env: Env, s: State, s': State, step: Step, pid: nat)
    requires Inv(env, s) && Next(env, s, s', step) && Acts(step, pid)
    requires pid in s'.procs && s'.procs[pid].place.Rehearsing? && (pid !in s.procs || !s.procs[pid].place.Rehearsing?)
    ensures pid in s.procs && s.procs[pid].run.dry && s'.procs[pid].place.sinceMs == s.now
    ensures s.now >= LastPulse(s.journal) + 3_000
    ensures var r := s.procs[pid].run; r.reference in s.orders && env.accepts(r.reference, r.raw, s.orders[r.reference])
  {
    hide LastPulse, WithOutcome, ClaimsInv, HighsInv;
    assert step == Rehearse(pid);
    assert ProcessInv(s, pid);
  }

  // ---- The journal -------------------------------------------------------------------------

  /** The cooldown counts from the newest line that says a pulse was completed or its goods delivered. */
  lemma {:induction false} LastPulseIs(journal: seq<Line>, k: nat)
    requires k < |journal| && journal[k].Entry? && (journal[k].event == PulseCompleted || journal[k].event == Delivered)
    requires forall i :: k < i < |journal| ==>
               journal[i].Malformed? || (journal[i].event != PulseCompleted && journal[i].event != Delivered)
    ensures LastPulse(journal) == if journal[k].atMs.Some? then journal[k].atMs.value else 0
  {
    if k < |journal| - 1 {
      var init := journal[..|journal| - 1];
      assert forall i :: 0 <= i < |init| ==> init[i] == journal[i];
      LastPulseIs(init, k);
    }
  }

  lemma {:induction false} NoPulseYet(journal: seq<Line>)
    requires forall i :: 0 <= i < |journal| ==>
               journal[i].Malformed? || (journal[i].event != PulseCompleted && journal[i].event != Delivered)
    ensures LastPulse(journal) == 0
  {
    if journal != [] {
      NoPulseYet(journal[..|journal| - 1]);
    }
  }

  /** What a run may write, by where it is. */
  predicate Writes(p: Place, event: Event) {
    match event
    case Refused => p.Timed? || p.Ready? || p.Denied?
    case Simulated => p.Rehearsing?
    case Actuating => p.Claimed?
    case PulseCompleted => p.Pulsed? && p.ok
    case Fault => p.Pulsed? && !p.ok
    case _ => false
  }

  /** The journal only grows, by one line at a time, which says truly what its run is about to leave behind. */
  lemma JournalGrows(env: Env, run: seq<State>, i: nat)
    requires Execution(env, run) && i + 1 < |run| && run[i + 1].journal != run[i].journal
    ensures exists pid, event ::
              && pid in run[i].procs && Writes(run[i].procs[pid].place, event)
              && run[i + 1].journal == run[i].journal + [Entry(event, run[i].procs[pid].run.reference, Some(run[i].now))]
  {
    assert Steps(env, run[i], run[i + 1]);
    var step :| Next(env, run[i], run[i + 1], step);
    hide Execution;
    var event := LineOf(env, run[i], run[i + 1], step);
    assert Writes(run[i].procs[step.pid].place, event);
  }

  lemma LineOf(env: Env, s: State, s': State, step: Step) returns (event: Event)
    requires Next(env, s, s', step) && s'.journal != s.journal
    ensures !step.Tick? && !step.Persist? && !step.ClaimElsewhere? && step.pid in s.procs
    ensures Writes(s.procs[step.pid].place, event)
    ensures s'.journal == s.journal + [Entry(event, s.procs[step.pid].run.reference, Some(s.now))]
  {
    hide Matching, LastPulse, WithOutcome;
    event := match step
      case CoolDown(_, _) => Refused
      case Refuse(_, _) => Refused
      case Simulate(_, _) => Simulated
      case Announce(_, _) => Actuating
      case Record(pid, _) => if s.procs[pid].place.ok then PulseCompleted else Fault
      case _ => OtherEvent;
  }
}
