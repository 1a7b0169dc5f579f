/** scripts/actuator.mjs: interleaved runs on one host. */
module Actuator {
  // Any number of runs share a lock file, a journal, the orders directory and one pin. They interleave
  // step by step, and each may crash between any two steps.

  import opened Wrappers

  const COOLDOWN_MS: int := 3_000
  const PULSE_MS: int := 400

  // ---- The journal -------------------------------------------------------------------------

  datatype Event = Refused | Simulated | Actuating | Fault | PulseCompleted | Delivered | OtherEvent

  /** A journal line; one that is not an object with an event is skipped by every reader. */
  datatype Line = Entry(event: Event, reference: string, atMs: Option<int>) | Malformed

  predicate EndsPulse(l: Line) {
    l.Entry? && (l.event.PulseCompleted? || l.event.Delivered?)
  }

  /** The time of the newest line that ends a pulse; zero without one, or without a time in it. */
  function LastPulse(journal: seq<Line>): int {
    if journal == [] then 0
    else if EndsPulse(journal[|journal| - 1]) then
      (if journal[|journal| - 1].atMs.Some? then journal[|journal| - 1].atMs.value else 0)
    else LastPulse(journal[..|journal| - 1])
  }

  /** `lastPulseMs`: scan the lines backwards. */
  method LastPulseMs(journal: seq<Line>) returns (ms: int)
    ensures ms == LastPulse(journal)
  {
    var i := |journal|;
    assert journal[..i] == journal;
    while i > 0
      invariant 0 <= i <= |journal|
      invariant LastPulse(journal) == LastPulse(journal[..i])
    {
      i := i - 1;
      assert journal[..i + 1][..i] == journal[..i];
      if EndsPulse(journal[i]) {
        return if journal[i].atMs.Some? then journal[i].atMs.value else 0;
      }
    }
    return 0;
  }

  lemma LastPulseSnoc(journal: seq<Line>, l: Line)
    ensures LastPulse(journal + [l]) ==
            if EndsPulse(l) then (if l.atMs.Some? then l.atMs.value else 0) else LastPulse(journal)
  {
    assert (journal + [l])[..|journal|] == journal;
  }

  // ---- State -------------------------------------------------------------------------------

  /** The command line and the watch result, read before anything else. */
  datatype Run = Run(reference: string, raw: string, dry: bool)

  /** How far a run has come. */
  datatype Place =
    | Started
    | Locked                 // holds the lock file
    | Timed(atMs: int)       // has read the clock
    | Cooled                 // the cooldown is over
    | Rehearsing(sinceMs: int)         // a dry run that has validated its order sleeps as long as a pulse
    | Ready                  // the pin went LOW before anything is consumed
    | Denied                 // created the claim file but could not finish it
    | Claimed                // owns the one claim on the order
    | Armed                  // has journalled `actuating`
    | Pulsing(ok: bool, sinceMs: int)  // has commanded HIGH, and sleeps if that succeeded
    | Pulsed(ok: bool)       // has commanded LOW again
    | Ending                 // only the lock is left to release
    | Gone                   // exited or crashed

  datatype Process = Process(run: Run, place: Place)

  /** A claim file: by which run, by the claim script on its own, or created but not written. */
  datatype ClaimFile = ByRun(pid: nat) | Elsewhere | Torn

  datatype Outcome = InFlight | Completed(atMs: int) | Unrecorded

  /** One HIGH command, whether it succeeded, and what became of its pulse. */
  datatype High = High(pid: nat, reference: string, atMs: int, ok: bool, outcome: Outcome)

  datatype State = State(
    now: int,
    lock: Option<nat>,
    journal: seq<Line>,
    orders: map<string, string>,
    claims: map<string, ClaimFile>,
    pinHigh: bool,
    procs: map<nat, Process>,
    highs: seq<High>)

  /**
   * The validation of the claim script, as a function of the reference, the raw watch result and the
   * text of the order. What follows holds of any such function; Conservation.dfy uses the script's own.
   */
  datatype Env = Env(accepts: (string, string, string) -> bool)

  predicate At(s: State, pid: nat, place: Place) {
    pid in s.procs && s.procs[pid].place == place
  }

  function Move(s: State, pid: nat, place: Place): State
    requires pid in s.procs
  {
    s.(procs := s.procs[pid := s.procs[pid].(place := place)])
  }

  /** An append, which either happens whole or fails. */
  function Log(s: State, pid: nat, event: Event, written: bool): State
    requires pid in s.procs
  {
    if written then s.(journal := s.journal + [Entry(event, s.procs[pid].run.reference, Some(s.now))]) else s
  }

  predicate Matching(env: Env, s: State, run: Run) {
    run.reference in s.orders && env.accepts(run.reference, run.raw, s.orders[run.reference])
  }

  function Last(highs: seq<High>): High
    requires highs != []
  {
    highs[|highs| - 1]
  }

  function WithOutcome(highs: seq<High>, o: Outcome): seq<High>
    requires highs != []
  {
    highs[|highs| - 1 := Last(highs).(outcome := o)]
  }

  // ---- Steps -------------------------------------------------------------------------------

  datatype Step =
    | Tick(t: int)
    | Launch(pid: nat, run: Run)
    | Acquire(pid: nat, written: bool)
    | Busy(pid: nat)
    | ReadClock(pid: nat)
    | CoolDown(pid: nat, written: bool)
    | Rehearse(pid: nat)
    | Simulate(pid: nat, written: bool)
    | Preflight(pid: nat, ok: bool, pin: bool)
    | Grant(pid: nat, written: bool)
    | Refuse(pid: nat, written: bool)
    | Announce(pid: nat, written: bool)
    | Raise(pid: nat, ok: bool, pin: bool)
    | Lower(pid: nat, ok: bool, pin: bool)
    | Record(pid: nat, written: bool)
    | Release(pid: nat, unlinked: bool)
    | Crash(pid: nat)
    | Persist(reference: string, order: string)
    | ClaimElsewhere(reference: string)

  predicate Next(env: Env, s: State, s': State, step: Step) {
    match step
    // The clock never goes back.
    case Tick(t) => t >= s.now && s' == s.(now := t)
    case Launch(pid, run) => pid !in s.procs && s' == s.(procs := s.procs[pid := Process(run, Started)])
    // The lock is an exclusive create; a failed write exits at once and leaves the file.
    case Acquire(pid, written) =>
      && At(s, pid, Started) && s.lock.None?
      && s' == Move(s.(lock := Some(pid)), pid, if written then Locked else Gone)
    case Busy(pid) => At(s, pid, Started) && s' == Move(s, pid, Gone)
    case ReadClock(pid) => At(s, pid, Locked) && s' == Move(s, pid, Timed(s.now))
    case CoolDown(pid, written) =>
      && pid in s.procs && s.procs[pid].place.Timed?
      && s' == if s.procs[pid].place.atMs - LastPulse(s.journal) < COOLDOWN_MS
               then Move(Log(s, pid, Refused, written), pid, Ending) else Move(s, pid, Cooled)
    case Rehearse(pid) =>
      && At(s, pid, Cooled) && s.procs[pid].run.dry
      && s' == Move(s, pid, if Matching(env, s, s.procs[pid].run) then Rehearsing(s.now) else Ending)
    case Simulate(pid, written) =>
      && pid in s.procs && s.procs[pid].place.Rehearsing? && s.now >= s.procs[pid].place.sinceMs + PULSE_MS
      && s' == Move(Log(s, pid, Simulated, written), pid, Ending)
    case Preflight(pid, ok, pin) =>
      && At(s, pid, Cooled) && !s.procs[pid].run.dry && (ok ==> !pin) && (pin ==> s.pinHigh)
      && s' == Move(s.(pinHigh := pin), pid, if ok then Ready else Ending)
    // The claim is validated and created exclusively; if its write fails, the file stays but grants nothing.
    // Any refusal may still be journalled.
    case Grant(pid, written) =>
      && At(s, pid, Ready) && Matching(env, s, s.procs[pid].run) && s.procs[pid].run.reference !in s.claims
      && 0 <= s.now <= MAX_SAFE_INTEGER
      && var reference := s.procs[pid].run.reference;
         s' == if written then Move(s.(claims := s.claims[reference := ByRun(pid)]), pid, Claimed)
               else Move(s.(claims := s.claims[reference := Torn]), pid, Denied)
    case Refuse(pid, written) =>
      (At(s, pid, Ready) || At(s, pid, Denied)) && s' == Move(Log(s, pid, Refused, written), pid, Ending)
    case Announce(pid, written) =>
      At(s, pid, Claimed) && s' == Move(Log(s, pid, Actuating, written), pid, if written then Armed else Ending)
    case Raise(pid, ok, pin) =>
      && At(s, pid, Armed) && (ok ==> pin)
      && s' == Move(s.(pinHigh := pin, highs := s.highs + [High(pid, s.procs[pid].run.reference, s.now, ok, InFlight)]),
                    pid, Pulsing(ok, s.now))
    // The sleep is skipped only when the HIGH itself failed.
    case Lower(pid, ok, pin) =>
      && pid in s.procs && s.procs[pid].place.Pulsing? && (ok ==> !pin)
      && (s.procs[pid].place.ok ==> s.now >= s.procs[pid].place.sinceMs + PULSE_MS)
      && s' == Move(s.(pinHigh := pin), pid, Pulsed(s.procs[pid].place.ok && ok))
    case Record(pid, written) =>
      && pid in s.procs && s.procs[pid].place.Pulsed? && s.highs != []
      && var ok := s.procs[pid].place.ok;
         s' == Move(Log(s, pid, if ok then PulseCompleted else Fault, written)
                      .(highs := WithOutcome(s.highs, if ok && written then Completed(s.now) else Unrecorded)),
                    pid, Ending)
    case Release(pid, unlinked) =>
      At(s, pid, Ending) && s' == Move(if unlinked then s.(lock := None) else s, pid, Gone)
    case Crash(pid) => pid in s.procs && s' == Move(s, pid, Gone)
    // The other scripts: order files and claim files are created exclusively and never change.
    case Persist(reference, order) => reference !in s.orders && s' == s.(orders := s.orders[reference := order])
    case ClaimElsewhere(reference) => reference !in s.claims && s' == s.(claims := s.claims[reference := Elsewhere])
  }

  /** No run is there and nothing is locked; journal, orders, claims and pin are as they were found. */
  predicate Initial(s: State) {
    s.lock.None? && s.procs == map[] && s.highs == [] && forall r :: r in s.claims ==> !s.claims[r].ByRun?
  }

  ghost predicate Steps(env: Env, s: State, s': State) {
    exists step :: Next(env, s, s', step)
  }

  ghost predicate Execution(env: Env, run: seq<State>) {
    && run != [] && Initial(run[0])
    && forall i :: 0 <= i < |run| - 1 ==> Steps(env, run[i], run[i + 1])
  }

  // ---- The invariant -----------------------------------------------------------------------

  predicate Holding(p: Place) {
    !p.Started? && !p.Gone?
  }

  predicate InPulse(p: Place) {
    p.Pulsing? || p.Pulsed?
  }

  predicate PastCooldown(p: Place) {
    p.Cooled? || p.Ready? || p.Claimed? || p.Armed? || InPulse(p)
  }

  predicate CooledDown(s: State) {
    s.now >= LastPulse(s.journal) + COOLDOWN_MS
  }

  /** A run that is past the lock holds it; past the cooldown, the cooldown is still over. */
  predicate ProcessInv(s: State, pid: nat)
    requires pid in s.procs
  {
    var p := s.procs[pid];
    && (Holding(p.place) ==> s.lock == Some(pid))
    && (p.place.Timed? ==> p.place.atMs <= s.now)
    && (PastCooldown(p.place) ==> CooledDown(s))
    && (p.place.Ready? || p.place.Claimed? || p.place.Armed? || InPulse(p.place) ==> !p.run.dry)
    && (p.place.Claimed? || p.place.Armed? ==> Owns(s, pid, p.run.reference) && Unfired(s, p.run.reference))
    && (InPulse(p.place) ==> s.highs != [] && Last(s.highs).pid == pid && OnPulse(p.place, Last(s.highs), s.now))
  }

  /** `h` is the pulse that a run is at: a LOW after a successful HIGH comes once the sleep is over. */
  predicate OnPulse(place: Place, h: High, now: int)
    requires InPulse(place)
  {
    && h.outcome.InFlight?
    && (place.Pulsing? ==> h.ok == place.ok && h.atMs == place.sinceMs)
    && (place.Pulsed? ==> (place.ok ==> h.ok) && (h.ok ==> now >= h.atMs + PULSE_MS))
  }

  predicate Owns(s: State, pid: nat, reference: string) {
    reference in s.claims && s.claims[reference] == ByRun(pid)
  }

  predicate Unfired(s: State, reference: string) {
    forall k :: 0 <= k < |s.highs| ==> s.highs[k].reference != reference
  }

  /** A claim granted to a run was validated against the immutable order. */
  predicate ClaimInv(env: Env, s: State, reference: string)
    requires reference in s.claims
  {
    s.claims[reference].ByRun? ==>
      var pid := s.claims[reference].pid;
      pid in s.procs && s.procs[pid].run.reference == reference && Matching(env, s, s.procs[pid].run)
  }

  /** A HIGH belongs to the run that owns the claim; if it is in flight, the lock is still held for it. */
  predicate HighInv(s: State, k: nat)
    requires k < |s.highs|
  {
    var h := s.highs[k];
    && h.pid in s.procs && !s.procs[h.pid].run.dry && s.procs[h.pid].run.reference == h.reference
    && Owns(s, h.pid, h.reference) && h.atMs <= s.now
    && (h.outcome.InFlight? ==> k == |s.highs| - 1 && s.lock == Some(h.pid)
                                && (InPulse(s.procs[h.pid].place) || s.procs[h.pid].place.Gone?))
    && (!h.outcome.InFlight? && h.ok ==> s.now >= h.atMs + PULSE_MS)
    && (h.outcome.Completed? ==> h.ok && h.atMs + PULSE_MS <= h.outcome.atMs <= s.now && h.outcome.atMs <= LastPulse(s.journal))
    && (k == |s.highs| - 1 ==> if h.outcome.Completed? then h.outcome.atMs == LastPulse(s.journal) else CooledDown(s))
  }

  /** Two HIGHs serve two references; a completed pulse is followed by the cooldown, a successful HIGH by its sleep. */
  predicate Apart(s: State, j: nat, k: nat)
    requires j < k < |s.highs|
  {
    && s.highs[j].reference != s.highs[k].reference
    && (s.highs[j].outcome.Completed? ==> s.highs[k].atMs >= s.highs[j].outcome.atMs + COOLDOWN_MS)
    && s.highs[k].atMs >= s.highs[j].atMs + if s.highs[j].ok then PULSE_MS else 0
  }

  predicate ProcessesInv(s: State) {
    forall pid :: pid in s.procs ==> ProcessInv(s, pid)
  }

  predicate ClaimsInv(env: Env, s: State) {
    forall r :: r in s.claims ==> ClaimInv(env, s, r)
  }

  predicate HighsInv(s: State) {
    && (forall k :: 0 <= k < |s.highs| ==> HighInv(s, k))
    && (forall j, k :: 0 <= j < k < |s.highs| ==> Apart(s, j, k))
  }

  predicate Inv(env: Env, s: State) {
    ProcessesInv(s) && ClaimsInv(env, s) && HighsInv(s)
  }

  // ---- Every step keeps it -----------------------------------------------------------------

  predicate Fired(p: Place) {
    InPulse(p) || p.Gone?
  }

  /** Nothing that the invariant says about other runs or about HIGHs can have got worse. */
  predicate Steady(s: State, s': State, pid: nat) {
    && s'.now >= s.now && s'.highs == s.highs && LastPulse(s'.journal) == LastPulse(s.journal)
    && (forall r :: r in s.claims ==> r in s'.claims && s'.claims[r] == s.claims[r])
    && (forall q :: q in s.procs ==> q in s'.procs && s'.procs[q].run == s.procs[q].run
                                     && (q != pid ==> s'.procs[q] == s.procs[q]))
    && (forall q :: q in s'.procs && q != pid ==> q in s.procs)
    && (s'.lock == s.lock || (s.lock == Some(pid) && s'.lock.None?) || s.lock.None?)
  }

  lemma SteadyKeeps(s: State, s': State, pid: nat)
    requires ProcessesInv(s) && HighsInv(s) && Steady(s, s', pid)
    requires pid in s'.procs ==> ProcessInv(s', pid)
    requires pid in s.procs && Fired(s.procs[pid].place) ==> Fired(s'.procs[pid].place)
    requires s'.lock != s.lock ==> pid in s.procs && !Fired(s.procs[pid].place)
    ensures ProcessesInv(s') && HighsInv(s')
  {
    forall q | q in s'.procs ensures ProcessInv(s', q) {
      if q != pid {
        assert ProcessInv(s, q);
      }
    }
    forall k | 0 <= k < |s'.highs| ensures HighInv(s', k) {
      assert HighInv(s, k);
    }
    forall j, k | 0 <= j < k < |s'.highs| ensures Apart(s', j, k) {
      assert Apart(s, j, k);
    }
  }

  /** Orders and claims only grow, so what a claim was validated against stays. */
  lemma ClaimsKept(env: Env, s: State, s': State)
    requires ClaimsInv(env, s) && s'.orders == s.orders
    requires forall r :: r in s'.claims ==> (r in s.claims && s'.claims[r] == s.claims[r]) || ClaimInv(env, s', r)
    requires forall q :: q in s.procs ==> q in s'.procs && s'.procs[q].run == s.procs[q].run
    ensures ClaimsInv(env, s')
  {
    forall r | r in s'.claims ensures ClaimInv(env, s', r) {
      if r in s.claims && s'.claims[r] == s.claims[r] {
        assert ClaimInv(env, s, r);
      }
    }
  }

  /** The step of one run that only moves it along, and may write a line that ends no pulse. */
  lemma MoveKeeps(env: Env, s: State, pid: nat, event: Event, written: bool, place: Place)
    requires Inv(env, s) && pid in s.procs && !event.PulseCompleted? && !event.Delivered?
    requires Fired(s.procs[pid].place) ==> Fired(place)
    requires ProcessInv(Move(Log(s, pid, event, written), pid, place), pid)
    ensures Inv(env, Move(Log(s, pid, event, written), pid, place))
  {
    var s' := Move(Log(s, pid, event, written), pid, place);
    LastPulseSnoc(s.journal, Entry(event, s.procs[pid].run.reference, Some(s.now)));
    SteadyKeeps(s, s', pid);
    ClaimsKept(env, s, s');
  }

  /** What the invariant says does not depend on the level of the pin. */
  lemma PinKeeps(env: Env, s: State, pin: bool)
    requires Inv(env, s)
    ensures Inv(env, s.(pinHigh := pin))
  {
    var s' := s.(pinHigh := pin);
    forall q | q in s'.procs ensures ProcessInv(s', q) {
      assert ProcessInv(s, q);
    }
    WorldKeeps(env, s, s');
  }

  /** More time, more orders, more claims by others. */
  lemma WorldKeeps(env: Env, s: State, s': State)
    requires Inv(env, s) && s'.now >= s.now
    requires s'.procs == s.procs && s'.highs == s.highs && s'.lock == s.lock && s'.journal == s.journal
    requires forall r :: r in s.orders ==> r in s'.orders && s'.orders[r] == s.orders[r]
    requires forall r :: r in s.claims ==> r in s'.claims && s'.claims[r] == s.claims[r]
    requires forall r :: r in s'.claims && r !in s.claims ==> !s'.claims[r].ByRun?
    ensures Inv(env, s')
  {
    forall q | q in s'.procs ensures ProcessInv(s', q) {
      assert ProcessInv(s, q);
    }
    forall k | 0 <= k < |s'.highs| ensures HighInv(s', k) {
      assert HighInv(s, k);
    }
    forall j, k | 0 <= j < k < |s'.highs| ensures Apart(s', j, k) {
      assert Apart(s, j, k);
    }
    forall r | r in s'.claims ensures ClaimInv(env, s', r) {
      if r in s.claims {
        assert ClaimInv(env, s, r);
        if s.claims[r].ByRun? {
          MatchingStays(env, s, s', s.procs[s.claims[r].pid].run);
        }
      }
    }
  }

  /** An order file, once there, stays, so what matched it still does. */
  lemma MatchingStays(env: Env, s: State, s': State, run: Run)
    requires forall r :: r in s.orders ==> r in s'.orders && s'.orders[r] == s.orders[r]
    requires Matching(env, s, run)
    ensures Matching(env, s', run)
  {
  }

  lemma LaunchKeeps(env: Env, s: State, pid: nat, run: Run)
    requires Inv(env, s) && pid !in s.procs
    ensures Inv(env, s.(procs := s.procs[pid := Process(run, Started)]))
  {
    var s' := s.(procs := s.procs[pid := Process(run, Started)]);
    SteadyKeeps(s, s', pid);
    ClaimsKept(env, s, s');
  }

  lemma LockKeeps(env: Env, s: State, pid: nat, lock: Option<nat>, place: Place)
    requires Inv(env, s) && pid in s.procs && !Fired(s.procs[pid].place)
    requires lock == s.lock || (s.lock.None? && lock == Some(pid)) || (s.lock == Some(pid) && lock.None?)
    requires ProcessInv(Move(s.(lock := lock), pid, place), pid)
    ensures Inv(env, Move(s.(lock := lock), pid, place))
  {
    var s' := Move(s.(lock := lock), pid, place);
    SteadyKeeps(s, s', pid);
    ClaimsKept(env, s, s');
  }

  lemma GrantKeeps(env: Env, s: State, pid: nat, file: ClaimFile, place: Place)
    requires Inv(env, s) && At(s, pid, Ready) && Matching(env, s, s.procs[pid].run)
    requires s.procs[pid].run.reference !in s.claims
    requires (file == ByRun(pid) && place.Claimed?) || (file.Torn? && place.Denied?)
    ensures Inv(env, Move(s.(claims := s.claims[s.procs[pid].run.reference := file]), pid, place))
  {
    hide LastPulse, Apart;
    var reference := s.procs[pid].run.reference;
    var s' := Move(s.(claims := s.claims[reference := file]), pid, place);
    GrantedProcess(s, pid, file, place);
    hide ProcessInv, HighInv;
    SteadyKeeps(s, s', pid);
    ClaimsKept(env, s, s');
  }

  /** A reference without a claim file has had no HIGH, so the run that creates the file owns it unfired. */
  lemma GrantedProcess(s: State, pid: nat, file: ClaimFile, place: Place)
    requires ProcessesInv(s) && HighsInv(s) && At(s, pid, Ready) && s.procs[pid].run.reference !in s.claims
    requires (file == ByRun(pid) && place.Claimed?) || (file.Torn? && place.Denied?)
    ensures ProcessInv(Move(s.(claims := s.claims[s.procs[pid].run.reference := file]), pid, place), pid)
  {
    hide LastPulse, Apart;
    assert ProcessInv(s, pid);
    forall k | 0 <= k < |s.highs| ensures s.highs[k].reference != s.procs[pid].run.reference {
      assert HighInv(s, k);
    }
  }

  /** The one HIGH of a claim: after the cooldown, under the lock, for a reference that had none. */
  lemma RaiseKeeps(env: Env, s: State, pid: nat, ok: bool)
    requires Inv(env, s) && At(s, pid, Armed)
    ensures Inv(env, Move(s.(highs := s.highs + [High(pid, s.procs[pid].run.reference, s.now, ok, InFlight)]), pid, Pulsing(ok, s.now)))
  {
    hide LastPulse, Matching, ClaimInv;
    var h := High(pid, s.procs[pid].run.reference, s.now, ok, InFlight);
    var s' := Move(s.(highs := s.highs + [h]), pid, Pulsing(ok, s.now));
    assert ProcessInv(s, pid);
    forall q | q in s'.procs ensures ProcessInv(s', q) {
      assert ProcessInv(s, q);
    }
    RaiseHighs(s, s', pid, h, ok);
    ClaimsKept(env, s, s');
  }

  lemma RaiseHighs(s: State, s': State, pid: nat, h: High, ok: bool)
    requires ProcessesInv(s) && HighsInv(s) && At(s, pid, Armed)
    requires h == High(pid, s.procs[pid].run.reference, s.now, ok, InFlight)
    requires s' == Move(s.(highs := s.highs + [h]), pid, Pulsing(ok, s.now))
    ensures HighsInv(s')
  {
    hide LastPulse;
    var n := |s.highs|;
    assert ProcessInv(s, pid);
    hide ProcessInv, ProcessesInv;
    forall k | 0 <= k < n + 1 ensures HighInv(s', k) {
      if k < n {
        assert HighInv(s, k) && s'.highs[k] == s.highs[k];
        hide Owns;
      }
    }
    forall j, k | 0 <= j < k < n + 1 ensures Apart(s', j, k) {
      assert HighInv(s, j) && s'.highs[j] == s.highs[j];
      if k < n {
        assert Apart(s, j, k) && s'.highs[k] == s.highs[k];
      }
    }
  }

  /** The end of a pulse: a completed one starts the cooldown. */
  lemma RecordKeeps(env: Env, s: State, pid: nat, ok: bool, written: bool)
    requires Inv(env, s) && At(s, pid, Pulsed(ok)) && s.highs != []
    ensures Inv(env, Move(Log(s, pid, if ok then PulseCompleted else Fault, written)
                            .(highs := WithOutcome(s.highs, if ok && written then Completed(s.now) else Unrecorded)), pid, Ending))
  {
    hide LastPulse, Matching, ClaimInv, ProcessesInv, HighsInv;
    var event := if ok then PulseCompleted else Fault;
    var o := if ok && written then Completed(s.now) else Unrecorded;
    var s' := Move(Log(s, pid, event, written).(highs := WithOutcome(s.highs, o)), pid, Ending);
    RecordProcesses(s, s', pid, ok, written);
    RecordHighs(s, s', pid, ok, written);
    ClaimsKept(env, s, s');
  }

  lemma RecordProcesses(s: State, s': State, pid: nat, ok: bool, written: bool)
    requires ProcessesInv(s) && At(s, pid, Pulsed(ok)) && s.highs != []
    requires s' == Move(Log(s, pid, if ok then PulseCompleted else Fault, written)
                          .(highs := WithOutcome(s.highs, if ok && written then Completed(s.now) else Unrecorded)), pid, Ending)
    ensures ProcessesInv(s')
  {
    hide LastPulse, Unfired, Owns;
    assert ProcessInv(s, pid);
    forall q | q in s'.procs ensures ProcessInv(s', q) {
      assert ProcessInv(s, q);
    }
  }

  lemma RecordHighs(s: State, s': State, pid: nat, ok: bool, written: bool)
    requires ProcessesInv(s) && HighsInv(s) && At(s, pid, Pulsed(ok)) && s.highs != []
    requires s' == Move(Log(s, pid, if ok then PulseCompleted else Fault, written)
                          .(highs := WithOutcome(s.highs, if ok && written then Completed(s.now) else Unrecorded)), pid, Ending)
    ensures HighsInv(s')
  {
    hide LastPulse, Holding, PastCooldown, Owns;
    assert ProcessInv(s, pid);
    LastPulseSnoc(s.journal, Entry(if ok then PulseCompleted else Fault, s.procs[pid].run.reference, Some(s.now)));
    hide ProcessInv, Unfired, ProcessesInv;
    forall k | 0 <= k < |s'.highs| ensures HighInv(s', k) {
      assert HighInv(s, k);
      OwnsStays(s, s', s.highs[k].pid, s.highs[k].reference);
    }
    forall j, k | 0 <= j < k < |s'.highs| ensures Apart(s', j, k) {
      assert Apart(s, j, k);
    }
  }

  lemma OwnsStays(s: State, s': State, pid: nat, reference: string)
    requires s'.claims == s.claims
    ensures Owns(s', pid, reference) <==> Owns(s, pid, reference)
  {
  }

  lemma NextKeeps(env: Env, s: State, s': State, step: Step)
    requires Inv(env, s) && Next(env, s, s', step)
    ensures Inv(env, s')
  {
    hide Inv, Matching, LastPulse, Fired, Holding;
    match step
    case Tick(t) => WorldKeeps(env, s, s');
    case Launch(pid, run) => LaunchKeeps(env, s, pid, run);
    case Grant(pid, written) =>
      GrantKeeps(env, s, pid, if written then ByRun(pid) else Torn, if written then Claimed else Denied);
    case Raise(pid, ok, pin) =>
      PinKeeps(env, s, pin);
      RaiseKeeps(env, s.(pinHigh := pin), pid, ok);
    case Record(pid, written) => RecordKeeps(env, s, pid, s.procs[pid].place.ok, written);
    case Release(pid, unlinked) => ReleaseKeeps(env, s, pid, unlinked);
    case Persist(reference, order) => WorldKeeps(env, s, s');
    case ClaimElsewhere(reference) => WorldKeeps(env, s, s');
    case _ => MoveStepKeeps(env, s, s', step);
  }

  /** The steps that only move one run along. */
  lemma MoveStepKeeps(env: Env, s: State, s': State, step: Step)
    requires Inv(env, s) && Next(env, s, s', step)
    requires step.Acquire? || step.Busy? || step.ReadClock? || step.CoolDown? || step.Rehearse? || step.Simulate?
             || step.Preflight? || step.Refuse?
             || step.Announce? || step.Lower? || step.Crash?
    ensures Inv(env, s')
  {
    hide Inv, Matching, LastPulse;
    match step
    case Acquire(pid, written) => LockKeeps(env, s, pid, Some(pid), if written then Locked else Gone);
    case Busy(pid) => MoveKeeps(env, s, pid, OtherEvent, false, Gone);
    case ReadClock(pid) => PlaceKeeps(env, s, pid, OtherEvent, false, Timed(s.now));
    case CoolDown(pid, written) => CoolDownKeeps(env, s, pid, written);
    case Rehearse(pid) =>
      PlaceKeeps(env, s, pid, OtherEvent, false, if Matching(env, s, s.procs[pid].run) then Rehearsing(s.now) else Ending);
    case Simulate(pid, written) => PlaceKeeps(env, s, pid, Simulated, written, Ending);
    case Preflight(pid, ok, pin) =>
      PinKeeps(env, s, pin);
      PlaceKeeps(env, s.(pinHigh := pin), pid, OtherEvent, false, if ok then Ready else Ending);
    case Refuse(pid, written) => PlaceKeeps(env, s, pid, Refused, written, Ending);
    case Announce(pid, written) => PlaceKeeps(env, s, pid, Actuating, written, if written then Armed else Ending);
    case Lower(pid, ok, pin) =>
      PinKeeps(env, s, pin);
      PlaceKeeps(env, s.(pinHigh := pin), pid, OtherEvent, false, Pulsed(s.procs[pid].place.ok && ok));
    case Crash(pid) => MoveKeeps(env, s, pid, OtherEvent, false, Gone);
  }

  /** The steps after which a run is as well off as before: it holds what it held. */
  lemma PlaceKeeps(env: Env, s: State, pid: nat, event: Event, written: bool, place: Place)
    requires Inv(env, s) && pid in s.procs && !event.PulseCompleted? && !event.Delivered? && Holding(s.procs[pid].place)
    requires || place.Ending?
             || (place.Timed? && place.atMs == s.now)
             || place.Rehearsing?
             || (s.procs[pid].place.Cooled? && place.Ready? && !s.procs[pid].run.dry)
             || (s.procs[pid].place.Claimed? && place.Armed?)
             || (s.procs[pid].place.Pulsing? && place.Pulsed? && (place.ok ==> s.procs[pid].place.ok)
                 && (s.procs[pid].place.ok ==> s.now >= s.procs[pid].place.sinceMs + PULSE_MS))
    requires InPulse(s.procs[pid].place) ==> InPulse(place)
    ensures Inv(env, Move(Log(s, pid, event, written), pid, place))
  {
    assert ProcessInv(s, pid);
    hide ClaimsInv, HighsInv, Owns, Unfired, LastPulse;
    LastPulseSnoc(s.journal, Entry(event, s.procs[pid].run.reference, Some(s.now)));
    OwnedStays(s, pid, event, written, place);
    MoveKeeps(env, s, pid, event, written, place);
  }

  lemma OwnedStays(s: State, pid: nat, event: Event, written: bool, place: Place)
    requires pid in s.procs
    ensures var s' := Move(Log(s, pid, event, written), pid, place);
            var r := s.procs[pid].run.reference;
            (Owns(s', pid, r) <==> Owns(s, pid, r)) && (Unfired(s', r) <==> Unfired(s, r))
  {
  }

  lemma CoolDownKeeps(env: Env, s: State, pid: nat, written: bool)
    requires Inv(env, s) && pid in s.procs && s.procs[pid].place.Timed?
    ensures Inv(env, if s.procs[pid].place.atMs - LastPulse(s.journal) < COOLDOWN_MS
                     then Move(Log(s, pid, Refused, written), pid, Ending) else Move(s, pid, Cooled))
  {
    assert ProcessInv(s, pid);
    if s.procs[pid].place.atMs - LastPulse(s.journal) < COOLDOWN_MS {
      PlaceKeeps(env, s, pid, Refused, written, Ending);
    } else {
      MoveKeeps(env, s, pid, OtherEvent, false, Cooled);
    }
  }

  lemma ReleaseKeeps(env: Env, s: State, pid: nat, unlinked: bool)
    requires Inv(env, s) && At(s, pid, Ending)
    ensures Inv(env, Move(if unlinked then s.(lock := None) else s, pid, Gone))
  {
    assert ProcessInv(s, pid);
    LockKeeps(env, s, pid, if unlinked then None else s.lock, Gone);
  }

  // ---- Main results ------------------------------------------------------------------------

  lemma {:induction false} ReachableInv(env: Env, run: seq<State>, i: nat)
    requires Execution(env, run) && i < |run|
    ensures Inv(env, run[i])
  {
    if i > 0 {
      ReachableInv(env, run, i - 1);
      assert Steps(env, run[i - 1], run[i]);
      var step :| Next(env, run[i - 1], run[i], step);
      NextKeeps(env, run[i - 1], run[i], step);
    }
  }

  /** However runs interleave and wherever they crash, no reference gets a second HIGH. */
  lemma AtMostOneHigh(env: Env, run: seq<State>, i: nat, j: nat, k: nat)
    requires Execution(env, run) && i < |run| && j < |run[i].highs| && k < |run[i].highs|
    ensures run[i].highs[j].reference == run[i].highs[k].reference ==> j == k
  {
    ReachableInv(env, run, i);
    if j < k {
      assert Apart(run[i], j, k);
    } else if k < j {
      assert Apart(run[i], k, j);
    }
  }

  /** Every HIGH belongs to a real run that owns the exclusive claim on its order, for a matching payment. */
  lemma HighIsClaimed(env: Env, run: seq<State>, i: nat, k: nat)
    requires Execution(env, run) && i < |run| && k < |run[i].highs|
    ensures var s := run[i];
            var h := s.highs[k];
            && h.pid in s.procs && !s.procs[h.pid].run.dry && s.procs[h.pid].run.reference == h.reference
            && Owns(s, h.pid, h.reference) && Matching(env, s, s.procs[h.pid].run)
  {
    ReachableInv(env, run, i);
    assert HighInv(run[i], k);
    assert ClaimInv(env, run[i], run[i].highs[k].reference);
  }

  /** At the moment of a HIGH the claim was there already, the lock was held, and the cooldown was over. */
  lemma HighIsCooled(env: Env, run: seq<State>, i: nat, s': State, pid: nat, ok: bool, pin: bool)
    requires Execution(env, run) && i < |run| && Next(env, run[i], s', Raise(pid, ok, pin))
    ensures run[i].now >= LastPulse(run[i].journal) + 3_000
    ensures run[i].lock == Some(pid) && Owns(run[i], pid, run[i].procs[pid].run.reference)
    ensures Unfired(run[i], run[i].procs[pid].run.reference)
  {
    ReachableInv(env, run, i);
    assert ProcessInv(run[i], pid);
  }

  /** Two runs are never past the lock at once. */
  lemma MutualExclusion(env: Env, run: seq<State>, i: nat, p: nat, q: nat)
    requires Execution(env, run) && i < |run| && p in run[i].procs && q in run[i].procs
    requires Holding(run[i].procs[p].place) && Holding(run[i].procs[q].place)
    ensures p == q
  {
    ReachableInv(env, run, i);
    assert ProcessInv(run[i], p) && ProcessInv(run[i], q);
  }

  /**
   * A pulse that was journalled as completed lasted at least its 400 ms and keeps every later HIGH away
   * for the whole cooldown.
   */
  lemma CompletedIsSpaced(env: Env, run: seq<State>, i: nat, j: nat, k: nat)
    requires Execution(env, run) && i < |run| && j < k < |run[i].highs| && run[i].highs[j].outcome.Completed?
    ensures var first, next := run[i].highs[j], run[i].highs[k];
            next.atMs - 3_000 >= first.outcome.atMs >= first.atMs + 400
  {
    ReachableInv(env, run, i);
    assert Apart(run[i], j, k) && HighInv(run[i], j);
  }

  predicate Stuck(s: State, pid: nat) {
    s.lock == Some(pid) && At(s, pid, Gone)
  }

  lemma HoldsLock(env: Env, s: State, pid: nat)
    requires Inv(env, s) && pid in s.procs && Holding(s.procs[pid].place)
    ensures s.lock == Some(pid)
  {
    assert ProcessInv(s, pid);
  }

  lemma StuckStep(env: Env, s: State, s': State, step: Step, pid: nat)
    requires Inv(env, s) && Next(env, s, s', step) && Stuck(s, pid)
    ensures Stuck(s', pid) && s'.highs == s.highs && s'.pinHigh == s.pinHigh
  {
    hide Inv, Matching, LastPulse, Log;
    if !step.Tick? && !step.Persist? && !step.ClaimElsewhere? && step.pid in s.procs && Holding(s.procs[step.pid].place) {
      HoldsLock(env, s, step.pid);
    }
  }

  /** The lock of a crashed holder is never released: from then on the pin does not move. */
  lemma {:induction false} CrashedHolderBlocks(env: Env, run: seq<State>, i: nat, j: nat, pid: nat)
    requires Execution(env, run) && i <= j < |run| && Stuck(run[i], pid)
    ensures Stuck(run[j], pid) && run[j].highs == run[i].highs && run[j].pinHigh == run[i].pinHigh
    decreases j
  {
    hide Inv, Next, Stuck;
    if i < j {
      CrashedHolderBlocks(env, run, i, j - 1, pid);
      ReachableInv(env, run, j - 1);
      assert Steps(env, run[j - 1], run[j]);
      var step :| Next(env, run[j - 1], run[j], step);
      StuckStep(env, run[j - 1], run[j], step, pid);
    }
  }

  // ---- When the next HIGH can come -----------------------------------------------------------

  /** States that follow one another. */
  ghost predicate Path(env: Env, path: seq<State>) {
    path != [] && forall i :: 0 <= i < |path| - 1 ==> Steps(env, path[i], path[i + 1])
  }

  lemma PathConcat(env: Env, a: seq<State>, b: seq<State>)
    requires Path(env, a) && Path(env, b) && a[|a| - 1] == b[0]
    ensures Path(env, a + b[1..]) && (a + b[1..])[0] == a[0] && (a + b[1..])[|a + b[1..]| - 1] == b[|b| - 1]
  {
    var c := a + b[1..];
    forall i | 0 <= i < |c| - 1 ensures Steps(env, c[i], c[i + 1]) {
      if i < |a| - 1 {
        assert Steps(env, a[i], a[i + 1]);
      } else {
        assert Steps(env, b[i - |a| + 1], b[i - |a| + 2]);
      }
    }
  }

  /** A run on a free host, for a matching payment of an unclaimed order. */
  predicate Startable(env: Env, s: State, pid: nat, run: Run) {
    s.lock.None? && pid !in s.procs && !run.dry && Matching(env, s, run) && run.reference !in s.claims
  }

  /** Such a run once the cooldown is over, while the clock can still be written into a claim. */
  predicate Fireable(env: Env, s: State, pid: nat, run: Run) {
    Startable(env, s, pid, run) && 0 <= s.now <= MAX_SAFE_INTEGER && s.now - LastPulse(s.journal) >= COOLDOWN_MS
  }

  /** Such a run, undisturbed, commands one HIGH, which may succeed or fail. */
  lemma CanFire(env: Env, s: State, pid: nat, run: Run, ok: bool) returns (path: seq<State>)
    requires Fireable(env, s, pid, run)
    ensures Path(env, path) && path[0] == s
    ensures var t := path[|path| - 1];
            && t.highs == s.highs + [High(pid, run.reference, s.now, ok, InFlight)]
            && pid in t.procs && t.procs == s.procs[pid := Process(run, Pulsing(ok, s.now))]
            && t.lock == Some(pid) && t.now == s.now && t.orders == s.orders
            && LastPulse(t.journal) == LastPulse(s.journal) && t.claims == s.claims[run.reference := ByRun(pid)]
  {
    hide LastPulse, Next, Matching, Steps;
    var first := CanPrepare(env, s, pid, run);
    var u := first[|first| - 1];
    assert Matching(env, u, run) by { MatchingStays(env, s, u, run); }
    var second := CanPulse(env, u, pid, ok);
    PathConcat(env, first, second);
    path := first + second[1..];
    assert path[|path| - 1].procs == s.procs[pid := Process(run, Pulsing(ok, s.now))];
  }

  lemma CanPrepare(env: Env, s: State, pid: nat, run: Run) returns (path: seq<State>)
    requires Fireable(env, s, pid, run)
    ensures Path(env, path) && path[0] == s
    ensures path[|path| - 1] == s.(lock := Some(pid), pinHigh := false, procs := s.procs[pid := Process(run, Ready)])
  {
    hide Matching, LastPulse;
    var s1 := s.(procs := s.procs[pid := Process(run, Started)]);
    var s2 := Move(s1.(lock := Some(pid)), pid, Locked);
    var s3 := Move(s2, pid, Timed(s.now));
    var s4 := Move(s3, pid, Cooled);
    var s5 := Move(s4.(pinHigh := false), pid, Ready);
    assert Steps(env, s, s1) by { assert Next(env, s, s1, Launch(pid, run)); }
    assert Steps(env, s1, s2) by { assert Next(env, s1, s2, Acquire(pid, true)); }
    assert Steps(env, s2, s3) by { assert Next(env, s2, s3, ReadClock(pid)); }
    assert Steps(env, s3, s4) by { assert Next(env, s3, s4, CoolDown(pid, false)); }
    assert Steps(env, s4, s5) by { assert Next(env, s4, s5, Preflight(pid, true, false)); }
    hide Next, Steps;
    path := [s, s1, s2, s3, s4, s5];
    assert s5.procs == s.procs[pid := Process(run, Ready)];
  }

  lemma CanPulse(env: Env, s: State, pid: nat, ok: bool) returns (path: seq<State>)
    requires At(s, pid, Ready) && Matching(env, s, s.procs[pid].run) && s.procs[pid].run.reference !in s.claims
    requires 0 <= s.now <= MAX_SAFE_INTEGER
    ensures Path(env, path) && path[0] == s
    ensures var t := path[|path| - 1];
            var reference := s.procs[pid].run.reference;
            && t == Move(s, pid, Pulsing(ok, s.now)).(pinHigh := ok, highs := s.highs + [High(pid, reference, s.now, ok, InFlight)],
                                                      claims := s.claims[reference := ByRun(pid)], journal := t.journal)
            && LastPulse(t.journal) == LastPulse(s.journal)
  {
    hide Matching;
    var reference := s.procs[pid].run.reference;
    var s1 := Move(s.(claims := s.claims[reference := ByRun(pid)]), pid, Claimed);
    var s2 := Move(Log(s1, pid, Actuating, true), pid, Armed);
    var s3 := Move(s2.(pinHigh := ok, highs := s.highs + [High(pid, reference, s.now, ok, InFlight)]), pid, Pulsing(ok, s.now));
    LastPulseSnoc(s.journal, Entry(Actuating, reference, Some(s.now)));
    hide LastPulse;
    assert Steps(env, s, s1) by { assert Next(env, s, s1, Grant(pid, true)); }
    assert Steps(env, s1, s2) by { assert Next(env, s1, s2, Announce(pid, true)); }
    CanRaise(env, s2, pid, ok);
    hide Next, Steps;
    path := [s, s1, s2, s3];
    assert s3.procs == Move(s, pid, Pulsing(ok, s.now)).procs;
  }

  lemma CanRaise(env: Env, s: State, pid: nat, ok: bool)
    requires At(s, pid, Armed)
    ensures Steps(env, s, Move(s.(pinHigh := ok, highs := s.highs + [High(pid, s.procs[pid].run.reference, s.now, ok, InFlight)]),
                               pid, Pulsing(ok, s.now)))
  {
    hide Matching, LastPulse;
    assert Next(env, s, Move(s.(pinHigh := ok, highs := s.highs + [High(pid, s.procs[pid].run.reference, s.now, ok, InFlight)]),
                             pid, Pulsing(ok, s.now)), Raise(pid, ok, ok));
  }

  /** Time passes. */
  lemma CanWait(env: Env, s: State, pid: nat, run: Run, at: int) returns (path: seq<State>)
    requires s.now <= at
    ensures path == [s, s.(now := at)] && Path(env, path)
    ensures Startable(env, s, pid, run) ==> Startable(env, s.(now := at), pid, run)
  {
    var t := s.(now := at);
    path := [s, t];
    assert Next(env, s, t, Tick(at));
    assert Steps(env, s, t);
    if Startable(env, s, pid, run) {
      MatchingStays(env, s, t, run);
    }
  }

  /** What the journal and the list of HIGHs can do while time passes, seen from `s`. */
  predicate Later(s: State, t: State) {
    && t.now >= s.now && LastPulse(t.journal) >= LastPulse(s.journal) && |t.highs| >= |s.highs|
    && (forall k :: |s.highs| <= k < |t.highs| ==> t.highs[k].atMs >= LastPulse(s.journal) + COOLDOWN_MS)
  }

  lemma LaterStep(env: Env, s: State, t: State, t': State, step: Step)
    requires Inv(env, t) && Later(s, t) && Next(env, t, t', step)
    ensures Later(s, t')
  {
    hide Inv, Matching, LastPulse, Later;
    if step.Raise? {
      LaterRaise(env, s, t, t', step);
    } else if step.Record? {
      LaterRecord(env, s, t, t', step);
    } else {
      LaterQuiet(env, s, t, t', step);
    }
  }

  /** A line of a run that ends a pulse starts the cooldown now; any other line does not. */
  lemma LaterLine(t: State, pid: nat, event: Event)
    requires pid in t.procs
    ensures LastPulse(t.journal + [Entry(event, t.procs[pid].run.reference, Some(t.now))]) ==
            if event.PulseCompleted? || event.Delivered? then t.now else LastPulse(t.journal)
  {
    LastPulseSnoc(t.journal, Entry(event, t.procs[pid].run.reference, Some(t.now)));
  }

  lemma LaterQuiet(env: Env, s: State, t: State, t': State, step: Step)
    requires Later(s, t) && Next(env, t, t', step) && !step.Raise? && !step.Record?
    ensures Later(s, t')
  {
    hide Matching, LastPulse;
    assert t'.now >= t.now && t'.highs == t.highs;
    assert LastPulse(t'.journal) == LastPulse(t.journal) by {
      match step
      case CoolDown(pid, _) => LaterLine(t, pid, Refused);
      case Refuse(pid, _) => LaterLine(t, pid, Refused);
      case Simulate(pid, _) => LaterLine(t, pid, Simulated);
      case Announce(pid, _) => LaterLine(t, pid, Actuating);
      case _ =>
    }
    hide Next;
  }

  lemma LaterRaise(env: Env, s: State, t: State, t': State, step: Step)
    requires Inv(env, t) && Later(s, t) && Next(env, t, t', step) && step.Raise?
    ensures Later(s, t')
  {
    hide ClaimsInv, HighsInv, Owns, Unfired, LastPulse;
    assert ProcessInv(t, step.pid);
  }

  lemma LaterRecord(env: Env, s: State, t: State, t': State, step: Step)
    requires Inv(env, t) && Later(s, t) && Next(env, t, t', step) && step.Record?
    ensures Later(s, t')
  {
    hide ClaimsInv, HighsInv, Owns, Unfired, LastPulse;
    assert ProcessInv(t, step.pid);
    LaterLine(t, step.pid, if t.procs[step.pid].place.ok then PulseCompleted else Fault);
  }

  lemma {:induction false} PathLater(env: Env, path: seq<State>, j: nat)
    requires Path(env, path) && Inv(env, path[0]) && j < |path|
    ensures Inv(env, path[j]) && Later(path[0], path[j])
  {
    hide Inv, Next;
    if j > 0 {
      PathLater(env, path, j - 1);
      assert Steps(env, path[j - 1], path[j]);
      var step :| Next(env, path[j - 1], path[j], step);
      NextKeeps(env, path[j - 1], path[j], step);
      LaterStep(env, path[0], path[j - 1], path[j], step);
    }
  }

  /** One of the HIGHs of `s` from the `from`-th on is this one. */
  predicate HasHigh(s: State, from: nat, pid: nat, reference: string, at: int) {
    exists k :: from <= k < |s.highs| && s.highs[k].pid == pid && s.highs[k].reference == reference && s.highs[k].atMs == at
  }

  /** From here, whatever else happens meanwhile, run `pid` can get to command its HIGH at time `at`. */
  ghost predicate CanHighAt(env: Env, s: State, pid: nat, reference: string, at: int) {
    exists path :: Path(env, path) && path[0] == s && HasHigh(path[|path| - 1], |s.highs|, pid, reference, at)
  }

  /**
   * The cooldown, exactly: from any reachable state with a free lock, a run for a matching unclaimed order
   * can command its HIGH at a time exactly when 3000 ms have then passed since the last journalled
   * completed pulse.
   */
  lemma CooldownIff(env: Env, run: seq<State>, i: nat, pid: nat, r: Run, at: int)
    requires Execution(env, run) && i < |run| && Startable(env, run[i], pid, r)
    requires run[i].now <= at && 0 <= at <= MAX_SAFE_INTEGER
    ensures CanHighAt(env, run[i], pid, r.reference, at) <==> at - LastPulse(run[i].journal) >= 3_000
  {
    hide LastPulse, Inv, Startable, Execution;
    var s := run[i];
    if CanHighAt(env, s, pid, r.reference, at) {
      ReachableInv(env, run, i);
      var path :| Path(env, path) && path[0] == s && HasHigh(path[|path| - 1], |s.highs|, pid, r.reference, at);
      PathLater(env, path, |path| - 1);
    }
    if at - LastPulse(s.journal) >= COOLDOWN_MS {
      hide Path;
      var wait := CanWait(env, s, pid, r, at);
      var fire := CanFire(env, s.(now := at), pid, r, true);
      PathConcat(env, wait, fire);
      var path := wait + fire[1..];
      assert path[|path| - 1].highs[|s.highs|] == High(pid, r.reference, at, true, InFlight);
      assert HasHigh(path[|path| - 1], |s.highs|, pid, r.reference, at);
    }
  }

  /**
   * After a HIGH, the next one can come at a time exactly when the pulse was not journalled as completed
   * or 3000 ms have passed since it was: an unrecorded pulse is followed by no cooldown at all.
   */
  lemma NextHighIff(env: Env, run: seq<State>, i: nat, pid: nat, r: Run, at: int)
    requires Execution(env, run) && i < |run| && Startable(env, run[i], pid, r) && run[i].highs != []
    requires run[i].now <= at && 0 <= at <= MAX_SAFE_INTEGER
    ensures var h := Last(run[i].highs);
            CanHighAt(env, run[i], pid, r.reference, at) <==> (h.outcome.Completed? ==> at - h.outcome.atMs >= 3_000)
  {
    CooldownIff(env, run, i, pid, r, at);
    ReachableInv(env, run, i);
    assert HighInv(run[i], |run[i].highs| - 1);
    hide LastPulse, Execution, CanHighAt;
  }

  /** The LOW after a HIGH fails; then the run journals the fault and releases the lock. */
  lemma CanFault(env: Env, s: State, pid: nat) returns (path: seq<State>, t: State)
    requires pid in s.procs && s.procs[pid].place.Pulsing? && s.lock == Some(pid) && s.highs != []
    requires s.procs[pid].place.ok ==> s.now >= s.procs[pid].place.sinceMs + PULSE_MS
    ensures Path(env, path) && path[0] == s && path[|path| - 1] == t
    ensures && t.highs == WithOutcome(s.highs, Unrecorded) && t.lock.None? && t.now == s.now && t.orders == s.orders
            && LastPulse(t.journal) == LastPulse(s.journal) && t.claims == s.claims && t.procs.Keys == s.procs.Keys
  {
    hide Matching;
    var reference := s.procs[pid].run.reference;
    var s1 := Move(s, pid, Pulsed(false));
    var s2 := Move(Log(s1, pid, Fault, true).(highs := WithOutcome(s.highs, Unrecorded)), pid, Ending);
    var s3 := Move(s2.(lock := None), pid, Gone);
    LastPulseSnoc(s.journal, Entry(Fault, reference, Some(s.now)));
    hide LastPulse, WithOutcome;
    LowerFails(env, s, pid);
    FaultIsRecorded(env, s1, pid);
    assert Steps(env, s2, s3) by { assert Next(env, s2, s3, Release(pid, true)); }
    hide Next, Steps;
    path, t := [s, s1, s2, s3], s3;
  }

  lemma LowerFails(env: Env, s: State, pid: nat)
    requires pid in s.procs && s.procs[pid].place.Pulsing?
    requires s.procs[pid].place.ok ==> s.now >= s.procs[pid].place.sinceMs + PULSE_MS
    ensures Steps(env, s, Move(s, pid, Pulsed(false)))
  {
    hide Matching, LastPulse;
    assert Next(env, s, Move(s, pid, Pulsed(false)), Lower(pid, false, s.pinHigh));
  }

  lemma FaultIsRecorded(env: Env, s: State, pid: nat)
    requires At(s, pid, Pulsed(false)) && s.highs != []
    ensures Steps(env, s, Move(Log(s, pid, Fault, true).(highs := WithOutcome(s.highs, Unrecorded)), pid, Ending))
  {
    hide Matching, LastPulse, WithOutcome;
    assert Next(env, s, Move(Log(s, pid, Fault, true).(highs := WithOutcome(s.highs, Unrecorded)), pid, Ending), Record(pid, true));
  }

  /** Two HIGHs, the first of which succeeded or not, was never journalled as completed, and came `gap` ms before the second. */
  predicate FaultedPair(s: State, ok: bool, gap: int) {
    && |s.highs| == 2 && s.highs[0].ok == ok && s.highs[0].outcome.Unrecorded?
    && s.highs[1].atMs == s.highs[0].atMs + gap
  }

  ghost predicate CanPair(env: Env, s: State, ok: bool, gap: int) {
    exists run :: Execution(env, run) && run[0] == s && FaultedPair(run[|run| - 1], ok, gap)
  }

  /**
   * How close two HIGHs can come after a fault: any two paid orders can be served with exactly this gap
   * if and only if it is at least the 400 ms of the pulse when the first command succeeded, and at least
   * nothing when that command itself failed.
   */
  lemma FaultGapIff(env: Env, s: State, a: Run, b: Run, ok: bool, gap: int)
    requires Initial(s) && Fireable(env, s, 0, a) && Fireable(env, s, 1, b) && a.reference != b.reference
    requires s.now + gap <= MAX_SAFE_INTEGER
    ensures CanPair(env, s, ok, gap) <==> gap >= if ok then 400 else 0
  {
    if CanPair(env, s, ok, gap) {
      var run :| Execution(env, run) && run[0] == s && FaultedPair(run[|run| - 1], ok, gap);
      ReachableInv(env, run, |run| - 1);
      assert Apart(run[|run| - 1], 0, 1);
    }
    if gap >= if ok then PULSE_MS else 0 {
      var run := PairRun(env, s, a, b, ok, gap);
      hide Execution;
      assert FaultedPair(run[|run| - 1], ok, gap);
    }
  }

  lemma PairRun(env: Env, s: State, a: Run, b: Run, ok: bool, gap: int) returns (run: seq<State>)
    requires Initial(s) && Fireable(env, s, 0, a) && Fireable(env, s, 1, b) && a.reference != b.reference
    requires s.now + gap <= MAX_SAFE_INTEGER && gap >= if ok then PULSE_MS else 0
    ensures Execution(env, run) && run[0] == s && FaultedPair(run[|run| - 1], ok, gap)
  {
    hide Matching, LastPulse, Steps;
    var first := CanFire(env, s, 0, a, ok);
    var t := first[|first| - 1];
    var wait := CanWait(env, t, 0, a, s.now + gap);
    var fault, u := CanFault(env, wait[1], 0);
    assert Matching(env, u, b) by { MatchingStays(env, s, u, b); }
    var second := CanFire(env, u, 1, b, true);
    PathConcat(env, first, wait);
    PathConcat(env, first + wait[1..], fault);
    PathConcat(env, first + wait[1..] + fault[1..], second);
    run := first + wait[1..] + fault[1..] + second[1..];
  }
}
