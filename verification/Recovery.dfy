/** crates/kiosk-core/src/chain.rs: the scan for the chain head. */
module Recovery {
  // The newest-first scan on entries that have been classified. Chain.dfy says how an entry gets its
  // view and holds the loop itself.

  import opened Wrappers

  /** `ChainState`: what the next attestation should carry. */
  datatype ChainState = ChainState(seq_: nat, prev: Option<string>)

  datatype ChainError = Rpc | Decode | Gap

  /** What the scan sees in one listed entry. */
  datatype View =
    | Failed(signature: string)                                    // the listed transaction failed
    | Broken(error: ChainError)                                    // unreadable, or an unknown authenticated write
    | Public                                                       // not signed by the device authority
    | Init                                                         // exact nonce initialization
    | Link(signature: string, seq_: nat, prev: Option<string>)     // exact attestation

  const SCAN_LIMIT: nat := 100
  const SUFFIX_DEPTH: nat := 10

  // ---- The scan ----------------------------------------------------------------------------

  datatype Scan =
    | Start
    | Expect(head: ChainState, signature: string, seq_: nat, count: nat)
    | NeedInit(head: ChainState)
    | AfterInit(state: ChainState)
    | Stop(result: Result<ChainState, ChainError>)

  function Step(s: Scan, v: View): Scan {
    match (s, v)
    case (Stop(_), _) => s
    case (Expect(_, sig, _, _), Failed(f)) => if f == sig then Stop(Err(Gap)) else s
    case (_, Failed(_)) => s
    case (_, Broken(e)) => Stop(Err(e))
    case (_, Public) => s
    case (AfterInit(_), _) => Stop(Err(Gap))
    case (NeedInit(head), Init) => AfterInit(head)
    case (NeedInit(_), Link(_, _, _)) => Stop(Err(Gap))
    case (Expect(_, _, _, _), Init) => Stop(Err(Gap))
    case (Expect(head, sig, n, count), Link(g, seq_, prev)) =>
      if g != sig || seq_ != n then Stop(Err(Gap)) else Continue(head, seq_, prev, count + 1)
    case (Start, Init) => AfterInit(ChainState(0, None))
    case (Start, Link(g, seq_, prev)) =>
      if seq_ + 1 > U64_MAX then Stop(Err(Gap)) else Continue(ChainState(seq_ + 1, Some(g)), seq_, prev, 1)
  }

  /** After a link that fits: look for initialization, stop at the checkpoint, or follow `prev`. */
  function Continue(head: ChainState, seq_: nat, prev: Option<string>, count: nat): Scan {
    if seq_ == 0 then (if prev.Some? then Stop(Err(Gap)) else NeedInit(head))
    else match prev
      case None => Stop(Err(Gap))
      case Some(p) => if count == SUFFIX_DEPTH then Stop(Ok(head)) else Expect(head, p, seq_ - 1, count)
  }

  function Fold(vs: seq<View>): Scan {
    if vs == [] then Start else Step(Fold(vs[..|vs| - 1]), vs[|vs| - 1])
  }

  /** The verdict after the last of `n` entries. */
  function Finish(s: Scan, n: nat): Result<ChainState, ChainError> {
    match s
    case Stop(r) => r
    case AfterInit(state) => if n == SCAN_LIMIT then Err(Gap) else Ok(state)
    case _ => Err(Gap)
  }

  function RecoverSpec(vs: seq<View>): Result<ChainState, ChainError> {
    if |vs| > SCAN_LIMIT then Err(Decode) else Finish(Fold(vs), |vs|)
  }

  // ---- The declarative reading -------------------------------------------------------------

  predicate IsAuth(v: View) {
    v.Init? || v.Link?
  }

  /** The authenticated subsequence. */
  function Auth(vs: seq<View>): (r: seq<View>)
    ensures |r| <= |vs|
    ensures forall i :: 0 <= i < |r| ==> IsAuth(r[i])
  {
    if vs == [] then [] else
    Auth(vs[..|vs| - 1]) + if IsAuth(vs[|vs| - 1]) then [vs[|vs| - 1]] else []
  }

  /** The signature that the oldest authenticated entry of a newest-first prefix names. */
  function Named(as_: seq<View>): Option<string> {
    if as_ == [] || !as_[|as_| - 1].Link? then None else as_[|as_| - 1].prev
  }

  /** Entry `j` does not break the scan: it is readable, and is not a failed transaction that the link above names. */
  predicate QuietAt(vs: seq<View>, j: nat)
    requires j < |vs|
  {
    !vs[j].Broken? && (vs[j].Failed? ==> Named(Auth(vs[..j])) != Some(vs[j].signature))
  }

  predicate Quiet(vs: seq<View>) {
    forall j :: 0 <= j < |vs| ==> QuietAt(vs, j)
  }

  /** Links that name one another and count down by one. */
  predicate Linked(ls: seq<View>) {
    && (forall i :: 0 <= i < |ls| ==> ls[i].Link?)
    && (forall i :: 0 <= i < |ls| - 1 ==> LinkedAt(ls, i))
  }

  predicate LinkedAt(ls: seq<View>, i: nat)
    requires i + 1 < |ls| && ls[i].Link? && ls[i + 1].Link?
  {
    ls[i].prev == Some(ls[i + 1].signature) && ls[i].seq_ == ls[i + 1].seq_ + 1
  }

  /** A nonempty linked run whose head has a successor in u64. */
  predicate Run(ls: seq<View>) {
    ls != [] && Linked(ls) && ls[0].seq_ < U64_MAX
  }

  /** What continues a run: the successor of its head. */
  function Next(ls: seq<View>): ChainState
    requires Run(ls)
  {
    ChainState(ls[0].seq_ + 1, Some(ls[0].signature))
  }

  /** A run down to sequence zero, which names nothing. */
  predicate ReachesZero(ls: seq<View>) {
    Run(ls) && ls[|ls| - 1].seq_ == 0 && ls[|ls| - 1].prev.None?
  }

  /** A run whose oldest link is above zero and names another. */
  predicate StaysOpen(ls: seq<View>) {
    Run(ls) && ls[|ls| - 1].seq_ > 0 && ls[|ls| - 1].prev.Some?
  }

  /** Only an initialization. */
  predicate Fresh(as_: seq<View>, state: ChainState) {
    as_ == [Init] && state == ChainState(0, None)
  }

  /** At most ten links down to zero, directly above an initialization, with nothing older. */
  predicate Young(as_: seq<View>, state: ChainState) {
    && 2 <= |as_| <= 11 && as_[|as_| - 1].Init?
    && ReachesZero(as_[..|as_| - 1]) && state == Next(as_[..|as_| - 1])
  }

  /** Ten links, the tenth above zero. */
  predicate Mature(as_: seq<View>, state: ChainState) {
    |as_| == 10 && StaysOpen(as_) && state == Next(as_)
  }

  /** The three cases in which a window proves a chain state. */
  ghost predicate Proves(vs: seq<View>, state: ChainState) {
    || (|vs| < 100 && Quiet(vs) && (Fresh(Auth(vs), state) || Young(Auth(vs), state)))
    || exists m :: 0 <= m <= |vs| && Quiet(vs[..m]) && Mature(Auth(vs[..m]), state)
  }

  // ---- Scan and reading agree --------------------------------------------------------------

  /** What each scan state says about the authenticated entries so far. */
  predicate Means(s: Scan, as_: seq<View>) {
    match s
    case Start => as_ == []
    case Expect(head, sig, n, count) =>
      && |as_| == count < SUFFIX_DEPTH && StaysOpen(as_) && head == Next(as_)
      && as_[|as_| - 1].prev == Some(sig) && as_[|as_| - 1].seq_ == n + 1
    case NeedInit(head) => |as_| <= SUFFIX_DEPTH && ReachesZero(as_) && head == Next(as_)
    case AfterInit(state) => Fresh(as_, state) || Young(as_, state)
    case Stop(_) => false
  }

  lemma AuthSnoc(vs: seq<View>, v: View)
    ensures Auth(vs + [v]) == Auth(vs) + if IsAuth(v) then [v] else []
  {
    assert (vs + [v])[..|vs|] == vs;
  }

  lemma FoldSnoc(vs: seq<View>, v: View)
    ensures Fold(vs + [v]) == Step(Fold(vs), v)
  {
    assert (vs + [v])[..|vs|] == vs;
  }

  lemma QuietSnoc(vs: seq<View>, v: View)
    ensures Quiet(vs + [v]) <==>
            Quiet(vs) && !v.Broken? && (v.Failed? ==> Named(Auth(vs)) != Some(v.signature))
  {
    var ws := vs + [v];
    assert ws[..|vs|] == vs;
    forall j | 0 <= j < |vs| ensures QuietAt(ws, j) == QuietAt(vs, j) {
      assert ws[..j] == vs[..j];
    }
    assert QuietAt(ws, |vs|) <==> !v.Broken? && (v.Failed? ==> Named(Auth(vs)) != Some(v.signature));
  }

  lemma RunSnoc(ls: seq<View>, l: View)
    requires Run(ls) && l.Link?
    ensures Run(ls + [l]) <==>
            ls[|ls| - 1].prev == Some(l.signature) && ls[|ls| - 1].seq_ == l.seq_ + 1
    ensures Run(ls + [l]) ==> Next(ls + [l]) == Next(ls)
  {
    var r := ls + [l];
    var n := |ls| - 1;
    forall i | 0 <= i < n ensures LinkedAt(r, i) == LinkedAt(ls, i) {}
    assert r[n] == ls[n] && r[n + 1] == l;
    assert Linked(r) ==> LinkedAt(r, n);
  }

  /** Sequences of authenticated entries that keep the scan alive. */
  predicate Alive(as_: seq<View>) {
    || as_ == []
    || (|as_| < 10 && StaysOpen(as_))
    || (|as_| <= 10 && ReachesZero(as_))
    || as_ == [Init]
    || (2 <= |as_| <= 11 && as_[|as_| - 1].Init? && ReachesZero(as_[..|as_| - 1]))
  }

  /** A step that does not stop keeps the reading; a step that stops with a state has ten links. */
  lemma StepSound(s: Scan, as_: seq<View>, v: View)
    requires Means(s, as_) && IsAuth(v)
    ensures !Step(s, v).Stop? ==> Means(Step(s, v), as_ + [v])
    ensures Step(s, v).Stop? && Step(s, v).result.Ok? ==> Mature(as_ + [v], Step(s, v).result.value)
  {
    var r := as_ + [v];
    assert r[..|as_|] == as_;
    if s.Expect? && v.Link? {
      RunSnoc(as_, v);
    }
    if s.Start? {
      assert r == [v];
    }
  }

  /** A live sequence never stops the scan, and ten links stop it with the head's successor. */
  lemma StepComplete(s: Scan, as_: seq<View>, v: View)
    requires Means(s, as_) && IsAuth(v)
    ensures Alive(as_ + [v]) ==> !Step(s, v).Stop?
    ensures forall state :: Mature(as_ + [v], state) ==> Step(s, v) == Stop(Ok(state))
  {
    var r := as_ + [v];
    assert r[..|as_|] == as_;
    if s.Expect? && v.Link? {
      RunSnoc(as_, v);
    }
    if s.NeedInit? || s.AfterInit? {
      RunPrefix(r);
    }
  }

  /** In a linked run every link but the last is above zero. */
  lemma RunPrefix(r: seq<View>)
    requires r != []
    ensures Linked(r) && |r| > 1 ==> r[|r| - 2].seq_ > 0 && r[|r| - 2].prev.Some?
    ensures Run(r) && |r| > 1 ==> StaysOpen(r[..|r| - 1]) && Next(r[..|r| - 1]) == Next(r)
  {
    if Linked(r) && |r| > 1 {
      var t := r[..|r| - 1];
      assert LinkedAt(r, |r| - 2);
      forall i | 0 <= i < |t| - 1 ensures LinkedAt(t, i) {
        assert LinkedAt(r, i);
      }
    }
  }

  lemma AlivePrefix(as_: seq<View>, v: View)
    requires IsAuth(v) && (Alive(as_ + [v]) || exists state :: Mature(as_ + [v], state))
    ensures Alive(as_)
  {
    var r := as_ + [v];
    assert r[..|as_|] == as_;
    RunPrefix(r);
    if r != [Init] && as_ != [] && v.Init? && !Linked(r) {
      assert ReachesZero(as_);
    }
  }

  /** A live scan has been quiet, and its state says what its authenticated entries are. */
  lemma {:induction false} ScanSound(vs: seq<View>)
    ensures !Fold(vs).Stop? ==> Quiet(vs) && Means(Fold(vs), Auth(vs))
    ensures Fold(vs).Stop? && Fold(vs).result.Ok? ==>
              exists m :: 0 <= m <= |vs| && Quiet(vs[..m]) && Mature(Auth(vs[..m]), Fold(vs).result.value)
  {
    if vs != [] {
      var init, v := vs[..|vs| - 1], vs[|vs| - 1];
      assert vs == init + [v];
      hide Means, Quiet, Mature;
      ScanSound(init);
      if Fold(init).Stop? {
        if Fold(init).result.Ok? {
          var m :| 0 <= m <= |init| && Quiet(init[..m]) && Mature(Auth(init[..m]), Fold(init).result.value);
          assert vs[..m] == init[..m];
        }
      } else {
        AuthSnoc(init, v);
        QuietSnoc(init, v);
        hide Auth;
        if IsAuth(v) {
          StepSound(Fold(init), Auth(init), v);
          assert vs[..|vs|] == vs;
        } else {
          LiveStep(Fold(init), Auth(init), v);
          assert Auth(init) + [] == Auth(init);
        }
      }
    }
  }

  /** An entry that is not authenticated stops a live scan, with an error, exactly when it breaks the quiet. */
  lemma LiveStep(s: Scan, as_: seq<View>, v: View)
    requires Means(s, as_) && !IsAuth(v)
    ensures Step(s, v) == s || (Step(s, v).Stop? && Step(s, v).result.Err?)
    ensures Step(s, v) == s ==> !v.Broken? && (v.Failed? ==> Named(as_) != Some(v.signature))
  {
  }

  /** A quiet window whose authenticated entries are live, or ten deep, drives the scan there. */
  lemma {:induction false} ScanComplete(vs: seq<View>)
    requires Quiet(vs)
    ensures Alive(Auth(vs)) ==> Means(Fold(vs), Auth(vs))
    ensures forall state :: Mature(Auth(vs), state) ==> Fold(vs) == Stop(Ok(state))
  {
    if vs != [] {
      var init, v := vs[..|vs| - 1], vs[|vs| - 1];
      assert vs == init + [v];
      QuietSnoc(init, v);
      ScanComplete(init);
      AuthSnoc(init, v);
      if IsAuth(v) {
        if Alive(Auth(vs)) || exists state :: Mature(Auth(vs), state) {
          AlivePrefix(Auth(init), v);
          StepSound(Fold(init), Auth(init), v);
          StepComplete(Fold(init), Auth(init), v);
        }
      } else {
        assert Auth(init) + [] == Auth(init);
      }
    }
  }

  lemma {:induction false} StopStays(vs: seq<View>, m: nat)
    requires m <= |vs| && Fold(vs[..m]).Stop?
    ensures Fold(vs) == Fold(vs[..m])
    decreases |vs|
  {
    if m < |vs| {
      var init := vs[..|vs| - 1];
      assert init[..m] == vs[..m];
      StopStays(init, m);
    } else {
      assert vs[..m] == vs;
    }
  }

  /** The scan accepts a window with a state exactly when the window proves that state. */
  lemma RecoverIff(vs: seq<View>, state: ChainState)
    requires |vs| <= 100
    ensures RecoverSpec(vs) == Ok(state) <==> Proves(vs, state)
  {
    ScanSound(vs);
    if Quiet(vs) {
      ScanComplete(vs);
    }
    if m :| 0 <= m <= |vs| && Quiet(vs[..m]) && Mature(Auth(vs[..m]), state) {
      ScanComplete(vs[..m]);
      StopStays(vs, m);
    }
  }

  /** The scan is still undecided when it comes to entry `i`. */
  predicate Reaches(vs: seq<View>, i: nat) {
    i < |vs| && Quiet(vs[..i]) && Alive(Auth(vs[..i]))
  }

  lemma MeansAlive(s: Scan, as_: seq<View>)
    requires Means(s, as_)
    ensures Alive(as_)
  {
  }

  lemma ReachedIsLive(vs: seq<View>, i: nat)
    requires Reaches(vs, i)
    ensures !Fold(vs[..i]).Stop?
  {
    ScanComplete(vs[..i]);
  }

  lemma LiveIsReached(vs: seq<View>, i: nat)
    requires i < |vs| && !Fold(vs[..i]).Stop?
    ensures Reaches(vs, i)
  {
    ScanSound(vs[..i]);
    MeansAlive(Fold(vs[..i]), Auth(vs[..i]));
  }

  /** An error that is not a gap is the error of the entry at which the scan stopped. */
  lemma {:induction false} StoppedBy(vs: seq<View>, e: ChainError)
    requires Fold(vs) == Stop(Err(e)) && e != Gap
    ensures exists i: nat :: i < |vs| && Reaches(vs, i) && vs[i] == Broken(e)
  {
    hide Auth, Alive, Quiet, Reaches;
    var init, v := vs[..|vs| - 1], vs[|vs| - 1];
    if Fold(init).Stop? {
      StoppedBy(init, e);
      var i: nat :| i < |init| && Reaches(init, i) && init[i] == Broken(e);
      ReachesMore(vs, i);
    } else {
      LiveIsReached(vs, |vs| - 1);
    }
  }

  lemma ReachesMore(vs: seq<View>, i: nat)
    requires vs != [] && Reaches(vs[..|vs| - 1], i)
    ensures Reaches(vs, i) && vs[i] == vs[..|vs| - 1][i]
  {
    assert vs[..|vs| - 1][..i] == vs[..i];
  }

  /**
   * Recovery fails for another reason than a gap exactly when the node lists too much, or the scan comes, still
   * undecided, to an entry that is broken for that reason. So `RecoverIff` and this settle every outcome.
   */
  lemma FailsIff(vs: seq<View>, e: ChainError)
    requires e != Gap
    ensures RecoverSpec(vs) == Err(e) <==>
            || (|vs| > 100 && e == Decode)
            || (|vs| <= 100 && exists i: nat :: i < |vs| && Reaches(vs, i) && vs[i] == Broken(e))
  {
    hide Reaches, Fold;
    if |vs| <= 100 {
      if RecoverSpec(vs) == Err(e) {
        StoppedBy(vs, e);
      }
      if i: nat :| i < |vs| && Reaches(vs, i) && vs[i] == Broken(e) {
        ReachedIsLive(vs, i);
        assert vs[..i + 1] == vs[..i] + [vs[i]];
        FoldSnoc(vs[..i], vs[i]);
        StopStays(vs, i + 1);
      }
    }
  }

  /** Whatever is recovered continues the newest authenticated entry. */
  lemma HeadIsNewest(vs: seq<View>)
    requires RecoverSpec(vs).Ok?
    ensures var state := RecoverSpec(vs).value;
            && Auth(vs) != []
            && match Auth(vs)[0]
               case Init => state == ChainState(0, None)
               case Link(g, n, _) => state == ChainState(n + 1, Some(g)) && n + 1 <= U64_MAX
  {
    var state := RecoverSpec(vs).value;
    RecoverIff(vs, state);
    if m :| 0 <= m <= |vs| && Quiet(vs[..m]) && Mature(Auth(vs[..m]), state) {
      AuthPrefix(vs, m);
    }
  }

  lemma {:induction false} AuthPrefix(vs: seq<View>, m: nat)
    requires m <= |vs|
    ensures Auth(vs[..m]) <= Auth(vs)
    decreases |vs|
  {
    if m < |vs| {
      var init := vs[..|vs| - 1];
      assert init[..m] == vs[..m];
      AuthPrefix(init, m);
    } else {
      assert vs[..m] == vs;
    }
  }

  // ---- Histories and windows ---------------------------------------------------------------

  /** The newest entries that one signature listing returns. */
  function Window(h: seq<View>): (w: seq<View>)
    ensures |w| <= SCAN_LIMIT
  {
    if |h| <= SCAN_LIMIT then h else h[..SCAN_LIMIT]
  }

  function RecoverHistory(h: seq<View>): Result<ChainState, ChainError> {
    RecoverSpec(Window(h))
  }

  lemma StateFits(h: seq<View>)
    requires RecoverHistory(h).Ok?
    ensures RecoverHistory(h).value.seq_ <= U64_MAX
  {
    HeadIsNewest(Window(h));
  }

  function FoldFrom(s: Scan, vs: seq<View>): Scan {
    if vs == [] then s else Step(FoldFrom(s, vs[..|vs| - 1]), vs[|vs| - 1])
  }

  lemma {:induction false} FoldSplit(a: seq<View>, b: seq<View>)
    ensures Fold(a + b) == FoldFrom(Fold(a), b)
  {
    if b == [] {
      assert a + b == a;
    } else {
      var init, v := b[..|b| - 1], b[|b| - 1];
      FoldSplit(a, init);
      assert (a + init) + [v] == a + b;
      FoldSnoc(a + init, v);
    }
  }

  /** Traffic that proves nothing: unauthenticated, or failed without being named by the link above it. */
  predicate Inert(newer: seq<View>, x: View) {
    x.Public? || (x.Failed? && Named(Auth(newer)) != Some(x.signature))
  }

  /** Inert traffic does not move the scan. */
  lemma InertStep(a: seq<View>, x: View)
    requires Inert(a, x)
    ensures Step(Fold(a), x) == Fold(a)
  {
    ScanSound(a);
  }

  lemma InertFold(a: seq<View>, x: View, b: seq<View>)
    requires Inert(a, x)
    ensures Fold(a + [x] + b) == Fold(a + b)
  {
    InertStep(a, x);
    FoldSnoc(a, x);
    FoldSplit(a + [x], b);
    FoldSplit(a, b);
  }

  lemma {:induction false} InertAuth(a: seq<View>, x: View, b: seq<View>)
    requires !IsAuth(x)
    ensures Auth(a + [x] + b) == Auth(a + b)
  {
    if b == [] {
      AuthSnoc(a, x);
      assert a + [x] + b == a + [x] && a + b == a && Auth(a) + [] == Auth(a);
    } else {
      var init, v := b[..|b| - 1], b[|b| - 1];
      InertAuth(a, x, init);
      AuthSnoc(a + [x] + init, v);
      AuthSnoc(a + init, v);
      assert a + [x] + init + [v] == a + [x] + b && a + init + [v] == a + b;
    }
  }

  /** Ten links come first, the tenth above zero. */
  predicate TenLinks(as_: seq<View>) {
    |as_| >= 10 && (forall i :: 0 <= i < 10 ==> as_[i].Link?) && as_[9].seq_ > 0
  }

  /** A live scan has not passed ten links. */
  lemma LiveIsShort(s: Scan, as_: seq<View>)
    requires Means(s, as_)
    ensures !TenLinks(as_)
  {
    if s.AfterInit? && Young(as_, s.state) && |as_| == SUFFIX_DEPTH + 1 {
      var ls := as_[..|as_| - 1];
      assert ls[|ls| - 1] == as_[SUFFIX_DEPTH - 1];
    }
  }

  /** In a window that recovers, any prefix with ten links already decides. */
  lemma TenDecide(w: seq<View>, n: nat)
    requires n <= |w| <= SCAN_LIMIT && RecoverSpec(w).Ok? && TenLinks(Auth(w[..n]))
    ensures Fold(w[..n]) == Stop(Ok(RecoverSpec(w).value))
  {
    ScanSound(w[..n]);
    if Fold(w[..n]).Stop? {
      StopStays(w, n);
    } else {
      LiveIsShort(Fold(w[..n]), Auth(w[..n]));
    }
  }

  /** A full window that recovers holds ten links. */
  lemma FullNeedsTen(w: seq<View>)
    requires |w| == SCAN_LIMIT && RecoverSpec(w).Ok?
    ensures TenLinks(Auth(w)) && Fold(w) == Stop(RecoverSpec(w))
  {
    RecoverIff(w, RecoverSpec(w).value);
    var m :| 0 <= m <= |w| && Quiet(w[..m]) && Mature(Auth(w[..m]), RecoverSpec(w).value);
    AuthPrefix(w, m);
    ScanComplete(w[..m]);
    StopStays(w, m);
  }

  /**
   * Public traffic is inert: one more inert entry anywhere in a history that recovers leaves the
   * result as it was, exactly as long as the listing is not full or still shows ten links.
   */
  lemma InsertInertIff(a: seq<View>, x: View, b: seq<View>)
    requires Inert(a, x) && RecoverHistory(a + b).Ok?
    ensures RecoverHistory(a + [x] + b) == RecoverHistory(a + b)
            <==> |a + [x] + b| < 100 || TenLinks(Auth(Window(a + [x] + b)))
  {
    var h' := a + [x] + b;
    if |h'| < SCAN_LIMIT {
      InertFold(a, x, b);
    } else {
      if RecoverHistory(h').Ok? {
        FullNeedsTen(Window(h'));
      }
      if TenLinks(Auth(Window(h'))) {
        InsertIntoFull(a, x, b);
      }
    }
  }

  /** A full window that still shows ten links decides as the history without the entry does. */
  lemma InsertIntoFull(a: seq<View>, x: View, b: seq<View>)
    requires Inert(a, x) && RecoverHistory(a + b).Ok? && |a + [x] + b| >= SCAN_LIMIT
    requires TenLinks(Auth(Window(a + [x] + b)))
    ensures RecoverHistory(a + [x] + b) == RecoverHistory(a + b)
  {
    hide Auth, Fold, TenLinks, Inert;
    var w, w' := Window(a + b), Window(a + [x] + b);
    if |a| >= SCAN_LIMIT {
      assert w' == a[..SCAN_LIMIT] == w;
    } else {
      var n := SCAN_LIMIT - 1;
      var c := b[..n - |a|];
      assert w' == a + [x] + c;
      assert w[..n] == a + c;
      InertFold(a, x, c);
      InertIsNotAuth(a, x);
      InertAuth(a, x, c);
      TenDecide(w, n);
    }
  }

  lemma InertIsNotAuth(a: seq<View>, x: View)
    requires Inert(a, x)
    ensures !IsAuth(x)
  {
  }

  // ---- Extension ---------------------------------------------------------------------------

  lemma {:induction false} AuthCons(v: View, vs: seq<View>)
    ensures Auth([v] + vs) == (if IsAuth(v) then [v] else []) + Auth(vs)
  {
    if vs == [] {
      AuthSnoc([], v);
      assert [v] + vs == [] + [v];
    } else {
      var init, last := vs[..|vs| - 1], vs[|vs| - 1];
      AuthCons(v, init);
      AuthSnoc([v] + init, last);
      assert [v] + init + [last] == [v] + vs;
    }
  }

  /** No failed entry above the first authenticated one carries the named signature. */
  predicate HeadUnfailed(vs: seq<View>, prev: Option<string>) {
    forall j :: 0 <= j < |vs| && vs[j].Failed? && Auth(vs[..j]) == [] ==> prev != Some(vs[j].signature)
  }

  lemma QuietCons(l: View, vs: seq<View>)
    requires l.Link?
    ensures Quiet([l] + vs) <==> Quiet(vs) && HeadUnfailed(vs, l.prev)
  {
    var r := [l] + vs;
    assert QuietAt(r, 0);
    forall j | 0 <= j < |vs|
      ensures QuietAt(r, j + 1) <==>
              QuietAt(vs, j) && (vs[j].Failed? && Auth(vs[..j]) == [] ==> l.prev != Some(vs[j].signature))
    {
      AuthCons(l, vs[..j]);
      assert r[..j + 1] == [l] + vs[..j];
      var as_ := Auth(vs[..j]);
      assert as_ != [] ==> ([l] + as_)[|as_|] == as_[|as_| - 1];
    }
    if Quiet(r) {
      forall j | 0 <= j < |vs| ensures QuietAt(vs, j) && (vs[j].Failed? && Auth(vs[..j]) == [] ==> l.prev != Some(vs[j].signature)) {
        assert QuietAt(r, j + 1);
      }
    }
    if Quiet(vs) && HeadUnfailed(vs, l.prev) {
      forall j | 0 <= j < |r| ensures QuietAt(r, j) {
        if j > 0 {
          assert QuietAt(vs, j - 1);
        }
      }
    }
  }

  lemma RunCons(l: View, ls: seq<View>)
    requires l.Link? && Run(ls)
    requires l.seq_ == Next(ls).seq_ && l.prev == Next(ls).prev && l.seq_ < U64_MAX
    ensures Run([l] + ls)
  {
    var r := [l] + ls;
    forall i | 0 <= i < |r| - 1 ensures LinkedAt(r, i) {
      if i > 0 {
        assert LinkedAt(ls, i - 1);
      }
    }
  }

  /** Sequence numbers along a run. */
  lemma {:induction false} RunCounts(ls: seq<View>, i: nat)
    requires Linked(ls) && i < |ls|
    ensures ls[0].seq_ == ls[i].seq_ + i
  {
    if i > 0 {
      RunCounts(ls, i - 1);
      assert LinkedAt(ls, i - 1);
    }
  }

  /** The first `k` authenticated entries end some prefix. */
  lemma {:induction false} AuthCut(vs: seq<View>, k: nat) returns (m: nat)
    requires k <= |Auth(vs)|
    ensures m <= |vs| && Auth(vs[..m]) == Auth(vs)[..k]
    ensures k < |Auth(vs)| ==> m < |vs|
  {
    if k == |Auth(vs)| {
      m := |vs|;
      assert vs[..m] == vs;
    } else {
      var init := vs[..|vs| - 1];
      m := AuthCut(init, k);
      assert vs[..m] == init[..m];
    }
  }

  lemma QuietTake(vs: seq<View>, m: nat)
    requires Quiet(vs) && m <= |vs|
    ensures Quiet(vs[..m])
  {
    forall j | 0 <= j < m ensures QuietAt(vs[..m], j) {
      assert QuietAt(vs, j) && vs[..m][..j] == vs[..j];
    }
  }

  /** The record built from a recovered state, landed with signature `g`. */
  function Successor(state: ChainState, g: string): View {
    Link(g, state.seq_, state.prev)
  }

  /** The window of an extended history: the new record on top of a prefix of the old window. */
  function Rest(h: seq<View>): (t: seq<View>)
    ensures t <= Window(h)
  {
    if |h| < SCAN_LIMIT then h else h[..SCAN_LIMIT - 1]
  }

  lemma WindowCons(l: View, h: seq<View>)
    ensures Window([l] + h) == [l] + Rest(h)
  {
  }

  lemma ExtendMature(w: seq<View>, t: seq<View>, m: nat, state: ChainState, g: string)
    requires t <= w && m <= |w| <= |t| + 1 && Quiet(w[..m]) && Mature(Auth(w[..m]), state)
    requires state.seq_ < U64_MAX && HeadUnfailed(w, state.prev)
    ensures Proves([Successor(state, g)] + t, ChainState(state.seq_ + 1, Some(g)))
  {
    var l := Successor(state, g);
    var ls := Auth(w[..m]);
    var k := AuthCut(w[..m], SUFFIX_DEPTH - 1);
    var p := w[..m][..k];
    QuietTake(w[..m], k);
    assert p == w[..k] == t[..k];
    HeadUnfailedTake(w, k, state.prev);
    QuietCons(l, p);
    AuthCons(l, p);
    hide Quiet, HeadUnfailed, Auth;
    RunCons(l, ls);
    RunPrefix([l] + ls);
    var w' := [l] + t;
    assert w'[..k + 1] == [l] + p;
    assert ([l] + ls)[..|ls|] == [l] + ls[..|ls| - 1];
    assert Mature(Auth(w'[..k + 1]), ChainState(state.seq_ + 1, Some(g)));
  }

  lemma ExtendShort(h: seq<View>, state: ChainState, g: string)
    requires |h| < SCAN_LIMIT && Quiet(h) && (Fresh(Auth(h), state) || Young(Auth(h), state))
    requires HeadUnfailed(h, state.prev) && (state.seq_ >= SUFFIX_DEPTH || |h| + 1 < SCAN_LIMIT)
    ensures Proves([Successor(state, g)] + h, ChainState(state.seq_ + 1, Some(g)))
  {
    var l := Successor(state, g);
    QuietCons(l, h);
    AuthCons(l, h);
    ExtendAuth(Auth(h), state, g);
    hide Quiet, Auth, HeadUnfailed, Young, Fresh;
    var h', next := [l] + h, ChainState(state.seq_ + 1, Some(g));
    if |Auth(h)| == SUFFIX_DEPTH + 1 {
      var m := AuthCut(h', SUFFIX_DEPTH);
      QuietTake(h', m);
      assert Mature(Auth(h'[..m]), next);
    }
  }

  /** The authenticated entries of a short chain, with the successor in front. */
  lemma ExtendAuth(as_: seq<View>, state: ChainState, g: string)
    requires Fresh(as_, state) || Young(as_, state)
    ensures var r, next := [Successor(state, g)] + as_, ChainState(state.seq_ + 1, Some(g));
            && state.seq_ == |as_| - 1
            && if |as_| <= SUFFIX_DEPTH then Young(r, next) else Mature(r[..SUFFIX_DEPTH], next)
  {
    var l := Successor(state, g);
    var r := [l] + as_;
    if Fresh(as_, state) {
      assert r[..1] == [l];
    } else {
      var ls := as_[..|as_| - 1];
      RunCounts(ls, |ls| - 1);
      RunCons(l, ls);
      assert r[..|as_|] == [l] + ls;
      if |ls| == SUFFIX_DEPTH {
        RunPrefix([l] + ls);
        assert ([l] + ls)[..SUFFIX_DEPTH] == r[..SUFFIX_DEPTH];
      }
    }
  }

  /** A window that proves a state proves its successor once the successor lands on top. */
  lemma ExtendProves(h: seq<View>, state: ChainState, g: string)
    requires Proves(Window(h), state) && state.seq_ < U64_MAX && HeadUnfailed(Window(h), state.prev)
    requires state.seq_ >= SUFFIX_DEPTH || |h| + 1 < SCAN_LIMIT
    ensures Proves(Window([Successor(state, g)] + h), ChainState(state.seq_ + 1, Some(g)))
  {
    var w := Window(h);
    WindowCons(Successor(state, g), h);
    if m :| 0 <= m <= |w| && Quiet(w[..m]) && Mature(Auth(w[..m]), state) {
      ExtendMature(w, Rest(h), m, state, g);
    } else {
      ExtendShort(h, state, g);
    }
  }

  lemma HeadUnfailedTake(vs: seq<View>, k: nat, prev: Option<string>)
    requires HeadUnfailed(vs, prev) && k <= |vs|
    ensures HeadUnfailed(vs[..k], prev)
  {
    forall j | 0 <= j < k ensures vs[..k][..j] == vs[..j] {}
  }

  lemma NeedsMature(w: seq<View>, t: seq<View>, m: nat, state: ChainState, g: string)
    requires t <= w && m <= |t| + 1
    requires var w' := [Successor(state, g)] + t;
             Quiet(w'[..m]) && Mature(Auth(w'[..m]), ChainState(state.seq_ + 1, Some(g)))
    ensures HeadUnfailed(w, state.prev) && state.seq_ >= SUFFIX_DEPTH
  {
    var l := Successor(state, g);
    var w' := [l] + t;
    assert |Auth(w'[..m])| <= m;
    var p := t[..m - 1];
    assert w'[..m] == [l] + p && p == w[..m - 1];
    AuthCons(l, p);
    QuietCons(l, p);
    RunCounts(Auth(w'[..m]), SUFFIX_DEPTH - 1);
    FirstAuthWithin(w, m - 1, state.prev);
  }

  /** Only then: an extension that recovers had room, was not full, and named no failed entry. */
  lemma ExtendNeeds(h: seq<View>, state: ChainState, g: string)
    requires Proves(Window(h), state)
    requires Proves(Window([Successor(state, g)] + h), ChainState(state.seq_ + 1, Some(g)))
    ensures state.seq_ < U64_MAX && HeadUnfailed(Window(h), state.prev)
    ensures state.seq_ >= SUFFIX_DEPTH || |h| + 1 < SCAN_LIMIT
  {
    var l, next := Successor(state, g), ChainState(state.seq_ + 1, Some(g));
    var w := Window([l] + h);
    WindowCons(l, h);
    RecoverIff(w, next);
    HeadIsNewest(w);
    AuthCons(l, Rest(h));
    if m :| 0 <= m <= |w| && Quiet(w[..m]) && Mature(Auth(w[..m]), next) {
      NeedsMature(Window(h), Rest(h), m, state, g);
    } else {
      QuietCons(l, Rest(h));
    }
  }

  /** Entries above the first authenticated one all lie in any prefix that has one. */
  lemma FirstAuthWithin(vs: seq<View>, k: nat, prev: Option<string>)
    requires k <= |vs| && HeadUnfailed(vs[..k], prev) && Auth(vs[..k]) != []
    ensures HeadUnfailed(vs, prev)
  {
    forall j | 0 <= j < |vs| && vs[j].Failed? && Auth(vs[..j]) == [] ensures prev != Some(vs[j].signature) {
      if j >= k {
        assert vs[..j][..k] == vs[..k];
        AuthPrefix(vs[..j], k);
      } else {
        assert vs[..k][..j] == vs[..j];
      }
    }
  }

  /**
   * Recovery is closed under extension: when a history recovers to (seq, prev) and the record built
   * from it lands on top, the longer history recovers to its successor, exactly when the sequence
   * still fits u64, no newer failed entry carries the head's signature, and either ten links are
   * there or the listing is not yet full.
   */
  lemma ExtendIff(h: seq<View>, g: string)
    requires RecoverHistory(h).Ok?
    ensures var state := RecoverHistory(h).value;
            RecoverHistory([Successor(state, g)] + h) == Ok(ChainState(state.seq_ + 1, Some(g)))
            <==> && state.seq_ < U64_MAX
                 && HeadUnfailed(Window(h), state.prev)
                 && (state.seq_ >= 10 || |h| + 1 < 100)
  {
    var state := RecoverHistory(h).value;
    var next := ChainState(state.seq_ + 1, Some(g));
    RecoverIff(Window(h), state);
    RecoverIff(Window([Successor(state, g)] + h), next);
    if Proves(Window([Successor(state, g)] + h), next) {
      ExtendNeeds(h, state, g);
    } else if && state.seq_ < U64_MAX && HeadUnfailed(Window(h), state.prev)
              && (state.seq_ >= SUFFIX_DEPTH || |h| + 1 < SCAN_LIMIT) {
      ExtendProves(h, state, g);
    }
  }
}
