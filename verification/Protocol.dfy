/** Attestation builders racing on one nonce. */
module Protocol {
  // Many builders against one durable nonce and lagging nodes: the order in
  // plugins/kiosk-attest/src/attest.rs (snapshot, then recover at the snapshot's slot) as a state machine.
  //
  // The environment is Solana's: a transaction on a durable nonce lands only while that nonce is the
  // stored one, and landing stores a nonce never stored before. A slot is a number of ledger entries.

  import opened Wrappers
  import opened Recovery
  import M = Message

  /** A nonce and the chain state that one artifact carries. */
  datatype Artifact = Artifact(nonce: M.Key, state: ChainState)

  /** Where a builder stands: it has read nothing yet, or it has read the nonce at a slot. */
  datatype Builder = Idle | HasNonce(nonce: M.Key, slot: nat)

  /**
   * `ledger` lists everything about the device account, oldest first; `nonces[i]` is the stored
   * nonce after `i` entries, if the account exists.
   */
  datatype State = State(
    ledger: seq<View>,
    nonces: seq<Option<M.Key>>,
    builders: map<nat, Builder>,
    artifacts: set<Artifact>)

  /** A complete listing after `t` entries, newest first. */
  function History(ledger: seq<View>, t: nat): seq<View>
    requires t <= |ledger|
  {
    Newest(ledger[..t])
  }

  function Newest(ledger: seq<View>): seq<View> {
    if ledger == [] then [] else [ledger[|ledger| - 1]] + Newest(ledger[..|ledger| - 1])
  }

  // ---- Steps -------------------------------------------------------------------------------

  predicate Shape(s: State) {
    |s.nonces| == |s.ledger| + 1
  }

  /** Builder `b` reads the nonce from a node that has seen `slot` entries, however few. */
  predicate ReadNonce(s: State, s': State, b: nat, slot: nat)
    requires Shape(s)
  {
    && slot <= |s.ledger| && s.nonces[slot].Some?
    && s' == s.(builders := s.builders[b := HasNonce(s.nonces[slot].value, slot)])
  }

  /** It recovers from any node at or past that slot, and publishes the artifact. */
  predicate Publish(s: State, s': State, b: nat, at: nat)
    requires Shape(s)
  {
    && b in s.builders && s.builders[b].HasNonce? && s.builders[b].slot <= at <= |s.ledger|
    && var r := RecoverHistory(History(s.ledger, at));
    && r.Ok?
    && s' == s.(builders := s.builders[b := Idle],
                artifacts := s.artifacts + {Artifact(s.builders[b].nonce, r.value)})
  }

  /** It gives up, at any point. */
  predicate Abandon(s: State, s': State, b: nat) {
    s' == s.(builders := s.builders[b := Idle])
  }

  function Current(s: State): Option<M.Key>
    requires Shape(s)
  {
    s.nonces[|s.ledger|]
  }

  /** Any artifact ever published lands, with signature `g`, while its nonce is the stored one. */
  predicate Land(s: State, s': State, a: Artifact, g: string, renewed: M.Key)
    requires Shape(s)
  {
    && a in s.artifacts && Current(s) == Some(a.nonce) && Some(renewed) !in s.nonces
    && s' == s.(ledger := s.ledger + [Successor(a.state, g)], nonces := s.nonces + [Some(renewed)])
  }

  /**
   * Anything else that names the account: public, failed or broken transactions and (re-)initializations.
   * The stored nonce stays, goes away, or becomes one never stored before.
   */
  predicate Traffic(s: State, s': State, v: View, nonce: Option<M.Key>)
    requires Shape(s)
  {
    && !v.Link?
    && (nonce == Current(s) || nonce.None? || nonce !in s.nonces)
    && s' == s.(ledger := s.ledger + [v], nonces := s.nonces + [nonce])
  }

  ghost predicate Next(s: State, s': State) {
    && Shape(s)
    && (|| (exists b: nat, slot: nat :: ReadNonce(s, s', b, slot))
        || (exists b: nat, at: nat :: Publish(s, s', b, at))
        || (exists b: nat :: Abandon(s, s', b))
        || (exists a, g, renewed :: Land(s, s', a, g, renewed))
        || (exists v, nonce :: Traffic(s, s', v, nonce)))
  }

  predicate Initial(s: State) {
    s == State([], [None], map[], {})
  }

  ghost predicate Execution(run: seq<State>) {
    && run != [] && Initial(run[0])
    && forall i :: 0 <= i < |run| - 1 ==> Next(run[i], run[i + 1])
  }

  // ---- One unforked chain ------------------------------------------------------------------

  /** The landed attestations, oldest first. */
  function Links(ledger: seq<View>): (ls: seq<View>)
    ensures forall i :: 0 <= i < |ls| ==> ls[i].Link?
  {
    if ledger == [] then [] else
    Links(ledger[..|ledger| - 1]) + if ledger[|ledger| - 1].Link? then [ledger[|ledger| - 1]] else []
  }

  /** Landed attestations number from zero, and each names the one before it. */
  predicate Unforked(ls: seq<View>)
    requires forall i :: 0 <= i < |ls| ==> ls[i].Link?
  {
    forall i :: 0 <= i < |ls| ==> InPlace(ls, i)
  }

  predicate InPlace(ls: seq<View>, i: nat)
    requires i < |ls| && forall k :: 0 <= k < |ls| ==> ls[k].Link?
  {
    ls[i].seq_ == i && ls[i].prev == if i == 0 then None else Some(ls[i - 1].signature)
  }

  /** What should follow a chain of landed attestations. */
  function Following(ls: seq<View>): ChainState
    requires forall i :: 0 <= i < |ls| ==> ls[i].Link?
  {
    if ls == [] then ChainState(0, None) else ChainState(ls[|ls| - 1].seq_ + 1, Some(ls[|ls| - 1].signature))
  }

  lemma LinksSnoc(ledger: seq<View>, v: View)
    ensures Links(ledger + [v]) == Links(ledger) + if v.Link? then [v] else []
  {
    assert (ledger + [v])[..|ledger|] == ledger;
  }

  /** The newest authenticated entry of a history, and the newest link below nothing but initializations. */
  lemma {:induction false} NewestAuth(ledger: seq<View>)
    ensures var as_ := Auth(Newest(ledger));
            && (as_ == [] ==> Links(ledger) == [])
            && (as_ != [] && as_[0].Link? ==> Links(ledger) != [] && Links(ledger)[|Links(ledger)| - 1] == as_[0])
            && (as_ == [Init] ==> Links(ledger) == [])
  {
    if ledger != [] {
      var init, v := ledger[..|ledger| - 1], ledger[|ledger| - 1];
      NewestAuth(init);
      AuthCons(v, Newest(init));
      assert ledger == init + [v];
      LinksSnoc(init, v);
      if v.Init? {
        assert Auth(Newest(ledger)) == [Init] ==> Auth(Newest(init)) == [];
      }
    } else {
      assert Newest(ledger) == [];
    }
  }

  /** A recovered state always continues the newest landed attestation of the whole history. */
  lemma RecoveredFollows(ledger: seq<View>)
    requires RecoverHistory(Newest(ledger)).Ok?
    ensures RecoverHistory(Newest(ledger)).value == Following(Links(ledger))
  {
    var h := Newest(ledger);
    var w := Window(h);
    var state := RecoverHistory(h).value;
    HeadIsNewest(w);
    AuthPrefix(h, |w|);
    assert h[..|w|] == w;
    NewestAuth(ledger);
    if Auth(w)[0].Init? {
      RecoverIff(w, state);
      OnlyFresh(w, state);
    }
  }

  /** A window whose newest authenticated entry is an initialization proves a state only if that is all. */
  lemma OnlyFresh(w: seq<View>, state: ChainState)
    requires Proves(w, state) && Auth(w) != [] && Auth(w)[0].Init?
    ensures Auth(w) == [Init] && |w| < SCAN_LIMIT
  {
    forall m: nat | m <= |w| ensures !Mature(Auth(w[..m]), state) {
      AuthPrefix(w, m);
    }
  }

  // ---- The invariant -----------------------------------------------------------------------

  /** A change of the stored nonce stores one never stored before; a landing always changes it. */
  predicate RenewedAt(s: State, k: nat)
    requires Shape(s) && k < |s.ledger|
  {
    && (s.nonces[k + 1] != s.nonces[k] && s.nonces[k + 1].Some? ==> s.nonces[k + 1] !in s.nonces[..k + 1])
    && (s.ledger[k].Link? ==> s.nonces[k + 1].Some? && s.nonces[k + 1] !in s.nonces[..k + 1])
  }

  /** The artifact's nonce was stored at some slot, and its state recovered at that slot or later. */
  predicate ReadInOrder(s: State, a: Artifact, slot: nat, at: nat)
    requires Shape(s)
  {
    && slot <= at <= |s.ledger| && s.nonces[slot] == Some(a.nonce)
    && RecoverHistory(History(s.ledger, at)) == Ok(a.state)
  }

  predicate Inv(s: State) {
    && Shape(s)
    && (forall k :: 0 <= k < |s.ledger| ==> RenewedAt(s, k))
    && (forall b :: b in s.builders && s.builders[b].HasNonce? ==>
         s.builders[b].slot <= |s.ledger| && s.nonces[s.builders[b].slot] == Some(s.builders[b].nonce))
    && (forall a :: a in s.artifacts ==>
         exists slot, at :: 0 <= slot <= at <= |s.ledger| && ReadInOrder(s, a, slot, at))
    && Unforked(Links(s.ledger))
  }

  /** As long as the same nonce is stored, no attestation lands. */
  lemma {:induction false} SameNonceNoLanding(s: State, i: nat, j: nat, n: M.Key)
    requires Shape(s) && forall k :: 0 <= k < |s.ledger| ==> RenewedAt(s, k)
    requires i <= j <= |s.ledger| && s.nonces[i] == Some(n) && s.nonces[j] == Some(n)
    ensures Links(s.ledger[..j]) == Links(s.ledger[..i])
    decreases j
  {
    if i < j {
      assert RenewedAt(s, j - 1);
      assert s.nonces[..j][i] == Some(n);
      assert s.nonces[j - 1] == Some(n) && !s.ledger[j - 1].Link?;
      SameNonceNoLanding(s, i, j - 1, n);
      assert s.ledger[..j] == s.ledger[..j - 1] + [s.ledger[j - 1]];
      LinksSnoc(s.ledger[..j - 1], s.ledger[j - 1]);
    }
  }

  /** An artifact that can still land carries exactly what should follow the landed chain. */
  lemma ArtifactFollows(s: State, a: Artifact)
    requires Inv(s) && a in s.artifacts && Current(s) == Some(a.nonce)
    ensures a.state == Following(Links(s.ledger))
  {
    hide RecoverHistory, Newest, Links, Unforked, RenewedAt;
    var slot, at :| 0 <= slot <= at <= |s.ledger| && ReadInOrder(s, a, slot, at);
    var n := |s.ledger|;
    SameNonceNoLanding(s, slot, n, a.nonce);
    assert s.ledger[..n] == s.ledger;
    LinksMonotone(s.ledger, slot, at);
    LinksMonotone(s.ledger, at, n);
    RecoveredFollows(s.ledger[..at]);
  }

  lemma {:induction false} LinksMonotone(ledger: seq<View>, i: nat, j: nat)
    requires i <= j <= |ledger|
    ensures Links(ledger[..i]) <= Links(ledger[..j])
    decreases j
  {
    if i < j {
      LinksMonotone(ledger, i, j - 1);
      assert ledger[..j] == ledger[..j - 1] + [ledger[j - 1]];
      LinksSnoc(ledger[..j - 1], ledger[j - 1]);
    }
  }

  lemma UnforkedSnoc(ls: seq<View>, l: View)
    requires (forall i :: 0 <= i < |ls| ==> ls[i].Link?) && l.Link? && Unforked(ls)
    requires l.seq_ == Following(ls).seq_ && l.prev == Following(ls).prev
    ensures Unforked(ls + [l])
  {
    var r := ls + [l];
    forall i | 0 <= i < |r| ensures InPlace(r, i) {
      assert i < |ls| ==> InPlace(ls, i) && r[i] == ls[i];
      assert i == |ls| > 0 ==> InPlace(ls, i - 1) && r[i - 1] == ls[i - 1];
    }
  }

  /** One more entry keeps what was recorded about older slots. */
  lemma Extended(s: State, s': State, v: View, nonce: Option<M.Key>)
    requires Inv(s) && s'.ledger == s.ledger + [v] && s'.nonces == s.nonces + [nonce]
    requires s'.builders == s.builders && s'.artifacts == s.artifacts
    requires nonce == Current(s) || nonce.None? || nonce !in s.nonces
    requires v.Link? ==> nonce.Some? && nonce !in s.nonces
    requires Unforked(Links(s'.ledger))
    ensures Inv(s')
  {
    var n := |s.ledger|;
    forall k | 0 <= k < |s'.ledger| ensures RenewedAt(s', k) {
      if k < n {
        assert RenewedAt(s, k) && s'.nonces[..k + 1] == s.nonces[..k + 1];
      } else {
        assert s'.nonces[..n + 1] == s.nonces;
      }
    }
    forall a | a in s'.artifacts
      ensures exists slot, at :: 0 <= slot <= at <= |s'.ledger| && ReadInOrder(s', a, slot, at)
    {
      var slot, at :| 0 <= slot <= at <= |s.ledger| && ReadInOrder(s, a, slot, at);
      assert s'.ledger[..at] == s.ledger[..at];
      assert ReadInOrder(s', a, slot, at);
    }
  }

  lemma LandKeeps(s: State, s': State, a: Artifact, g: string, renewed: M.Key)
    requires Inv(s) && Land(s, s', a, g, renewed)
    ensures Inv(s') && Links(s'.ledger) == Links(s.ledger) + [Successor(a.state, g)]
  {
    var l := Successor(a.state, g);
    ArtifactFollows(s, a);
    LinksSnoc(s.ledger, l);
    UnforkedSnoc(Links(s.ledger), l);
    Extended(s, s', l, Some(renewed));
  }

  lemma TrafficKeeps(s: State, s': State, v: View, nonce: Option<M.Key>)
    requires Inv(s) && Traffic(s, s', v, nonce)
    ensures Inv(s')
  {
    LinksSnoc(s.ledger, v);
    assert Links(s.ledger) + [] == Links(s.ledger);
    Extended(s, s', v, nonce);
  }

  lemma PublishKeeps(s: State, s': State, b: nat, at: nat)
    requires Inv(s) && Publish(s, s', b, at)
    ensures Inv(s')
  {
    var new_ := Artifact(s.builders[b].nonce, RecoverHistory(History(s.ledger, at)).value);
    assert ReadInOrder(s', new_, s.builders[b].slot, at);
    forall k | 0 <= k < |s'.ledger| ensures RenewedAt(s', k) {
      assert RenewedAt(s, k);
    }
    forall a | a in s'.artifacts
      ensures exists slot, at :: 0 <= slot <= at <= |s'.ledger| && ReadInOrder(s', a, slot, at)
    {
      if a != new_ {
        var slot, at0 :| 0 <= slot <= at0 <= |s.ledger| && ReadInOrder(s, a, slot, at0);
        assert ReadInOrder(s', a, slot, at0);
      }
    }
  }

  lemma BuilderKeeps(s: State, s': State, b: nat, builder: Builder)
    requires Inv(s) && s' == s.(builders := s.builders[b := builder])
    requires builder.HasNonce? ==> builder.slot <= |s.ledger| && s.nonces[builder.slot] == Some(builder.nonce)
    ensures Inv(s')
  {
    forall k | 0 <= k < |s'.ledger| ensures RenewedAt(s', k) {
      assert RenewedAt(s, k);
    }
    forall a | a in s'.artifacts
      ensures exists slot, at :: 0 <= slot <= at <= |s'.ledger| && ReadInOrder(s', a, slot, at)
    {
      var slot, at :| 0 <= slot <= at <= |s.ledger| && ReadInOrder(s, a, slot, at);
      assert ReadInOrder(s', a, slot, at);
    }
  }

  /** Every step of every builder, of the chain and of the rest of the world keeps the invariant. */
  lemma NextKeeps(s: State, s': State)
    requires Inv(s) && Next(s, s')
    ensures Inv(s')
  {
    if b: nat, slot: nat :| ReadNonce(s, s', b, slot) {
      BuilderKeeps(s, s', b, HasNonce(s.nonces[slot].value, slot));
    } else if b: nat, at: nat :| Publish(s, s', b, at) {
      PublishKeeps(s, s', b, at);
    } else if b: nat :| Abandon(s, s', b) {
      BuilderKeeps(s, s', b, Idle);
    } else if a, g, renewed :| Land(s, s', a, g, renewed) {
      LandKeeps(s, s', a, g, renewed);
    } else {
      var v, nonce :| Traffic(s, s', v, nonce);
      TrafficKeeps(s, s', v, nonce);
    }
  }

  lemma {:induction false} ReachableInv(run: seq<State>, i: nat)
    requires Execution(run) && i < |run|
    ensures Inv(run[i])
  {
    if i > 0 {
      ReachableInv(run, i - 1);
      NextKeeps(run[i - 1], run[i]);
    } else {
      assert Links([]) == [];
    }
  }

  /**
   * In every execution, at every moment, the landed attestations form one unforked chain from zero:
   * no two share a sequence number, and each names the signature of the one before.
   */
  lemma OneChain(run: seq<State>, i: nat)
    requires Execution(run) && i < |run|
    ensures var ls := Links(run[i].ledger);
            && Unforked(ls)
            && forall p, q :: 0 <= p < |ls| && 0 <= q < |ls| && ls[p].seq_ == ls[q].seq_ ==> p == q
  {
    ReachableInv(run, i);
    var ls := Links(run[i].ledger);
    hide Inv, Links, Execution;
    forall p | 0 <= p < |ls| ensures ls[p].seq_ == p {
      assert InPlace(ls, p);
    }
  }

  /** Whatever lands carries the head's successor and the head's signature. */
  lemma LandingContinues(run: seq<State>, i: nat, s': State, a: Artifact, g: string, renewed: M.Key)
    requires Execution(run) && i < |run| && Shape(run[i]) && Land(run[i], s', a, g, renewed)
    ensures var ls := Links(run[i].ledger);
            && Links(s'.ledger) == ls + [Link(g, |ls|, if ls == [] then None else Some(ls[|ls| - 1].signature))]
  {
    ReachableInv(run, i);
    ArtifactFollows(run[i], a);
    LandKeeps(run[i], s', a, g, renewed);
    hide RenewedAt, ReadInOrder, Links, Execution;
    FollowingCounts(Links(run[i].ledger));
  }

  /** What follows an unforked chain is numbered by its length. */
  lemma FollowingCounts(ls: seq<View>)
    requires (forall i :: 0 <= i < |ls| ==> ls[i].Link?) && Unforked(ls)
    ensures Following(ls) == ChainState(|ls|, if ls == [] then None else Some(ls[|ls| - 1].signature))
  {
    if ls != [] {
      assert InPlace(ls, |ls| - 1);
    }
  }

  // ---- The order is needed -----------------------------------------------------------------

  /** A publishing step without the slot bound: history may be read from an older state than the nonce. */
  predicate PublishUnordered(s: State, s': State, b: nat, at: nat)
    requires Shape(s)
  {
    && b in s.builders && s.builders[b].HasNonce? && at <= |s.ledger|
    && var r := RecoverHistory(History(s.ledger, at));
    && r.Ok?
    && s' == s.(builders := s.builders[b := Idle],
                artifacts := s.artifacts + {Artifact(s.builders[b].nonce, r.value)})
  }

  /**
   * From any reachable state in which some past history still recovers to an outdated state, dropping
   * the slot bound lets one builder fork the chain with a nonce that is perfectly current.
   */
  lemma UnorderedForks(s: State, b: nat, at: nat, g: string, renewed: M.Key) returns (read: State, published: State, landed: State)
    requires Inv(s) && Current(s).Some? && Some(renewed) !in s.nonces
    requires at <= |s.ledger| && RecoverHistory(History(s.ledger, at)).Ok?
    requires Links(s.ledger[..at]) != Links(s.ledger)
    ensures ReadNonce(s, read, b, |s.ledger|)
    ensures PublishUnordered(read, published, b, at)
    ensures exists a :: Land(published, landed, a, g, renewed)
    ensures !Unforked(Links(landed.ledger))
  {
    hide RecoverHistory, Newest, Links, Unforked, RenewedAt, ReadInOrder;
    var n := |s.ledger|;
    var nonce := s.nonces[n].value;
    var state := RecoverHistory(History(s.ledger, at)).value;
    read := s.(builders := s.builders[b := HasNonce(nonce, n)]);
    published := read.(builders := read.builders[b := Idle], artifacts := read.artifacts + {Artifact(nonce, state)});
    var l := Successor(state, g);
    landed := published.(ledger := s.ledger + [l], nonces := s.nonces + [Some(renewed)]);
    assert Land(published, landed, Artifact(nonce, state), g, renewed);
    StaleForks(s, at, l);
  }

  /** The successor of an outdated state repeats a sequence number. */
  lemma StaleForks(s: State, at: nat, l: View)
    requires Unforked(Links(s.ledger)) && at <= |s.ledger| && RecoverHistory(History(s.ledger, at)).Ok?
    requires Links(s.ledger[..at]) != Links(s.ledger)
    requires l.Link? && l.seq_ == RecoverHistory(History(s.ledger, at)).value.seq_
    ensures !Unforked(Links(s.ledger + [l]))
  {
    hide RecoverHistory, Newest, Links;
    RecoveredFollows(s.ledger[..at]);
    LinksMonotone(s.ledger, at, |s.ledger|);
    assert s.ledger[..|s.ledger|] == s.ledger;
    LinksSnoc(s.ledger, l);
    var stale, ls := Links(s.ledger[..at]), Links(s.ledger);
    assert |stale| < |ls|;
    if stale != [] {
      assert InPlace(ls, |stale| - 1) && ls[|stale| - 1] == stale[|stale| - 1];
    }
    assert l.seq_ == |stale|;
    assert !InPlace(ls + [l], |ls|);
  }

  /** Such states are reached at once: initialize, attest once, and the first entry alone is outdated. */
  lemma OutdatedReachable(n0: M.Key, n1: M.Key, g: string) returns (run: seq<State>, s: State)
    requires n0 != n1
    ensures Execution(run) && run[|run| - 1] == s
    ensures s.ledger == [Init, Link(g, 0, None)] && s.nonces == [None, Some(n0), Some(n1)]
    ensures RecoverHistory(History(s.ledger, 1)) == Ok(ChainState(0, None)) && Links(s.ledger[..1]) != Links(s.ledger)
  {
    hide RecoverHistory, History, Links, Next;
    var start := ChainState(0, None);
    var s0 := State([], [None], map[], {});
    var s1 := State([Init], [None, Some(n0)], map[], {});
    var s2 := s1.(builders := map[0 := HasNonce(n0, 1)]);
    var s3 := s1.(builders := map[0 := Idle], artifacts := {Artifact(n0, start)});
    s := s3.(ledger := [Init, Link(g, 0, None)], nonces := [None, Some(n0), Some(n1)]);
    FirstPublication(n0, s0, s1, s2, s3);
    FirstLanding(n0, n1, g, s3, s);
    run := [s0, s1, s2, s3, s];
    FirstIsOutdated(g);
  }

  lemma FirstPublication(n0: M.Key, s0: State, s1: State, s2: State, s3: State)
    requires s0 == State([], [None], map[], {}) && s1 == State([Init], [None, Some(n0)], map[], {})
    requires s2 == s1.(builders := map[0 := HasNonce(n0, 1)])
    requires s3 == s1.(builders := map[0 := Idle], artifacts := {Artifact(n0, ChainState(0, None))})
    ensures Next(s0, s1) && Next(s1, s2) && Next(s2, s3)
  {
    InitRecovers();
    assert [Init][..1] == [Init];
    hide RecoverHistory, Newest, Links;
    assert Traffic(s0, s1, Init, Some(n0)) && ReadNonce(s1, s2, 0, 1) && Publish(s2, s3, 0, 1);
  }

  lemma FirstLanding(n0: M.Key, n1: M.Key, g: string, s: State, s': State)
    requires n0 != n1 && s.ledger == [Init] && s.nonces == [None, Some(n0)] && Artifact(n0, ChainState(0, None)) in s.artifacts
    requires s' == s.(ledger := [Init, Link(g, 0, None)], nonces := [None, Some(n0), Some(n1)])
    ensures Next(s, s')
  {
    assert Land(s, s', Artifact(n0, ChainState(0, None)), g, n1);
  }

  lemma FirstIsOutdated(g: string)
    ensures var ledger := [Init, Link(g, 0, None)];
            RecoverHistory(History(ledger, 1)) == Ok(ChainState(0, None)) && Links(ledger[..1]) != Links(ledger)
  {
    InitRecovers();
    var ledger := [Init, Link(g, 0, None)];
    assert ledger[..1] == [Init] && [Init] + [Link(g, 0, None)] == ledger;
    hide RecoverHistory, Newest;
    LinksSnoc([Init], Link(g, 0, None));
  }

  lemma InitRecovers()
    ensures Newest([Init]) == [Init] && RecoverHistory([Init]) == Ok(ChainState(0, None))
  {
    assert [Init] == [] + [Init];
    FoldSnoc([], Init);
  }
}
