/**
 * The runs of plugins/kiosk-attest/src/attest.rs as steps of Protocol.dfy: a node that answers from
 * the ledger, a run against it, and its artifact as recovery sees it once landed.
 */
module Builders {
  import opened Wrappers
  import opened Json
  import opened Recovery
  import opened Attest
  import opened Protocol
  import M = Message
  import R = Rpc
  import Chain
  import Landing

  /**
   * A node that answers from the ledger: the nonce account as of `slot`, and the newest entries of
   * some history at or past the slot that it is asked for.
   */
  predicate Honest(s: State, node: Node, cfg: Config, authority: M.Key, parse: Parser, slot: nat, at: nat)
    requires Shape(s)
  {
    && slot <= at <= |s.ledger| && s.nonces[slot].Some?
    && SnapshotNonce(node.account, authority) == Ok(Snapshot(s.nonces[slot].value, slot))
    && node.listing(slot).Ok?
    && Chain.Views(node.listing(slot).value, DeviceOf(cfg), parse) == Window(History(s.ledger, at))
  }

  /** A successful run against an honest node is a snapshot and then a publication of its artifact. */
  lemma RunPublishes(s: State, b: nat, args: Args, cfg: Config, node: Node, now: nat, parse: Parser,
                     print_: Printer, authority: M.Key, slot: nat, at: nat)
    returns (run: Landing.Run, read: State, published: State)
    requires Shape(s) && AttestSpec(args, cfg, node, now, parse, print_).Ok?
    requires Some(authority) == Landing.Base58.DecodePubkey(cfg.nonceAuthority) && Honest(s, node, cfg, authority, parse, slot, at)
    ensures ReadNonce(s, read, b, slot) && Publish(read, published, b, at)
    ensures Artifact(run.snap.blockhash, run.state) in published.artifacts
    ensures BodyOf(args, cfg) == Ok(run.body) && Infrastructure(cfg, run.body) == Ok((run.nonce, run.authority))
    ensures AttestSpec(args, cfg, node, now, parse, print_).value.message ==
            Landing.Built(run.nonce, run.authority, run.body.reference,
                          Landing.MemoOf(cfg, run, now, print_), run.snap.blockhash)
  {
    run := Landing.AttestSteps(args, cfg, node, now, parse, print_);
    hide AttestSpec, BodyOf, SnapshotNonce, RecoverSpec, History, Landing.Built, Landing.MemoOf, Landing.Base58.DecodePubkey;
    assert run.authority == authority;
    read := s.(builders := s.builders[b := HasNonce(run.snap.blockhash, slot)]);
    assert RecoverHistory(History(s.ledger, at)) == Ok(run.state);
    published := read.(builders := read.builders[b := Idle],
                       artifacts := read.artifacts + {Artifact(run.snap.blockhash, run.state)});
  }

  /** When it lands, recovery sees in the node's report the very entry that the landing step appends. */
  lemma RunLands(s: State, s': State, args: Args, cfg: Config, node: Node, now: nat, parse: Parser, print_: Printer,
                 run: Landing.Run, e: R.Entry, g: string, renewed: M.Key)
    requires Landing.Emitted(args, cfg, node, now, parse, print_, run) && Landing.Landed(cfg, run, now, print_, e, g)
    requires run.nonce != run.authority && run.state.seq_ <= U64_MAX && run.state.prev != Some("")
    requires Shape(s) && Land(s, s', Artifact(run.snap.blockhash, run.state), g, renewed)
    ensures s'.ledger == s.ledger + [Chain.ViewOf(e, DeviceOf(cfg), parse)]
  {
    Landing.LandedView(args, cfg, node, now, parse, print_, run, e, g);
  }
}
