/**
 * The delivery record that plugins/kiosk-attest/src/attest.rs writes is the marker that
 * plugins/kiosk-watch/src/watch.rs accepts, and it closes the charge for good.
 */
module Fulfillment {
  import opened Wrappers
  import opened Json
  import opened Recovery
  import Attest
  import Base58
  import Chain
  import K = Keys
  import L = Landing
  import M = Message
  import P = Payment
  import R = Rpc
  import W = Watch

  lemma {:induction false} NamingIsMatching(keys: seq<R.AccountKey>, name: string)
    requires forall i :: 0 <= i < |keys| ==> keys[i].Full?
    ensures P.Naming(keys, name) == Chain.Matching(keys, name)
  {
    if keys != [] {
      NamingIsMatching(keys[1..], name);
    }
  }

  /** The verifier's envelope check on a built message that attaches an independent reference. */
  lemma EnvelopeAccepted(nonce: M.Key, authority: M.Key, reference: M.Key, memo: Text, blockhash: M.Key,
                         slot: nat, blockTime: Option<int>, c: W.Charge)
    requires reference != nonce && reference != authority
    requires c.dev.address == K.Show(nonce) && c.dev.authority == K.Show(authority) && c.reference == K.Show(reference)
    ensures var m := L.Built(nonce, authority, Some(reference), memo, blockhash);
            W.AuthoritySigned(Some(L.Shown(m, slot, blockTime)), c)
            == Ok(Some(R.Message(Some(L.ShownKeys(m)), Some(L.ShownParsed(m)))))
  {
    var m := L.Built(nonce, authority, Some(reference), memo, blockhash);
    L.ShownFlags(nonce, authority, Some(reference), memo, blockhash, nonce);
    L.ShownFlags(nonce, authority, Some(reference), memo, blockhash, authority);
    L.ShownFlags(nonce, authority, Some(reference), memo, blockhash, reference);
    AllFull(m);
    hide L.Built, L.ShownKeys, L.ShownInstruction, L.ShownParsed, K.Show, L.KeySet, Chain.ValidKey, Chain.AccountFlags,
      Chain.Names, Chain.SignedBy, W.AuthoritySigned;
    EnvelopeOf(m, slot, blockTime, c);
  }

  lemma EnvelopeOf(m: M.Message, slot: nat, blockTime: Option<int>, c: W.Charge)
    requires forall i :: 0 <= i < |L.ShownKeys(m)| ==> L.ShownKeys(m)[i].Full?
    requires Chain.Names(L.ShownKeys(m), c.dev.address) && Chain.SignedBy(L.ShownKeys(m), c.dev.authority)
    requires Chain.Matching(L.ShownKeys(m), c.reference) == [R.Full(Some(c.reference), Some(false), Some(false))]
    ensures W.AuthoritySigned(Some(L.Shown(m, slot, blockTime)), c)
            == Ok(Some(R.Message(Some(L.ShownKeys(m)), Some(L.ShownParsed(m)))))
  {
    hide L.ShownKeys, L.ShownParsed;
    var keys := L.ShownKeys(m);
    NamingIsMatching(keys, c.reference);
    var i :| 0 <= i < |keys| && Chain.PubkeyOf(keys[i]) == Some(c.dev.authority) && keys[i].Signer() == Some(true);
    assert P.SignerAt(keys, i) && P.KeyName(keys[i]) == Some(c.dev.authority);
    var j :| 0 <= j < |keys| && Chain.PubkeyOf(keys[j]) == Some(c.dev.address);
    assert P.KeyName(keys[j]) == Some(c.dev.address);
  }

  lemma AllFull(m: M.Message)
    ensures forall i :: 0 <= i < |L.ShownKeys(m)| ==> L.ShownKeys(m)[i].Full?
  {
  }

  lemma WriteAccepted(nonce: M.Key, authority: M.Key, reference: M.Key, memo: Text, blockhash: M.Key, dev: Chain.Device)
    requires dev.address == K.Show(nonce) && dev.authority == K.Show(authority)
    ensures var m := L.Built(nonce, authority, Some(reference), memo, blockhash);
            W.IsDeviceWrite(R.Message(Some(L.ShownKeys(m)), Some(L.ShownParsed(m))), dev, memo)
  {
    L.ShownInstructions(nonce, authority, Some(reference), memo, blockhash, dev.id);
    hide L.Built, L.ShownKeys, L.ShownInstruction, K.Show;
  }

  /** The members of a printed fulfillment, as the verifier reads them. */
  lemma RecordIsMarker(args: Attest.Args, cfg: Attest.Config, run: L.Run, now: nat, parse: Parser, print_: Attest.Printer, c: W.Charge)
    requires Attest.BodyOf(args, cfg) == Ok(run.body) && L.KindOf(args).Fulfillment?
    requires run.state.seq_ <= U64_MAX && now <= U64_MAX
    requires L.Faithful(parse, print_, Attest.Record(cfg.deviceId, run.state, now, run.body.fields))
    requires c.dev.id == cfg.deviceId && args.reference == Some(c.reference) && args.item == Some(c.item)
    ensures parse(L.MemoOf(cfg, run, now, print_)).Some?
    ensures W.IsMarker(parse(L.MemoOf(cfg, run, now, print_)).value, c)
    ensures GetStr(parse(L.MemoOf(cfg, run, now, print_)).value, "payment_sig") == args.paymentSig
  {
    var j := parse(L.MemoOf(cfg, run, now, print_)).value;
    L.BodyKeys(args, cfg);
    L.KindKeysNew(args);
    L.RecordFields(cfg.deviceId, run.state, now, run.body.fields, j);
    assert Attest.FulfillmentBody(args) == Ok(run.body);
    L.FulfillmentCarried(args, j);
    MarkerFields(args, cfg, run, now, j, c);
  }

  lemma MarkerFields(args: Attest.Args, cfg: Attest.Config, run: L.Run, now: nat, j: Json, c: W.Charge)
    requires Attest.FulfillmentBody(args) == Ok(run.body) && L.Carries(j, run.body.fields)
    requires run.state.seq_ <= U64_MAX && now <= U64_MAX
    requires j.fields.Keys == Chain.BASE_KEYS + run.body.fields.Keys
    requires Get(j, "v") == Some(UInt(1)) && Get(j, "dev") == Some(Str(cfg.deviceId))
    requires Get(j, "seq") == Some(UInt(run.state.seq_)) && Get(j, "ts") == Some(UInt(now))
    requires Get(j, "prev") == Some(Attest.PrevJson(run.state.prev))
    requires c.dev.id == cfg.deviceId && args.reference == Some(c.reference) && args.item == Some(c.item)
    ensures W.IsMarker(j, c) && GetStr(j, "payment_sig") == args.paymentSig
  {
    hide Chain.IsSignature, Base58.DecodePubkey;
    var body := run.body.fields;
    assert body["tag"] == Str(Chain.FULFILLMENT_TAG) && body["ref"] == Str(args.reference.value);
    assert body["item"] == Str(args.item.value) && body["payment_sig"] == Str(args.paymentSig.value);
    assert body.Keys == {"tag", "ref", "item", "payment_sig"};
    assert Chain.BASE_KEYS + body.Keys == W.MARKER_KEYS;
  }

  /** The charge and device that a fulfillment of this program is about. */
  predicate About(c: W.Charge, args: Attest.Args, cfg: Attest.Config) {
    && L.KindOf(args).Fulfillment? && c.dev == Attest.DeviceOf(cfg)
    && args.reference == Some(c.reference) && args.item == Some(c.item)
  }

  /** `marker_is_authentic` accepts every landed fulfillment of its own charge. */
  lemma MarkerAccepted(args: Attest.Args, cfg: Attest.Config, node: Attest.Node, now: nat, parse: Parser, print_: Attest.Printer,
                       run: L.Run, slot: nat, blockTime: Option<int>, c: W.Charge)
    requires L.Emitted(args, cfg, node, now, parse, print_, run) && run.state.seq_ <= U64_MAX && About(c, args, cfg)
    ensures var memo := L.MemoOf(cfg, run, now, print_);
            var m := L.Built(run.nonce, run.authority, run.body.reference, memo, run.snap.blockhash);
            W.MarkerIsAuthentic(Some(L.Shown(m, slot, blockTime)), c, memo, parse) == Ok(true)
    ensures parse(L.MemoOf(cfg, run, now, print_)).Some?
    ensures GetStr(parse(L.MemoOf(cfg, run, now, print_)).value, "payment_sig") == args.paymentSig
  {
    hide L.Built, L.Shown, L.MemoOf, L.Faithful, Attest.Record, W.IsMarker, W.AuthoritySigned, W.IsDeviceWrite, K.Show,
      Attest.AttestSpec, Chain.ReferenceCollides, Base58.DecodePubkey, L.ShownKeys, L.ShownParsed;
    var memo := L.MemoOf(cfg, run, now, print_);
    RecordIsMarker(args, cfg, run, now, parse, print_, c);
    var reference := ReferenceOf(args, cfg, run, c);
    WriteAccepted(run.nonce, run.authority, reference, memo, run.snap.blockhash, c.dev);
    EnvelopeAccepted(run.nonce, run.authority, reference, memo, run.snap.blockhash, slot, blockTime, c);
  }

  /** The attached reference is the charge's, and none of the keys the transaction uses anyway. */
  lemma ReferenceOf(args: Attest.Args, cfg: Attest.Config, run: L.Run, c: W.Charge) returns (reference: M.Key)
    requires Attest.BodyOf(args, cfg) == Ok(run.body) && Attest.Infrastructure(cfg, run.body) == Ok((run.nonce, run.authority))
    requires About(c, args, cfg)
    ensures run.body.reference == Some(reference) && K.Show(reference) == c.reference
    ensures reference != run.nonce && reference != run.authority
    ensures K.Show(run.nonce) == c.dev.address && K.Show(run.authority) == c.dev.authority
  {
    hide K.Show, Base58.DecodePubkey, Chain.IsSignature;
    assert Attest.FulfillmentBody(args) == Ok(run.body);
    K.DecodeShows(c.reference);
    K.DecodeShows(cfg.nonceAccount);
    K.DecodeShows(cfg.nonceAuthority);
    reference := run.body.reference.value;
  }

  lemma PayloadOfQuote(e: R.Entry, memo: string)
    requires L.Quotes(e.memo, memo) && e.memo.Text? && memo != "" && memo[0] == '{'
    ensures W.MemoPayload(e) == Some(memo)
  {
    if e.memo.text != memo {
      var n: string :| L.AllDigits(n) && e.memo.text == "[" + n + "] " + memo;
      AfterDigits(n, memo);
      assert e.memo.text[1..] == n + "] " + memo;
    }
  }

  lemma {:induction false} AfterDigits(n: string, memo: string)
    requires L.AllDigits(n)
    ensures W.AfterBracket(n + "] " + memo) == Some(memo)
  {
    var t := n + "] " + memo;
    if n == "" {
      assert t[2..] == memo;
    } else {
      AfterDigits(n[1..], memo);
      assert t[1..] == n[1..] + "] " + memo;
    }
  }

  /** Entry `e` lists the landed fulfillment, quoting its memo, in a slot not before the payment it names. */
  ghost predicate ListsDelivery(e: R.Entry, cfg: Attest.Config, run: L.Run, now: nat, print_: Attest.Printer) {
    && e.memo.Text? && L.Quotes(e.memo, L.MemoOf(cfg, run, now, print_))
    && exists slot: nat, blockTime: Option<int> ::
         e.answer == Ok(Some(L.Shown(L.Built(run.nonce, run.authority, run.body.reference,
                                             L.MemoOf(cfg, run, now, print_), run.snap.blockhash), slot, blockTime)))
  }

  /** The payment that the fulfillment names, as the node now reports it, no later than slot `s`. */
  predicate StillPaid(c: W.Charge, sig: string, w: W.World, s: nat) {
    && w.fetch(sig).Ok? && w.fetch(sig).value.Some?
    && var tx := w.fetch(sig).value;
    && W.InTime(tx.value.blockTime, w.now)
    && var v := P.InspectSpec(tx, W.ClaimFor(c, sig, tx.value.blockTime.value), w.cfg, w.parse);
    && v.Ok? && v.value.Paid? && v.value.payment.slot <= s
  }

  /** A landed fulfillment of this charge fulfills it. */
  lemma DeliveryFulfills(args: Attest.Args, cfg: Attest.Config, node: Attest.Node, now: nat, print_: Attest.Printer,
                         run: L.Run, e: R.Entry, c: W.Charge, w: W.World)
    requires L.Emitted(args, cfg, node, now, w.parse, print_, run) && run.state.seq_ <= U64_MAX && About(c, args, cfg)
    requires ListsDelivery(e, cfg, run, now, print_) && e.slot.Some?
    requires args.paymentSig.Some? && StillPaid(c, args.paymentSig.value, w, e.slot.value)
    ensures W.Fulfills(e, c, w) && !W.IsClaim(e, c, w.parse)
  {
    hide L.Built, L.Shown, L.MemoOf, P.InspectSpec, W.MarkerIsAuthentic, Attest.AttestSpec, Attest.Record, L.Quotes,
      W.MemoPayload, Attest.BodyOf, Attest.Infrastructure;
    var memo := L.MemoOf(cfg, run, now, print_);
    var slot: nat, blockTime: Option<int> :| e.answer ==
      Ok(Some(L.Shown(L.Built(run.nonce, run.authority, run.body.reference, memo, run.snap.blockhash), slot, blockTime)));
    MarkerAccepted(args, cfg, node, now, w.parse, print_, run, slot, blockTime, c);
    Braced(args, cfg, node, now, w.parse, print_, run);
    PayloadOfQuote(e, memo);
    var tx := w.fetch(args.paymentSig.value).value;
    var p := P.InspectSpec(tx, W.ClaimFor(c, args.paymentSig.value, tx.value.blockTime.value), w.cfg, w.parse).value.payment;
    assert W.NamesPayment(e, c, w, p);
    ClaimHasNoSignature(c.reference, c.item);
  }

  lemma Braced(args: Attest.Args, cfg: Attest.Config, node: Attest.Node, now: nat, parse: Parser, print_: Attest.Printer, run: L.Run)
    requires L.Emitted(args, cfg, node, now, parse, print_, run)
    ensures L.MemoOf(cfg, run, now, print_) != "" && L.MemoOf(cfg, run, now, print_)[0] == '{'
  {
    hide Attest.AttestSpec, Attest.Record, Attest.BodyOf, Attest.Infrastructure, L.SameButFloats;
  }

  lemma ClaimHasNoSignature(reference: string, item: string)
    ensures GetStr(P.PaymentMemo(reference, item), "payment_sig") == None
  {
  }

  /**
   * Once the delivery of a charge has landed, and as long as only foreign transactions come above it
   * in the ten that are listed, every later verification answers `AlreadyFulfilled`, payment or no payment.
   */
  lemma DeliveredStaysFulfilled(args: Attest.Args, cfg: Attest.Config, node: Attest.Node, now: nat, print_: Attest.Printer,
                                run: L.Run, wargs: W.Args, es: seq<R.Entry>, k: nat, w: W.World)
    requires L.Emitted(args, cfg, node, now, w.parse, print_, run) && run.state.seq_ <= U64_MAX
    requires W.Listed(wargs, Ok(es), w) && k < |es|
    requires About(W.Prepare(wargs, w.cfg).value, args, cfg)
    requires ListsDelivery(es[k], cfg, run, now, print_) && es[k].slot.Some?
    requires args.paymentSig.Some? && StillPaid(W.Prepare(wargs, w.cfg).value, args.paymentSig.value, w, es[k].slot.value)
    requires W.AllForeign(es, k, W.Prepare(wargs, w.cfg).value, w)
    ensures W.VerifySpec(wargs, Ok(es), w) == Ok(P.AlreadyFulfilled)
  {
    hide L.Emitted, ListsDelivery, StillPaid, About, W.Prepare, W.VerifySpec, W.AllForeign, W.Fulfills, W.IsClaim;
    var c := W.Prepare(wargs, w.cfg).value;
    DeliveryFulfills(args, cfg, node, now, print_, run, es[k], c, w);
    assert W.FulfilledAt(es, k, c, w);
    W.FulfilledIff(wargs, Ok(es), w);
  }
}
