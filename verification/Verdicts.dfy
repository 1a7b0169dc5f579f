/** plugins/kiosk-watch/src/watch.rs: what every answer of the payment check means, written out member by member. */
module Verdicts {
  // Watch.dfy computes the answer in two passes. Here the things it looks for in a listing are described on the
  // members of the node's answers, and every verdict and every error gets its exact condition.

  import opened Wrappers
  import opened Json
  import opened Spelling
  import A = Amount
  import Balances
  import Base58
  import Chain
  import P = Payment
  import R = Rpc
  import Receipt
  import Sighting
  import W = Watch

  // ---- The question ------------------------------------------------------------------------

  /** The arguments name a real reference and a priced item. */
  predicate Asks(args: W.Args, cfg: P.Config) {
    && args.reference.Some? && Base58.DecodeSpec(args.reference.value).Some? && |Base58.DecodeSpec(args.reference.value).value| == 32
    && args.item.Some? && args.item.value in cfg.prices
  }

  /** The configuration can gate an actuation. */
  predicate Armed(cfg: P.Config) {
    cfg.finality == "finalized" && cfg.authority.Some? && cfg.address.Some? && cfg.id.Some?
  }

  lemma PrepareIff(args: W.Args, cfg: P.Config)
    ensures W.Prepare(args, cfg) ==
            if !Asks(args, cfg) then Err(P.ArgsError)
            else if !Armed(cfg) then Err(P.ConfigError)
            else Ok(W.Charge(args.reference.value, args.item.value, cfg.prices[args.item.value],
                             Chain.Device(cfg.address.value, cfg.authority.value, cfg.id.value)))
  {
  }

  // ---- Listed entries ----------------------------------------------------------------------

  /** The listed memo without the byte count that the node puts before it. */
  ghost predicate Quotes(e: R.Entry, text: string) {
    && e.memo.Text?
    && var t := e.memo.text;
       if t == "" || t[0] != '[' then text == t
       else exists i :: 1 <= i <= |t| - 2 && EndsCount(t, i) && text == t[i + 2..] && forall k :: 1 <= k < i ==> !EndsCount(t, k)
  }

  predicate EndsCount(t: string, i: nat)
    requires i + 2 <= |t|
  {
    t[i] == ']' && t[i + 1] == ' '
  }

  /** The entry claims to pay for this reference and item. */
  ghost predicate Claims(e: R.Entry, c: W.Charge, parse: Parser) {
    exists text :: Quotes(e, text) &&
      parse(text) == Some(Obj(map["v" := UInt(1), "tag" := Str("PKPAY1"), "ref" := Str(c.reference), "item" := Str(c.item)]))
  }

  /** It succeeded and lists its accounts. */
  predicate Listed(tx: R.Transaction) {
    tx.meta.Some? && tx.meta.value.err.Success? && tx.message.Some? && tx.message.value.accountKeys.Some?
  }

  function Accounts(tx: R.Transaction): seq<R.AccountKey>
    requires Listed(tx)
  {
    tx.message.value.accountKeys.value
  }

  /** It failed, or the authority did not sign it. */
  ghost predicate Foreign(e: R.Entry, c: W.Charge) {
    && e.answer.Ok? && e.answer.value.Some? && e.answer.value.value.meta.Some?
    && var tx := e.answer.value.value;
       tx.meta.value.err.Failure? || (Listed(tx) && !Receipt.Signed(Accounts(tx), c.dev.authority))
  }

  /** The authority signed it, with the device's account and the charge's reference, once and only looked at. */
  ghost predicate Ours(tx: R.Transaction, c: W.Charge) {
    && Listed(tx) && Receipt.Signed(Accounts(tx), c.dev.authority)
    && (exists i :: 0 <= i < |Accounts(tx)| && Receipt.Is(Accounts(tx)[i], c.dev.address))
    && Receipt.Attached(Accounts(tx), c.reference)
  }

  /** It advances the device's nonce and writes this memo. */
  ghost predicate Writes(tx: R.Transaction, c: W.Charge, memo: string) {
    && Ours(tx, c) && tx.message.value.instructions.Some?
    && var ixs := tx.message.value.instructions.value;
    && |ixs| == 2
    && (exists info :: Sighting.SystemCall(ixs[0], "advanceNonce", info)
                       && Has(info, "nonceAccount", Str(c.dev.address)) && Has(info, "nonceAuthority", Str(c.dev.authority)))
    && ixs[1] == R.Instruction(Some("spl-memo"), Some(MEMO), Str(memo))
  }

  /** The record of the delivery of this charge for this payment. */
  ghost predicate Delivers(j: Json, c: W.Charge, signature: string) {
    && j.Obj? && j.fields.Keys == {"v", "dev", "seq", "ts", "tag", "ref", "prev", "item", "payment_sig"}
    && Has(j, "v", UInt(1)) && Has(j, "dev", Str(c.dev.id)) && Has(j, "tag", Str("PKFUL1"))
    && Has(j, "ref", Str(c.reference)) && Has(j, "item", Str(c.item))
    && Has(j, "payment_sig", Str(signature)) && Bytes(signature, 64)
    && (j.fields["prev"].Null? || j.fields["prev"].Str?)
    && j.fields["seq"].UInt? && j.fields["seq"].n <= U64_MAX && j.fields["ts"].UInt? && j.fields["ts"].n <= U64_MAX
  }

  /** An authentic marker of this charge, which the listing quotes and which names this payment. */
  ghost predicate Marks(e: R.Entry, c: W.Charge, parse: Parser, signature: string) {
    && e.answer.Ok? && e.answer.value.Some?
    && exists memo :: Quotes(e, memo) && Writes(e.answer.value.value, c, memo)
                      && parse(memo).Some? && Delivers(parse(memo).value, c, signature)
  }

  /** A block time that is known and at most 30 s ahead. */
  predicate Timely(blockTime: Option<int>, now: nat) {
    blockTime.Some? && 0 <= blockTime.value <= now + 30 && blockTime.value <= U64_MAX
  }

  function Question(c: W.Charge, signature: string, blockTimeS: nat): P.Claim {
    P.Claim(c.reference, c.item, c.amount, signature, blockTimeS)
  }

  /** The named payment is on chain, in time. */
  predicate Fetched(w: W.World, signature: string) {
    && w.fetch(signature).Ok? && w.fetch(signature).value.Some? && Timely(w.fetch(signature).value.value.blockTime, w.now)
  }

  function Asked(c: W.Charge, w: W.World, signature: string): Result<P.Verdict, P.WatchError>
    requires Fetched(w, signature)
  {
    var tx := w.fetch(signature).value;
    P.InspectSpec(tx, Question(c, signature, tx.value.blockTime.value), w.cfg, w.parse)
  }

  /** Delivered: an authentic marker whose payment verifies and is not younger than the marker. */
  ghost predicate Delivered(e: R.Entry, c: W.Charge, w: W.World) {
    exists signature ::
      && Marks(e, c, w.parse, signature) && Fetched(w, signature)
      && Asked(c, w, signature).Ok? && Asked(c, w, signature).value.Paid?
      && e.slot.Some? && Asked(c, w, signature).value.payment.slot <= e.slot.value
  }

  // ---- The pieces agree --------------------------------------------------------------------

  lemma {:induction false} BracketIff(s: string, t: string, n: nat, text: string)
    requires n <= |t| && s == t[n..]
    ensures W.AfterBracket(s) == Some(text) <==>
            exists i :: n <= i <= |t| - 2 && EndsCount(t, i) && text == t[i + 2..] && forall k :: n <= k < i ==> !EndsCount(t, k)
    decreases |s|
  {
    if |s| >= 2 {
      assert s[0] == t[n] && s[1] == t[n + 1];
      assert s[2..] == t[n + 2..] && s[1..] == t[n + 1..];
      if EndsCount(t, n) {
        if i :| n <= i <= |t| - 2 && EndsCount(t, i) && text == t[i + 2..] && forall k :: n <= k < i ==> !EndsCount(t, k) {
          assert i == n;
        }
      } else {
        BracketIff(s[1..], t, n + 1, text);
      }
    }
  }

  lemma QuotesIff(e: R.Entry, text: string)
    ensures W.MemoPayload(e) == Some(text) <==> Quotes(e, text)
  {
    if e.memo.Text? && e.memo.text != "" {
      BracketIff(e.memo.text[1..], e.memo.text, 1, text);
    }
  }

  lemma ClaimsIff(e: R.Entry, c: W.Charge, parse: Parser)
    ensures W.IsClaim(e, c, parse) <==> Claims(e, c, parse)
  {
    SpelledMemo();
    hide W.MemoPayload, Quotes;
    if W.MemoPayload(e).Some? {
      QuotesIff(e, W.MemoPayload(e).value);
    }
    if Claims(e, c, parse) {
      var text :| Quotes(e, text) && parse(text) ==
        Some(Obj(map["v" := UInt(1), "tag" := Str("PKPAY1"), "ref" := Str(c.reference), "item" := Str(c.item)]));
      QuotesIff(e, text);
    }
  }

  lemma ListsIff(keys: seq<R.AccountKey>, name: string)
    ensures W.Lists(keys, name) <==> exists i :: 0 <= i < |keys| && Receipt.Is(keys[i], name)
  {
    assert forall i :: 0 <= i < |keys| ==> (P.KeyName(keys[i]) == Some(name) <==> Receipt.Is(keys[i], name));
  }

  lemma EnvelopeIff(tx: Option<R.Transaction>, c: W.Charge)
    ensures var r := W.AuthoritySigned(tx, c);
            && (r == Ok(None) <==> && tx.Some? && tx.value.meta.Some?
                                   && (tx.value.meta.value.err.Failure?
                                       || (Listed(tx.value) && !Receipt.Signed(Accounts(tx.value), c.dev.authority))))
            && (r.Ok? && r.value.Some? <==> tx.Some? && Ours(tx.value, c))
            && (r.Ok? && r.value.Some? ==> r.value == tx.value.message)
            && (r.Err? ==> r == Err(P.DecodeFailure))
  {
    if tx.Some? && Listed(tx.value) {
      Receipt.SignsIff(Accounts(tx.value), c.dev.authority);
      Receipt.AttachedIff(Accounts(tx.value), c.reference);
      ListsIff(Accounts(tx.value), c.dev.address);
    }
    hide P.Signs, P.AttachedOnce, W.Lists, Receipt.Signed, Receipt.Attached;
  }

  lemma ForeignIff(e: R.Entry, c: W.Charge)
    ensures W.Foreign(e, c) <==> Foreign(e, c)
  {
    if e.answer.Ok? {
      EnvelopeIff(e.answer.value, c);
    }
    hide W.AuthoritySigned, Receipt.Signed;
  }

  lemma WritesIff(tx: Option<R.Transaction>, c: W.Charge, memo: string)
    ensures W.DeviceWrite(tx, c, memo) == Ok(true) <==> tx.Some? && Writes(tx.value, c, memo)
    ensures W.DeviceWrite(tx, c, memo) == Ok(false) <==> W.AuthoritySigned(tx, c) == Ok(None)
    ensures W.DeviceWrite(tx, c, memo).Err? ==> W.DeviceWrite(tx, c, memo) == Err(P.DecodeFailure)
  {
    EnvelopeIff(tx, c);
    SpelledMemo();
    hide W.AuthoritySigned, Ours;
    if tx.Some? && tx.value.message.Some? && tx.value.message.value.instructions.Some? && |tx.value.message.value.instructions.value| == 2 {
      AdvancesIff(tx.value.message.value.instructions.value[0], c);
    }
    hide W.IsAdvanceNonce;
  }

  lemma AdvancesIff(ix: R.Instruction, c: W.Charge)
    ensures W.IsAdvanceNonce(ix, c.dev) <==>
            exists info :: Sighting.SystemCall(ix, "advanceNonce", info)
                           && Has(info, "nonceAccount", Str(c.dev.address)) && Has(info, "nonceAuthority", Str(c.dev.authority))
  {
    var info := Chain.SystemInfo(ix, "advanceNonce");
    if info.Some? {
      Sighting.InfoIff(ix, "advanceNonce", info.value);
    }
    if info' :| Sighting.SystemCall(ix, "advanceNonce", info')
                && Has(info', "nonceAccount", Str(c.dev.address)) && Has(info', "nonceAuthority", Str(c.dev.authority)) {
      Sighting.InfoIff(ix, "advanceNonce", info');
    }
  }

  lemma DeliversIff(j: Json, c: W.Charge)
    ensures W.IsMarker(j, c) <==> exists signature :: Delivers(j, c, signature)
    ensures forall signature :: Delivers(j, c, signature) ==> GetStr(j, "payment_sig") == Some(signature)
  {
    hide Chain.IsSignature, Bytes, Base58.IsPubkey, Base58.DecodePubkey, Base58.DecodeSpec;
    Spelled();
    var signature := GetStr(j, "payment_sig");
    if signature.Some? {
      BytesIff(signature.value);
      if W.IsMarker(j, c) {
        assert Delivers(j, c, signature.value);
      }
    }
  }

  // ---- One entry that is no claim ----------------------------------------------------------

  /** An authentic marker names one payment. */
  lemma MarksOne(e: R.Entry, c: W.Charge, parse: Parser, s: string, t: string)
    requires Marks(e, c, parse, s) && Marks(e, c, parse, t)
    ensures s == t
  {
    hide Writes, Quotes, Delivers;
    var m :| Quotes(e, m) && Writes(e.answer.value.value, c, m) && parse(m).Some? && Delivers(parse(m).value, c, s);
    var n :| Quotes(e, n) && Writes(e.answer.value.value, c, n) && parse(n).Some? && Delivers(parse(n).value, c, t);
    QuotesIff(e, m);
    QuotesIff(e, n);
    DeliversIff(parse(m).value, c);
  }

  /** The authority's own write, and the memo that the listing quotes. */
  lemma MarksIff(e: R.Entry, c: W.Charge, parse: Parser)
    requires e.answer.Ok? && W.AuthoritySigned(e.answer.value, c).Ok? && W.AuthoritySigned(e.answer.value, c).value.Some?
    ensures (exists s :: Marks(e, c, parse, s)) <==>
            W.MemoPayload(e).Some? && W.MarkerIsAuthentic(e.answer.value, c, W.MemoPayload(e).value, parse) == Ok(true)
    ensures (exists s :: Marks(e, c, parse, s)) ==>
              W.MemoJson(e, parse).Some? && GetStr(W.MemoJson(e, parse).value, "payment_sig").Some?
              && Marks(e, c, parse, GetStr(W.MemoJson(e, parse).value, "payment_sig").value)
    ensures W.MemoPayload(e).Some? && W.MarkerIsAuthentic(e.answer.value, c, W.MemoPayload(e).value, parse) != Ok(true) ==>
              W.MarkerIsAuthentic(e.answer.value, c, W.MemoPayload(e).value, parse) == Err(P.DecodeFailure)
  {
    EnvelopeIff(e.answer.value, c);
    hide W.AuthoritySigned, Ours, Writes, Quotes, Delivers, W.IsMarker, W.DeviceWrite, W.MemoPayload;
    if W.MemoPayload(e).Some? {
      var memo := W.MemoPayload(e).value;
      QuotesIff(e, memo);
      WritesIff(e.answer.value, c, memo);
      if parse(memo).Some? {
        DeliversIff(parse(memo).value, c);
        if s :| Delivers(parse(memo).value, c, s) {
          assert Writes(e.answer.value.value, c, memo) ==> Marks(e, c, parse, s);
        }
      }
    }
    if s :| Marks(e, c, parse, s) {
      var m :| Quotes(e, m) && Writes(e.answer.value.value, c, m) && parse(m).Some? && Delivers(parse(m).value, c, s);
      QuotesIff(e, m);
    }
  }

  /** Without the authority's signature there is no marker. */
  lemma NoMark(e: R.Entry, c: W.Charge, parse: Parser)
    requires !(e.answer.Ok? && W.AuthoritySigned(e.answer.value, c).Ok? && W.AuthoritySigned(e.answer.value, c).value.Some?)
    ensures forall s :: !Marks(e, c, parse, s)
  {
    if e.answer.Ok? {
      EnvelopeIff(e.answer.value, c);
    }
    hide W.AuthoritySigned, Ours, Quotes, Delivers;
  }

  /** An inspection ends in a verdict or one of two errors. */
  lemma InspectErrors(tx: Option<R.Transaction>, q: P.Claim, cfg: P.Config, parse: Parser)
    ensures var r := P.InspectSpec(tx, q, cfg, parse);
            && (r.Err? ==> r == Err(P.DecodeFailure) || r == Err(P.ConfigError))
            && (r.Ok? ==> r.value.Paid? || r.value.Mismatch?)
  {
    hide P.AttachedOnce, P.TransferSpec, Balances.BalancesSpec, P.KeysNamed, A.AmountToBaseUnits;
  }

  lemma TimelyIff(blockTime: Option<int>, now: nat)
    ensures W.InTime(blockTime, now) <==> Timely(blockTime, now)
  {
  }

  /** What a marker that names this payment amounts to. */
  lemma NamedIs(e: R.Entry, c: W.Charge, w: W.World, s: string)
    requires W.MemoJson(e, w.parse).Some? && GetStr(W.MemoJson(e, w.parse).value, "payment_sig") == Some(s)
    ensures var r := W.NamedPayment(e, c, w);
            && (r == Ok(true) <==> && Fetched(w, s) && Asked(c, w, s).Ok? && Asked(c, w, s).value.Paid?
                                   && e.slot.Some? && Asked(c, w, s).value.payment.slot <= e.slot.value)
            && (r == Err(P.RpcFailure) <==> w.fetch(s) == Err(R.Transport))
            && (r == Err(P.ConfigError) <==> Fetched(w, s) && Asked(c, w, s) == Err(P.ConfigError))
            && r != Ok(false) && r != Err(P.ArgsError)
  {
    hide W.MemoJson, P.InspectSpec;
    if w.fetch(s).Ok? && w.fetch(s).value.Some? {
      var tx := w.fetch(s).value;
      TimelyIff(tx.value.blockTime, w.now);
      if Timely(tx.value.blockTime, w.now) {
        InspectErrors(tx, Question(c, s, tx.value.blockTime.value), w.cfg, w.parse);
      }
    }
  }

  /**
   * A listed entry that is no claim is foreign, or a delivery, or out of reach, or fails on its price, exactly as
   * described; anything else of the authority's cannot be decoded.
   */
  lemma MarkerStepIff(e: R.Entry, c: W.Charge, w: W.World)
    ensures var r := W.MarkerStep(e, c, w);
            && (r == Ok(false) <==> Foreign(e, c))
            && (r == Ok(true) <==> Delivered(e, c, w))
            && (r == Err(P.RpcFailure) <==>
                e.answer == Err(R.Transport) || exists s :: Marks(e, c, w.parse, s) && w.fetch(s) == Err(R.Transport))
            && (r == Err(P.ConfigError) <==>
                exists s :: Marks(e, c, w.parse, s) && Fetched(w, s) && Asked(c, w, s) == Err(P.ConfigError))
            && r != Err(P.ArgsError)
  {
    ForeignIff(e, c);
    if e.answer.Ok? && W.AuthoritySigned(e.answer.value, c).Ok? && W.AuthoritySigned(e.answer.value, c).value.Some? {
      MarksIff(e, c, w.parse);
      hide W.AuthoritySigned, W.MarkerIsAuthentic, Marks, Foreign, Fetched, W.NamedPayment, W.MemoPayload;
      if s :| Marks(e, c, w.parse, s) {
        var t := GetStr(W.MemoJson(e, w.parse).value, "payment_sig").value;
        NamedIs(e, c, w, t);
        forall u | Marks(e, c, w.parse, u) ensures u == t {
          MarksOne(e, c, w.parse, u, t);
        }
      }
    } else {
      NoMark(e, c, w.parse);
      if e.answer.Ok? {
        EnvelopeIff(e.answer.value, c);
      }
      hide W.AuthoritySigned, Marks, Foreign, Ours, Receipt.Signed;
    }
  }

  // ---- One claim ---------------------------------------------------------------------------

  /** A claim of somebody else's, in time, and the verdict on its transaction. */
  ghost predicate Judged(e: R.Entry, c: W.Charge, w: W.World, verdict: Result<P.Verdict, P.WatchError>) {
    && Foreign(e, c) && e.signature.Some? && Timely(e.blockTime, w.now)
    && P.InspectSpec(e.answer.value, Question(c, e.signature.value, e.blockTime.value), w.cfg, w.parse) == verdict
  }

  /** A claim that is passed over: nobody can say when it landed, or it pays something else. */
  ghost predicate Passed(e: R.Entry, c: W.Charge, w: W.World) {
    Foreign(e, c) && e.signature.Some? && (Timely(e.blockTime, w.now) ==> Judged(e, c, w, Ok(P.Mismatch)))
  }

  lemma ClaimStepIff(e: R.Entry, c: W.Charge, w: W.World)
    requires e.signature.Some? && W.IsClaim(e, c, w.parse)
    ensures var r := W.PaymentStep(e, c, w);
            && (forall p :: r == Ok(W.Wins(p)) <==> Judged(e, c, w, Ok(P.Paid(p))))
            && (r == Ok(W.Refused) || r == Ok(W.Unbounded) <==> Passed(e, c, w))
            && (r == Err(P.RpcFailure) <==> e.answer == Err(R.Transport))
            && (r == Err(P.ConfigError) <==> Judged(e, c, w, Err(P.ConfigError)))
            && r != Err(P.ArgsError)
    ensures W.Passed(e, c, w) <==> Passed(e, c, w)
    ensures forall p :: W.Pays(e, c, w, p) <==> Judged(e, c, w, Ok(P.Paid(p)))
  {
    ForeignIff(e, c);
    TimelyIff(e.blockTime, w.now);
    if e.answer.Ok? {
      WritesIff(e.answer.value, c, if W.MemoPayload(e).Some? then W.MemoPayload(e).value else "");
      if Timely(e.blockTime, w.now) {
        InspectErrors(e.answer.value, Question(c, e.signature.value, e.blockTime.value), w.cfg, w.parse);
      }
    }
    hide W.AuthoritySigned, W.DeviceWrite, P.InspectSpec, W.MemoPayload, Writes, Receipt.Signed;
  }

  // ---- The two passes ----------------------------------------------------------------------

  /** Entry `k` is the first selected one that is not passed, and it is a hit. */
  ghost predicate FirstHit(es: seq<R.Entry>, selected: R.Entry -> bool, passed: R.Entry -> bool, hit: R.Entry -> bool, k: nat) {
    k < |es| && selected(es[k]) && hit(es[k]) && forall i :: 0 <= i < k && selected(es[i]) ==> passed(es[i])
  }

  lemma FirstHitCons(es: seq<R.Entry>, selected: R.Entry -> bool, passed: R.Entry -> bool, hit: R.Entry -> bool)
    requires es != []
    ensures (exists k: nat :: FirstHit(es, selected, passed, hit, k)) <==>
            || (selected(es[0]) && hit(es[0]))
            || ((selected(es[0]) ==> passed(es[0])) && exists k: nat :: FirstHit(es[1..], selected, passed, hit, k))
  {
    var rest := es[1..];
    if k: nat :| FirstHit(es, selected, passed, hit, k) && k > 0 {
      assert forall i :: 0 <= i < k - 1 ==> rest[i] == es[i + 1];
      assert FirstHit(rest, selected, passed, hit, k - 1);
    }
    if selected(es[0]) && hit(es[0]) {
      assert FirstHit(es, selected, passed, hit, 0);
    }
    if selected(es[0]) ==> passed(es[0]) {
      if k: nat :| FirstHit(rest, selected, passed, hit, k) {
        forall i | 0 <= i < k + 1 && selected(es[i]) ensures passed(es[i]) {
          assert i > 0 ==> es[i] == rest[i - 1];
        }
        assert FirstHit(es, selected, passed, hit, k + 1);
      }
    }
  }

  function NoClaim(c: W.Charge, w: W.World): R.Entry -> bool {
    (e: R.Entry) => !W.IsClaim(e, c, w.parse)
  }

  function AnyClaim(c: W.Charge, w: W.World): R.Entry -> bool {
    (e: R.Entry) => W.IsClaim(e, c, w.parse)
  }

  function Strange(c: W.Charge): R.Entry -> bool {
    (e: R.Entry) => W.Foreign(e, c)
  }

  function Skipped(c: W.Charge, w: W.World): R.Entry -> bool {
    (e: R.Entry) => W.Passed(e, c, w)
  }

  function MarkerFails(c: W.Charge, w: W.World, x: P.WatchError): R.Entry -> bool {
    (e: R.Entry) => W.MarkerStep(e, c, w) == Err(x)
  }

  function ClaimFails(c: W.Charge, w: W.World, x: P.WatchError): R.Entry -> bool {
    (e: R.Entry) => e.signature.Some? && W.PaymentStep(e, c, w) == Err(x)
  }

  lemma {:induction false} MarkersFail(es: seq<R.Entry>, c: W.Charge, w: W.World, x: P.WatchError)
    ensures W.ScanMarkers(W.Select(es, false, c, w.parse), c, w) == Err(x) <==>
            exists k: nat :: FirstHit(es, NoClaim(c, w), Strange(c), MarkerFails(c, w, x), k)
  {
    hide W.IsClaim, W.Foreign, W.MarkerStep, W.Fulfills;
    if es != [] {
      MarkersFail(es[1..], c, w, x);
      W.MarkerStepIff(es[0], c, w);
      FirstHitCons(es, NoClaim(c, w), Strange(c), MarkerFails(c, w, x));
      W.SelectCons(es, false, c, w.parse);
      if !W.IsClaim(es[0], c, w.parse) {
        assert W.Select(es, false, c, w.parse)[1..] == W.Select(es[1..], false, c, w.parse);
      } else {
        assert W.Select(es, false, c, w.parse) == W.Select(es[1..], false, c, w.parse);
      }
    }
  }

  lemma {:induction false} ClaimsFail(es: seq<R.Entry>, mismatch: bool, unbounded: bool, c: W.Charge, w: W.World, x: P.WatchError)
    requires W.AllSigned(es)
    ensures W.ScanPayments(W.Select(es, true, c, w.parse), mismatch, unbounded, c, w) == Err(x) <==>
            exists k: nat :: FirstHit(es, AnyClaim(c, w), Skipped(c, w), ClaimFails(c, w, x), k)
  {
    hide W.IsClaim, W.Passed, W.PaymentStep;
    if es != [] {
      assert W.AllSigned(es[1..]);
      ClaimsFail(es[1..], mismatch, unbounded, c, w, x);
      ClaimsFail(es[1..], true, unbounded, c, w, x);
      ClaimsFail(es[1..], mismatch, true, c, w, x);
      FirstHitCons(es, AnyClaim(c, w), Skipped(c, w), ClaimFails(c, w, x));
      W.SelectCons(es, true, c, w.parse);
      if W.IsClaim(es[0], c, w.parse) {
        StepPassed(es[0], c, w);
        assert W.Select(es, true, c, w.parse)[1..] == W.Select(es[1..], true, c, w.parse);
      } else {
        assert W.Select(es, true, c, w.parse) == W.Select(es[1..], true, c, w.parse);
      }
    }
  }

  lemma StepPassed(e: R.Entry, c: W.Charge, w: W.World)
    requires e.signature.Some? && W.IsClaim(e, c, w.parse)
    ensures W.Passed(e, c, w) <==> W.PaymentStep(e, c, w) == Ok(W.Refused) || W.PaymentStep(e, c, w) == Ok(W.Unbounded)
  {
    hide W.Passed, W.PaymentStep, Passed, Judged;
    ClaimStepIff(e, c, w);
  }

  /** Of the entries of a listing, none claims anything; or whatever claims is passed over. */
  predicate Unclaimed(es: seq<R.Entry>, c: W.Charge, w: W.World) {
    forall i :: 0 <= i < |es| ==> !W.IsClaim(es[i], c, w.parse)
  }

  predicate AllSkipped(es: seq<R.Entry>, c: W.Charge, w: W.World) {
    forall i :: 0 <= i < |es| && W.IsClaim(es[i], c, w.parse) ==> W.Passed(es[i], c, w)
  }

  lemma RestOf(es: seq<R.Entry>, c: W.Charge, w: W.World)
    requires es != []
    ensures Unclaimed(es, c, w) <==> !W.IsClaim(es[0], c, w.parse) && Unclaimed(es[1..], c, w)
    ensures AllSkipped(es, c, w) <==> (W.IsClaim(es[0], c, w.parse) ==> W.Passed(es[0], c, w)) && AllSkipped(es[1..], c, w)
  {
    hide W.IsClaim, W.Passed;
    var rest := es[1..];
    assert forall i :: 0 <= i < |rest| ==> rest[i] == es[i + 1];
    assert forall i :: 0 < i < |es| ==> es[i] == rest[i - 1];
  }

  lemma {:induction false} ClaimsEnd(es: seq<R.Entry>, mismatch: bool, unbounded: bool, c: W.Charge, w: W.World)
    requires W.AllSigned(es)
    ensures var r := W.ScanPayments(W.Select(es, true, c, w.parse), mismatch, unbounded, c, w);
            && (r == Ok(P.Pending) <==> !mismatch && !unbounded && Unclaimed(es, c, w))
            && (r == Ok(P.Mismatch) <==> (mismatch || unbounded || !Unclaimed(es, c, w)) && AllSkipped(es, c, w))
  {
    hide W.IsClaim, W.Passed, W.PaymentStep;
    if es != [] {
      assert W.AllSigned(es[1..]);
      ClaimsEnd(es[1..], mismatch, unbounded, c, w);
      ClaimsEnd(es[1..], true, unbounded, c, w);
      ClaimsEnd(es[1..], mismatch, true, c, w);
      RestOf(es, c, w);
      W.SelectCons(es, true, c, w.parse);
      hide Unclaimed, AllSkipped;
      if W.IsClaim(es[0], c, w.parse) {
        StepPassed(es[0], c, w);
        assert W.Select(es, true, c, w.parse)[1..] == W.Select(es[1..], true, c, w.parse);
      } else {
        assert W.Select(es, true, c, w.parse) == W.Select(es[1..], true, c, w.parse);
      }
    }
  }

  // ---- Main results ------------------------------------------------------------------------

  /** The question can be answered from this listing. */
  predicate Ready(args: W.Args, cfg: P.Config, listing: Result<seq<R.Entry>, R.RpcError>) {
    && Asks(args, cfg) && Armed(cfg) && listing.Ok? && |listing.value| <= 10
    && forall i :: 0 <= i < |listing.value| ==> listing.value[i].signature.Some?
  }

  function ChargeOf(args: W.Args, cfg: P.Config): W.Charge
    requires Asks(args, cfg) && Armed(cfg)
  {
    W.Charge(args.reference.value, args.item.value, cfg.prices[args.item.value],
             Chain.Device(cfg.address.value, cfg.authority.value, cfg.id.value))
  }

  /** Of the first `k` entries, those that claim nothing are foreign. */
  ghost predicate NoneOurs(es: seq<R.Entry>, k: nat, c: W.Charge, w: W.World)
    requires k <= |es|
  {
    forall i :: 0 <= i < k && !Claims(es[i], c, w.parse) ==> Foreign(es[i], c)
  }

  /** Of the first `k` entries, those that claim the charge are passed over. */
  ghost predicate NonePays(es: seq<R.Entry>, k: nat, c: W.Charge, w: W.World)
    requires k <= |es|
  {
    forall i :: 0 <= i < k && Claims(es[i], c, w.parse) ==> Passed(es[i], c, w)
  }

  ghost predicate DeliveredAt(es: seq<R.Entry>, k: nat, c: W.Charge, w: W.World) {
    k < |es| && !Claims(es[k], c, w.parse) && Delivered(es[k], c, w) && NoneOurs(es, k, c, w)
  }

  ghost predicate PaidAt(es: seq<R.Entry>, k: nat, c: W.Charge, w: W.World, p: P.Payment) {
    k < |es| && Claims(es[k], c, w.parse) && Judged(es[k], c, w, Ok(P.Paid(p))) && NonePays(es, k, c, w)
  }

  lemma PassesAgree(es: seq<R.Entry>, k: nat, c: W.Charge, w: W.World)
    requires k <= |es| && forall i :: 0 <= i < |es| ==> es[i].signature.Some?
    ensures W.AllForeign(es, k, c, w) <==> NoneOurs(es, k, c, w)
    ensures W.AllPassed(es, k, c, w) <==> NonePays(es, k, c, w)
  {
    hide W.IsClaim, W.Foreign, W.Passed, Claims, Foreign, Passed;
    forall i | 0 <= i < |es|
      ensures (W.IsClaim(es[i], c, w.parse) <==> Claims(es[i], c, w.parse)) && (W.Foreign(es[i], c) <==> Foreign(es[i], c))
      ensures W.IsClaim(es[i], c, w.parse) ==> (W.Passed(es[i], c, w) <==> Passed(es[i], c, w))
    {
      EntryAgrees(es[i], c, w);
    }
  }

  lemma EntryAgrees(e: R.Entry, c: W.Charge, w: W.World)
    requires e.signature.Some?
    ensures (W.IsClaim(e, c, w.parse) <==> Claims(e, c, w.parse)) && (W.Foreign(e, c) <==> Foreign(e, c))
    ensures W.IsClaim(e, c, w.parse) ==> (W.Passed(e, c, w) <==> Passed(e, c, w))
    ensures W.IsClaim(e, c, w.parse) ==> forall p :: W.Pays(e, c, w, p) <==> Judged(e, c, w, Ok(P.Paid(p)))
    ensures W.Fulfills(e, c, w) <==> Delivered(e, c, w)
  {
    hide W.IsClaim, W.Foreign, W.Passed, Claims, Foreign, Passed, Judged, W.Pays, W.Fulfills, Delivered, W.MarkerStep, W.PaymentStep;
    ClaimsIff(e, c, w.parse);
    ForeignIff(e, c);
    MarkerStepIff(e, c, w);
    W.MarkerStepIff(e, c, w);
    if W.IsClaim(e, c, w.parse) {
      ClaimStepIff(e, c, w);
    }
  }

  lemma ReadyIff(args: W.Args, listing: Result<seq<R.Entry>, R.RpcError>, w: W.World)
    ensures W.Listed(args, listing, w) <==> Ready(args, w.cfg, listing)
    ensures Ready(args, w.cfg, listing) ==> W.Prepare(args, w.cfg) == Ok(ChargeOf(args, w.cfg))
  {
    PrepareIff(args, w.cfg);
    hide W.Prepare, Asks, Armed;
  }

  /**
   * The four verdicts. Delivered: the first entry of the device's own among those that claim nothing is an authentic
   * marker. Otherwise, with all of those foreign: paid by the first claim that is not passed over; pending without a
   * claim; a mismatch with claims that are all passed over.
   */
  lemma VerdictIff(args: W.Args, listing: Result<seq<R.Entry>, R.RpcError>, w: W.World)
    ensures W.VerifySpec(args, listing, w).Ok? ==> Ready(args, w.cfg, listing)
    ensures Ready(args, w.cfg, listing) ==>
              var r, c, es := W.VerifySpec(args, listing, w), ChargeOf(args, w.cfg), listing.value;
              && (r == Ok(P.AlreadyFulfilled) <==> exists k: nat :: DeliveredAt(es, k, c, w))
              && (forall p :: r == Ok(P.Paid(p)) <==> NoneOurs(es, |es|, c, w) && exists k: nat :: PaidAt(es, k, c, w, p))
              && (r == Ok(P.Pending) <==> NoneOurs(es, |es|, c, w) && forall i :: 0 <= i < |es| ==> !Claims(es[i], c, w.parse))
              && (r == Ok(P.Mismatch) <==> && NoneOurs(es, |es|, c, w) && NonePays(es, |es|, c, w)
                                           && exists i :: 0 <= i < |es| && Claims(es[i], c, w.parse))
  {
    hide W.VerifySpec, W.Listed, W.Prepare, Asks, Armed, Claims, Foreign, Passed, Delivered, Judged, W.IsClaim, W.Foreign, W.AllForeign,
      W.AllPassed, W.PaidAt, W.FulfilledAt, NoneOurs, NonePays, DeliveredAt, PaidAt, Unclaimed, AllSkipped;
    ReadyIff(args, listing, w);
    OkIsListed(args, listing, w);
    if Ready(args, w.cfg, listing) {
      var c, es := ChargeOf(args, w.cfg), listing.value;
      W.FulfilledIff(args, listing, w);
      forall p
        ensures W.VerifySpec(args, listing, w) == Ok(P.Paid(p)) <==> NoneOurs(es, |es|, c, w) && exists k: nat :: PaidAt(es, k, c, w, p)
      {
        W.PaidIff(args, listing, w, p);
        PassesAgree(es, |es|, c, w);
        PaidAgrees(es, c, w, p);
      }
      FulfilledAgrees(es, c, w);
      PassesAgree(es, |es|, c, w);
      NegativeVerdicts(args, es, c, w);
      ClaimsAgree(es, c, w);
    }
  }

  lemma OkIsListed(args: W.Args, listing: Result<seq<R.Entry>, R.RpcError>, w: W.World)
    ensures W.VerifySpec(args, listing, w).Ok? ==> W.Listed(args, listing, w)
  {
    hide W.Prepare, W.ScanMarkers, W.ScanPayments, W.Select;
  }

  lemma PaidAgrees(es: seq<R.Entry>, c: W.Charge, w: W.World, p: P.Payment)
    requires forall i :: 0 <= i < |es| ==> es[i].signature.Some?
    ensures (exists k :: 0 <= k < |es| && W.PaidAt(es, k, c, w, p)) <==> exists k: nat :: PaidAt(es, k, c, w, p)
  {
    hide W.IsClaim, W.Foreign, Claims, Foreign, Passed, Judged, W.Pays, W.AllPassed, NonePays;
    forall k: nat | k < |es| ensures W.PaidAt(es, k, c, w, p) <==> PaidAt(es, k, c, w, p) {
      EntryAgrees(es[k], c, w);
      PassesAgree(es, k, c, w);
    }
    hide W.PaidAt;
    if k: nat :| PaidAt(es, k, c, w, p) {
      assert W.PaidAt(es, k, c, w, p);
    }
  }

  lemma FulfilledAgrees(es: seq<R.Entry>, c: W.Charge, w: W.World)
    requires forall i :: 0 <= i < |es| ==> es[i].signature.Some?
    ensures (exists k :: 0 <= k < |es| && W.FulfilledAt(es, k, c, w)) <==> exists k: nat :: DeliveredAt(es, k, c, w)
  {
    hide W.IsClaim, W.Foreign, Claims, Foreign, Delivered, W.Fulfills, W.AllForeign, NoneOurs;
    forall k: nat | k < |es| ensures W.FulfilledAt(es, k, c, w) <==> DeliveredAt(es, k, c, w) {
      EntryAgrees(es[k], c, w);
      PassesAgree(es, k, c, w);
    }
    hide W.FulfilledAt;
    if k: nat :| DeliveredAt(es, k, c, w) {
      assert W.FulfilledAt(es, k, c, w);
    }
  }

  lemma ClaimsAgree(es: seq<R.Entry>, c: W.Charge, w: W.World)
    requires forall i :: 0 <= i < |es| ==> es[i].signature.Some?
    ensures Unclaimed(es, c, w) <==> forall i :: 0 <= i < |es| ==> !Claims(es[i], c, w.parse)
    ensures AllSkipped(es, c, w) <==> NonePays(es, |es|, c, w)
  {
    hide W.IsClaim, W.Passed, Claims, Passed;
    forall i | 0 <= i < |es|
      ensures (W.IsClaim(es[i], c, w.parse) <==> Claims(es[i], c, w.parse))
      ensures W.IsClaim(es[i], c, w.parse) ==> (W.Passed(es[i], c, w) <==> Passed(es[i], c, w))
    {
      EntryAgrees(es[i], c, w);
    }
  }

  /** The answers without a delivery and without a payment. */
  lemma NegativeVerdicts(args: W.Args, es: seq<R.Entry>, c: W.Charge, w: W.World)
    requires W.Listed(args, Ok(es), w) && W.Prepare(args, w.cfg) == Ok(c)
    ensures var r := W.VerifySpec(args, Ok(es), w);
            && (r == Ok(P.Pending) <==> W.AllForeign(es, |es|, c, w) && Unclaimed(es, c, w))
            && (r == Ok(P.Mismatch) <==> W.AllForeign(es, |es|, c, w) && !Unclaimed(es, c, w) && AllSkipped(es, c, w))
  {
    W.MarkersIff(es, c, w);
    ClaimsEnd(es, false, false, c, w);
    if es == [] {
      W.SelectNone(c, w.parse);
    }
    hide W.Prepare, W.Select, W.ScanMarkers, W.ScanPayments, W.IsClaim, W.Foreign, W.Passed, W.FulfilledAt;
  }

  // ---- Errors ------------------------------------------------------------------------------

  /** The node cannot be reached for the transaction of an entry, or for the payment that its marker names. */
  ghost predicate OutOfReach(e: R.Entry, c: W.Charge, w: W.World) {
    e.answer == Err(R.Transport) || exists s :: Marks(e, c, w.parse, s) && w.fetch(s) == Err(R.Transport)
  }

  /** The payment that its marker names cannot be judged, because the listed price is no amount. */
  ghost predicate Unpriced(e: R.Entry, c: W.Charge, w: W.World) {
    exists s :: Marks(e, c, w.parse, s) && Fetched(w, s) && Asked(c, w, s) == Err(P.ConfigError)
  }

  ghost predicate UnreachedAt(es: seq<R.Entry>, k: nat, c: W.Charge, w: W.World) {
    && k < |es|
    && if Claims(es[k], c, w.parse)
       then es[k].answer == Err(R.Transport) && NoneOurs(es, |es|, c, w) && NonePays(es, k, c, w)
       else OutOfReach(es[k], c, w) && NoneOurs(es, k, c, w)
  }

  ghost predicate UnpricedAt(es: seq<R.Entry>, k: nat, c: W.Charge, w: W.World) {
    && k < |es|
    && if Claims(es[k], c, w.parse)
       then Judged(es[k], c, w, Err(P.ConfigError)) && NoneOurs(es, |es|, c, w) && NonePays(es, k, c, w)
       else Unpriced(es[k], c, w) && NoneOurs(es, k, c, w)
  }

  /**
   * The errors. A question that does not ask for a priced item; a configuration that cannot gate an actuation, or a
   * price that is no amount; a node that cannot be reached, for the listing or for an entry that decides. Whatever
   * else is not a verdict could not be decoded.
   */
  lemma ErrorIff(args: W.Args, listing: Result<seq<R.Entry>, R.RpcError>, w: W.World)
    ensures W.VerifySpec(args, listing, w) == Err(P.ArgsError) <==> !Asks(args, w.cfg)
    ensures W.VerifySpec(args, listing, w) == Err(P.ConfigError) <==>
            && Asks(args, w.cfg)
            && (!Armed(w.cfg) || (Ready(args, w.cfg, listing) && exists k: nat :: UnpricedAt(listing.value, k, ChargeOf(args, w.cfg), w)))
    ensures W.VerifySpec(args, listing, w) == Err(P.RpcFailure) <==>
            && Asks(args, w.cfg) && Armed(w.cfg)
            && (|| listing == Err(R.Transport)
                || (Ready(args, w.cfg, listing) && exists k: nat :: UnreachedAt(listing.value, k, ChargeOf(args, w.cfg), w)))
  {
    PrepareIff(args, w.cfg);
    ReadyIff(args, listing, w);
    if Ready(args, w.cfg, listing) {
      var es, c := listing.value, ChargeOf(args, w.cfg);
      hide W.Prepare, Asks, Armed, UnpricedAt, UnreachedAt;
      ErrorOf(args, es, c, w, P.ArgsError);
      ErrorOf(args, es, c, w, P.ConfigError);
      ErrorOf(args, es, c, w, P.RpcFailure);
      hide W.VerifySpec, Failing, FailsAt, Ready;
      FailingIff(es, c, w, P.ArgsError);
      FailingIff(es, c, w, P.ConfigError);
      FailingIff(es, c, w, P.RpcFailure);
      forall k: nat
        ensures !FailsAt(es, k, c, w, P.ArgsError)
        ensures FailsAt(es, k, c, w, P.ConfigError) <==> UnpricedAt(es, k, c, w)
        ensures FailsAt(es, k, c, w, P.RpcFailure) <==> UnreachedAt(es, k, c, w)
      {
        FailsIff(es, k, c, w);
      }
    } else {
      EarlyErrors(args, listing, w);
    }
  }

  lemma EarlyErrors(args: W.Args, listing: Result<seq<R.Entry>, R.RpcError>, w: W.World)
    requires !W.Listed(args, listing, w)
    ensures W.VerifySpec(args, listing, w) ==
            if W.Prepare(args, w.cfg).Err? then Err(W.Prepare(args, w.cfg).error)
            else if listing == Err(R.Transport) then Err(P.RpcFailure) else Err(P.DecodeFailure)
  {
    hide W.Prepare, W.Select, W.ScanMarkers, W.ScanPayments;
  }

  /** Some entry fails for this reason, and the scan comes to it. */
  ghost predicate Failing(es: seq<R.Entry>, c: W.Charge, w: W.World, x: P.WatchError) {
    || (exists k: nat :: FirstHit(es, NoClaim(c, w), Strange(c), MarkerFails(c, w, x), k))
    || (W.AllForeign(es, |es|, c, w) && exists k: nat :: FirstHit(es, AnyClaim(c, w), Skipped(c, w), ClaimFails(c, w, x), k))
  }

  lemma ErrorOf(args: W.Args, es: seq<R.Entry>, c: W.Charge, w: W.World, x: P.WatchError)
    requires W.Listed(args, Ok(es), w) && W.Prepare(args, w.cfg) == Ok(c)
    ensures W.VerifySpec(args, Ok(es), w) == Err(x) <==> Failing(es, c, w, x)
  {
    W.MarkersIff(es, c, w);
    MarkersFail(es, c, w, x);
    ClaimsFail(es, false, false, c, w, x);
    if es == [] {
      W.SelectNone(c, w.parse);
    }
    hide W.Prepare, W.Select, W.ScanMarkers, W.ScanPayments, W.IsClaim, W.Foreign, W.Passed, W.FulfilledAt, W.AllForeign, FirstHit,
      NoClaim, AnyClaim, Strange, Skipped, MarkerFails, ClaimFails;
  }

  /** Entry `k` fails for this reason, and the scan comes to it. */
  ghost predicate FailsAt(es: seq<R.Entry>, k: nat, c: W.Charge, w: W.World, x: P.WatchError) {
    && k < |es| && es[k].signature.Some?
    && if Claims(es[k], c, w.parse)
       then W.PaymentStep(es[k], c, w) == Err(x) && NoneOurs(es, |es|, c, w) && NonePays(es, k, c, w)
       else W.MarkerStep(es[k], c, w) == Err(x) && NoneOurs(es, k, c, w)
  }

  lemma HitsAgree(es: seq<R.Entry>, k: nat, c: W.Charge, w: W.World, x: P.WatchError)
    requires forall i :: 0 <= i < |es| ==> es[i].signature.Some?
    ensures FailsAt(es, k, c, w, x) <==>
            || FirstHit(es, NoClaim(c, w), Strange(c), MarkerFails(c, w, x), k)
            || (W.AllForeign(es, |es|, c, w) && FirstHit(es, AnyClaim(c, w), Skipped(c, w), ClaimFails(c, w, x), k))
  {
    hide W.IsClaim, W.Foreign, W.Passed, W.MarkerStep, W.PaymentStep, Claims, Foreign, Passed, NoneOurs, NonePays;
    if k < |es| {
      EntryAgrees(es[k], c, w);
      PassesAgree(es, k, c, w);
      PassesAgree(es, |es|, c, w);
    }
  }

  lemma FailingIff(es: seq<R.Entry>, c: W.Charge, w: W.World, x: P.WatchError)
    requires forall i :: 0 <= i < |es| ==> es[i].signature.Some?
    ensures Failing(es, c, w, x) <==> exists k: nat :: FailsAt(es, k, c, w, x)
  {
    hide FailsAt, FirstHit, NoClaim, AnyClaim, Strange, Skipped, MarkerFails, ClaimFails, W.AllForeign;
    forall k: nat ensures FailsAt(es, k, c, w, x) <==>
      || FirstHit(es, NoClaim(c, w), Strange(c), MarkerFails(c, w, x), k)
      || (W.AllForeign(es, |es|, c, w) && FirstHit(es, AnyClaim(c, w), Skipped(c, w), ClaimFails(c, w, x), k))
    {
      HitsAgree(es, k, c, w, x);
    }
  }

  /** Why an entry can fail. */
  lemma FailsIff(es: seq<R.Entry>, k: nat, c: W.Charge, w: W.World)
    requires forall i :: 0 <= i < |es| ==> es[i].signature.Some?
    ensures !FailsAt(es, k, c, w, P.ArgsError)
    ensures FailsAt(es, k, c, w, P.ConfigError) <==> UnpricedAt(es, k, c, w)
    ensures FailsAt(es, k, c, w, P.RpcFailure) <==> UnreachedAt(es, k, c, w)
  {
    hide W.IsClaim, W.Foreign, W.MarkerStep, W.PaymentStep, W.Passed, W.Pays, Claims, Foreign, Passed, Judged, Delivered, Marks, Fetched,
      NoneOurs, NonePays;
    if k < |es| {
      ClaimsIff(es[k], c, w.parse);
      MarkerStepIff(es[k], c, w);
      if W.IsClaim(es[k], c, w.parse) {
        ClaimStepIff(es[k], c, w);
      }
    }
  }
}
