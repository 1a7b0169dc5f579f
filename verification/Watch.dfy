/** plugins/kiosk-watch/src/watch.rs: the two-pass verdict. */
module Watch {
  // `verify_payment`: two passes over what names a charge reference, markers first, then payments.

  import opened Wrappers
  import opened Json
  import opened Payment
  import Base58
  import Chain
  import Keys
  import R = Rpc

  const SIG_LIMIT: nat := 10
  const FUTURE_SKEW_S: nat := 30

  datatype Args = Args(reference: Option<string>, item: Option<string>)

  /** The charge that is looked for, with its configured price, and the device whose markers count. */
  datatype Charge = Charge(reference: string, item: string, amount: string, dev: Chain.Device)

  function SaturatingAdd(a: nat, b: nat): nat {
    if a + b > U64_MAX then U64_MAX else a + b
  }

  function FetchFailure(e: R.RpcError): WatchError {
    if e.Transport? then RpcFailure else DecodeFailure
  }

  /** The checks before any request. */
  function Prepare(args: Args, cfg: Config): Result<Charge, WatchError> {
    if args.reference.None? || !Base58.IsPubkey(args.reference.value) then Err(ArgsError)
    else if args.item.None? || args.item.value !in cfg.prices then Err(ArgsError)
    else if cfg.finality != "finalized" then Err(ConfigError)
    else if cfg.authority.None? || cfg.address.None? || cfg.id.None? then Err(ConfigError)
    else Ok(Charge(args.reference.value, args.item.value, cfg.prices[args.item.value],
                   Chain.Device(cfg.address.value, cfg.authority.value, cfg.id.value)))
  }

  // ---- Listed memos ------------------------------------------------------------------------

  /** What follows the first `] `. */
  function AfterBracket(s: string): Option<string> {
    if |s| < 2 then None else if s[0] == ']' && s[1] == ' ' then Some(s[2..]) else AfterBracket(s[1..])
  }

  /** The listed memo without its byte count. */
  function MemoPayload(e: R.Entry): Option<string> {
    if !e.memo.Text? then None
    else if e.memo.text != "" && e.memo.text[0] == '[' then AfterBracket(e.memo.text[1..])
    else Some(e.memo.text)
  }

  function MemoJson(e: R.Entry, parse: Parser): Option<Json> {
    match MemoPayload(e)
    case None => None
    case Some(text) => parse(text)
  }

  predicate IsClaim(e: R.Entry, c: Charge, parse: Parser) {
    MemoJson(e, parse) == Some(PaymentMemo(c.reference, c.item))
  }

  // ---- The device's own transactions -------------------------------------------------------

  predicate Lists(keys: seq<R.AccountKey>, name: string) {
    exists i :: 0 <= i < |keys| && KeyName(keys[i]) == Some(name)
  }

  /** A successful transaction signed by the authority, with its device account and this reference; else `None`. */
  function AuthoritySigned(tx: Option<R.Transaction>, c: Charge): Result<Option<R.Message>, WatchError> {
    if tx.None? || tx.value.meta.None? || tx.value.meta.value.err.Missing? then Err(DecodeFailure)
    else if tx.value.meta.value.err.Failure? then Ok(None)
    else if tx.value.message.None? || tx.value.message.value.accountKeys.None? then Err(DecodeFailure)
    else
      var keys := tx.value.message.value.accountKeys.value;
      if !Signs(keys, c.dev.authority) then Ok(None)
      else if !Lists(keys, c.dev.address) then Err(DecodeFailure)
      else if !AttachedOnce(keys, c.reference) then Err(DecodeFailure)
      else Ok(Some(tx.value.message.value))
  }

  predicate IsAdvanceNonce(ix: R.Instruction, dev: Chain.Device) {
    var info := Chain.SystemInfo(ix, "advanceNonce");
    && info.Some?
    && GetStr(info.value, "nonceAccount") == Some(dev.address)
    && GetStr(info.value, "nonceAuthority") == Some(dev.authority)
  }

  predicate IsMemo(ix: R.Instruction, memo: string) {
    ix.programId == Some(Keys.MEMO_PROGRAM) && ix.program == Some("spl-memo") && ix.parsed == Str(memo)
  }

  predicate IsDeviceWrite(m: R.Message, dev: Chain.Device, memo: string) {
    && m.instructions.Some? && |m.instructions.value| == 2
    && IsAdvanceNonce(m.instructions.value[0], dev) && IsMemo(m.instructions.value[1], memo)
  }

  /** `authenticated_device_tx`. */
  function DeviceWrite(tx: Option<R.Transaction>, c: Charge, memo: string): Result<bool, WatchError> {
    match AuthoritySigned(tx, c)
    case Err(e) => Err(e)
    case Ok(None) => Ok(false)
    case Ok(Some(m)) => if IsDeviceWrite(m, c.dev, memo) then Ok(true) else Err(DecodeFailure)
  }

  const MARKER_KEYS: set<string> := {"v", "dev", "seq", "ts", "tag", "ref", "prev", "item", "payment_sig"}

  /** The exact fulfillment record of this charge. */
  predicate IsMarker(j: Json, c: Charge) {
    && j.Obj? && j.fields.Keys == MARKER_KEYS
    && GetU64(j, "v") == Some(1) && GetStr(j, "dev") == Some(c.dev.id)
    && GetU64(j, "seq").Some? && GetU64(j, "ts").Some?
    && GetStr(j, "tag") == Some(Chain.FULFILLMENT_TAG) && GetStr(j, "ref") == Some(c.reference)
    && (j.fields["prev"].Null? || j.fields["prev"].Str?)
    && GetStr(j, "item") == Some(c.item)
    && (var sig := GetStr(j, "payment_sig"); sig.Some? && Chain.IsSignature(sig.value))
  }

  /** `marker_is_authentic`. */
  function MarkerIsAuthentic(tx: Option<R.Transaction>, c: Charge, memo: string, parse: Parser): Result<bool, WatchError> {
    match DeviceWrite(tx, c, memo)
    case Err(e) => Err(e)
    case Ok(false) => Ok(false)
    case Ok(true) =>
      if parse(memo).Some? && IsMarker(parse(memo).value, c) then Ok(true) else Err(DecodeFailure)
  }

  // ---- One entry ---------------------------------------------------------------------------

  /** Everything a run depends on besides the listing: the fetched payments of markers, and the clock. */
  datatype World = World(cfg: Config, fetch: string -> R.Answer, now: nat, parse: Parser)

  function ClaimFor(c: Charge, signature: string, blockTimeS: nat): Claim {
    Claim(c.reference, c.item, c.amount, signature, blockTimeS)
  }

  predicate InTime(blockTime: Option<int>, now: nat) {
    blockTime.Some? && 0 <= blockTime.value <= SaturatingAdd(now, FUTURE_SKEW_S)
  }

  /** The payment that an authentic marker names was really made, no later than the marker. */
  function NamedPayment(e: R.Entry, c: Charge, w: World): Result<bool, WatchError> {
    match MemoJson(e, w.parse)
    case None => Err(DecodeFailure)
    case Some(marker) =>
      match GetStr(marker, "payment_sig")
      case None => Err(DecodeFailure)
      case Some(signature) =>
        match w.fetch(signature)
        case Err(err) => Err(FetchFailure(err))
        case Ok(tx) =>
          if tx.None? || !InTime(tx.value.blockTime, w.now) then Err(DecodeFailure)
          else match InspectSpec(tx, ClaimFor(c, signature, tx.value.blockTime.value), w.cfg, w.parse)
            case Err(err) => Err(err)
            case Ok(Paid(p)) =>
              if e.slot.None? || p.slot > e.slot.value then Err(DecodeFailure) else Ok(true)
            case Ok(_) => Err(DecodeFailure)
  }

  /** A non-claim entry: nothing of ours (false), or the authentic marker of a delivery (true). */
  function MarkerStep(e: R.Entry, c: Charge, w: World): Result<bool, WatchError> {
    match e.answer
    case Err(err) => Err(FetchFailure(err))
    case Ok(tx) =>
      match AuthoritySigned(tx, c)
      case Err(err) => Err(err)
      case Ok(None) => Ok(false)
      case Ok(Some(_)) =>
        match MemoPayload(e)
        case None => Err(DecodeFailure)
        case Some(memo) =>
          match MarkerIsAuthentic(tx, c, memo, w.parse)
          case Err(err) => Err(err)
          case Ok(false) => Ok(false)
          case Ok(true) => NamedPayment(e, c, w)
  }

  datatype Outcome = Wins(payment: Payment) | Refused | Unbounded

  /** A payment claim: it verifies, it is refused, or its age cannot be bounded. */
  function PaymentStep(e: R.Entry, c: Charge, w: World): Result<Outcome, WatchError>
    requires e.signature.Some?
  {
    match e.answer
    case Err(err) => Err(FetchFailure(err))
    case Ok(tx) =>
      match MemoPayload(e)
      case None => Err(DecodeFailure)
      case Some(memo) =>
        match DeviceWrite(tx, c, memo)
        case Err(err) => Err(err)
        case Ok(true) => Err(DecodeFailure)
        case Ok(false) =>
          if e.blockTime.None? || e.blockTime.value < 0 then Ok(Unbounded)
          else if e.blockTime.value > SaturatingAdd(w.now, FUTURE_SKEW_S) then Ok(Refused)
          else match InspectSpec(tx, ClaimFor(c, e.signature.value, e.blockTime.value), w.cfg, w.parse)
            case Err(err) => Err(err)
            case Ok(Paid(p)) => Ok(Wins(p))
            case Ok(_) => Ok(Refused)
  }

  // ---- The two passes ----------------------------------------------------------------------

  /** The claims (or, for `claims == false`, all other entries), in listing order. */
  function Select(es: seq<R.Entry>, claims: bool, c: Charge, parse: Parser): (r: seq<R.Entry>)
    ensures forall i :: 0 <= i < |r| ==> r[i] in es
  {
    if es == [] then []
    else (if IsClaim(es[0], c, parse) == claims then [es[0]] else []) + Select(es[1..], claims, c, parse)
  }

  function ScanMarkers(ms: seq<R.Entry>, c: Charge, w: World): Result<bool, WatchError> {
    if ms == [] then Ok(false)
    else match MarkerStep(ms[0], c, w)
      case Err(e) => Err(e)
      case Ok(true) => Ok(true)
      case Ok(false) => ScanMarkers(ms[1..], c, w)
  }

  function ScanPayments(ps: seq<R.Entry>, mismatch: bool, unbounded: bool, c: Charge, w: World): Result<Verdict, WatchError>
    requires forall i :: 0 <= i < |ps| ==> ps[i].signature.Some?
  {
    if ps == [] then Ok(if mismatch || unbounded then Mismatch else Pending)
    else match PaymentStep(ps[0], c, w)
      case Err(e) => Err(e)
      case Ok(Wins(p)) => Ok(Paid(p))
      case Ok(Refused) => ScanPayments(ps[1..], true, unbounded, c, w)
      case Ok(Unbounded) => ScanPayments(ps[1..], mismatch, true, c, w)
  }

  predicate AllSigned(es: seq<R.Entry>) {
    forall i :: 0 <= i < |es| ==> es[i].signature.Some?
  }

  function ScanSpec(es: seq<R.Entry>, c: Charge, w: World): Result<Verdict, WatchError> {
    if |es| > SIG_LIMIT then Err(DecodeFailure)
    else if es == [] then Ok(Pending)
    else if !AllSigned(es) then Err(DecodeFailure)
    else match ScanMarkers(Select(es, false, c, w.parse), c, w)
      case Err(e) => Err(e)
      case Ok(true) => Ok(AlreadyFulfilled)
      case Ok(false) => ScanPayments(Select(es, true, c, w.parse), false, false, c, w)
  }

  /** `verify_payment`. */
  function VerifySpec(args: Args, listing: Result<seq<R.Entry>, R.RpcError>, w: World): Result<Verdict, WatchError> {
    match Prepare(args, w.cfg)
    case Err(e) => Err(e)
    case Ok(c) =>
      match listing
      case Err(e) => Err(FetchFailure(e))
      case Ok(es) => ScanSpec(es, c, w)
  }

  // ---- The program's loops -----------------------------------------------------------------

  lemma {:induction false} SelectSnoc(es: seq<R.Entry>, e: R.Entry, claims: bool, c: Charge, parse: Parser)
    ensures Select(es + [e], claims, c, parse) ==
            Select(es, claims, c, parse) + if IsClaim(e, c, parse) == claims then [e] else []
  {
    hide IsClaim;
    if es == [] {
      assert es + [e] == [e] && [e][1..] == [];
    } else {
      SelectSnoc(es[1..], e, claims, c, parse);
      var r := es + [e];
      assert r[1..] == es[1..] + [e] && r[0] == es[0];
    }
  }

  /** Split the listing: markers and claims, each newest first; every entry needs a signature. */
  method Split(es: seq<R.Entry>, c: Charge, parse: Parser)
    returns (ok: bool, markers: seq<R.Entry>, payments: seq<R.Entry>)
    ensures ok == AllSigned(es)
    ensures ok ==> markers == Select(es, false, c, parse) && payments == Select(es, true, c, parse)
  {
    hide IsClaim, Select;
    markers, payments := [], [];
    SelectNone(c, parse);
    for i := 0 to |es|
      invariant AllSigned(es[..i])
      invariant markers == Select(es[..i], false, c, parse) && payments == Select(es[..i], true, c, parse)
    {
      var e := es[i];
      if e.signature.None? {
        return false, [], [];
      }
      SelectSnoc(es[..i], e, false, c, parse);
      SelectSnoc(es[..i], e, true, c, parse);
      assert es[..i + 1] == es[..i] + [e];
      if IsClaim(e, c, parse) {
        payments := payments + [e];
      } else {
        markers := markers + [e];
      }
    }
    assert es[..|es|] == es;
    ok := true;
  }

  lemma SelectNone(c: Charge, parse: Parser)
    ensures Select([], false, c, parse) == [] && Select([], true, c, parse) == []
  {
  }

  /** The first pass. */
  method CheckMarkers(ms: seq<R.Entry>, c: Charge, w: World) returns (r: Result<bool, WatchError>)
    ensures r == ScanMarkers(ms, c, w)
  {
    hide MarkerStep;
    for i := 0 to |ms|
      invariant ScanMarkers(ms, c, w) == ScanMarkers(ms[i..], c, w)
    {
      var step := MarkerStep(ms[i], c, w);
      if step.Err? {
        return Err(step.error);
      }
      if step.value {
        return Ok(true);
      }
      assert ms[i..][1..] == ms[i + 1..];
    }
    return Ok(false);
  }

  /** The second pass, with the flags that only choose among negative answers. */
  method CheckPayments(ps: seq<R.Entry>, c: Charge, w: World) returns (r: Result<Verdict, WatchError>)
    requires forall i :: 0 <= i < |ps| ==> ps[i].signature.Some?
    ensures r == ScanPayments(ps, false, false, c, w)
  {
    hide DeviceWrite, InspectSpec;
    var firstMismatch, sawUnbounded := false, false;
    for i := 0 to |ps|
      invariant ScanPayments(ps, false, false, c, w) == ScanPayments(ps[i..], firstMismatch, sawUnbounded, c, w)
    {
      var e := ps[i];
      assert ps[i..][1..] == ps[i + 1..] && ps[i..][0] == e;
      if e.answer.Err? {
        return Err(FetchFailure(e.answer.error));
      }
      var memo := MemoPayload(e);
      if memo.None? {
        return Err(DecodeFailure);
      }
      var written := DeviceWrite(e.answer.value, c, memo.value);
      if written.Err? {
        return Err(written.error);
      }
      if written.value {
        return Err(DecodeFailure);
      }
      if e.blockTime.None? || e.blockTime.value < 0 {
        sawUnbounded := true;
        continue;
      }
      if e.blockTime.value > SaturatingAdd(w.now, FUTURE_SKEW_S) {
        firstMismatch := true;
        continue;
      }
      var verdict := InspectTransaction(e.answer.value, ClaimFor(c, e.signature.value, e.blockTime.value), w.cfg, w.parse);
      if verdict.Err? {
        return Err(verdict.error);
      }
      if verdict.value.Paid? {
        return Ok(verdict.value);
      }
      firstMismatch := true;
    }
    if firstMismatch {
      return Ok(Mismatch);
    }
    if sawUnbounded {
      return Ok(Mismatch);
    }
    return Ok(Pending);
  }

  method VerifyPayment(args: Args, listing: Result<seq<R.Entry>, R.RpcError>, w: World)
    returns (r: Result<Verdict, WatchError>)
    ensures r == VerifySpec(args, listing, w)
  {
    hide Prepare, Select, ScanMarkers, ScanPayments;
    var c := Prepare(args, w.cfg);
    if c.Err? {
      return Err(c.error);
    }
    if listing.Err? {
      return Err(FetchFailure(listing.error));
    }
    var es := listing.value;
    if |es| > SIG_LIMIT {
      return Err(DecodeFailure);
    }
    if es == [] {
      return Ok(Pending);
    }
    var ok, markers, payments := Split(es, c.value, w.parse);
    if !ok {
      return Err(DecodeFailure);
    }
    var fulfilled := CheckMarkers(markers, c.value, w);
    if fulfilled.Err? {
      return Err(fulfilled.error);
    }
    if fulfilled.value {
      return Ok(AlreadyFulfilled);
    }
    r := CheckPayments(payments, c.value, w);
  }

  // ---- What the verdicts mean --------------------------------------------------------------

  /** A readable transaction that is not a successful one signed by the device authority. */
  predicate Foreign(e: R.Entry, c: Charge) {
    e.answer.Ok? && AuthoritySigned(e.answer.value, c) == Ok(None)
  }

  /** A claim that does not verify, for a reason that is not an error. */
  predicate Passed(e: R.Entry, c: Charge, w: World) {
    && Foreign(e, c) && e.signature.Some?
    && (e.blockTime.Some? && 0 <= e.blockTime.value <= SaturatingAdd(w.now, FUTURE_SKEW_S) ==>
         InspectSpec(e.answer.value, ClaimFor(c, e.signature.value, e.blockTime.value), w.cfg, w.parse) == Ok(Mismatch))
  }

  /** A foreign claim, in time, whose transaction verifies as this payment. */
  predicate Pays(e: R.Entry, c: Charge, w: World, p: Payment) {
    && Foreign(e, c) && e.signature.Some? && InTime(e.blockTime, w.now)
    && InspectSpec(e.answer.value, ClaimFor(c, e.signature.value, e.blockTime.value), w.cfg, w.parse) == Ok(Paid(p))
  }

  /** The authority's own marker of this charge, naming a payment that verifies and does not postdate it. */
  ghost predicate Fulfills(e: R.Entry, c: Charge, w: World) {
    && e.answer.Ok? && e.slot.Some?
    && MemoPayload(e).Some? && MarkerIsAuthentic(e.answer.value, c, MemoPayload(e).value, w.parse) == Ok(true)
    && exists p :: NamesPayment(e, c, w, p) && p.slot <= e.slot.value
  }

  predicate NamesPayment(e: R.Entry, c: Charge, w: World, p: Payment) {
    && MemoJson(e, w.parse).Some?
    && var sig := GetStr(MemoJson(e, w.parse).value, "payment_sig");
    && sig.Some? && w.fetch(sig.value).Ok?
    && var tx := w.fetch(sig.value).value;
    && tx.Some? && InTime(tx.value.blockTime, w.now)
    && InspectSpec(tx, ClaimFor(c, sig.value, tx.value.blockTime.value), w.cfg, w.parse) == Ok(Paid(p))
  }

  lemma InspectKinds(tx: Option<R.Transaction>, claim: Claim, cfg: Config, parse: Parser)
    ensures InspectSpec(tx, claim, cfg, parse).Ok? ==>
              InspectSpec(tx, claim, cfg, parse).value.Paid? || InspectSpec(tx, claim, cfg, parse).value.Mismatch?
  {
    hide AttachedOnce, TransferSpec, Balances.BalancesSpec, Credit, KeysNamed;
  }

  lemma MarkerStepIff(e: R.Entry, c: Charge, w: World)
    ensures MarkerStep(e, c, w) == Ok(false) <==> Foreign(e, c)
    ensures MarkerStep(e, c, w) == Ok(true) <==> Fulfills(e, c, w)
  {
    hide AuthoritySigned, IsDeviceWrite, IsMarker, InspectSpec, MemoPayload;
    if MarkerStep(e, c, w) == Ok(true) {
      var sig := GetStr(MemoJson(e, w.parse).value, "payment_sig").value;
      var tx := w.fetch(sig).value;
      var p := InspectSpec(tx, ClaimFor(c, sig, tx.value.blockTime.value), w.cfg, w.parse).value.payment;
      assert NamesPayment(e, c, w, p);
    }
  }

  lemma PaymentStepIff(e: R.Entry, c: Charge, w: World, p: Payment)
    requires e.signature.Some? && IsClaim(e, c, w.parse)
    ensures PaymentStep(e, c, w) == Ok(Wins(p)) <==> Pays(e, c, w, p)
    ensures PaymentStep(e, c, w) == Ok(Refused) || PaymentStep(e, c, w) == Ok(Unbounded) <==> Passed(e, c, w)
  {
    hide AuthoritySigned, IsDeviceWrite, InspectSpec, MemoPayload;
    if e.answer.Ok? && e.blockTime.Some? && e.blockTime.value >= 0 {
      InspectKinds(e.answer.value, ClaimFor(c, e.signature.value, e.blockTime.value), w.cfg, w.parse);
    }
  }

  /** Every entry of one kind before position `k` is passed over. */
  predicate AllForeign(es: seq<R.Entry>, k: nat, c: Charge, w: World)
    requires k <= |es|
  {
    forall i :: 0 <= i < k && !IsClaim(es[i], c, w.parse) ==> Foreign(es[i], c)
  }

  predicate AllPassed(es: seq<R.Entry>, k: nat, c: Charge, w: World)
    requires k <= |es|
  {
    forall i :: 0 <= i < k && IsClaim(es[i], c, w.parse) ==> Passed(es[i], c, w)
  }

  ghost predicate FulfilledAt(es: seq<R.Entry>, k: nat, c: Charge, w: World)
    requires k < |es|
  {
    !IsClaim(es[k], c, w.parse) && Fulfills(es[k], c, w) && AllForeign(es, k, c, w)
  }

  predicate PaidAt(es: seq<R.Entry>, k: nat, c: Charge, w: World, p: Payment)
    requires k < |es|
  {
    IsClaim(es[k], c, w.parse) && Pays(es[k], c, w, p) && AllPassed(es, k, c, w)
  }

  lemma {:induction false} MarkersIff(es: seq<R.Entry>, c: Charge, w: World)
    ensures ScanMarkers(Select(es, false, c, w.parse), c, w) == Ok(false) <==> AllForeign(es, |es|, c, w)
    ensures ScanMarkers(Select(es, false, c, w.parse), c, w) == Ok(true) <==> exists k :: 0 <= k < |es| && FulfilledAt(es, k, c, w)
  {
    hide IsClaim, Foreign, Fulfills, MarkerStep;
    if es != [] {
      var e, rest := es[0], es[1..];
      MarkersIff(rest, c, w);
      MarkerStepIff(e, c, w);
      MarkersShift(es, c, w);
      if !IsClaim(e, c, w.parse) {
        assert Select(es, false, c, w.parse)[1..] == Select(rest, false, c, w.parse);
      } else {
        assert Select(es, false, c, w.parse) == Select(rest, false, c, w.parse);
      }
    }
  }

  lemma MarkersShift(es: seq<R.Entry>, c: Charge, w: World)
    requires es != []
    ensures AllForeign(es, |es|, c, w) <==>
            (IsClaim(es[0], c, w.parse) || Foreign(es[0], c)) && AllForeign(es[1..], |es| - 1, c, w)
    ensures (exists k :: 0 <= k < |es| && FulfilledAt(es, k, c, w)) <==>
            || (!IsClaim(es[0], c, w.parse) && Fulfills(es[0], c, w))
            || ((IsClaim(es[0], c, w.parse) || Foreign(es[0], c))
                && exists k :: 0 <= k < |es| - 1 && FulfilledAt(es[1..], k, c, w))
  {
    hide IsClaim, Foreign, Fulfills;
    var rest := es[1..];
    forall k: nat | k < |es| ensures AllForeign(es, k + 1, c, w) <==>
        (IsClaim(es[0], c, w.parse) || Foreign(es[0], c)) && AllForeign(rest, k, c, w)
    {
      if AllForeign(es, k + 1, c, w) {
        forall i | 0 <= i < k && !IsClaim(rest[i], c, w.parse) ensures Foreign(rest[i], c) {
          assert es[i + 1] == rest[i];
        }
      }
      if AllForeign(rest, k, c, w) {
        assert forall i :: 1 <= i < k + 1 ==> es[i] == rest[i - 1];
      }
    }
    assert AllForeign(es, 0, c, w);
    if k :| 0 <= k < |es| && FulfilledAt(es, k, c, w) && k > 0 {
      assert AllForeign(es, (k - 1) + 1, c, w) && FulfilledAt(rest, k - 1, c, w);
    }
    if !IsClaim(es[0], c, w.parse) && Fulfills(es[0], c, w) {
      assert FulfilledAt(es, 0, c, w);
    }
    if (IsClaim(es[0], c, w.parse) || Foreign(es[0], c)) {
      if k: nat :| k < |es| - 1 && FulfilledAt(rest, k, c, w) {
        assert FulfilledAt(es, k + 1, c, w);
      }
    }
  }

  lemma {:induction false} PaymentsIff(es: seq<R.Entry>, mismatch: bool, unbounded: bool, c: Charge, w: World, p: Payment)
    requires AllSigned(es)
    ensures ScanPayments(Select(es, true, c, w.parse), mismatch, unbounded, c, w) == Ok(Paid(p))
            <==> exists k :: 0 <= k < |es| && PaidAt(es, k, c, w, p)
  {
    hide IsClaim, Pays, Passed, PaymentStep;
    if es != [] {
      var e, rest := es[0], es[1..];
      assert AllSigned(rest);
      var selected := Select(rest, true, c, w.parse);
      PaymentsIff(rest, mismatch, unbounded, c, w, p);
      PaymentsIff(rest, true, unbounded, c, w, p);
      PaymentsIff(rest, mismatch, true, c, w, p);
      PaymentsShift(es, c, w, p);
      if IsClaim(e, c, w.parse) {
        PaymentStepIff(e, c, w, p);
        PaymentStepWins(e, c, w);
        assert Select(es, true, c, w.parse)[1..] == selected;
      } else {
        assert Select(es, true, c, w.parse) == selected;
      }
    }
  }

  lemma PaymentStepWins(e: R.Entry, c: Charge, w: World)
    requires e.signature.Some? && IsClaim(e, c, w.parse)
    ensures PaymentStep(e, c, w).Ok? && PaymentStep(e, c, w).value.Wins? ==> !Passed(e, c, w)
  {
    if PaymentStep(e, c, w).Ok? && PaymentStep(e, c, w).value.Wins? {
      PaymentStepIff(e, c, w, PaymentStep(e, c, w).value.payment);
    }
  }

  lemma PaymentsShift(es: seq<R.Entry>, c: Charge, w: World, p: Payment)
    requires es != []
    ensures (exists k :: 0 <= k < |es| && PaidAt(es, k, c, w, p)) <==>
            || (IsClaim(es[0], c, w.parse) && Pays(es[0], c, w, p))
            || ((!IsClaim(es[0], c, w.parse) || Passed(es[0], c, w))
                && exists k :: 0 <= k < |es| - 1 && PaidAt(es[1..], k, c, w, p))
  {
    hide IsClaim, Pays, Passed;
    var rest := es[1..];
    forall k: nat | k < |es| ensures AllPassed(es, k + 1, c, w) <==>
        (!IsClaim(es[0], c, w.parse) || Passed(es[0], c, w)) && AllPassed(rest, k, c, w)
    {
      if AllPassed(es, k + 1, c, w) {
        forall i | 0 <= i < k && IsClaim(rest[i], c, w.parse) ensures Passed(rest[i], c, w) {
          assert es[i + 1] == rest[i];
        }
      }
      if AllPassed(rest, k, c, w) {
        assert forall i :: 1 <= i < k + 1 ==> es[i] == rest[i - 1];
      }
    }
    assert AllPassed(es, 0, c, w);
    if k :| 0 <= k < |es| && PaidAt(es, k, c, w, p) && k > 0 {
      assert AllPassed(es, (k - 1) + 1, c, w) && PaidAt(rest, k - 1, c, w, p);
    }
    if IsClaim(es[0], c, w.parse) && Pays(es[0], c, w, p) {
      assert PaidAt(es, 0, c, w, p);
    }
    if !IsClaim(es[0], c, w.parse) || Passed(es[0], c, w) {
      if k: nat :| k < |es| - 1 && PaidAt(rest, k, c, w, p) {
        assert PaidAt(es, k + 1, c, w, p);
      }
    }
  }

  /** A listing that can be judged at all. */
  predicate Listed(args: Args, listing: Result<seq<R.Entry>, R.RpcError>, w: World) {
    && Prepare(args, w.cfg).Ok? && listing.Ok? && |listing.value| <= SIG_LIMIT && AllSigned(listing.value)
  }

  /**
   * `Paid` exactly when no entry that is not a claim is the authority's, and some claim verifies
   * while every newer claim is foreign and does not.
   */
  lemma PaidIff(args: Args, listing: Result<seq<R.Entry>, R.RpcError>, w: World, p: Payment)
    ensures VerifySpec(args, listing, w) == Ok(Paid(p))
            <==> && Listed(args, listing, w)
                 && var c, es := Prepare(args, w.cfg).value, listing.value;
                    AllForeign(es, |es|, c, w) && exists k :: 0 <= k < |es| && PaidAt(es, k, c, w, p)
  {
    hide Prepare, IsClaim, Foreign, AllForeign, PaidAt, FulfilledAt;
    if Listed(args, listing, w) {
      var c, es := Prepare(args, w.cfg).value, listing.value;
      MarkersIff(es, c, w);
      PaymentsIff(es, false, false, c, w, p);
      hide Select, ScanMarkers, ScanPayments;
    }
  }

  /** `AlreadyFulfilled` exactly when some entry is the authority's valid marker and every newer non-claim is foreign. */
  lemma FulfilledIff(args: Args, listing: Result<seq<R.Entry>, R.RpcError>, w: World)
    ensures VerifySpec(args, listing, w) == Ok(AlreadyFulfilled)
            <==> && Listed(args, listing, w)
                 && exists k :: 0 <= k < |listing.value| && FulfilledAt(listing.value, k, Prepare(args, w.cfg).value, w)
  {
    hide Prepare, IsClaim, Foreign, AllForeign, PaidAt, FulfilledAt;
    if Listed(args, listing, w) {
      var c, es := Prepare(args, w.cfg).value, listing.value;
      MarkersIff(es, c, w);
      PaymentsVerdict(Select(es, true, c, w.parse), false, false, c, w);
      hide Select, ScanMarkers, ScanPayments;
    }
  }

  lemma {:induction false} PaymentsVerdict(ps: seq<R.Entry>, mismatch: bool, unbounded: bool, c: Charge, w: World)
    requires forall i :: 0 <= i < |ps| ==> ps[i].signature.Some?
    ensures ScanPayments(ps, mismatch, unbounded, c, w) != Ok(AlreadyFulfilled)
  {
    hide PaymentStep;
    if ps != [] {
      PaymentsVerdict(ps[1..], true, unbounded, c, w);
      PaymentsVerdict(ps[1..], mismatch, true, c, w);
    }
  }

  /** Before any request: finality, a priced item, a real reference. A payment carries the configured price. */
  lemma PaidIsConfigured(args: Args, listing: Result<seq<R.Entry>, R.RpcError>, w: World, p: Payment)
    requires VerifySpec(args, listing, w) == Ok(Paid(p))
    ensures w.cfg.finality == "finalized" && args.reference == Some(p.reference) && args.item == Some(p.item)
    ensures p.item in w.cfg.prices && p.amount == w.cfg.prices[p.item]
    ensures p.recipient == w.cfg.merchant && p.mint == w.cfg.mint && p.decimals == w.cfg.decimals
    ensures Base58.IsPubkey(p.reference) && p.windowS == w.cfg.windowS
  {
    PaidIff(args, listing, w, p);
    var c, es := Prepare(args, w.cfg).value, listing.value;
    var k :| 0 <= k < |es| && PaidAt(es, k, c, w, p);
    hide IsClaim, Foreign, AllForeign, AllPassed, VerifySpec;
    PaidCarries(es[k].answer.value, ClaimFor(c, es[k].signature.value, es[k].blockTime.value), w.cfg, w.parse, p);
  }

  lemma PaidCarries(tx: Option<R.Transaction>, claim: Claim, cfg: Config, parse: Parser, p: Payment)
    requires InspectSpec(tx, claim, cfg, parse) == Ok(Paid(p))
    ensures p.reference == claim.reference && p.item == claim.item && p.amount == claim.amount && p.signature == claim.signature
    ensures p.recipient == cfg.merchant && p.mint == cfg.mint && p.decimals == cfg.decimals && p.windowS == cfg.windowS
    ensures p.blockTimeS == claim.blockTimeS
  {
    hide AttachedOnce, TransferSpec, Balances.BalancesSpec, Credit, KeysNamed;
  }

  // ---- Public traffic ----------------------------------------------------------------------

  lemma {:induction false} SelectConcat(a: seq<R.Entry>, b: seq<R.Entry>, claims: bool, c: Charge, parse: Parser)
    ensures Select(a + b, claims, c, parse) == Select(a, claims, c, parse) + Select(b, claims, c, parse)
  {
    hide IsClaim, Select;
    if a == [] {
      SelectNone(c, parse);
      assert a + b == b;
      assert [] + Select(b, claims, c, parse) == Select(b, claims, c, parse);
    } else {
      var r, first := a + b, if IsClaim(a[0], c, parse) == claims then [a[0]] else [];
      SelectConcat(a[1..], b, claims, c, parse);
      assert r[1..] == a[1..] + b && r[0] == a[0];
      SelectCons(r, claims, c, parse);
      SelectCons(a, claims, c, parse);
      Associative(first, Select(a[1..], claims, c, parse), Select(b, claims, c, parse));
    }
  }

  lemma Associative(a: seq<R.Entry>, b: seq<R.Entry>, c: seq<R.Entry>)
    ensures a + (b + c) == (a + b) + c
  {
  }

  lemma SelectCons(es: seq<R.Entry>, claims: bool, c: Charge, parse: Parser)
    requires es != []
    ensures Select(es, claims, c, parse) == (if IsClaim(es[0], c, parse) == claims then [es[0]] else []) + Select(es[1..], claims, c, parse)
  {
  }

  lemma SelectInsert(a: seq<R.Entry>, x: R.Entry, b: seq<R.Entry>, claims: bool, c: Charge, parse: Parser)
    ensures Select(a + b, claims, c, parse) == Select(a, claims, c, parse) + Select(b, claims, c, parse)
    ensures Select(a + [x] + b, claims, c, parse) ==
            Select(a, claims, c, parse) + (if IsClaim(x, c, parse) == claims then [x] else []) + Select(b, claims, c, parse)
  {
    SelectConcat(a, b, claims, c, parse);
    SelectConcat(a + [x], b, claims, c, parse);
    SelectSnoc(a, x, claims, c, parse);
  }

  lemma {:induction false} MarkersSkip(a: seq<R.Entry>, x: R.Entry, b: seq<R.Entry>, c: Charge, w: World)
    requires MarkerStep(x, c, w) == Ok(false)
    ensures ScanMarkers(a + [x] + b, c, w) == ScanMarkers(a + b, c, w)
  {
    hide MarkerStep;
    if a == [] {
      assert (a + [x] + b)[1..] == b && a + b == b;
    } else {
      MarkersSkip(a[1..], x, b, c, w);
      assert (a + [x] + b)[1..] == a[1..] + [x] + b && (a + b)[1..] == a[1..] + b;
    }
  }

  /** What one more refused claim makes of the verdict of the second pass. */
  function WithRefusal(r: Result<Verdict, WatchError>): Result<Verdict, WatchError> {
    if r == Ok(Pending) then Ok(Mismatch) else r
  }

  /** The flags choose between the two negative answers and nothing else. */
  lemma {:induction false} FlagsChoose(ps: seq<R.Entry>, mismatch: bool, unbounded: bool, c: Charge, w: World)
    requires AllSigned(ps)
    ensures var r := ScanPayments(ps, false, false, c, w);
            ScanPayments(ps, mismatch, unbounded, c, w) == if mismatch || unbounded then WithRefusal(r) else r
  {
    hide PaymentStep;
    if ps != [] {
      assert AllSigned(ps[1..]);
      FlagsChoose(ps[1..], true, unbounded, c, w);
      FlagsChoose(ps[1..], mismatch, true, c, w);
      FlagsChoose(ps[1..], true, false, c, w);
      FlagsChoose(ps[1..], false, true, c, w);
    }
  }

  lemma {:induction false} PaymentsSkip(a: seq<R.Entry>, x: R.Entry, b: seq<R.Entry>, mismatch: bool, unbounded: bool, c: Charge, w: World)
    requires AllSigned(a + b) && x.signature.Some?
    requires PaymentStep(x, c, w) == Ok(Refused) || PaymentStep(x, c, w) == Ok(Unbounded)
    ensures AllSigned(a + [x] + b)
    ensures ScanPayments(a + [x] + b, mismatch, unbounded, c, w) == WithRefusal(ScanPayments(a + b, mismatch, unbounded, c, w))
  {
    hide PaymentStep;
    SignedInsert(a, x, b);
    if a == [] {
      assert (a + [x] + b)[1..] == b && a + b == b;
      FlagsChoose(b, mismatch, unbounded, c, w);
      FlagsChoose(b, true, unbounded, c, w);
      FlagsChoose(b, mismatch, true, c, w);
    } else {
      assert (a + [x] + b)[1..] == a[1..] + [x] + b && (a + b)[1..] == a[1..] + b;
      PaymentsSkip(a[1..], x, b, true, unbounded, c, w);
      PaymentsSkip(a[1..], x, b, mismatch, true, c, w);
    }
  }

  lemma SignedInsert(a: seq<R.Entry>, x: R.Entry, b: seq<R.Entry>)
    requires x.signature.Some?
    ensures AllSigned(a + [x] + b) <==> AllSigned(a + b)
  {
    var es, es' := a + b, a + [x] + b;
    if AllSigned(es) {
      forall i | 0 <= i < |es'| ensures es'[i].signature.Some? {
        assert es'[i] == if i < |a| then es[i] else if i == |a| then x else es[i - 1];
      }
    }
    if AllSigned(es') {
      forall i | 0 <= i < |es| ensures es[i].signature.Some? {
        assert es[i] == es'[if i < |a| then i else i + 1];
      }
    }
  }

  /**
   * Public traffic decides nothing: one more foreign entry, which mismatches if it is a claim, leaves every
   * verdict and every error as it was, wherever the listing shows it. Only `Pending` turns into `Mismatch`,
   * and only when the entry is a claim.
   */
  lemma ForeignIsInert(args: Args, a: seq<R.Entry>, x: R.Entry, b: seq<R.Entry>, w: World)
    requires Prepare(args, w.cfg).Ok? && |a + [x] + b| <= SIG_LIMIT
    requires x.signature.Some? && Foreign(x, Prepare(args, w.cfg).value)
    requires IsClaim(x, Prepare(args, w.cfg).value, w.parse) ==> Passed(x, Prepare(args, w.cfg).value, w)
    ensures var r := VerifySpec(args, Ok(a + b), w);
            VerifySpec(args, Ok(a + [x] + b), w) ==
            if IsClaim(x, Prepare(args, w.cfg).value, w.parse) then WithRefusal(r) else r
  {
    hide Prepare, IsClaim, Foreign, Passed, Select, ScanMarkers, ScanPayments;
    SignedInsert(a, x, b);
    if AllSigned(a + b) {
      PassesInert(a, x, b, Prepare(args, w.cfg).value, w);
      if a + b == [] {
        NothingListed(a + b, Prepare(args, w.cfg).value, w);
      }
    }
  }

  lemma NothingListed(es: seq<R.Entry>, c: Charge, w: World)
    requires es == []
    ensures ScanMarkers(Select(es, false, c, w.parse), c, w) == Ok(false)
    ensures ScanPayments(Select(es, true, c, w.parse), false, false, c, w) == Ok(Pending)
  {
  }

  /** Both passes, with the entry and without it. */
  lemma PassesInert(a: seq<R.Entry>, x: R.Entry, b: seq<R.Entry>, c: Charge, w: World)
    requires AllSigned(a + b) && AllSigned(a + [x] + b) && x.signature.Some?
    requires Foreign(x, c) && (IsClaim(x, c, w.parse) ==> Passed(x, c, w))
    ensures ScanMarkers(Select(a + [x] + b, false, c, w.parse), c, w) == ScanMarkers(Select(a + b, false, c, w.parse), c, w)
    ensures var r := ScanPayments(Select(a + b, true, c, w.parse), false, false, c, w);
            ScanPayments(Select(a + [x] + b, true, c, w.parse), false, false, c, w) == if IsClaim(x, c, w.parse) then WithRefusal(r) else r
  {
    hide IsClaim, Foreign, Passed, MarkerStep, PaymentStep, Select, ScanMarkers, ScanPayments;
    MarkerStepIff(x, c, w);
    SelectInsert(a, x, b, false, c, w.parse);
    SelectInsert(a, x, b, true, c, w.parse);
    var pa, pb := Select(a, true, c, w.parse), Select(b, true, c, w.parse);
    var ma, mb := Select(a, false, c, w.parse), Select(b, false, c, w.parse);
    if IsClaim(x, c, w.parse) {
      assert ma + [] + mb == ma + mb;
      SelectedSigned(a, b, c, w.parse);
      RefusedStep(x, c, w);
      PaymentsSkip(pa, x, pb, false, false, c, w);
    } else {
      assert pa + [] + pb == pa + pb;
      MarkersSkip(ma, x, mb, c, w);
    }
  }

  lemma RefusedStep(x: R.Entry, c: Charge, w: World)
    requires x.signature.Some? && IsClaim(x, c, w.parse) && Passed(x, c, w)
    ensures PaymentStep(x, c, w) == Ok(Refused) || PaymentStep(x, c, w) == Ok(Unbounded)
  {
    var p: Payment :| true;
    PaymentStepIff(x, c, w, p);
  }

  lemma SelectedSigned(a: seq<R.Entry>, b: seq<R.Entry>, c: Charge, parse: Parser)
    requires AllSigned(a + b)
    ensures AllSigned(Select(a, true, c, parse) + Select(b, true, c, parse))
  {
    hide IsClaim;
    var s := Select(a, true, c, parse) + Select(b, true, c, parse);
    SelectConcat(a, b, true, c, parse);
    forall i | 0 <= i < |s| ensures s[i].signature.Some? {
      assert s[i] in a + b;
    }
  }
}
