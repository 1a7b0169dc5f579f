/** From a charge to its pulse, through every program between. */
module EndToEnd {
  // A charge of plugins/kiosk-charge, its order from scripts/trusted-charge-handoff.mjs, an honest
  // wallet's payment, its verdict from plugins/kiosk-watch, the claim of scripts/trusted-order-claim.mjs
  // and the pulse of scripts/actuator.mjs.

  import opened Wrappers
  import opened Json
  import opened Balances
  import A = Amount
  import Act = Actuator
  import Ch = Charge
  import Cl = Claim
  import Co = Conservation
  import H = Handoff
  import K = Keys
  import P = Payment
  import R = Rpc
  import Receipt
  import Spelling
  import U = Url
  import W = Watch
  import WC = WatchConfig
  import Prices

  // ---- One shop ----------------------------------------------------------------------------

  /** The verifier's section is the one that the handoff compared with the charge's. */
  predicate SameWatchSection(ps: H.PluginSection, sec: WC.Section) {
    && ps.merchant == sec.merchant && ps.mint == sec.mint && ps.decimals == sec.decimals && ps.window == sec.window
    && sec.prices == if ps.prices.Some? then ps.prices.value else []
  }

  /** The operator's files and the configurations loaded from them. */
  datatype Shop = Shop(charge: Ch.Section, ccfg: Ch.Config, watch: WC.Section, wcfg: P.Config, files: H.Config)

  predicate IsShop(s: Shop) {
    && Ch.Loads(s.charge, s.ccfg) && WC.Loads(s.watch, s.wcfg)
    && H.SameSection(s.files.charge, s.charge) && SameWatchSection(s.files.watch, s.watch)
  }

  /** Files that pass the handoff configure charge and verifier alike. */
  lemma ShopsAgree(s: Shop, item: string)
    requires IsShop(s) && item in s.ccfg.prices && H.ShopAgrees(s.files, item, s.ccfg.prices[item])
    ensures s.wcfg.merchant == s.ccfg.merchant && s.wcfg.mint == s.ccfg.mint && s.wcfg.decimals == s.ccfg.decimals
    ensures Some(s.wcfg.windowS) == H.Window(s.files)
    ensures item in s.wcfg.prices && s.wcfg.prices[item] == s.ccfg.prices[item]
  {
    hide A.CanonicalizeAmount, A.ValidateAmount, A.JsDecimal, K.Base58.DecodePubkey, Ch.CharCount, Prices.IsPriceMap, Prices.Listable,
      Prices.PriceFor, A.NatOf;
    H.SameDecimals(s.files, s.charge, s.ccfg);
    Prices.WatchAndHandoffAgree(s.watch.prices, s.wcfg.decimals, s.wcfg.prices);
    Prices.PriceForIs(s.wcfg.prices, s.watch.prices, Prices.JsCheck(s.wcfg.decimals), item);
  }

  // ---- An honest wallet --------------------------------------------------------------------

  /**
   * A wallet that paid what the URL says: one transferChecked of the amount in the mint from account `s`
   * to account `d`, the recipient's, attaching the reference, after the memo; `s` is not the recipient's.
   */
  ghost predicate WalletPaid(tx: R.Transaction, u: U.Parsed, decimals: byte, units: nat, payer: string, s: nat, d: nat) {
    && Receipt.Named(tx) && tx.slot.Some?
    && H.Value(u.params, "spl-token").Some? && H.Value(u.params, "reference").Some? && H.Value(u.params, "memo").Some?
    && (var amount := H.Value(u.params, "amount"); amount.Some? && A.AmountToBaseUnits(amount.value, decimals) == Some(units))
    && var mint, reference := H.Value(u.params, "spl-token").value, H.Value(u.params, "reference").value;
    && Receipt.Attached(Receipt.KeysOf(tx), reference)
    && PaysInOrder(tx, H.Value(u.params, "memo").value)
    && (var ixs := tx.message.value.instructions.value;
        Receipt.Transfers(ixs[|ixs| - 1], Receipt.KeysOf(tx), reference, mint, units, decimals, payer, d))
    && exists pre, post :: Receipt.Shows(tx, pre, post) && PaysInto(pre, post, s, d, units, u.path, mint, decimals)
  }

  /** Compute-budget instructions, the memo, and one more instruction. */
  predicate PaysInOrder(tx: R.Transaction, memo: string) {
    && tx.message.Some? && tx.message.value.instructions.Some?
    && var ixs := tx.message.value.instructions.value;
    && |ixs| >= 2
    && (forall i :: 0 <= i < |ixs| - 2 ==> ixs[i].programId == Some(Spelling.COMPUTE_BUDGET))
    && ixs[|ixs| - 2] == R.Instruction(Some("spl-memo"), Some(Spelling.MEMO), Str(memo))
  }

  /** The units went from an account that is not the recipient's to one that is, all of them in one scale. */
  ghost predicate PaysInto(pre: seq<Balance>, post: seq<Balance>, s: nat, d: nat, units: nat, recipient: string, mint: string,
                           decimals: byte)
  {
    && Transferred(pre, post, s, d, units)
    && BalanceAt(pre, d).value.owner == recipient && BalanceAt(pre, d).value.mint == mint
    && BalanceAt(pre, s).value.owner != recipient
    && forall i :: 0 <= i < |pre| && pre[i].owner == recipient && pre[i].mint == mint ==> pre[i].decimals == decimals
  }

  /** One outside transfer into a merchant account is a credit of exactly that amount. */
  lemma TransferCredits(pre: seq<Balance>, post: seq<Balance>, s: nat, d: nat, units: nat, cfg: P.Config)
    requires OneEach(pre) && OneEach(post) && PaysInto(pre, post, s, d, units, cfg.merchant, cfg.mint, cfg.decimals)
    ensures Receipt.Gained(pre, post, d, cfg, units)
  {
    DeltaExact(pre, post, s, d, units, cfg.merchant, cfg.mint);
    Receipt.HoldingsIff(pre, cfg.merchant, cfg.mint);
    Receipt.HoldingsIff(post, cfg.merchant, cfg.mint);
    assert BalanceAt(post, d) == After(pre, s, d, units, d);
    hide Total, BalanceAt, OneEach, Receipt.Holdings;
    forall i | 0 <= i < |post|
      ensures exists j :: 0 <= j < |pre| && pre[j].index == post[i].index
      ensures post[i].owner == cfg.merchant && post[i].mint == cfg.mint ==> post[i].decimals == cfg.decimals
    {
      BalanceAtIs(post, i);
      WasThere(pre, s, d, units, post[i]);
    }
  }

  /** Whatever an account holds afterwards, it held some amount of the same before. */
  lemma WasThere(pre: seq<Balance>, s: nat, d: nat, units: nat, b: Balance)
    requires BalanceAt(pre, s).Some? && BalanceAt(pre, d).Some? && BalanceAt(pre, s).value.amount >= units
    requires After(pre, s, d, units, b.index) == Some(b)
    ensures exists j :: 0 <= j < |pre| && pre[j] == b.(amount := pre[j].amount)
  {
    var was := BalanceAt(pre, b.index).value;
    var j :| 0 <= j < |pre| && pre[j] == was;
  }

  /** The payment that an honest wallet's transaction is, for the verifier. */
  function HonestPayment(tx: R.Transaction, c: W.Charge, payer: string, signature: string, blockTimeS: nat, cfg: P.Config): P.Payment
    requires tx.slot.Some?
  {
    P.Payment(payer, signature, tx.slot.value, blockTimeS, c.reference, c.item, c.amount, cfg.merchant, cfg.mint, cfg.decimals, cfg.windowS)
  }

  /** The URL binds this charge: recipient, price, mint, reference and the parsed memo. */
  predicate UrlOf(u: U.Parsed, c: W.Charge, cfg: P.Config, parse: Parser) {
    && u.path == cfg.merchant && H.Value(u.params, "amount") == Some(c.amount) && H.Value(u.params, "spl-token") == Some(cfg.mint)
    && H.Value(u.params, "reference") == Some(c.reference)
    && H.Value(u.params, "memo").Some? && parse(H.Value(u.params, "memo").value) == Some(P.PaymentMemo(c.reference, c.item))
  }

  /** The verifier finds an honest wallet's transaction `Paid`, for the amount that the URL asked. */
  lemma WalletVerifies(tx: R.Transaction, u: U.Parsed, units: nat, payer: string, s: nat, d: nat, c: W.Charge, cfg: P.Config,
                       parse: Parser, signature: string, blockTimeS: nat)
    requires WalletPaid(tx, u, cfg.decimals, units, payer, s, d) && UrlOf(u, c, cfg, parse)
    requires |Receipt.KeysOf(tx)| <= U64_MAX
    ensures P.InspectSpec(Some(tx), W.ClaimFor(c, signature, blockTimeS), cfg, parse) ==
            Ok(P.Paid(HonestPayment(tx, c, payer, signature, blockTimeS, cfg)))
  {
    hide P.InspectSpec, WalletPaid, UrlOf, Receipt.IsReceipt, Receipt.Undecidable, HonestPayment, W.ClaimFor;
    WalletIsReceipt(tx, u, units, payer, s, d, c, cfg, parse, signature, blockTimeS);
    Receipt.InspectIff(Some(tx), W.ClaimFor(c, signature, blockTimeS), cfg, parse);
  }

  lemma WalletIsReceipt(tx: R.Transaction, u: U.Parsed, units: nat, payer: string, s: nat, d: nat, c: W.Charge, cfg: P.Config,
                        parse: Parser, signature: string, blockTimeS: nat)
    requires WalletPaid(tx, u, cfg.decimals, units, payer, s, d) && UrlOf(u, c, cfg, parse)
    requires |Receipt.KeysOf(tx)| <= U64_MAX
    ensures Receipt.IsReceipt(Some(tx), W.ClaimFor(c, signature, blockTimeS), cfg,
                              HonestPayment(tx, c, payer, signature, blockTimeS, cfg), parse)
  {
    var claim := W.ClaimFor(c, signature, blockTimeS);
    hide A.AmountToBaseUnits, P.PaymentMemo, H.Value, PaysInOrder, PaysInto, Receipt.Transfers, Receipt.Gained,
      Receipt.Attached, Receipt.SetUp, Receipt.Shows;
    var pre, post :| Receipt.Shows(tx, pre, post) && PaysInto(pre, post, s, d, units, u.path, cfg.mint, cfg.decimals);
    ShownOneEach(tx, pre, post);
    TransferCredits(pre, post, s, d, units, cfg);
    SetUpOf(tx, c, H.Value(u.params, "memo").value, parse);
    assert Receipt.Orders(tx, claim, cfg, units, payer, d, parse);
    assert Receipt.Settles(tx, claim, cfg, payer, parse);
  }

  lemma ShownOneEach(tx: R.Transaction, pre: seq<Balance>, post: seq<Balance>)
    requires Receipt.Named(tx) && Receipt.Shows(tx, pre, post)
    ensures OneEach(pre) && OneEach(post)
  {
  }

  lemma SetUpOf(tx: R.Transaction, c: W.Charge, memo: string, parse: Parser)
    requires PaysInOrder(tx, memo) && parse(memo) == Some(P.PaymentMemo(c.reference, c.item))
    ensures tx.message.Some? && tx.message.value.instructions.Some?
    ensures Receipt.SetUp(tx.message.value.instructions.value, c.reference, c.item, parse)
  {
    Spelling.SpelledMemo();
  }

  // ---- Verdict -----------------------------------------------------------------------------

  /** The listing entry of that transaction: in time, quoting the memo, and not the device's own. */
  predicate ListsPayment(e: R.Entry, tx: R.Transaction, memo: string, signature: string, blockTimeS: nat, c: W.Charge, now: nat) {
    && e.signature == Some(signature) && e.answer == Ok(Some(tx)) && e.blockTime == Some(blockTimeS)
    && W.InTime(Some(blockTimeS), now) && W.MemoPayload(e) == Some(memo)
    && !P.Signs(P.KeysOf(Some(tx)), c.dev.authority)
  }

  lemma OutsiderIsForeign(e: R.Entry, tx: R.Transaction, c: W.Charge)
    requires e.answer == Ok(Some(tx)) && Receipt.Named(tx)
    requires !P.Signs(P.KeysOf(Some(tx)), c.dev.authority)
    ensures W.Foreign(e, c)
  {
    hide P.Signs, BalancesSpec, P.AttachedOnce;
  }

  /**
   * A payment made from the URL is found `Paid`, whatever foreign traffic is listed with it, as long
   * as it is among the listed entries and no newer claim verifies.
   */
  lemma HonestIsPaid(args: W.Args, es: seq<R.Entry>, k: nat, w: W.World, tx: R.Transaction, u: U.Parsed, units: nat, payer: string,
                     s: nat, d: nat, signature: string, blockTimeS: nat)
    requires W.Listed(args, Ok(es), w) && k < |es|
    requires WalletPaid(tx, u, w.cfg.decimals, units, payer, s, d) && UrlOf(u, W.Prepare(args, w.cfg).value, w.cfg, w.parse)
    requires ListsPayment(es[k], tx, H.Value(u.params, "memo").value, signature, blockTimeS, W.Prepare(args, w.cfg).value, w.now)
    requires W.AllForeign(es, |es|, W.Prepare(args, w.cfg).value, w) && W.AllPassed(es, k, W.Prepare(args, w.cfg).value, w)
    requires |Receipt.KeysOf(tx)| <= U64_MAX
    ensures W.VerifySpec(args, Ok(es), w) ==
            Ok(P.Paid(HonestPayment(tx, W.Prepare(args, w.cfg).value, payer, signature, blockTimeS, w.cfg)))
  {
    hide W.VerifySpec, W.Prepare, W.AllForeign, W.AllPassed, W.Listed;
    ListedParts(args, es, w);
    var c := W.Prepare(args, w.cfg).value;
    var p := HonestPayment(tx, c, payer, signature, blockTimeS, w.cfg);
    PaidEntry(es, k, c, w, tx, u, units, payer, s, d, signature, blockTimeS);
    hide WalletPaid, W.PaidAt;
    W.PaidIff(args, Ok(es), w, p);
  }

  lemma ListedParts(args: W.Args, es: seq<R.Entry>, w: W.World)
    requires W.Listed(args, Ok(es), w)
    ensures W.Prepare(args, w.cfg).Ok?
  {
  }

  lemma PaidEntry(es: seq<R.Entry>, k: nat, c: W.Charge, w: W.World, tx: R.Transaction, u: U.Parsed, units: nat, payer: string,
                  s: nat, d: nat, signature: string, blockTimeS: nat)
    requires k < |es| && WalletPaid(tx, u, w.cfg.decimals, units, payer, s, d) && UrlOf(u, c, w.cfg, w.parse)
    requires ListsPayment(es[k], tx, H.Value(u.params, "memo").value, signature, blockTimeS, c, w.now)
    requires W.AllPassed(es, k, c, w) && |Receipt.KeysOf(tx)| <= U64_MAX
    ensures W.PaidAt(es, k, c, w, HonestPayment(tx, c, payer, signature, blockTimeS, w.cfg))
  {
    hide P.InspectSpec, P.Signs, Receipt.Transfers, Receipt.Attached, PaysInto, PaysInOrder, W.MemoPayload, P.PaymentMemo,
      H.Value, A.AmountToBaseUnits, W.AllPassed, W.Foreign;
    WalletVerifies(tx, u, units, payer, s, d, c, w.cfg, w.parse, signature, blockTimeS);
    OutsiderIsForeign(es[k], tx, c);
  }

  // ---- Claim and pulse ---------------------------------------------------------------------

  /** The URL of an item charge is the one that the verifier's charge expects. */
  lemma ChargeUrl(shop: Shop, args: Ch.Args, reference32: Ch.M.Key, nowMs: nat, print_: Ch.Printer, parse: Parser, c: W.Charge)
    requires IsShop(shop) && args.item.Some? && args.item.value in shop.ccfg.prices
    requires H.ShopAgrees(shop.files, args.item.value, shop.ccfg.prices[args.item.value])
    requires c.reference == K.Show(reference32) && c.item == args.item.value && c.item in shop.wcfg.prices
    requires c.amount == shop.wcfg.prices[c.item]
    requires var memo := P.PaymentMemo(c.reference, c.item); parse(print_(memo)) == Some(memo)
    ensures Ch.ExecuteCharge(args, shop.ccfg, reference32, nowMs, print_).Ok?
    ensures var u := U.ParseUrl(Ch.ExecuteCharge(args, shop.ccfg, reference32, nowMs, print_).value.url, false);
            u.Some? && UrlOf(u.value, c, shop.wcfg, parse)
  {
    hide IsShop, H.ShopAgrees, U.ParseUrl, Ch.ExecuteCharge, P.PaymentMemo, K.Show, H.Value, Ch.TakeChars, Ch.Loads, H.ParamsOk,
      Ch.ItemParams, UrlOf;
    ShopLoads(shop);
    Ch.ItemCharge(shop.charge, shop.ccfg, args, reference32, nowMs, print_, false);
    ShopsAgree(shop, args.item.value);
    ItemUrlOf(shop.ccfg, shop.wcfg, args.note, print_, parse, c);
  }

  lemma ShopLoads(shop: Shop)
    requires IsShop(shop)
    ensures Ch.Loads(shop.charge, shop.ccfg)
  {
    hide Ch.Loads, WC.Loads;
  }

  lemma ItemUrlOf(ccfg: Ch.Config, wcfg: P.Config, note: Option<Text>, print_: Ch.Printer, parse: Parser, c: W.Charge)
    requires ccfg.merchant == wcfg.merchant && ccfg.mint == wcfg.mint
    requires var memo := P.PaymentMemo(c.reference, c.item); parse(print_(memo)) == Some(memo)
    ensures UrlOf(U.Parsed(wcfg.merchant, Ch.ItemParams(ccfg, c.amount, c.item, note, c.reference, print_), ""), c, wcfg, parse)
  {
    hide P.PaymentMemo, H.Value, Ch.TakeChars, H.ParamsOk;
    var message := if note.Some? then Some(Ch.TakeChars(note.value, Ch.NOTE_MAX_CHARS)) else None;
    var memo := print_(P.PaymentMemo(c.reference, c.item));
    var middle := U.Optional("label", ccfg.label_) + U.Optional("message", message);
    H.ItemParamsBind(c.amount, ccfg.mint, c.reference, middle, memo);
    assert Ch.ItemParams(ccfg, c.amount, c.item, note, c.reference, print_) ==
      [U.Param("amount", c.amount), U.Param("spl-token", ccfg.mint), U.Param("reference", c.reference)]
      + middle + [U.Param("memo", memo)];
  }

  /**
   * The claim accepts the verified payment of a handed-off charge exactly when the payment landed
   * inside the quote, its slot is a positive safe integer and signature and payer are well formed.
   */
  lemma ClaimAcceptsIff(shop: Shop, args: Ch.Args, out: Ch.Output, sha256: string, p: P.Payment, watch: Json, order: Json, text: Cl.ToText)
    requires IsShop(shop) && args.item.Some? && args.item.value in shop.ccfg.prices
    requires H.ShopAgrees(shop.files, args.item.value, shop.ccfg.prices[args.item.value])
    requires var o := H.OrderFor(shop.files, shop.ccfg, args, out, sha256);
             Cl.SoundOrder(o) && Cl.IsOrder(order, o) && Cl.IsWatchOutput(watch, p) && Cl.TextOfStrings(text, o, p)
    requires p.reference == out.reference && Some(p.item) == args.item && p.item in shop.wcfg.prices
    requires p == P.Payment(p.payer, p.signature, p.slot, p.blockTimeS, p.reference, p.item, shop.wcfg.prices[p.item],
                            shop.wcfg.merchant, shop.wcfg.mint, shop.wcfg.decimals, shop.wcfg.windowS)
    ensures Cl.Claimable(watch, order, text) <==>
            && Cl.SoundPayment(p)
            && Cl.InQuote(p.blockTimeS, out.createdMs, out.createdMs + H.Window(shop.files).value * 1000)
  {
    ShopsAgree(shop, args.item.value);
    var o := H.OrderFor(shop.files, shop.ccfg, args, out, sha256);
    hide Cl.Claimable, Cl.SoundOrder, Cl.IsOrder, Cl.IsWatchOutput, Cl.TextOfStrings, IsShop, H.ShopAgrees, Cl.SoundPayment, Cl.InQuote;
    Cl.ClaimableIff(watch, p, order, o, text);
  }

  /** The raw watch result of a run, wrapped or not, and the order file of its reference. */
  predicate OnFile(parse: Parser, s: Act.State, run: Act.Run, watch: Json, order: Json) {
    && |run.raw| <= Cl.MAX_BYTES && parse(run.raw).Some? && Cl.Unwrap(parse(run.raw).value, parse) == Some(watch)
    && run.reference in s.orders && |s.orders[run.reference]| <= Cl.MAX_BYTES && parse(s.orders[run.reference]) == Some(order)
  }

  /** A run's payment matches exactly when what it has on file is claimable. */
  lemma MatchesIff(parse: Parser, text: Cl.ToText, s: Act.State, run: Act.Run, watch: Json, order: Json)
    requires OnFile(parse, s, run, watch, order) && Get(watch, "reference") == Some(Str(run.reference))
    ensures Act.Matching(Co.ScriptEnv(parse, text), s, run) <==> Cl.Claimable(watch, order, text)
  {
    Co.ScriptMatching(parse, text, s, run);
    if Cl.Claimable(watch, order, text) {
      ClaimReference(watch, order, text, run.reference);
    }
    hide Cl.Claimable, Cl.Unwrap, Get, Act.Matching;
  }

  /** A claimable payment on file lets a run on a free and cooled host command its HIGH. */
  lemma ClaimableFires(parse: Parser, text: Cl.ToText, s: Act.State, pid: nat, run: Act.Run, watch: Json, order: Json, p: P.Payment)
    returns (path: seq<Act.State>)
    requires OnFile(parse, s, run, watch, order)
    requires Cl.Claimable(watch, order, text) && Cl.IsWatchOutput(watch, p) && p.reference == run.reference
    requires s.lock.None? && pid !in s.procs && !run.dry && run.reference !in s.claims
    requires 0 <= s.now <= MAX_SAFE_INTEGER && s.now - Act.LastPulse(s.journal) >= Act.COOLDOWN_MS
    ensures Act.Path(Co.ScriptEnv(parse, text), path) && path[0] == s
    ensures path[|path| - 1].highs == s.highs + [Act.High(pid, run.reference, s.now, true, Act.InFlight)]
  {
    Cl.WatchMembers(watch, p);
    MatchesIff(parse, text, s, run, watch, order);
    hide Cl.Claimable, Cl.IsWatchOutput, OnFile, Act.Matching, Act.LastPulse;
    path := Act.CanFire(Co.ScriptEnv(parse, text), s, pid, run, true);
  }

  lemma ClaimReference(watch: Json, order: Json, text: Cl.ToText, reference: string)
    requires Cl.Claimable(watch, order, text) && Get(watch, "reference") == Some(Str(reference))
    ensures GetStr(order, "reference") == Some(reference) && K.Base58.IsPubkey(reference)
  {
    hide Cl.WatchShape, Cl.AmountMember, Cl.DecimalsMember, Cl.WindowMember, Cl.Timestamps, Cl.InQuote, Cl.SafeInt, Prices.IsItemId,
      Cl.IsSha256, K.Base58.DecodePubkey;
  }

  // ---- From the charged item to the HIGH -----------------------------------------------------

  /** The programs and files of one sale, and what passed between them. */
  datatype Sale = Sale(
    shop: Shop,
    parse: Parser,
    text: Cl.ToText,
    args: Ch.Args,                // the charge
    reference32: Ch.M.Key,
    chargedMs: nat,
    print_: Ch.Printer,
    out: Ch.Output,
    chargeRaw: string,            // its raw output, the handoff and the order
    sha256: string,
    quote: Cl.Order,
    order: Json,
    url: U.Parsed,                // the wallet
    tx: R.Transaction,
    units: nat,
    payer: string,
    from: nat,
    to: nat,
    charge: W.Charge,             // the verifier
    listing: seq<R.Entry>,
    k: nat,
    world: W.World,
    signature: string,
    blockTimeS: nat,
    payment: P.Payment,           // its verdict and machine output
    watch: Json)

  /** A listed item is charged at a shop. */
  predicate Charged(e: Sale) {
    && IsShop(e.shop) && Ch.ExecuteCharge(e.args, e.shop.ccfg, e.reference32, e.chargedMs, e.print_) == Ok(e.out)
    && e.args.item.Some? && e.args.item.value in e.shop.ccfg.prices
    && (var memo := P.PaymentMemo(K.Show(e.reference32), e.args.item.value); e.parse(e.print_(memo)) == Some(memo))
  }

  /** The handoff takes the raw output of the charge, wrapped or not, and writes an order file. */
  predicate HandedOff(e: Sale) {
    && H.Open(e.chargeRaw, e.parse).Some? && H.IsChargeOutput(H.Open(e.chargeRaw, e.parse).value, e.out)
    && Cl.IsSha256(e.sha256) && H.HandoffSpec(e.chargeRaw, e.shop.files, e.parse, e.sha256) == Some(e.quote)
    && Cl.IsOrder(e.order, e.quote)
  }

  /** The wallet paid what the parsed URL of the charge says. */
  ghost predicate PaidFromUrl(e: Sale) {
    && U.ParseUrl(e.out.url, false) == Some(e.url)
    && WalletPaid(e.tx, e.url, e.shop.wcfg.decimals, e.units, e.payer, e.from, e.to)
    && |Receipt.KeysOf(e.tx)| <= U64_MAX
  }

  /** The verifier's listing shows that transaction among foreign traffic, below no claim that verifies. */
  ghost predicate Listing(e: Sale) {
    && e.world.cfg == e.shop.wcfg && e.world.parse == e.parse
    && W.Prepare(Asked(e), e.shop.wcfg) == Ok(e.charge)
    && W.Listed(Asked(e), Ok(e.listing), e.world) && e.k < |e.listing|
    && H.Value(e.url.params, "memo").Some?
    && ListsPayment(e.listing[e.k], e.tx, H.Value(e.url.params, "memo").value, e.signature, e.blockTimeS, e.charge, e.world.now)
    && W.AllForeign(e.listing, |e.listing|, e.charge, e.world) && W.AllPassed(e.listing, e.k, e.charge, e.world)
  }

  /** What the verifier is asked. */
  function Asked(e: Sale): W.Args {
    W.Args(Some(e.out.reference), e.args.item)
  }

  /** The payment that the transaction is; the watch result reports it if that is the verdict. */
  ghost predicate Reported(e: Sale) {
    && e.tx.slot.Some? && e.payment == HonestPayment(e.tx, e.charge, e.payer, e.signature, e.blockTimeS, e.shop.wcfg)
    && (IsVerdict(e) ==> Cl.IsWatchOutput(e.watch, e.payment))
    && forall s :: e.text(Str(s)) == s
  }

  /** The verifier's verdict is `Paid`, by this payment. */
  predicate IsVerdict(e: Sale) {
    W.VerifySpec(Asked(e), Ok(e.listing), e.world) == Ok(P.Paid(e.payment))
  }

  /** It is at the list price. */
  predicate AtListPrice(e: Sale) {
    e.args.item.Some? && e.args.item.value in e.shop.ccfg.prices && e.payment.amount == e.shop.ccfg.prices[e.args.item.value]
  }

  ghost predicate Sold(e: Sale) {
    Charged(e) && HandedOff(e) && PaidFromUrl(e) && Listing(e) && Reported(e)
  }

  /** The handoff wrote a sound order, of the charge. */
  lemma SaleOrder(e: Sale)
    requires Charged(e) && HandedOff(e)
    ensures Cl.SoundOrder(e.quote)
    ensures H.ShopAgrees(e.shop.files, e.args.item.value, e.shop.ccfg.prices[e.args.item.value])
    ensures e.quote == H.OrderFor(e.shop.files, e.shop.ccfg, e.args, e.out, e.sha256)
  {
    hide H.HandoffSpec, H.ShopAgrees, Cl.IsOrder, Cl.SoundOrder, H.IsChargeOutput, H.Open, P.PaymentMemo, K.Show,
      Ch.ExecuteCharge, Ch.Loads, WC.Loads, H.SameSection, Cl.IsSha256, H.SectionsAgree;
    H.HandoffIff(e.shop.charge, e.shop.ccfg, e.args, e.reference32, e.chargedMs, e.print_, e.chargeRaw, e.shop.files, e.parse, e.sha256);
    H.PersistedIsSound(e.chargeRaw, e.shop.files, e.parse, e.sha256);
  }

  lemma SaleOutput(e: Sale)
    requires Charged(e)
    ensures e.out.item == e.args.item && e.out.reference == K.Show(e.reference32) && e.out.createdMs == e.chargedMs
  {
    hide IsShop, P.PaymentMemo, K.Show, Ch.RequestOf;
  }

  /** The charge that the verifier looks for is the one that the URL asks for. */
  lemma SaleCharge(e: Sale)
    requires Charged(e) && PaidFromUrl(e) && Listing(e)
    requires H.ShopAgrees(e.shop.files, e.args.item.value, e.shop.ccfg.prices[e.args.item.value])
    ensures UrlOf(e.url, e.charge, e.shop.wcfg, e.parse)
    ensures e.charge.reference == e.out.reference && Some(e.charge.item) == e.args.item
    ensures e.charge.item in e.shop.wcfg.prices && e.charge.amount == e.shop.wcfg.prices[e.charge.item]
  {
    SaleOutput(e);
    hide IsShop, H.ShopAgrees, P.PaymentMemo, K.Show, Ch.ExecuteCharge, U.ParseUrl, UrlOf, K.Base58.DecodePubkey, WalletPaid,
      ListsPayment, W.Listed, W.AllForeign, W.AllPassed;
    ChargeUrl(e.shop, e.args, e.reference32, e.chargedMs, e.print_, e.parse, e.charge);
  }

  /** The verifier finds the sale's transaction `Paid`. */
  lemma SaleVerdict(e: Sale)
    requires PaidFromUrl(e) && Listing(e) && Reported(e) && UrlOf(e.url, e.charge, e.shop.wcfg, e.parse)
    ensures IsVerdict(e)
  {
    hide WalletPaid, ListsPayment, W.Listed, W.VerifySpec, W.AllForeign, W.AllPassed, U.ParseUrl, H.Value, P.KeysOf, W.Prepare, UrlOf,
      Cl.IsWatchOutput;
    HonestIsPaid(Asked(e), e.listing, e.k, e.world, e.tx, e.url, e.units, e.payer, e.from, e.to, e.signature, e.blockTimeS);
  }

  /** The claim script finds payment and order of a sale claimable exactly when the payment landed inside the quote. */
  lemma SaleClaimable(e: Sale)
    requires Sold(e)
    ensures IsVerdict(e) && AtListPrice(e) && Get(e.watch, "reference") == Some(Str(e.out.reference))
    ensures Cl.Claimable(e.watch, e.order, e.text)
            <==> Cl.SoundPayment(e.payment) && Cl.InQuote(e.payment.blockTimeS, e.quote.createdMs, e.quote.expiresMs)
  {
    hide IsShop, H.ShopAgrees, H.SectionsAgree, H.HandoffSpec, H.Open, H.IsChargeOutput, Cl.IsWatchOutput, Cl.IsOrder, Cl.IsSha256,
      Cl.SoundOrder, Cl.Claimable, PaidFromUrl, Listing, P.PaymentMemo, K.Show, Cl.InQuote, Cl.SoundPayment, Get, H.Window,
      W.VerifySpec, Ch.ExecuteCharge, UrlOf;
    SaleOrder(e);
    SaleCharge(e);
    SaleVerdict(e);
    ShopsAgree(e.shop, e.args.item.value);
    Cl.WatchMembers(e.watch, e.payment);
    ClaimAcceptsIff(e.shop, e.args, e.out, e.sha256, e.payment, e.watch, e.order, e.text);
  }

  /**
   * From a charged item to its HIGH, through every program. Once the wallet has paid from the charge's URL,
   * the verifier's verdict is `Paid` at the list price, and a run with that result on a reachable host whose
   * lock is free
   *  - matches exactly when the payment landed inside the quote, in a slot and under names that the claim takes;
   *  - and can then command its HIGH at a time exactly when the cooldown is over by then.
   */
  lemma ChargeToPulse(e: Sale, run: seq<Act.State>, i: nat, pid: nat, r: Act.Run, at: int)
    requires Act.Execution(Co.ScriptEnv(e.parse, e.text), run) && i < |run|
    requires r.reference == e.out.reference && !r.dry && OnFile(e.parse, run[i], r, e.watch, e.order)
    requires run[i].lock.None? && pid !in run[i].procs && r.reference !in run[i].claims
    requires run[i].now <= at && 0 <= at <= MAX_SAFE_INTEGER && Sold(e)
    ensures IsVerdict(e) && AtListPrice(e)
    ensures Act.Matching(Co.ScriptEnv(e.parse, e.text), run[i], r)
            <==> Cl.SoundPayment(e.payment) && Cl.InQuote(e.payment.blockTimeS, e.quote.createdMs, e.quote.expiresMs)
    ensures Act.Matching(Co.ScriptEnv(e.parse, e.text), run[i], r) ==>
              (Act.CanHighAt(Co.ScriptEnv(e.parse, e.text), run[i], pid, r.reference, at)
               <==> at - Act.LastPulse(run[i].journal) >= Act.COOLDOWN_MS)
  {
    hide Sold, OnFile, IsVerdict, AtListPrice, Act.Execution, Act.Matching, Act.CanHighAt, Act.LastPulse, Cl.SoundPayment, Cl.InQuote,
      Cl.Claimable;
    SaleClaimable(e);
    MatchesIff(e.parse, e.text, run[i], r, e.watch, e.order);
    if Act.Matching(Co.ScriptEnv(e.parse, e.text), run[i], r) {
      Act.CooldownIff(Co.ScriptEnv(e.parse, e.text), run, i, pid, r, at);
    }
  }
}
