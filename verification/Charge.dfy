/**
 * plugins/kiosk-charge/src/charge.rs: the operator's section, and the charge of an item or a free amount.
 */
module Charge {
  import opened Wrappers
  import opened Json
  import opened Prices
  import A = Amount
  import Base58
  import Keys
  import M = Message
  import P = Payment
  import Url

  const DEFAULT_USDC_MINT: string := "EPjFWdd5AufqSS" + "qeM2qN1xzybapC" + "8G4wEGGkZwyTDt1v"
  const MAX_DECIMALS: nat := 18
  const LABEL_MAX_CHARS: nat := 64
  const NOTE_MAX_CHARS: nat := 64
  const PRICE_LIST_MAX_BYTES: nat := 4_096

  datatype ChargeError = ConfigError | ArgsError

  // ---- Characters of UTF-8 text ------------------------------------------------------------

  predicate Continues(c: char) {
    0x80 <= c as int < 0xC0
  }

  function CharCount(t: Text): nat {
    if t == "" then 0 else (if Continues(t[0]) then 0 else 1) + CharCount(t[1..])
  }

  /** The first `n` characters, never cutting one in two. */
  function TakeChars(t: Text, n: nat): (r: Text)
    ensures r <= t
  {
    if t == "" then ""
    else if Continues(t[0]) then [t[0]] + TakeChars(t[1..], n)
    else if n == 0 then "" else [t[0]] + TakeChars(t[1..], n - 1)
  }

  // ---- Configuration -----------------------------------------------------------------------

  /** A nonempty text parsed as an f64. */
  datatype Number = NotFinite | Finite(value: real)

  /** The operator's section; `prices` holds the entries of its price list and `listBytes` its size, none if it has no list. */
  datatype Section = Section(
    merchant: Option<string>,
    mint: Option<string>,
    decimals: Option<string>,
    maxAmount: Option<string>,
    prices: seq<Piece>,
    listBytes: nat,
    currency: Option<Text>,
    rate: Option<Number>,
    label_: Option<Text>)

  datatype Config = Config(
    merchant: string,
    mint: string,
    decimals: byte,
    prices: map<string, string>,
    maxAmount: string,
    currency: Option<Text>,
    rate: Option<real>,
    label_: Option<Text>)

  /** An absent or empty member takes its default. */
  function OrDefault(member: Option<string>, default_: string): string {
    if member.Some? && member.value != "" then member.value else default_
  }

  /** `token_decimals`, parsed as a u8 of at most 18. */
  function Decimals(member: Option<string>): (d: Option<byte>)
    ensures d.Some? ==> d.value <= MAX_DECIMALS
  {
    match P.ParseU64(OrDefault(member, "6"))
    case None => None
    case Some(n) => if n <= MAX_DECIMALS then Some(n) else None
  }

  function NonEmpty(member: Option<Text>): Option<Text> {
    if member.Some? && member.value != "" then member else None
  }

  /** A display rate is absent or a positive number. */
  predicate RateIs(member: Option<Number>, rate: Option<real>) {
    match member
    case None => rate.None?
    case Some(n) => n.Finite? && n.value > 0.0 && rate == Some(n.value)
  }

  /** `cfg` is what the section says. */
  predicate Loads(sec: Section, cfg: Config) {
    && sec.merchant == Some(cfg.merchant) && Base58.IsPubkey(cfg.merchant)
    && cfg.mint == OrDefault(sec.mint, DEFAULT_USDC_MINT) && Base58.IsPubkey(cfg.mint)
    && Decimals(sec.decimals) == Some(cfg.decimals)
    && A.CanonicalizeAmount(if sec.maxAmount.Some? then sec.maxAmount.value else "100", cfg.decimals) == Some(cfg.maxAmount)
    && sec.listBytes <= PRICE_LIST_MAX_BYTES && IsPriceMap(cfg.prices, sec.prices, CapCheck(cfg.decimals, cfg.maxAmount))
    && cfg.currency == NonEmpty(sec.currency) && RateIs(sec.rate, cfg.rate)
    && cfg.label_ == NonEmpty(sec.label_) && (cfg.label_.Some? ==> CharCount(cfg.label_.value) <= LABEL_MAX_CHARS)
  }

  /** `ChargeConfig::from_section`: the one configuration that the section describes, or a refusal. */
  method FromSection(sec: Section) returns (r: Option<Config>)
    ensures r.Some? ==> Loads(sec, r.value)
    ensures r.None? ==> forall cfg :: !Loads(sec, cfg)
  {
    hide A.CanonicalizeAmount, Base58.IsPubkey, CharCount;
    if sec.merchant.None? || !Base58.IsPubkey(sec.merchant.value) {
      return None;
    }
    var mint := OrDefault(sec.mint, DEFAULT_USDC_MINT);
    if !Base58.IsPubkey(mint) {
      return None;
    }
    var decimals := Decimals(sec.decimals);
    if decimals.None? {
      return None;
    }
    var maxAmount := A.CanonicalizeAmount(if sec.maxAmount.Some? then sec.maxAmount.value else "100", decimals.value);
    if maxAmount.None? {
      return None;
    }
    if sec.listBytes > PRICE_LIST_MAX_BYTES {
      return None;
    }
    var prices := PriceList(sec.prices, CapCheck(decimals.value, maxAmount.value));
    if prices.None? {
      return None;
    }
    var rate: Option<real> := None;
    if sec.rate.Some? {
      if !sec.rate.value.Finite? || sec.rate.value.value <= 0.0 {
        return None;
      }
      rate := Some(sec.rate.value.value);
    }
    var label_ := NonEmpty(sec.label_);
    if label_.Some? && CharCount(label_.value) > LABEL_MAX_CHARS {
      return None;
    }
    return Some(Config(sec.merchant.value, mint, decimals.value, prices.value, maxAmount.value,
                       NonEmpty(sec.currency), rate, label_));
  }

  // ---- The charge --------------------------------------------------------------------------

  datatype Args = Args(item: Option<string>, amount: Option<string>, note: Option<Text>)

  datatype Output = Output(
    url: string,
    reference: string,
    amount: string,
    item: Option<string>,
    recipient: string,
    mint: string,
    createdMs: nat)

  type Printer = Json -> Text

  /** The request that a charge renders: the operator's merchant and mint, and the binding memo of an item. */
  function RequestOf(cfg: Config, amount: string, item: Option<string>, note: Option<Text>, reference: string, print_: Printer)
    : Result<Url.TransferRequest, Url.PayError>
  {
    Url.NewRequest(cfg.merchant, amount, cfg.decimals, cfg.maxAmount, Some(cfg.mint), Some(reference), cfg.label_,
                   if note.Some? then Some(TakeChars(note.value, NOTE_MAX_CHARS)) else None,
                   if item.Some? then Some(print_(P.PaymentMemo(reference, item.value))) else None)
  }

  /** The item's price, or the free amount; the caller can only choose. */
  function Chosen(args: Args, cfg: Config): Option<string> {
    if args.item.Some? then (if args.item.value in cfg.prices then Some(cfg.prices[args.item.value]) else None)
    else args.amount
  }

  /** `execute_charge`. */
  function ExecuteCharge(args: Args, cfg: Config, reference32: M.Key, nowMs: nat, print_: Printer): Result<Output, ChargeError> {
    match Chosen(args, cfg)
    case None => Err(ArgsError)
    case Some(amount) =>
      var reference := Keys.Show(reference32);
      match RequestOf(cfg, amount, args.item, args.note, reference, print_)
      case Err(_) => Err(ArgsError)
      case Ok(request) =>
        Ok(Output(Url.UrlSpec(request), reference, amount, args.item, cfg.merchant, cfg.mint, nowMs))
  }

  // ---- What a charge is worth --------------------------------------------------------------

  /** The parameters of an item charge, in order, as a URL parser gives them back. */
  function ItemParams(cfg: Config, amount: string, item: string, note: Option<Text>, reference: string, print_: Printer)
    : seq<Url.Param>
  {
    [Url.Param("amount", amount), Url.Param("spl-token", cfg.mint), Url.Param("reference", reference)]
    + Url.Optional("label", cfg.label_)
    + Url.Optional("message", if note.Some? then Some(TakeChars(note.value, NOTE_MAX_CHARS)) else None)
    + [Url.Param("memo", print_(P.PaymentMemo(reference, item)))]
  }

  /**
   * Every item of a loaded price list can be charged, and the URL says exactly: the merchant, the
   * list price, the mint, the reference and the memo that binds reference and item.
   */
  lemma ItemCharge(sec: Section, cfg: Config, args: Args, reference32: M.Key, nowMs: nat, print_: Printer, plus: bool)
    requires Loads(sec, cfg) && args.item.Some?
    ensures if args.item.value in cfg.prices then ExecuteCharge(args, cfg, reference32, nowMs, print_).Ok?
            else ExecuteCharge(args, cfg, reference32, nowMs, print_) == Err(ArgsError)
    ensures args.item.value in cfg.prices ==>
              var out := ExecuteCharge(args, cfg, reference32, nowMs, print_).value;
              var price := cfg.prices[args.item.value];
              && out.amount == price && out.recipient == cfg.merchant && out.mint == cfg.mint
              && out.item == args.item && out.createdMs == nowMs && out.reference == Keys.Show(reference32)
              && Url.ParseUrl(out.url, plus) ==
                 Some(Url.Parsed(cfg.merchant, ItemParams(cfg, price, args.item.value, args.note, out.reference, print_), ""))
  {
    hide A.CanonicalizeAmount, A.ValidateAmount, A.AmountToBaseUnits, A.ClaimPattern, Base58.DecodePubkey, Keys.Show, Url.UrlSpec,
      Url.ParseUrl, IsPriceMap, TakeChars, CharCount, P.PaymentMemo, RequestOf, ItemParams, CapCheck, Decimals;
    var reference := Keys.Show(reference32);
    Keys.ShowDecodes(reference32);
    if args.item.value in cfg.prices {
      var price := cfg.prices[args.item.value];
      PricesAreCanonical(sec.prices, cfg.decimals, cfg.maxAmount, cfg.prices, args.item.value);
      ItemRequest(cfg, price, args.item.value, args.note, reference, print_, plus);
    }
  }

  lemma ItemRequest(cfg: Config, price: string, item: string, note: Option<Text>, reference: string, print_: Printer, plus: bool)
    requires Base58.IsPubkey(cfg.merchant) && Base58.IsPubkey(cfg.mint) && Base58.IsPubkey(reference)
    requires A.ValidateAmount(price, cfg.decimals, cfg.maxAmount) == Some(price)
    requires A.CanonicalizeAmount(price, cfg.decimals) == Some(price)
    ensures RequestOf(cfg, price, Some(item), note, reference, print_).Ok?
    ensures Url.ParseUrl(Url.UrlSpec(RequestOf(cfg, price, Some(item), note, reference, print_).value), plus) ==
            Some(Url.Parsed(cfg.merchant, ItemParams(cfg, price, item, note, reference, print_), ""))
  {
    hide A.CanonicalizeAmount, A.ValidateAmount, Base58.IsPubkey, Url.UrlSpec, Url.ParseUrl, TakeChars, P.PaymentMemo, ItemParams;
    var message := if note.Some? then Some(TakeChars(note.value, NOTE_MAX_CHARS)) else None;
    var memo := print_(P.PaymentMemo(reference, item));
    Url.NewRequestRoundTrip(cfg.merchant, price, cfg.decimals, cfg.maxAmount, Some(cfg.mint), Some(reference), cfg.label_,
                            message, Some(memo), plus);
    SamePlain(RequestOf(cfg, price, Some(item), note, reference, print_).value, cfg, price, item, note, print_);
  }

  lemma SamePlain(r: Url.TransferRequest, cfg: Config, price: string, item: string, note: Option<Text>, print_: Printer)
    requires r.amount == price && r.splToken == Some(cfg.mint) && r.reference.Some? && r.label_ == cfg.label_
    requires r.message == if note.Some? then Some(TakeChars(note.value, NOTE_MAX_CHARS)) else None
    requires r.memo == Some(print_(P.PaymentMemo(r.reference.value, item)))
    ensures Url.PlainParams(r) == ItemParams(cfg, price, item, note, r.reference.value, print_)
  {
    hide TakeChars, P.PaymentMemo;
  }

  /** The longest beginning of the text that has at most `n` characters. */
  lemma {:induction false} TakenIs(t: Text, n: nat)
    ensures var r := TakeChars(t, n);
            && r == t[..|r|] && CharCount(r) == (if CharCount(t) < n then CharCount(t) else n)
            && (|r| < |t| ==> CharCount(r) == n && !(0x80 <= t[|r|] as int < 0xC0))
  {
    if t != "" {
      var r := TakeChars(t, n);
      var m: nat := if 0x80 <= t[0] as int < 0xC0 then n else if n == 0 then 0 else n - 1;
      TakenIs(t[1..], m);
      if r != "" {
        assert r[1..] == TakeChars(t[1..], m);
      }
    }
  }

  /**
   * A free amount can be charged exactly when it is one and within the operator's cap; the URL then asks for its
   * canonical form, with the first 64 characters of the note, and binds no item.
   */
  lemma FreeCharge(sec: Section, cfg: Config, args: Args, reference32: M.Key, nowMs: nat, print_: Printer, plus: bool)
    requires Loads(sec, cfg) && args.item.None?
    ensures var r := ExecuteCharge(args, cfg, reference32, nowMs, print_);
            if args.amount.Some? && A.ValidateAmount(args.amount.value, cfg.decimals, cfg.maxAmount).Some? then
              && r.Ok? && r.value.amount == args.amount.value && r.value.item.None? && r.value.createdMs == nowMs
              && r.value.recipient == cfg.merchant && r.value.mint == cfg.mint && r.value.reference == Keys.Show(reference32)
              && Url.ParseUrl(r.value.url, plus) == Some(Url.Parsed(
                   cfg.merchant,
                   [Url.Param("amount", A.ValidateAmount(args.amount.value, cfg.decimals, cfg.maxAmount).value),
                    Url.Param("spl-token", cfg.mint), Url.Param("reference", Keys.Show(reference32))]
                   + (if cfg.label_.Some? then [Url.Param("label", cfg.label_.value)] else [])
                   + (if args.note.Some? then [Url.Param("message", TakeChars(args.note.value, 64))] else []),
                   ""))
            else r == Err(ArgsError)
  {
    hide A.ValidateAmount, Base58.DecodePubkey, Keys.Show, Url.UrlSpec, Url.ParseUrl, IsPriceMap, TakeChars, CharCount, CapCheck,
      Decimals, A.CanonicalizeAmount, Url.PlainParams;
    Keys.ShowDecodes(reference32);
    if args.amount.Some? {
      FreeRequest(cfg, args.amount.value, args.note, Keys.Show(reference32), print_, plus);
    }
  }

  lemma FreeRequest(cfg: Config, amount: string, note: Option<Text>, reference: string, print_: Printer, plus: bool)
    requires Base58.IsPubkey(cfg.merchant) && Base58.IsPubkey(cfg.mint) && Base58.IsPubkey(reference)
    ensures var r, a := RequestOf(cfg, amount, None, note, reference, print_), A.ValidateAmount(amount, cfg.decimals, cfg.maxAmount);
            && (r.Ok? <==> a.Some?)
            && (a.Some? ==> Url.ParseUrl(Url.UrlSpec(r.value), plus) == Some(Url.Parsed(
                  cfg.merchant,
                  [Url.Param("amount", a.value), Url.Param("spl-token", cfg.mint), Url.Param("reference", reference)]
                  + (if cfg.label_.Some? then [Url.Param("label", cfg.label_.value)] else [])
                  + (if note.Some? then [Url.Param("message", TakeChars(note.value, 64))] else []),
                  "")))
  {
    hide A.CanonicalizeAmount, A.ValidateAmount, Base58.IsPubkey, Url.UrlSpec, Url.ParseUrl, TakeChars;
    var r := RequestOf(cfg, amount, None, note, reference, print_);
    if r.Ok? {
      var message := if note.Some? then Some(TakeChars(note.value, NOTE_MAX_CHARS)) else None;
      Url.NewRequestRoundTrip(cfg.merchant, amount, cfg.decimals, cfg.maxAmount, Some(cfg.mint), Some(reference), cfg.label_,
                              message, None, plus);
      assert Url.PlainParams(r.value) ==
        [Url.Param("amount", r.value.amount), Url.Param("spl-token", cfg.mint), Url.Param("reference", reference)]
        + (if cfg.label_.Some? then [Url.Param("label", cfg.label_.value)] else [])
        + (if note.Some? then [Url.Param("message", TakeChars(note.value, 64))] else []);
    }
  }
}
