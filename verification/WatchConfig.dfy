/**
 * plugins/kiosk-watch/src/watch.rs: the verifier's configuration, loaded from the operator's section.
 */
module WatchConfig {
  import opened Wrappers
  import opened Prices
  import Base58
  import Charge
  import P = Payment

  const MAX_WINDOW_S: nat := 86_400

  datatype Section = Section(
    rpcUrl: Option<string>,
    merchant: Option<string>,
    mint: Option<string>,
    decimals: Option<string>,
    prices: seq<Piece>,
    listBytes: nat,
    authority: Option<string>,
    address: Option<string>,
    id: Option<string>,
    window: Option<string>,
    silence: Option<string>,
    finality: Option<string>)

  function NonEmpty(member: Option<string>): Option<string> {
    if member.Some? && member.value != "" then member else None
  }

  /** `policy_seconds`, for the quote's lifetime (by default 900) and the heartbeat's silence (1800). */
  function PolicySeconds(member: Option<string>, default_: string): (w: Option<nat>)
    ensures w.Some? ==> 1 <= w.value <= MAX_WINDOW_S
  {
    match P.ParseU64(Charge.OrDefault(member, default_))
    case None => None
    case Some(n) => if 1 <= n <= MAX_WINDOW_S then Some(n) else None
  }

  predicate PubkeyIfAny(member: Option<string>) {
    member.Some? ==> Base58.IsPubkey(member.value)
  }

  /** `cfg` is what the section says. */
  predicate Loads(sec: Section, cfg: P.Config) {
    && NonEmpty(sec.rpcUrl) == Some(cfg.rpcUrl)
    && sec.merchant == Some(cfg.merchant) && Base58.IsPubkey(cfg.merchant)
    && cfg.mint == Charge.OrDefault(sec.mint, Charge.DEFAULT_USDC_MINT) && Base58.IsPubkey(cfg.mint)
    && Charge.Decimals(sec.decimals) == Some(cfg.decimals)
    && sec.listBytes <= Charge.PRICE_LIST_MAX_BYTES && IsPriceMap(cfg.prices, sec.prices, WatchCheck(cfg.decimals))
    && cfg.authority == NonEmpty(sec.authority) && PubkeyIfAny(cfg.authority)
    && cfg.address == NonEmpty(sec.address) && PubkeyIfAny(cfg.address)
    && cfg.id == NonEmpty(sec.id) && (cfg.id.Some? ==> |cfg.id.value| <= 64)
    && PolicySeconds(sec.window, "900") == Some(cfg.windowS) && PolicySeconds(sec.silence, "1800") == Some(cfg.silenceS)
    && cfg.finality == Charge.OrDefault(sec.finality, "finalized")
    && (cfg.finality == "processed" || cfg.finality == "confirmed" || cfg.finality == "finalized")
  }

  /** `WatchConfig::from_section`: the one configuration that the section describes, or a refusal. */
  method FromSection(sec: Section) returns (r: Option<P.Config>)
    ensures r.Some? ==> Loads(sec, r.value)
    ensures r.None? ==> forall cfg :: !Loads(sec, cfg)
  {
    hide Base58.IsPubkey;
    var rpcUrl := NonEmpty(sec.rpcUrl);
    if rpcUrl.None? {
      return None;
    }
    if sec.merchant.None? || !Base58.IsPubkey(sec.merchant.value) {
      return None;
    }
    var mint := Charge.OrDefault(sec.mint, Charge.DEFAULT_USDC_MINT);
    if !Base58.IsPubkey(mint) {
      return None;
    }
    var decimals := Charge.Decimals(sec.decimals);
    if decimals.None? {
      return None;
    }
    if sec.listBytes > Charge.PRICE_LIST_MAX_BYTES {
      return None;
    }
    var prices := PriceList(sec.prices, WatchCheck(decimals.value));
    if prices.None? {
      return None;
    }
    var authority, address, id := NonEmpty(sec.authority), NonEmpty(sec.address), NonEmpty(sec.id);
    if !PubkeyIfAny(authority) || !PubkeyIfAny(address) || (id.Some? && |id.value| > 64) {
      return None;
    }
    var window, silence := PolicySeconds(sec.window, "900"), PolicySeconds(sec.silence, "1800");
    if window.None? || silence.None? {
      return None;
    }
    var finality := Charge.OrDefault(sec.finality, "finalized");
    if finality != "processed" && finality != "confirmed" && finality != "finalized" {
      return None;
    }
    return Some(P.Config(rpcUrl.value, sec.merchant.value, mint, decimals.value, prices.value, authority, address, id, window.value,
                         silence.value, finality));
  }
}
