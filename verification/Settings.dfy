/** The operator's sections for kiosk-charge and kiosk-watch: what each configuration says, written out. */
module Settings {
  // The loaders of plugins/kiosk-charge/src/charge.rs and plugins/kiosk-watch/src/watch.rs, default by default and
  // bound by bound.

  import opened Wrappers
  import opened Prices
  import opened Spelling
  import A = Amount
  import Base58
  import Chain
  import Charge
  import P = Payment
  import WatchConfig

  function Or(member: Option<string>, default_: string): string {
    if member.Some? && member.value != "" then member.value else default_
  }

  /** The map has exactly the listed items, once each, at their checked amounts. */
  predicate Sells(ps: seq<Piece>, prices: map<string, string>, check: Check) {
    && (forall i :: 0 <= i < |ps| ==>
         ps[i].Pair? && IsId(ps[i].item) && ps[i].item in prices && check(ps[i].amount) == Some(prices[ps[i].item]))
    && (forall i, j :: 0 <= i < j < |ps| ==> ps[i].item != ps[j].item)
    && (forall item :: item in prices ==> exists i :: 0 <= i < |ps| && ps[i].item == item)
  }

  ghost predicate ChargeSays(sec: Charge.Section, cfg: Charge.Config) {
    && sec.merchant == Some(cfg.merchant) && Bytes(cfg.merchant, 32)
    && cfg.mint == Or(sec.mint, USDC) && Bytes(cfg.mint, 32)
    && Spells(Or(sec.decimals, "6"), cfg.decimals) && cfg.decimals <= 18
    && A.CanonicalizeAmount(if sec.maxAmount.Some? then sec.maxAmount.value else "100", cfg.decimals) == Some(cfg.maxAmount)
    && sec.listBytes <= 4_096
    && Sells(sec.prices, cfg.prices, (amount: string) => A.ValidateAmount(amount, cfg.decimals, cfg.maxAmount))
    && cfg.currency == (if sec.currency == Some("") then None else sec.currency)
    && (if sec.rate.Some? then sec.rate.value.Finite? && cfg.rate == Some(sec.rate.value.value) && sec.rate.value.value > 0.0
        else cfg.rate.None?)
    && cfg.label_ == (if sec.label_ == Some("") then None else sec.label_)
    && (cfg.label_.Some? ==> Charge.CharCount(cfg.label_.value) <= 64)
  }

  ghost predicate WatchSays(sec: WatchConfig.Section, cfg: P.Config) {
    && sec.rpcUrl == Some(cfg.rpcUrl) && cfg.rpcUrl != ""
    && sec.merchant == Some(cfg.merchant) && Bytes(cfg.merchant, 32)
    && cfg.mint == Or(sec.mint, USDC) && Bytes(cfg.mint, 32)
    && Spells(Or(sec.decimals, "6"), cfg.decimals) && cfg.decimals <= 18
    && sec.listBytes <= 4_096 && Sells(sec.prices, cfg.prices, (amount: string) => A.CanonicalizeAmount(amount, cfg.decimals))
    && cfg.authority == (if sec.authority == Some("") then None else sec.authority)
    && (cfg.authority.Some? ==> Bytes(cfg.authority.value, 32))
    && cfg.address == (if sec.address == Some("") then None else sec.address)
    && (cfg.address.Some? ==> Bytes(cfg.address.value, 32))
    && cfg.id == (if sec.id == Some("") then None else sec.id) && (cfg.id.Some? ==> |cfg.id.value| <= 64)
    && Spells(Or(sec.window, "900"), cfg.windowS) && 1 <= cfg.windowS <= 86_400
    && Spells(Or(sec.silence, "1800"), cfg.silenceS) && 1 <= cfg.silenceS <= 86_400
    && cfg.finality == Or(sec.finality, "finalized") && cfg.finality in {"processed", "confirmed", "finalized"}
  }

  // ---- The pieces agree --------------------------------------------------------------------

  lemma SellsIff(ps: seq<Piece>, prices: map<string, string>, check: Check)
    ensures Sells(ps, prices, check) <==> IsPriceMap(prices, ps, check)
  {
    forall i | 0 <= i < |ps| && ps[i].Pair? ensures IsId(ps[i].item) <==> IsItemId(ps[i].item) {
      IdIff(ps[i].item);
    }
    hide IsId, IsItemId;
    assert IsPriceMap(prices, ps, check) ==> forall i :: 0 <= i < |ps| ==> Usable(ps[i], check);
  }

  lemma SameCheck(ps: seq<Piece>, prices: map<string, string>, a: Check, b: Check)
    requires forall amount :: a(amount) == b(amount)
    ensures Sells(ps, prices, a) <==> Sells(ps, prices, b)
  {
    hide IsId;
  }

  // ---- Main results ------------------------------------------------------------------------

  lemma ChargeIff(sec: Charge.Section, cfg: Charge.Config)
    ensures Charge.Loads(sec, cfg) <==> ChargeSays(sec, cfg)
  {
    hide Spells, A.CanonicalizeAmount, A.ValidateAmount, Base58.IsPubkey, Base58.DecodePubkey, Base58.DecodeSpec, Chain.IsSignature, Bytes,
      Sells, IsPriceMap, Charge.CharCount, P.ParseU64;
    SpelledUsdc();
    BytesIff(cfg.merchant);
    BytesIff(cfg.mint);
    SpellsIff(Or(sec.decimals, "6"), cfg.decimals);
    SellsIff(sec.prices, cfg.prices, CapCheck(cfg.decimals, cfg.maxAmount));
    SameCheck(sec.prices, cfg.prices, CapCheck(cfg.decimals, cfg.maxAmount),
              (amount: string) => A.ValidateAmount(amount, cfg.decimals, cfg.maxAmount));
  }

  lemma WatchIff(sec: WatchConfig.Section, cfg: P.Config)
    ensures WatchConfig.Loads(sec, cfg) <==> WatchSays(sec, cfg)
  {
    hide Spells, A.CanonicalizeAmount, Base58.IsPubkey, Base58.DecodePubkey, Base58.DecodeSpec, Chain.IsSignature, Bytes, Sells, IsPriceMap,
      P.ParseU64;
    SpelledUsdc();
    BytesIff(cfg.merchant);
    BytesIff(cfg.mint);
    if cfg.authority.Some? {
      BytesIff(cfg.authority.value);
    }
    if cfg.address.Some? {
      BytesIff(cfg.address.value);
    }
    SpellsIff(Or(sec.decimals, "6"), cfg.decimals);
    SpellsIff(Or(sec.window, "900"), cfg.windowS);
    SpellsIff(Or(sec.silence, "1800"), cfg.silenceS);
    SellsIff(sec.prices, cfg.prices, WatchCheck(cfg.decimals));
    SameCheck(sec.prices, cfg.prices, WatchCheck(cfg.decimals), (amount: string) => A.CanonicalizeAmount(amount, cfg.decimals));
  }
}
