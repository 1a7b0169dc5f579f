/** scripts/trusted-charge-handoff.mjs: what the handoff takes and what it persists, written out member by member. */
module Quoted {
  // Handoff.dfy checks a charge's output step by step. Here the output, the two config sections and the URL
  // have descriptions of their own, and for all inputs there is an exact condition for each persisted order.

  import opened Wrappers
  import opened Json
  import opened Prices
  import opened Spelling
  import A = Amount
  import Base58
  import Chain
  import Claim
  import Handoff
  import P = Payment
  import Url

  /** A raw output is taken as it is, or out of its wrapper. */
  predicate Opens(parsed: Json, machine: Json, parse: Parser) {
    && machine.Obj?
    && if parsed.Obj? && "output" in parsed.fields && parsed.fields["output"].Str?
       then && parsed.fields.Keys <= {"success", "output", "error"}
            && Has(parsed, "success", Bool(true)) && ("error" in parsed.fields ==> parsed.fields["error"].Null?)
            && parse(parsed.fields["output"].s) == Some(machine)
       else machine == parsed
  }

  /** The output of a charge for a catalog item, under this URL. */
  predicate Reports(machine: Json, o: Claim.Order, url: string) {
    && machine.Obj?
    && machine.fields.Keys <= {
         "v", "success", "status", "actuation_eligible", "reference", "item_id", "amount", "recipient", "mint", "created_at_ms", "url",
         "message"}
    && Has(machine, "v", UInt(1)) && Has(machine, "success", Bool(true)) && Has(machine, "status", Str("created"))
    && Has(machine, "actuation_eligible", Bool(true))
    && Has(machine, "item_id", Str(o.item)) && Has(machine, "url", Str(url))
    && Has(machine, "created_at_ms", UInt(o.createdMs)) && o.createdMs <= 9_007_199_254_740_991
    && Has(machine, "reference", Str(o.reference)) && Bytes(o.reference, 32)
    && Has(machine, "recipient", Str(o.recipient)) && Bytes(o.recipient, 32)
    && Has(machine, "mint", Str(o.mint)) && Bytes(o.mint, 32)
    && "amount" in machine.fields && machine.fields["amount"].Str?
    && A.JsDecimal(machine.fields["amount"].s, o.decimals) == Some(o.amount)
    && forall i :: 0 <= i < |url| ==> url[i] as int > 0x20 && url[i] as int != 0x7F
  }

  /** A price list without repeats, whose entries are all usable, with this item at this price. */
  predicate Offers(ps: seq<Piece>, item: string, price: string, decimals: nat) {
    && (forall i :: 0 <= i < |ps| ==> ps[i].Pair? && IsId(ps[i].item) && A.JsDecimal(ps[i].amount, decimals).Some?)
    && (forall i, j :: 0 <= i < j < |ps| ==> ps[i].item != ps[j].item)
    && exists i :: 0 <= i < |ps| && ps[i].Pair? && ps[i].item == item && A.JsDecimal(ps[i].amount, decimals) == Some(price)
  }

  /** The operator's two sections: the same merchant, mint, decimals and price for the item. */
  predicate Sells(cfg: Handoff.Config, o: Claim.Order) {
    && cfg.charge.merchant == Some(o.recipient) && cfg.watch.merchant == Some(o.recipient) && o.recipient != ""
    && cfg.charge.mint == Some(o.mint) && cfg.watch.mint == Some(o.mint) && o.mint != ""
    && cfg.charge.decimals.Some? && cfg.watch.decimals == cfg.charge.decimals
    && Numeral(cfg.charge.decimals.value, o.decimals) && o.decimals <= 18
    && Numeral(if cfg.watch.window.Some? then cfg.watch.window.value else "900", o.windowS) && 1 <= o.windowS <= 86_400
    && cfg.charge.prices.Some? && Offers(cfg.charge.prices.value, o.item, o.amount, o.decimals)
    && cfg.watch.prices.Some? && Offers(cfg.watch.prices.value, o.item, o.amount, o.decimals)
  }

  /** One parameter has this name, and this value. */
  predicate Once(ps: seq<Url.Param>, name: string, value: string) {
    exists i :: 0 <= i < |ps| && ps[i] == Url.Param(name, value) && forall j :: 0 <= j < |ps| && ps[j].name == name ==> j == i
  }

  /** The URL asks for the order: its recipient, amount, mint, reference and memo, and nothing unknown. */
  ghost predicate Asks(url: string, o: Claim.Order, parse: Parser) {
    exists u, amount, memo ::
      && Url.ParseUrl(url, true) == Some(u) && u.path == o.recipient && (u.hash == "" || u.hash == "#")
      && (forall i :: 0 <= i < |u.params| ==>
           u.params[i].name in {"amount", "spl-token", "reference", "label", "message", "memo"})
      && Once(u.params, "amount", amount) && A.JsDecimal(amount, o.decimals) == Some(o.amount)
      && Once(u.params, "spl-token", o.mint) && Once(u.params, "reference", o.reference)
      && Once(u.params, "memo", memo)
      && parse(memo) == Some(Obj(map["v" := UInt(1), "tag" := Str("PKPAY1"), "ref" := Str(o.reference), "item" := Str(o.item)]))
  }

  // ---- The pieces agree --------------------------------------------------------------------

  lemma OpensIff(raw: string, machine: Json, parse: Parser)
    ensures Handoff.Open(raw, parse) == Some(machine) <==> parse(raw).Some? && Opens(parse(raw).value, machine, parse)
  {
  }

  // ---- Parameters --------------------------------------------------------------------------

  lemma {:induction false} CountZero(ps: seq<Url.Param>, name: string)
    ensures Handoff.Count(ps, name) == 0 <==> forall j :: 0 <= j < |ps| ==> ps[j].name != name
  {
    if ps != [] {
      var init := ps[..|ps| - 1];
      CountZero(init, name);
      assert forall j :: 0 <= j < |init| ==> init[j] == ps[j];
    }
  }

  lemma {:induction false} CountOne(ps: seq<Url.Param>, name: string) returns (i: nat)
    requires Handoff.Count(ps, name) == 1
    ensures i < |ps| && ps[i].name == name && forall j :: 0 <= j < |ps| && ps[j].name == name ==> j == i
  {
    var init := ps[..|ps| - 1];
    assert forall j :: 0 <= j < |init| ==> init[j] == ps[j];
    if ps[|ps| - 1].name == name {
      i := |ps| - 1;
      CountZero(init, name);
      assert forall j :: 0 <= j < |init| ==> init[j].name != name;
    } else {
      i := CountOne(init, name);
    }
  }

  lemma {:induction false} OneCount(ps: seq<Url.Param>, name: string, i: nat)
    requires i < |ps| && ps[i].name == name && forall j :: 0 <= j < |ps| && ps[j].name == name ==> j == i
    ensures Handoff.Count(ps, name) == 1
  {
    var init := ps[..|ps| - 1];
    assert forall j :: 0 <= j < |init| ==> init[j] == ps[j];
    if i == |ps| - 1 {
      CountZero(init, name);
    } else {
      OneCount(init, name, i);
    }
  }

  lemma {:induction false} ValueAt(ps: seq<Url.Param>, name: string, i: nat)
    requires i < |ps| && ps[i].name == name && forall j :: 0 <= j < i ==> ps[j].name != name
    ensures Handoff.Value(ps, name) == Some(ps[i].value)
  {
    if i > 0 {
      assert forall j :: 0 <= j < |ps| - 1 ==> ps[1..][j] == ps[j + 1];
      ValueAt(ps[1..], name, i - 1);
    }
  }

  /** Counted once and read is the one value. */
  lemma OnceIff(ps: seq<Url.Param>, name: string, value: string)
    ensures Once(ps, name, value) <==> Handoff.Count(ps, name) == 1 && Handoff.Value(ps, name) == Some(value)
  {
    hide Handoff.Count, Handoff.Value;
    if Handoff.Count(ps, name) == 1 {
      var i := CountOne(ps, name);
      ValueAt(ps, name, i);
      assert ps[i] == Url.Param(name, ps[i].value);
    }
    if i :| 0 <= i < |ps| && ps[i] == Url.Param(name, value) && forall j :: 0 <= j < |ps| && ps[j].name == name ==> j == i {
      OneCount(ps, name, i);
      ValueAt(ps, name, i);
    }
  }

  lemma NamesIff(ps: seq<Url.Param>)
    ensures (forall i :: 0 <= i < |ps| ==> Handoff.KnownName(ps[i].name)) <==>
            forall i :: 0 <= i < |ps| ==> ps[i].name in {"amount", "spl-token", "reference", "label", "message", "memo"}
  {
  }

  lemma UrlIff(url: string, o: Claim.Order, parse: Parser)
    requires o.decimals <= 18
    ensures Asks(url, o, parse) <==>
            Handoff.UrlBinds(url, o.recipient, o.mint, o.reference, o.item, o.amount, o.decimals, parse)
  {
    hide Handoff.KnownName, Handoff.Count, Handoff.Value, Once, A.JsDecimal, Url.ParseUrl;
    if Url.ParseUrl(url, true).Some? {
      var ps := Url.ParseUrl(url, true).value.params;
      NamesIff(ps);
      OnceIff(ps, "spl-token", o.mint);
      OnceIff(ps, "reference", o.reference);
      forall amount
        ensures Once(ps, "amount", amount) <==> Handoff.Count(ps, "amount") == 1 && Handoff.Value(ps, "amount") == Some(amount)
      {
        OnceIff(ps, "amount", amount);
      }
      forall memo ensures Once(ps, "memo", memo) <==> Handoff.Count(ps, "memo") == 1 && Handoff.Value(ps, "memo") == Some(memo) {
        OnceIff(ps, "memo", memo);
      }
      assert P.PAYMENT_TAG == "PKPAY1";
    }
  }

  // ---- Prices ------------------------------------------------------------------------------

  lemma {:induction false} PriceIff(ps: seq<Piece>, check: Check, item: string, price: string)
    requires forall i :: 0 <= i < |ps| ==> ps[i].Pair?
    requires forall i, j :: 0 <= i < j < |ps| ==> ps[i].item != ps[j].item
    ensures PriceFor(ps, check, item) == Some(price) <==>
            exists i :: 0 <= i < |ps| && ps[i].Pair? && ps[i].item == item && check(ps[i].amount) == Some(price)
  {
    if ps != [] {
      var rest := ps[1..];
      assert forall j :: 0 <= j < |rest| ==> rest[j] == ps[j + 1];
      PriceIff(rest, check, item, price);
      if i :| 0 <= i < |ps| && ps[i].Pair? && ps[i].item == item && check(ps[i].amount) == Some(price) {
        assert i > 0 ==> rest[i - 1] == ps[i];
      }
    }
  }

  lemma OffersIff(ps: seq<Piece>, item: string, price: string, decimals: byte)
    ensures Offers(ps, item, price, decimals) <==>
            Listable(ps, JsCheck(decimals)) && PriceFor(ps, JsCheck(decimals), item) == Some(price)
  {
    hide IsId, IsItemId, A.JsDecimal, PriceFor;
    forall i | 0 <= i < |ps| && ps[i].Pair? ensures IsId(ps[i].item) <==> IsItemId(ps[i].item) {
      IdIff(ps[i].item);
    }
    assert (forall i :: 0 <= i < |ps| ==> Usable(ps[i], JsCheck(decimals))) <==>
      forall i :: 0 <= i < |ps| ==> ps[i].Pair? && IsId(ps[i].item) && A.JsDecimal(ps[i].amount, decimals).Some?;
    if forall i :: 0 <= i < |ps| ==> ps[i].Pair? {
      if forall i, j :: 0 <= i < j < |ps| ==> ps[i].item != ps[j].item {
        PriceIff(ps, JsCheck(decimals), item, price);
      }
    }
  }

  // ---- The two files -----------------------------------------------------------------------

  lemma DigitsIff(text: string, n: nat)
    ensures Numeral(text, n) <==> Handoff.Digits(text) == Some(n)
  {
    NumeralIff(text, n);
    hide A.AllDigits, A.NatOf;
  }

  lemma SellsIff(cfg: Handoff.Config, o: Claim.Order)
    ensures Sells(cfg, o) <==>
            && Handoff.SectionsAgree(cfg) && cfg.charge.merchant == Some(o.recipient) && cfg.charge.mint == Some(o.mint)
            && Handoff.Decimals(cfg) == Some(o.decimals) && Handoff.Window(cfg) == Some(o.windowS)
            && Handoff.AgreedPrice(cfg, o.item) == Some(o.amount)
  {
    hide Numeral, Offers, Handoff.Digits, Listable, PriceFor;
    if cfg.charge.decimals.Some? {
      DigitsIff(cfg.charge.decimals.value, o.decimals);
      EmptyIsNoNumber(cfg.charge.decimals.value);
    }
    DigitsIff(if cfg.watch.window.Some? then cfg.watch.window.value else "900", o.windowS);
    if o.decimals <= 18 && cfg.charge.prices.Some? && cfg.watch.prices.Some? {
      OffersIff(cfg.charge.prices.value, o.item, o.amount, o.decimals);
      OffersIff(cfg.watch.prices.value, o.item, o.amount, o.decimals);
    }
  }

  lemma EmptyIsNoNumber(text: string)
    ensures Handoff.Digits(text).Some? ==> text != ""
  {
  }

  lemma ReportsIff(m: Json, o: Claim.Order, url: string)
    ensures Reports(m, o, url) <==>
            && Handoff.MachineShape(m) && GetStr(m, "item_id") == Some(o.item) && GetStr(m, "url") == Some(url)
            && Claim.SafeInt(m, "created_at_ms") == Some(o.createdMs) && GetStr(m, "reference") == Some(o.reference)
            && GetStr(m, "recipient") == Some(o.recipient) && GetStr(m, "mint") == Some(o.mint)
            && GetStr(m, "amount").Some? && A.JsDecimal(GetStr(m, "amount").value, o.decimals) == Some(o.amount)
  {
    hide Bytes, Base58.IsPubkey, Base58.DecodePubkey, Base58.DecodeSpec, Chain.IsSignature, A.JsDecimal;
    BytesIff(o.reference);
    BytesIff(o.recipient);
    BytesIff(o.mint);
  }

  // ---- Main results ------------------------------------------------------------------------

  /** The order and the URL that it was made from. */
  ghost predicate Accepts(m: Json, cfg: Handoff.Config, parse: Parser, o: Claim.Order, url: string) {
    && Reports(m, o, url) && Sells(cfg, o) && Asks(url, o, parse) && |url| >= 7 && o.url == Url.Href(url)
    && o.expiresMs == o.createdMs + o.windowS * 1000 <= 9_007_199_254_740_991
  }

  lemma AcceptsIff(m: Json, cfg: Handoff.Config, parse: Parser, sha256: string, o: Claim.Order)
    ensures Handoff.OrderSpec(m, cfg, parse, sha256) == Some(o) <==>
            o.sha256 == sha256 && exists url :: Accepts(m, cfg, parse, o, url)
  {
    hide Reports, Sells, Asks, Handoff.MachineShape, Handoff.SectionsAgree, Handoff.AgreedPrice, Handoff.UrlBinds, Handoff.Decimals,
      Handoff.Window, A.JsDecimal, Claim.SafeInt, GetStr, Url.Href;
    SellsIff(cfg, o);
    if o.decimals <= 18 {
      forall url
        ensures Reports(m, o, url) <==>
            && Handoff.MachineShape(m) && GetStr(m, "item_id") == Some(o.item) && GetStr(m, "url") == Some(url)
            && Claim.SafeInt(m, "created_at_ms") == Some(o.createdMs) && GetStr(m, "reference") == Some(o.reference)
            && GetStr(m, "recipient") == Some(o.recipient) && GetStr(m, "mint") == Some(o.mint)
            && GetStr(m, "amount").Some? && A.JsDecimal(GetStr(m, "amount").value, o.decimals) == Some(o.amount)
        ensures Asks(url, o, parse) <==>
                Handoff.UrlBinds(url, o.recipient, o.mint, o.reference, o.item, o.amount, o.decimals, parse)
      {
        ReportsIff(m, o, url);
        UrlIff(url, o, parse);
      }
    }
    if Handoff.OrderSpec(m, cfg, parse, sha256) == Some(o) {
      Handoff.MachineMembers(m);
      Handoff.SectionMembers(cfg);
      var url := GetStr(m, "url").value;
      Handoff.BoundUrl(url, o.recipient, o.mint, o.reference, o.item, o.amount, o.decimals, parse);
      assert Accepts(m, cfg, parse, o, url);
    }
  }

  /**
   * The handoff persists exactly this order when: the raw output is at most 64 KiB and opens to the report of a charge
   * for it, both plugin sections sell it, and the URL asks for it; the order keeps the URL as it serializes.
   */
  lemma OrderIff(raw: string, cfg: Handoff.Config, parse: Parser, sha256: string, o: Claim.Order)
    ensures Handoff.HandoffSpec(raw, cfg, parse, sha256) == Some(o) <==>
            && |raw| <= 65_536 && parse(raw).Some? && o.sha256 == sha256
            && exists m, url :: Opens(parse(raw).value, m, parse) && Accepts(m, cfg, parse, o, url)
  {
    hide Handoff.Open, Handoff.OrderSpec, Opens, Accepts;
    forall m
      ensures Handoff.Open(raw, parse) == Some(m) <==> parse(raw).Some? && Opens(parse(raw).value, m, parse)
      ensures Handoff.OrderSpec(m, cfg, parse, sha256) == Some(o) <==> o.sha256 == sha256 && exists url :: Accepts(m, cfg, parse, o, url)
    {
      OpensIff(raw, m, parse);
      AcceptsIff(m, cfg, parse, sha256, o);
    }
  }

  /** Every persisted order's own URL, parsed, asks for that order, and can be shown as it is. */
  lemma StoredUrlAsks(raw: string, cfg: Handoff.Config, parse: Parser, sha256: string, o: Claim.Order)
    requires Handoff.HandoffSpec(raw, cfg, parse, sha256) == Some(o)
    ensures Asks(o.url, o, parse)
    ensures |o.url| >= 7 && o.url[..7] == "solana:" && Url.Href(o.url) == o.url
  {
    hide Reports, Sells, Opens, Url.Href, Url.ParseUrl, Once, A.JsDecimal;
    OrderIff(raw, cfg, parse, sha256, o);
    var m, url :| Opens(parse(raw).value, m, parse) && Accepts(m, cfg, parse, o, url);
    Url.HrefKeepsMeaning(url, true);
    Url.HrefIsFinal(url);
  }
}
