/**
 * scripts/trusted-charge-handoff.mjs: from a charge's machine output to a persisted order, against both
 * plugin sections of the config file.
 */
module Handoff {
  import opened Wrappers
  import opened Json
  import opened Prices
  import A = Amount
  import Base58
  import Charge
  import Claim
  import P = Payment
  import Url

  const OUTPUT_KEYS: set<string> := {
    "v", "success", "status", "actuation_eligible", "reference", "item_id", "amount", "recipient", "mint",
    "created_at_ms", "url", "message"}

  // ---- Inputs ------------------------------------------------------------------------------

  /** One plugin's section of the config file; `prices` is absent for an empty list text. */
  datatype PluginSection = PluginSection(
    merchant: Option<string>,
    mint: Option<string>,
    decimals: Option<string>,
    window: Option<string>,
    prices: Option<seq<Piece>>)

  datatype Config = Config(charge: PluginSection, watch: PluginSection)

  /** `directMachineOutput`: a `success`/`output` wrapper is opened; either way there has to be an object. */
  function Open(raw: string, parse: Parser): Option<Json> {
    match parse(raw)
    case None => None
    case Some(parsed) =>
      match GetStr(parsed, "output")
      case None => if parsed.Obj? then Some(parsed) else None
      case Some(output) =>
        if !(parsed.fields.Keys <= {"success", "output", "error"}) then None
        else if Get(parsed, "success") != Some(Bool(true)) then None
        else if Get(parsed, "error").Some? && Get(parsed, "error") != Some(Null) then None
        else if parse(output).Some? && parse(output).value.Obj? then parse(output) else None
  }

  predicate Given(member: Option<string>) {
    member.Some? && member.value != ""
  }

  function Digits(text: string): Option<nat> {
    if text != "" && A.AllDigits(text) then Some(A.NatOf(text)) else None
  }

  function Decimals(cfg: Config): (d: Option<byte>)
    ensures d.Some? ==> d.value <= 18
  {
    if !Given(cfg.charge.decimals) then None else
    match Digits(cfg.charge.decimals.value)
    case None => None
    case Some(n) => if n <= 18 then Some(n) else None
  }

  function Window(cfg: Config): (w: Option<nat>)
    ensures w.Some? ==> 1 <= w.value <= Claim.MAX_WINDOW_S
  {
    match Digits(if cfg.watch.window.Some? then cfg.watch.window.value else "900")
    case None => None
    case Some(n) => if 1 <= n <= Claim.MAX_WINDOW_S then Some(n) else None
  }

  /** Both sections are spelled out and agree, character by character. */
  predicate SectionsAgree(cfg: Config) {
    && Given(cfg.charge.merchant) && Given(cfg.charge.mint) && Decimals(cfg).Some?
    && cfg.watch.merchant == cfg.charge.merchant && cfg.watch.mint == cfg.charge.mint && cfg.watch.decimals == cfg.charge.decimals
    && Window(cfg).Some? && cfg.charge.prices.Some? && cfg.watch.prices.Some?
  }

  /** A version-1 charge of a catalog item. */
  predicate MachineHeader(m: Json) {
    && m.Obj? && m.fields.Keys <= OUTPUT_KEYS
    && Get(m, "v") == Some(UInt(1)) && Get(m, "success") == Some(Bool(true)) && Get(m, "status") == Some(Str("created"))
    && Get(m, "actuation_eligible") == Some(Bool(true))
  }

  /** The checks of the machine output alone. */
  predicate MachineShape(m: Json) {
    && MachineHeader(m) && GetStr(m, "item_id").Some?
    && (var url := GetStr(m, "url"); url.Some? && Url.Visible(url.value))
    && Claim.SafeInt(m, "created_at_ms").Some?
    && Claim.PubkeyMember(m, "reference") && Claim.PubkeyMember(m, "recipient") && Claim.PubkeyMember(m, "mint")
  }

  // ---- URL parameters ----------------------------------------------------------------------

  predicate KnownName(name: string) {
    name == "amount" || name == "spl-token" || name == "reference" || name == "label" || name == "message" || name == "memo"
  }

  function Count(ps: seq<Url.Param>, name: string): nat {
    if ps == [] then 0 else Count(ps[..|ps| - 1], name) + if ps[|ps| - 1].name == name then 1 else 0
  }

  /** `searchParams.get`: the first value. */
  function Value(ps: seq<Url.Param>, name: string): Option<string> {
    if ps == [] then None else if ps[0].name == name then Some(ps[0].value) else Value(ps[1..], name)
  }

  /** Only known names, and each binding one exactly once. */
  predicate ParamsOk(ps: seq<Url.Param>) {
    && (forall i :: 0 <= i < |ps| ==> KnownName(ps[i].name))
    && Count(ps, "amount") == 1 && Count(ps, "spl-token") == 1 && Count(ps, "reference") == 1 && Count(ps, "memo") == 1
  }

  /** The loop that fills `counts`. */
  method CheckParams(ps: seq<Url.Param>) returns (ok: bool)
    ensures ok == ParamsOk(ps)
  {
    hide KnownName;
    var counts: map<string, nat> := map[];
    for i := 0 to |ps|
      invariant forall k :: 0 <= k < i ==> KnownName(ps[k].name)
      invariant forall name :: (if name in counts then counts[name] else 0) == Count(ps[..i], name)
    {
      var name := ps[i].name;
      if !KnownName(name) {
        return false;
      }
      assert ps[..i + 1][..i] == ps[..i];
      counts := counts[name := (if name in counts then counts[name] else 0) + 1];
    }
    assert ps[..|ps|] == ps;
    ok := true;
    for k := 0 to 4
      invariant ok <==> forall j :: 0 <= j < k ==> Count(ps, BINDING[j]) == 1
    {
      var key := BINDING[k];
      if (if key in counts then counts[key] else 0) != 1 {
        return false;
      }
    }
    assert BINDING[0] == "amount" && BINDING[1] == "spl-token" && BINDING[2] == "reference" && BINDING[3] == "memo";
  }

  const BINDING: seq<string> := ["amount", "spl-token", "reference", "memo"]

  /** The URL asks exactly this merchant for exactly this payment. */
  predicate UrlBinds(url: string, recipient: string, mint: string, reference: string, item: string, expected: string,
                     decimals: byte, parse: Parser)
  {
    match Url.ParseUrl(url, true)
    case None => false
    case Some(u) =>
      && u.path == recipient && (u.hash == "" || u.hash == "#") && ParamsOk(u.params)
      && (var amount := Value(u.params, "amount"); amount.Some? && A.JsDecimal(amount.value, decimals) == Some(expected))
      && Value(u.params, "spl-token") == Some(mint) && Value(u.params, "reference") == Some(reference)
      && (var memo := Value(u.params, "memo"); memo.Some? && parse(memo.value) == Some(P.PaymentMemo(reference, item)))
  }

  // ---- The handoff -------------------------------------------------------------------------

  /** The operator's price for the item, if both price lists are sound and give it alike. */
  function AgreedPrice(cfg: Config, item: string): Option<string>
    requires SectionsAgree(cfg)
  {
    var check := JsCheck(Decimals(cfg).value);
    if !Listable(cfg.charge.prices.value, check) || !Listable(cfg.watch.prices.value, check) then None
    else if PriceFor(cfg.watch.prices.value, check, item) != PriceFor(cfg.charge.prices.value, check, item) then None
    else PriceFor(cfg.charge.prices.value, check, item)
  }

  /** `validateHandoff`; `sha256` is the digest of the raw output. */
  function HandoffSpec(raw: string, cfg: Config, parse: Parser, sha256: string): Option<Claim.Order> {
    if |raw| > Claim.MAX_BYTES then None else
    match Open(raw, parse)
    case None => None
    case Some(m) => OrderSpec(m, cfg, parse, sha256)
  }

  /** The checks of opened machine output, and the order that they yield; the URL is stored as it serializes. */
  function OrderSpec(m: Json, cfg: Config, parse: Parser, sha256: string): Option<Claim.Order> {
    if !MachineShape(m) || !SectionsAgree(cfg) then None else
    var created, window, decimals := Claim.SafeInt(m, "created_at_ms").value, Window(cfg).value, Decimals(cfg).value;
    var item, reference := GetStr(m, "item_id").value, GetStr(m, "reference").value;
    var recipient, mint := cfg.charge.merchant.value, cfg.charge.mint.value;
    if created + window * 1000 > MAX_SAFE_INTEGER then None else
    match AgreedPrice(cfg, item)
    case None => None
    case Some(expected) =>
      if GetStr(m, "recipient") != Some(recipient) || GetStr(m, "mint") != Some(mint) then None
      else if GetStr(m, "amount").None? || A.JsDecimal(GetStr(m, "amount").value, decimals) != Some(expected) then None
      else if !UrlBinds(GetStr(m, "url").value, recipient, mint, reference, item, expected, decimals, parse) then None
      else Some(Claim.Order(reference, item, expected, recipient, mint, decimals, window, Url.Href(GetStr(m, "url").value),
                            created, created + window * 1000, sha256))
  }

  /** Both price maps, and the item in each. */
  method LookUpPrice(cfg: Config, item: string) returns (r: Option<string>)
    requires SectionsAgree(cfg)
    ensures r == AgreedPrice(cfg, item)
  {
    hide A.JsDecimal, IsPriceMap, Listable, PriceFor;
    var check := JsCheck(Decimals(cfg).value);
    var charged := PriceList(cfg.charge.prices.value, check);
    if charged.None? {
      return None;
    }
    PriceForIs(charged.value, cfg.charge.prices.value, check, item);
    if item !in charged.value {
      return None;
    }
    var watched := PriceList(cfg.watch.prices.value, check);
    if watched.None? {
      return None;
    }
    PriceForIs(watched.value, cfg.watch.prices.value, check, item);
    if item !in watched.value || watched.value[item] != charged.value[item] {
      return None;
    }
    return Some(charged.value[item]);
  }

  method CheckUrl(url: string, recipient: string, mint: string, reference: string, item: string, expected: string,
                  decimals: byte, parse: Parser)
    returns (ok: bool)
    ensures ok == UrlBinds(url, recipient, mint, reference, item, expected, decimals, parse)
  {
    hide A.JsDecimal, Url.ParseUrl, ParamsOk, P.PaymentMemo;
    var u := Url.ParseUrl(url, true);
    if u.None? || u.value.path != recipient || (u.value.hash != "" && u.value.hash != "#") {
      return false;
    }
    ok := CheckParams(u.value.params);
    if !ok {
      return false;
    }
    var amount, memo := Value(u.value.params, "amount"), Value(u.value.params, "memo");
    if amount.None? || A.JsDecimal(amount.value, decimals) != Some(expected) {
      return false;
    }
    if Value(u.value.params, "spl-token") != Some(mint) || Value(u.value.params, "reference") != Some(reference) {
      return false;
    }
    if memo.None? || parse(memo.value) != Some(P.PaymentMemo(reference, item)) {
      return false;
    }
  }

  method ValidateHandoff(raw: string, cfg: Config, parse: Parser, sha256: string) returns (r: Option<Claim.Order>)
    ensures r == HandoffSpec(raw, cfg, parse, sha256)
  {
    hide OrderSpec, Open;
    if |raw| > Claim.MAX_BYTES {
      return None;
    }
    var m := Open(raw, parse);
    if m.None? {
      return None;
    }
    r := ValidateMachine(m.value, cfg, parse, sha256);
  }

  method ValidateMachine(m: Json, cfg: Config, parse: Parser, sha256: string) returns (r: Option<Claim.Order>)
    ensures r == OrderSpec(m, cfg, parse, sha256)
  {
    hide MachineShape, SectionsAgree, A.JsDecimal, UrlBinds, AgreedPrice, Window, Decimals, Claim.SafeInt, GetStr;
    if !MachineShape(m) {
      return None;
    }
    if !SectionsAgree(cfg) {
      return None;
    }
    MachineMembers(m);
    SectionMembers(cfg);
    var created, window, decimals := Claim.SafeInt(m, "created_at_ms").value, Window(cfg).value, Decimals(cfg).value;
    var item, reference, url := GetStr(m, "item_id").value, GetStr(m, "reference").value, GetStr(m, "url").value;
    var recipient, mint := cfg.charge.merchant.value, cfg.charge.mint.value;
    if created + window * 1000 > MAX_SAFE_INTEGER {
      return None;
    }
    var expected := LookUpPrice(cfg, item);
    if expected.None? {
      return None;
    }
    if GetStr(m, "recipient") != Some(recipient) || GetStr(m, "mint") != Some(mint) {
      return None;
    }
    if GetStr(m, "amount").None? || A.JsDecimal(GetStr(m, "amount").value, decimals) != expected {
      return None;
    }
    var ok := CheckUrl(url, recipient, mint, reference, item, expected.value, decimals, parse);
    if !ok {
      return None;
    }
    BoundUrl(url, recipient, mint, reference, item, expected.value, decimals, parse);
    return Some(Claim.Order(reference, item, expected.value, recipient, mint, decimals, window, Url.Href(url),
                            created, created + window * 1000, sha256));
  }

  lemma BoundUrl(url: string, recipient: string, mint: string, reference: string, item: string, expected: string,
                 decimals: byte, parse: Parser)
    requires UrlBinds(url, recipient, mint, reference, item, expected, decimals, parse)
    ensures |url| >= 7
  {
    hide ParamsOk, A.JsDecimal, P.PaymentMemo, Value;
  }

  lemma MachineMembers(m: Json)
    requires MachineShape(m)
    ensures Claim.SafeInt(m, "created_at_ms").Some? && GetStr(m, "item_id").Some? && GetStr(m, "reference").Some?
    ensures GetStr(m, "url").Some?
  {
    hide Url.Visible, Base58.IsPubkey;
  }

  lemma SectionMembers(cfg: Config)
    requires SectionsAgree(cfg)
    ensures Window(cfg).Some? && Decimals(cfg).Some? && cfg.charge.merchant.Some? && cfg.charge.mint.Some?
    ensures cfg.charge.prices.Some? && cfg.watch.prices.Some?
  {
  }

  // ---- Every item charge is accepted -------------------------------------------------------

  /** The machine output of a charge: exactly the twelve members. */
  predicate IsChargeOutput(j: Json, out: Charge.Output) {
    && j.Obj? && j.fields.Keys == OUTPUT_KEYS
    && j.fields["v"] == UInt(1) && j.fields["success"] == Bool(true) && j.fields["status"] == Str("created")
    && j.fields["actuation_eligible"] == Bool(out.item.Some?)
    && j.fields["item_id"] == (if out.item.Some? then Str(out.item.value) else Null)
    && j.fields["reference"] == Str(out.reference) && j.fields["amount"] == Str(out.amount)
    && j.fields["recipient"] == Str(out.recipient) && j.fields["mint"] == Str(out.mint)
    && j.fields["created_at_ms"] == UInt(out.createdMs) && j.fields["url"] == Str(out.url) && j.fields["message"].Str?
  }

  /** The handoff reads the very section that the charge was configured from. */
  predicate SameSection(ps: PluginSection, sec: Charge.Section) {
    && ps.merchant == sec.merchant && ps.mint == sec.mint && ps.decimals == sec.decimals
    && sec.prices == if ps.prices.Some? then ps.prices.value else []
  }

  lemma OutputMembers(j: Json, out: Charge.Output)
    requires IsChargeOutput(j, out) && out.item.Some?
    ensures Get(j, "v") == Some(UInt(1)) && Get(j, "success") == Some(Bool(true)) && Get(j, "status") == Some(Str("created"))
    ensures Get(j, "actuation_eligible") == Some(Bool(true)) && Get(j, "item_id") == Some(Str(out.item.value))
    ensures Get(j, "reference") == Some(Str(out.reference)) && Get(j, "amount") == Some(Str(out.amount))
    ensures Get(j, "recipient") == Some(Str(out.recipient)) && Get(j, "mint") == Some(Str(out.mint))
    ensures Get(j, "created_at_ms") == Some(UInt(out.createdMs)) && Get(j, "url") == Some(Str(out.url))
    ensures j.Obj? && j.fields.Keys <= OUTPUT_KEYS
  {
  }

  lemma ShapeIff(j: Json, out: Charge.Output)
    requires IsChargeOutput(j, out) && out.item.Some? && Url.Visible(out.url)
    requires Base58.IsPubkey(out.reference) && Base58.IsPubkey(out.recipient) && Base58.IsPubkey(out.mint)
    ensures MachineShape(j) <==> out.createdMs <= MAX_SAFE_INTEGER
    ensures Claim.SafeInt(j, "created_at_ms") == if out.createdMs <= MAX_SAFE_INTEGER then Some(out.createdMs) else None
    ensures GetStr(j, "item_id") == out.item && GetStr(j, "reference") == Some(out.reference)
    ensures GetStr(j, "amount") == Some(out.amount) && GetStr(j, "recipient") == Some(out.recipient)
    ensures GetStr(j, "mint") == Some(out.mint) && GetStr(j, "url") == Some(out.url)
  {
    OutputTexts(j, out);
    HeaderHolds(j, out);
    OutputMembers(j, out);
    hide IsChargeOutput, Get, GetStr, Url.Visible, Base58.IsPubkey, MachineHeader;
  }

  lemma OutputTexts(j: Json, out: Charge.Output)
    requires IsChargeOutput(j, out) && out.item.Some?
    ensures GetStr(j, "item_id") == out.item && GetStr(j, "reference") == Some(out.reference)
    ensures GetStr(j, "amount") == Some(out.amount) && GetStr(j, "recipient") == Some(out.recipient)
    ensures GetStr(j, "mint") == Some(out.mint) && GetStr(j, "url") == Some(out.url)
  {
    OutputMembers(j, out);
    hide IsChargeOutput, Get;
  }

  lemma HeaderHolds(j: Json, out: Charge.Output)
    requires IsChargeOutput(j, out) && out.item.Some?
    ensures MachineHeader(j)
  {
    OutputMembers(j, out);
    hide IsChargeOutput, Get;
  }

  lemma {:induction false} CountConcat(a: seq<Url.Param>, b: seq<Url.Param>, name: string)
    ensures Count(a + b, name) == Count(a, name) + Count(b, name)
  {
    if b == [] {
      assert a + b == a;
    } else {
      CountConcat(a, b[..|b| - 1], name);
      assert (a + b)[..|a + b| - 1] == a + b[..|b| - 1];
    }
  }

  lemma {:induction false} ValueConcat(a: seq<Url.Param>, b: seq<Url.Param>, name: string)
    ensures Value(a + b, name) == if Value(a, name).Some? then Value(a, name) else Value(b, name)
  {
    if a == [] {
      assert a + b == b;
    } else {
      ValueConcat(a[1..], b, name);
      assert (a + b)[1..] == a[1..] + b;
    }
  }

  lemma CountOne(p: Url.Param, name: string)
    ensures Count([p], name) == if p.name == name then 1 else 0
    ensures Value([p], name) == if p.name == name then Some(p.value) else None
  {
    assert [p][..0] == [] && [p][1..] == [];
    assert Count([], name) == 0;
  }

  /** A parameter list of the shape that a charge prints. */
  lemma ItemParamsBind(amount: string, mint: string, reference: string, middle: seq<Url.Param>, memo: string)
    requires forall i :: 0 <= i < |middle| ==> middle[i].name == "label" || middle[i].name == "message"
    ensures var ps := [Url.Param("amount", amount), Url.Param("spl-token", mint), Url.Param("reference", reference)]
                      + middle + [Url.Param("memo", memo)];
            && ParamsOk(ps) && Value(ps, "amount") == Some(amount) && Value(ps, "spl-token") == Some(mint)
            && Value(ps, "reference") == Some(reference) && Value(ps, "memo") == Some(memo)
  {
    NamesApart();
    var a, b, c, d := Url.Param("amount", amount), Url.Param("spl-token", mint), Url.Param("reference", reference), Url.Param("memo", memo);
    var ps := [a, b, c] + middle + [d];
    hide Count, Value;
    NotAmong(middle, "amount");
    NotAmong(middle, "spl-token");
    NotAmong(middle, "reference");
    NotAmong(middle, "memo");
    Binds(a, b, c, middle, d, "amount");
    Binds(a, b, c, middle, d, "spl-token");
    Binds(a, b, c, middle, d, "reference");
    Binds(a, b, c, middle, d, "memo");
    AllKnown(a, b, c, middle, d);
    hide KnownName;
  }

  lemma AllKnown(a: Url.Param, b: Url.Param, c: Url.Param, middle: seq<Url.Param>, d: Url.Param)
    requires KnownName(a.name) && KnownName(b.name) && KnownName(c.name) && KnownName(d.name)
    requires forall i :: 0 <= i < |middle| ==> middle[i].name == "label" || middle[i].name == "message"
    ensures forall i :: 0 <= i < |[a, b, c] + middle + [d]| ==> KnownName(([a, b, c] + middle + [d])[i].name)
  {
    var ps := [a, b, c] + middle + [d];
    forall i | 0 <= i < |ps| ensures KnownName(ps[i].name) {
      if 3 <= i < |ps| - 1 {
        assert ps[i] == middle[i - 3];
      }
    }
  }

  /** The names of the parameters are six. */
  lemma NamesApart()
    ensures "amount" != "spl-token" && "amount" != "reference" && "amount" != "memo"
    ensures "spl-token" != "reference" && "spl-token" != "memo" && "reference" != "memo"
    ensures "label" != "amount" && "label" != "spl-token" && "label" != "reference" && "label" != "memo"
    ensures "message" != "amount" && "message" != "spl-token" && "message" != "reference" && "message" != "memo"
  {
    assert |"amount"| == 6 && |"spl-token"| == 9 && |"reference"| == 9 && |"memo"| == 4 && |"label"| == 5 && |"message"| == 7;
    assert "spl-token"[0] == 's' && "reference"[0] == 'r';
  }

  lemma {:induction false} NotAmong(ps: seq<Url.Param>, name: string)
    requires forall i :: 0 <= i < |ps| ==> ps[i].name != name
    ensures Count(ps, name) == 0 && Value(ps, name) == None
    decreases |ps|
  {
    if ps != [] {
      NotAmong(ps[..|ps| - 1], name);
      NotAmong(ps[1..], name);
    }
  }

  lemma Binds(a: Url.Param, b: Url.Param, c: Url.Param, middle: seq<Url.Param>, d: Url.Param, name: string)
    requires Count(middle, name) == 0 && Value(middle, name) == None
    ensures Count([a, b, c] + middle + [d], name) ==
            (if a.name == name then 1 else 0) + (if b.name == name then 1 else 0)
            + (if c.name == name then 1 else 0) + (if d.name == name then 1 else 0)
    ensures Value([a, b, c] + middle + [d], name) ==
            if a.name == name then Some(a.value) else if b.name == name then Some(b.value)
            else if c.name == name then Some(c.value) else if d.name == name then Some(d.value) else None
  {
    CountOne(a, name);
    CountOne(b, name);
    CountOne(c, name);
    CountOne(d, name);
    CountConcat([a], [b], name);
    CountConcat([a] + [b], [c], name);
    CountConcat([a] + [b] + [c], middle, name);
    CountConcat([a] + [b] + [c] + middle, [d], name);
    ValueConcat([a], [b], name);
    ValueConcat([a] + [b], [c], name);
    ValueConcat([a] + [b] + [c], middle, name);
    ValueConcat([a] + [b] + [c] + middle, [d], name);
    assert [a, b, c] == [a] + [b] + [c];
  }

  /** The operator's files let the handoff accept this price. */
  predicate ShopAgrees(cfg: Config, item: string, price: string) {
    && SectionsAgree(cfg)
    && Listable(cfg.watch.prices.value, JsCheck(Decimals(cfg).value))
    && PriceFor(cfg.watch.prices.value, JsCheck(Decimals(cfg).value), item) == Some(price)
  }

  /** They agree, and the quote's expiry is a safe timestamp. */
  predicate Acceptable(cfg: Config, item: string, price: string, nowMs: nat) {
    ShopAgrees(cfg, item, price) && nowMs + Window(cfg).value * 1000 <= MAX_SAFE_INTEGER
  }

  /** A charge's decimals, spelled as digits, are the handoff's. */
  lemma SameDecimals(cfg: Config, sec: Charge.Section, ccfg: Charge.Config)
    requires SectionsAgree(cfg) && SameSection(cfg.charge, sec) && Charge.Decimals(sec.decimals) == Some(ccfg.decimals)
    ensures Decimals(cfg).value == ccfg.decimals
  {
  }

  /** A charge's own price list always passes the handoff's check, at the same price. */
  lemma ChargeSideAgrees(cfg: Config, sec: Charge.Section, ccfg: Charge.Config, item: string)
    requires SectionsAgree(cfg) && SameSection(cfg.charge, sec) && Charge.Loads(sec, ccfg) && item in ccfg.prices
    ensures var check := JsCheck(Decimals(cfg).value);
            Listable(cfg.charge.prices.value, check) && PriceFor(cfg.charge.prices.value, check, item) == Some(ccfg.prices[item])
  {
    SameDecimals(cfg, sec, ccfg);
    ChargePricesAreWatchPrices(sec.prices, ccfg.decimals, ccfg.maxAmount, ccfg.prices);
    WatchAndHandoffAgree(sec.prices, ccfg.decimals, ccfg.prices);
    PriceForIs(ccfg.prices, sec.prices, JsCheck(ccfg.decimals), item);
  }

  lemma AgreedIff(cfg: Config, sec: Charge.Section, ccfg: Charge.Config, item: string)
    requires SectionsAgree(cfg) && SameSection(cfg.charge, sec) && Charge.Loads(sec, ccfg) && item in ccfg.prices
    ensures AgreedPrice(cfg, item) == if ShopAgrees(cfg, item, ccfg.prices[item]) then Some(ccfg.prices[item]) else None
  {
    ChargeSideAgrees(cfg, sec, ccfg, item);
    hide SectionsAgree, SameSection, Charge.Loads, Listable, PriceFor;
  }

  /** A charged item, where it was configured, and the raw output that reports it, wrapped or not. */
  predicate Reported(sec: Charge.Section, ccfg: Charge.Config, args: Charge.Args, reference32: Charge.M.Key, nowMs: nat,
                     print_: Charge.Printer, raw: string, parse: Parser)
  {
    && Charge.Loads(sec, ccfg) && args.item.Some? && args.item.value in ccfg.prices
    && Charge.ExecuteCharge(args, ccfg, reference32, nowMs, print_).Ok?
    && Open(raw, parse).Some?
    && IsChargeOutput(Open(raw, parse).value, Charge.ExecuteCharge(args, ccfg, reference32, nowMs, print_).value)
  }

  /** The order that the handoff persists for a reported charge. */
  function OrderFor(cfg: Config, ccfg: Charge.Config, args: Charge.Args, out: Charge.Output, sha256: string): Claim.Order
    requires SectionsAgree(cfg) && args.item.Some? && args.item.value in ccfg.prices
  {
    Claim.Order(out.reference, args.item.value, ccfg.prices[args.item.value], ccfg.merchant, ccfg.mint, ccfg.decimals,
                Window(cfg).value, out.url, out.createdMs, out.createdMs + Window(cfg).value * 1000, sha256)
  }

  /** The URL of an item charge binds merchant, mint, reference, item and price. */
  lemma ChargeUrlBinds(sec: Charge.Section, ccfg: Charge.Config, args: Charge.Args, reference32: Charge.M.Key, nowMs: nat,
                       print_: Charge.Printer, raw: string, parse: Parser)
    requires Reported(sec, ccfg, args, reference32, nowMs, print_, raw, parse)
    requires var memo := P.PaymentMemo(Charge.Keys.Show(reference32), args.item.value); parse(print_(memo)) == Some(memo)
    ensures var out := Charge.ExecuteCharge(args, ccfg, reference32, nowMs, print_).value;
            && UrlBinds(out.url, ccfg.merchant, ccfg.mint, out.reference, args.item.value, ccfg.prices[args.item.value],
                        ccfg.decimals, parse)
            && Url.Visible(out.url) && |out.url| >= 7 && Url.Href(out.url) == out.url && Base58.IsPubkey(out.reference)
  {
    hide A.JsDecimal, A.CanonicalizeAmount, A.ValidateAmount, A.AmountToBaseUnits, A.ClaimPattern, IsPriceMap, Url.ParseUrl, Url.UrlSpec,
      Url.Visible, Url.Href, ParamsOk, Value, P.PaymentMemo, IsChargeOutput, Open, Charge.CharCount, Charge.TakeChars, Base58.DecodePubkey,
      Charge.Keys.Show, Charge.Decimals;
    var item, reference := args.item.value, Charge.Keys.Show(reference32);
    var price := ccfg.prices[item];
    Charge.ItemCharge(sec, ccfg, args, reference32, nowMs, print_, true);
    PricesAreCanonical(sec.prices, ccfg.decimals, ccfg.maxAmount, ccfg.prices, item);
    A.JsAgrees(price, ccfg.decimals);
    Charge.Keys.ShowDecodes(reference32);
    var note := if args.note.Some? then Some(Charge.TakeChars(args.note.value, Charge.NOTE_MAX_CHARS)) else None;
    var memo := print_(P.PaymentMemo(reference, item));
    ItemParamsBind(price, ccfg.mint, reference, Url.Optional("label", ccfg.label_) + Url.Optional("message", note), memo);
    assert Charge.ItemParams(ccfg, price, item, args.note, reference, print_) ==
      [Url.Param("amount", price), Url.Param("spl-token", ccfg.mint), Url.Param("reference", reference)]
      + (Url.Optional("label", ccfg.label_) + Url.Optional("message", note)) + [Url.Param("memo", memo)];
    Url.UrlIsHref(ccfg.merchant, price, ccfg.decimals, ccfg.maxAmount, Some(ccfg.mint), Some(reference), ccfg.label_, note, Some(memo));
  }

  /**
   * The handoff accepts an item charge, at the charged price and under the charge's own URL, exactly when
   * its raw output is no larger than 64 KiB, the operator's two plugin sections are spelled out and agree
   * on this item and the quote's expiry is a safe timestamp.
   */
  lemma HandoffIff(sec: Charge.Section, ccfg: Charge.Config, args: Charge.Args, reference32: Charge.M.Key, nowMs: nat,
                   print_: Charge.Printer, raw: string, cfg: Config, parse: Parser, sha256: string)
    requires Reported(sec, ccfg, args, reference32, nowMs, print_, raw, parse) && SameSection(cfg.charge, sec)
    requires var memo := P.PaymentMemo(Charge.Keys.Show(reference32), args.item.value); parse(print_(memo)) == Some(memo)
    ensures var out := Charge.ExecuteCharge(args, ccfg, reference32, nowMs, print_).value;
            HandoffSpec(raw, cfg, parse, sha256) ==
            if |raw| <= Claim.MAX_BYTES && Acceptable(cfg, args.item.value, ccfg.prices[args.item.value], nowMs)
            then Some(OrderFor(cfg, ccfg, args, out, sha256)) else None
  {
    hide MachineShape, UrlBinds, AgreedPrice, A.JsDecimal, Charge.Keys.Show, P.PaymentMemo, IsChargeOutput, Base58.DecodePubkey,
      Url.Visible, Url.Href, Url.UrlSpec, OrderSpec, Open, Url.ParseUrl, Charge.ExecuteCharge, Charge.Loads, Charge.ItemParams, GetStr,
      Claim.SafeInt, SectionsAgree, SameSection, ShopAgrees, Window, Decimals;
    var out, m := Charge.ExecuteCharge(args, ccfg, reference32, nowMs, print_).value, Open(raw, parse).value;
    Charge.ItemCharge(sec, ccfg, args, reference32, nowMs, print_, true);
    ChargeUrlBinds(sec, ccfg, args, reference32, nowMs, print_, raw, parse);
    LoadedNames(sec, ccfg);
    ShapeIff(m, out);
    if SectionsAgree(cfg) && MachineShape(m) {
      AgreedIff(cfg, sec, ccfg, args.item.value);
      SameNames(cfg, sec, ccfg);
      LoadedPrice(cfg, sec, ccfg, args.item.value);
      SpecOf(m, cfg, parse, sha256, out, args.item.value, ccfg.prices[args.item.value]);
    } else {
      SpecRefuses(m, cfg, parse, sha256);
      NotAcceptable(cfg, args.item.value, ccfg.prices[args.item.value], nowMs);
    }
  }

  lemma NotAcceptable(cfg: Config, item: string, price: string, nowMs: nat)
    ensures Acceptable(cfg, item, price, nowMs) ==> SectionsAgree(cfg) && nowMs <= MAX_SAFE_INTEGER
  {
    hide Listable, PriceFor, Digits;
  }

  lemma LoadedNames(sec: Charge.Section, ccfg: Charge.Config)
    requires Charge.Loads(sec, ccfg)
    ensures Base58.IsPubkey(ccfg.merchant) && Base58.IsPubkey(ccfg.mint)
  {
    hide A.CanonicalizeAmount, IsPriceMap, Base58.IsPubkey, Charge.CharCount;
  }

  /** A loaded price survives the JavaScript check unchanged. */
  lemma LoadedPrice(cfg: Config, sec: Charge.Section, ccfg: Charge.Config, item: string)
    requires SectionsAgree(cfg) && SameSection(cfg.charge, sec) && Charge.Loads(sec, ccfg) && item in ccfg.prices
    ensures Decimals(cfg) == Some(ccfg.decimals) && A.JsDecimal(ccfg.prices[item], ccfg.decimals) == Some(ccfg.prices[item])
  {
    SameDecimals(cfg, sec, ccfg);
    PricesAreCanonical(sec.prices, ccfg.decimals, ccfg.maxAmount, ccfg.prices, item);
    A.JsAgrees(ccfg.prices[item], ccfg.decimals);
  }

  lemma SameNames(cfg: Config, sec: Charge.Section, ccfg: Charge.Config)
    requires SectionsAgree(cfg) && SameSection(cfg.charge, sec) && Charge.Loads(sec, ccfg)
    ensures cfg.charge.merchant == Some(ccfg.merchant) && cfg.charge.mint == Some(ccfg.mint)
  {
    hide A.CanonicalizeAmount, IsPriceMap, Base58.IsPubkey, Charge.CharCount;
  }

  lemma SpecRefuses(m: Json, cfg: Config, parse: Parser, sha256: string)
    requires !MachineShape(m) || !SectionsAgree(cfg)
    ensures OrderSpec(m, cfg, parse, sha256) == None
  {
    hide MachineShape, SectionsAgree;
  }

  /** With everything but the price and the expiry settled, those two decide. */
  lemma SpecOf(m: Json, cfg: Config, parse: Parser, sha256: string, out: Charge.Output, item: string, price: string)
    requires MachineShape(m) && SectionsAgree(cfg)
    requires Claim.SafeInt(m, "created_at_ms") == Some(out.createdMs) && GetStr(m, "item_id") == Some(item)
    requires GetStr(m, "reference") == Some(out.reference) && GetStr(m, "amount") == Some(out.amount)
    requires GetStr(m, "recipient") == Some(out.recipient) && GetStr(m, "mint") == Some(out.mint) && GetStr(m, "url") == Some(out.url)
    requires cfg.charge.merchant == Some(out.recipient) && cfg.charge.mint == Some(out.mint) && out.amount == price
    requires A.JsDecimal(price, Decimals(cfg).value) == Some(price)
    requires AgreedPrice(cfg, item).Some? ==> AgreedPrice(cfg, item) == Some(price)
    requires UrlBinds(out.url, out.recipient, out.mint, out.reference, item, price, Decimals(cfg).value, parse)
    requires |out.url| >= 7 && Url.Href(out.url) == out.url
    ensures OrderSpec(m, cfg, parse, sha256) ==
            if AgreedPrice(cfg, item).Some? && out.createdMs + Window(cfg).value * 1000 <= MAX_SAFE_INTEGER
            then Some(Claim.Order(out.reference, item, price, out.recipient, out.mint, Decimals(cfg).value, Window(cfg).value,
                                  out.url, out.createdMs, out.createdMs + Window(cfg).value * 1000, sha256))
            else None
  {
    hide MachineShape, SectionsAgree, A.JsDecimal, UrlBinds, Url.Href, AgreedPrice, Window, Decimals, Claim.SafeInt, GetStr;
    SectionMembers(cfg);
  }

  /** What the handoff persists is a sound order. */
  lemma PersistedIsSound(raw: string, cfg: Config, parse: Parser, sha256: string)
    requires HandoffSpec(raw, cfg, parse, sha256).Some? && Claim.IsSha256(sha256)
    ensures Claim.SoundOrder(HandoffSpec(raw, cfg, parse, sha256).value)
  {
    hide OrderSpec, Open, Claim.SoundOrder;
    MachineIsSound(Open(raw, parse).value, cfg, parse, sha256);
  }

  lemma MachineIsSound(m: Json, cfg: Config, parse: Parser, sha256: string)
    requires OrderSpec(m, cfg, parse, sha256).Some? && Claim.IsSha256(sha256)
    ensures Claim.SoundOrder(OrderSpec(m, cfg, parse, sha256).value)
  {
    hide UrlBinds, Url.Href, A.JsDecimal, Listable, PriceFor, Base58.DecodePubkey, Url.Visible, IsItemId, A.ClaimPattern, Claim.IsSha256;
    PricedItem(cfg, GetStr(m, "item_id").value);
  }

  /** An agreed price is canonical, and its item has a proper id. */
  lemma PricedItem(cfg: Config, item: string)
    requires SectionsAgree(cfg) && AgreedPrice(cfg, item).Some?
    ensures IsItemId(item) && A.ClaimPattern(AgreedPrice(cfg, item).value)
  {
    hide IsItemId, A.ClaimPattern, A.JsDecimal, A.CanonicalizeAmount;
    var d := Decimals(cfg).value;
    var ps := cfg.charge.prices.value;
    var i := PricedAt(ps, JsCheck(d), item);
    assert Usable(ps[i], JsCheck(d));
    A.JsAgrees(ps[i].amount, d);
    A.CanonicalKeepsUnits(ps[i].amount, d);
    A.ClaimPatternIff(AgreedPrice(cfg, item).value, d);
  }

  lemma {:induction false} PricedAt(ps: seq<Piece>, check: Check, item: string) returns (i: nat)
    requires PriceFor(ps, check, item).Some?
    ensures i < |ps| && ps[i].Pair? && ps[i].item == item && PriceFor(ps, check, item) == check(ps[i].amount)
  {
    if ps[0].Pair? && ps[0].item == item {
      i := 0;
    } else {
      i := PricedAt(ps[1..], check, item);
      i := i + 1;
    }
  }
}
