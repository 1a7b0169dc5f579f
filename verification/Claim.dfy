/** scripts/trusted-order-claim.mjs: matching a verified payment with its order, and the one claim on it. */
module Claim {
  import opened Wrappers
  import opened Json
  import A = Amount
  import Base58
  import Chain
  import P = Payment
  import Prices

  const MAX_BYTES: nat := 65_536
  const MAX_WINDOW_S: nat := 86_400
  const CLOCK_SKEW_MS: nat := 30_000

  const WATCH_KEYS: set<string> := {
    "v", "success", "status", "payer", "signature", "slot", "reference", "item_id", "amount", "recipient", "mint",
    "token_decimals", "payment_window_s", "payment_block_time_s", "payment_verified", "actuation_authorized",
    "requires_atomic_claim", "message"}

  const ORDER_KEYS: set<string> := {
    "v", "status", "reference", "item_id", "amount", "recipient", "mint", "token_decimals", "payment_window_s", "url",
    "created_at_ms", "expires_at_ms", "raw_output_sha256"}

  /** `String(value)`, which a regular expression test applies to whatever it is given. */
  type ToText = Json -> string

  /** `Number.isSafeInteger` of a number that is not negative. */
  function SafeInt(j: Json, key: string): (n: Option<nat>)
    ensures n.Some? ==> n.value <= MAX_SAFE_INTEGER
  {
    match Get(j, key)
    case Some(UInt(n)) => if n <= MAX_SAFE_INTEGER then Some(n) else None
    case _ => None
  }

  /** `===` on parsed members: two objects or arrays are never the same one. */
  predicate Same(a: Json, b: Json, key: string) {
    Get(a, key).Some? && Get(a, key) == Get(b, key) && !Get(a, key).value.Obj? && !Get(a, key).value.Arr?
  }

  predicate PubkeyMember(j: Json, key: string) {
    var s := GetStr(j, key);
    s.Some? && Base58.IsPubkey(s.value)
  }

  /** `/^[a-f0-9]{64}$/`. */
  predicate IsSha256(s: string) {
    |s| == 64 && forall i :: 0 <= i < |s| ==> 'a' <= s[i] <= 'f' || '0' <= s[i] <= '9'
  }

  // ---- The checks --------------------------------------------------------------------------

  /** A `success`/`output` wrapper is opened; anything else is taken as it is. */
  function Unwrap(parsed: Json, parse: Parser): Option<Json> {
    match GetStr(parsed, "output")
    case None => Some(parsed)
    case Some(output) =>
      if !(parsed.fields.Keys <= {"success", "output", "error"}) then None
      else if Get(parsed, "success") != Some(Bool(true)) then None
      else if Get(parsed, "error").Some? && Get(parsed, "error") != Some(Null) then None
      else if |output| > MAX_BYTES then None
      else parse(output)
  }

  /** A version-1 verified payment that authorizes nothing by itself. */
  predicate WatchHeader(watch: Json) {
    && watch.Obj? && watch.fields.Keys == WATCH_KEYS
    && Get(watch, "v") == Some(UInt(1)) && Get(watch, "success") == Some(Bool(true))
    && Get(watch, "status") == Some(Str("paid")) && Get(watch, "payment_verified") == Some(Bool(true))
    && Get(watch, "actuation_authorized") == Some(Bool(false)) && Get(watch, "requires_atomic_claim") == Some(Bool(true))
  }

  predicate WatchShape(watch: Json) {
    && WatchHeader(watch)
    && (var slot := SafeInt(watch, "slot"); slot.Some? && slot.value > 0)
    && (var sig := GetStr(watch, "signature"); sig.Some? && Chain.IsSignature(sig.value))
    && PubkeyMember(watch, "payer") && PubkeyMember(watch, "recipient") && PubkeyMember(watch, "mint")
    && GetStr(watch, "message").Some?
  }

  predicate OrderShape(order: Json) {
    && order.Obj? && order.fields.Keys == ORDER_KEYS
    && Get(order, "v") == Some(UInt(1)) && Get(order, "status") == Some(Str("created"))
    && PubkeyMember(order, "reference") && PubkeyMember(order, "recipient") && PubkeyMember(order, "mint")
    && GetStr(order, "url").Some?
  }

  predicate DecimalsMember(j: Json) {
    match Get(j, "token_decimals")
    case Some(UInt(n)) => n <= 18
    case _ => false
  }

  predicate WindowMember(j: Json) {
    var w := SafeInt(j, "payment_window_s");
    w.Some? && 1 <= w.value <= MAX_WINDOW_S
  }

  predicate AmountMember(j: Json, text: ToText) {
    Get(j, "amount").Some? && A.ClaimPattern(text(Get(j, "amount").value))
  }

  predicate Timestamps(order: Json)
    requires WindowMember(order)
  {
    var created, expires := SafeInt(order, "created_at_ms"), SafeInt(order, "expires_at_ms");
    && created.Some? && expires.Some?
    && expires.value == created.value + SafeInt(order, "payment_window_s").value * 1000
  }

  /** The payment landed no earlier than the quote, up to clock skew, and no later than its expiry. */
  predicate InQuote(blockTimeS: nat, createdMs: nat, expiresMs: nat) {
    createdMs <= blockTimeS * 1000 + CLOCK_SKEW_MS && blockTimeS * 1000 <= expiresMs
  }

  /** All of `validateClaim` but opening the watch result. */
  predicate Claimable(watch: Json, order: Json, text: ToText) {
    && WatchShape(watch) && OrderShape(order)
    && AmountMember(order, text) && AmountMember(watch, text)
    && (Get(order, "item_id").Some? && Prices.IsItemId(text(Get(order, "item_id").value)))
    && DecimalsMember(order) && DecimalsMember(watch) && WindowMember(order) && WindowMember(watch)
    && Timestamps(order)
    && (var t := SafeInt(watch, "payment_block_time_s"); t.Some? && t.value <= MAX_SAFE_INTEGER / 1000)
    && (Get(order, "raw_output_sha256").Some? && IsSha256(text(Get(order, "raw_output_sha256").value)))
    && Same(watch, order, "reference") && Same(watch, order, "item_id") && Same(watch, order, "amount")
    && Same(watch, order, "recipient") && Same(watch, order, "mint") && Same(watch, order, "token_decimals")
    && Same(watch, order, "payment_window_s")
    && InQuote(SafeInt(watch, "payment_block_time_s").value, SafeInt(order, "created_at_ms").value,
               SafeInt(order, "expires_at_ms").value)
  }

  /** `validateClaim`: the opened watch result, or `None` for a refusal. */
  function ValidateClaim(raw: string, order: Json, parse: Parser, text: ToText): (r: Option<Json>)
    ensures r.Some? ==> Claimable(r.value, order, text)
  {
    if |raw| > MAX_BYTES || parse(raw).None? then None else
    match Unwrap(parse(raw).value, parse)
    case None => None
    case Some(watch) => if Claimable(watch, order, text) then Some(watch) else None
  }

  datatype Inspected = Inspected(order: Json, watch: Json)

  /** `inspectOrder`, over the order files by reference. */
  function Inspect(reference: string, raw: string, orders: map<string, string>, parse: Parser, text: ToText)
    : (r: Option<Inspected>)
    ensures r.Some? ==> GetStr(r.value.order, "reference") == Some(reference) && Claimable(r.value.watch, r.value.order, text)
  {
    if !Base58.IsPubkey(reference) || reference !in orders || |orders[reference]| > MAX_BYTES then None else
    match parse(orders[reference])
    case None => None
    case Some(order) =>
      if GetStr(order, "reference") != Some(reference) then None else
      match ValidateClaim(raw, order, parse, text)
      case None => None
      case Some(watch) => Some(Inspected(order, watch))
  }

  // ---- The claim ---------------------------------------------------------------------------

  datatype ClaimRecord = ClaimRecord(
    driver: string,
    reference: string,
    item: Json,
    amount: Json,
    recipient: string,
    mint: string,
    decimals: nat,
    paymentSignature: string,
    paymentSlot: nat,
    paymentBlockTimeS: nat,
    claimedAtMs: nat)

  function RecordOf(reference: string, i: Inspected, driver: string, nowMs: nat, text: ToText): ClaimRecord
    requires Claimable(i.watch, i.order, text)
  {
    ClaimRecord(driver, reference, Get(i.order, "item_id").value, Get(i.order, "amount").value,
                GetStr(i.order, "recipient").value, GetStr(i.order, "mint").value, Get(i.order, "token_decimals").value.n,
                GetStr(i.watch, "signature").value, SafeInt(i.watch, "slot").value,
                SafeInt(i.watch, "payment_block_time_s").value, nowMs)
  }

  /** `claimOrder` before the exclusive create: what would be written. */
  function ClaimSpec(reference: string, raw: string, driver: string, nowMs: nat, orders: map<string, string>,
                     parse: Parser, text: ToText): Option<ClaimRecord>
  {
    if !Prices.IsItemId(driver) then None else
    match Inspect(reference, raw, orders, parse, text)
    case None => None
    case Some(i) => if nowMs > MAX_SAFE_INTEGER then None else Some(RecordOf(reference, i, driver, nowMs, text))
  }

  /** The durable orders directory: immutable order files and exclusive claim files, by reference. */
  class OrdersDirectory {
    var orders: map<string, string>
    var claims: map<string, ClaimRecord>

    constructor ()
      ensures orders == map[] && claims == map[]
    {
      orders, claims := map[], map[];
    }

    /** Exclusive create; persisting the same text again is accepted, another text is not. */
    method PersistOrder(reference: string, serialized: string) returns (ok: bool)
      modifies this`orders
      ensures ok <==> (reference in old(orders) ==> old(orders)[reference] == serialized)
      ensures orders == if ok then old(orders)[reference := serialized] else old(orders)
      ensures forall r :: r in old(orders) ==> r in orders && orders[r] == old(orders)[r]
    {
      if reference in orders {
        ok := orders[reference] == serialized;
        assert ok ==> orders == orders[reference := serialized];
        return;
      }
      orders := orders[reference := serialized];
      ok := true;
    }

    /** A claim is granted at most once, for a matching payment of this very order, and changes nothing else. */
    method ClaimOrder(reference: string, raw: string, driver: string, nowMs: nat, parse: Parser, text: ToText)
      returns (r: Option<ClaimRecord>)
      modifies this`claims
      ensures r == if reference in old(claims) then None else ClaimSpec(reference, raw, driver, nowMs, orders, parse, text)
      ensures claims == if r.Some? then old(claims)[reference := r.value] else old(claims)
      ensures forall c :: c in old(claims) ==> c in claims && claims[c] == old(claims)[c]
    {
      hide Inspect;
      if !Prices.IsItemId(driver) {
        return None;
      }
      var i := Inspect(reference, raw, orders, parse, text);
      if i.None? || nowMs > MAX_SAFE_INTEGER {
        return None;
      }
      var claim := RecordOf(reference, i.value, driver, nowMs, text);
      if reference in claims {
        return None;
      }
      claims := claims[reference := claim];
      return Some(claim);
    }
  }

  // ---- Typed records -----------------------------------------------------------------------

  /** The machine output of a `Paid` verdict: exactly the eighteen members. */
  predicate IsWatchOutput(j: Json, p: P.Payment) {
    && j.Obj? && j.fields.Keys == WATCH_KEYS
    && j.fields["v"] == UInt(1) && j.fields["success"] == Bool(true) && j.fields["status"] == Str("paid")
    && j.fields["payer"] == Str(p.payer) && j.fields["signature"] == Str(p.signature) && j.fields["slot"] == UInt(p.slot)
    && j.fields["payment_block_time_s"] == UInt(p.blockTimeS) && j.fields["reference"] == Str(p.reference)
    && j.fields["item_id"] == Str(p.item) && j.fields["amount"] == Str(p.amount)
    && j.fields["recipient"] == Str(p.recipient) && j.fields["mint"] == Str(p.mint)
    && j.fields["token_decimals"] == UInt(p.decimals as int) && j.fields["payment_window_s"] == UInt(p.windowS)
    && j.fields["payment_verified"] == Bool(true) && j.fields["actuation_authorized"] == Bool(false)
    && j.fields["requires_atomic_claim"] == Bool(true) && j.fields["message"].Str?
  }

  datatype Order = Order(
    reference: string,
    item: string,
    amount: string,
    recipient: string,
    mint: string,
    decimals: nat,
    windowS: nat,
    url: string,
    createdMs: nat,
    expiresMs: nat,
    sha256: string)

  /** The order file that the handoff writes: exactly the thirteen members. */
  predicate IsOrder(j: Json, o: Order) {
    && j.Obj? && j.fields.Keys == ORDER_KEYS
    && j.fields["v"] == UInt(1) && j.fields["status"] == Str("created")
    && j.fields["reference"] == Str(o.reference) && j.fields["item_id"] == Str(o.item)
    && j.fields["amount"] == Str(o.amount) && j.fields["recipient"] == Str(o.recipient) && j.fields["mint"] == Str(o.mint)
    && j.fields["token_decimals"] == UInt(o.decimals) && j.fields["payment_window_s"] == UInt(o.windowS)
    && j.fields["url"] == Str(o.url) && j.fields["created_at_ms"] == UInt(o.createdMs)
    && j.fields["expires_at_ms"] == UInt(o.expiresMs) && j.fields["raw_output_sha256"] == Str(o.sha256)
  }

  /** What the handoff guarantees of an order. */
  predicate SoundOrder(o: Order) {
    && Base58.IsPubkey(o.reference) && Base58.IsPubkey(o.recipient) && Base58.IsPubkey(o.mint)
    && Prices.IsItemId(o.item) && A.ClaimPattern(o.amount) && o.decimals <= 18 && 1 <= o.windowS <= MAX_WINDOW_S
    && o.createdMs <= MAX_SAFE_INTEGER && o.expiresMs <= MAX_SAFE_INTEGER && o.expiresMs == o.createdMs + o.windowS * 1000
    && IsSha256(o.sha256)
  }

  /** Same charge, same economics, same policy. */
  predicate Matches(p: P.Payment, o: Order) {
    && p.reference == o.reference && p.item == o.item && p.amount == o.amount && p.recipient == o.recipient
    && p.mint == o.mint && p.decimals as int == o.decimals && p.windowS == o.windowS
  }

  /** A payment record that names a real signature, payer and slot. */
  predicate SoundPayment(p: P.Payment) {
    && Chain.IsSignature(p.signature) && Base58.IsPubkey(p.payer) && 0 < p.slot <= MAX_SAFE_INTEGER
    && p.blockTimeS <= MAX_SAFE_INTEGER / 1000
  }

  predicate TextOfStrings(text: ToText, o: Order, p: P.Payment) {
    && text(Str(o.amount)) == o.amount && text(Str(p.amount)) == p.amount
    && text(Str(o.item)) == o.item && text(Str(o.sha256)) == o.sha256
  }

  /**
   * A verified payment and a sound order make a claim exactly when they agree on everything and the
   * payment landed inside the quote.
   */
  lemma ClaimableIff(watch: Json, p: P.Payment, order: Json, o: Order, text: ToText)
    requires IsWatchOutput(watch, p) && IsOrder(order, o) && SoundOrder(o) && TextOfStrings(text, o, p)
    ensures Claimable(watch, order, text) <==> Matches(p, o) && SoundPayment(p) && InQuote(p.blockTimeS, o.createdMs, o.expiresMs)
  {
    WatchMembers(watch, p);
    OrderMembers(order, o);
    WatchShapeIff(watch, p);
    OrderChecks(order, o, text, p);
    SameIff(watch, p, order, o);
    WatchNumbers(watch, p);
    hide IsWatchOutput, IsOrder, Get, A.ClaimPattern, Base58.IsPubkey, Chain.IsSignature, Prices.IsItemId, IsSha256, WatchShape, OrderShape,
      Same, SafeInt, DecimalsMember, WindowMember, Timestamps, SoundOrder;
    SoundParts(o);
  }

  lemma SoundParts(o: Order)
    requires SoundOrder(o)
    ensures Base58.IsPubkey(o.recipient) && Base58.IsPubkey(o.mint) && A.ClaimPattern(o.amount)
    ensures o.decimals <= 18 && 1 <= o.windowS <= MAX_WINDOW_S
  {
    hide A.ClaimPattern, Base58.IsPubkey, Prices.IsItemId, IsSha256;
  }

  lemma WatchShapeIff(watch: Json, p: P.Payment)
    requires IsWatchOutput(watch, p)
    ensures WatchShape(watch) <==>
            && Chain.IsSignature(p.signature) && Base58.IsPubkey(p.payer) && 0 < p.slot <= MAX_SAFE_INTEGER
            && Base58.IsPubkey(p.recipient) && Base58.IsPubkey(p.mint)
  {
    WatchHeaderHolds(watch, p);
    WatchMembers(watch, p);
    hide IsWatchOutput, Get, Base58.IsPubkey, Chain.IsSignature, WatchHeader;
  }

  lemma WatchHeaderHolds(watch: Json, p: P.Payment)
    requires IsWatchOutput(watch, p)
    ensures WatchHeader(watch)
  {
    WatchMembers(watch, p);
    hide IsWatchOutput, Get;
  }

  lemma WatchNumbers(watch: Json, p: P.Payment)
    requires IsWatchOutput(watch, p)
    ensures DecimalsMember(watch) <==> p.decimals as int <= 18
    ensures WindowMember(watch) <==> 1 <= p.windowS <= MAX_WINDOW_S
    ensures SafeInt(watch, "payment_block_time_s") == if p.blockTimeS <= MAX_SAFE_INTEGER then Some(p.blockTimeS) else None
  {
    WatchMembers(watch, p);
    hide IsWatchOutput, Get;
  }

  /** A sound order passes every check that is about the order alone. */
  lemma OrderChecks(order: Json, o: Order, text: ToText, p: P.Payment)
    requires IsOrder(order, o) && SoundOrder(o) && TextOfStrings(text, o, p)
    ensures OrderShape(order) && DecimalsMember(order) && WindowMember(order) && Timestamps(order)
    ensures AmountMember(order, text) && Prices.IsItemId(text(Get(order, "item_id").value))
    ensures IsSha256(text(Get(order, "raw_output_sha256").value))
    ensures SafeInt(order, "created_at_ms") == Some(o.createdMs) && SafeInt(order, "expires_at_ms") == Some(o.expiresMs)
  {
    OrderMembers(order, o);
    OrderNumbers(order, o);
    hide IsOrder, Get, A.ClaimPattern, Base58.IsPubkey, Prices.IsItemId, IsSha256, DecimalsMember, WindowMember, Timestamps, SafeInt;
  }

  lemma OrderNumbers(order: Json, o: Order)
    requires IsOrder(order, o) && SoundOrder(o)
    ensures DecimalsMember(order) && WindowMember(order) && Timestamps(order)
    ensures SafeInt(order, "created_at_ms") == Some(o.createdMs) && SafeInt(order, "expires_at_ms") == Some(o.expiresMs)
  {
    OrderMembers(order, o);
    hide IsOrder, Get, A.ClaimPattern, Base58.IsPubkey, Prices.IsItemId, IsSha256;
    SafeIntIs(order, "created_at_ms", o.createdMs);
    SafeIntIs(order, "expires_at_ms", o.expiresMs);
    SafeIntIs(order, "payment_window_s", o.windowS);
    hide SafeInt;
  }

  lemma SafeIntIs(j: Json, key: string, n: nat)
    requires Get(j, key) == Some(UInt(n)) && n <= MAX_SAFE_INTEGER
    ensures SafeInt(j, key) == Some(n)
  {
  }

  lemma SameIff(watch: Json, p: P.Payment, order: Json, o: Order)
    requires IsWatchOutput(watch, p) && IsOrder(order, o)
    ensures && Same(watch, order, "reference") && Same(watch, order, "item_id") && Same(watch, order, "amount")
            && Same(watch, order, "recipient") && Same(watch, order, "mint") && Same(watch, order, "token_decimals")
            && Same(watch, order, "payment_window_s")
            <==> Matches(p, o)
  {
    WatchMembers(watch, p);
    OrderMembers(order, o);
    hide IsWatchOutput, IsOrder, Get;
  }

  lemma WatchMembers(j: Json, p: P.Payment)
    requires IsWatchOutput(j, p)
    ensures j.Obj? && j.fields.Keys == WATCH_KEYS
    ensures Get(j, "v") == Some(UInt(1)) && Get(j, "success") == Some(Bool(true)) && Get(j, "status") == Some(Str("paid"))
    ensures Get(j, "payer") == Some(Str(p.payer)) && Get(j, "signature") == Some(Str(p.signature))
    ensures Get(j, "slot") == Some(UInt(p.slot)) && Get(j, "payment_block_time_s") == Some(UInt(p.blockTimeS))
    ensures Get(j, "reference") == Some(Str(p.reference)) && Get(j, "item_id") == Some(Str(p.item))
    ensures Get(j, "amount") == Some(Str(p.amount)) && Get(j, "recipient") == Some(Str(p.recipient))
    ensures Get(j, "mint") == Some(Str(p.mint)) && Get(j, "token_decimals") == Some(UInt(p.decimals as int))
    ensures Get(j, "payment_window_s") == Some(UInt(p.windowS)) && Get(j, "payment_verified") == Some(Bool(true))
    ensures Get(j, "actuation_authorized") == Some(Bool(false)) && Get(j, "requires_atomic_claim") == Some(Bool(true))
    ensures GetStr(j, "message").Some?
  {
  }

  lemma OrderMembers(j: Json, o: Order)
    requires IsOrder(j, o)
    ensures j.Obj? && j.fields.Keys == ORDER_KEYS
    ensures Get(j, "v") == Some(UInt(1)) && Get(j, "status") == Some(Str("created"))
    ensures Get(j, "reference") == Some(Str(o.reference)) && Get(j, "item_id") == Some(Str(o.item))
    ensures Get(j, "amount") == Some(Str(o.amount)) && Get(j, "recipient") == Some(Str(o.recipient))
    ensures Get(j, "mint") == Some(Str(o.mint)) && Get(j, "token_decimals") == Some(UInt(o.decimals))
    ensures Get(j, "payment_window_s") == Some(UInt(o.windowS)) && Get(j, "url") == Some(Str(o.url))
    ensures Get(j, "created_at_ms") == Some(UInt(o.createdMs)) && Get(j, "expires_at_ms") == Some(UInt(o.expiresMs))
    ensures Get(j, "raw_output_sha256") == Some(Str(o.sha256))
  {
  }
}
