/** scripts/trusted-order-claim.mjs: what the claim script takes and what it records, written out member by member. */
module Grant {
  // Claim.dfy checks the two files step by step. Here both are spelled out for one deal, and for all inputs there is
  // an exact condition for a claim, with every member of the claim record.

  import opened Wrappers
  import opened Json
  import opened Spelling
  import A = Amount
  import Base58
  import Chain
  import Claim
  import Prices

  /** What a watch result and an order file have to say alike, and what each adds. */
  datatype Deal = Deal(
    reference: string,
    item: Json,                   // text, or what prints like it
    amount: Json,
    recipient: string,
    mint: string,
    decimals: nat,
    windowS: nat,
    payer: string,                // the watch result
    signature: string,
    slot: nat,
    blockTimeS: nat,
    url: string,                  // the order file
    createdMs: nat,
    sha256: Json)

  /** The watch result: a verified payment that authorizes nothing by itself. */
  predicate Reports(watch: Json, d: Deal) {
    && watch.Obj?
    && watch.fields.Keys == {
         "v", "success", "status", "payer", "signature", "slot", "reference", "item_id", "amount", "recipient", "mint",
         "token_decimals", "payment_window_s", "payment_block_time_s", "payment_verified", "actuation_authorized",
         "requires_atomic_claim", "message"}
    && Has(watch, "v", UInt(1)) && Has(watch, "success", Bool(true)) && Has(watch, "status", Str("paid"))
    && Has(watch, "payment_verified", Bool(true)) && Has(watch, "actuation_authorized", Bool(false))
    && Has(watch, "requires_atomic_claim", Bool(true)) && watch.fields["message"].Str?
    && Has(watch, "payer", Str(d.payer)) && Has(watch, "signature", Str(d.signature)) && Has(watch, "slot", UInt(d.slot))
    && Has(watch, "payment_block_time_s", UInt(d.blockTimeS))
    && Has(watch, "reference", Str(d.reference)) && Has(watch, "item_id", d.item) && Has(watch, "amount", d.amount)
    && Has(watch, "recipient", Str(d.recipient)) && Has(watch, "mint", Str(d.mint))
    && Has(watch, "token_decimals", UInt(d.decimals)) && Has(watch, "payment_window_s", UInt(d.windowS))
  }

  /** The order file: the quote for it. */
  predicate Quotes(order: Json, d: Deal) {
    && order.Obj?
    && order.fields.Keys == {
         "v", "status", "reference", "item_id", "amount", "recipient", "mint", "token_decimals", "payment_window_s", "url",
         "created_at_ms", "expires_at_ms", "raw_output_sha256"}
    && Has(order, "v", UInt(1)) && Has(order, "status", Str("created")) && Has(order, "url", Str(d.url))
    && Has(order, "created_at_ms", UInt(d.createdMs)) && Has(order, "expires_at_ms", UInt(d.createdMs + d.windowS * 1000))
    && Has(order, "raw_output_sha256", d.sha256)
    && Has(order, "reference", Str(d.reference)) && Has(order, "item_id", d.item) && Has(order, "amount", d.amount)
    && Has(order, "recipient", Str(d.recipient)) && Has(order, "mint", Str(d.mint))
    && Has(order, "token_decimals", UInt(d.decimals)) && Has(order, "payment_window_s", UInt(d.windowS))
  }

  /** The values are well formed, and the payment landed inside the quote, up to 30 s before it. */
  predicate Good(d: Deal, text: Claim.ToText) {
    && Bytes(d.reference, 32) && Bytes(d.recipient, 32) && Bytes(d.mint, 32) && Bytes(d.payer, 32) && Bytes(d.signature, 64)
    && IsId(text(d.item)) && !d.item.Obj? && !d.item.Arr?
    && A.ClaimPattern(text(d.amount)) && !d.amount.Obj? && !d.amount.Arr?
    && d.decimals <= 18 && 1 <= d.windowS <= 86_400 && IsDigest(text(d.sha256))
    && 0 < d.slot <= 9_007_199_254_740_991 && d.blockTimeS * 1000 <= 9_007_199_254_740_991
    && d.createdMs + d.windowS * 1000 <= 9_007_199_254_740_991
    && d.createdMs <= d.blockTimeS * 1000 + 30_000 && d.blockTimeS * 1000 <= d.createdMs + d.windowS * 1000
  }

  /** A raw result is taken as it is, or out of its wrapper. */
  predicate Opens(parsed: Json, watch: Json, parse: Parser) {
    if parsed.Obj? && "output" in parsed.fields && parsed.fields["output"].Str?
    then && parsed.fields.Keys <= {"success", "output", "error"}
         && Has(parsed, "success", Bool(true)) && ("error" in parsed.fields ==> parsed.fields["error"].Null?)
         && |parsed.fields["output"].s| <= 65_536 && parse(parsed.fields["output"].s) == Some(watch)
    else watch == parsed
  }

  // ---- The pieces agree --------------------------------------------------------------------

  /** The deal that two files would be about. */
  function DealOf(watch: Json, order: Json): Deal
    requires Claim.WatchShape(watch) && Claim.OrderShape(order)
    requires Claim.DecimalsMember(order) && Claim.WindowMember(order) && Claim.Timestamps(order)
    requires Get(order, "item_id").Some? && Get(order, "amount").Some? && Get(order, "raw_output_sha256").Some?
    requires Claim.SafeInt(watch, "payment_block_time_s").Some?
  {
    Deal(GetStr(order, "reference").value, Get(order, "item_id").value, Get(order, "amount").value, GetStr(order, "recipient").value,
         GetStr(order, "mint").value, Get(order, "token_decimals").value.n, Claim.SafeInt(order, "payment_window_s").value,
         GetStr(watch, "payer").value, GetStr(watch, "signature").value, Claim.SafeInt(watch, "slot").value,
         Claim.SafeInt(watch, "payment_block_time_s").value, GetStr(order, "url").value,
         Claim.SafeInt(order, "created_at_ms").value, Get(order, "raw_output_sha256").value)
  }

  lemma DealLeaves(d: Deal, text: Claim.ToText)
    ensures Bytes(d.reference, 32) <==> Base58.IsPubkey(d.reference)
    ensures Bytes(d.recipient, 32) <==> Base58.IsPubkey(d.recipient)
    ensures Bytes(d.mint, 32) <==> Base58.IsPubkey(d.mint)
    ensures Bytes(d.payer, 32) <==> Base58.IsPubkey(d.payer)
    ensures Bytes(d.signature, 64) <==> Chain.IsSignature(d.signature)
    ensures IsId(text(d.item)) <==> Prices.IsItemId(text(d.item))
    ensures IsDigest(text(d.sha256)) <==> Claim.IsSha256(text(d.sha256))
  {
    hide Bytes, IsId, IsDigest, Base58.IsPubkey, Chain.IsSignature, Prices.IsItemId, Claim.IsSha256;
    BytesIff(d.reference);
    BytesIff(d.recipient);
    BytesIff(d.mint);
    BytesIff(d.payer);
    BytesIff(d.signature);
    IdIff(text(d.item));
    DigestIff(text(d.sha256));
  }

  /** What the script accepts is about one good deal. */
  lemma ClaimableIsDeal(watch: Json, order: Json, text: Claim.ToText) returns (d: Deal)
    requires Claim.Claimable(watch, order, text)
    ensures Reports(watch, d) && Quotes(order, d) && Good(d, text)
  {
    hide Bytes, IsId, IsDigest, Base58.IsPubkey, Chain.IsSignature, Prices.IsItemId, Claim.IsSha256, A.ClaimPattern;
    d := DealOf(watch, order);
    DealLeaves(d, text);
  }

  /** And every good deal is accepted. */
  lemma DealIsClaimable(watch: Json, order: Json, text: Claim.ToText, d: Deal)
    requires Reports(watch, d) && Quotes(order, d) && Good(d, text)
    ensures Claim.Claimable(watch, order, text)
  {
    hide Bytes, IsId, IsDigest, Base58.IsPubkey, Chain.IsSignature, Prices.IsItemId, Claim.IsSha256, A.ClaimPattern;
    DealLeaves(d, text);
  }

  lemma OpensIff(parsed: Json, watch: Json, parse: Parser)
    ensures Claim.Unwrap(parsed, parse) == Some(watch) <==> Opens(parsed, watch, parse)
  {
  }

  /** Two files are about one deal at most. */
  lemma OneDeal(watch: Json, order: Json, d: Deal, e: Deal)
    requires Reports(watch, d) && Quotes(order, d) && Reports(watch, e) && Quotes(order, e)
    ensures d == e
  {
  }

  // ---- Main results ------------------------------------------------------------------------

  lemma ClaimableIff(watch: Json, order: Json, text: Claim.ToText)
    ensures Claim.Claimable(watch, order, text) <==> exists d :: Reports(watch, d) && Quotes(order, d) && Good(d, text)
  {
    hide Claim.Claimable, Reports, Quotes, Good;
    if Claim.Claimable(watch, order, text) {
      var d := ClaimableIsDeal(watch, order, text);
    }
    if d :| Reports(watch, d) && Quotes(order, d) && Good(d, text) {
      DealIsClaimable(watch, order, text, d);
    }
  }

  /** The files of a reference, the raw result and the deal that they are about. */
  ghost predicate OnFile(reference: string, raw: string, orders: map<string, string>, parse: Parser, text: Claim.ToText, d: Deal) {
    && d.reference == reference && Good(d, text)
    && reference in orders && |orders[reference]| <= 65_536 && parse(orders[reference]).Some? && Quotes(parse(orders[reference]).value, d)
    && |raw| <= 65_536 && parse(raw).Some?
    && exists watch :: Opens(parse(raw).value, watch, parse) && Reports(watch, d)
  }

  lemma InspectIff(reference: string, raw: string, orders: map<string, string>, parse: Parser, text: Claim.ToText, d: Deal)
    ensures OnFile(reference, raw, orders, parse, text, d) <==>
            && Claim.Inspect(reference, raw, orders, parse, text).Some?
            && var i := Claim.Inspect(reference, raw, orders, parse, text).value;
               Reports(i.watch, d) && Quotes(i.order, d)
  {
    hide Claim.Claimable, Reports, Quotes, Good, Claim.Unwrap, Opens, Base58.IsPubkey;
    if reference in orders && parse(orders[reference]).Some? && parse(raw).Some? {
      var order := parse(orders[reference]).value;
      QuotedReference(order, d);
      GoodReference(d, text);
      forall watch
        ensures Claim.Unwrap(parse(raw).value, parse) == Some(watch) <==> Opens(parse(raw).value, watch, parse)
        ensures Claim.Claimable(watch, order, text) && Reports(watch, d) && Quotes(order, d) ==> Good(d, text)
        ensures Reports(watch, d) && Quotes(order, d) && Good(d, text) ==> Claim.Claimable(watch, order, text)
      {
        OpensIff(parse(raw).value, watch, parse);
        ClaimableIff(watch, order, text);
        if Claim.Claimable(watch, order, text) && Reports(watch, d) && Quotes(order, d) {
          var e :| Reports(watch, e) && Quotes(order, e) && Good(e, text);
          OneDeal(watch, order, d, e);
        }
      }
    }
  }

  lemma QuotedReference(order: Json, d: Deal)
    ensures Quotes(order, d) ==> GetStr(order, "reference") == Some(d.reference)
  {
  }

  lemma GoodReference(d: Deal, text: Claim.ToText)
    ensures Good(d, text) ==> Base58.IsPubkey(d.reference)
  {
    BytesIff(d.reference);
  }

  /**
   * A claim is granted, with this record, exactly when driver and time are acceptable and order file and raw result
   * are about one good deal of this reference; the record then repeats that deal.
   */
  lemma GrantIff(reference: string, raw: string, driver: string, nowMs: nat, orders: map<string, string>, parse: Parser,
                 text: Claim.ToText, r: Claim.ClaimRecord)
    ensures Claim.ClaimSpec(reference, raw, driver, nowMs, orders, parse, text) == Some(r) <==>
            && IsId(driver) && nowMs <= 9_007_199_254_740_991
            && exists d :: OnFile(reference, raw, orders, parse, text, d)
                           && r == Claim.ClaimRecord(driver, reference, d.item, d.amount, d.recipient, d.mint, d.decimals,
                                                     d.signature, d.slot, d.blockTimeS, nowMs)
  {
    IdIff(driver);
    hide IsId, Prices.IsItemId, OnFile, Claim.Inspect, Claim.Claimable, Reports, Quotes, Good, Claim.RecordOf;
    var found := Claim.Inspect(reference, raw, orders, parse, text);
    if found.Some? {
      var watch, order := found.value.watch, found.value.order;
      ClaimableIff(watch, order, text);
      var d :| Reports(watch, d) && Quotes(order, d) && Good(d, text);
      InspectIff(reference, raw, orders, parse, text, d);
      RecordIs(reference, found.value, driver, nowMs, text, d);
      forall e | OnFile(reference, raw, orders, parse, text, e) ensures e == d {
        InspectIff(reference, raw, orders, parse, text, e);
        OneDeal(watch, order, d, e);
      }
    } else {
      forall e ensures !OnFile(reference, raw, orders, parse, text, e) {
        InspectIff(reference, raw, orders, parse, text, e);
      }
    }
  }

  lemma RecordIs(reference: string, i: Claim.Inspected, driver: string, nowMs: nat, text: Claim.ToText, d: Deal)
    requires Claim.Claimable(i.watch, i.order, text) && Reports(i.watch, d) && Quotes(i.order, d)
    ensures Claim.RecordOf(reference, i, driver, nowMs, text) ==
            Claim.ClaimRecord(driver, reference, d.item, d.amount, d.recipient, d.mint, d.decimals, d.signature, d.slot,
                              d.blockTimeS, nowMs)
  {
    hide Base58.IsPubkey, Chain.IsSignature, Prices.IsItemId, Claim.IsSha256, A.ClaimPattern;
  }
}
