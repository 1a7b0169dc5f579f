/** plugins/kiosk-watch/src/watch.rs: what a paid transaction looks like, written out member by member. */
module Receipt {
  // Payment.dfy checks a transaction step by step. Here its payment is described on the members of the node's
  // answer, and for every transaction there are exact conditions: paid, undecidable, without a price, or else
  // a mismatch.

  import opened Wrappers
  import opened Json
  import opened Balances
  import opened Spelling
  import A = Amount
  import P = Payment
  import R = Rpc

  // ---- Accounts ----------------------------------------------------------------------------

  /** A key is bare text or an object with a `pubkey`. */
  predicate Is(k: R.AccountKey, name: string) {
    k == R.Bare(name) || (k.Full? && k.pubkey == Some(name))
  }

  /** Flags say who signs; without any flag only the first key, the fee payer, is known to. */
  ghost predicate Signed(keys: seq<R.AccountKey>, who: string) {
    exists i :: 0 <= i < |keys| && Is(keys[i], who) &&
                if exists k :: 0 <= k < |keys| && keys[k].Full? && keys[k].signer.Some?
                then keys[i].Full? && keys[i].signer == Some(true) else i == 0
  }

  /** The reference is one of the accounts, once, and only looked at. */
  ghost predicate Attached(keys: seq<R.AccountKey>, reference: string) {
    exists i :: 0 <= i < |keys| && keys[i] == R.Full(Some(reference), Some(false), Some(false))
                && forall j :: 0 <= j < |keys| && Is(keys[j], reference) ==> j == i
  }

  predicate FirstAt(keys: seq<R.AccountKey>, name: string, i: nat) {
    i < |keys| && Is(keys[i], name) && forall j :: 0 <= j < i ==> !Is(keys[j], name)
  }

  // ---- Instructions ------------------------------------------------------------------------

  /** The last instruction: exactly these units of this mint, by a signer, to this account, with the one reference. */
  ghost predicate Transfers(ix: R.Instruction, keys: seq<R.AccountKey>, reference: string, mint: string, units: nat, decimals: byte,
                            payer: string, d: nat)
  {
    exists info, source, target, amount, text ::
      TransfersBy(ix, keys, reference, mint, units, decimals, payer, d, info, source, target, amount, text)
  }

  ghost predicate TransfersBy(ix: R.Instruction, keys: seq<R.AccountKey>, reference: string, mint: string, units: nat, decimals: byte,
                              payer: string, d: nat, info: Json, source: string, target: string, amount: Json, text: string)
  {
    && (ix.programId == Some(TOKEN) || ix.programId == Some(TOKEN_2022))
    && Has(ix.parsed, "type", Str("transferChecked")) && Has(ix.parsed, "info", info)
    && Has(info, "mint", Str(mint)) && Has(info, "source", Str(source)) && Has(info, "destination", Str(target)) && source != target
    && (if "multisigAuthority" in info.fields then Has(info, "multisigAuthority", Str(payer)) else Has(info, "authority", Str(payer)))
    && Signed(keys, payer)
    && Has(info, "signers", Arr([Str(reference)]))
    && Has(info, "tokenAmount", amount) && Has(amount, "amount", Str(text)) && Spells(text, units)
    && Has(amount, "decimals", UInt(decimals as int))
    && FirstAt(keys, target, d)
  }

  /** What comes before it: compute-budget instructions and the memo that binds reference and item. */
  ghost predicate SetUp(ixs: seq<R.Instruction>, reference: string, item: string, parse: Parser) {
    && |ixs| >= 2
    && (forall i :: 0 <= i < |ixs| - 2 ==> ixs[i].programId == Some(COMPUTE_BUDGET))
    && ixs[|ixs| - 2].programId == Some(MEMO) && ixs[|ixs| - 2].program == Some("spl-memo")
    && exists memo :: ixs[|ixs| - 2].parsed == Str(memo)
                      && parse(memo) == Some(Obj(map["v" := UInt(1), "tag" := Str("PKPAY1"), "ref" := Str(reference), "item" := Str(item)]))
  }

  // ---- Balances ----------------------------------------------------------------------------

  /** What the listed balances add up to for this owner in this mint. */
  function Holdings(bs: seq<Balance>, owner: string, mint: string): nat {
    if bs == [] then 0
    else (if bs[0].owner == owner && bs[0].mint == mint then bs[0].amount else 0) + Holdings(bs[1..], owner, mint)
  }

  predicate Receives(post: seq<Balance>, d: nat, cfg: P.Config) {
    exists i :: 0 <= i < |post| && post[i].index == d && post[i].owner == cfg.merchant && post[i].mint == cfg.mint
  }

  /** The merchant's balances are all in the configured scale, and none comes out of nowhere. */
  predicate Accounted(pre: seq<Balance>, post: seq<Balance>, cfg: P.Config) {
    && (forall i :: 0 <= i < |pre| && pre[i].owner == cfg.merchant && pre[i].mint == cfg.mint ==> pre[i].decimals == cfg.decimals)
    && (forall i :: 0 <= i < |post| && post[i].owner == cfg.merchant && post[i].mint == cfg.mint ==>
         post[i].decimals == cfg.decimals && exists j :: 0 <= j < |pre| && pre[j].index == post[i].index)
  }

  // ---- Transactions ------------------------------------------------------------------------

  /** It succeeded and names all its accounts. */
  predicate Named(tx: R.Transaction) {
    && tx.meta.Some? && tx.meta.value.err.Success? && tx.message.Some? && tx.message.value.accountKeys.Some?
    && forall i :: 0 <= i < |tx.message.value.accountKeys.value| ==>
         tx.message.value.accountKeys.value[i].Bare? || tx.message.value.accountKeys.value[i].pubkey.Some?
  }

  function KeysOf(tx: R.Transaction): seq<R.AccountKey>
    requires Named(tx)
  {
    tx.message.value.accountKeys.value
  }

  /** It attaches the reference of the charge. */
  ghost predicate ForCharge(tx: R.Transaction, c: P.Claim) {
    Named(tx) && Attached(KeysOf(tx), c.reference)
  }

  /** Its instructions pay these units to account `d`. */
  ghost predicate Orders(tx: R.Transaction, c: P.Claim, cfg: P.Config, units: nat, payer: string, d: nat, parse: Parser) {
    && ForCharge(tx, c) && tx.slot.Some? && A.AmountToBaseUnits(c.amount, cfg.decimals) == Some(units)
    && tx.message.value.instructions.Some?
    && SetUp(tx.message.value.instructions.value, c.reference, c.item, parse)
    && var ixs := tx.message.value.instructions.value;
       Transfers(ixs[|ixs| - 1], KeysOf(tx), c.reference, cfg.mint, units, cfg.decimals, payer, d)
  }

  /** Its balances before and after. */
  predicate Shows(tx: R.Transaction, pre: seq<Balance>, post: seq<Balance>)
    requires Named(tx)
  {
    Lists(tx.meta.value.pre, |KeysOf(tx)|, pre) && Lists(tx.meta.value.post, |KeysOf(tx)|, post)
  }

  /** The merchant gained exactly these units, some of them in account `d`. */
  predicate Gained(pre: seq<Balance>, post: seq<Balance>, d: nat, cfg: P.Config, units: nat) {
    && Receives(post, d, cfg) && Accounted(pre, post, cfg)
    && Holdings(post, cfg.merchant, cfg.mint) == Holdings(pre, cfg.merchant, cfg.mint) + units
  }

  ghost predicate Settles(tx: R.Transaction, c: P.Claim, cfg: P.Config, payer: string, parse: Parser) {
    exists units, d, pre, post ::
      Orders(tx, c, cfg, units, payer, d, parse) && Shows(tx, pre, post) && Gained(pre, post, d, cfg, units)
  }

  ghost predicate IsReceipt(tx: Option<R.Transaction>, c: P.Claim, cfg: P.Config, p: P.Payment, parse: Parser) {
    && tx.Some? && Settles(tx.value, c, cfg, p.payer, parse) && tx.value.slot.Some?
    && p == P.Payment(p.payer, c.signature, tx.value.slot.value, c.blockTimeS, c.reference, c.item, c.amount,
                      cfg.merchant, cfg.mint, cfg.decimals, cfg.windowS)
  }

  /** Members that a verdict needs are absent or malformed, or the merchant's balances cannot be told. */
  ghost predicate Undecidable(tx: Option<R.Transaction>, c: P.Claim, cfg: P.Config, parse: Parser) {
    || tx.None? || tx.value.meta.None?
    || (tx.value.meta.value.err.Success? && !Named(tx.value))
    || (ForCharge(tx.value, c) && tx.value.slot.None?)
    || (exists units, payer, d :: Orders(tx.value, c, cfg, units, payer, d, parse) && Untold(tx.value, cfg, d))
  }

  ghost predicate Untold(tx: R.Transaction, cfg: P.Config, d: nat)
    requires Named(tx)
  {
    || (forall pre, post :: !Shows(tx, pre, post))
    || exists pre, post :: Shows(tx, pre, post) && Receives(post, d, cfg) && !Accounted(pre, post, cfg)
  }

  // ---- The pieces --------------------------------------------------------------------------

  lemma NameIff(k: R.AccountKey, name: string)
    ensures P.KeyName(k) == Some(name) <==> Is(k, name)
  {
  }

  lemma SignsIff(keys: seq<R.AccountKey>, who: string)
    ensures P.Signs(keys, who) <==> Signed(keys, who)
  {
    assert P.Flagged(keys) <==> exists k :: 0 <= k < |keys| && keys[k].Full? && keys[k].signer.Some?;
    assert forall i :: 0 <= i < |keys| ==> (P.KeyName(keys[i]) == Some(who) <==> Is(keys[i], who));
  }

  lemma AttachedIff(keys: seq<R.AccountKey>, reference: string)
    ensures P.AttachedOnce(keys, reference) <==> Attached(keys, reference)
  {
    P.AttachedOnceIff(keys, reference);
    hide P.AttachedOnce;
    assert forall i :: 0 <= i < |keys| ==> (P.KeyName(keys[i]) == Some(reference) <==> Is(keys[i], reference));
    if i: nat :| P.AttachedAt(keys, reference, i) {
      assert Is(keys[i], reference);
      assert keys[i] == R.Full(Some(reference), Some(false), Some(false));
    }
    if i :| 0 <= i < |keys| && keys[i] == R.Full(Some(reference), Some(false), Some(false))
            && forall j :: 0 <= j < |keys| && Is(keys[j], reference) ==> j == i {
      assert P.AttachedAt(keys, reference, i);
    }
  }

  lemma {:induction false} PositionIff(keys: seq<R.AccountKey>, name: string, i: nat)
    ensures P.Position(keys, name) == Some(i) <==> FirstAt(keys, name, i)
  {
    if keys != [] {
      var rest := keys[1..];
      assert forall j :: 0 <= j < |rest| ==> rest[j] == keys[j + 1];
      NameIff(keys[0], name);
      if i > 0 && !Is(keys[0], name) {
        PositionIff(rest, name, i - 1);
        if FirstAt(rest, name, i - 1) {
          forall j | 0 <= j < i ensures !Is(keys[j], name) {
            assert j > 0 ==> keys[j] == rest[j - 1];
          }
        }
      }
    }
  }

  lemma TransferIff(ix: R.Instruction, keys: seq<R.AccountKey>, want: P.Expected, payer: string, d: nat)
    ensures P.TransferOf(ix, keys, want) == Some(P.Transfer(payer, d)) <==>
            Transfers(ix, keys, want.reference, want.mint, want.units, want.decimals, payer, d)
  {
    SpelledToken();
    SpelledToken2022();
    SignsIff(keys, payer);
    hide P.Signs, Signed, Spells, FirstAt, P.ParseU64, P.Position;
    var info := Get(ix.parsed, "info");
    if info.Some? {
      var target, amount := GetStr(info.value, "destination"), Get(info.value, "tokenAmount");
      if target.Some? {
        PositionIff(keys, target.value, d);
      }
      if amount.Some? && GetStr(amount.value, "amount").Some? {
        SpellsIff(GetStr(amount.value, "amount").value, want.units);
        if P.TransferOf(ix, keys, want) == Some(P.Transfer(payer, d)) {
          assert TransfersBy(ix, keys, want.reference, want.mint, want.units, want.decimals, payer, d, info.value,
                             GetStr(info.value, "source").value, target.value, amount.value, GetStr(amount.value, "amount").value);
        }
      }
    }
  }

  lemma SetUpIff(ixs: seq<R.Instruction>, reference: string, item: string, parse: Parser)
    requires |ixs| >= 2
    ensures P.IsSetup(ixs[..|ixs| - 1], reference, item, parse) <==> SetUp(ixs, reference, item, parse)
  {
    SpelledBudget();
    SpelledMemo();
    var setup := ixs[..|ixs| - 1];
    assert setup[|setup| - 1] == ixs[|ixs| - 2];
    assert forall i :: 0 <= i < |setup| - 1 ==> setup[i] == ixs[i];
  }

  lemma {:induction false} HoldingsSnoc(bs: seq<Balance>, b: Balance, owner: string, mint: string)
    ensures Holdings(bs + [b], owner, mint) == Holdings(bs, owner, mint) + if b.owner == owner && b.mint == mint then b.amount else 0
  {
    if bs == [] {
      assert bs + [b] == [b] && [b][1..] == [];
    } else {
      HoldingsSnoc(bs[1..], b, owner, mint);
      assert (bs + [b])[1..] == bs[1..] + [b];
    }
  }

  lemma {:induction false} HoldingsIff(bs: seq<Balance>, owner: string, mint: string)
    ensures Total(bs, owner, mint) == Holdings(bs, owner, mint)
  {
    if bs != [] {
      var init, last := bs[..|bs| - 1], bs[|bs| - 1];
      assert bs == init + [last];
      HoldingsIff(init, owner, mint);
      HoldingsSnoc(init, last, owner, mint);
    }
  }

  /** The destination is the merchant's. */
  lemma ReceivesIff(post: seq<Balance>, d: nat, cfg: P.Config)
    requires OneEach(post)
    ensures Receives(post, d, cfg) <==> BalanceAt(post, d).Some? && Ours(BalanceAt(post, d).value, cfg.merchant, cfg.mint)
  {
    if i :| 0 <= i < |post| && post[i].index == d && post[i].owner == cfg.merchant && post[i].mint == cfg.mint {
      BalanceAtIs(post, i);
    }
  }

  lemma AccountedIff(pre: seq<Balance>, post: seq<Balance>, cfg: P.Config)
    ensures Accounted(pre, post, cfg) <==> P.ScaleAgrees(pre, cfg) && P.ScaleAgrees(post, cfg) && P.Matched(pre, post, cfg)
  {
  }

  lemma CreditIff(pre: seq<Balance>, post: seq<Balance>, d: nat, cfg: P.Config, units: nat)
    requires OneEach(pre) && OneEach(post)
    requires CheckedTotal(pre, cfg.merchant, cfg.mint) == Some(Total(pre, cfg.merchant, cfg.mint))
    requires CheckedTotal(post, cfg.merchant, cfg.mint) == Some(Total(post, cfg.merchant, cfg.mint))
    ensures var r := P.Credit(pre, post, d, cfg, units);
            && (r == Ok(true) <==> Gained(pre, post, d, cfg, units))
            && (r == Err(P.DecodeFailure) <==> Receives(post, d, cfg) && !Accounted(pre, post, cfg))
            && (r.Err? ==> r == Err(P.DecodeFailure))
  {
    ReceivesIff(post, d, cfg);
    AccountedIff(pre, post, cfg);
    HoldingsIff(pre, cfg.merchant, cfg.mint);
    HoldingsIff(post, cfg.merchant, cfg.mint);
    if Receives(post, d, cfg) {
      assert P.HasMerchant(post, cfg);
    }
    hide Receives, Accounted, P.ScaleAgrees, P.Matched, P.HasMerchant, Holdings, Total, CheckedTotal, BalanceAt, OneEach;
  }

  /** What the balance checks make of a named transaction. */
  lemma BalancesIff(tx: R.Transaction, d: nat, cfg: P.Config, units: nat)
    requires Named(tx) && |KeysOf(tx)| <= U64_MAX
    ensures var pre, post := BalancesSpec(tx.meta.value.pre, |KeysOf(tx)|), BalancesSpec(tx.meta.value.post, |KeysOf(tx)|);
            && (pre.None? || post.None? || P.Credit(pre.value, post.value, d, cfg, units).Err? <==> Untold(tx, cfg, d))
            && (pre.Some? && post.Some? && P.Credit(pre.value, post.value, d, cfg, units) == Ok(true)
                <==> exists before, after :: Shows(tx, before, after) && Gained(before, after, d, cfg, units))
            && (pre.Some? && post.Some? && P.Credit(pre.value, post.value, d, cfg, units).Err? ==>
                  P.Credit(pre.value, post.value, d, cfg, units) == Err(P.DecodeFailure))
  {
    var n := |KeysOf(tx)|;
    var pre, post := BalancesSpec(tx.meta.value.pre, n), BalancesSpec(tx.meta.value.post, n);
    forall before, after ensures Shows(tx, before, after) <==> pre == Some(before) && post == Some(after) {
      ReadIff(tx.meta.value.pre, n, before);
      ReadIff(tx.meta.value.post, n, after);
    }
    if pre.Some? && post.Some? {
      SumFits(tx.meta.value.pre, n, cfg.merchant, cfg.mint);
      SumFits(tx.meta.value.post, n, cfg.merchant, cfg.mint);
      ReadOneEach(tx.meta.value.pre, n);
      ReadOneEach(tx.meta.value.post, n);
      hide BalancesSpec, Shows, Named, KeysOf, Total, CheckedTotal, OneEach;
      CreditIff(pre.value, post.value, d, cfg, units);
      hide P.Credit, Gained, Receives, Accounted;
      assert Shows(tx, pre.value, post.value);
    }
  }

  /** What the instruction checks find. */
  lemma OrdersIff(tx: R.Transaction, c: P.Claim, cfg: P.Config, units: nat, payer: string, d: nat, parse: Parser)
    requires ForCharge(tx, c) && tx.slot.Some? && A.AmountToBaseUnits(c.amount, cfg.decimals) == Some(units)
    ensures var want := P.Expected(c.reference, c.item, cfg.mint, units, cfg.decimals);
            P.TransferSpec(tx.message.value.instructions, KeysOf(tx), want, parse) == Some(P.Transfer(payer, d))
            <==> Orders(tx, c, cfg, units, payer, d, parse)
  {
    hide Attached, A.AmountToBaseUnits, SetUp, Transfers, P.IsSetup, P.TransferOf;
    var want := P.Expected(c.reference, c.item, cfg.mint, units, cfg.decimals);
    if tx.message.value.instructions.Some? {
      var ixs := tx.message.value.instructions.value;
      if |ixs| >= 2 {
        SetUpIff(ixs, c.reference, c.item, parse);
        TransferIff(ixs[|ixs| - 1], KeysOf(tx), want, payer, d);
      } else {
        NoSetUp(ixs, c.reference, c.item, parse);
        if |ixs| == 1 {
          P.EmptyIsNoSetup(ixs[..0], want, parse);
        }
      }
    }
  }

  lemma NoSetUp(ixs: seq<R.Instruction>, reference: string, item: string, parse: Parser)
    requires |ixs| < 2
    ensures !SetUp(ixs, reference, item, parse)
  {
  }

  // ---- Main results ------------------------------------------------------------------------

  /** The stages before the instructions. */
  lemma EarlyStages(tx: Option<R.Transaction>, c: P.Claim, cfg: P.Config, parse: Parser)
    ensures var r := P.InspectSpec(tx, c, cfg, parse);
            if tx.None? || tx.value.meta.None? then r == Err(P.DecodeFailure)
            else if !tx.value.meta.value.err.Success? then r == Ok(P.Mismatch)
            else if !Named(tx.value) then r == Err(P.DecodeFailure)
            else if !ForCharge(tx.value, c) then r == Ok(P.Mismatch)
            else if tx.value.slot.None? then r == Err(P.DecodeFailure)
            else A.AmountToBaseUnits(c.amount, cfg.decimals).None? ==> r == Err(P.ConfigError)
  {
    if tx.Some? && tx.value.message.Some? && tx.value.message.value.accountKeys.Some? {
      AttachedIff(tx.value.message.value.accountKeys.value, c.reference);
    }
    hide P.AttachedOnce, Attached, P.TransferSpec, BalancesSpec, P.Credit, A.AmountToBaseUnits;
  }

  /** The stages from the instructions on. */
  lemma LateStages(tx: R.Transaction, c: P.Claim, cfg: P.Config, units: nat, parse: Parser)
    requires ForCharge(tx, c) && tx.slot.Some? && A.AmountToBaseUnits(c.amount, cfg.decimals) == Some(units)
    ensures var n := |KeysOf(tx)|;
            var want := P.Expected(c.reference, c.item, cfg.mint, units, cfg.decimals);
            var t := P.TransferSpec(tx.message.value.instructions, KeysOf(tx), want, parse);
            var pre, post := BalancesSpec(tx.meta.value.pre, n), BalancesSpec(tx.meta.value.post, n);
            P.InspectSpec(Some(tx), c, cfg, parse) ==
            if t.None? then Ok(P.Mismatch)
            else if pre.None? || post.None? then Err(P.DecodeFailure)
            else match P.Credit(pre.value, post.value, t.value.destination, cfg, units)
              case Err(e) => Err(e)
              case Ok(credited) =>
                if credited
                then Ok(P.Paid(P.Payment(t.value.authority, c.signature, tx.slot.value, c.blockTimeS, c.reference, c.item, c.amount,
                                         cfg.merchant, cfg.mint, cfg.decimals, cfg.windowS)))
                else Ok(P.Mismatch)
  {
    AttachedIff(KeysOf(tx), c.reference);
    hide P.AttachedOnce, Attached, P.TransferSpec, BalancesSpec, P.Credit, A.AmountToBaseUnits;
  }

  /**
   * A transaction is paid, for this payment, exactly when its members say so; a verdict is impossible exactly when
   * members are absent or the merchant's balances cannot be told; and the configuration is at fault exactly when
   * the listed price is no amount. Anything else is a mismatch.
   */
  lemma InspectIff(tx: Option<R.Transaction>, c: P.Claim, cfg: P.Config, parse: Parser)
    requires tx.Some? && Named(tx.value) ==> |KeysOf(tx.value)| <= U64_MAX
    ensures forall p :: P.InspectSpec(tx, c, cfg, parse) == Ok(P.Paid(p)) <==> IsReceipt(tx, c, cfg, p, parse)
    ensures P.InspectSpec(tx, c, cfg, parse) == Err(P.DecodeFailure) <==> Undecidable(tx, c, cfg, parse)
    ensures P.InspectSpec(tx, c, cfg, parse) == Err(P.ConfigError)
            <==> tx.Some? && ForCharge(tx.value, c) && tx.value.slot.Some? && A.AmountToBaseUnits(c.amount, cfg.decimals).None?
    ensures var r := P.InspectSpec(tx, c, cfg, parse);
            r == Ok(P.Mismatch) || (r.Ok? && r.value.Paid?) || r == Err(P.DecodeFailure) || r == Err(P.ConfigError)
  {
    EarlyStages(tx, c, cfg, parse);
    hide P.InspectSpec, A.AmountToBaseUnits;
    if tx.Some? && ForCharge(tx.value, c) && tx.value.slot.Some? && A.AmountToBaseUnits(c.amount, cfg.decimals).Some? {
      DueIff(tx.value, c, cfg, A.AmountToBaseUnits(c.amount, cfg.decimals).value, parse);
      hide ForCharge, Orders, Untold, Settles;
    } else {
      NotDue(tx, c, cfg, parse);
      hide ForCharge, Orders, Untold, Settles;
    }
  }

  lemma NotDue(tx: Option<R.Transaction>, c: P.Claim, cfg: P.Config, parse: Parser)
    requires !(tx.Some? && ForCharge(tx.value, c) && tx.value.slot.Some? && A.AmountToBaseUnits(c.amount, cfg.decimals).Some?)
    ensures tx.Some? ==> forall payer :: !Settles(tx.value, c, cfg, payer, parse)
    ensures tx.Some? ==> forall units, payer, d :: !Orders(tx.value, c, cfg, units, payer, d, parse)
    ensures tx.Some? && ForCharge(tx.value, c) ==> Named(tx.value)
  {
    hide A.AmountToBaseUnits, Attached, SetUp, Transfers;
  }

  lemma DueIff(tx: R.Transaction, c: P.Claim, cfg: P.Config, units: nat, parse: Parser)
    requires ForCharge(tx, c) && tx.slot.Some? && A.AmountToBaseUnits(c.amount, cfg.decimals) == Some(units)
    requires |KeysOf(tx)| <= U64_MAX
    ensures var r := P.InspectSpec(Some(tx), c, cfg, parse);
            && (forall p :: r == Ok(P.Paid(p)) <==> IsReceipt(Some(tx), c, cfg, p, parse))
            && (r == Err(P.DecodeFailure) <==> Undecidable(Some(tx), c, cfg, parse))
            && (r == Ok(P.Mismatch) || (r.Ok? && r.value.Paid?) || r == Err(P.DecodeFailure))
  {
    hide P.InspectSpec, A.AmountToBaseUnits, Attached, P.TransferSpec, BalancesSpec, P.Credit, Orders, Gained, Untold;
    var want := P.Expected(c.reference, c.item, cfg.mint, units, cfg.decimals);
    var t := P.TransferSpec(tx.message.value.instructions, KeysOf(tx), want, parse);
    LateStages(tx, c, cfg, units, parse);
    OrderedUnits(tx, c, cfg, units, parse);
    forall payer, d ensures t == Some(P.Transfer(payer, d)) <==> Orders(tx, c, cfg, units, payer, d, parse) {
      OrdersIff(tx, c, cfg, units, payer, d, parse);
    }
    if t.Some? {
      assert t == Some(P.Transfer(t.value.authority, t.value.destination));
      OrdersIff(tx, c, cfg, units, t.value.authority, t.value.destination, parse);
      BalancesIff(tx, t.value.destination, cfg, units);
    }
  }

  lemma OrderedUnits(tx: R.Transaction, c: P.Claim, cfg: P.Config, units: nat, parse: Parser)
    requires A.AmountToBaseUnits(c.amount, cfg.decimals) == Some(units)
    ensures forall n, payer, d :: Orders(tx, c, cfg, n, payer, d, parse) ==> n == units
  {
    hide A.AmountToBaseUnits, SetUp, Transfers, ForCharge;
  }
}
