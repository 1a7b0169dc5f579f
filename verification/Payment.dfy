/** plugins/kiosk-watch/src/watch.rs: is this transaction exactly the payment of this charge? */
module Payment {
  import opened Wrappers
  import opened Json
  import opened Balances
  import A = Amount
  import Keys
  import R = Rpc

  const TOKEN_PROGRAM: string := "TokenkegQfeZyi" + "NwAJbNbGKPFXCW" + "uBvf9Ss623VQ5DA"
  const TOKEN_2022_PROGRAM: string := "TokenzQdBNbLqP" + "5VEhdkAS6EPFLC" + "1PHnBqCXEpPxuEb"
  const COMPUTE_BUDGET_PROGRAM: string := "ComputeBudget1" + "11111111111111" + "111111111111111"
  const PAYMENT_TAG: string := "PKPAY1"

  datatype WatchError = ConfigError | ArgsError | RpcFailure | DecodeFailure

  /** The operator's configuration; `prices` holds canonical amounts. */
  datatype Config = Config(
    rpcUrl: string,
    merchant: string,
    mint: string,
    decimals: byte,
    prices: map<string, string>,
    authority: Option<string>,
    address: Option<string>,
    id: Option<string>,
    windowS: nat,
    silenceS: nat,
    finality: string)

  datatype Payment = Payment(
    payer: string,
    signature: string,
    slot: nat,
    blockTimeS: nat,
    reference: string,
    item: string,
    amount: string,
    recipient: string,
    mint: string,
    decimals: byte,
    windowS: nat)

  datatype Verdict = Paid(payment: Payment) | Pending | Mismatch | AlreadyFulfilled

  // ---- Keys and signers --------------------------------------------------------------------

  function KeyName(k: R.AccountKey): Option<string> {
    if k.Bare? then Some(k.name) else k.pubkey
  }

  predicate Flagged(keys: seq<R.AccountKey>) {
    exists i :: 0 <= i < |keys| && keys[i].Signer().Some?
  }

  /** Without any signer flag only the first key, the fee payer, is a signer. */
  predicate SignerAt(keys: seq<R.AccountKey>, i: nat)
    requires i < |keys|
  {
    if Flagged(keys) then keys[i].Signer() == Some(true) else i == 0
  }

  predicate Signs(keys: seq<R.AccountKey>, who: string) {
    exists i :: 0 <= i < |keys| && SignerAt(keys, i) && KeyName(keys[i]) == Some(who)
  }

  /** The keys with this name. */
  function Naming(keys: seq<R.AccountKey>, name: string): seq<R.AccountKey> {
    if keys == [] then []
    else (if KeyName(keys[0]) == Some(name) then [keys[0]] else []) + Naming(keys[1..], name)
  }

  /** The reference is one of the keys, once, read-only and not signing. */
  predicate AttachedOnce(keys: seq<R.AccountKey>, reference: string) {
    var named := Naming(keys, reference);
    |named| == 1 && named[0].Signer() == Some(false) && named[0].Writable() == Some(false)
  }

  function Position(keys: seq<R.AccountKey>, name: string): (r: Option<nat>)
    ensures r.Some? ==> r.value < |keys| && KeyName(keys[r.value]) == Some(name)
  {
    if keys == [] then None
    else if KeyName(keys[0]) == Some(name) then Some(0)
    else match Position(keys[1..], name)
      case None => None
      case Some(i) => Some(i + 1)
  }

  // ---- Instructions ------------------------------------------------------------------------

  /** The memo that binds a payment to one reference and one item. */
  function PaymentMemo(reference: string, item: string): Json {
    Obj(map["v" := UInt(1), "tag" := Str(PAYMENT_TAG), "ref" := Str(reference), "item" := Str(item)])
  }

  predicate IsPaymentMemo(ix: R.Instruction, reference: string, item: string, parse: Parser) {
    && ix.programId == Some(Keys.MEMO_PROGRAM) && ix.program == Some("spl-memo") && ix.parsed.Str?
    && parse(ix.parsed.s) == Some(PaymentMemo(reference, item))
  }

  /** Compute-budget instructions, then exactly one payment memo. */
  predicate IsSetup(setup: seq<R.Instruction>, reference: string, item: string, parse: Parser) {
    && setup != []
    && (forall i :: 0 <= i < |setup| - 1 ==> setup[i].programId == Some(COMPUTE_BUDGET_PROGRAM))
    && IsPaymentMemo(setup[|setup| - 1], reference, item, parse)
  }

  /** `str::parse::<u64>`: digits, after an optional plus sign. */
  function ParseU64(s: string): (n: Option<nat>)
    ensures n.Some? ==> n.value <= U64_MAX
  {
    var d := if s != "" && s[0] == '+' then s[1..] else s;
    if d != "" && A.AllDigits(d) && A.NatOf(d) <= U64_MAX then Some(A.NatOf(d)) else None
  }

  datatype Transfer = Transfer(authority: string, destination: nat)

  /** What the final instruction must be. */
  datatype Expected = Expected(reference: string, item: string, mint: string, units: nat, decimals: byte)

  function TransferAuthority(info: Json): Option<string> {
    if Get(info, "multisigAuthority").Some? then GetStr(info, "multisigAuthority") else GetStr(info, "authority")
  }

  predicate MovesExactly(info: Json, want: Expected) {
    match Get(info, "tokenAmount")
    case None => false
    case Some(amount) =>
      var text := GetStr(amount, "amount");
      && text.Some? && ParseU64(text.value) == Some(want.units)
      && GetU64(amount, "decimals") == Some(want.decimals as int)
  }

  /** An exact `transferChecked` to an account in the key list, attaching only the reference. */
  function TransferOf(ix: R.Instruction, keys: seq<R.AccountKey>, want: Expected): Option<Transfer> {
    if ix.programId != Some(TOKEN_PROGRAM) && ix.programId != Some(TOKEN_2022_PROGRAM) then None
    else if GetStr(ix.parsed, "type") != Some("transferChecked") then None
    else match Get(ix.parsed, "info")
      case None => None
      case Some(info) =>
        var destination, source, authority :=
          GetStr(info, "destination"), GetStr(info, "source"), TransferAuthority(info);
        if GetStr(info, "mint") != Some(want.mint) || destination.None? || source.None? || source == destination then None
        else if authority.None? || !Signs(keys, authority.value) then None
        else if Get(info, "signers") != Some(Arr([Str(want.reference)])) then None
        else if !MovesExactly(info, want) then None
        else match Position(keys, destination.value)
          case None => None
          case Some(i) => Some(Transfer(authority.value, i))
  }

  /** `ComputeBudget* Memo transferChecked`; `None` is a mismatch. */
  function TransferSpec(instructions: Option<seq<R.Instruction>>, keys: seq<R.AccountKey>, want: Expected, parse: Parser)
    : Option<Transfer>
  {
    if instructions.None? || instructions.value == [] then None else
    var n := |instructions.value| - 1;
    if !IsSetup(instructions.value[..n], want.reference, want.item, parse) then None
    else TransferOf(instructions.value[n], keys, want)
  }

  /** `validate_payment_instructions`, with its `saw_memo` flag. */
  method ValidateInstructions(instructions: Option<seq<R.Instruction>>, keys: seq<R.AccountKey>, want: Expected, parse: Parser)
    returns (r: Option<Transfer>)
    ensures r == TransferSpec(instructions, keys, want, parse)
  {
    hide IsPaymentMemo, TransferOf;
    if instructions.None? || instructions.value == [] {
      return None;
    }
    var n := |instructions.value| - 1;
    var setup := instructions.value[..n];
    var sawMemo := false;
    for i := 0 to n
      invariant sawMemo ==> i > 0 && IsSetup(setup[..i], want.reference, want.item, parse)
      invariant !sawMemo ==> forall k :: 0 <= k < i ==> setup[k].programId == Some(COMPUTE_BUDGET_PROGRAM)
    {
      var ix := setup[i];
      if ix.programId == Some(COMPUTE_BUDGET_PROGRAM) && !sawMemo {
        continue;
      }
      if sawMemo || !IsPaymentMemo(ix, want.reference, want.item, parse) {
        NoSetup(setup, i, sawMemo, want.reference, want.item, parse);
        return None;
      }
      sawMemo := true;
    }
    assert setup[..n] == setup;
    if !sawMemo {
      if setup != [] {
        BudgetIsNotMemo(setup[n - 1], want.reference, want.item, parse);
      }
      return None;
    }
    r := TransferOf(instructions.value[n], keys, want);
  }

  lemma BudgetIsNotMemo(ix: R.Instruction, reference: string, item: string, parse: Parser)
    requires ix.programId == Some(COMPUTE_BUDGET_PROGRAM)
    ensures !IsPaymentMemo(ix, reference, item, parse)
  {
    assert COMPUTE_BUDGET_PROGRAM[0] == 'C' && Keys.MEMO_PROGRAM[0] == 'M';
  }

  /** An instruction that is neither budget nor the one memo spoils the setup. */
  lemma NoSetup(setup: seq<R.Instruction>, i: nat, sawMemo: bool, reference: string, item: string, parse: Parser)
    requires i < |setup|
    requires sawMemo ==> i > 0 && IsSetup(setup[..i], reference, item, parse)
    requires !sawMemo ==> setup[i].programId != Some(COMPUTE_BUDGET_PROGRAM) && !IsPaymentMemo(setup[i], reference, item, parse)
    ensures !IsSetup(setup, reference, item, parse)
  {
    hide IsPaymentMemo;
    if sawMemo && setup[i - 1].programId == Some(COMPUTE_BUDGET_PROGRAM) {
      BudgetIsNotMemo(setup[i - 1], reference, item, parse);
    }
  }

  // ---- The whole transaction ---------------------------------------------------------------

  predicate HasMerchant(bs: seq<Balance>, cfg: Config) {
    exists i :: 0 <= i < |bs| && Ours(bs[i], cfg.merchant, cfg.mint)
  }

  predicate ScaleAgrees(bs: seq<Balance>, cfg: Config) {
    forall i :: 0 <= i < |bs| && Ours(bs[i], cfg.merchant, cfg.mint) ==> bs[i].decimals == cfg.decimals
  }

  predicate HasIndex(bs: seq<Balance>, index: nat) {
    exists i :: 0 <= i < |bs| && bs[i].index == index
  }

  /** Every post-balance of the merchant has a pre-balance. */
  predicate Matched(pre: seq<Balance>, post: seq<Balance>, cfg: Config) {
    forall i :: 0 <= i < |post| && Ours(post[i], cfg.merchant, cfg.mint) ==> HasIndex(pre, post[i].index)
  }

  /** The balance checks: credited exactly, not credited (false), or undecidable. */
  function Credit(pre: seq<Balance>, post: seq<Balance>, destination: nat, cfg: Config, units: nat): Result<bool, WatchError> {
    if !HasMerchant(post, cfg) then Ok(false) else
    var at := BalanceAt(post, destination);
    if at.None? || !Ours(at.value, cfg.merchant, cfg.mint) then Ok(false)
    else if !ScaleAgrees(pre, cfg) || !ScaleAgrees(post, cfg) then Err(DecodeFailure)
    else if !Matched(pre, post, cfg) then Err(DecodeFailure)
    else
      var before, after := CheckedTotal(pre, cfg.merchant, cfg.mint), CheckedTotal(post, cfg.merchant, cfg.mint);
      if before.None? || after.None? then Err(DecodeFailure)
      else Ok(after.value >= before.value && after.value - before.value == units)
  }

  predicate KeysNamed(keys: seq<R.AccountKey>) {
    forall i :: 0 <= i < |keys| ==> KeyName(keys[i]).Some?
  }

  /** The item that is expected to be paid for, and the node's data about the signature. */
  datatype Claim = Claim(reference: string, item: string, amount: string, signature: string, blockTimeS: nat)

  /** `inspect_transaction`. */
  function InspectSpec(tx: Option<R.Transaction>, c: Claim, cfg: Config, parse: Parser): Result<Verdict, WatchError> {
    if tx.None? || tx.value.meta.None? then Err(DecodeFailure)
    else if !tx.value.meta.value.err.Success? then Ok(Mismatch)
    else if tx.value.message.None? || tx.value.message.value.accountKeys.None? then Err(DecodeFailure)
    else
      var keys := tx.value.message.value.accountKeys.value;
      if !KeysNamed(keys) then Err(DecodeFailure)
      else if !AttachedOnce(keys, c.reference) then Ok(Mismatch)
      else if tx.value.slot.None? then Err(DecodeFailure)
      else match A.AmountToBaseUnits(c.amount, cfg.decimals)
        case None => Err(ConfigError)
        case Some(units) =>
          var want := Expected(c.reference, c.item, cfg.mint, units, cfg.decimals);
          match TransferSpec(tx.value.message.value.instructions, keys, want, parse)
          case None => Ok(Mismatch)
          case Some(transfer) =>
            var pre, post := BalancesSpec(tx.value.meta.value.pre, |keys|), BalancesSpec(tx.value.meta.value.post, |keys|);
            if pre.None? || post.None? then Err(DecodeFailure)
            else match Credit(pre.value, post.value, transfer.destination, cfg, units)
              case Err(e) => Err(e)
              case Ok(credited) =>
                if !credited then Ok(Mismatch)
                else Ok(Paid(PaymentOf(transfer.authority, tx.value.slot.value, c, cfg)))
  }

  function PaymentOf(payer: string, slot: nat, c: Claim, cfg: Config): Payment {
    Payment(payer, c.signature, slot, c.blockTimeS, c.reference, c.item, c.amount, cfg.merchant, cfg.mint,
            cfg.decimals, cfg.windowS)
  }

  method InspectTransaction(tx: Option<R.Transaction>, c: Claim, cfg: Config, parse: Parser)
    returns (r: Result<Verdict, WatchError>)
    ensures r == InspectSpec(tx, c, cfg, parse)
  {
    hide AttachedOnce, TransferSpec, BalancesSpec, Credit, A.AmountToBaseUnits, KeysNamed;
    if tx.None? || tx.value.meta.None? {
      return Err(DecodeFailure);
    }
    var meta := tx.value.meta.value;
    if !meta.err.Success? {
      return Ok(Mismatch);
    }
    if tx.value.message.None? || tx.value.message.value.accountKeys.None? {
      return Err(DecodeFailure);
    }
    var keys := tx.value.message.value.accountKeys.value;
    if !KeysNamed(keys) {
      return Err(DecodeFailure);
    }
    if !AttachedOnce(keys, c.reference) {
      return Ok(Mismatch);
    }
    if tx.value.slot.None? {
      return Err(DecodeFailure);
    }
    var units := A.AmountToBaseUnits(c.amount, cfg.decimals);
    if units.None? {
      return Err(ConfigError);
    }
    var want := Expected(c.reference, c.item, cfg.mint, units.value, cfg.decimals);
    var transfer := ValidateInstructions(tx.value.message.value.instructions, keys, want, parse);
    if transfer.None? {
      return Ok(Mismatch);
    }
    var pre := TokenBalances(meta.pre, |keys|);
    var post := TokenBalances(meta.post, |keys|);
    if pre.None? || post.None? {
      return Err(DecodeFailure);
    }
    var credited := Credit(pre.value, post.value, transfer.value.destination, cfg, units.value);
    if credited.Err? {
      return Err(credited.error);
    }
    if !credited.value {
      return Ok(Mismatch);
    }
    return Ok(Paid(PaymentOf(transfer.value.authority, tx.value.slot.value, c, cfg)));
  }

  // ---- What Paid means ---------------------------------------------------------------------

  /** Exactly one key carries the name, and it is read-only and does not sign. */
  predicate AttachedAt(keys: seq<R.AccountKey>, reference: string, i: nat) {
    && i < |keys| && keys[i].Signer() == Some(false) && keys[i].Writable() == Some(false)
    && forall j :: 0 <= j < |keys| ==> (KeyName(keys[j]) == Some(reference) <==> j == i)
  }

  lemma {:induction false} NamingNone(keys: seq<R.AccountKey>, name: string)
    ensures Naming(keys, name) == [] <==> forall j :: 0 <= j < |keys| ==> KeyName(keys[j]) != Some(name)
  {
    if keys != [] {
      NamingNone(keys[1..], name);
      assert forall j :: 0 <= j < |keys| - 1 ==> keys[1..][j] == keys[j + 1];
      if Naming(keys, name) == [] {
        forall j | 0 <= j < |keys| ensures KeyName(keys[j]) != Some(name) {
          assert j > 0 ==> keys[1..][j - 1] == keys[j];
        }
      }
    }
  }

  lemma {:induction false} NamingOne(keys: seq<R.AccountKey>, name: string, i: nat)
    requires i < |keys| && forall j :: 0 <= j < |keys| ==> (KeyName(keys[j]) == Some(name) <==> j == i)
    ensures Naming(keys, name) == [keys[i]]
  {
    if i == 0 {
      NamingNone(keys[1..], name);
    } else {
      NamingOne(keys[1..], name, i - 1);
    }
  }

  lemma {:induction false} NamingAt(keys: seq<R.AccountKey>, name: string) returns (i: nat)
    requires |Naming(keys, name)| == 1
    ensures i < |keys| && Naming(keys, name) == [keys[i]]
    ensures forall j :: 0 <= j < |keys| ==> (KeyName(keys[j]) == Some(name) <==> j == i)
  {
    if KeyName(keys[0]) == Some(name) {
      i := 0;
      NamingNone(keys[1..], name);
      forall j | 0 <= j < |keys| ensures KeyName(keys[j]) == Some(name) <==> j == 0 {
        assert j > 0 ==> keys[1..][j - 1] == keys[j];
      }
    } else {
      var k := NamingAt(keys[1..], name);
      i := k + 1;
      forall j | 0 <= j < |keys| ensures KeyName(keys[j]) == Some(name) <==> j == i {
        assert j > 0 ==> keys[1..][j - 1] == keys[j];
      }
    }
  }

  lemma AttachedOnceIff(keys: seq<R.AccountKey>, reference: string)
    ensures AttachedOnce(keys, reference) <==> exists i :: AttachedAt(keys, reference, i)
  {
    if AttachedOnce(keys, reference) {
      var i := NamingAt(keys, reference);
      assert AttachedAt(keys, reference, i);
    }
    if i: nat :| AttachedAt(keys, reference, i) {
      NamingOne(keys, reference, i);
    }
  }

  /** The merchant was credited: into the destination, in one scale, with nothing unaccounted, by exactly the price. */
  predicate Credited(pre: seq<Balance>, post: seq<Balance>, destination: nat, cfg: Config, units: nat) {
    && BalanceAt(post, destination).Some? && Ours(BalanceAt(post, destination).value, cfg.merchant, cfg.mint)
    && ScaleAgrees(pre, cfg) && ScaleAgrees(post, cfg) && Matched(pre, post, cfg)
    && Total(post, cfg.merchant, cfg.mint) == Total(pre, cfg.merchant, cfg.mint) + units
  }

  /** A landed transaction of named keys; a vector's length fits a machine word. */
  predicate Readable(tx: Option<R.Transaction>) {
    && tx.Some? && tx.value.meta.Some? && tx.value.message.Some? && tx.value.slot.Some?
    && tx.value.message.value.accountKeys.Some? && KeysNamed(tx.value.message.value.accountKeys.value)
    && BalancesSpec(tx.value.meta.value.pre, |tx.value.message.value.accountKeys.value|).Some?
    && BalancesSpec(tx.value.meta.value.post, |tx.value.message.value.accountKeys.value|).Some?
  }

  function KeysOf(tx: Option<R.Transaction>): seq<R.AccountKey> {
    if tx.Some? && tx.value.message.Some? && tx.value.message.value.accountKeys.Some?
    then tx.value.message.value.accountKeys.value else []
  }

  function Pre(tx: Option<R.Transaction>): seq<Balance>
    requires Readable(tx)
  {
    BalancesSpec(tx.value.meta.value.pre, |KeysOf(tx)|).value
  }

  function Post(tx: Option<R.Transaction>): seq<Balance>
    requires Readable(tx)
  {
    BalancesSpec(tx.value.meta.value.post, |KeysOf(tx)|).value
  }

  /** The declarative payment predicate. */
  ghost predicate Pays(tx: Option<R.Transaction>, want: Expected, cfg: Config, payer: string, parse: Parser) {
    && Readable(tx) && tx.value.meta.value.err.Success?
    && (exists i :: AttachedAt(KeysOf(tx), want.reference, i))
    && tx.value.message.value.instructions.Some?
    && var ixs := tx.value.message.value.instructions.value;
    && |ixs| >= 2 && IsSetup(ixs[..|ixs| - 1], want.reference, want.item, parse)
    && exists destination :: TransferOf(ixs[|ixs| - 1], KeysOf(tx), want) == Some(Transfer(payer, destination))
                             && Credited(Pre(tx), Post(tx), destination, cfg, want.units)
  }

  /** The balance checks succeed exactly when the merchant was credited. */
  lemma CreditIff(tx: Option<R.Transaction>, destination: nat, cfg: Config, units: nat)
    requires Readable(tx) && |KeysOf(tx)| <= U64_MAX
    ensures Credit(Pre(tx), Post(tx), destination, cfg, units) == Ok(true)
            <==> Credited(Pre(tx), Post(tx), destination, cfg, units)
  {
    SumFits(tx.value.meta.value.pre, |KeysOf(tx)|, cfg.merchant, cfg.mint);
    SumFits(tx.value.meta.value.post, |KeysOf(tx)|, cfg.merchant, cfg.mint);
    var pre, post := Pre(tx), Post(tx);
    hide BalancesSpec, AllReadable, Readable, Total, CheckedTotal, ScaleAgrees, Matched;
    if BalanceAt(post, destination).Some? && Ours(BalanceAt(post, destination).value, cfg.merchant, cfg.mint) {
      assert HasMerchant(post, cfg);
    }
  }

  /** A transaction is `Paid` for a charge exactly when it meets the payment predicate at the price. */
  lemma InspectPaidIff(tx: Option<R.Transaction>, c: Claim, cfg: Config, parse: Parser, p: Payment)
    requires |KeysOf(tx)| <= U64_MAX
    ensures InspectSpec(tx, c, cfg, parse) == Ok(Paid(p))
            <==> && A.AmountToBaseUnits(c.amount, cfg.decimals).Some?
                 && var want := Expected(c.reference, c.item, cfg.mint, A.AmountToBaseUnits(c.amount, cfg.decimals).value, cfg.decimals);
                 && Pays(tx, want, cfg, p.payer, parse)
                 && p == PaymentOf(p.payer, tx.value.slot.value, c, cfg)
  {
    AttachedOnceIff(KeysOf(tx), c.reference);
    hide AttachedOnce, AttachedAt, IsSetup, TransferOf, Credit, Credited, A.AmountToBaseUnits, KeysNamed, BalancesSpec;
    if Readable(tx) && A.AmountToBaseUnits(c.amount, cfg.decimals).Some? && tx.value.message.value.instructions.Some?
       && tx.value.message.value.instructions.value != [] {
      var units := A.AmountToBaseUnits(c.amount, cfg.decimals).value;
      var want := Expected(c.reference, c.item, cfg.mint, units, cfg.decimals);
      var ixs := tx.value.message.value.instructions.value;
      var t := TransferOf(ixs[|ixs| - 1], KeysOf(tx), want);
      if t.Some? {
        CreditIff(tx, t.value.destination, cfg, units);
        assert t == Some(Transfer(t.value.authority, t.value.destination));
      }
      if |ixs| == 1 {
        EmptyIsNoSetup(ixs[..0], want, parse);
      }
    }
  }

  lemma EmptyIsNoSetup(setup: seq<R.Instruction>, want: Expected, parse: Parser)
    requires setup == []
    ensures !IsSetup(setup, want.reference, want.item, parse)
  {
  }

  /** One transaction can be `Paid` for one reference and one item only. */
  lemma OneCharge(tx: Option<R.Transaction>, c: Claim, d: Claim, cfg: Config, cfg': Config, parse: Parser)
    requires InspectSpec(tx, c, cfg, parse).Ok? && InspectSpec(tx, c, cfg, parse).value.Paid?
    requires InspectSpec(tx, d, cfg', parse).Ok? && InspectSpec(tx, d, cfg', parse).value.Paid?
    ensures c.reference == d.reference && c.item == d.item
  {
    hide AttachedOnce, TransferOf, Credit, A.AmountToBaseUnits, KeysNamed, BalancesSpec;
    var ixs := tx.value.message.value.instructions.value;
    var memo := ixs[..|ixs| - 1][|ixs| - 2];
    assert IsPaymentMemo(memo, c.reference, c.item, parse) && IsPaymentMemo(memo, d.reference, d.item, parse);
    MemoInjective(c.reference, c.item, d.reference, d.item);
  }

  lemma MemoInjective(reference: string, item: string, reference': string, item': string)
    ensures PaymentMemo(reference, item) == PaymentMemo(reference', item') <==> reference == reference' && item == item'
  {
    var a, b := PaymentMemo(reference, item), PaymentMemo(reference', item');
    assert a.fields["ref"] == Str(reference) && b.fields["ref"] == Str(reference');
    assert a.fields["item"] == Str(item) && b.fields["item"] == Str(item');
  }

  /** Money that only moved between the merchant's own accounts is never `Paid`. */
  lemma InternalNeverPaid(tx: Option<R.Transaction>, c: Claim, cfg: Config, parse: Parser, s: nat, d: nat, units: nat)
    requires Readable(tx) && |KeysOf(tx)| <= U64_MAX && Transferred(Pre(tx), Post(tx), s, d, units)
    requires Ours(BalanceAt(Pre(tx), s).value, cfg.merchant, cfg.mint) && Ours(BalanceAt(Pre(tx), d).value, cfg.merchant, cfg.mint)
    requires A.AmountToBaseUnits(c.amount, cfg.decimals) != Some(0)
    ensures forall p :: InspectSpec(tx, c, cfg, parse) != Ok(Paid(p))
  {
    hide InspectSpec, Readable, A.AmountToBaseUnits, KeysOf, Pre, Post, Transferred, OneEach, Total, BalanceAt, Ours;
    ReadApart(tx);
    DeltaExact(Pre(tx), Post(tx), s, d, units, cfg.merchant, cfg.mint);
    forall p ensures InspectSpec(tx, c, cfg, parse) != Ok(Paid(p)) {
      if InspectSpec(tx, c, cfg, parse) == Ok(Paid(p)) {
        PaidGains(tx, c, cfg, parse, p);
      }
    }
  }

  lemma ReadApart(tx: Option<R.Transaction>)
    requires Readable(tx)
    ensures OneEach(Pre(tx)) && OneEach(Post(tx))
  {
    ReadOneEach(tx.value.meta.value.pre, |KeysOf(tx)|);
    ReadOneEach(tx.value.meta.value.post, |KeysOf(tx)|);
  }

  /** A paid transaction gained the merchant exactly the price. */
  lemma PaidGains(tx: Option<R.Transaction>, c: Claim, cfg: Config, parse: Parser, p: Payment)
    requires InspectSpec(tx, c, cfg, parse) == Ok(Paid(p)) && |KeysOf(tx)| <= U64_MAX
    ensures Readable(tx) && A.AmountToBaseUnits(c.amount, cfg.decimals).Some?
    ensures Total(Post(tx), cfg.merchant, cfg.mint) ==
            Total(Pre(tx), cfg.merchant, cfg.mint) + A.AmountToBaseUnits(c.amount, cfg.decimals).value
  {
    InspectPaidIff(tx, c, cfg, parse, p);
    hide InspectSpec, Readable, BalancesSpec, A.AmountToBaseUnits, AttachedAt, IsSetup, TransferOf, KeysOf, Pre, Post,
      ScaleAgrees, Matched, BalanceAt, Total;
  }
}
