/** Money in, items out, over whole actuator runs. */
module Conservation {
  // plugins/kiosk-watch/src/watch.rs feeding scripts/trusted-order-claim.mjs feeding scripts/actuator.mjs:
  // if every watch result is one that `verify_payment` returned, no transaction pays for two pulses.

  import opened Wrappers
  import opened Json
  import opened Actuator
  import A = Amount
  import B = Balances
  import Claim
  import P = Payment
  import Prices
  import R = Rpc
  import W = Watch

  /** How the claim script parses text and prints values. */
  datatype Script = Script(parse: Parser, text: Claim.ToText)

  function ScriptEnv(parse: Parser, text: Claim.ToText): Env {
    Env((reference: string, raw: string, order: string) =>
          Claim.Inspect(reference, raw, map[reference := order], parse, text).Some?)
  }

  /** With the script's validation, a run matches exactly when the script inspects its order and result. */
  lemma ScriptMatching(parse: Parser, text: Claim.ToText, s: State, run: Run)
    ensures Matching(ScriptEnv(parse, text), s, run) <==> Claim.Inspect(run.reference, run.raw, s.orders, parse, text).Some?
  {
    hide Claim.ValidateClaim, Claim.Claimable;
  }

  /** A finalized transaction. */
  datatype Landed = Landed(signature: string, tx: R.Transaction)

  /** Signatures are unique, and key lists fit a machine word. */
  predicate IsLedger(ledger: seq<Landed>) {
    && (forall i, j :: 0 <= i < j < |ledger| ==> ledger[i].signature != ledger[j].signature)
    && (forall i :: 0 <= i < |ledger| ==> |P.KeysOf(Some(ledger[i].tx))| <= U64_MAX)
  }

  /** Whatever transaction the node reports for a listed signature is the one on the ledger. */
  ghost predicate Reports(es: seq<R.Entry>, ledger: seq<Landed>) {
    forall k :: 0 <= k < |es| && es[k].signature.Some? && es[k].answer.Ok? && es[k].answer.value.Some? ==>
      Landed(es[k].signature.value, es[k].answer.value.value) in ledger
  }

  /** One run of the verifier that ended `Paid`. */
  datatype Evidence = Evidence(args: W.Args, listing: seq<R.Entry>, world: W.World, payment: P.Payment)

  /** `raw` is the machine output of that run. */
  ghost predicate IsEvidence(ev: Evidence, raw: string, ledger: seq<Landed>, parse: Parser) {
    && ev.world.parse == parse && Reports(ev.listing, ledger)
    && W.VerifySpec(ev.args, Ok(ev.listing), ev.world) == Ok(P.Paid(ev.payment))
    && parse(raw).Some? && Claim.Unwrap(parse(raw).value, parse).Some?
    && Claim.IsWatchOutput(Claim.Unwrap(parse(raw).value, parse).value, ev.payment)
  }

  ghost predicate Genuine(raw: string, ledger: seq<Landed>, parse: Parser) {
    exists ev :: IsEvidence(ev, raw, ledger, parse)
  }

  /** The transaction verifies as this payment, for some charge and configuration. */
  ghost predicate Settles(tx: R.Transaction, p: P.Payment, parse: Parser) {
    exists c, cfg :: P.InspectSpec(Some(tx), c, cfg, parse) == Ok(P.Paid(p))
  }

  /** A `Paid` verdict names a transaction of the ledger that settles it. */
  lemma PaidIsOnLedger(ev: Evidence, raw: string, ledger: seq<Landed>, parse: Parser) returns (i: nat)
    requires IsEvidence(ev, raw, ledger, parse)
    ensures i < |ledger| && ledger[i].signature == ev.payment.signature && Settles(ledger[i].tx, ev.payment, parse)
  {
    W.PaidIff(ev.args, Ok(ev.listing), ev.world, ev.payment);
    var c := W.Prepare(ev.args, ev.world.cfg).value;
    hide W.VerifySpec, W.Prepare, W.AllForeign, W.AllPassed, W.Foreign, W.IsClaim, Claim.IsWatchOutput, Claim.Unwrap;
    var k :| 0 <= k < |ev.listing| && W.PaidAt(ev.listing, k, c, ev.world, ev.payment);
    var e := ev.listing[k];
    var claim := W.ClaimFor(c, e.signature.value, e.blockTime.value);
    W.PaidCarries(e.answer.value, claim, ev.world.cfg, parse, ev.payment);
    PaidHasTransaction(e.answer.value, claim, ev.world.cfg, parse, ev.payment);
    hide P.InspectSpec;
    i :| 0 <= i < |ledger| && ledger[i] == Landed(e.signature.value, e.answer.value.value);
  }

  lemma PaidHasTransaction(tx: Option<R.Transaction>, c: P.Claim, cfg: P.Config, parse: Parser, p: P.Payment)
    requires P.InspectSpec(tx, c, cfg, parse) == Ok(P.Paid(p))
    ensures tx.Some?
  {
  }

  // ---- Credits -----------------------------------------------------------------------------

  /** What `owner` gained in `mint` by this transaction. */
  function Delta(tx: R.Transaction, owner: string, mint: string): int {
    if P.Readable(Some(tx)) then B.Total(P.Post(Some(tx)), owner, mint) - B.Total(P.Pre(Some(tx)), owner, mint) else 0
  }

  function Gain(tx: R.Transaction, owner: string, mint: string): nat {
    if Delta(tx, owner, mint) > 0 then Delta(tx, owner, mint) else 0
  }

  function Units(p: P.Payment): nat {
    var u := A.AmountToBaseUnits(p.amount, p.decimals);
    if u.Some? then u.value else 0
  }

  /** The settled amount is the recipient's net on-chain credit. */
  lemma SettledIsCredited(tx: R.Transaction, p: P.Payment, parse: Parser)
    requires Settles(tx, p, parse) && |P.KeysOf(Some(tx))| <= U64_MAX
    ensures A.AmountToBaseUnits(p.amount, p.decimals).Some? && Delta(tx, p.recipient, p.mint) == Units(p)
  {
    var c, cfg :| P.InspectSpec(Some(tx), c, cfg, parse) == Ok(P.Paid(p));
    P.InspectPaidIff(Some(tx), c, cfg, parse, p);
    hide P.InspectSpec, P.Readable, P.AttachedAt, P.IsSetup, P.TransferOf, P.Pre, P.Post, A.AmountToBaseUnits, B.Total,
      P.ScaleAgrees, P.Matched, B.BalanceAt;
  }

  /** One transaction settles one reference. */
  lemma SettlesOnce(tx: R.Transaction, p: P.Payment, q: P.Payment, parse: Parser)
    requires Settles(tx, p, parse) && Settles(tx, q, parse)
    ensures p.reference == q.reference && p.item == q.item
  {
    var c, cfg :| P.InspectSpec(Some(tx), c, cfg, parse) == Ok(P.Paid(p));
    var d, cfg' :| P.InspectSpec(Some(tx), d, cfg', parse) == Ok(P.Paid(q));
    P.OneCharge(Some(tx), c, d, cfg, cfg', parse);
    W.PaidCarries(Some(tx), c, cfg, parse, p);
    W.PaidCarries(Some(tx), d, cfg', parse, q);
  }

  // ---- Sums --------------------------------------------------------------------------------

  /** All gains on the ledger. */
  function Gains(ledger: seq<Landed>, owner: string, mint: string): nat {
    if ledger == [] then 0
    else Gains(ledger[..|ledger| - 1], owner, mint) + Gain(ledger[|ledger| - 1].tx, owner, mint)
  }

  /** The gains of the chosen transactions. */
  function GainsIn(ledger: seq<Landed>, chosen: set<nat>, owner: string, mint: string): nat {
    if ledger == [] then 0 else
    var n := |ledger| - 1;
    GainsIn(ledger[..n], chosen, owner, mint) + if n in chosen then Gain(ledger[n].tx, owner, mint) else 0
  }

  lemma {:induction false} GainsInBound(ledger: seq<Landed>, chosen: set<nat>, owner: string, mint: string)
    ensures GainsIn(ledger, chosen, owner, mint) <= Gains(ledger, owner, mint)
    ensures chosen == {} ==> GainsIn(ledger, chosen, owner, mint) == 0
  {
    hide Gain;
    if ledger != [] {
      GainsInBound(ledger[..|ledger| - 1], chosen, owner, mint);
    }
  }

  /** One more transaction adds exactly its gain. */
  lemma {:induction false} GainsInAdd(ledger: seq<Landed>, chosen: set<nat>, i: nat, owner: string, mint: string)
    requires i !in chosen
    ensures GainsIn(ledger, chosen + {i}, owner, mint) ==
            GainsIn(ledger, chosen, owner, mint) + if i < |ledger| then Gain(ledger[i].tx, owner, mint) else 0
  {
    hide Gain;
    if ledger != [] {
      GainsInAdd(ledger[..|ledger| - 1], chosen, i, owner, mint);
    }
  }

  // ---- The quotes of pulsed orders ---------------------------------------------------------

  /** What an order file asks for, if it is for this owner and mint. */
  function Asked(order: Json, owner: string, mint: string): nat {
    if GetStr(order, "recipient") != Some(owner) || GetStr(order, "mint") != Some(mint) then 0 else
    match (Get(order, "amount"), Get(order, "token_decimals"))
    case (Some(Str(amount)), Some(UInt(decimals))) =>
      if decimals >= 256 then 0 else
      var u := A.AmountToBaseUnits(amount, decimals);
      if u.Some? then u.value else 0
    case _ => 0
  }

  function AskedFor(s: State, reference: string, parse: Parser, owner: string, mint: string): nat {
    if reference in s.orders && parse(s.orders[reference]).Some?
    then Asked(parse(s.orders[reference]).value, owner, mint) else 0
  }

  /** The quoted base units of the first `n` pulsed orders. */
  function Quoted(s: State, n: nat, parse: Parser, owner: string, mint: string): nat
    requires n <= |s.highs|
  {
    if n == 0 then 0 else
    Quoted(s, n - 1, parse, owner, mint) + AskedFor(s, s.highs[n - 1].reference, parse, owner, mint)
  }

  /** The order of a claim asks for exactly what its payment record says was paid. */
  lemma OrderAsksPaid(c: Script, s: State, r: Run, ev: Evidence, ledger: seq<Landed>, owner: string, mint: string)
    requires Matching(ScriptEnv(c.parse, c.text), s, r) && IsEvidence(ev, r.raw, ledger, c.parse)
    requires A.AmountToBaseUnits(ev.payment.amount, ev.payment.decimals).Some?
    ensures ev.payment.reference == r.reference
    ensures AskedFor(s, r.reference, c.parse, owner, mint) ==
            if ev.payment.recipient == owner && ev.payment.mint == mint then Units(ev.payment) else 0
  {
    hide Claim.Inspect, Claim.IsWatchOutput, Claim.Unwrap, W.VerifySpec, A.AmountToBaseUnits, Reports, Get, Matching, Claim.Claimable;
    InspectParts(c, s, r);
    var i := Claim.Inspect(r.reference, r.raw, s.orders, c.parse, c.text).value;
    Claim.WatchMembers(i.watch, ev.payment);
    SameMembers(i.watch, i.order, c.text);
    assert Get(i.order, "reference") == Some(Str(ev.payment.reference));
    assert Get(i.order, "amount") == Some(Str(ev.payment.amount));
    assert Get(i.order, "token_decimals") == Some(UInt(ev.payment.decimals as int));
    assert Get(i.order, "recipient") == Some(Str(ev.payment.recipient)) && Get(i.order, "mint") == Some(Str(ev.payment.mint));
  }

  lemma SameMembers(watch: Json, order: Json, text: Claim.ToText)
    requires Claim.Claimable(watch, order, text)
    ensures Get(order, "reference") == Get(watch, "reference") && Get(order, "amount") == Get(watch, "amount")
    ensures Get(order, "recipient") == Get(watch, "recipient") && Get(order, "mint") == Get(watch, "mint")
    ensures Get(order, "token_decimals") == Get(watch, "token_decimals")
  {
    hide Claim.WatchShape, Claim.OrderShape, Claim.Timestamps, Claim.InQuote, A.ClaimPattern, Get, Claim.AmountMember,
      Claim.DecimalsMember, Claim.WindowMember, Claim.SafeInt, Prices.IsItemId, Claim.IsSha256;
  }

  lemma InspectParts(c: Script, s: State, r: Run)
    requires Matching(ScriptEnv(c.parse, c.text), s, r)
    ensures r.reference in s.orders && Claim.Inspect(r.reference, r.raw, s.orders, c.parse, c.text).Some?
    ensures var i := Claim.Inspect(r.reference, r.raw, s.orders, c.parse, c.text).value;
            && c.parse(s.orders[r.reference]) == Some(i.order) && GetStr(i.order, "reference") == Some(r.reference)
            && c.parse(r.raw).Some? && Claim.Unwrap(c.parse(r.raw).value, c.parse) == Some(i.watch)
            && Claim.Claimable(i.watch, i.order, c.text)
  {
    ScriptMatching(c.parse, c.text, s, r);
    hide Claim.Claimable, Claim.Unwrap, Matching;
  }

  // ---- Main result -------------------------------------------------------------------------

  /** Every real run was given a result of the verifier. */
  ghost predicate AllGenuine(c: Script, s: State, ledger: seq<Landed>) {
    forall pid :: pid in s.procs && !s.procs[pid].run.dry ==> Genuine(s.procs[pid].run.raw, ledger, c.parse)
  }

  /** Pulse `k` is backed by transaction `i`, which settled its reference and paid what its order asks. */
  ghost predicate Backs(c: Script, s: State, ledger: seq<Landed>, k: nat, i: nat)
    requires k < |s.highs|
  {
    exists p: P.Payment :: BackedBy(c, s, ledger, k, i, p)
  }

  ghost predicate BackedBy(c: Script, s: State, ledger: seq<Landed>, k: nat, i: nat, p: P.Payment)
    requires k < |s.highs|
  {
    && i < |ledger| && p.reference == s.highs[k].reference && p.signature == ledger[i].signature
    && Settles(ledger[i].tx, p, c.parse) && AsksExactly(s, p, c.parse)
  }

  /** The order of the payment's reference asks for its amount, to its recipient, in its mint. */
  ghost predicate AsksExactly(s: State, p: P.Payment, parse: Parser) {
    forall owner, mint :: AskedFor(s, p.reference, parse, owner, mint) ==
                          if p.recipient == owner && p.mint == mint then Units(p) else 0
  }

  lemma PulseIsBacked(c: Script, run: seq<State>, t: nat, ledger: seq<Landed>, k: nat) returns (i: nat)
    requires Execution(ScriptEnv(c.parse, c.text), run) && t < |run| && k < |run[t].highs|
    requires IsLedger(ledger) && AllGenuine(c, run[t], ledger)
    ensures Backs(c, run[t], ledger, k, i)
  {
    hide Execution, Matching, IsEvidence, Settles, Owns, Reports, W.VerifySpec, Claim.Inspect, Backs;
    HighIsClaimed(ScriptEnv(c.parse, c.text), run, t, k);
    var s := run[t];
    var r := s.procs[s.highs[k].pid].run;
    var ev :| IsEvidence(ev, r.raw, ledger, c.parse);
    i := PaidIsOnLedger(ev, r.raw, ledger, c.parse);
    EvidenceBacks(c, s, ledger, k, i, r, ev);
  }

  lemma EvidenceBacks(c: Script, s: State, ledger: seq<Landed>, k: nat, i: nat, r: Run, ev: Evidence)
    requires IsLedger(ledger) && k < |s.highs| && s.highs[k].reference == r.reference && i < |ledger|
    requires Matching(ScriptEnv(c.parse, c.text), s, r) && IsEvidence(ev, r.raw, ledger, c.parse)
    requires ledger[i].signature == ev.payment.signature && Settles(ledger[i].tx, ev.payment, c.parse)
    ensures Backs(c, s, ledger, k, i)
  {
    hide Matching, IsEvidence, Settles, AskedFor, Units, A.AmountToBaseUnits, Claim.Inspect;
    SettledIsCredited(ledger[i].tx, ev.payment, c.parse);
    OrderAsksPaid(c, s, r, ev, ledger, "", "");
    forall owner, mint
      ensures AskedFor(s, ev.payment.reference, c.parse, owner, mint) ==
              if ev.payment.recipient == owner && ev.payment.mint == mint then Units(ev.payment) else 0
    {
      OrderAsksPaid(c, s, r, ev, ledger, owner, mint);
    }
    assert BackedBy(c, s, ledger, k, i, ev.payment);
  }

  /** A backed pulse asks no more than the transaction gained. */
  lemma BackedGain(c: Script, s: State, ledger: seq<Landed>, k: nat, i: nat, owner: string, mint: string)
    requires IsLedger(ledger) && k < |s.highs| && Backs(c, s, ledger, k, i)
    ensures AskedFor(s, s.highs[k].reference, c.parse, owner, mint) <= Gain(ledger[i].tx, owner, mint)
  {
    hide Settles, AskedFor, Delta, Units;
    var p: P.Payment :| BackedBy(c, s, ledger, k, i, p);
    SettledIsCredited(ledger[i].tx, p, c.parse);
  }

  /** Pulses of different references are backed by different transactions. */
  lemma BackedApart(c: Script, s: State, ledger: seq<Landed>, j: nat, k: nat, i: nat)
    requires j < |s.highs| && k < |s.highs| && Backs(c, s, ledger, j, i) && Backs(c, s, ledger, k, i)
    ensures s.highs[j].reference == s.highs[k].reference
  {
    hide Settles, AskedFor, Units;
    var p: P.Payment :| BackedBy(c, s, ledger, j, i, p);
    var q: P.Payment :| BackedBy(c, s, ledger, k, i, q);
    SettlesOnce(ledger[i].tx, p, q, c.parse);
  }

  /**
   * In every execution whose watch results are genuine, distinct pulses are backed by distinct
   * transactions; so, for every recipient and mint, the sum of what the pulsed orders asked is at
   * most what the backing transactions credited, and that is part of what the ledger credited.
   */
  lemma {:induction false} Conserved(c: Script, run: seq<State>, t: nat, ledger: seq<Landed>, n: nat, owner: string, mint: string)
    returns (backing: seq<nat>, chosen: set<nat>)
    requires Execution(ScriptEnv(c.parse, c.text), run) && t < |run| && n <= |run[t].highs|
    requires IsLedger(ledger) && AllGenuine(c, run[t], ledger)
    ensures |backing| == n && forall k :: 0 <= k < n ==> Backs(c, run[t], ledger, k, backing[k])
    ensures forall j, k :: 0 <= j < k < n ==> backing[j] != backing[k]
    ensures forall i :: i in chosen <==> i in backing
    ensures Quoted(run[t], n, c.parse, owner, mint) <= GainsIn(ledger, chosen, owner, mint) <= Gains(ledger, owner, mint)
    decreases n
  {
    hide Execution, Genuine, Backs, AskedFor, IsLedger, Gain;
    if n == 0 {
      backing, chosen := [], {};
      GainsInBound(ledger, {}, owner, mint);
    } else {
      var before, old_ := Conserved(c, run, t, ledger, n - 1, owner, mint);
      var i := PulseIsBacked(c, run, t, ledger, n - 1);
      forall j | 0 <= j < n - 1 ensures before[j] != i {
        if before[j] == i {
          BackedApart(c, run[t], ledger, j, n - 1, i);
          AtMostOneHigh(ScriptEnv(c.parse, c.text), run, t, j, n - 1);
        }
      }
      backing, chosen := before + [i], old_ + {i};
      InLedger(c, run[t], ledger, n - 1, i);
      BackedGain(c, run[t], ledger, n - 1, i, owner, mint);
      GainsInAdd(ledger, old_, i, owner, mint);
      GainsInBound(ledger, chosen, owner, mint);
    }
  }

  lemma InLedger(c: Script, s: State, ledger: seq<Landed>, k: nat, i: nat)
    requires k < |s.highs| && Backs(c, s, ledger, k, i)
    ensures i < |ledger|
  {
  }
}
