/**
 * A landed attestation as a node reports it, and that the verifier reads back what the producer
 * wrote: plugins/kiosk-attest/src/attest.rs against crates/kiosk-core/src/chain.rs. The node's report is
 * a function of the message: its keys with their flags, and its instructions parsed by program.
 */
module Landing {
  import opened Wrappers
  import opened Json
  import opened Keys
  import opened Recovery
  import opened Attest
  import Chain
  import Base58
  import M = Message
  import C = Compile
  import R = Rpc

  // ---- How a node reports a message ("jsonParsed") -----------------------------------------

  function ShownKey(m: M.Message, i: nat): R.AccountKey
    requires i < |m.accountKeys|
  {
    R.Full(Some(Show(m.accountKeys[i])), Some(C.SignerAt(m, i)), Some(C.WritableAt(m, i)))
  }

  function ShownKeys(m: M.Message): (ks: seq<R.AccountKey>)
    ensures |ks| == |m.accountKeys|
  {
    seq(|m.accountKeys|, i requires 0 <= i < |m.accountKeys| => ShownKey(m, i))
  }

  function NameAt(m: M.Message, i: nat): Json {
    if i < |m.accountKeys| then Str(Show(m.accountKeys[i])) else Null
  }

  function ShownInstruction(m: M.Message, ci: M.CompiledInstruction): R.Instruction {
    if ci.programIdIndex >= |m.accountKeys| then R.Instruction(None, None, Null) else
    var program := m.accountKeys[ci.programIdIndex];
    if program == SYSTEM && ci.data == ADVANCE_NONCE && |ci.accounts| >= 3 then
      R.Instruction(Some("system"), Some(Show(program)),
        Obj(map["type" := Str("advanceNonce"),
                "info" := Obj(map["nonceAccount" := NameAt(m, ci.accounts[0]),
                                  "recentBlockhashesSysvar" := NameAt(m, ci.accounts[1]),
                                  "nonceAuthority" := NameAt(m, ci.accounts[2])])]))
    else if program == MemoProgramKey() then
      R.Instruction(Some("spl-memo"), Some(Show(program)), Str(BytesText(ci.data)))
    else R.Instruction(None, Some(Show(program)), Null)
  }

  function ShownParsed(m: M.Message): seq<R.Instruction> {
    seq(|m.instructions|, i requires 0 <= i < |m.instructions| => ShownInstruction(m, m.instructions[i]))
  }

  /** A successful landing of the message. */
  function Shown(m: M.Message, slot: nat, blockTime: Option<int>): R.Transaction {
    R.Transaction(
      Some(R.Meta(R.Success, Some([]), Some([]))),
      Some(R.Message(Some(ShownKeys(m)), Some(ShownParsed(m)))),
      Some(slot),
      blockTime)
  }

  /** How a listing quotes a memo: as it is, or after its byte count in brackets. */
  ghost predicate Quotes(listed: R.ListedMemo, memo: string) {
    match listed
    case NullMemo => true
    case Text(t) => t == memo || exists n: string :: AllDigits(n) && t == "[" + n + "] " + memo
    case _ => false
  }

  predicate AllDigits(n: string) {
    forall i :: 0 <= i < |n| ==> '0' <= n[i] <= '9'
  }

  // ---- The built message -------------------------------------------------------------------

  function Built(nonce: M.Key, authority: M.Key, reference: Option<M.Key>, memo: Text, blockhash: M.Key): M.Message {
    C.CompileSpec(Instructions(nonce, authority, reference, memo), authority, blockhash)
  }

  function KeySet(nonce: M.Key, authority: M.Key, reference: Option<M.Key>): set<M.Key> {
    {authority, nonce, RecentBlockhashesKey(), SYSTEM, MemoProgramKey()} + (if reference.Some? then {reference.value} else {})
  }

  lemma AdvanceFlags(nonce: M.Key, authority: M.Key, reference: Option<M.Key>, k: M.Key)
    ensures var ix := AdvanceNonce(nonce, authority, reference);
            && (C.UsedBy(ix, k) <==>
                 (k == SYSTEM || k == nonce || k == RecentBlockhashesKey() || k == authority || Some(k) == reference))
            && (C.SignedIn(ix, k) <==> k == authority)
            && (C.WrittenIn(ix, k) <==> k == nonce)
  {
    hide RecentBlockhashesKey, MemoProgramKey;
    var ix := AdvanceNonce(nonce, authority, reference);
    var a := ix.accounts;
    assert a[0] == M.AccountMeta(nonce, false, true) && a[1] == M.AccountMeta(RecentBlockhashesKey(), false, false);
    assert a[2] == M.AccountMeta(authority, true, false);
    assert reference.Some? ==> |a| == 4 && a[3] == M.AccountMeta(reference.value, false, false);
  }

  lemma MemoFlags(memo: Text, k: M.Key)
    ensures var ix := MemoInstruction(memo);
            (C.UsedBy(ix, k) <==> k == MemoProgramKey()) && !C.SignedIn(ix, k) && !C.WrittenIn(ix, k)
  {
    hide MemoProgramKey, TextBytes;
  }

  /** Which keys the two instructions use, sign with and write to. */
  lemma InstructionFlags(nonce: M.Key, authority: M.Key, reference: Option<M.Key>, memo: Text, k: M.Key)
    ensures var ixs := Instructions(nonce, authority, reference, memo);
            && (C.Used(ixs, authority, k) <==> k in KeySet(nonce, authority, reference))
            && (C.MustSign(ixs, authority, k) <==> k == authority)
            && (C.MayWrite(ixs, authority, k) <==> k == authority || k == nonce)
  {
    var a, b := AdvanceNonce(nonce, authority, reference), MemoInstruction(memo);
    AdvanceFlags(nonce, authority, reference, k);
    MemoFlags(memo, k);
    hide AdvanceNonce, MemoInstruction, C.UsedBy, C.SignedIn, C.WrittenIn, RecentBlockhashesKey, MemoProgramKey;
    assert Instructions(nonce, authority, reference, memo) == ([] + [a]) + [b];
    C.AnySnoc([], a, k);
    C.AnySnoc([] + [a], b, k);
  }

  lemma {:induction false} DistinctBound(ks: seq<M.Key>, s: set<M.Key>)
    requires C.Distinct(ks) && forall k :: k in ks ==> k in s
    ensures |ks| <= |s|
  {
    if ks != [] {
      var last, init := ks[|ks| - 1], ks[..|ks| - 1];
      assert last in ks;
      forall k | k in init ensures k in s - {last} {
        var i :| 0 <= i < |init| && init[i] == k;
        assert ks[i] == k;
      }
      DistinctBound(init, s - {last});
      assert |s - {last}| == |s| - 1;
    }
  }

  lemma FewKeys(nonce: M.Key, authority: M.Key, reference: Option<M.Key>)
    ensures |KeySet(nonce, authority, reference)| <= 6
  {
    var a, b, c, d, e := authority, nonce, RecentBlockhashesKey(), SYSTEM, MemoProgramKey();
    hide RecentBlockhashesKey, MemoProgramKey;
    SmallSet(a, b, c, d, e, reference);
  }

  lemma SmallSet(a: M.Key, b: M.Key, c: M.Key, d: M.Key, e: M.Key, reference: Option<M.Key>)
    ensures |{a, b, c, d, e} + (if reference.Some? then {reference.value} else {})| <= 6
  {
    var ks := [a, b, c, d, e] + if reference.Some? then [reference.value] else [];
    AtMostLength(ks, {a, b, c, d, e} + (if reference.Some? then {reference.value} else {}));
  }

  /** A set whose members are all listed is no larger than the list. */
  lemma {:induction false} AtMostLength<T>(ks: seq<T>, s: set<T>)
    requires forall k :: k in s ==> k in ks
    ensures |s| <= |ks|
  {
    if ks != [] {
      var last := ks[|ks| - 1];
      AtMostLength(ks[..|ks| - 1], s - {last});
      assert |s| <= |s - {last}| + 1 by {
        if last in s {
          assert s == (s - {last}) + {last};
        } else {
          assert s == s - {last};
        }
      }
    } else {
      assert s == {};
    }
  }

  /** Everything the verifiers look at in a built message. */
  lemma BuiltShape(nonce: M.Key, authority: M.Key, reference: Option<M.Key>, memo: Text, blockhash: M.Key)
    ensures var m := Built(nonce, authority, reference, memo, blockhash);
            && |m.accountKeys| <= 6 && |m.instructions| == 2
            && C.Distinct(m.accountKeys)
            && (forall k :: k in m.accountKeys <==> k in KeySet(nonce, authority, reference))
            && (forall i :: 0 <= i < |m.accountKeys| ==> (C.SignerAt(m, i) <==> m.accountKeys[i] == authority))
            && (forall i :: 0 <= i < |m.accountKeys| ==>
                 (C.WritableAt(m, i) <==> m.accountKeys[i] == authority || m.accountKeys[i] == nonce))
            && (forall i :: 0 <= i < 2 ==>
                 C.Resolves(m.accountKeys, m.instructions[i], Instructions(nonce, authority, reference, memo)[i]))
  {
    var ixs := Instructions(nonce, authority, reference, memo);
    var m := Built(nonce, authority, reference, memo, blockhash);
    C.KeysExact(ixs, authority, blockhash);
    assert |ixs| == 2;
    hide C.CompileSpec, C.Used, C.MustSign, C.MayWrite, Instructions, KeySet, C.Resolves, C.SignerAt, C.WritableAt, C.Signers, C.Readonly;
    forall k: M.Key ensures k in m.accountKeys <==> k in KeySet(nonce, authority, reference) {
      InstructionFlags(nonce, authority, reference, memo, k);
    }
    FewKeys(nonce, authority, reference);
    DistinctBound(m.accountKeys, KeySet(nonce, authority, reference));
    C.IndicesResolveIff(ixs, authority, blockhash);
    C.FlagsExactIff(ixs, authority, blockhash);
    forall i | 0 <= i < |m.accountKeys|
      ensures C.SignerAt(m, i) <==> m.accountKeys[i] == authority
      ensures C.WritableAt(m, i) <==> m.accountKeys[i] == authority || m.accountKeys[i] == nonce
    {
      InstructionFlags(nonce, authority, reference, memo, m.accountKeys[i]);
    }
  }

  // ---- What the node's report says about it ------------------------------------------------

  lemma {:induction false} FlagsFound(keys: seq<R.AccountKey>, pubkey: string, signer: bool, writable: bool)
    requires forall i :: 0 <= i < |keys| && Chain.PubkeyOf(keys[i]) == Some(pubkey) ==>
               keys[i] == R.Full(Some(pubkey), Some(signer), Some(writable))
    requires Chain.Names(keys, pubkey)
    ensures Chain.AccountFlags(keys, pubkey) == Some((signer, writable))
  {
    if Chain.PubkeyOf(keys[0]) != Some(pubkey) {
      var i :| 0 <= i < |keys| && Chain.PubkeyOf(keys[i]) == Some(pubkey);
      assert keys[1..][i - 1] == keys[i];
      FlagsFound(keys[1..], pubkey, signer, writable);
    }
  }

  lemma {:induction false} MatchingNone(keys: seq<R.AccountKey>, pubkey: string)
    requires forall i :: 0 <= i < |keys| ==> Chain.PubkeyOf(keys[i]) != Some(pubkey)
    ensures Chain.Matching(keys, pubkey) == []
  {
    if keys != [] {
      MatchingNone(keys[1..], pubkey);
    }
  }

  lemma {:induction false} MatchingOne(keys: seq<R.AccountKey>, pubkey: string, i: nat)
    requires i < |keys| && forall j :: 0 <= j < |keys| ==> (Chain.PubkeyOf(keys[j]) == Some(pubkey) <==> j == i)
    ensures Chain.Matching(keys, pubkey) == [keys[i]]
  {
    if i == 0 {
      MatchingNone(keys[1..], pubkey);
    } else {
      MatchingOne(keys[1..], pubkey, i - 1);
    }
  }

  /** Every key of a built message is listed once, with the flags its role demands. */
  lemma ShownFlags(nonce: M.Key, authority: M.Key, reference: Option<M.Key>, memo: Text, blockhash: M.Key, k: M.Key)
    requires k in KeySet(nonce, authority, reference)
    ensures var keys := ShownKeys(Built(nonce, authority, reference, memo, blockhash));
            && keys != [] && (forall i :: 0 <= i < |keys| ==> Chain.ValidKey(keys[i]))
            && Chain.Names(keys, Show(k))
            && (Chain.SignedBy(keys, Show(k)) <==> k == authority)
            && Chain.AccountFlags(keys, Show(k)) == Some((k == authority, k == authority || k == nonce))
            && Chain.Matching(keys, Show(k)) == [R.Full(Some(Show(k)), Some(k == authority), Some(k == authority || k == nonce))]
  {
    BuiltShape(nonce, authority, reference, memo, blockhash);
    var m := Built(nonce, authority, reference, memo, blockhash);
    hide Built, KeySet, C.SignerAt, C.WritableAt, Show, C.Resolves, Instructions;
    var keys := ShownKeys(m);
    var i :| 0 <= i < |m.accountKeys| && m.accountKeys[i] == k;
    forall j | 0 <= j < |keys| ensures Chain.PubkeyOf(keys[j]) == Some(Show(k)) <==> j == i {
      ShowInjective(m.accountKeys[j], k);
    }
    assert Chain.PubkeyOf(keys[i]) == Some(Show(k));
    FlagsFound(keys, Show(k), k == authority, k == authority || k == nonce);
    MatchingOne(keys, Show(k), i);
  }

  lemma TextBack(memo: Text)
    ensures BytesText(TextBytes(memo)) == memo
  {
  }

  /** The two instructions, as the node reports them. */
  lemma ShownInstructions(nonce: M.Key, authority: M.Key, reference: Option<M.Key>, memo: Text, blockhash: M.Key, id: string)
    ensures var m := Built(nonce, authority, reference, memo, blockhash);
            && |m.instructions| == 2
            && Chain.IsAdvanceNonce(ShownInstruction(m, m.instructions[0]), Chain.Device(Show(nonce), Show(authority), id))
            && ShownInstruction(m, m.instructions[1]) == R.Instruction(Some("spl-memo"), Some(MEMO_PROGRAM), Str(memo))
  {
    BuiltShape(nonce, authority, reference, memo, blockhash);
    ShowConstants();
    TextBack(memo);
    var m := Built(nonce, authority, reference, memo, blockhash);
    var a, b := AdvanceNonce(nonce, authority, reference), MemoInstruction(memo);
    assert C.Resolves(m.accountKeys, m.instructions[0], a) && C.Resolves(m.accountKeys, m.instructions[1], b);
    hide Built, RecentBlockhashesKey, MemoProgramKey, Show, C.SignerAt, C.WritableAt, BytesText, TextBytes, KeySet, C.Distinct,
      C.Resolves, AdvanceNonce, ShownInstruction, MemoInstruction;
    ShownAdvance(m, nonce, authority, reference, id);
    ShownMemo(m, memo);
  }

  lemma ShownMemo(m: M.Message, memo: Text)
    requires |m.instructions| == 2 && C.Resolves(m.accountKeys, m.instructions[1], MemoInstruction(memo))
    requires Show(MemoProgramKey()) == MEMO_PROGRAM && SYSTEM != MemoProgramKey() && BytesText(TextBytes(memo)) == memo
    ensures ShownInstruction(m, m.instructions[1]) == R.Instruction(Some("spl-memo"), Some(MEMO_PROGRAM), Str(memo))
  {
    hide RecentBlockhashesKey, MemoProgramKey, Show, BytesText, TextBytes;
  }

  lemma ShownAdvance(m: M.Message, nonce: M.Key, authority: M.Key, reference: Option<M.Key>, id: string)
    requires |m.instructions| == 2
    requires C.Resolves(m.accountKeys, m.instructions[0], AdvanceNonce(nonce, authority, reference))
    requires Show(SYSTEM) == SYSTEM_PROGRAM && Show(RecentBlockhashesKey()) == RECENT_BLOCKHASHES
    ensures Chain.IsAdvanceNonce(ShownInstruction(m, m.instructions[0]), Chain.Device(Show(nonce), Show(authority), id))
  {
    hide RecentBlockhashesKey, MemoProgramKey, Show;
    var ci := m.instructions[0];
    var a := AdvanceNonce(nonce, authority, reference).accounts;
    assert a[0].pubkey == nonce && a[1].pubkey == RecentBlockhashesKey() && a[2].pubkey == authority;
  }

  /** The memo text names the reference that is attached, if it says it is a fulfillment. */
  predicate Bound(parsed: Json, reference: Option<M.Key>, nonce: M.Key, authority: M.Key) {
    GetStr(parsed, "tag") == Some(Chain.FULFILLMENT_TAG) ==>
      && reference.Some? && GetStr(parsed, "ref") == Some(Show(reference.value))
      && !Chain.ReferenceCollides(reference.value, nonce, authority)
  }

  lemma ReferenceAccepted(nonce: M.Key, authority: M.Key, reference: Option<M.Key>, memo: Text, blockhash: M.Key,
                          id: string, parse: Parser)
    requires parse(memo).Some? && Bound(parse(memo).value, reference, nonce, authority)
    ensures Chain.CheckReference(memo, ShownKeys(Built(nonce, authority, reference, memo, blockhash)),
                                 Chain.Device(Show(nonce), Show(authority), id), parse) == None
  {
    if GetStr(parse(memo).value, "tag") == Some(Chain.FULFILLMENT_TAG) {
      var k := reference.value;
      ShowDecodes(k);
      ShowDecodes(nonce);
      ShowDecodes(authority);
      assert k != authority && k != nonce;
      ShownFlags(nonce, authority, reference, memo, blockhash, k);
      hide Built, Show, Base58.DecodePubkey, ShownKeys, Chain.ReferenceCollides;
    }
  }

  /** A listing's quotation of the memo, if any, quotes this memo. */
  predicate QuotedAs(listed: Option<string>, memo: string) {
    listed.Some? ==> Chain.ExtractJson(listed.value) == Some(memo)
  }

  /**
   * The verifier recognises a built transaction as an attestation with its memo, exactly when the
   * nonce account is not its own authority.
   */
  lemma ClassifiesIff(nonce: M.Key, authority: M.Key, reference: Option<M.Key>, memo: Text, blockhash: M.Key,
                      id: string, listed: Option<string>, parse: Parser, slot: nat, blockTime: Option<int>)
    requires parse(memo).Some? && Bound(parse(memo).value, reference, nonce, authority) && QuotedAs(listed, memo)
    ensures Chain.Classify(Some(Shown(Built(nonce, authority, reference, memo, blockhash), slot, blockTime)),
                           Chain.Device(Show(nonce), Show(authority), id), listed, parse)
            == if nonce != authority then Ok(Some(Chain.Attestation(memo))) else Err(Gap)
  {
    var m := Built(nonce, authority, reference, memo, blockhash);
    var dev := Chain.Device(Show(nonce), Show(authority), id);
    ShownFlags(nonce, authority, reference, memo, blockhash, nonce);
    ShownFlags(nonce, authority, reference, memo, blockhash, authority);
    ShownInstructions(nonce, authority, reference, memo, blockhash, id);
    ReferenceAccepted(nonce, authority, reference, memo, blockhash, id, parse);
    ShownParts(m, dev, slot, blockTime);
    hide Built, Show, ShownKeys, ShownInstruction, Shown, ShownParsed, Chain.CheckReference, Chain.AuthenticatedParts,
      Chain.IsAdvanceNonce, Chain.IsExactInitialization, Chain.ExactAttestationMemo, Chain.ValidKey;
    var parts := Chain.Parts(ShownKeys(m), ShownParsed(m));
    ExactShape(parts, dev, memo, listed, nonce == authority);
  }

  lemma ShownParts(m: M.Message, dev: Chain.Device, slot: nat, blockTime: Option<int>)
    requires var keys := ShownKeys(m);
             keys != [] && (forall i :: 0 <= i < |keys| ==> Chain.ValidKey(keys[i]))
             && Chain.Names(keys, dev.address) && Chain.SignedBy(keys, dev.authority)
    ensures Chain.AuthenticatedParts(Some(Shown(m, slot, blockTime)), dev)
            == Ok(Some(Chain.Parts(ShownKeys(m), ShownParsed(m))))
  {
    hide ShownKeys, ShownInstruction;
  }

  /** An advance of the nonce and a memo are an attestation, never an initialization. */
  lemma ExactShape(parts: Chain.Parts, dev: Chain.Device, memo: string, listed: Option<string>, same: bool)
    requires |parts.instructions| == 2 && Chain.IsAdvanceNonce(parts.instructions[0], dev)
    requires parts.instructions[1] == R.Instruction(Some("spl-memo"), Some(MEMO_PROGRAM), Str(memo))
    requires Chain.AccountFlags(parts.keys, dev.address) == Some((same, true))
    requires Chain.AccountFlags(parts.keys, dev.authority) == Some((true, true))
    requires QuotedAs(listed, memo)
    ensures !Chain.IsExactInitialization(parts, dev, listed)
    ensures Chain.ExactAttestationMemo(parts, dev, listed) == if same then None else Some(memo)
  {
    hide Chain.AccountFlags, Chain.ExtractJson;
    assert "advanceNonce" != "createAccount";
  }

  // ---- The record --------------------------------------------------------------------------

  /** Two objects equal but for the digits of fractional numbers, which a text round trip may change. */
  predicate SameButFloats(a: Json, b: Json) {
    && a.Obj? && b.Obj? && a.fields.Keys == b.fields.Keys
    && forall k :: k in b.fields ==> if b.fields[k].Float? then a.fields[k].Float? else a.fields[k] == b.fields[k]
  }

  /** The text of an object starts with a brace, and parsing undoes printing for this record. */
  predicate Faithful(parse: Parser, print_: Printer, j: Json) {
    && print_(j) != "" && print_(j)[0] == '{'
    && parse(print_(j)).Some? && SameButFloats(parse(print_(j)).value, j)
  }

  lemma AddOne<T>(s: set<T>, k: T)
    requires k !in s
    ensures |s + {k}| == |s| + 1
  {
  }

  lemma BaseSize()
    ensures |Chain.BASE_KEYS| == 5
  {
    AddOne({"v"}, "dev");
    AddOne({"v", "dev"}, "seq");
    AddOne({"v", "dev", "seq"}, "ts");
    AddOne({"v", "dev", "seq", "ts"}, "prev");
    assert {"v"} + {"dev"} == {"v", "dev"};
    assert {"v", "dev"} + {"seq"} == {"v", "dev", "seq"};
    assert {"v", "dev", "seq"} + {"ts"} == {"v", "dev", "seq", "ts"};
    assert {"v", "dev", "seq", "ts"} + {"prev"} == Chain.BASE_KEYS;
  }

  datatype Kind = Reading | Event | Fulfillment

  function KindOf(args: Args): Kind {
    if args.kind.None? || args.kind.value == "reading" then Reading
    else if args.kind.value == "event" then Event else Fulfillment
  }

  function Extra(key: string, value: Option<string>): set<string> {
    if value.Some? then {key} else {}
  }

  /** The members that each kind of record adds to the common five. */
  function KindKeys(args: Args): set<string> {
    match KindOf(args)
    case Reading => {"metric", "val"}
    case Event => {"event"} + Extra("item", args.item) + Extra("payment_sig", args.paymentSig)
    case Fulfillment => {"tag", "ref", "item", "payment_sig"}
  }

  lemma BodyKeys(args: Args, cfg: Config)
    requires BodyOf(args, cfg).Ok?
    ensures BodyOf(args, cfg).value.fields.Keys == KindKeys(args)
    ensures BodyOf(args, cfg).value.reference.Some? <==> KindOf(args).Fulfillment?
  {
    hide Chain.IsMetricName, Chain.IsSignature, Base58.DecodePubkey;
  }

  lemma KindKeysNew(args: Args)
    ensures KindKeys(args) !! Chain.BASE_KEYS
  {
  }

  lemma EventCount(args: Args)
    ensures |Chain.BASE_KEYS + ({"event"} + Extra("item", args.item) + Extra("payment_sig", args.paymentSig))| ==
            6 + (if args.item.Some? then 1 else 0) + (if args.paymentSig.Some? then 1 else 0)
  {
    BaseSize();
    assert "event" !in Chain.BASE_KEYS && "item" !in Chain.BASE_KEYS && "payment_sig" !in Chain.BASE_KEYS;
    DistinctNames();
    CountThree(Chain.BASE_KEYS, "event", "item", "payment_sig", args.item.Some?, args.paymentSig.Some?);
    assert Extra("item", args.item) == (if args.item.Some? then {"item"} else {});
  }

  lemma DistinctNames()
    ensures "event" != "item" && "event" != "payment_sig" && "item" != "payment_sig"
  {
    assert |"event"| != |"item"| && |"event"| != |"payment_sig"| && |"item"| != |"payment_sig"|;
  }

  lemma Regroup<T>(s: set<T>, a: set<T>, b: set<T>, c: set<T>)
    ensures s + a + b + c == s + (a + b + c)
  {
  }

  lemma CountThree<T>(s: set<T>, a: T, b: T, c: T, hasB: bool, hasC: bool)
    requires a !in s && b !in s && c !in s && a != b && a != c && b != c
    ensures |s + ({a} + (if hasB then {b} else {}) + (if hasC then {c} else {}))| ==
            |s| + 1 + (if hasB then 1 else 0) + (if hasC then 1 else 0)
  {
    var t := s + {a};
    var bs, cs: set<T> := if hasB then {b} else {}, if hasC then {c} else {};
    AddOne(s, a);
    AddMaybe(t, b, hasB);
    AddMaybe(t + bs, c, hasC);
    Regroup(s, {a}, bs, cs);
  }

  lemma AddMaybe<T>(s: set<T>, k: T, has: bool)
    requires k !in s
    ensures |s + (if has then {k} else {})| == |s| + if has then 1 else 0
  {
    if has {
      AddOne(s, k);
    } else {
      assert s + {} == s;
    }
  }

  /** Parsed members that carry the body. */
  predicate Carries(j: Json, body: map<string, Json>) {
    && j.Obj?
    && forall k :: k in body ==>
         (k in j.fields && if body[k].Float? then j.fields[k].Float? else j.fields[k] == body[k])
  }

  /** The members of a printed record, after parsing it back. */
  lemma RecordFields(id: string, state: ChainState, ts: nat, body: map<string, Json>, j: Json)
    requires body.Keys !! Chain.BASE_KEYS
    requires SameButFloats(j, Record(id, state, ts, body))
    ensures j.Obj? && j.fields.Keys == Chain.BASE_KEYS + body.Keys && Carries(j, body)
    ensures Get(j, "v") == Some(UInt(1)) && Get(j, "dev") == Some(Str(id))
    ensures Get(j, "seq") == Some(UInt(state.seq_)) && Get(j, "ts") == Some(UInt(ts))
    ensures Get(j, "prev") == Some(PrevJson(state.prev))
  {
    var base := map["v" := UInt(1), "dev" := Str(id), "seq" := UInt(state.seq_), "ts" := UInt(ts)];
    var r := Record(id, state, ts, body).fields;
    assert base.Keys == {"v", "dev", "seq", "ts"};
    assert r.Keys == Chain.BASE_KEYS + body.Keys;
    assert r["v"] == UInt(1) && r["dev"] == Str(id) && r["seq"] == UInt(state.seq_) && r["ts"] == UInt(ts);
    assert r["prev"] == PrevJson(state.prev);
    forall k | k in body ensures r[k] == body[k] {
      assert k != "prev" && k !in base;
    }
  }

  /** The member lists of the three kinds tell them apart. */
  lemma KindsApart(args: Args, o: map<string, Json>)
    requires o.Keys == Chain.BASE_KEYS + KindKeys(args)
    ensures (o.Keys == Chain.BASE_KEYS + {"metric", "val"} <==> KindOf(args).Reading?)
    ensures Chain.EventKeys(o) <==> KindOf(args).Event?
  {
    if KindOf(args).Event? {
      EventApart(args, o);
    } else {
      assert "event" !in Chain.BASE_KEYS;
      assert "event" !in o;
      assert "metric" !in Chain.BASE_KEYS;
      assert "metric" in o <==> KindOf(args).Reading?;
    }
  }

  lemma EventApart(args: Args, o: map<string, Json>)
    requires o.Keys == Chain.BASE_KEYS + ({"event"} + Extra("item", args.item) + Extra("payment_sig", args.paymentSig))
    ensures o.Keys != Chain.BASE_KEYS + {"metric", "val"} && Chain.EventKeys(o)
    ensures "item" in o <==> args.item.Some?
    ensures "payment_sig" in o <==> args.paymentSig.Some?
  {
    EventCount(args);
    DistinctNames();
    assert "event" !in Chain.BASE_KEYS && "item" !in Chain.BASE_KEYS && "payment_sig" !in Chain.BASE_KEYS;
    assert "metric" !in Chain.BASE_KEYS && "metric" != "event" && "metric" != "item" && "metric" != "payment_sig";
    assert |o| == |o.Keys|;
    var i, p := args.item.Some?, args.paymentSig.Some?;
    assert o.Keys == Chain.BASE_KEYS + ({"event"} + (if i then {"item"} else {}) + (if p then {"payment_sig"} else {}));
    ThreeMembers(o.Keys, Chain.BASE_KEYS, "event", "item", "payment_sig", i, p, "metric");
  }

  lemma ThreeMembers<T>(keys: set<T>, base: set<T>, a: T, b: T, c: T, hasB: bool, hasC: bool, other: T)
    requires keys == base + ({a} + (if hasB then {b} else {}) + (if hasC then {c} else {}))
    requires a !in base && b !in base && c !in base && other !in base && a != b && a != c && b != c
    requires other != a && other != b && other != c
    ensures a in keys && (b in keys <==> hasB) && (c in keys <==> hasC) && other !in keys && keys <= base + {a, b, c}
  {
  }

  lemma ReadingCarried(args: Args, cfg: Config, j: Json)
    requires ReadingBody(args, cfg).Ok? && Carries(j, ReadingBody(args, cfg).value.fields)
    ensures Chain.ReadingFields(j)
  {
    hide Chain.IsMetricName;
    var body := ReadingBody(args, cfg).value.fields;
    assert body["metric"] == Str(args.metric.value) && "val" in body;
  }

  lemma EventCarried(args: Args, j: Json)
    requires EventBody(args).Ok? && Carries(j, EventBody(args).value.fields)
    requires "item" in j.fields <==> args.item.Some?
    requires "payment_sig" in j.fields <==> args.paymentSig.Some?
    ensures Chain.EventFields(j)
  {
    var body := EventBody(args).value.fields;
    DistinctNames();
    assert body["event"] == Str(args.event.value);
    assert args.item.Some? ==> body["item"] == Str(args.item.value);
    assert args.paymentSig.Some? ==> body["payment_sig"] == Str(args.paymentSig.value);
  }

  lemma FulfillmentCarried(args: Args, j: Json)
    requires FulfillmentBody(args).Ok? && Carries(j, FulfillmentBody(args).value.fields)
    ensures Chain.FulfillmentFields(j)
    ensures GetStr(j, "ref") == Some(args.reference.value)
  {
    hide Chain.IsSignature, Base58.DecodePubkey;
    var body := FulfillmentBody(args).value.fields;
    assert body["tag"] == Str(Chain.FULFILLMENT_TAG) && body["ref"] == Str(args.reference.value);
    assert body["item"] == Str(args.item.value) && body["payment_sig"] == Str(args.paymentSig.value);
  }

  /** Every body that the producer accepts has one of the three exact schemas. */
  lemma BodyExact(args: Args, cfg: Config, j: Json)
    requires BodyOf(args, cfg).Ok? && Carries(j, BodyOf(args, cfg).value.fields)
    requires j.fields.Keys == Chain.BASE_KEYS + KindKeys(args)
    ensures Chain.HasExactBody(j)
  {
    KindsApart(args, j.fields);
    hide Chain.EventKeys, Chain.ReadingFields, Chain.EventFields, Chain.FulfillmentFields, Carries,
      ReadingBody, EventBody, FulfillmentBody;
    match KindOf(args)
    case Reading =>
      ReadingCarried(args, cfg, j);
    case Event =>
      EventApart(args, j.fields);
      EventCarried(args, j);
    case Fulfillment =>
      FulfillmentCarried(args, j);
  }

  lemma MemoOfFields(memo: string, id: string, parse: Parser, j: Json, state: ChainState, ts: nat)
    requires parse(memo) == Some(j) && Chain.HasExactBody(j)
    requires state.seq_ <= U64_MAX && ts <= U64_MAX && state.prev != Some("")
    requires Get(j, "v") == Some(UInt(1)) && Get(j, "dev") == Some(Str(id))
    requires Get(j, "seq") == Some(UInt(state.seq_)) && Get(j, "ts") == Some(UInt(ts))
    requires Get(j, "prev") == Some(PrevJson(state.prev))
    ensures Chain.ParseMemo(memo, id, parse) == Some(Chain.ParsedAttestation(state.seq_, ts, state.prev))
  {
    hide Chain.HasExactBody, Get;
  }

  /** The record parses to exactly the sequence number, time and predecessor it was built from. */
  lemma RecordParses(args: Args, cfg: Config, body: Body, state: ChainState, now: nat, parse: Parser, print_: Printer)
    requires BodyOf(args, cfg) == Ok(body)
    requires state.seq_ <= U64_MAX && now <= U64_MAX && state.prev != Some("")
    requires Faithful(parse, print_, Record(cfg.deviceId, state, now, body.fields))
    ensures Chain.ParseMemo(print_(Record(cfg.deviceId, state, now, body.fields)), cfg.deviceId, parse)
            == Some(Chain.ParsedAttestation(state.seq_, now, state.prev))
  {
    var memo := print_(Record(cfg.deviceId, state, now, body.fields));
    var j := parse(memo).value;
    BodyKeys(args, cfg);
    KindKeysNew(args);
    hide BodyOf, KindKeys, Chain.HasExactBody, Record, Carries, SameButFloats, Get, Chain.ParseMemo;
    RecordFields(cfg.deviceId, state, now, body.fields, j);
    BodyExact(args, cfg, j);
    MemoOfFields(memo, cfg.deviceId, parse, j, state, now);
  }

  // ---- Producer and verifier agree ---------------------------------------------------------

  /** The intermediate results of a successful run. */
  datatype Run = Run(body: Body, nonce: M.Key, authority: M.Key, snap: Snapshot, state: ChainState)

  function MemoOf(cfg: Config, run: Run, now: nat, print_: Printer): Text {
    print_(Record(cfg.deviceId, run.state, now, run.body.fields))
  }

  lemma AttestSteps(args: Args, cfg: Config, node: Node, now: nat, parse: Parser, print_: Printer) returns (run: Run)
    requires AttestSpec(args, cfg, node, now, parse, print_).Ok?
    ensures BodyOf(args, cfg) == Ok(run.body)
    ensures Infrastructure(cfg, run.body) == Ok((run.nonce, run.authority))
    ensures SnapshotNonce(node.account, run.authority) == Ok(run.snap)
    ensures RecoverAt(cfg, node, run.snap.slot, parse) == Ok(run.state)
    ensures var out := AttestSpec(args, cfg, node, now, parse, print_).value;
            && out.seq_ == run.state.seq_
            && out.message == Built(run.nonce, run.authority, run.body.reference, MemoOf(cfg, run, now, print_), run.snap.blockhash)
            && |M.SerializeSpec(out.message)| <= M.MAX_MESSAGE_BYTES
            && out.txBase64 == Base64.EncodeSpec(M.SerializeSpec(out.message))
  {
    hide BodyOf, Infrastructure, SnapshotNonce, RecoverAt, C.CompileSpec, M.SerializeSpec, Base64.EncodeSpec;
    var body := BodyOf(args, cfg).value;
    var keys := Infrastructure(cfg, body).value;
    var snap := SnapshotNonce(node.account, keys.1).value;
    run := Run(body, keys.0, keys.1, snap, RecoverAt(cfg, node, snap.slot, parse).value);
  }

  /** `program_ids`: the programs that a message invokes. */
  function ProgramIds(m: M.Message): set<M.Key>
    requires forall i :: 0 <= i < |m.instructions| ==> m.instructions[i].programIdIndex < |m.accountKeys|
  {
    set i | 0 <= i < |m.instructions| :: m.accountKeys[m.instructions[i].programIdIndex]
  }

  /**
   * Every artifact invokes exactly the System and Memo programs, needs exactly one signature, that
   * of the authority, and its base64 text reads back as this very message.
   */
  lemma ArtifactIsHarmless(args: Args, cfg: Config, node: Node, now: nat, parse: Parser, print_: Printer)
    requires AttestSpec(args, cfg, node, now, parse, print_).Ok?
    ensures var out := AttestSpec(args, cfg, node, now, parse, print_).value;
            && |out.message.instructions| == 2
            && (forall i :: 0 <= i < 2 ==> out.message.instructions[i].programIdIndex < |out.message.accountKeys|)
            && ProgramIds(out.message) == {SYSTEM, MemoProgramKey()}
            && out.message.header.numRequiredSignatures == 1
            && out.message.accountKeys != [] && Some(out.message.accountKeys[0]) == Base58.DecodePubkey(cfg.nonceAuthority)
            && var bytes := Base64.DecodeSpec(out.txBase64);
               bytes.Some? && M.ReadMessage(bytes.value) == Some(M.Read(out.message, []))
  {
    var run := AttestSteps(args, cfg, node, now, parse, print_);
    var out := AttestSpec(args, cfg, node, now, parse, print_).value;
    hide AttestSpec, Built, MemoOf, MemoProgramKey, M.ReadMessage, M.SerializeSpec, Base64.EncodeSpec, Base64.DecodeSpec;
    var memo := MemoOf(cfg, run, now, print_);
    M.ArtifactReadsBack(out.message);
    OneSigner(run.nonce, run.authority, run.body.reference, memo, run.snap.blockhash);
    TwoPrograms(run.nonce, run.authority, run.body.reference, memo, run.snap.blockhash);
  }

  lemma TwoPrograms(nonce: M.Key, authority: M.Key, reference: Option<M.Key>, memo: Text, blockhash: M.Key)
    ensures var m := Built(nonce, authority, reference, memo, blockhash);
            && |m.instructions| == 2
            && (forall i :: 0 <= i < 2 ==> m.instructions[i].programIdIndex < |m.accountKeys|)
            && ProgramIds(m) == {SYSTEM, MemoProgramKey()}
  {
    var m := Built(nonce, authority, reference, memo, blockhash);
    BuiltShape(nonce, authority, reference, memo, blockhash);
    var ixs := Instructions(nonce, authority, reference, memo);
    hide Built, KeySet, C.SignerAt, C.WritableAt, C.Distinct, RecentBlockhashesKey, MemoProgramKey, TextBytes;
    assert C.Resolves(m.accountKeys, m.instructions[0], ixs[0]) && C.Resolves(m.accountKeys, m.instructions[1], ixs[1]);
    ProgramPair(m);
  }

  lemma ProgramPair(m: M.Message)
    requires |m.instructions| == 2 && forall i :: 0 <= i < 2 ==> m.instructions[i].programIdIndex < |m.accountKeys|
    ensures ProgramIds(m) ==
            {m.accountKeys[m.instructions[0].programIdIndex], m.accountKeys[m.instructions[1].programIdIndex]}
  {
  }

  lemma OneSigner(nonce: M.Key, authority: M.Key, reference: Option<M.Key>, memo: Text, blockhash: M.Key)
    ensures var m := Built(nonce, authority, reference, memo, blockhash);
            m.header.numRequiredSignatures == 1 && |m.accountKeys| >= 2 && m.accountKeys[0] == authority
  {
    var m := Built(nonce, authority, reference, memo, blockhash);
    BuiltShape(nonce, authority, reference, memo, blockhash);
    C.KeysExact(Instructions(nonce, authority, reference, memo), authority, blockhash);
    ShowConstants();
    hide Built, RecentBlockhashesKey, MemoProgramKey, Show, C.Resolves, C.WritableAt, C.Used;
    assert SYSTEM in m.accountKeys && MemoProgramKey() in m.accountKeys;
    assert C.SignerAt(m, 0);
    assert m.accountKeys[1] != authority && !C.SignerAt(m, 1);
  }

  /** A listing entry that reports a successful landing of this message. */
  ghost predicate ListsLanding(e: R.Entry, g: string, m: M.Message, memo: string) {
    && e.signature == Some(g) && e.err.Success? && Quotes(e.memo, memo)
    && exists slot: nat, blockTime: Option<int> :: e.answer == Ok(Some(Shown(m, slot, blockTime)))
  }

  lemma QuoteExtracts(e: R.Entry, memo: string)
    requires Quotes(e.memo, memo) && memo != "" && memo[0] == '{'
    ensures QuotedAs(Chain.ListedText(e.memo), memo)
  {
    if e.memo.Text? && e.memo.text != memo {
      var n: string :| AllDigits(n) && e.memo.text == "[" + n + "] " + memo;
      SkipTo("[" + n + "] ", memo);
      assert ("[" + n + "] ") + memo == e.memo.text;
    }
  }

  lemma {:induction false} SkipTo(prefix: string, memo: string)
    requires memo != "" && memo[0] == '{' && forall i :: 0 <= i < |prefix| ==> prefix[i] != '{'
    ensures Chain.ExtractJson(prefix + memo) == Some(memo)
  {
    if prefix == "" {
      assert prefix + memo == memo;
    } else {
      SkipTo(prefix[1..], memo);
      assert (prefix + memo)[1..] == prefix[1..] + memo;
    }
  }

  /** A parsed record is a fulfillment only if its reference was attached, and that one is independent. */
  lemma RecordBound(args: Args, cfg: Config, run: Run, now: nat, parse: Parser, print_: Printer)
    requires BodyOf(args, cfg) == Ok(run.body) && Infrastructure(cfg, run.body) == Ok((run.nonce, run.authority))
    requires Faithful(parse, print_, Record(cfg.deviceId, run.state, now, run.body.fields))
    ensures Bound(parse(MemoOf(cfg, run, now, print_)).value, run.body.reference, run.nonce, run.authority)
  {
    var j := parse(MemoOf(cfg, run, now, print_)).value;
    BodyKeys(args, cfg);
    KindKeysNew(args);
    RecordFields(cfg.deviceId, run.state, now, run.body.fields, j);
    hide Carries, Record, Chain.ReferenceCollides, Base58.DecodePubkey, Show, SameButFloats, Faithful, BodyOf, KindKeys;
    if KindOf(args).Fulfillment? {
      FulfillmentBound(args, cfg, run, j);
    } else {
      NoTag(args);
    }
  }

  lemma NoTag(args: Args)
    requires !KindOf(args).Fulfillment?
    ensures "tag" !in Chain.BASE_KEYS + KindKeys(args)
  {
  }

  lemma FulfillmentBound(args: Args, cfg: Config, run: Run, j: Json)
    requires KindOf(args).Fulfillment? && BodyOf(args, cfg) == Ok(run.body) && Carries(j, run.body.fields)
    requires Infrastructure(cfg, run.body) == Ok((run.nonce, run.authority))
    ensures Bound(j, run.body.reference, run.nonce, run.authority)
  {
    assert BodyOf(args, cfg) == FulfillmentBody(args);
    hide Carries, Chain.ReferenceCollides, Show, Base58.DecodePubkey, Chain.IsSignature;
    FulfillmentCarried(args, j);
    DecodeShows(args.reference.value);
  }

  /** A successful run, its intermediate results, and a printer that the parser undoes. */
  predicate Emitted(args: Args, cfg: Config, node: Node, now: nat, parse: Parser, print_: Printer, run: Run) {
    && AttestSpec(args, cfg, node, now, parse, print_).Ok? && now <= U64_MAX
    && BodyOf(args, cfg) == Ok(run.body) && Infrastructure(cfg, run.body) == Ok((run.nonce, run.authority))
    && Faithful(parse, print_, Record(cfg.deviceId, run.state, now, run.body.fields))
  }

  /** The listing entry of the run's artifact, landed with signature `g`. */
  ghost predicate Landed(cfg: Config, run: Run, now: nat, print_: Printer, e: R.Entry, g: string) {
    var memo := MemoOf(cfg, run, now, print_);
    ListsLanding(e, g, Built(run.nonce, run.authority, run.body.reference, memo, run.snap.blockhash), memo)
  }

  /**
   * A landed artifact is seen by recovery as the link it was built to be, exactly when the nonce
   * account is not its own authority; otherwise it breaks the scan.
   */
  lemma LandedView(args: Args, cfg: Config, node: Node, now: nat, parse: Parser, print_: Printer, run: Run,
                   e: R.Entry, g: string)
    requires Emitted(args, cfg, node, now, parse, print_, run) && Landed(cfg, run, now, print_, e, g)
    requires run.state.seq_ <= U64_MAX && run.state.prev != Some("")
    ensures Chain.ViewOf(e, DeviceOf(cfg), parse) ==
            if run.nonce != run.authority then Successor(run.state, g) else Broken(Gap)
  {
    var memo := MemoOf(cfg, run, now, print_);
    var m := Built(run.nonce, run.authority, run.body.reference, memo, run.snap.blockhash);
    var slot: nat, blockTime: Option<int> :| e.answer == Ok(Some(Shown(m, slot, blockTime)));
    RecordBound(args, cfg, run, now, parse, print_);
    RecordParses(args, cfg, run.body, run.state, now, parse, print_);
    QuoteExtracts(e, memo);
    DecodeShows(cfg.nonceAccount);
    DecodeShows(cfg.nonceAuthority);
    ClassifiesIff(run.nonce, run.authority, run.body.reference, memo, run.snap.blockhash, cfg.deviceId,
                  Chain.ListedText(e.memo), parse, slot, blockTime);
    hide AttestSpec, BodyOf, Built, Shown, Show, Record, Faithful, Bound, Chain.Classify, Chain.ParseMemo, QuotedAs;
    Chain.ViewCases(e, DeviceOf(cfg), parse);
  }

  /**
   * Recovery is closed under landing: if a history recovers and an artifact built from it lands on
   * top with signature `g`, the longer history recovers to the successor, whatever kind of record
   * it is. The three conditions are those of Recovery.ExtendIff.
   */
  lemma LandingExtends(args: Args, cfg: Config, node: Node, now: nat, parse: Parser, print_: Printer, run: Run,
                       e: R.Entry, g: string, h: seq<View>)
    requires Emitted(args, cfg, node, now, parse, print_, run) && Landed(cfg, run, now, print_, e, g)
    requires RecoverHistory(h) == Ok(run.state) && run.state.prev != Some("") && run.nonce != run.authority
    ensures RecoverHistory([Chain.ViewOf(e, DeviceOf(cfg), parse)] + h) == Ok(ChainState(run.state.seq_ + 1, Some(g)))
            <==> && run.state.seq_ < U64_MAX
                 && HeadUnfailed(Window(h), run.state.prev)
                 && (run.state.seq_ >= 10 || |h| + 1 < 100)
  {
    hide Emitted, Landed, RecoverHistory, HeadUnfailed, Window, Chain.ViewOf;
    StateFits(h);
    LandedView(args, cfg, node, now, parse, print_, run, e, g);
    ExtendIff(h, g);
  }
}
