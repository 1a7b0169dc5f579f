/** crates/kiosk-core/src/chain.rs: what recovery sees in one listed entry, written out member by member. */
module Sighting {
  // Chain.dfy reads an entry step by step. Here each thing that can be seen has a description of its own, on
  // the members of the node's answer, and for every entry there are exact conditions: when it is an
  // initialization, an attestation, public traffic, a failure, or unreadable and why.

  import opened Wrappers
  import opened Json
  import opened Recovery
  import opened Spelling
  import Base58
  import Chain
  import Keys
  import Landing
  import R = Rpc

  // ---- Accounts ----------------------------------------------------------------------------

  predicate Called(k: R.AccountKey, name: string) {
    k.Full? && k.pubkey == Some(name)
  }

  /** Key `i` is the first of this name. */
  predicate FirstAt(keys: seq<R.AccountKey>, name: string, i: nat) {
    i < |keys| && Called(keys[i], name) && forall j :: 0 <= j < i ==> !Called(keys[j], name)
  }

  predicate Complete(k: R.AccountKey) {
    k.Full? && k.pubkey.Some? && k.signer.Some? && k.writable.Some?
  }

  /** A transaction that succeeded, with its accounts spelled out. */
  predicate Landed(tx: R.Transaction) {
    && tx.meta.Some? && tx.meta.value.err.Success? && tx.message.Some? && tx.message.value.accountKeys.Some?
    && tx.message.value.accountKeys.value != []
    && forall i :: 0 <= i < |tx.message.value.accountKeys.value| ==> Complete(tx.message.value.accountKeys.value[i])
  }

  /** It lists the device's account, and the authority signed it. */
  predicate Authorized(keys: seq<R.AccountKey>, dev: Chain.Device) {
    && (exists i :: 0 <= i < |keys| && Called(keys[i], dev.address))
    && (exists i :: 0 <= i < |keys| && Called(keys[i], dev.authority) && keys[i].signer == Some(true))
  }

  /** The authority's first mention signs; the device's first mention is writable and signs or not. */
  ghost predicate Flags(keys: seq<R.AccountKey>, dev: Chain.Device, deviceSigns: bool) {
    && (exists a: nat :: FirstAt(keys, dev.authority, a) && keys[a].signer == Some(true))
    && (exists d: nat :: FirstAt(keys, dev.address, d) && keys[d].signer == Some(deviceSigns) && keys[d].writable == Some(true))
  }

  // ---- Instructions ------------------------------------------------------------------------

  predicate SystemCall(ix: R.Instruction, kind: string, info: Json) {
    && ix.program == Some("system") && ix.programId == Some(SYSTEM)
    && Has(ix.parsed, "type", Str(kind)) && Has(ix.parsed, "info", info)
  }

  ghost predicate Creates(ix: R.Instruction, dev: Chain.Device) {
    exists info, lamports: nat ::
      && SystemCall(ix, "createAccount", info)
      && Has(info, "source", Str(dev.authority)) && Has(info, "newAccount", Str(dev.address))
      && Has(info, "owner", Str(SYSTEM)) && Has(info, "space", UInt(80))
      && Has(info, "lamports", UInt(lamports)) && 0 < lamports <= U64_MAX
  }

  ghost predicate Initializes(ix: R.Instruction, dev: Chain.Device) {
    exists info ::
      && SystemCall(ix, "initializeNonce", info)
      && Has(info, "nonceAccount", Str(dev.address)) && Has(info, "nonceAuthority", Str(dev.authority))
      && Has(info, "recentBlockhashesSysvar", Str(RECENT_BLOCKHASHES)) && Has(info, "rentSysvar", Str(RENT))
  }

  ghost predicate Advances(ix: R.Instruction, dev: Chain.Device) {
    exists info ::
      && SystemCall(ix, "advanceNonce", info)
      && Has(info, "nonceAccount", Str(dev.address)) && Has(info, "nonceAuthority", Str(dev.authority))
      && Has(info, "recentBlockhashesSysvar", Str(RECENT_BLOCKHASHES))
  }

  // ---- Records -----------------------------------------------------------------------------

  const BASE: set<string> := {"v", "dev", "seq", "ts", "prev"}

  /** A measurement. */
  ghost predicate IsReading(j: Json) {
    && j.Obj? && j.fields.Keys == BASE + {"metric", "val"}
    && HasText(j, "metric", 64)
    && (forall i :: 0 <= i < |j.fields["metric"].s| ==>
         var c := j.fields["metric"].s[i];
         'A' <= c <= 'Z' || 'a' <= c <= 'z' || '0' <= c <= '9' || c == '_' || c == '-' || c == '.')
    && (j.fields["val"].UInt? || j.fields["val"].Float?)
  }

  /** Something that happened, perhaps with an item and a payment. */
  predicate IsEvent(j: Json) {
    && j.Obj? && BASE + {"event"} <= j.fields.Keys <= BASE + {"event", "item", "payment_sig"}
    && HasText(j, "event", 64)
    && ("item" in j.fields ==> HasText(j, "item", 64))
    && ("payment_sig" in j.fields ==> HasText(j, "payment_sig", 128))
  }

  /** A delivery for one charge and one payment. */
  predicate IsFulfillment(j: Json) {
    && j.Obj? && j.fields.Keys == BASE + {"tag", "ref", "item", "payment_sig"}
    && Has(j, "tag", Str("PKFUL1")) && HasText(j, "item", 64)
    && j.fields["ref"].Str? && Bytes(j.fields["ref"].s, 32)
    && j.fields["payment_sig"].Str? && |j.fields["payment_sig"].s| <= 128 && Bytes(j.fields["payment_sig"].s, 64)
  }

  /** The charge's reference is one of the accounts, once, only looked at, and none that every attestation has. */
  predicate AttachesOnly(keys: seq<R.AccountKey>, reference: string, dev: Chain.Device) {
    && (exists i :: 0 <= i < |keys| && keys[i] == R.Full(Some(reference), Some(false), Some(false))
                    && forall j :: 0 <= j < |keys| && Called(keys[j], reference) ==> j == i)
    && Bytes(dev.address, 32) && Bytes(dev.authority, 32)
    && reference != dev.address && reference != dev.authority
    && reference != SYSTEM && reference != RECENT_BLOCKHASHES && reference != MEMO
  }

  /** The members that every version-1 record of this device has. */
  ghost predicate Numbered(j: Json, id: string, n: nat, prev: Option<string>) {
    && Has(j, "v", UInt(1)) && Has(j, "dev", Str(id)) && Has(j, "seq", UInt(n)) && n <= U64_MAX
    && (exists ts: nat :: Has(j, "ts", UInt(ts)) && ts <= U64_MAX)
    && Has(j, "prev", if prev.Some? then Str(prev.value) else Null) && prev != Some("")
  }

  /** A version-1 record of this device with this number and predecessor. */
  ghost predicate IsRecord(j: Json, id: string, n: nat, prev: Option<string>, keys: seq<R.AccountKey>, dev: Chain.Device) {
    && Numbered(j, id, n, prev)
    && (IsReading(j) || IsEvent(j) || (IsFulfillment(j) && AttachesOnly(keys, j.fields["ref"].s, dev)))
  }

  /** The listed memo is absent, or quotes this text from its first brace on. */
  ghost predicate Quotes(listed: R.ListedMemo, memo: string) {
    || listed.NullMemo?
    || (listed.Text? && exists i :: 0 <= i < |listed.text| && listed.text[i] == '{' && listed.text[i..] == memo
                                    && forall k :: 0 <= k < i ==> listed.text[k] != '{')
  }

  // ---- Entries -----------------------------------------------------------------------------

  /** The node lists a success and shows its transaction. */
  predicate Shown(e: R.Entry) {
    && e.signature.Some? && e.err.Success? && (e.memo.NullMemo? || e.memo.Text?)
    && e.answer.Ok? && e.answer.value.Some?
  }

  function Accounts(tx: R.Transaction): seq<R.AccountKey>
    requires Landed(tx)
  {
    tx.message.value.accountKeys.value
  }

  /** The device's own write. */
  predicate Own(e: R.Entry, dev: Chain.Device) {
    Shown(e) && Landed(e.answer.value.value) && Authorized(Accounts(e.answer.value.value), dev)
  }

  predicate Instructed(e: R.Entry, dev: Chain.Device) {
    Own(e, dev) && e.answer.value.value.message.value.instructions.Some?
  }

  function PartsOf(e: R.Entry, dev: Chain.Device): Chain.Parts
    requires Instructed(e, dev)
  {
    Chain.Parts(Accounts(e.answer.value.value), e.answer.value.value.message.value.instructions.value)
  }

  /** Somebody else's transaction. */
  predicate Outside(e: R.Entry, dev: Chain.Device) {
    Shown(e) && Landed(e.answer.value.value) && !Authorized(Accounts(e.answer.value.value), dev)
  }

  /** The node could not be reached for it. */
  predicate Unreached(e: R.Entry) {
    e.signature.Some? && e.err.Success? && (e.memo.NullMemo? || e.memo.Text?) && e.answer == Err(R.Transport)
  }

  /** The creation and initialization of the device's nonce account, without a memo. */
  ghost predicate IsGenesis(e: R.Entry, dev: Chain.Device) {
    && Own(e, dev) && e.memo.NullMemo? && Flags(Accounts(e.answer.value.value), dev, true)
    && e.answer.value.value.message.value.instructions.Some?
    && var ixs := e.answer.value.value.message.value.instructions.value;
    && |ixs| == 2 && Creates(ixs[0], dev) && Initializes(ixs[1], dev)
  }

  /** The device advances its nonce and writes this memo, which the listing quotes. */
  ghost predicate Writes(e: R.Entry, dev: Chain.Device, memo: string) {
    && Own(e, dev) && Flags(Accounts(e.answer.value.value), dev, false) && Quotes(e.memo, memo)
    && e.answer.value.value.message.value.instructions.Some?
    && var ixs := e.answer.value.value.message.value.instructions.value;
    && |ixs| == 2 && Advances(ixs[0], dev) && ixs[1] == R.Instruction(Some("spl-memo"), Some(MEMO), Str(memo))
  }

  ghost predicate IsAttestation(e: R.Entry, dev: Chain.Device, parse: Parser, n: nat, prev: Option<string>) {
    exists memo ::
      && Writes(e, dev, memo) && parse(memo).Some?
      && IsRecord(parse(memo).value, dev.id, n, prev, Accounts(e.answer.value.value), dev)
  }

  /** Members that recovery cannot do without are absent or of the wrong kind. */
  predicate Unreadable(e: R.Entry, dev: Chain.Device) {
    || e.signature.None? || e.err.Missing?
    || (e.err.Success? && (e.memo.NoMember? || e.memo.NotText?))
    || (e.err.Success? && e.answer == Err(R.Malformed))
    || (e.err.Success? && e.answer.Ok? && e.answer.value.Some? && Cut(e.answer.value.value, dev))
  }

  predicate Cut(tx: R.Transaction, dev: Chain.Device) {
    || tx.meta.None? || tx.meta.value.err.Missing?
    || (tx.meta.value.err.Success?
        && (|| !Landed(tx)
            || (Authorized(Accounts(tx), dev) && tx.message.value.instructions.None?)))
  }

  // ---- Exactly when each is seen -----------------------------------------------------------

  lemma {:induction false} FirstFlags(keys: seq<R.AccountKey>, name: string, i: nat)
    requires FirstAt(keys, name, i) && Complete(keys[i])
    ensures Chain.AccountFlags(keys, name) == Some((keys[i].signer.value, keys[i].writable.value))
  {
    if i > 0 {
      assert !Called(keys[0], name);
      assert forall j :: 0 <= j < |keys| - 1 ==> keys[1..][j] == keys[j + 1];
      FirstFlags(keys[1..], name, i - 1);
    }
  }

  lemma {:induction false} FirstOf(keys: seq<R.AccountKey>, name: string) returns (i: nat)
    requires exists k :: 0 <= k < |keys| && Called(keys[k], name)
    ensures FirstAt(keys, name, i)
  {
    if Called(keys[0], name) {
      i := 0;
    } else {
      var k :| 0 <= k < |keys| && Called(keys[k], name);
      assert keys[1..][k - 1] == keys[k];
      i := FirstOf(keys[1..], name);
      assert forall j :: 0 <= j < |keys| - 1 ==> keys[1..][j] == keys[j + 1];
      i := i + 1;
    }
  }

  lemma FirstIsOne(keys: seq<R.AccountKey>, name: string, i: nat, j: nat)
    requires FirstAt(keys, name, i) && FirstAt(keys, name, j)
    ensures i == j
  {
  }

  /** The flags that the reader looks up. */
  lemma FlagsIff(keys: seq<R.AccountKey>, dev: Chain.Device, deviceSigns: bool)
    requires Authorized(keys, dev) && forall i :: 0 <= i < |keys| ==> Complete(keys[i])
    ensures Flags(keys, dev, deviceSigns) <==>
            && (var f := Chain.AccountFlags(keys, dev.authority); f.Some? && f.value.0)
            && Chain.AccountFlags(keys, dev.address) == Some((deviceSigns, true))
  {
    var a := FirstOf(keys, dev.authority);
    var d := FirstOf(keys, dev.address);
    FirstFlags(keys, dev.authority, a);
    FirstFlags(keys, dev.address, d);
    hide Chain.AccountFlags;
    if Flags(keys, dev, deviceSigns) {
      var a': nat :| FirstAt(keys, dev.authority, a') && keys[a'].signer == Some(true);
      FirstIsOne(keys, dev.authority, a, a');
      var d': nat :| FirstAt(keys, dev.address, d') && keys[d'].signer == Some(deviceSigns) && keys[d'].writable == Some(true);
      FirstIsOne(keys, dev.address, d, d');
    }
  }

  lemma PartsIff(tx: Option<R.Transaction>, dev: Chain.Device)
    ensures var r := Chain.AuthenticatedParts(tx, dev);
            && (r == Ok(None) <==> tx.Some? && Landed(tx.value) && !Authorized(Accounts(tx.value), dev))
            && (r == Err(Decode) <==> tx.Some? && Cut(tx.value, dev))
            && (r.Ok? && r.value.Some? <==>
                  tx.Some? && Landed(tx.value) && Authorized(Accounts(tx.value), dev) && tx.value.message.value.instructions.Some?)
            && (r.Ok? && r.value.Some? ==>
                  r.value.value == Chain.Parts(Accounts(tx.value), tx.value.message.value.instructions.value))
            && r != Err(ChainError.Rpc)
  {
    if tx.Some? && tx.value.message.Some? && tx.value.message.value.accountKeys.Some? {
      var keys := tx.value.message.value.accountKeys.value;
      assert forall i :: 0 <= i < |keys| ==> (Chain.ValidKey(keys[i]) <==> Complete(keys[i]));
      assert forall i, name :: 0 <= i < |keys| ==> (Chain.PubkeyOf(keys[i]) == Some(name) <==> Called(keys[i], name));
    }
  }

  lemma InfoIff(ix: R.Instruction, kind: string, info: Json)
    ensures Chain.SystemInfo(ix, kind) == Some(info) <==> SystemCall(ix, kind, info)
  {
    Spelled();
  }

  lemma CreatesIff(ix: R.Instruction, dev: Chain.Device)
    ensures Creates(ix, dev) <==>
            && Chain.SystemInfo(ix, "createAccount").Some?
            && var info := Chain.SystemInfo(ix, "createAccount").value;
            && GetStr(info, "source") == Some(dev.authority) && GetStr(info, "newAccount") == Some(dev.address)
            && GetStr(info, "owner") == Some(Keys.SYSTEM_PROGRAM) && GetU64(info, "space") == Some(Chain.NONCE_ACCOUNT_LEN)
            && GetU64(info, "lamports").Some? && GetU64(info, "lamports").value > 0
  {
    Spelled();
    var info := Chain.SystemInfo(ix, "createAccount");
    if info.Some? {
      InfoIff(ix, "createAccount", info.value);
      var lamports := GetU64(info.value, "lamports");
      if lamports.Some? {
        assert Has(info.value, "lamports", UInt(lamports.value));
      }
    }
    if Creates(ix, dev) {
      var info', lamports: nat :| SystemCall(ix, "createAccount", info') && Has(info', "lamports", UInt(lamports));
      InfoIff(ix, "createAccount", info');
    }
  }

  lemma InitializesIff(ix: R.Instruction, dev: Chain.Device)
    ensures Initializes(ix, dev) <==>
            && Chain.SystemInfo(ix, "initializeNonce").Some?
            && var info := Chain.SystemInfo(ix, "initializeNonce").value;
            && GetStr(info, "nonceAccount") == Some(dev.address) && GetStr(info, "nonceAuthority") == Some(dev.authority)
            && GetStr(info, "recentBlockhashesSysvar") == Some(Keys.RECENT_BLOCKHASHES)
            && GetStr(info, "rentSysvar") == Some(Keys.RENT_SYSVAR)
  {
    Spelled();
    var info := Chain.SystemInfo(ix, "initializeNonce");
    if info.Some? {
      InfoIff(ix, "initializeNonce", info.value);
    }
    if Initializes(ix, dev) {
      var info' :| SystemCall(ix, "initializeNonce", info');
      InfoIff(ix, "initializeNonce", info');
    }
  }

  lemma AdvancesIff(ix: R.Instruction, dev: Chain.Device)
    ensures Advances(ix, dev) <==> Chain.IsAdvanceNonce(ix, dev)
  {
    Spelled();
    var info := Chain.SystemInfo(ix, "advanceNonce");
    if info.Some? {
      InfoIff(ix, "advanceNonce", info.value);
    }
    if Advances(ix, dev) {
      var info' :| SystemCall(ix, "advanceNonce", info');
      InfoIff(ix, "advanceNonce", info');
    }
  }

  lemma GenesisIff(p: Chain.Parts, dev: Chain.Device, listed: Option<string>)
    requires Authorized(p.keys, dev) && forall i :: 0 <= i < |p.keys| ==> Complete(p.keys[i])
    ensures Chain.IsExactInitialization(p, dev, listed) <==>
            && listed.None? && Flags(p.keys, dev, true)
            && |p.instructions| == 2 && Creates(p.instructions[0], dev) && Initializes(p.instructions[1], dev)
  {
    hide Chain.AccountFlags, Flags, Authorized, Complete, Creates, Initializes, Chain.SystemInfo;
    FlagsIff(p.keys, dev, true);
    if |p.instructions| == 2 {
      CreatesIff(p.instructions[0], dev);
      InitializesIff(p.instructions[1], dev);
    }
  }

  // ---- The memo ----------------------------------------------------------------------------

  lemma {:induction false} QuoteIs(listed: string, memo: string)
    ensures Chain.ExtractJson(listed) == Some(memo) <==> Quotes(R.Text(listed), memo)
  {
    if listed != "" && listed[0] != '{' {
      QuoteIs(listed[1..], memo);
      var rest := listed[1..];
      if i :| 0 <= i < |rest| && rest[i] == '{' && rest[i..] == memo && forall k :: 0 <= k < i ==> rest[k] != '{' {
        assert listed[i + 1..] == memo;
        forall k | 0 <= k < i + 1 ensures listed[k] != '{' {
          assert k > 0 ==> listed[k] == rest[k - 1];
        }
      }
      if i :| 0 <= i < |listed| && listed[i] == '{' && listed[i..] == memo && forall k :: 0 <= k < i ==> listed[k] != '{' {
        assert rest[i - 1..] == memo;
        forall k | 0 <= k < i - 1 ensures rest[k] != '{' {
          assert rest[k] == listed[k + 1];
        }
      }
    } else if listed != "" {
      assert listed[0..] == listed;
    }
  }

  /** The memo that the reader takes from the device's own write. */
  lemma MemoIff(p: Chain.Parts, dev: Chain.Device, listed: R.ListedMemo, memo: string)
    requires Authorized(p.keys, dev) && forall i :: 0 <= i < |p.keys| ==> Complete(p.keys[i])
    requires listed.NullMemo? || listed.Text?
    ensures Chain.ExactAttestationMemo(p, dev, Chain.ListedText(listed)) == Some(memo) <==>
            && Flags(p.keys, dev, false) && Quotes(listed, memo)
            && |p.instructions| == 2 && Advances(p.instructions[0], dev)
            && p.instructions[1] == R.Instruction(Some("spl-memo"), Some(MEMO), Str(memo))
  {
    Spelled();
    hide Chain.AccountFlags, Flags, Authorized, Complete, Advances, Chain.IsAdvanceNonce, Chain.ExtractJson, Quotes;
    FlagsIff(p.keys, dev, false);
    if |p.instructions| == 2 {
      AdvancesIff(p.instructions[0], dev);
    }
    if listed.Text? {
      QuoteIs(listed.text, memo);
    } else {
      NoQuote(listed, memo);
    }
  }

  lemma NoQuote(listed: R.ListedMemo, memo: string)
    requires listed.NullMemo?
    ensures Quotes(listed, memo)
  {
  }

  /** A write that advances the nonce does not create it. */
  lemma NotBoth(ix: R.Instruction, dev: Chain.Device)
    ensures !(Creates(ix, dev) && Advances(ix, dev))
  {
    assert |"createAccount"| != |"advanceNonce"|;
  }

  // ---- The record --------------------------------------------------------------------------

  lemma EventIff(j: Json)
    requires j.Obj? && BASE <= j.fields.Keys
    ensures IsEvent(j) <==> Chain.EventKeys(j.fields) && Chain.EventFields(j)
  {
    if BASE + {"event"} <= j.fields.Keys <= BASE + {"event", "item", "payment_sig"} {
      EventSize(j.fields);
    }
  }

  lemma EventSize(o: map<string, Json>)
    requires BASE + {"event"} <= o.Keys <= BASE + {"event", "item", "payment_sig"}
    ensures |o| == 6 + (if "item" in o then 1 else 0) + (if "payment_sig" in o then 1 else 0)
  {
    Landing.BaseSize();
    Landing.DistinctNames();
    assert BASE == Chain.BASE_KEYS;
    assert "event" !in BASE && "item" !in BASE && "payment_sig" !in BASE;
    ThreeMore(BASE, "event", "item", "payment_sig", o.Keys);
    assert |o| == |o.Keys|;
  }

  lemma ThreeMore<T>(s: set<T>, a: T, b: T, c: T, keys: set<T>)
    requires a !in s && b !in s && c !in s && a != b && a != c && b != c
    requires s + {a} <= keys <= s + {a, b, c}
    ensures |keys| == |s| + 1 + (if b in keys then 1 else 0) + (if c in keys then 1 else 0)
  {
    assert keys == s + {a} + (if b in keys then {b} else {}) + (if c in keys then {c} else {});
  }

  lemma BodyIff(j: Json)
    requires j.Obj? && BASE <= j.fields.Keys
    ensures Chain.HasExactBody(j) <==> IsReading(j) || IsEvent(j) || IsFulfillment(j)
  {
    assert BASE == Chain.BASE_KEYS;
    hide Chain.ReadingFields, Chain.EventFields, Chain.EventKeys, Chain.FulfillmentFields, IsReading, IsEvent, IsFulfillment;
    EventIff(j);
    FulfillmentIff(j);
    ReadingMembers(j);
    EventMembers(j);
    if j.fields.Keys == BASE + {"metric", "val"} {
      ReadingIff(j);
      NotReading(j);
    }
  }

  lemma ReadingMembers(j: Json)
    ensures IsReading(j) ==> j.fields.Keys == BASE + {"metric", "val"}
  {
  }

  /** An event is no delivery. */
  lemma EventMembers(j: Json)
    requires j.Obj?
    ensures Chain.EventKeys(j.fields) ==> j.fields.Keys != BASE + {"tag", "ref", "item", "payment_sig"}
  {
    Names();
  }

  lemma ReadingIff(j: Json)
    requires j.Obj? && j.fields.Keys == BASE + {"metric", "val"}
    ensures IsReading(j) <==> Chain.ReadingFields(j)
  {
  }

  /** A reading has no event and no tag. */
  lemma NotReading(j: Json)
    requires j.Obj? && j.fields.Keys == BASE + {"metric", "val"}
    ensures !IsEvent(j) && !IsFulfillment(j)
  {
    Names();
  }

  lemma Names()
    ensures "event" !in BASE + {"metric", "val"} && "tag" !in BASE + {"metric", "val"}
    ensures "tag" !in BASE + {"event", "item", "payment_sig"} && "event" !in BASE + {"tag", "ref", "item", "payment_sig"}
  {
    assert |"event"| == 5 && |"val"| == 3 && |"tag"| == 3 && "tag"[0] == 't' && "val"[0] == 'v' && "ref"[0] == 'r';
    assert "seq"[0] == 's' && "dev"[0] == 'd';
  }

  lemma FulfillmentIff(j: Json)
    requires j.Obj? && BASE <= j.fields.Keys
    ensures IsFulfillment(j) <==>
            j.fields.Keys == BASE + {"tag", "ref", "item", "payment_sig"} && Chain.FulfillmentFields(j)
  {
    hide Bytes, Chain.IsSignature, Base58.IsPubkey, Base58.DecodePubkey, Base58.DecodeSpec;
    Spelled();
    if j.fields.Keys == BASE + {"tag", "ref", "item", "payment_sig"} {
      if j.fields["ref"].Str? {
        BytesIff(j.fields["ref"].s);
      }
      if j.fields["payment_sig"].Str? {
        BytesIff(j.fields["payment_sig"].s);
      }
    }
  }

  // ---- The reference of a delivery -----------------------------------------------------------

  /** One of the keys has the name, and this is it. */
  ghost predicate Only(keys: seq<R.AccountKey>, name: string, k: R.AccountKey) {
    exists i :: 0 <= i < |keys| && keys[i] == k && Called(k, name) && forall j :: 0 <= j < |keys| && Called(keys[j], name) ==> j == i
  }

  lemma {:induction false} MatchingIff(keys: seq<R.AccountKey>, name: string)
    ensures |Chain.Matching(keys, name)| == 0 <==> forall j :: 0 <= j < |keys| ==> !Called(keys[j], name)
    ensures forall k :: |Chain.Matching(keys, name)| == 1 && Chain.Matching(keys, name)[0] == k <==> Only(keys, name, k)
  {
    if keys != [] {
      hide Only;
      var rest := keys[1..];
      MatchingIff(rest, name);
      assert forall j :: 0 <= j < |rest| ==> rest[j] == keys[j + 1];
      forall k ensures |Chain.Matching(keys, name)| == 1 && Chain.Matching(keys, name)[0] == k <==> Only(keys, name, k) {
        OneMatch(keys, name, k);
      }
    }
  }

  /** Only the first key has the name, or only one of the rest has it. */
  lemma OneMatch(keys: seq<R.AccountKey>, name: string, k: R.AccountKey)
    requires keys != []
    ensures Only(keys, name, k) <==>
            if Called(keys[0], name) then k == keys[0] && forall j :: 0 <= j < |keys| - 1 ==> !Called(keys[1..][j], name)
            else Only(keys[1..], name, k)
  {
    var rest := keys[1..];
    assert forall j :: 0 <= j < |rest| ==> rest[j] == keys[j + 1];
    if Called(keys[0], name) {
      OnlyFirst(keys, name, k);
    } else {
      if i :| 0 <= i < |keys| && keys[i] == k && Called(k, name) && forall j :: 0 <= j < |keys| && Called(keys[j], name) ==> j == i {
        assert rest[i - 1] == k;
      }
      if i :| 0 <= i < |rest| && rest[i] == k && Called(k, name) && forall j :: 0 <= j < |rest| && Called(rest[j], name) ==> j == i {
        assert keys[i + 1] == k;
        forall j | 0 <= j < |keys| && Called(keys[j], name) ensures j == i + 1 {
          assert Called(rest[j - 1], name);
        }
      }
    }
  }

  lemma OnlyFirst(keys: seq<R.AccountKey>, name: string, k: R.AccountKey)
    requires keys != [] && Called(keys[0], name)
    ensures Only(keys, name, k) <==> k == keys[0] && forall j :: 0 <= j < |keys| - 1 ==> !Called(keys[1..][j], name)
  {
    var rest := keys[1..];
    if forall j :: 0 <= j < |rest| ==> !Called(rest[j], name) {
      forall j | 0 < j < |keys| ensures !Called(keys[j], name) {
        assert !Called(rest[j - 1], name);
      }
      assert keys[0] == keys[0];
    }
  }

  /** Two texts of public keys spell the same key only if they are the same text. */
  lemma SameKey(a: string, b: string)
    requires Base58.IsPubkey(a) && Base58.IsPubkey(b)
    ensures Base58.DecodePubkey(a) == Base58.DecodePubkey(b) <==> a == b
  {
    hide Base58.DecodePubkey, Keys.Show;
    Keys.DecodeShows(a);
    Keys.DecodeShows(b);
  }

  lemma CollidesIff(reference: string, dev: Chain.Device)
    requires Base58.IsPubkey(reference) && Base58.IsPubkey(dev.address) && Base58.IsPubkey(dev.authority)
    ensures Chain.ReferenceCollides(Base58.DecodePubkey(reference).value, Base58.DecodePubkey(dev.address).value,
                                    Base58.DecodePubkey(dev.authority).value)
            <==> || reference == dev.address || reference == dev.authority
                 || reference == SYSTEM || reference == RECENT_BLOCKHASHES || reference == MEMO
  {
    hide Base58.DecodePubkey;
    Spelled();
    Keys.ConstantsArePubkeys();
    SameKey(reference, dev.address);
    SameKey(reference, dev.authority);
    SameKey(reference, Keys.SYSTEM_PROGRAM);
    SameKey(reference, Keys.RECENT_BLOCKHASHES);
    SameKey(reference, Keys.MEMO_PROGRAM);
  }

  lemma ReferenceIff(memo: string, j: Json, keys: seq<R.AccountKey>, dev: Chain.Device, parse: Parser)
    requires parse(memo) == Some(j) && IsFulfillment(j)
    ensures Chain.CheckReference(memo, keys, dev, parse).None? <==> AttachesOnly(keys, j.fields["ref"].s, dev)
  {
    var reference := j.fields["ref"].s;
    CheckIs(memo, j, reference, keys, dev, parse);
    hide Bytes, Base58.DecodePubkey, Chain.ReferenceCollides, Chain.Matching, Chain.CheckReference, IsFulfillment;
    BytesIff(reference);
    BytesIff(dev.address);
    BytesIff(dev.authority);
    if Bytes(dev.address, 32) && Bytes(dev.authority, 32) {
      CollidesIff(reference, dev);
    }
    OnlyIff(keys, reference);
    var matching := Chain.Matching(keys, reference);
    if |matching| == 1 {
      MatchIsFull(keys, reference, matching[0]);
    }
  }

  lemma CheckIs(memo: string, j: Json, reference: string, keys: seq<R.AccountKey>, dev: Chain.Device, parse: Parser)
    requires parse(memo) == Some(j) && Has(j, "tag", Str("PKFUL1")) && Has(j, "ref", Str(reference)) && Bytes(reference, 32)
    ensures Chain.CheckReference(memo, keys, dev, parse).None? <==>
            && Base58.IsPubkey(reference) && Base58.IsPubkey(dev.address) && Base58.IsPubkey(dev.authority)
            && !Chain.ReferenceCollides(Base58.DecodePubkey(reference).value, Base58.DecodePubkey(dev.address).value,
                                        Base58.DecodePubkey(dev.authority).value)
            && var m := Chain.Matching(keys, reference);
               |m| == 1 && m[0].Signer() == Some(false) && m[0].Writable() == Some(false)
  {
    BytesIff(reference);
    hide Bytes, Base58.DecodePubkey, Chain.ReferenceCollides, Chain.Matching;
  }

  lemma MatchIsFull(keys: seq<R.AccountKey>, name: string, k: R.AccountKey)
    requires |Chain.Matching(keys, name)| == 1 && Chain.Matching(keys, name)[0] == k
    ensures Called(k, name)
  {
    MatchingIff(keys, name);
  }

  lemma OnlyIff(keys: seq<R.AccountKey>, name: string)
    ensures var m := Chain.Matching(keys, name);
            (|m| == 1 && m[0] == R.Full(Some(name), Some(false), Some(false))) <==>
            exists i :: 0 <= i < |keys| && keys[i] == R.Full(Some(name), Some(false), Some(false))
                        && forall j :: 0 <= j < |keys| && Called(keys[j], name) ==> j == i
  {
    MatchingIff(keys, name);
    hide Chain.Matching;
    var k := R.Full(Some(name), Some(false), Some(false));
    assert Called(k, name);
    assert Only(keys, name, k) <==>
      exists i :: 0 <= i < |keys| && keys[i] == k && forall j :: 0 <= j < |keys| && Called(keys[j], name) ==> j == i;
  }

  /** A record without a tag has no reference to check. */
  lemma NoTag(memo: string, j: Json, keys: seq<R.AccountKey>, dev: Chain.Device, parse: Parser)
    requires parse(memo) == Some(j) && (IsReading(j) || IsEvent(j))
    ensures Chain.CheckReference(memo, keys, dev, parse).None? && !IsFulfillment(j)
  {
    Names();
  }

  lemma RecordIff(memo: string, j: Json, n: nat, prev: Option<string>, keys: seq<R.AccountKey>, dev: Chain.Device, parse: Parser)
    requires parse(memo) == Some(j)
    ensures IsRecord(j, dev.id, n, prev, keys, dev) <==>
            && Chain.CheckReference(memo, keys, dev, parse).None?
            && Chain.ParseMemo(memo, dev.id, parse).Some?
            && Chain.ParseMemo(memo, dev.id, parse).value.seq_ == n && Chain.ParseMemo(memo, dev.id, parse).value.prev == prev
  {
    ParseIs(memo, j, dev.id, n, prev, parse);
    hide Chain.CheckReference, Chain.ParseMemo, IsReading, IsEvent, IsFulfillment, AttachesOnly, Chain.HasExactBody, Numbered;
    if Numbered(j, dev.id, n, prev) {
      NumberedHasBase(j, dev.id, n, prev);
      BodyIff(j);
      if IsReading(j) || IsEvent(j) {
        NoTag(memo, j, keys, dev, parse);
      } else if IsFulfillment(j) {
        ReferenceIff(memo, j, keys, dev, parse);
        FulfillmentHasRef(j);
      }
    }
  }

  lemma ParseIs(memo: string, j: Json, id: string, n: nat, prev: Option<string>, parse: Parser)
    requires parse(memo) == Some(j)
    ensures (Chain.ParseMemo(memo, id, parse) != None && Chain.ParseMemo(memo, id, parse).value.seq_ == n
             && Chain.ParseMemo(memo, id, parse).value.prev == prev)
            <==> Numbered(j, id, n, prev) && Chain.HasExactBody(j)
  {
    hide Chain.HasExactBody;
    var ts := GetU64(j, "ts");
    if ts.Some? {
      assert Has(j, "ts", UInt(ts.value));
    }
  }

  lemma NumberedHasBase(j: Json, id: string, n: nat, prev: Option<string>)
    requires Numbered(j, id, n, prev)
    ensures j.Obj? && BASE <= j.fields.Keys
  {
  }

  lemma FulfillmentHasRef(j: Json)
    requires IsFulfillment(j)
    ensures "ref" in j.fields && j.fields["ref"].Str?
  {
  }

  // ---- Main results ------------------------------------------------------------------------

  /** How the device's own entry is seen. */
  lemma OwnView(e: R.Entry, dev: Chain.Device, parse: Parser)
    requires Instructed(e, dev)
    ensures var p, listed := PartsOf(e, dev), Chain.ListedText(e.memo);
            Chain.ViewOf(e, dev, parse) ==
            if Chain.IsExactInitialization(p, dev, listed) then Init
            else match Chain.ExactAttestationMemo(p, dev, listed)
              case None => Broken(Gap)
              case Some(memo) =>
                if Chain.CheckReference(memo, p.keys, dev, parse).Some? then Broken(Gap)
                else match Chain.ParseMemo(memo, dev.id, parse)
                  case None => Broken(Gap)
                  case Some(a) => Link(e.signature.value, a.seq_, a.prev)
    ensures !Outside(e, dev) && !Unreadable(e, dev) && !Unreached(e)
    ensures forall i :: 0 <= i < |PartsOf(e, dev).keys| ==> Complete(PartsOf(e, dev).keys[i])
    ensures Authorized(PartsOf(e, dev).keys, dev)
  {
    PartsIff(e.answer.value, dev);
    hide Chain.AuthenticatedParts, Chain.IsExactInitialization, Chain.ExactAttestationMemo, Chain.ParseMemo, Authorized;
    ReferenceGap(dev, parse);
  }

  /** Everything that is wrong with a reference is a gap. */
  lemma ReferenceGap(dev: Chain.Device, parse: Parser)
    ensures forall memo, keys :: Chain.CheckReference(memo, keys, dev, parse).Some? ==>
              Chain.CheckReference(memo, keys, dev, parse) == Some(Gap)
  {
    hide Base58.DecodePubkey, Chain.ReferenceCollides, Chain.Matching;
  }

  /** How any other entry is seen. */
  lemma OtherView(e: R.Entry, dev: Chain.Device, parse: Parser)
    requires !Instructed(e, dev)
    ensures var v := Chain.ViewOf(e, dev, parse);
            && (v == Public <==> Outside(e, dev))
            && (v == Broken(Decode) <==> Unreadable(e, dev))
            && (v == Broken(ChainError.Rpc) <==> Unreached(e))
            && (v.Failed? <==> e.signature.Some? && e.err.Failure?) && (v.Failed? ==> v.signature == e.signature.value)
            && !v.Init? && !v.Link?
  {
    if e.answer.Ok? {
      PartsIff(e.answer.value, dev);
    }
    hide Authorized, Chain.AuthenticatedParts;
  }

  /** An entry is a genesis exactly when it creates and initializes the device's nonce account, as the members say. */
  lemma InitIff(e: R.Entry, dev: Chain.Device, parse: Parser)
    ensures Chain.ViewOf(e, dev, parse) == Init <==> IsGenesis(e, dev)
  {
    if Instructed(e, dev) {
      var p := PartsOf(e, dev);
      OwnView(e, dev, parse);
      hide Chain.ViewOf, Flags, Creates, Initializes, Authorized, Complete, Unreadable, Outside, Unreached, Chain.IsExactInitialization,
        Chain.ExactAttestationMemo, Chain.CheckReference, Chain.ParseMemo;
      GenesisIff(p, dev, Chain.ListedText(e.memo));
    } else {
      hide Chain.ViewOf, Flags, Creates, Initializes, Authorized, Landed, Unreadable, Outside, Unreached;
      OtherView(e, dev, parse);
    }
  }

  /** An entry is a link exactly when it is the device's nonce advance with a record of this number and predecessor. */
  lemma LinkIff(e: R.Entry, dev: Chain.Device, parse: Parser, signature: string, n: nat, prev: Option<string>)
    ensures Chain.ViewOf(e, dev, parse) == Link(signature, n, prev)
            <==> e.signature == Some(signature) && IsAttestation(e, dev, parse, n, prev)
  {
    if Instructed(e, dev) {
      var p, listed := PartsOf(e, dev), Chain.ListedText(e.memo);
      OwnView(e, dev, parse);
      hide Chain.ViewOf, Flags, Advances, Authorized, Complete, Unreadable, Outside, Unreached, Chain.IsExactInitialization,
        Chain.ExactAttestationMemo, Chain.CheckReference, Chain.ParseMemo, Quotes, IsRecord;
      var found := Chain.ExactAttestationMemo(p, dev, listed);
      if found.Some? {
        AdvanceIsNoGenesis(e, p, dev, found.value);
        MemoIff(p, dev, e.memo, found.value);
        ParsedRecord(found.value, n, prev, p.keys, dev, parse);
      }
      if IsAttestation(e, dev, parse, n, prev) {
        var memo :| Writes(e, dev, memo) && parse(memo).Some? && IsRecord(parse(memo).value, dev.id, n, prev, p.keys, dev);
        MemoIff(p, dev, e.memo, memo);
      }
    } else {
      hide Chain.ViewOf, Flags, Advances, Authorized, Landed, Unreadable, Outside, Unreached, Quotes, IsRecord;
      OtherView(e, dev, parse);
    }
  }

  lemma AdvanceIsNoGenesis(e: R.Entry, p: Chain.Parts, dev: Chain.Device, memo: string)
    requires Own(e, dev) && Authorized(p.keys, dev) && forall i :: 0 <= i < |p.keys| ==> Complete(p.keys[i])
    requires Chain.ExactAttestationMemo(p, dev, Chain.ListedText(e.memo)) == Some(memo)
    ensures !Chain.IsExactInitialization(p, dev, Chain.ListedText(e.memo))
  {
    hide Flags, Creates, Initializes, Advances, Authorized, Chain.IsExactInitialization, Chain.ExactAttestationMemo, Quotes, Landed;
    MemoIff(p, dev, e.memo, memo);
    GenesisIff(p, dev, Chain.ListedText(e.memo));
    if |p.instructions| == 2 {
      NotBoth(p.instructions[0], dev);
    }
  }

  lemma ParsedRecord(memo: string, n: nat, prev: Option<string>, keys: seq<R.AccountKey>, dev: Chain.Device, parse: Parser)
    ensures (parse(memo).Some? && IsRecord(parse(memo).value, dev.id, n, prev, keys, dev)) <==>
            && Chain.CheckReference(memo, keys, dev, parse).None?
            && Chain.ParseMemo(memo, dev.id, parse).Some?
            && Chain.ParseMemo(memo, dev.id, parse).value.seq_ == n && Chain.ParseMemo(memo, dev.id, parse).value.prev == prev
  {
    if parse(memo).Some? {
      RecordIff(memo, parse(memo).value, n, prev, keys, dev, parse);
    }
    hide IsRecord, Chain.CheckReference;
  }

  /**
   * An entry is public traffic exactly when it landed but is not the device's own; failed by the listing alone;
   * out of reach, or without the members it needs, exactly as described. Whatever else is wrong is a gap.
   */
  lemma ForeignIff(e: R.Entry, dev: Chain.Device, parse: Parser)
    ensures var v := Chain.ViewOf(e, dev, parse);
            && (v == Public <==> Outside(e, dev))
            && (v == Broken(Decode) <==> Unreadable(e, dev))
            && (v == Broken(ChainError.Rpc) <==> Unreached(e))
            && (v.Failed? <==> e.signature.Some? && e.err.Failure?) && (v.Failed? ==> v.signature == e.signature.value)
  {
    if Instructed(e, dev) {
      OwnView(e, dev, parse);
      hide Chain.ViewOf, Authorized, Complete, Unreadable, Outside, Unreached, Chain.IsExactInitialization,
        Chain.ExactAttestationMemo, Chain.CheckReference, Chain.ParseMemo;
    } else {
      OtherView(e, dev, parse);
    }
  }

  // ---- A fresh device ----------------------------------------------------------------------

  function CreationKeys(dev: Chain.Device): seq<R.AccountKey> {
    [R.Full(Some(dev.authority), Some(true), Some(true)), R.Full(Some(dev.address), Some(true), Some(true)),
     R.Full(Some(SYSTEM), Some(false), Some(false)), R.Full(Some(RECENT_BLOCKHASHES), Some(false), Some(false)),
     R.Full(Some(RENT), Some(false), Some(false))]
  }

  function CreationCalls(dev: Chain.Device, lamports: nat): seq<R.Instruction> {
    [R.Instruction(Some("system"), Some(SYSTEM), Obj(map["type" := Str("createAccount"), "info" := Obj(map[
       "source" := Str(dev.authority), "newAccount" := Str(dev.address), "owner" := Str(SYSTEM),
       "space" := UInt(80), "lamports" := UInt(lamports)])])),
     R.Instruction(Some("system"), Some(SYSTEM), Obj(map["type" := Str("initializeNonce"), "info" := Obj(map[
       "nonceAccount" := Str(dev.address), "nonceAuthority" := Str(dev.authority),
       "recentBlockhashesSysvar" := Str(RECENT_BLOCKHASHES), "rentSysvar" := Str(RENT)])]))]
  }

  /** The node's report of `solana create-nonce-account`, with nothing but the device's keys and the deposit open. */
  function CreationOf(dev: Chain.Device, signature: string, lamports: nat, slot: nat): R.Entry {
    R.Entry(Some(signature), R.Success, R.NullMemo, Some(slot), None, Ok(Some(R.Transaction(
      Some(R.Meta(R.Success, Some([]), Some([]))),
      Some(R.Message(Some(CreationKeys(dev)), Some(CreationCalls(dev, lamports)))),
      Some(slot), None))))
  }

  /** A device that was only just created can write its first attestation, whatever else strangers list. */
  lemma FreshDevice(es: seq<R.Entry>, k: nat, dev: Chain.Device, signature: string, lamports: nat, slot: nat, parse: Parser)
    requires k < |es| < 100 && es[k] == CreationOf(dev, signature, lamports, slot)
    requires dev.address != dev.authority && 0 < lamports <= U64_MAX
    requires forall i :: 0 <= i < |es| && i != k ==> Outside(es[i], dev)
    ensures RecoverSpec(Chain.Views(es, dev, parse)) == Ok(ChainState(0, None))
  {
    var vs := Chain.Views(es, dev, parse);
    CreationIsGenesis(es[k], dev, signature, lamports, slot);
    hide IsGenesis, Chain.ViewOf, CreationOf, Outside, Unreadable, Unreached;
    forall i | 0 <= i < |es| ensures if i == k then vs[i] == Init else vs[i] == Public {
      InitIff(es[i], dev, parse);
      ForeignIff(es[i], dev, parse);
    }
    OnlyInit(vs, k);
    RecoverIff(vs, ChainState(0, None));
  }

  lemma {:induction false} OnlyInit(vs: seq<View>, k: nat)
    requires forall i :: 0 <= i < |vs| ==> if i == k then vs[i] == Init else vs[i] == Public
    ensures Quiet(vs) && Auth(vs) == if k < |vs| then [Init] else []
  {
    if vs != [] {
      OnlyInit(vs[..|vs| - 1], k);
    }
  }

  lemma CreationIsGenesis(e: R.Entry, dev: Chain.Device, signature: string, lamports: nat, slot: nat)
    requires e == CreationOf(dev, signature, lamports, slot) && dev.address != dev.authority && 0 < lamports <= U64_MAX
    ensures IsGenesis(e, dev)
  {
    hide CreationKeys, CreationCalls, Creates, Initializes, Flags, Authorized, Complete;
    CreationFlags(dev);
    CreationInstructs(dev, lamports);
  }

  lemma CreationFlags(dev: Chain.Device)
    requires dev.address != dev.authority
    ensures var keys := CreationKeys(dev);
            && keys != [] && Flags(keys, dev, true) && Authorized(keys, dev) && forall i :: 0 <= i < |keys| ==> Complete(keys[i])
  {
    var keys := CreationKeys(dev);
    assert Called(keys[0], dev.authority) && Called(keys[1], dev.address);
    assert FirstAt(keys, dev.authority, 0) && FirstAt(keys, dev.address, 1);
  }

  lemma CreationInstructs(dev: Chain.Device, lamports: nat)
    requires 0 < lamports <= U64_MAX
    ensures var ixs := CreationCalls(dev, lamports); |ixs| == 2 && Creates(ixs[0], dev) && Initializes(ixs[1], dev)
  {
    var ixs := CreationCalls(dev, lamports);
    CreationCreates(ixs[0], dev, lamports);
    CreationInitializes(ixs[1], dev);
    hide Creates, Initializes;
  }

  lemma CreationCreates(ix: R.Instruction, dev: Chain.Device, lamports: nat)
    requires 0 < lamports <= U64_MAX && ix == CreationCalls(dev, lamports)[0]
    ensures Creates(ix, dev)
  {
    var info := ix.parsed.fields["info"];
    assert SystemCall(ix, "createAccount", info) && Has(info, "lamports", UInt(lamports));
  }

  lemma CreationInitializes(ix: R.Instruction, dev: Chain.Device)
    requires exists lamports: nat :: ix == CreationCalls(dev, lamports)[1]
    ensures Initializes(ix, dev)
  {
    assert SystemCall(ix, "initializeNonce", ix.parsed.fields["info"]);
  }
}
