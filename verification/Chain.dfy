/** crates/kiosk-core/src/chain.rs: authenticating listed transactions, and the recovery loop. */
module Chain {
  import opened Wrappers
  import opened Json
  import opened Recovery
  import R = Rpc
  import Base58
  import opened Keys

  const FULFILLMENT_TAG: string := "PKFUL1"
  const NONCE_ACCOUNT_LEN: nat := 80

  /** The configured nonce account, its authority and the device id. */
  datatype Device = Device(address: string, authority: string, id: string)

  datatype DeviceTransaction = Initialization | Attestation(memo: string)

  // ---- Envelope ----------------------------------------------------------------------------

  function PubkeyOf(k: R.AccountKey): Option<string> {
    if k.Full? then k.pubkey else None
  }

  predicate ValidKey(k: R.AccountKey) {
    PubkeyOf(k).Some? && k.Signer().Some? && k.Writable().Some?
  }

  predicate Names(keys: seq<R.AccountKey>, pubkey: string) {
    exists i :: 0 <= i < |keys| && PubkeyOf(keys[i]) == Some(pubkey)
  }

  predicate SignedBy(keys: seq<R.AccountKey>, pubkey: string) {
    exists i :: 0 <= i < |keys| && PubkeyOf(keys[i]) == Some(pubkey) && keys[i].Signer() == Some(true)
  }

  /** Signer and writable flags of the first key that matches. */
  function AccountFlags(keys: seq<R.AccountKey>, pubkey: string): Option<(bool, bool)> {
    if keys == [] then None
    else if PubkeyOf(keys[0]) == Some(pubkey) then
      (if keys[0].Signer().Some? && keys[0].Writable().Some? then Some((keys[0].Signer().value, keys[0].Writable().value)) else None)
    else AccountFlags(keys[1..], pubkey)
  }

  datatype Parts = Parts(keys: seq<R.AccountKey>, instructions: seq<R.Instruction>)

  /** `None` is public traffic: not signed by the authority, or not about the device. */
  function AuthenticatedParts(tx: Option<R.Transaction>, dev: Device): Result<Option<Parts>, ChainError> {
    if tx.None? then Err(Gap)
    else if tx.value.meta.None? || tx.value.meta.value.err.Missing? then Err(Decode)
    else if tx.value.meta.value.err.Failure? then Err(Gap)
    else if tx.value.message.None? || tx.value.message.value.accountKeys.None? then Err(Decode)
    else
      var message := tx.value.message.value;
      var keys := message.accountKeys.value;
      if keys == [] || exists i :: 0 <= i < |keys| && !ValidKey(keys[i]) then Err(Decode)
      else if !Names(keys, dev.address) || !SignedBy(keys, dev.authority) then Ok(None)
      else if message.instructions.None? then Err(Decode)
      else Ok(Some(Parts(keys, message.instructions.value)))
  }

  // ---- Exact shapes ------------------------------------------------------------------------

  /** The `info` of a system instruction of the given type. */
  function SystemInfo(ix: R.Instruction, kind: string): Option<Json> {
    if ix.program != Some("system") || ix.programId != Some(SYSTEM_PROGRAM) || GetStr(ix.parsed, "type") != Some(kind)
    then None
    else Get(ix.parsed, "info")
  }

  predicate IsExactInitialization(p: Parts, dev: Device, listed: Option<string>) {
    && listed.None? && |p.instructions| == 2
    && (var f := AccountFlags(p.keys, dev.authority); f.Some? && f.value.0)
    && AccountFlags(p.keys, dev.address) == Some((true, true))
    && var create := SystemInfo(p.instructions[0], "createAccount");
    var initialize := SystemInfo(p.instructions[1], "initializeNonce");
    && create.Some? && initialize.Some?
    && GetStr(create.value, "source") == Some(dev.authority)
    && GetStr(create.value, "newAccount") == Some(dev.address)
    && GetStr(create.value, "owner") == Some(SYSTEM_PROGRAM)
    && GetU64(create.value, "space") == Some(NONCE_ACCOUNT_LEN)
    && (var lamports := GetU64(create.value, "lamports"); lamports.Some? && lamports.value > 0)
    && GetStr(initialize.value, "nonceAccount") == Some(dev.address)
    && GetStr(initialize.value, "nonceAuthority") == Some(dev.authority)
    && GetStr(initialize.value, "recentBlockhashesSysvar") == Some(RECENT_BLOCKHASHES)
    && GetStr(initialize.value, "rentSysvar") == Some(RENT_SYSVAR)
  }

  /** The text from the first `{`. */
  function ExtractJson(memo: string): Option<string> {
    if memo == "" then None else if memo[0] == '{' then Some(memo) else ExtractJson(memo[1..])
  }

  predicate IsAdvanceNonce(ix: R.Instruction, dev: Device) {
    var info := SystemInfo(ix, "advanceNonce");
    && info.Some?
    && GetStr(info.value, "nonceAccount") == Some(dev.address)
    && GetStr(info.value, "nonceAuthority") == Some(dev.authority)
    && GetStr(info.value, "recentBlockhashesSysvar") == Some(RECENT_BLOCKHASHES)
  }

  function ExactAttestationMemo(p: Parts, dev: Device, listed: Option<string>): Option<string> {
    if |p.instructions| != 2 then None else
    var authority := AccountFlags(p.keys, dev.authority);
    if authority.None? || !authority.value.0 || AccountFlags(p.keys, dev.address) != Some((false, true)) then None
    else if !IsAdvanceNonce(p.instructions[0], dev) then None
    else
      var ix := p.instructions[1];
      if ix.program != Some("spl-memo") || ix.programId != Some(MEMO_PROGRAM) || !ix.parsed.Str? then None
      else if listed.Some? && ExtractJson(listed.value) != Some(ix.parsed.s) then None
      else Some(ix.parsed.s)
  }

  /** Keys that every attestation already uses: a reference equal to one would be merged into it. */
  predicate ReferenceCollides(reference: seq<byte>, device: seq<byte>, authority: seq<byte>) {
    || reference == device || reference == authority
    || Some(reference) == Base58.DecodePubkey(SYSTEM_PROGRAM)
    || Some(reference) == Base58.DecodePubkey(RECENT_BLOCKHASHES)
    || Some(reference) == Base58.DecodePubkey(MEMO_PROGRAM)
  }

  function Matching(keys: seq<R.AccountKey>, pubkey: string): seq<R.AccountKey> {
    if keys == [] then []
    else (if PubkeyOf(keys[0]) == Some(pubkey) then [keys[0]] else []) + Matching(keys[1..], pubkey)
  }

  /** A fulfillment's charge reference is attached once, read-only and not signing. */
  function CheckReference(memo: string, keys: seq<R.AccountKey>, dev: Device, parse: Parser): Option<ChainError> {
    match parse(memo)
    case None => Some(Gap)
    case Some(parsed) =>
      if GetStr(parsed, "tag") != Some(FULFILLMENT_TAG) then None else
      var reference := GetStr(parsed, "ref");
      if reference.None? then Some(Gap) else
      var key, device, authority :=
        Base58.DecodePubkey(reference.value), Base58.DecodePubkey(dev.address), Base58.DecodePubkey(dev.authority);
      if key.None? || device.None? || authority.None? then Some(Gap)
      else if ReferenceCollides(key.value, device.value, authority.value) then Some(Gap)
      else
        var matching := Matching(keys, reference.value);
        if |matching| != 1 || matching[0].Signer() != Some(false) || matching[0].Writable() != Some(false)
        then Some(Gap) else None
  }

  /** `classify_device_transaction`. */
  function Classify(tx: Option<R.Transaction>, dev: Device, listed: Option<string>, parse: Parser)
    : Result<Option<DeviceTransaction>, ChainError>
  {
    match AuthenticatedParts(tx, dev)
    case Err(e) => Err(e)
    case Ok(None) => Ok(None)
    case Ok(Some(p)) =>
      if IsExactInitialization(p, dev, listed) then Ok(Some(Initialization))
      else match ExactAttestationMemo(p, dev, listed)
        case None => Err(Gap)
        case Some(memo) =>
          match CheckReference(memo, p.keys, dev, parse)
          case Some(e) => Err(e)
          case None => Ok(Some(Attestation(memo)))
  }

  // ---- Memo schema -------------------------------------------------------------------------

  predicate ValidText(o: Json, key: string, max: nat) {
    var t := GetStr(o, key);
    t.Some? && t.value != "" && |t.value| <= max
  }

  predicate IsMetricChar(c: char) {
    'A' <= c <= 'Z' || 'a' <= c <= 'z' || '0' <= c <= '9' || c == '_' || c == '-' || c == '.'
  }

  predicate IsMetricName(s: string) {
    s != "" && |s| <= 64 && forall i :: 0 <= i < |s| ==> IsMetricChar(s[i])
  }

  /** Base-58 text of a 64-byte signature. */
  predicate IsSignature(s: string) {
    var d := Base58.DecodeSpec(s);
    d.Some? && |d.value| == 64
  }

  const BASE_KEYS: set<string> := {"v", "dev", "seq", "ts", "prev"}

  predicate ReadingFields(j: Json) {
    && (var metric := GetStr(j, "metric"); metric.Some? && IsMetricName(metric.value))
    && IsNumber(Get(j, "val"))
  }

  predicate EventKeys(o: map<string, Json>) {
    && "event" in o && o.Keys <= BASE_KEYS + {"event", "item", "payment_sig"}
    && |o| == 6 + (if "item" in o then 1 else 0) + (if "payment_sig" in o then 1 else 0)
  }

  predicate EventFields(j: Json) {
    && ValidText(j, "event", 64)
    && (Get(j, "item").Some? ==> ValidText(j, "item", 64))
    && (Get(j, "payment_sig").Some? ==> ValidText(j, "payment_sig", 128))
  }

  predicate FulfillmentFields(j: Json) {
    && GetStr(j, "tag") == Some(FULFILLMENT_TAG)
    && (var reference := GetStr(j, "ref"); reference.Some? && Base58.IsPubkey(reference.value))
    && ValidText(j, "item", 64)
    && (var sig := GetStr(j, "payment_sig"); sig.Some? && |sig.value| <= 128 && IsSignature(sig.value))
  }

  /** `has_exact_attestation_body`: one of the three record kinds, with no other member. */
  predicate HasExactBody(j: Json) {
    j.Obj? &&
    if j.fields.Keys == BASE_KEYS + {"metric", "val"} then ReadingFields(j)
    else if EventKeys(j.fields) then EventFields(j)
    else j.fields.Keys == BASE_KEYS + {"tag", "ref", "item", "payment_sig"} && FulfillmentFields(j)
  }

  datatype ParsedAttestation = ParsedAttestation(seq_: nat, ts: nat, prev: Option<string>)

  /** The `prev` member: null, or a nonempty signature. The outer `None` is an invalid member. */
  function PrevOf(j: Json): Option<Option<string>> {
    match Get(j, "prev")
    case Some(Null) => Some(None)
    case Some(Str(s)) => if s == "" then None else Some(Some(s))
    case _ => None
  }

  /** `parse_attestation_memo`; every failure is a gap. */
  function ParseMemo(memo: string, deviceId: string, parse: Parser): Option<ParsedAttestation> {
    match parse(memo)
    case None => None
    case Some(j) =>
      if GetU64(j, "v") != Some(1) || GetStr(j, "dev") != Some(deviceId) then None else
      var seq_, ts, prev := GetU64(j, "seq"), GetU64(j, "ts"), PrevOf(j);
      if seq_.None? || ts.None? || prev.None? || !HasExactBody(j) then None
      else Some(ParsedAttestation(seq_.value, ts.value, prev.value))
  }

  // ---- Views -------------------------------------------------------------------------------

  function FetchError(e: R.RpcError): ChainError {
    if e.Transport? then ChainError.Rpc else Decode
  }

  /** Everything the scan can learn from one listed entry. */
  function ViewOf(e: R.Entry, dev: Device, parse: Parser): View {
    if e.signature.None? || e.err.Missing? then Broken(Decode)
    else if e.err.Failure? then Failed(e.signature.value)
    else if e.memo.NoMember? || e.memo.NotText? then Broken(Decode)
    else match e.answer
      case Err(err) => Broken(FetchError(err))
      case Ok(tx) =>
        match Classify(tx, dev, ListedText(e.memo), parse)
        case Err(err) => Broken(err)
        case Ok(None) => Public
        case Ok(Some(Initialization)) => Init
        case Ok(Some(Attestation(memo))) =>
          match ParseMemo(memo, dev.id, parse)
          case None => Broken(Gap)
          case Some(a) => Link(e.signature.value, a.seq_, a.prev)
  }

  function ListedText(m: R.ListedMemo): Option<string> {
    if m.Text? then Some(m.text) else None
  }

  function Views(es: seq<R.Entry>, dev: Device, parse: Parser): (vs: seq<View>)
    ensures |vs| == |es| && forall i :: 0 <= i < |es| ==> vs[i] == ViewOf(es[i], dev, parse)
  {
    seq(|es|, i requires 0 <= i < |es| => ViewOf(es[i], dev, parse))
  }

  // ---- The loop ----------------------------------------------------------------------------

  datatype Expected = Expected(signature: string, seq_: nat)

  /** The scan state that the loop's five variables stand for. */
  function Abs(recovered: Option<ChainState>, expected: Option<Expected>, needsInit: bool,
               afterInit: Option<ChainState>, count: nat): Scan
    requires needsInit || expected.Some? ==> recovered.Some?
  {
    if afterInit.Some? then AfterInit(afterInit.value)
    else if needsInit then NeedInit(recovered.value)
    else if expected.Some? then Expect(recovered.value, expected.value.signature, expected.value.seq_, count)
    else Start
  }

  /** A scan that has stopped has its result, whatever older entries follow. */
  lemma StoppedAt(vs: seq<View>, i: nat, r: Result<ChainState, ChainError>)
    requires i < |vs| <= SCAN_LIMIT && Step(Fold(vs[..i]), vs[i]) == Stop(r)
    ensures RecoverSpec(vs) == r
  {
    assert vs[..i + 1] == vs[..i] + [vs[i]];
    FoldSnoc(vs[..i], vs[i]);
    StopStays(vs, i + 1);
  }

  /**
   * `recover_at_min_context_slot`, given the node's listing. The slot bound is the node's affair:
   * Protocol.dfy says what a node that honours it may list.
   */
  method Recover(listing: Result<seq<R.Entry>, R.RpcError>, dev: Device, parse: Parser)
    returns (r: Result<ChainState, ChainError>)
    ensures r == match listing
                 case Err(e) => Err(FetchError(e))
                 case Ok(es) => RecoverSpec(Views(es, dev, parse))
  {
    hide ViewOf, Classify, ParseMemo, RecoverSpec;
    if listing.Err? {
      return Err(FetchError(listing.error));
    }
    var es := listing.value;
    ghost var vs := Views(es, dev, parse);
    if |es| > SCAN_LIMIT {
      TooMany(vs);
      return Err(Decode);
    }
    var recovered: Option<ChainState> := None;
    var expected: Option<Expected> := None;
    var needsInit := false;
    var afterInit: Option<ChainState> := None;
    var count := 0;
    for i := 0 to |es|
      invariant needsInit || expected.Some? ==> recovered.Some?
      invariant !(needsInit && expected.Some?)
      invariant !needsInit && expected.None? && afterInit.None? ==> recovered.None?
      invariant afterInit.Some? ==> !needsInit && expected.None?
      invariant count >= 0
      invariant Fold(vs[..i]) == Abs(recovered, expected, needsInit, afterInit, count)
    {
      var e := es[i];
      ViewCases(e, dev, parse);
      assert vs[..i + 1] == vs[..i] + [vs[i]];
      FoldSnoc(vs[..i], vs[i]);
      if e.signature.None? || e.err.Missing? {
        StoppedAt(vs, i, Err(Decode));
        return Err(Decode);
      }
      var signature := e.signature.value;
      if e.err.Failure? {
        if expected.Some? && expected.value.signature == signature {
          StoppedAt(vs, i, Err(Gap));
          return Err(Gap);
        }
        continue;
      }
      if e.memo.NoMember? || e.memo.NotText? {
        StoppedAt(vs, i, Err(Decode));
        return Err(Decode);
      }
      if e.answer.Err? {
        StoppedAt(vs, i, Err(FetchError(e.answer.error)));
        return Err(FetchError(e.answer.error));
      }
      var classified := Classify(e.answer.value, dev, ListedText(e.memo), parse);
      if classified.Err? {
        StoppedAt(vs, i, classified.PropagateFailure());
        return classified.PropagateFailure();
      }
      if classified.value.None? {
        continue;
      }
      if afterInit.Some? {
        StoppedAt(vs, i, Err(Gap));
        return Err(Gap);
      }
      match classified.value.value
      case Initialization =>
        if needsInit {
          needsInit := false;
          afterInit := recovered;
          recovered := None;
        } else if expected.Some? {
          StoppedAt(vs, i, Err(Gap));
          return Err(Gap);
        } else {
          afterInit := Some(ChainState(0, None));
        }
      case Attestation(memo) =>
        if needsInit {
          StoppedAt(vs, i, Err(Gap));
          return Err(Gap);
        }
        if expected.Some? && signature != expected.value.signature {
          StoppedAt(vs, i, Err(Gap));
          return Err(Gap);
        }
        var parsed := ParseMemo(memo, dev.id, parse);
        if parsed.None? {
          StoppedAt(vs, i, Err(Gap));
          return Err(Gap);
        }
        var done: Option<Result<ChainState, ChainError>>;
        recovered, expected, needsInit, count, done := FollowLink(signature, parsed.value, recovered, expected, count);
        if done.Some? {
          StoppedAt(vs, i, done.value);
          return done.value;
        }
    }
    assert vs[..|es|] == vs;
    Ended(vs);
    if needsInit {
      return Err(Gap);
    }
    if afterInit.Some? {
      return if |es| == SCAN_LIMIT then Err(Gap) else Ok(afterInit.value);
    }
    return Err(Gap);
  }

  /** The body of the loop at an authenticated attestation: start at the head or follow its `prev`. */
  method FollowLink(signature: string, link: ParsedAttestation,
                    recovered0: Option<ChainState>, expected0: Option<Expected>, count0: nat)
    returns (recovered: Option<ChainState>, expected: Option<Expected>, needsInit: bool, count: nat,
             done: Option<Result<ChainState, ChainError>>)
    requires expected0.Some? <==> recovered0.Some?
    ensures needsInit || expected.Some? ==> recovered.Some?
    ensures done.None? ==> recovered.Some? && (needsInit <==> expected.None?)
    ensures Step(Abs(recovered0, expected0, false, None, count0), Link(signature, link.seq_, link.prev)) ==
            if done.Some? then Stop(done.value) else Abs(recovered, expected, needsInit, None, count)
  {
    recovered, expected, needsInit, count, done := recovered0, expected0, false, count0, None;
    if expected.Some? {
      if signature != expected.value.signature || link.seq_ != expected.value.seq_ {
        done := Some(Err(Gap));
        return;
      }
      count := count + 1;
    } else {
      if link.seq_ + 1 > U64_MAX {
        done := Some(Err(Gap));
        return;
      }
      recovered := Some(ChainState(link.seq_ + 1, Some(signature)));
      count := 1;
    }
    if link.seq_ == 0 {
      expected := None;
      if link.prev.Some? {
        done := Some(Err(Gap));
        return;
      }
      needsInit := true;
    } else {
      if link.prev.None? {
        done := Some(Err(Gap));
        return;
      }
      if count == SUFFIX_DEPTH {
        done := Some(Ok(recovered.value));
        return;
      }
      expected := Some(Expected(link.prev.value, link.seq_ - 1));
    }
  }

  lemma TooMany(vs: seq<View>)
    requires |vs| > SCAN_LIMIT
    ensures RecoverSpec(vs) == Err(Decode)
  {
  }

  lemma Ended(vs: seq<View>)
    requires |vs| <= SCAN_LIMIT
    ensures RecoverSpec(vs) == Finish(Fold(vs), |vs|)
  {
  }

  /** The view of an entry, in the order in which the loop looks at it. */
  lemma ViewCases(e: R.Entry, dev: Device, parse: Parser)
    ensures var v := ViewOf(e, dev, parse);
            if e.signature.None? || e.err.Missing? then v == Broken(Decode)
            else if e.err.Failure? then v == Failed(e.signature.value)
            else if e.memo.NoMember? || e.memo.NotText? then v == Broken(Decode)
            else if e.answer.Err? then v == Broken(FetchError(e.answer.error))
            else var c := Classify(e.answer.value, dev, ListedText(e.memo), parse);
            if c.Err? then v == Broken(c.error)
            else if c.value.None? then v == Public
            else if c.value.value.Initialization? then v == Init
            else var a := ParseMemo(c.value.value.memo, dev.id, parse);
            v == if a.None? then Broken(Gap) else Link(e.signature.value, a.value.seq_, a.value.prev)
  {
  }
}
