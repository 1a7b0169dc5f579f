/** plugins/kiosk-attest/src/attest.rs and crates/kiosk-core/src/nonce.rs: building one unsigned attestation. */
module Attest {
  import opened Wrappers
  import opened Json
  import opened Keys
  import opened Recovery
  import Chain
  import Base58
  import Base64
  import M = Message
  import C = Compile
  import R = Rpc

  datatype AttestError = ConfigError | ArgsError | Rejected | RpcFailure | DecodeFailure

  /** A double: the plugin refuses NaN and the infinities. */
  datatype F64 = Finite(x: real) | NotFinite

  datatype Config = Config(
    deviceId: string,
    nonceAccount: string,
    nonceAuthority: string,
    allowedMetrics: map<string, (real, real)>)

  datatype Args = Args(
    kind: Option<string>,
    metric: Option<string>,
    value: Option<F64>,
    event: Option<string>,
    paymentSig: Option<string>,
    item: Option<string>,
    reference: Option<string>)

  // ---- Step 1: the payload -----------------------------------------------------------------

  predicate IsText(s: string, max: nat) {
    s != "" && |s| <= max
  }

  /** The record body, and the reference that a fulfillment attaches. */
  datatype Body = Body(fields: map<string, Json>, reference: Option<M.Key>)

  function ReadingBody(args: Args, cfg: Config): Result<Body, AttestError> {
    if args.metric.None? || args.value.None? || !Chain.IsMetricName(args.metric.value) then Err(ArgsError)
    else if args.metric.value !in cfg.allowedMetrics || args.value.value.NotFinite? then Err(Rejected)
    else
      var (lo, hi) := cfg.allowedMetrics[args.metric.value];
      var x := args.value.value.x;
      if x < lo || x > hi then Err(Rejected)
      else Ok(Body(map["metric" := Str(args.metric.value), "val" := Float(x)], None))
  }

  function OptionalText(key: string, value: Option<string>): map<string, Json> {
    if value.Some? then map[key := Str(value.value)] else map[]
  }

  function EventBody(args: Args): Result<Body, AttestError> {
    if args.event.None? || !IsText(args.event.value, 64) then Err(ArgsError)
    else if args.item.Some? && !IsText(args.item.value, 64) then Err(ArgsError)
    else if args.paymentSig.Some? && !IsText(args.paymentSig.value, 128) then Err(ArgsError)
    else Ok(Body(map["event" := Str(args.event.value)]
                 + OptionalText("item", args.item)
                 + OptionalText("payment_sig", args.paymentSig), None))
  }

  function FulfillmentBody(args: Args): Result<Body, AttestError> {
    if args.reference.None? || !Base58.IsPubkey(args.reference.value) then Err(ArgsError)
    else if args.item.None? || !IsText(args.item.value, 64) then Err(ArgsError)
    else if args.paymentSig.None? || !IsText(args.paymentSig.value, 128) then Err(ArgsError)
    else if !Chain.IsSignature(args.paymentSig.value) then Err(ArgsError)
    else Ok(Body(map["tag" := Str(Chain.FULFILLMENT_TAG),
                     "ref" := Str(args.reference.value),
                     "item" := Str(args.item.value),
                     "payment_sig" := Str(args.paymentSig.value)],
                 Base58.DecodePubkey(args.reference.value)))
  }

  function BodyOf(args: Args, cfg: Config): Result<Body, AttestError> {
    if args.kind.None? || args.kind.value == "reading" then ReadingBody(args, cfg)
    else if args.kind.value == "event" then EventBody(args)
    else if args.kind.value == "fulfillment" then FulfillmentBody(args)
    else Err(ArgsError)
  }

  // ---- Step 2: the nonce snapshot ----------------------------------------------------------

  datatype AccountData = AccountData(text: Option<string>, encoding: Option<string>)

  datatype Account = Account(owner: Option<string>, executable: Option<bool>, data: Option<AccountData>)

  /** The answer to `getAccountInfo`: the slot of the state read, and the account or null. */
  datatype AccountInfo = AccountInfo(slot: Option<nat>, account: Option<Account>)

  datatype NonceAccount = NonceAccount(authority: M.Key, blockhash: M.Key)

  function LittleEndian32(b: seq<byte>): nat
    requires |b| == 4
  {
    b[0] as int + b[1] as int * 256 + b[2] as int * 65536 + b[3] as int * 16777216
  }

  /** `parse_nonce_account`: 80 bytes, version Current, state Initialized. */
  function ParseNonceAccount(text: string): Option<NonceAccount> {
    match Base64.DecodeSpec(text)
    case None => None
    case Some(b) =>
      if |b| != 80 || LittleEndian32(b[0..4]) != 1 || LittleEndian32(b[4..8]) != 1 then None
      else Some(NonceAccount(b[8..40], b[40..72]))
  }

  /** The durable nonce and the slot at which it was read. */
  datatype Snapshot = Snapshot(blockhash: M.Key, slot: nat)

  function FetchFailure(e: R.RpcError): AttestError {
    if e.Transport? then RpcFailure else DecodeFailure
  }

  function SnapshotNonce(answer: Result<AccountInfo, R.RpcError>, authority: M.Key): Result<Snapshot, AttestError> {
    match answer
    case Err(e) => Err(FetchFailure(e))
    case Ok(info) =>
      if info.slot.None? then Err(DecodeFailure)
      else if info.account.None? then Err(RpcFailure)
      else
        var a := info.account.value;
        if a.owner != Some(SYSTEM_PROGRAM) || a.executable != Some(false) || a.data.None?
           || a.data.value.encoding != Some("base64") || a.data.value.text.None? then Err(DecodeFailure)
        else match ParseNonceAccount(a.data.value.text.value)
          case None => Err(DecodeFailure)
          case Some(na) => if na.authority != authority then Err(ConfigError) else Ok(Snapshot(na.blockhash, info.slot.value))
  }

  // ---- Steps 4 and 5: the record and the message -------------------------------------------

  function PrevJson(prev: Option<string>): Json {
    if prev.Some? then Str(prev.value) else Null
  }

  function Record(deviceId: string, state: ChainState, ts: nat, body: map<string, Json>): Json {
    Obj(map["v" := UInt(1), "dev" := Str(deviceId), "seq" := UInt(state.seq_), "ts" := UInt(ts)]
        + body
        + map["prev" := PrevJson(state.prev)])
  }

  const ADVANCE_NONCE: seq<byte> := [4, 0, 0, 0]

  function AdvanceNonce(nonce: M.Key, authority: M.Key, reference: Option<M.Key>): M.Instruction {
    M.Instruction(
      SYSTEM,
      [M.AccountMeta(nonce, false, true),
       M.AccountMeta(RecentBlockhashesKey(), false, false),
       M.AccountMeta(authority, true, false)]
      + if reference.Some? then [M.AccountMeta(reference.value, false, false)] else [],
      ADVANCE_NONCE)
  }

  function TextBytes(t: Text): (bs: seq<byte>)
    ensures |bs| == |t|
  {
    seq(|t|, i requires 0 <= i < |t| => t[i] as int)
  }

  function BytesText(bs: seq<byte>): (t: Text)
    ensures |t| == |bs|
  {
    seq(|bs|, i requires 0 <= i < |bs| => bs[i] as char)
  }

  function MemoInstruction(memo: Text): M.Instruction {
    M.Instruction(MemoProgramKey(), [], TextBytes(memo))
  }

  /** The two instructions of every attestation. */
  function Instructions(nonce: M.Key, authority: M.Key, reference: Option<M.Key>, memo: Text): seq<M.Instruction> {
    [AdvanceNonce(nonce, authority, reference), MemoInstruction(memo)]
  }

  datatype Output = Output(txBase64: string, seq_: nat, message: M.Message)

  /** How records are printed: `serde_json`, whose text is UTF-8. */
  type Printer = Json -> Text

  /** The successful path after the snapshot and the recovery. */
  function Assemble(cfg: Config, body: Body, nonce: M.Key, authority: M.Key, blockhash: M.Key,
                    state: ChainState, now: nat, print_: Printer): Result<Output, AttestError>
  {
    var memo := print_(Record(cfg.deviceId, state, now, body.fields));
    var message := C.CompileSpec(Instructions(nonce, authority, body.reference, memo), authority, blockhash);
    var bytes := M.SerializeSpec(message);
    if |bytes| > M.MAX_MESSAGE_BYTES then Err(Rejected)
    else Ok(Output(Base64.EncodeSpec(bytes), state.seq_, message))
  }

  function RecoveryFailure(e: ChainError): AttestError {
    match e
    case Rpc => RpcFailure
    case Decode => DecodeFailure
    case Gap => Rejected
  }

  /** The keys of the transaction, once the payload is known; the reference must be independent of them. */
  function Infrastructure(cfg: Config, body: Body): Result<(M.Key, M.Key), AttestError> {
    var nonce, authority := Base58.DecodePubkey(cfg.nonceAccount), Base58.DecodePubkey(cfg.nonceAuthority);
    if nonce.None? || authority.None? then Err(ConfigError)
    else if body.reference.Some? && Chain.ReferenceCollides(body.reference.value, nonce.value, authority.value)
    then Err(ArgsError)
    else Ok((nonce.value, authority.value))
  }

  function DeviceOf(cfg: Config): Chain.Device {
    Chain.Device(cfg.nonceAccount, cfg.nonceAuthority, cfg.deviceId)
  }

  /** What a node answers in one run: the nonce account, and a listing for each slot bound asked for. */
  datatype Node = Node(account: Result<AccountInfo, R.RpcError>, listing: nat -> Result<seq<R.Entry>, R.RpcError>)

  function RecoverAt(cfg: Config, node: Node, slot: nat, parse: Parser): Result<ChainState, ChainError> {
    match node.listing(slot)
    case Err(e) => Err(Chain.FetchError(e))
    case Ok(es) => RecoverSpec(Chain.Views(es, DeviceOf(cfg), parse))
  }

  /** `execute_attest`: payload, keys, snapshot, recovery at the snapshot's slot, record, size gate. */
  function AttestSpec(args: Args, cfg: Config, node: Node, now: nat, parse: Parser, print_: Printer)
    : Result<Output, AttestError>
  {
    match BodyOf(args, cfg)
    case Err(e) => Err(e)
    case Ok(body) =>
      match Infrastructure(cfg, body)
      case Err(e) => Err(e)
      case Ok(keys) =>
        match SnapshotNonce(node.account, keys.1)
        case Err(e) => Err(e)
        case Ok(snap) =>
          match RecoverAt(cfg, node, snap.slot, parse)
          case Err(e) => Err(RecoveryFailure(e))
          case Ok(state) => Assemble(cfg, body, keys.0, keys.1, snap.blockhash, state, now, print_)
  }

  method ExecuteAttest(args: Args, cfg: Config, node: Node, now: nat, parse: Parser, print_: Printer)
    returns (r: Result<Output, AttestError>)
    ensures r == AttestSpec(args, cfg, node, now, parse, print_)
  {
    hide BodyOf, Infrastructure, SnapshotNonce, RecoverSpec, C.CompileSpec, M.SerializeSpec, Base64.EncodeSpec;
    var body := BodyOf(args, cfg);
    if body.Err? {
      return Err(body.error);
    }
    var keys := Infrastructure(cfg, body.value);
    if keys.Err? {
      return Err(keys.error);
    }
    var (nonce, authority) := keys.value;
    // The nonce first: a landing after this read makes the artifact unsubmittable.
    var snap := SnapshotNonce(node.account, authority);
    if snap.Err? {
      return Err(snap.error);
    }
    var state := Chain.Recover(node.listing(snap.value.slot), DeviceOf(cfg), parse);
    if state.Err? {
      return Err(RecoveryFailure(state.error));
    }
    var record := map["v" := UInt(1), "dev" := Str(cfg.deviceId), "seq" := UInt(state.value.seq_), "ts" := UInt(now)];
    record := record + body.value.fields;
    record := record + map["prev" := PrevJson(state.value.prev)];
    var memo := print_(Obj(record));
    var advance := AdvanceNonce(nonce, authority, body.value.reference);
    var message := C.Compile([advance, MemoInstruction(memo)], authority, snap.value.blockhash);
    var bytes := M.Serialize(message);
    if |bytes| > M.MAX_MESSAGE_BYTES {
      return Err(Rejected);
    }
    var text := Base64.Encode(bytes);
    return Ok(Output(text, state.value.seq_, message));
  }
}
