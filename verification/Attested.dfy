/** plugins/kiosk-attest/src/attest.rs: what an attestation takes and what it carries, written out member by member. */
module Attested {
  // Attest.dfy builds a record step by step. Here the request, the nonce account, the record and the two
  // instructions have descriptions of their own, and for all inputs there are exact conditions for every
  // answer: this very message, or a refusal of each kind.

  import opened Wrappers
  import opened Json
  import opened Recovery
  import opened Spelling
  import A = Attest
  import Base58
  import Base64
  import C = Compile
  import Chain
  import Keys
  import Landing
  import M = Message
  import R = Rpc
  import Sighting

  // ---- The request -------------------------------------------------------------------------

  /** Text of 1 to `max` bytes. */
  predicate Given(t: Option<string>, max: nat) {
    t.Some? && 1 <= |t.value| <= max
  }

  predicate Wants(args: A.Args, kind: string) {
    args.kind == Some(kind) || (args.kind.None? && kind == "reading")
  }

  /** A reading that can be understood, whatever it says. */
  predicate Named(args: A.Args) {
    && Wants(args, "reading") && Given(args.metric, 64) && args.value.Some?
    && forall i :: 0 <= i < |args.metric.value| ==>
         var c := args.metric.value[i];
         'A' <= c <= 'Z' || 'a' <= c <= 'z' || '0' <= c <= '9' || c == '_' || c == '-' || c == '.'
  }

  /** The operator allows this metric, and the value is in its range. */
  predicate InRange(args: A.Args, cfg: A.Config) {
    && args.metric.Some? && args.metric.value in cfg.allowedMetrics && args.value.Some? && args.value.value.Finite?
    && cfg.allowedMetrics[args.metric.value].0 <= args.value.value.x <= cfg.allowedMetrics[args.metric.value].1
  }

  predicate Happened(args: A.Args) {
    && Wants(args, "event") && Given(args.event, 64)
    && (args.item.Some? ==> Given(args.item, 64)) && (args.paymentSig.Some? ==> Given(args.paymentSig, 128))
  }

  predicate Delivered(args: A.Args) {
    && Wants(args, "fulfillment")
    && args.reference.Some? && Bytes(args.reference.value, 32)
    && Given(args.item, 64) && args.paymentSig.Some? && |args.paymentSig.value| <= 128 && Bytes(args.paymentSig.value, 64)
  }

  /** The payload can be attested. */
  predicate Fits(args: A.Args, cfg: A.Config) {
    (Named(args) && InRange(args, cfg)) || Happened(args) || Delivered(args)
  }

  /** A delivery's reference is none of the accounts that every attestation has. */
  predicate Independent(args: A.Args, cfg: A.Config) {
    Delivered(args) ==>
      && args.reference.value != cfg.nonceAccount && args.reference.value != cfg.nonceAuthority
      && args.reference.value != SYSTEM && args.reference.value != RECENT_BLOCKHASHES && args.reference.value != MEMO
  }

  /** The request can be attested by this device. */
  predicate Ready(args: A.Args, cfg: A.Config) {
    Fits(args, cfg) && Bytes(cfg.nonceAccount, 32) && Bytes(cfg.nonceAuthority, 32) && Independent(args, cfg)
  }

  // ---- The nonce account -------------------------------------------------------------------

  /** The node shows a durable nonce of this authority, with this value, read at this slot. */
  ghost predicate Holds(info: A.AccountInfo, authority: M.Key, blockhash: M.Key, slot: nat) {
    && info.slot == Some(slot) && info.account.Some?
    && info.account.value.owner == Some(SYSTEM) && info.account.value.executable == Some(false)
    && exists text, b ::
         && info.account.value.data == Some(A.AccountData(Some(text), Some("base64")))
         && Base64.DecodeSpec(text) == Some(b) && |b| == 80 && b[..8] == [1, 0, 0, 0, 1, 0, 0, 0]
         && b[8..40] == authority && b[40..72] == blockhash
  }

  /** The device's own nonce. */
  ghost predicate Snapped(node: A.Node, cfg: A.Config, blockhash: M.Key, slot: nat) {
    && Bytes(cfg.nonceAuthority, 32) && node.account.Ok?
    && Holds(node.account.value, Base58.DecodeSpec(cfg.nonceAuthority).value, blockhash, slot)
  }

  /** Recovery of the listing that was asked for at this slot. */
  predicate Recovers(node: A.Node, cfg: A.Config, slot: nat, parse: Parser, state: ChainState) {
    && node.listing(slot).Ok?
    && RecoverSpec(Chain.Views(node.listing(slot).value, Chain.Device(cfg.nonceAccount, cfg.nonceAuthority, cfg.deviceId), parse))
       == Ok(state)
  }

  // ---- The record --------------------------------------------------------------------------

  const BASE: set<string> := {"v", "dev", "seq", "ts", "prev"}

  predicate Numbered(j: Json, cfg: A.Config, n: nat, prev: Option<string>, now: nat) {
    && Has(j, "v", UInt(1)) && Has(j, "dev", Str(cfg.deviceId)) && Has(j, "seq", UInt(n)) && Has(j, "ts", UInt(now))
    && Has(j, "prev", if prev.Some? then Str(prev.value) else Null)
  }

  predicate Measures(j: Json, args: A.Args) {
    && j.Obj? && j.fields.Keys == BASE + {"metric", "val"}
    && args.metric.Some? && Has(j, "metric", Str(args.metric.value))
    && args.value.Some? && args.value.value.Finite? && Has(j, "val", Float(args.value.value.x))
  }

  predicate Reports(j: Json, args: A.Args) {
    && j.Obj? && BASE + {"event"} <= j.fields.Keys <= BASE + {"event", "item", "payment_sig"}
    && args.event.Some? && Has(j, "event", Str(args.event.value))
    && ("item" in j.fields <==> args.item.Some?) && (args.item.Some? ==> Has(j, "item", Str(args.item.value)))
    && ("payment_sig" in j.fields <==> args.paymentSig.Some?)
    && (args.paymentSig.Some? ==> Has(j, "payment_sig", Str(args.paymentSig.value)))
  }

  predicate Delivers(j: Json, args: A.Args) {
    && j.Obj? && j.fields.Keys == BASE + {"tag", "ref", "item", "payment_sig"}
    && Has(j, "tag", Str("PKFUL1"))
    && args.reference.Some? && Has(j, "ref", Str(args.reference.value))
    && args.item.Some? && Has(j, "item", Str(args.item.value))
    && args.paymentSig.Some? && Has(j, "payment_sig", Str(args.paymentSig.value))
  }

  /** The record of this request, with this number and predecessor, and no other member. */
  predicate Records(j: Json, args: A.Args, cfg: A.Config, n: nat, prev: Option<string>, now: nat) {
    && Numbered(j, cfg, n, prev, now)
    && if Wants(args, "reading") then Measures(j, args) else if Wants(args, "event") then Reports(j, args) else Delivers(j, args)
  }

  // ---- The message -------------------------------------------------------------------------

  /** The nonce is advanced by its authority; a delivery attaches its charge's reference. */
  ghost predicate Advances(ix: M.Instruction, args: A.Args, cfg: A.Config) {
    exists nonce, sysvar, authority, program ::
      && Base58.DecodeSpec(cfg.nonceAccount) == Some(nonce) && |nonce| == 32
      && Base58.DecodeSpec(cfg.nonceAuthority) == Some(authority) && |authority| == 32
      && Base58.DecodeSpec(RECENT_BLOCKHASHES) == Some(sysvar) && |sysvar| == 32
      && Base58.DecodeSpec(SYSTEM) == Some(program) && |program| == 32
      && ix.programId == program && ix.data == [4, 0, 0, 0]
      && |ix.accounts| == (if Wants(args, "fulfillment") then 4 else 3)
      && ix.accounts[0] == M.AccountMeta(nonce, false, true)
      && ix.accounts[1] == M.AccountMeta(sysvar, false, false)
      && ix.accounts[2] == M.AccountMeta(authority, true, false)
      && (Wants(args, "fulfillment") ==>
            && args.reference.Some? && Base58.DecodeSpec(args.reference.value).Some?
            && |Base58.DecodeSpec(args.reference.value).value| == 32
            && ix.accounts[3] == M.AccountMeta(Base58.DecodeSpec(args.reference.value).value, false, false))
  }

  /** The text is written, and nothing else is touched. */
  ghost predicate Writes(ix: M.Instruction, memo: Text) {
    && Base58.DecodeSpec(MEMO) == Some(ix.programId) && ix.accounts == []
    && |ix.data| == |memo| && forall i :: 0 <= i < |memo| ==> ix.data[i] == memo[i] as int
  }

  /** The message is compiled from the two, for the authority to pay and sign. */
  ghost predicate Carries(m: M.Message, args: A.Args, cfg: A.Config, memo: Text, blockhash: M.Key) {
    && Bytes(cfg.nonceAuthority, 32)
    && exists advance, write ::
         && Advances(advance, args, cfg) && Writes(write, memo)
         && m == C.CompileSpec([advance, write], Base58.DecodeSpec(cfg.nonceAuthority).value, blockhash)
  }

  /** Everything that a successful run has established. */
  ghost predicate Attests(args: A.Args, cfg: A.Config, node: A.Node, now: nat, parse: Parser, print_: A.Printer, m: M.Message,
                          j: Json, blockhash: M.Key, slot: nat, state: ChainState)
  {
    && Ready(args, cfg) && Snapped(node, cfg, blockhash, slot) && Recovers(node, cfg, slot, parse, state)
    && Records(j, args, cfg, state.seq_, state.prev, now) && Carries(m, args, cfg, print_(j), blockhash)
  }

  // ---- The pieces agree --------------------------------------------------------------------

  /** A signature is text. */
  lemma SignatureGiven(text: string)
    ensures Bytes(text, 64) ==> text != ""
  {
  }

  lemma MetricIff(args: A.Args)
    requires Wants(args, "reading") && args.metric.Some? && args.value.Some?
    ensures Named(args) <==> Chain.IsMetricName(args.metric.value)
  {
    var s := args.metric.value;
    assert forall i :: 0 <= i < |s| ==> (Chain.IsMetricChar(s[i]) <==>
      'A' <= s[i] <= 'Z' || 'a' <= s[i] <= 'z' || '0' <= s[i] <= '9' || s[i] == '_' || s[i] == '-' || s[i] == '.');
  }

  lemma KindsApart()
    ensures "reading" != "event" && "reading" != "fulfillment" && "event" != "fulfillment"
  {
    assert |"reading"| == 7 && |"event"| == 5 && |"fulfillment"| == 11;
  }

  lemma ReadingIff(args: A.Args, cfg: A.Config)
    requires Wants(args, "reading")
    ensures A.ReadingBody(args, cfg).Ok? <==> Named(args) && InRange(args, cfg)
    ensures A.ReadingBody(args, cfg).Ok? ==> A.ReadingBody(args, cfg).value.reference == None
    ensures A.ReadingBody(args, cfg).Err? ==>
              A.ReadingBody(args, cfg) == if Named(args) && !InRange(args, cfg) then Err(A.Rejected) else Err(A.ArgsError)
  {
    hide Chain.IsMetricName, Wants;
    if args.metric.Some? && args.value.Some? {
      MetricIff(args);
    }
  }

  lemma EventIff(args: A.Args)
    requires Wants(args, "event")
    ensures A.EventBody(args).Ok? <==> Happened(args)
    ensures A.EventBody(args).Ok? ==> A.EventBody(args).value.reference == None
    ensures A.EventBody(args).Err? ==> A.EventBody(args) == Err(A.ArgsError)
  {
    hide Wants;
  }

  lemma FulfillmentIff(args: A.Args)
    requires Wants(args, "fulfillment")
    ensures A.FulfillmentBody(args).Ok? <==> Delivered(args)
    ensures A.FulfillmentBody(args).Ok? ==> A.FulfillmentBody(args).value.reference == Base58.DecodePubkey(args.reference.value)
    ensures A.FulfillmentBody(args).Err? ==> A.FulfillmentBody(args) == Err(A.ArgsError)
  {
    hide Wants, Base58.DecodePubkey, Bytes, Chain.IsSignature;
    if args.reference.Some? {
      BytesIff(args.reference.value);
    }
    if args.paymentSig.Some? {
      BytesIff(args.paymentSig.value);
      SignatureGiven(args.paymentSig.value);
    }
  }

  /** A payload is of one kind. */
  lemma Kinds(args: A.Args)
    ensures !(Wants(args, "reading") && Wants(args, "event")) && !(Wants(args, "reading") && Wants(args, "fulfillment"))
    ensures !(Wants(args, "event") && Wants(args, "fulfillment"))
    ensures Named(args) ==> Wants(args, "reading")
    ensures Happened(args) ==> Wants(args, "event")
    ensures Delivered(args) ==> Wants(args, "fulfillment") && args.reference.Some?
  {
    KindsApart();
    hide Bytes;
  }

  lemma KindIs(args: A.Args, cfg: A.Config)
    ensures A.BodyOf(args, cfg) ==
            if Wants(args, "reading") then A.ReadingBody(args, cfg) else if Wants(args, "event") then A.EventBody(args)
            else if Wants(args, "fulfillment") then A.FulfillmentBody(args) else Err(A.ArgsError)
  {
    KindsApart();
    hide A.ReadingBody, A.EventBody, A.FulfillmentBody;
  }

  /** Which payloads are taken, and how the others are refused. */
  lemma BodyIff(args: A.Args, cfg: A.Config)
    ensures A.BodyOf(args, cfg).Ok? <==> Fits(args, cfg)
    ensures A.BodyOf(args, cfg).Err? ==>
              A.BodyOf(args, cfg) == if Named(args) && !InRange(args, cfg) then Err(A.Rejected) else Err(A.ArgsError)
    ensures Delivered(args) ==>
              A.BodyOf(args, cfg).Ok? && A.BodyOf(args, cfg).value.reference == Base58.DecodePubkey(args.reference.value)
    ensures A.BodyOf(args, cfg).Ok? && !Delivered(args) ==> A.BodyOf(args, cfg).value.reference == None
    ensures Delivered(args) <==> A.BodyOf(args, cfg).Ok? && Wants(args, "fulfillment")
  {
    Kinds(args);
    KindIs(args, cfg);
    hide A.BodyOf, A.ReadingBody, A.EventBody, A.FulfillmentBody, Wants, Named, InRange, Happened, Delivered, Base58.DecodePubkey;
    if Wants(args, "reading") {
      ReadingIff(args, cfg);
    } else if Wants(args, "event") {
      EventIff(args);
    } else if Wants(args, "fulfillment") {
      FulfillmentIff(args);
    }
  }

  /** The device's keys, once the payload is taken. */
  lemma KeysIff(args: A.Args, cfg: A.Config, body: A.Body)
    requires A.BodyOf(args, cfg) == Ok(body)
    ensures var r := A.Infrastructure(cfg, body);
            && (r.Ok? <==> Ready(args, cfg))
            && (r.Ok? ==>
                  && Bytes(cfg.nonceAccount, 32) && Bytes(cfg.nonceAuthority, 32)
                  && r.value == (Base58.DecodeSpec(cfg.nonceAccount).value, Base58.DecodeSpec(cfg.nonceAuthority).value))
            && (r == Err(A.ConfigError) <==> !Bytes(cfg.nonceAccount, 32) || !Bytes(cfg.nonceAuthority, 32))
            && (r == Err(A.ArgsError) <==>
                  Bytes(cfg.nonceAccount, 32) && Bytes(cfg.nonceAuthority, 32) && !Independent(args, cfg))
  {
    BodyIff(args, cfg);
    BytesIff(cfg.nonceAccount);
    BytesIff(cfg.nonceAuthority);
    hide A.BodyOf, Fits, Bytes, Base58.DecodePubkey, Base58.DecodeSpec, Chain.ReferenceCollides;
    if Delivered(args) && Bytes(cfg.nonceAccount, 32) && Bytes(cfg.nonceAuthority, 32) {
      BytesIff(args.reference.value);
      Spelled();
      Sighting.CollidesIff(args.reference.value, Chain.Device(cfg.nonceAccount, cfg.nonceAuthority, cfg.deviceId));
    }
  }

  lemma HeaderIff(b: seq<byte>)
    requires |b| == 80
    ensures A.LittleEndian32(b[0..4]) == 1 && A.LittleEndian32(b[4..8]) == 1 <==> b[..8] == [1, 0, 0, 0, 1, 0, 0, 0]
  {
    var c := b[..8];
    assert b[0..4] == [b[0], b[1], b[2], b[3]] && b[4..8] == [b[4], b[5], b[6], b[7]];
    assert forall i :: 0 <= i < 8 ==> c[i] == b[i];
    assert c == [b[0], b[1], b[2], b[3], b[4], b[5], b[6], b[7]];
  }

  lemma NonceIff(text: string, authority: M.Key, blockhash: M.Key)
    ensures A.ParseNonceAccount(text) == Some(A.NonceAccount(authority, blockhash)) <==>
            exists b :: Base64.DecodeSpec(text) == Some(b) && |b| == 80 && b[..8] == [1, 0, 0, 0, 1, 0, 0, 0]
                        && b[8..40] == authority && b[40..72] == blockhash
  {
    hide Base64.DecodeSpec, A.LittleEndian32;
    var d := Base64.DecodeSpec(text);
    if d.Some? && |d.value| == 80 {
      HeaderIff(d.value);
    }
  }

  /** The snapshot is the durable nonce that the node shows; another authority's nonce is a configuration error. */
  lemma SnapshotIff(answer: Result<A.AccountInfo, R.RpcError>, authority: M.Key, blockhash: M.Key, slot: nat)
    ensures A.SnapshotNonce(answer, authority) == Ok(A.Snapshot(blockhash, slot)) <==>
            answer.Ok? && Holds(answer.value, authority, blockhash, slot)
    ensures A.SnapshotNonce(answer, authority) == Err(A.RpcFailure) <==>
            answer == Err(R.Transport) || (answer.Ok? && answer.value.slot.Some? && answer.value.account.None?)
    ensures A.SnapshotNonce(answer, authority) != Err(A.ArgsError) && A.SnapshotNonce(answer, authority) != Err(A.Rejected)
  {
    Spelled();
    hide A.ParseNonceAccount, Base64.DecodeSpec;
    if answer.Ok? && answer.value.account.Some? && answer.value.account.value.data.Some? {
      var data := answer.value.account.value.data.value;
      if data.text.Some? {
        NonceIff(data.text.value, authority, blockhash);
        if data.encoding == Some("base64") {
          assert data == A.AccountData(Some(data.text.value), Some("base64"));
        }
      }
    }
  }

  lemma ForeignNonceIff(answer: Result<A.AccountInfo, R.RpcError>, authority: M.Key)
    ensures A.SnapshotNonce(answer, authority) == Err(A.ConfigError) <==>
            exists other, blockhash, slot :: other != authority && answer.Ok? && Holds(answer.value, other, blockhash, slot)
  {
    var r := A.SnapshotNonce(answer, authority);
    if answer.Ok? && answer.value.slot.Some? && answer.value.account.Some? {
      var slot := answer.value.slot.value;
      forall other, blockhash
        ensures A.SnapshotNonce(answer, other) == Ok(A.Snapshot(blockhash, slot)) <==> Holds(answer.value, other, blockhash, slot)
      {
        SnapshotIff(answer, other, blockhash, slot);
      }
      hide Holds, A.ParseNonceAccount;
      if r == Err(A.ConfigError) {
        var na := A.ParseNonceAccount(answer.value.account.value.data.value.text.value).value;
        assert A.SnapshotNonce(answer, na.authority) == Ok(A.Snapshot(na.blockhash, slot));
      }
      if other, blockhash :| other != authority && Holds(answer.value, other, blockhash, slot) {
        assert A.SnapshotNonce(answer, other) == Ok(A.Snapshot(blockhash, slot));
      }
    }
  }

  // ---- The record and the message ----------------------------------------------------------

  /** Common members, and those of a kind, in one object. */
  lemma Members(id: string, state: ChainState, now: nat, body: map<string, Json>)
    requires body.Keys !! BASE
    ensures var j := A.Record(id, state, now, body);
            && j.Obj? && j.fields.Keys == BASE + body.Keys && (forall k :: k in body ==> Has(j, k, body[k]))
            && Has(j, "v", UInt(1)) && Has(j, "dev", Str(id)) && Has(j, "seq", UInt(state.seq_)) && Has(j, "ts", UInt(now))
            && Has(j, "prev", A.PrevJson(state.prev))
  {
    assert BASE == Chain.BASE_KEYS;
    var j := A.Record(id, state, now, body);
    assert j.fields.Keys == BASE + body.Keys;
    forall k | k in body ensures Has(j, k, body[k]) {
      assert k !in BASE;
    }
  }

  lemma BodyNames(args: A.Args, cfg: A.Config)
    requires A.BodyOf(args, cfg).Ok?
    ensures A.BodyOf(args, cfg).value.fields.Keys !! BASE
  {
    Landing.BodyKeys(args, cfg);
    Landing.KindKeysNew(args);
    assert BASE == Chain.BASE_KEYS;
    hide A.BodyOf, Landing.KindKeys;
  }

  lemma RecordHolds(args: A.Args, cfg: A.Config, state: ChainState, now: nat)
    requires A.BodyOf(args, cfg).Ok?
    ensures Records(A.Record(cfg.deviceId, state, now, A.BodyOf(args, cfg).value.fields), args, cfg, state.seq_, state.prev, now)
  {
    BodyNames(args, cfg);
    var body := A.BodyOf(args, cfg).value.fields;
    Members(cfg.deviceId, state, now, body);
    var j := A.Record(cfg.deviceId, state, now, body);
    hide A.Record, Chain.IsMetricName, Chain.IsSignature, Base58.DecodePubkey, Has, Measures, Reports, Delivers;
    KindsApart();
    Spelled();
    if Wants(args, "reading") {
      ReadingHolds(j, args, body);
    } else if Wants(args, "event") {
      EventHolds(j, args, body);
    } else {
      DeliveryHolds(j, args, body);
    }
  }

  lemma ReadingHolds(j: Json, args: A.Args, body: map<string, Json>)
    requires args.metric.Some? && args.value.Some? && args.value.value.Finite?
    requires j.Obj? && j.fields.Keys == BASE + body.Keys && forall k :: k in body ==> Has(j, k, body[k])
    requires body == map["metric" := Str(args.metric.value), "val" := Float(args.value.value.x)]
    ensures Measures(j, args)
  {
    assert Has(j, "metric", body["metric"]) && Has(j, "val", body["val"]);
  }

  lemma DeliveryHolds(j: Json, args: A.Args, body: map<string, Json>)
    requires args.reference.Some? && args.item.Some? && args.paymentSig.Some?
    requires j.Obj? && j.fields.Keys == BASE + body.Keys && forall k :: k in body ==> Has(j, k, body[k])
    requires body == map["tag" := Str("PKFUL1"), "ref" := Str(args.reference.value), "item" := Str(args.item.value),
                         "payment_sig" := Str(args.paymentSig.value)]
    ensures Delivers(j, args)
  {
    hide Has;
    assert Has(j, "tag", body["tag"]) && Has(j, "ref", body["ref"]);
    assert Has(j, "item", body["item"]) && Has(j, "payment_sig", body["payment_sig"]);
  }

  lemma EventHolds(j: Json, args: A.Args, body: map<string, Json>)
    requires args.event.Some? && j.Obj? && j.fields.Keys == BASE + body.Keys && forall k :: k in body ==> Has(j, k, body[k])
    requires body == map["event" := Str(args.event.value)] + A.OptionalText("item", args.item)
                     + A.OptionalText("payment_sig", args.paymentSig)
    ensures Reports(j, args)
  {
    Landing.DistinctNames();
    assert "item" !in BASE && "payment_sig" !in BASE;
    assert body["event"] == Str(args.event.value);
    assert args.item.Some? ==> body["item"] == Str(args.item.value);
    assert args.paymentSig.Some? ==> body["payment_sig"] == Str(args.paymentSig.value);
    assert ("item" in body <==> args.item.Some?) && ("payment_sig" in body <==> args.paymentSig.Some?);
  }

  lemma OneRecord(j: Json, k: Json, args: A.Args, cfg: A.Config, n: nat, prev: Option<string>, now: nat)
    requires Records(j, args, cfg, n, prev, now) && Records(k, args, cfg, n, prev, now)
    ensures j == k
  {
    assert j.fields.Keys == k.fields.Keys;
    forall key | key in j.fields ensures j.fields[key] == k.fields[key] {
      SameMember(j, k, args, cfg, n, prev, now, key);
    }
    assert j.fields == k.fields;
  }

  lemma SameMember(j: Json, k: Json, args: A.Args, cfg: A.Config, n: nat, prev: Option<string>, now: nat, key: string)
    requires Records(j, args, cfg, n, prev, now) && Records(k, args, cfg, n, prev, now) && key in j.fields
    ensures key in k.fields && j.fields[key] == k.fields[key]
  {
  }

  lemma RecordIff(j: Json, args: A.Args, cfg: A.Config, state: ChainState, now: nat)
    requires A.BodyOf(args, cfg).Ok?
    ensures Records(j, args, cfg, state.seq_, state.prev, now) <==>
            j == A.Record(cfg.deviceId, state, now, A.BodyOf(args, cfg).value.fields)
  {
    RecordHolds(args, cfg, state, now);
    hide Records, A.Record, A.BodyOf;
    if Records(j, args, cfg, state.seq_, state.prev, now) {
      OneRecord(j, A.Record(cfg.deviceId, state, now, A.BodyOf(args, cfg).value.fields), args, cfg, state.seq_, state.prev, now);
    }
  }

  /** The key that a delivery attaches. */
  function Attached(args: A.Args): Option<M.Key> {
    if Delivered(args) then Some(Base58.DecodeSpec(args.reference.value).value) else None
  }

  lemma AttachedIs(args: A.Args, cfg: A.Config)
    requires Fits(args, cfg)
    ensures A.BodyOf(args, cfg).Ok? && A.BodyOf(args, cfg).value.reference == Attached(args)
    ensures Delivered(args) <==> Wants(args, "fulfillment")
  {
    BodyIff(args, cfg);
    hide A.BodyOf, Fits, Base58.DecodePubkey;
    if Delivered(args) {
      BytesIff(args.reference.value);
    }
  }

  lemma AdvanceShape(ix: M.Instruction, nonce: M.Key, sysvar: M.Key, authority: M.Key, reference: Option<M.Key>)
    requires sysvar == Keys.RecentBlockhashesKey()
    ensures ix == A.AdvanceNonce(nonce, authority, reference) <==>
            && ix.programId == Keys.SYSTEM && ix.data == [4, 0, 0, 0]
            && |ix.accounts| == (if reference.Some? then 4 else 3)
            && ix.accounts[0] == M.AccountMeta(nonce, false, true) && ix.accounts[1] == M.AccountMeta(sysvar, false, false)
            && ix.accounts[2] == M.AccountMeta(authority, true, false)
            && (reference.Some? ==> ix.accounts[3] == M.AccountMeta(reference.value, false, false))
  {
    hide Keys.RecentBlockhashesKey;
    var expected := A.AdvanceNonce(nonce, authority, reference);
    if |ix.accounts| == |expected.accounts| && forall i :: 0 <= i < |ix.accounts| ==> ix.accounts[i] == expected.accounts[i] {
      assert ix.accounts == expected.accounts;
    }
  }

  lemma FixedKeys()
    ensures Base58.DecodeSpec(RECENT_BLOCKHASHES) == Some(Keys.RecentBlockhashesKey())
    ensures Base58.DecodeSpec(SYSTEM) == Some(Keys.SYSTEM) && Base58.DecodeSpec(MEMO) == Some(Keys.MemoProgramKey())
  {
    Spelled();
    Keys.ConstantsArePubkeys();
    BytesIff(SYSTEM);
    BytesIff(RECENT_BLOCKHASHES);
    BytesIff(MEMO);
    hide Base58.DecodeSpec;
  }

  lemma AdvancesIff(ix: M.Instruction, args: A.Args, cfg: A.Config)
    requires Bytes(cfg.nonceAccount, 32) && Bytes(cfg.nonceAuthority, 32) && (Delivered(args) <==> Wants(args, "fulfillment"))
    ensures Advances(ix, args, cfg) <==>
            ix == A.AdvanceNonce(Base58.DecodeSpec(cfg.nonceAccount).value, Base58.DecodeSpec(cfg.nonceAuthority).value, Attached(args))
  {
    hide Base58.DecodeSpec, A.AdvanceNonce, Wants, Given, Keys.RecentBlockhashesKey;
    FixedKeys();
    AdvanceShape(ix, Base58.DecodeSpec(cfg.nonceAccount).value, Keys.RecentBlockhashesKey(), Base58.DecodeSpec(cfg.nonceAuthority).value,
                 Attached(args));
  }

  lemma WritesIff(ix: M.Instruction, memo: Text)
    ensures Writes(ix, memo) <==> ix == A.MemoInstruction(memo)
  {
    FixedKeys();
    hide Base58.DecodeSpec, Keys.MemoProgramKey;
    if Writes(ix, memo) {
      assert ix.data == A.TextBytes(memo);
    }
  }

  lemma CarriesIff(m: M.Message, args: A.Args, cfg: A.Config, memo: Text, blockhash: M.Key)
    requires Bytes(cfg.nonceAccount, 32) && Bytes(cfg.nonceAuthority, 32) && (Delivered(args) <==> Wants(args, "fulfillment"))
    ensures Carries(m, args, cfg, memo, blockhash) <==>
            m == C.CompileSpec(A.Instructions(Base58.DecodeSpec(cfg.nonceAccount).value, Base58.DecodeSpec(cfg.nonceAuthority).value,
                                              Attached(args), memo),
                               Base58.DecodeSpec(cfg.nonceAuthority).value, blockhash)
  {
    hide A.AdvanceNonce, A.MemoInstruction, Advances, Writes, C.CompileSpec, Base58.DecodeSpec, Attached, Delivered, Wants;
    var nonce, authority := Base58.DecodeSpec(cfg.nonceAccount).value, Base58.DecodeSpec(cfg.nonceAuthority).value;
    forall ix ensures Advances(ix, args, cfg) <==> ix == A.AdvanceNonce(nonce, authority, Attached(args)) {
      AdvancesIff(ix, args, cfg);
    }
    forall ix ensures Writes(ix, memo) <==> ix == A.MemoInstruction(memo) {
      WritesIff(ix, memo);
    }
  }

  // ---- The stages of a run -----------------------------------------------------------------

  /** Recovery of the listing at this slot stops with this error. */
  predicate Fails(node: A.Node, cfg: A.Config, slot: nat, parse: Parser, e: ChainError) {
    match node.listing(slot)
    case Err(x) => e == if x == R.Transport then ChainError.Rpc else Decode
    case Ok(es) =>
      RecoverSpec(Chain.Views(es, Chain.Device(cfg.nonceAccount, cfg.nonceAuthority, cfg.deviceId), parse)) == Err(e)
  }

  lemma RecoverAtIff(node: A.Node, cfg: A.Config, slot: nat, parse: Parser)
    ensures forall state :: A.RecoverAt(cfg, node, slot, parse) == Ok(state) <==> Recovers(node, cfg, slot, parse, state)
    ensures forall e :: A.RecoverAt(cfg, node, slot, parse) == Err(e) <==> Fails(node, cfg, slot, parse, e)
  {
    hide RecoverSpec, Chain.Views;
  }

  /** With everything established, the size of the message decides. */
  lemma Concludes(args: A.Args, cfg: A.Config, node: A.Node, now: nat, parse: Parser, print_: A.Printer,
                  m: M.Message, j: Json, blockhash: M.Key, slot: nat, state: ChainState)
    requires Attests(args, cfg, node, now, parse, print_, m, j, blockhash, slot, state)
    ensures A.AttestSpec(args, cfg, node, now, parse, print_) ==
            if |M.SerializeSpec(m)| > 1167 then Err(A.Rejected)
            else Ok(A.Output(Base64.EncodeSpec(M.SerializeSpec(m)), state.seq_, m))
  {
    BodyIff(args, cfg);
    KeysIff(args, cfg, A.BodyOf(args, cfg).value);
    AttachedIs(args, cfg);
    var body := A.BodyOf(args, cfg).value;
    var authority := Base58.DecodeSpec(cfg.nonceAuthority).value;
    SnapshotIff(node.account, authority, blockhash, slot);
    RecoverAtIff(node, cfg, slot, parse);
    RecordIff(j, args, cfg, state, now);
    CarriesIff(m, args, cfg, print_(j), blockhash);
    hide A.BodyOf, A.Infrastructure, A.SnapshotNonce, A.RecoverAt, A.Record, A.Instructions, C.CompileSpec, M.SerializeSpec,
      Base64.EncodeSpec, Base58.DecodeSpec, Fits, Independent, Holds, Recovers, Records, Carries, Attached, Delivered, Wants;
  }

  /** Once the chain is recovered, there is one record and one message. */
  lemma Prepared(args: A.Args, cfg: A.Config, node: A.Node, now: nat, parse: Parser, print_: A.Printer,
                 blockhash: M.Key, slot: nat, state: ChainState)
    returns (m: M.Message, j: Json)
    requires Ready(args, cfg) && Snapped(node, cfg, blockhash, slot) && Recovers(node, cfg, slot, parse, state)
    ensures Attests(args, cfg, node, now, parse, print_, m, j, blockhash, slot, state)
  {
    hide Fits, Independent, Bytes, Holds, Recovers, Records, Carries, Delivered, Wants, A.BodyOf, A.Record, A.Instructions, C.CompileSpec;
    BodyIff(args, cfg);
    AttachedIs(args, cfg);
    j := A.Record(cfg.deviceId, state, now, A.BodyOf(args, cfg).value.fields);
    RecordIff(j, args, cfg, state, now);
    var nonce, authority := KeyBytes(cfg.nonceAccount), KeyBytes(cfg.nonceAuthority);
    m := C.CompileSpec(A.Instructions(nonce, authority, Attached(args), print_(j)), authority, blockhash);
    CarriesIff(m, args, cfg, print_(j), blockhash);
  }

  function KeyBytes(text: string): (k: M.Key)
    requires Bytes(text, 32)
    ensures Some(k) == Base58.DecodeSpec(text)
  {
    Base58.DecodeSpec(text).value
  }

  // ---- The refusals ------------------------------------------------------------------------

  /** The node shows somebody else's nonce. */
  ghost predicate Foreign(node: A.Node, cfg: A.Config) {
    && Bytes(cfg.nonceAuthority, 32) && node.account.Ok?
    && exists other, blockhash, slot ::
         other != Base58.DecodeSpec(cfg.nonceAuthority).value && Holds(node.account.value, other, blockhash, slot)
  }

  /** There is no answer about the nonce account, or the node does not know it. */
  predicate Unavailable(node: A.Node) {
    || node.account == Err(R.Transport)
    || (node.account.Ok? && node.account.value.slot.Some? && node.account.value.account.None?)
  }

  lemma RefusesRequest(args: A.Args, cfg: A.Config, node: A.Node, now: nat, parse: Parser, print_: A.Printer)
    requires !Ready(args, cfg)
    ensures A.AttestSpec(args, cfg, node, now, parse, print_) ==
            if !Fits(args, cfg) then (if Named(args) && !InRange(args, cfg) then Err(A.Rejected) else Err(A.ArgsError))
            else if !Bytes(cfg.nonceAccount, 32) || !Bytes(cfg.nonceAuthority, 32) then Err(A.ConfigError) else Err(A.ArgsError)
  {
    hide A.BodyOf, A.Infrastructure, A.SnapshotNonce, A.RecoverAt, Fits, Named, InRange, Independent, A.Assemble, Bytes;
    BodyIff(args, cfg);
    if Fits(args, cfg) {
      KeysIff(args, cfg, A.BodyOf(args, cfg).value);
    }
  }

  lemma RefusesAccount(answer: Result<A.AccountInfo, R.RpcError>, authority: M.Key)
    requires forall blockhash, slot :: !(answer.Ok? && Holds(answer.value, authority, blockhash, slot))
    ensures A.SnapshotNonce(answer, authority) ==
            if answer == Err(R.Transport) || (answer.Ok? && answer.value.slot.Some? && answer.value.account.None?) then Err(A.RpcFailure)
            else if exists other, blockhash, slot :: other != authority && answer.Ok? && Holds(answer.value, other, blockhash, slot)
            then Err(A.ConfigError) else Err(A.DecodeFailure)
  {
    var r := A.SnapshotNonce(answer, authority);
    hide A.SnapshotNonce, Holds;
    ForeignNonceIff(answer, authority);
    if r.Ok? {
      SnapshotIff(answer, authority, r.value.blockhash, r.value.slot);
    } else {
      SnapshotIff(answer, authority, authority, 0);
      assert r.error == A.ConfigError || r.error == A.RpcFailure || r.error == A.DecodeFailure;
    }
  }

  lemma RefusesNonce(args: A.Args, cfg: A.Config, node: A.Node, now: nat, parse: Parser, print_: A.Printer)
    requires Ready(args, cfg) && forall blockhash, slot :: !Snapped(node, cfg, blockhash, slot)
    ensures A.AttestSpec(args, cfg, node, now, parse, print_) ==
            if Unavailable(node) then Err(A.RpcFailure) else if Foreign(node, cfg) then Err(A.ConfigError) else Err(A.DecodeFailure)
  {
    hide A.BodyOf, A.Infrastructure, A.SnapshotNonce, A.RecoverAt, Fits, Independent, A.Assemble, Holds, Base58.DecodeSpec;
    BodyIff(args, cfg);
    KeysIff(args, cfg, A.BodyOf(args, cfg).value);
    var authority := KeyBytes(cfg.nonceAuthority);
    assert forall blockhash, slot :: Snapped(node, cfg, blockhash, slot) <==>
      node.account.Ok? && Holds(node.account.value, authority, blockhash, slot);
    RefusesAccount(node.account, authority);
  }

  /** A failed recovery of the snapshot's history decides; otherwise there is a state. */
  lemma RefusesHistory(args: A.Args, cfg: A.Config, node: A.Node, now: nat, parse: Parser, print_: A.Printer, blockhash: M.Key, slot: nat)
    returns (state: Option<ChainState>)
    requires Ready(args, cfg) && Snapped(node, cfg, blockhash, slot)
    ensures state.Some? ==> Recovers(node, cfg, slot, parse, state.value) && forall e :: !Fails(node, cfg, slot, parse, e)
    ensures state.None? ==>
              var r := A.AttestSpec(args, cfg, node, now, parse, print_);
              && r.Err? && (exists e :: Fails(node, cfg, slot, parse, e))
              && forall e :: Fails(node, cfg, slot, parse, e) ==>
                   r.error == match e case Rpc => A.RpcFailure case Decode => A.DecodeFailure case Gap => A.Rejected
  {
    BodyIff(args, cfg);
    KeysIff(args, cfg, A.BodyOf(args, cfg).value);
    SnapshotIff(node.account, KeyBytes(cfg.nonceAuthority), blockhash, slot);
    RecoverAtIff(node, cfg, slot, parse);
    hide A.BodyOf, A.Infrastructure, A.SnapshotNonce, A.RecoverAt, Fits, Independent, A.Assemble, Holds, Base58.DecodeSpec, Fails, Recovers;
    var r := A.RecoverAt(cfg, node, slot, parse);
    if r.Ok? {
      state := Some(r.value);
      assert Recovers(node, cfg, slot, parse, r.value);
    } else {
      state := None;
      assert Fails(node, cfg, slot, parse, r.error);
    }
  }

  /** The recovery of the history behind the snapshot stops with this error. */
  ghost predicate Stops(node: A.Node, cfg: A.Config, parse: Parser, e: ChainError) {
    exists blockhash, slot :: Snapped(node, cfg, blockhash, slot) && Fails(node, cfg, slot, parse, e)
  }

  /** The message does not fit one packet with its signature. */
  ghost predicate TooLarge(args: A.Args, cfg: A.Config, node: A.Node, now: nat, parse: Parser, print_: A.Printer) {
    exists m, j, blockhash, slot, state ::
      Attests(args, cfg, node, now, parse, print_, m, j, blockhash, slot, state) && |M.SerializeSpec(m)| > 1167
  }

  /** The request cannot be understood, or it names one of the device's own accounts. */
  predicate BadRequest(args: A.Args, cfg: A.Config) {
    || (!Named(args) && !Happened(args) && !Delivered(args))
    || (Fits(args, cfg) && Bytes(cfg.nonceAccount, 32) && Bytes(cfg.nonceAuthority, 32) && !Independent(args, cfg))
  }

  /** The nonce account shows one value for one authority. */
  lemma OneHolder(info: A.AccountInfo, a: M.Key, blockhash: M.Key, slot: nat, b: M.Key, other: M.Key, slot': nat)
    requires Holds(info, a, blockhash, slot) && Holds(info, b, other, slot')
    ensures a == b && blockhash == other && slot == slot' && info.account.Some?
  {
  }

  // ---- Main results ------------------------------------------------------------------------

  /**
   * A run builds this very output exactly when: the request is a proper one for the device, the node shows the
   * device's nonce, the history listed at that slot can be recovered, and the message of the record that continues
   * it fits one packet.
   */
  lemma AttestIff(args: A.Args, cfg: A.Config, node: A.Node, now: nat, parse: Parser, print_: A.Printer, out: A.Output)
    ensures A.AttestSpec(args, cfg, node, now, parse, print_) == Ok(out) <==>
            exists j, blockhash, slot, state ::
              && Attests(args, cfg, node, now, parse, print_, out.message, j, blockhash, slot, state)
              && |M.SerializeSpec(out.message)| <= 1167
              && out.txBase64 == Base64.EncodeSpec(M.SerializeSpec(out.message)) && out.seq_ == state.seq_
  {
    hide Ready, Fits, Named, InRange, Bytes, Snapped, Recovers, Attests, A.AttestSpec, Fails, Foreign, Unavailable;
    if j, blockhash, slot, state :|
      && Attests(args, cfg, node, now, parse, print_, out.message, j, blockhash, slot, state)
      && |M.SerializeSpec(out.message)| <= 1167
      && out.txBase64 == Base64.EncodeSpec(M.SerializeSpec(out.message)) && out.seq_ == state.seq_
    {
      Concludes(args, cfg, node, now, parse, print_, out.message, j, blockhash, slot, state);
    }
    if A.AttestSpec(args, cfg, node, now, parse, print_) == Ok(out) {
      var m, j, blockhash, slot, state := Succeeds(args, cfg, node, now, parse, print_);
      Concludes(args, cfg, node, now, parse, print_, m, j, blockhash, slot, state);
    }
  }

  lemma Succeeds(args: A.Args, cfg: A.Config, node: A.Node, now: nat, parse: Parser, print_: A.Printer)
    returns (m: M.Message, j: Json, blockhash: M.Key, slot: nat, state: ChainState)
    requires A.AttestSpec(args, cfg, node, now, parse, print_).Ok?
    ensures Attests(args, cfg, node, now, parse, print_, m, j, blockhash, slot, state)
  {
    hide Ready, Fits, Named, InRange, Bytes, Snapped, Recovers, Attests, A.AttestSpec, Fails, Foreign, Unavailable;
    if !Ready(args, cfg) {
      RefusesRequest(args, cfg, node, now, parse, print_);
    }
    if forall blockhash, slot :: !Snapped(node, cfg, blockhash, slot) {
      RefusesNonce(args, cfg, node, now, parse, print_);
    }
    blockhash, slot :| Snapped(node, cfg, blockhash, slot);
    var recovered := RefusesHistory(args, cfg, node, now, parse, print_, blockhash, slot);
    state := recovered.value;
    m, j := Prepared(args, cfg, node, now, parse, print_, blockhash, slot, state);
  }

  /** Which runs are refused, and as what; any other refusal is a malformed answer. */
  lemma RefusedIff(args: A.Args, cfg: A.Config, node: A.Node, now: nat, parse: Parser, print_: A.Printer)
    ensures var r := A.AttestSpec(args, cfg, node, now, parse, print_);
            && (r == Err(A.ArgsError) <==> BadRequest(args, cfg))
            && (r == Err(A.ConfigError) <==>
                  || (Fits(args, cfg) && (!Bytes(cfg.nonceAccount, 32) || !Bytes(cfg.nonceAuthority, 32)))
                  || (Ready(args, cfg) && Foreign(node, cfg)))
            && (r == Err(A.RpcFailure) <==>
                  Ready(args, cfg) && (Unavailable(node) || Stops(node, cfg, parse, ChainError.Rpc)))
            && (r == Err(A.Rejected) <==>
                  || (Named(args) && !InRange(args, cfg))
                  || (Ready(args, cfg) && Stops(node, cfg, parse, Gap))
                  || TooLarge(args, cfg, node, now, parse, print_))
  {
    Kinds(args);
    if !Ready(args, cfg) {
      RefusesRequest(args, cfg, node, now, parse, print_);
      hide Named, InRange, Happened, Delivered, Independent, Bytes, Snapped, Recovers, Records, Carries, Fails, A.AttestSpec;
    } else {
      hide Named, InRange, Happened, Delivered, Independent, Bytes, Snapped, Attests, A.AttestSpec, Fails, Foreign, Unavailable,
        Stops, TooLarge;
      RefusedReady(args, cfg, node, now, parse, print_);
    }
  }

  lemma RefusedReady(args: A.Args, cfg: A.Config, node: A.Node, now: nat, parse: Parser, print_: A.Printer)
    requires Ready(args, cfg)
    ensures var r := A.AttestSpec(args, cfg, node, now, parse, print_);
            && r != Err(A.ArgsError)
            && (r == Err(A.ConfigError) <==> Foreign(node, cfg))
            && (r == Err(A.RpcFailure) <==> Unavailable(node) || Stops(node, cfg, parse, ChainError.Rpc))
            && (r == Err(A.Rejected) <==> Stops(node, cfg, parse, Gap) || TooLarge(args, cfg, node, now, parse, print_))
  {
    var r := A.AttestSpec(args, cfg, node, now, parse, print_);
    hide Ready, Fits, Snapped, Attests, A.AttestSpec, Fails, Foreign, Unavailable;
    OneNonce(node, cfg);
    if m, j, blockhash, slot, state :|
      Attests(args, cfg, node, now, parse, print_, m, j, blockhash, slot, state) && |M.SerializeSpec(m)| > 1167
    {
      Concludes(args, cfg, node, now, parse, print_, m, j, blockhash, slot, state);
    }
    if blockhash, slot :| Snapped(node, cfg, blockhash, slot) {
      var state := RefusesHistory(args, cfg, node, now, parse, print_, blockhash, slot);
      if state.Some? {
        var m, j := Prepared(args, cfg, node, now, parse, print_, blockhash, slot, state.value);
        Concludes(args, cfg, node, now, parse, print_, m, j, blockhash, slot, state.value);
      }
    } else {
      RefusesNonce(args, cfg, node, now, parse, print_);
    }
  }

  /** There is one snapshot at most, and none if the nonce is foreign or out of reach. */
  lemma OneNonce(node: A.Node, cfg: A.Config)
    ensures forall b, s, b', s' :: Snapped(node, cfg, b, s) && Snapped(node, cfg, b', s') ==> b == b' && s == s'
    ensures forall b, s :: Snapped(node, cfg, b, s) ==> !Foreign(node, cfg) && !Unavailable(node)
    ensures Foreign(node, cfg) ==> !Unavailable(node)
  {
    hide Base58.DecodeSpec, Holds;
    if node.account.Ok? && Bytes(cfg.nonceAuthority, 32) {
      var info, own := node.account.value, KeyBytes(cfg.nonceAuthority);
      forall a, b, s, a', b', s' | Holds(info, a, b, s) && Holds(info, a', b', s')
        ensures a == a' && b == b' && s == s' && info.account.Some?
      {
        OneHolder(info, a, b, s, a', b', s');
      }
    }
  }

  // ---- What is read back -------------------------------------------------------------------

  /** Parsing undoes printing, but for the digits that the printer gives a fractional number. */
  predicate Reread(parse: Parser, print_: A.Printer, digits: real -> real, j: Json) {
    && j.Obj? && parse(print_(j)).Some? && parse(print_(j)).value.Obj?
    && parse(print_(j)).value.fields.Keys == j.fields.Keys
    && forall k :: k in j.fields ==>
         parse(print_(j)).value.fields[k] == if j.fields[k].Float? then Float(digits(j.fields[k].x)) else j.fields[k]
  }

  lemma Reads(parse: Parser, print_: A.Printer, digits: real -> real, j: Json, key: string, value: Json)
    requires Reread(parse, print_, digits, j) && Has(j, key, value)
    ensures Has(parse(print_(j)).value, key, if value.Float? then Float(digits(value.x)) else value)
  {
  }

  /** A record is read back as it was written. */
  lemma RereadRecord(parse: Parser, print_: A.Printer, digits: real -> real, j: Json, args: A.Args, cfg: A.Config,
                     n: nat, prev: Option<string>, now: nat)
    requires Records(j, args, cfg, n, prev, now) && Reread(parse, print_, digits, j)
    ensures var k := parse(print_(j)).value;
            && Numbered(k, cfg, n, prev, now)
            && (Wants(args, "reading") ==>
                  && args.metric.Some? && Has(k, "metric", Str(args.metric.value))
                  && args.value.Some? && args.value.value.Finite? && Has(k, "val", Float(digits(args.value.value.x))))
            && (Wants(args, "event") ==> Reports(k, args))
            && (!Wants(args, "reading") && !Wants(args, "event") ==> Delivers(k, args))
  {
    KindsApart();
    Reads(parse, print_, digits, j, "v", UInt(1));
    Reads(parse, print_, digits, j, "dev", Str(cfg.deviceId));
    Reads(parse, print_, digits, j, "seq", UInt(n));
    Reads(parse, print_, digits, j, "ts", UInt(now));
    Reads(parse, print_, digits, j, "prev", if prev.Some? then Str(prev.value) else Null);
    if Wants(args, "reading") {
      Reads(parse, print_, digits, j, "metric", Str(args.metric.value));
      Reads(parse, print_, digits, j, "val", Float(args.value.value.x));
    } else {
      if args.item.Some? {
        ReadsText(parse, print_, digits, j, "item", args.item.value);
      }
      if args.paymentSig.Some? {
        ReadsText(parse, print_, digits, j, "payment_sig", args.paymentSig.value);
      }
      if Wants(args, "event") {
        Reads(parse, print_, digits, j, "event", Str(args.event.value));
      } else {
        Reads(parse, print_, digits, j, "tag", Str("PKFUL1"));
        Reads(parse, print_, digits, j, "ref", Str(args.reference.value));
      }
    }
    hide Has;
  }

  lemma ReadsText(parse: Parser, print_: A.Printer, digits: real -> real, j: Json, key: string, text: string)
    requires Reread(parse, print_, digits, j)
    ensures Has(j, key, Str(text)) ==> Has(parse(print_(j)).value, key, Str(text))
  {
  }

  /**
   * What a successful run puts on chain: its message's last instruction carries one text, and whoever parses that text
   * finds the device, the recovered number and predecessor, the time of the run, and the very measurement, event or
   * delivery of the request. A measurement is in the operator's range for its metric.
   */
  lemma RecordIsTrue(args: A.Args, cfg: A.Config, node: A.Node, now: nat, parse: Parser, print_: A.Printer, digits: real -> real)
    returns (j: Json, state: ChainState)
    requires A.AttestSpec(args, cfg, node, now, parse, print_).Ok?
    ensures HoldsLast(A.AttestSpec(args, cfg, node, now, parse, print_).value.message, print_(j))
    ensures A.AttestSpec(args, cfg, node, now, parse, print_).value.seq_ == state.seq_
    ensures Reread(parse, print_, digits, j) ==>
              var k := parse(print_(j)).value;
              && Numbered(k, cfg, state.seq_, state.prev, now)
              && (Wants(args, "reading") ==>
                    && InRange(args, cfg) && Has(k, "metric", Str(args.metric.value))
                    && Has(k, "val", Float(digits(args.value.value.x))))
              && (Wants(args, "event") ==> Reports(k, args))
              && (Wants(args, "fulfillment") ==> Delivers(k, args))
  {
    var m, record, blockhash, slot, s := Succeeds(args, cfg, node, now, parse, print_);
    j, state := record, s;
    Concludes(args, cfg, node, now, parse, print_, m, j, blockhash, slot, state);
    LastIsMemo(args, cfg, node, now, parse, print_, m, j, blockhash, slot, state);
    Ranged(args, cfg);
    hide A.AttestSpec, Ready, Carries, C.CompileSpec, M.SerializeSpec, Base64.EncodeSpec, HoldsLast, Reread, Has, Numbered, Reports,
      Delivers, Records, Wants, Snapped, Recovers, InRange;
    if Reread(parse, print_, digits, j) {
      RereadRecord(parse, print_, digits, j, args, cfg, state.seq_, state.prev, now);
    }
  }

  lemma Ranged(args: A.Args, cfg: A.Config)
    ensures Ready(args, cfg) && Wants(args, "reading") ==> InRange(args, cfg)
    ensures InRange(args, cfg) ==> args.metric.Some? && args.value.Some? && args.value.value.Finite?
    ensures Wants(args, "fulfillment") ==> !Wants(args, "reading") && !Wants(args, "event")
  {
    KindsApart();
    hide Bytes, Independent;
  }

  /** The second and last instruction of the message gives this text to the memo program. */
  predicate HoldsLast(m: M.Message, memo: Text) {
    && |m.instructions| == 2 && m.instructions[1].programIdIndex < |m.accountKeys|
    && Base58.DecodeSpec(MEMO) == Some(m.accountKeys[m.instructions[1].programIdIndex])
    && |m.instructions[1].data| == |memo| && forall i :: 0 <= i < |memo| ==> m.instructions[1].data[i] == memo[i] as int
  }

  lemma MemoIsLast(nonce: M.Key, authority: M.Key, reference: Option<M.Key>, memo: Text, blockhash: M.Key)
    ensures HoldsLast(C.CompileSpec(A.Instructions(nonce, authority, reference, memo), authority, blockhash), memo)
  {
    FixedKeys();
    Landing.BuiltShape(nonce, authority, reference, memo, blockhash);
    var m := Landing.Built(nonce, authority, reference, memo, blockhash);
    assert C.Resolves(m.accountKeys, m.instructions[1], A.MemoInstruction(memo));
    hide C.CompileSpec, Base58.DecodeSpec, Keys.MemoProgramKey, Keys.RecentBlockhashesKey, C.Distinct, Landing.KeySet, C.SignerAt,
      C.WritableAt, A.AdvanceNonce;
  }

  lemma LastIsMemo(args: A.Args, cfg: A.Config, node: A.Node, now: nat, parse: Parser, print_: A.Printer,
                   m: M.Message, j: Json, blockhash: M.Key, slot: nat, state: ChainState)
    requires Attests(args, cfg, node, now, parse, print_, m, j, blockhash, slot, state)
    ensures HoldsLast(m, print_(j))
  {
    AttachedIs(args, cfg);
    hide Fits, Independent, Snapped, Recovers, Records, Delivered, Wants, C.CompileSpec, Base58.DecodeSpec, HoldsLast;
    CarriesIff(m, args, cfg, print_(j), blockhash);
    MemoIsLast(KeyBytes(cfg.nonceAccount), KeyBytes(cfg.nonceAuthority), Attached(args), print_(j), blockhash);
  }
}
