/** crates/kiosk-core/src/{memo,msg}.rs: the instruction model and the legacy message wire format. */
module Message {
  import opened Wrappers
  import Shortvec
  import Base64

  /** A 32-byte public key or blockhash. */
  type Key = k: seq<byte> | |k| == 32 witness seq(32, _ => 0)

  datatype AccountMeta = AccountMeta(pubkey: Key, isSigner: bool, isWritable: bool)

  /** An instruction before compilation: real keys, not indices. */
  datatype Instruction = Instruction(programId: Key, accounts: seq<AccountMeta>, data: seq<byte>)

  datatype Header = Header(numRequiredSignatures: byte, numReadonlySigned: byte, numReadonlyUnsigned: byte)

  datatype CompiledInstruction = CompiledInstruction(programIdIndex: byte, accounts: seq<byte>, data: seq<byte>)

  datatype Message = Message(
    header: Header,
    accountKeys: seq<Key>,
    recentBlockhash: Key,
    instructions: seq<CompiledInstruction>)

  // ---- Writing -----------------------------------------------------------------------------

  /** `shortvec::encode_len(n as u16)`: the cast keeps the low 16 bits. */
  function LenSpec(n: nat): seq<byte> {
    Shortvec.EncodeSpec(n % 0x1_0000)
  }

  /** A length is written as a u16: what does not fit is cut. */
  lemma LengthsWrap(n: nat)
    ensures LenSpec(n) == if n < 65_536 then Shortvec.EncodeSpec(n) else LenSpec(n - 65_536)
  {
    if n >= 0x1_0000 {
      assert n % 0x1_0000 == (n - 0x1_0000) % 0x1_0000;
    }
  }

  function KeysSpec(keys: seq<Key>): seq<byte> {
    if keys == [] then [] else KeysSpec(keys[..|keys| - 1]) + keys[|keys| - 1]
  }

  function InstructionSpec(ci: CompiledInstruction): seq<byte> {
    [ci.programIdIndex] + LenSpec(|ci.accounts|) + ci.accounts + LenSpec(|ci.data|) + ci.data
  }

  function InstructionsSpec(cis: seq<CompiledInstruction>): seq<byte> {
    if cis == [] then [] else InstructionsSpec(cis[..|cis| - 1]) + InstructionSpec(cis[|cis| - 1])
  }

  function SerializeSpec(m: Message): seq<byte> {
    [m.header.numRequiredSignatures, m.header.numReadonlySigned, m.header.numReadonlyUnsigned]
    + LenSpec(|m.accountKeys|) + KeysSpec(m.accountKeys)
    + m.recentBlockhash
    + LenSpec(|m.instructions|) + InstructionsSpec(m.instructions)
  }

  method Serialize(m: Message) returns (out: seq<byte>)
    ensures out == SerializeSpec(m)
  {
    hide InstructionsSpec, KeysSpec;
    out := [m.header.numRequiredSignatures];
    out := out + [m.header.numReadonlySigned];
    out := out + [m.header.numReadonlyUnsigned];
    var len := Shortvec.EncodeLen(|m.accountKeys| % 0x1_0000);
    out := out + len;
    out := AppendKeys(out, m.accountKeys);
    out := out + m.recentBlockhash;
    len := Shortvec.EncodeLen(|m.instructions| % 0x1_0000);
    out := out + len;
    out := AppendInstructions(out, m.instructions);
  }

  method AppendKeys(before: seq<byte>, keys: seq<Key>) returns (out: seq<byte>)
    ensures out == before + KeysSpec(keys)
  {
    out := before;
    for i := 0 to |keys|
      invariant out == before + KeysSpec(keys[..i])
    {
      assert keys[..i + 1][..i] == keys[..i];
      out := out + keys[i];
    }
    assert keys[..|keys|] == keys;
  }

  method AppendInstructions(before: seq<byte>, cis: seq<CompiledInstruction>) returns (out: seq<byte>)
    ensures out == before + InstructionsSpec(cis)
  {
    hide InstructionSpec;
    out := before;
    for i := 0 to |cis|
      invariant out == before + InstructionsSpec(cis[..i])
    {
      assert cis[..i + 1][..i] == cis[..i];
      out := AppendInstruction(out, cis[i]);
    }
    assert cis[..|cis|] == cis;
  }

  method AppendInstruction(before: seq<byte>, ci: CompiledInstruction) returns (out: seq<byte>)
    ensures out == before + InstructionSpec(ci)
  {
    out := before + [ci.programIdIndex];
    var len := Shortvec.EncodeLen(|ci.accounts| % 0x1_0000);
    out := out + len;
    out := out + ci.accounts;
    len := Shortvec.EncodeLen(|ci.data| % 0x1_0000);
    out := out + len;
    out := out + ci.data;
  }

  // ---- Reading -----------------------------------------------------------------------------

  /** A value read from the front of a byte string, and the bytes after it. */
  datatype Read<+T> = Read(value: T, rest: seq<byte>)

  function ReadLen(bs: seq<byte>): Option<Read<nat>> {
    match Shortvec.DecodeSpec(bs)
    case None => None
    case Some(l) => if l.consumed <= |bs| then Some(Read(l.value, bs[l.consumed..])) else None
  }

  function ReadBytes(bs: seq<byte>, n: nat): Option<Read<seq<byte>>> {
    if n <= |bs| then Some(Read(bs[..n], bs[n..])) else None
  }

  /** A length-prefixed byte string. */
  function ReadVec(bs: seq<byte>): Option<Read<seq<byte>>> {
    match ReadLen(bs)
    case None => None
    case Some(n) => ReadBytes(n.rest, n.value)
  }

  function ReadKeys(bs: seq<byte>, n: nat): Option<Read<seq<Key>>> {
    if n == 0 then Some(Read([], bs))
    else if |bs| < 32 then None
    else match ReadKeys(bs[32..], n - 1)
      case None => None
      case Some(ks) => Some(Read([bs[..32]] + ks.value, ks.rest))
  }

  function ReadInstruction(bs: seq<byte>): Option<Read<CompiledInstruction>> {
    if bs == [] then None
    else match ReadVec(bs[1..])
      case None => None
      case Some(accounts) =>
        match ReadVec(accounts.rest)
        case None => None
        case Some(data) => Some(Read(CompiledInstruction(bs[0], accounts.value, data.value), data.rest))
  }

  function ReadInstructions(bs: seq<byte>, n: nat): Option<Read<seq<CompiledInstruction>>>
    decreases n
  {
    if n == 0 then Some(Read([], bs))
    else match ReadInstruction(bs)
      case None => None
      case Some(ci) =>
        match ReadInstructions(ci.rest, n - 1)
        case None => None
        case Some(cis) => Some(Read([ci.value] + cis.value, cis.rest))
  }

  /** A reader of the wire layout, built on `decode_len`. */
  function ReadMessage(bs: seq<byte>): Option<Read<Message>> {
    if |bs| < 3 then None else
    var header := Header(bs[0], bs[1], bs[2]);
    match ReadLen(bs[3..])
    case None => None
    case Some(nk) =>
      match ReadKeys(nk.rest, nk.value)
      case None => None
      case Some(keys) =>
        if |keys.rest| < 32 then None else
        match ReadLen(keys.rest[32..])
        case None => None
        case Some(ni) =>
          match ReadInstructions(ni.rest, ni.value)
          case None => None
          case Some(cis) => Some(Read(Message(header, keys.value, keys.rest[..32], cis.value), cis.rest))
  }

  // ---- Round trip --------------------------------------------------------------------------

  predicate FitsU16(ci: CompiledInstruction) {
    |ci.accounts| <= U16_MAX && |ci.data| <= U16_MAX
  }

  /** No length is cut by its cast to u16. */
  predicate LengthsFit(m: Message) {
    && |m.accountKeys| <= U16_MAX
    && |m.instructions| <= U16_MAX
    && forall i :: 0 <= i < |m.instructions| ==> FitsU16(m.instructions[i])
  }

  lemma ReadLenBack(n: nat, rest: seq<byte>)
    requires n <= U16_MAX
    ensures ReadLen(LenSpec(n) + rest) == Some(Read(n, rest))
  {
    hide Shortvec.DecodeSpec, Shortvec.EncodeSpec;
    Shortvec.DecodeOfEncode(n, rest);
  }

  lemma ReadVecBack(bs: seq<byte>, rest: seq<byte>)
    requires |bs| <= U16_MAX
    ensures ReadVec(LenSpec(|bs|) + bs + rest) == Some(Read(bs, rest))
  {
    hide LenSpec;
    assert LenSpec(|bs|) + bs + rest == LenSpec(|bs|) + (bs + rest);
    ReadLenBack(|bs|, bs + rest);
  }

  lemma ReadInstructionBack(ci: CompiledInstruction, rest: seq<byte>)
    requires FitsU16(ci)
    ensures ReadInstruction(InstructionSpec(ci) + rest) == Some(Read(ci, rest))
  {
    hide LenSpec, ReadVec;
    var tail := LenSpec(|ci.data|) + ci.data + rest;
    assert (InstructionSpec(ci) + rest)[1..] == LenSpec(|ci.accounts|) + ci.accounts + tail;
    ReadVecBack(ci.accounts, tail);
    ReadVecBack(ci.data, rest);
  }

  lemma Associative(a: seq<byte>, b: seq<byte>, c: seq<byte>)
    ensures a + b + c == a + (b + c)
  {
  }

  lemma {:induction false} KeysSpecCons(keys: seq<Key>)
    requires keys != []
    ensures KeysSpec(keys) == keys[0] + KeysSpec(keys[1..])
  {
    var init, last := keys[..|keys| - 1], keys[|keys| - 1];
    if init == [] {
      assert KeysSpec(keys) == [] + last == keys[0] + [];
    } else {
      KeysSpecCons(init);
      var tail := keys[1..];
      assert tail[..|tail| - 1] == init[1..] && tail[|tail| - 1] == last;
      assert KeysSpec(tail) == KeysSpec(init[1..]) + last;
      hide KeysSpec;
      Associative(keys[0], KeysSpec(init[1..]), last);
    }
  }

  lemma {:induction false} ReadKeysBack(keys: seq<Key>, rest: seq<byte>)
    ensures ReadKeys(KeysSpec(keys) + rest, |keys|) == Some(Read(keys, rest))
  {
    if keys == [] {
      assert [] + rest == rest;
    } else {
      KeysSpecCons(keys);
      var bs := KeysSpec(keys) + rest;
      assert bs[..32] == keys[0] && bs[32..] == KeysSpec(keys[1..]) + rest;
      ReadKeysBack(keys[1..], rest);
      assert [keys[0]] + keys[1..] == keys;
    }
  }

  lemma {:induction false} InstructionsSpecCons(cis: seq<CompiledInstruction>)
    requires cis != []
    ensures InstructionsSpec(cis) == InstructionSpec(cis[0]) + InstructionsSpec(cis[1..])
  {
    hide InstructionSpec;
    var init, last := cis[..|cis| - 1], InstructionSpec(cis[|cis| - 1]);
    if init == [] {
      assert InstructionsSpec(cis) == [] + last == InstructionSpec(cis[0]) + [];
    } else {
      InstructionsSpecCons(init);
      var tail := cis[1..];
      assert tail[..|tail| - 1] == init[1..] && tail[|tail| - 1] == cis[|cis| - 1];
      assert InstructionsSpec(tail) == InstructionsSpec(init[1..]) + last;
      hide InstructionsSpec;
      Associative(InstructionSpec(cis[0]), InstructionsSpec(init[1..]), last);
    }
  }

  lemma {:induction false} ReadInstructionsBack(cis: seq<CompiledInstruction>, rest: seq<byte>)
    requires forall i :: 0 <= i < |cis| ==> FitsU16(cis[i])
    ensures ReadInstructions(InstructionsSpec(cis) + rest, |cis|) == Some(Read(cis, rest))
  {
    hide InstructionSpec, ReadInstruction;
    if cis == [] {
      assert [] + rest == rest;
    } else {
      InstructionsSpecCons(cis);
      var tail := InstructionsSpec(cis[1..]) + rest;
      assert InstructionsSpec(cis) + rest == InstructionSpec(cis[0]) + tail;
      ReadInstructionBack(cis[0], tail);
      ReadInstructionsBack(cis[1..], rest);
      assert [cis[0]] + cis[1..] == cis;
    }
  }

  /** Reading what was written gives the message back and leaves exactly what followed it. */
  lemma RoundTrip(m: Message, rest: seq<byte>)
    requires LengthsFit(m)
    ensures ReadMessage(SerializeSpec(m) + rest) == Some(Read(m, rest))
  {
    hide LenSpec, ReadLen, KeysSpec, ReadKeys, InstructionsSpec, ReadInstructions;
    var t3 := InstructionsSpec(m.instructions) + rest;
    var t2 := LenSpec(|m.instructions|) + t3;
    var t1 := KeysSpec(m.accountKeys) + (m.recentBlockhash + t2);
    var bs := SerializeSpec(m) + rest;
    assert bs[3..] == LenSpec(|m.accountKeys|) + t1;
    ReadLenBack(|m.accountKeys|, t1);
    ReadKeysBack(m.accountKeys, m.recentBlockhash + t2);
    assert (m.recentBlockhash + t2)[..32] == m.recentBlockhash && (m.recentBlockhash + t2)[32..] == t2;
    ReadLenBack(|m.instructions|, t3);
    ReadInstructionsBack(m.instructions, rest);
  }

  lemma {:induction false} KeysSize(keys: seq<Key>)
    ensures |KeysSpec(keys)| == 32 * |keys|
  {
    if keys != [] {
      KeysSize(keys[..|keys| - 1]);
    }
  }

  lemma {:induction false} InstructionsSize(cis: seq<CompiledInstruction>, i: nat)
    requires i < |cis|
    ensures |InstructionsSpec(cis)| >= |cis|
    ensures |InstructionsSpec(cis)| >= |cis[i].accounts| + |cis[i].data|
  {
    hide LenSpec;
    var n := |cis| - 1;
    if i < n {
      InstructionsSize(cis[..n], i);
    } else if n > 0 {
      InstructionsSize(cis[..n], 0);
    }
  }

  /** Solana's packet limit, less one signature and its count. */
  const MAX_MESSAGE_BYTES: nat := 1232 - 65

  /** A message that passes the packet gate has no length that its cast to u16 could cut. */
  lemma GateImpliesFit(m: Message)
    requires |SerializeSpec(m)| <= MAX_MESSAGE_BYTES
    ensures LengthsFit(m)
  {
    hide LenSpec, KeysSpec, InstructionsSpec;
    KeysSize(m.accountKeys);
    if m.instructions != [] {
      InstructionsSize(m.instructions, 0);
    }
    forall i | 0 <= i < |m.instructions| ensures FitsU16(m.instructions[i]) {
      InstructionsSize(m.instructions, i);
    }
  }

  /** `to_base64` of any message that passes the gate reads back as that message, to the last byte. */
  lemma ArtifactReadsBack(m: Message)
    requires |SerializeSpec(m)| <= MAX_MESSAGE_BYTES
    ensures var bytes := Base64.DecodeSpec(Base64.EncodeSpec(SerializeSpec(m)));
            bytes.Some? && ReadMessage(bytes.value) == Some(Read(m, []))
  {
    GateImpliesFit(m);
    RoundTrip(m, []);
    Base64.DecodeOfEncode(SerializeSpec(m));
    assert SerializeSpec(m) + [] == SerializeSpec(m);
  }
}
