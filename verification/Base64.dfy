/** crates/kiosk-core/src/b64.rs: padded base64 (RFC 4648, sections 3.5 and 4). */
module Base64 {
  import opened Wrappers

  const ALPHABET: string :=
    "ABCDEFGHIJKLM" + "NOPQRSTUVWXYZ" + "abcdefghijklm" + "nopqrstuvwxyz" + "0123456789+/"

  /** `sextet`: the value of one symbol. */
  function Sextet(c: char): (v: Option<nat>)
    ensures v.Some? ==> v.value < 64
    ensures c == '=' ==> v.None?
  {
    if 'A' <= c <= 'Z' then Some(c as int - 'A' as int)
    else if 'a' <= c <= 'z' then Some(c as int - 'a' as int + 26)
    else if '0' <= c <= '9' then Some(c as int - '0' as int + 52)
    else if c == '+' then Some(62)
    else if c == '/' then Some(63)
    else None
  }

  function Symbol(v: nat): (c: char)
    requires v < 64
    ensures c != '='
    ensures Sextet(c) == Some(v)
  {
    if v < 26 then 'A' + v as char
    else if v < 52 then 'a' + (v - 26) as char
    else if v < 62 then '0' + (v - 52) as char
    else if v == 62 then '+' else '/'
  }

  lemma SymbolOfSextet(c: char)
    requires Sextet(c).Some?
    ensures Symbol(Sextet(c).value) == c
  {
  }

  /** The symbols, in alphabet order. */
  lemma SymbolIsAlphabet(v: nat)
    requires v < 64
    ensures ALPHABET[v] == Symbol(v)
  {
    if v < 13 {
      assert ALPHABET[v] == "ABCDEFGHIJKLM"[v];
    } else if v < 26 {
      assert ALPHABET[v] == "NOPQRSTUVWXYZ"[v - 13];
    } else if v < 39 {
      assert ALPHABET[v] == "abcdefghijklm"[v - 26];
    } else if v < 52 {
      assert ALPHABET[v] == "nopqrstuvwxyz"[v - 39];
    } else {
      assert ALPHABET[v] == "0123456789+/"[v - 52];
    }
  }

  function AlphabetAt(v: nat): (c: char)
    requires v < 64
    ensures c == Symbol(v)
  {
    SymbolIsAlphabet(v);
    ALPHABET[v]
  }

  // The 24 bits of a group, cut at byte and at sextet boundaries.

  /** Three bytes cut into four sextets. */
  function Sextets(b0: byte, b1: byte, b2: byte): (q: Quartet)
    ensures q.InRange()
  {
    Quartet(b0 / 4, (b0 % 4) * 16 + b1 / 16, (b1 % 16) * 4 + b2 / 64, b2 % 64)
  }

  /** Four values below 64. */
  datatype Quartet = Quartet(v0: nat, v1: nat, v2: nat, v3: nat) {
    predicate InRange() {
      v0 < 64 && v1 < 64 && v2 < 64 && v3 < 64
    }

    function Byte0(): byte
      requires InRange()
    {
      v0 * 4 + v1 / 16
    }

    function Byte1(): byte
      requires InRange()
    {
      (v1 % 16) * 16 + v2 / 4
    }

    function Byte2(): byte
      requires InRange()
    {
      (v2 % 4) * 64 + v3
    }
  }

  /** Cutting bytes into sextets and back loses nothing. */
  lemma BytesOfSextets(b0: byte, b1: byte, b2: byte)
    ensures var q := Sextets(b0, b1, b2);
            q.Byte0() == b0 && q.Byte1() == b1 && q.Byte2() == b2
    ensures b2 == 0 ==> Sextets(b0, b1, b2).v3 == 0 && Sextets(b0, b1, b2).v2 % 4 == 0
    ensures b1 == 0 && b2 == 0 ==> Sextets(b0, b1, b2).v2 == 0 && Sextets(b0, b1, b2).v1 % 16 == 0
  {
  }

  /** Nor does cutting sextets into bytes and back. */
  lemma SextetsOfBytes(q: Quartet)
    requires q.InRange()
    ensures Sextets(q.Byte0(), q.Byte1(), q.Byte2()) == q
    ensures q.v3 == 0 && q.v2 % 4 == 0 ==> q.Byte2() == 0
    ensures q.v3 == 0 && q.v2 == 0 && q.v1 % 16 == 0 ==> q.Byte1() == 0 && q.Byte2() == 0
  {
  }

  /** The shifts and masks of `encode` on the 24-bit word. */
  lemma WordSextets(b0: byte, b1: byte, b2: byte)
    ensures var n: nat := b0 as int * 65536 + b1 as int * 256 + b2;
            Sextets(b0, b1, b2) == Quartet(n / 262144 % 64, n / 4096 % 64, n / 64 % 64, n % 64)
  {
    var n: nat := b0 as int * 65536 + b1 as int * 256 + b2;
    var q := Sextets(b0, b1, b2);
    Cut6(q.v0, q.v1, q.v2, q.v3);
    assert n == q.v0 * 262144 + q.v1 * 4096 + q.v2 * 64 + q.v3;
  }

  lemma Cut6(v0: nat, v1: nat, v2: nat, v3: nat)
    requires v0 < 64 && v1 < 64 && v2 < 64 && v3 < 64
    ensures var n := v0 * 262144 + v1 * 4096 + v2 * 64 + v3;
            n / 262144 % 64 == v0 && n / 4096 % 64 == v1 && n / 64 % 64 == v2 && n % 64 == v3
  {
    var n := v0 * 262144 + v1 * 4096 + v2 * 64 + v3;
    assert n / 64 == v0 * 4096 + v1 * 64 + v2;
    assert n / 4096 == v0 * 64 + v1;
    assert n / 262144 == v0;
  }

  lemma Cut8(b0: nat, b1: nat, b2: nat)
    requires b0 < 256 && b1 < 256 && b2 < 256
    ensures var n := b0 * 65536 + b1 * 256 + b2;
            n / 65536 % 256 == b0 && n / 256 % 256 == b1 && n % 256 == b2
  {
    var n := b0 * 65536 + b1 * 256 + b2;
    assert n / 256 == b0 * 256 + b1;
    assert n / 65536 == b0;
  }

  /** The shifts of `decode` on the 24-bit word; the casts to u8 keep the low byte. */
  lemma WordBytes(q: Quartet)
    requires q.InRange()
    ensures var n := q.v0 * 262144 + q.v1 * 4096 + q.v2 * 64 + q.v3;
            n / 65536 % 256 == q.Byte0() && n / 256 % 256 == q.Byte1() && n % 256 == q.Byte2()
  {
    var n := q.v0 * 262144 + q.v1 * 4096 + q.v2 * 64 + q.v3;
    var b0: int, b1: int, b2: int := q.Byte0(), q.Byte1(), q.Byte2();
    Cut8(b0, b1, b2);
    assert n == b0 * 65536 + b1 * 256 + b2;
  }

  /** The sextets of one to three bytes, missing bytes being zero. */
  function SextetsOf(g: seq<byte>): (q: Quartet)
    requires 1 <= |g| <= 3
    ensures q.InRange()
  {
    Sextets(g[0], if |g| > 1 then g[1] else 0, if |g| > 2 then g[2] else 0)
  }

  /** Four symbols, the last `pad` of them printed as `=`. */
  function Print(q: Quartet, pad: nat): (s: string)
    requires q.InRange()
    ensures |s| == 4
  {
    [Symbol(q.v0), Symbol(q.v1), if pad < 2 then Symbol(q.v2) else '=', if pad < 1 then Symbol(q.v3) else '=']
  }

  function EncodeGroup(g: seq<byte>): (s: string)
    requires 1 <= |g| <= 3
    ensures |s| == 4
  {
    Print(SextetsOf(g), 3 - |g|)
  }

  function EncodeSpec(input: seq<byte>): string {
    if input == [] then ""
    else if |input| <= 3 then EncodeGroup(input)
    else EncodeGroup(input[..3]) + EncodeSpec(input[3..])
  }

  /** The 24-bit word of a chunk spells its group. */
  lemma GroupOf(chunk: seq<byte>, b0: byte, b1: byte, b2: byte, n: nat)
    requires 1 <= |chunk| <= 3 && b0 == chunk[0]
    requires b1 == (if |chunk| > 1 then chunk[1] else 0) && b2 == (if |chunk| > 2 then chunk[2] else 0)
    requires n == b0 as int * 65536 + b1 as int * 256 + b2
    ensures EncodeGroup(chunk) ==
            [Symbol(n / 262144 % 64), Symbol(n / 4096 % 64), if |chunk| > 1 then Symbol(n / 64 % 64) else '=',
             if |chunk| > 2 then Symbol(n % 64) else '=']
  {
    hide Symbol, Sextets;
    WordSextets(b0, b1, b2);
    var v0, v1, v2, v3 := n / 262144 % 64, n / 4096 % 64, n / 64 % 64, n % 64;
    assert SextetsOf(chunk) == Quartet(v0, v1, v2, v3);
  }

  /** The body of the encoding loop, on the 24-bit word of one chunk. */
  method EncodeChunk(chunk: seq<byte>) returns (group: string)
    requires 1 <= |chunk| <= 3
    ensures group == EncodeGroup(chunk)
  {
    var b0, b1, b2 := chunk[0], if |chunk| > 1 then chunk[1] else 0, if |chunk| > 2 then chunk[2] else 0;
    var n: nat := b0 as int * 65536 + b1 as int * 256 + b2;
    GroupOf(chunk, b0, b1, b2, n);
    hide Symbol, AlphabetAt, EncodeGroup;
    group := [AlphabetAt(n / 262144 % 64), AlphabetAt(n / 4096 % 64)];
    group := group + [if |chunk| > 1 then AlphabetAt(n / 64 % 64) else '='];
    group := group + [if |chunk| > 2 then AlphabetAt(n % 64) else '='];
  }

  method Encode(input: seq<byte>) returns (out: string)
    ensures out == EncodeSpec(input)
  {
    hide EncodeGroup;
    out := "";
    var i := 0;
    assert input[0..] == input;
    while i < |input|
      invariant 0 <= i <= |input|
      invariant EncodeSpec(input) == out + EncodeSpec(input[i..])
    {
      var chunk := if |input| - i <= 3 then input[i..] else input[i..i + 3];
      ghost var rest := input[i..];
      assert |rest| > 3 ==> rest[..3] == chunk && rest[3..] == input[i + 3..];
      var group := EncodeChunk(chunk);
      out := out + group;
      i := i + |chunk|;
      assert i == |input| ==> input[i..] == [];
    }
  }

  /** How many `=` end a group of four, if padding is only at its end and at most two. */
  function Padding(c: string): (pad: Option<nat>)
    requires |c| == 4
    ensures pad.Some? ==> pad.value <= 2
  {
    if c[0] == '=' || c[1] == '=' then None
    else if c[2] == '=' then (if c[3] == '=' then Some(2) else None)
    else Some(if c[3] == '=' then 1 else 0)
  }

  /** The values of a group's symbols, `=` counting as zero. */
  function ReadQuartet(c: string): (q: Option<Quartet>)
    requires |c| == 4
    ensures q.Some? ==> q.value.InRange()
  {
    var pad := Padding(c);
    if pad.None? then None else
    var v0, v1 := Sextet(c[0]), Sextet(c[1]);
    var v2 := if pad.value > 1 then Some(0) else Sextet(c[2]);
    var v3 := if pad.value > 0 then Some(0) else Sextet(c[3]);
    if v0.None? || v1.None? || v2.None? || v3.None? then None
    else Some(Quartet(v0.value, v1.value, v2.value, v3.value))
  }

  /** The bits that padding leaves unused are zero. */
  predicate CleanTail(q: Quartet, pad: nat) {
    (pad == 2 ==> q.v1 % 16 == 0) && (pad == 1 ==> q.v2 % 4 == 0)
  }

  /** The leading `3 - pad` bytes. */
  function Unpack(q: Quartet, pad: nat): seq<byte>
    requires q.InRange() && pad <= 2
  {
    [q.Byte0(), q.Byte1(), q.Byte2()][..3 - pad]
  }

  /** Bytes of one group of four symbols; only the last group may be padded. */
  function DecodeGroup(c: string, last: bool): Option<seq<byte>>
    requires |c| == 4
  {
    var pad, q := Padding(c), ReadQuartet(c);
    if q.None? || (pad.value > 0 && !last) || !CleanTail(q.value, pad.value) then None
    else Some(Unpack(q.value, pad.value))
  }

  function DecodeSpec(input: string): Option<seq<byte>> {
    if input == "" then Some([])
    else if |input| < 4 then None
    else
      var head := DecodeGroup(input[..4], |input| == 4);
      var tail := DecodeSpec(input[4..]);
      if head.None? || tail.None? then None else Some(head.value + tail.value)
  }

  method Decode(input: string) returns (out: Option<seq<byte>>)
    ensures out == DecodeSpec(input)
  {
    hide DecodeGroup;
    if |input| % 4 != 0 {
      BadLength(input);
      return None;
    }
    var bytes: seq<byte> := [];
    var i := 0;
    DecodeStart(input);
    while i < |input|
      invariant 0 <= i <= |input| && i % 4 == 0
      invariant DecodeSpec(input) == Prefixed(bytes, DecodeSpec(input[i..]))
    {
      var group := DecodeQuartet(input[i..i + 4], i + 4 == |input|);
      DecodeStep(input, i, bytes);
      if group.None? {
        return None;
      }
      bytes := bytes + group.value;
      i := i + 4;
    }
    DecodeEnd(input, i, bytes);
    return Some(bytes);
  }

  lemma DecodeStart(input: string)
    ensures DecodeSpec(input) == Prefixed([], DecodeSpec(input[0..]))
  {
    assert input[0..] == input;
    var tail := DecodeSpec(input);
    assert tail.Some? ==> [] + tail.value == tail.value;
  }

  lemma DecodeEnd(input: string, i: nat, bytes: seq<byte>)
    requires i == |input|
    ensures Prefixed(bytes, DecodeSpec(input[i..])) == Some(bytes)
  {
    assert input[i..] == "" && bytes + [] == bytes;
  }

  /** The body of the decoding loop: collect four values, count the padding, check the unused bits. */
  method DecodeQuartet(chunk: string, last: bool) returns (out: Option<seq<byte>>)
    requires |chunk| == 4
    ensures out == DecodeGroup(chunk, last)
  {
    var vals: seq<nat> := [0, 0, 0, 0];
    var pad := 0;
    for k := 0 to 4
      invariant |vals| == 4 && GroupSoFar(chunk, k, pad, vals)
    {
      if chunk[k] == '=' {
        if k < 2 {
          return None;
        }
        pad := pad + 1;
        vals := vals[k := 0];
      } else {
        if pad > 0 {
          return None;
        }
        match Sextet(chunk[k])
        case None => return None;
        case Some(v) => vals := vals[k := v];
      }
    }
    GroupDone(chunk, pad, vals);
    if pad > 0 && !last {
      return None;
    }
    if (pad == 2 && vals[1] % 16 != 0) || (pad == 1 && vals[2] % 4 != 0) {
      return None;
    }
    var bytes := EmitBytes(vals, pad);
    out := Some(bytes);
  }

  method EmitBytes(vals: seq<nat>, pad: nat) returns (bytes: seq<byte>)
    requires |vals| == 4 && pad <= 2
    requires Quartet(vals[0], vals[1], vals[2], vals[3]).InRange()
    ensures bytes == Unpack(Quartet(vals[0], vals[1], vals[2], vals[3]), pad)
  {
    WordBytes(Quartet(vals[0], vals[1], vals[2], vals[3]));
    var n := vals[0] * 262144 + vals[1] * 4096 + vals[2] * 64 + vals[3];
    bytes := [n / 65536 % 256];
    if pad < 2 {
      bytes := bytes + [n / 256 % 256];
    }
    if pad < 1 {
      bytes := bytes + [n % 256];
    }
  }

  lemma DecodeStep(input: string, i: nat, bytes: seq<byte>)
    requires i + 4 <= |input|
    ensures Prefixed(bytes, DecodeSpec(input[i..])) ==
            var head := DecodeGroup(input[i..i + 4], i + 4 == |input|);
            if head.None? then None else Prefixed(bytes + head.value, DecodeSpec(input[i + 4..]))
  {
    var rest := input[i..];
    assert rest[..4] == input[i..i + 4] && rest[4..] == input[i + 4..];
    var head, tail := DecodeGroup(rest[..4], |rest| == 4), DecodeSpec(rest[4..]);
    assert head.Some? && tail.Some? ==> bytes + (head.value + tail.value) == (bytes + head.value) + tail.value;
  }

  function Prefixed(head: seq<byte>, tail: Option<seq<byte>>): Option<seq<byte>> {
    if tail.None? then None else Some(head + tail.value)
  }

  /** The inner loop's state after `k` symbols of a group. */
  predicate GroupSoFar(chunk: string, k: nat, pad: nat, vals: seq<nat>)
    requires |chunk| == 4 && |vals| == 4 && k <= 4
  {
    && pad <= k
    && (forall j :: 0 <= j < k - pad ==> Sextet(chunk[j]) == Some(vals[j]))
    && (forall j :: k - pad <= j < k ==> j >= 2 && chunk[j] == '=' && vals[j] == 0)
  }

  /** What the inner loop collected is the quartet. */
  lemma GroupDone(chunk: string, pad: nat, vals: seq<nat>)
    requires |chunk| == 4 && |vals| == 4 && GroupSoFar(chunk, 4, pad, vals)
    ensures Padding(chunk) == Some(pad)
    ensures ReadQuartet(chunk) == Some(Quartet(vals[0], vals[1], vals[2], vals[3]))
  {
  }

  lemma {:induction false} BadLength(input: string)
    requires |input| % 4 != 0
    ensures DecodeSpec(input).None?
  {
    if |input| >= 4 {
      BadLength(input[4..]);
    }
  }

  /** The values hidden by padding are zero. */
  predicate HiddenZero(q: Quartet, pad: nat) {
    (pad > 0 ==> q.v3 == 0) && (pad > 1 ==> q.v2 == 0)
  }

  lemma ReadOfPrint(q: Quartet, pad: nat)
    requires q.InRange() && pad <= 2 && HiddenZero(q, pad)
    ensures Padding(Print(q, pad)) == Some(pad) && ReadQuartet(Print(q, pad)) == Some(q)
  {
  }

  lemma PrintOfRead(c: string)
    requires |c| == 4 && ReadQuartet(c).Some?
    ensures HiddenZero(ReadQuartet(c).value, Padding(c).value)
    ensures Print(ReadQuartet(c).value, Padding(c).value) == c
  {
    forall i | 0 <= i < 4 && c[i] != '=' ensures Symbol(Sextet(c[i]).value) == c[i] {
      SymbolOfSextet(c[i]);
    }
  }

  lemma UnpackOfSextets(g: seq<byte>)
    requires 1 <= |g| <= 3
    ensures var q, pad := SextetsOf(g), 3 - |g|;
            HiddenZero(q, pad) && CleanTail(q, pad) && Unpack(q, pad) == g
  {
    BytesOfSextets(g[0], if |g| > 1 then g[1] else 0, if |g| > 2 then g[2] else 0);
  }

  lemma SextetsOfUnpack(q: Quartet, pad: nat)
    requires q.InRange() && pad <= 2 && HiddenZero(q, pad) && CleanTail(q, pad)
    ensures SextetsOf(Unpack(q, pad)) == q
  {
    SextetsOfBytes(q);
  }

  lemma DecodeOfEncodeGroup(g: seq<byte>, last: bool)
    requires 1 <= |g| <= 3 && (last || |g| == 3)
    ensures DecodeGroup(EncodeGroup(g), last) == Some(g)
  {
    UnpackOfSextets(g);
    ReadOfPrint(SextetsOf(g), 3 - |g|);
  }

  lemma EncodeOfDecodeGroup(c: string, last: bool)
    requires |c| == 4 && DecodeGroup(c, last).Some?
    ensures 1 <= |DecodeGroup(c, last).value| <= 3 && (!last ==> |DecodeGroup(c, last).value| == 3)
    ensures EncodeGroup(DecodeGroup(c, last).value) == c
  {
    PrintOfRead(c);
    SextetsOfUnpack(ReadQuartet(c).value, Padding(c).value);
  }

  /** Decoding inverts encoding on every byte string. */
  lemma {:induction false} DecodeOfEncode(input: seq<byte>)
    ensures DecodeSpec(EncodeSpec(input)) == Some(input)
  {
    hide EncodeGroup, DecodeGroup;
    if 0 < |input| <= 3 {
      DecodeOfEncodeGroup(input, true);
      DecodeCons(EncodeGroup(input), "");
      assert EncodeGroup(input) + "" == EncodeGroup(input) && input + [] == input;
    } else if |input| > 3 {
      DecodeOfEncodeGroup(input[..3], false);
      DecodeOfEncode(input[3..]);
      DecodeCons(EncodeGroup(input[..3]), EncodeSpec(input[3..]));
      assert EncodeSpec(input[3..]) != "" && input[..3] + input[3..] == input;
    }
  }

  lemma DecodeCons(c: string, rest: string)
    requires |c| == 4
    ensures DecodeSpec(c + rest) ==
            var head, tail := DecodeGroup(c, rest == ""), DecodeSpec(rest);
            if head.None? || tail.None? then None else Some(head.value + tail.value)
  {
    assert (c + rest)[..4] == c && (c + rest)[4..] == rest;
  }

  /** Every accepted string is the encoding of what it decodes to: no second spelling is accepted. */
  lemma {:induction false} EncodeOfDecode(input: string)
    requires DecodeSpec(input).Some?
    ensures EncodeSpec(DecodeSpec(input).value) == input
  {
    if input != "" {
      var last := |input| == 4;
      var head := DecodeGroup(input[..4], last).value;
      var tail := DecodeSpec(input[4..]).value;
      EncodeOfDecodeGroup(input[..4], last);
      EncodeOfDecode(input[4..]);
      if !last {
        assert (head + tail)[..3] == head && (head + tail)[3..] == tail;
        assert tail != [];
      } else {
        assert input[4..] == "" && head + tail == head;
      }
    }
  }
}
