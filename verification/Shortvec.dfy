/** crates/kiosk-core/src/shortvec.rs: compact-u16 lengths, little-endian groups of seven bits. */
module Shortvec {
  import opened Wrappers

  function EncodeSpec(n: nat): (bs: seq<byte>)
    ensures |bs| >= 1
  {
    if n < 128 then [n] else [n % 128 + 128] + EncodeSpec(n / 128)
  }

  method EncodeLen(n0: nat) returns (out: seq<byte>)
    requires n0 <= U16_MAX
    ensures out == EncodeSpec(n0)
  {
    out := [];
    var n := n0;
    while true
      invariant EncodeSpec(n0) == out + EncodeSpec(n)
      decreases n
    {
      var b: byte := n % 128;
      var before := n;
      n := n / 128;
      if n != 0 {
        b := b + 128;
      }
      assert EncodeSpec(before) == [b] + if n == 0 then [] else EncodeSpec(n);
      out := out + [b];
      if n == 0 {
        assert out + [] == out;
        return;
      }
    }
  }

  /** A length and how many bytes it took. */
  datatype Length = Length(value: nat, consumed: nat)

  function Weight(i: nat): (w: nat)
    requires i < 3
    ensures w == if i == 0 then 1 else if i == 1 then 128 else 16384
  {
    if i == 0 then 1 else if i == 1 then 128 else 16384
  }

  function DecodeFrom(bytes: seq<byte>, i: nat, value: nat): Option<Length>
    requires i <= 3
    decreases 3 - i
  {
    if i == 3 || i >= |bytes| then None
    else
      var v: nat := value + bytes[i] as int % 128 * Weight(i);
      if bytes[i] < 128 then (if v > U16_MAX then None else Some(Length(v, i + 1)))
      else DecodeFrom(bytes, i + 1, v)
  }

  function DecodeSpec(bytes: seq<byte>): Option<Length> {
    DecodeFrom(bytes, 0, 0)
  }

  method DecodeLen(bytes: seq<byte>) returns (r: Option<Length>)
    ensures r == DecodeSpec(bytes)
  {
    var value := 0;
    var i := 0;
    while i < |bytes| && i < 3
      invariant 0 <= i <= 3 && value >= 0
      invariant DecodeSpec(bytes) == DecodeFrom(bytes, i, value)
    {
      value := value + bytes[i] as int % 128 * Weight(i);
      if bytes[i] < 128 {
        if value > U16_MAX {
          return None;
        }
        return Some(Length(value, i + 1));
      }
      i := i + 1;
    }
    return None;
  }

  /** A length of up to 21 bits is its three groups of seven. */
  lemma Groups(a: nat, b: nat, c: nat)
    requires a < 128 && b < 128
    ensures var n := a + b * 128 + c * 16384;
            n % 128 == a && n / 128 == b + c * 128 && n / 128 % 128 == b && n / 128 / 128 == c
  {
    var n := a + b * 128 + c * 16384;
    assert n / 128 == b + c * 128;
  }

  lemma Regroup(n: nat)
    ensures n == n % 128 + n / 128 % 128 * 128 + n / 128 / 128 * 16384
  {
    var m := n / 128;
    assert n == n % 128 + m * 128 && m == m % 128 + m / 128 * 128;
  }

  /** A u16 takes one to three bytes, spelled out. */
  lemma EncodeShape(a: nat, b: nat, c: nat)
    requires a < 128 && b < 128 && c < 128
    ensures EncodeSpec(a + b * 128 + c * 16384) ==
            if c > 0 then [a + 128, b + 128, c] else if b > 0 then [a + 128, b] else [a]
  {
    Groups(a, b, c);
    var n := a + b * 128 + c * 16384;
    if b > 0 || c > 0 {
      assert EncodeSpec(n) == [a + 128] + EncodeSpec(b + c * 128);
      if c > 0 {
        assert (b + c * 128) % 128 == b && (b + c * 128) / 128 == c;
        assert EncodeSpec(b + c * 128) == [b + 128] + EncodeSpec(c);
      }
    }
  }

  /** What `decode_len` reads, one case for each number of bytes. */
  lemma DecodeShape(bytes: seq<byte>)
    ensures DecodeSpec(bytes) ==
            if |bytes| == 0 then None
            else if bytes[0] < 128 then Some(Length(bytes[0], 1))
            else if |bytes| == 1 then None
            else var v1: nat := bytes[0] as int % 128 + bytes[1] as int % 128 * 128;
            if bytes[1] < 128 then Some(Length(v1, 2))
            else if |bytes| == 2 || bytes[2] >= 128 then None
            else var v2: nat := v1 + bytes[2] as int * 16384;
            if v2 > U16_MAX then None else Some(Length(v2, 3))
  {
    if |bytes| > 1 {
      var v0: nat := bytes[0] as int % 128;
      assert DecodeSpec(bytes) == if bytes[0] < 128 then Some(Length(bytes[0], 1)) else DecodeFrom(bytes, 1, v0);
      if |bytes| > 2 {
        var v1: nat := v0 + bytes[1] as int % 128 * 128;
        assert bytes[1] >= 128 ==> DecodeFrom(bytes, 1, v0) == DecodeFrom(bytes, 2, v1);
        assert bytes[2] >= 128 ==> DecodeFrom(bytes, 3, v1 + bytes[2] as int % 128 * 16384).None?;
      }
    }
  }

  /** Decoding reads back the length, whatever bytes follow. */
  lemma DecodeOfEncode(n: nat, rest: seq<byte>)
    requires n <= U16_MAX
    ensures DecodeSpec(EncodeSpec(n) + rest) == Some(Length(n, |EncodeSpec(n)|))
  {
    hide DecodeSpec, EncodeSpec;
    Regroup(n);
    EncodeShape(n % 128, n / 128 % 128, n / 128 / 128);
    DecodeShape(EncodeSpec(n) + rest);
  }

  /**
   * `decode_len` also accepts spellings with trailing zero groups. A decoded prefix is the
   * canonical encoding of its value exactly when it has one byte or its last byte is not zero.
   */
  lemma CanonicalIff(bytes: seq<byte>)
    requires DecodeSpec(bytes).Some?
    ensures var l := DecodeSpec(bytes).value;
            1 <= l.consumed <= |bytes| &&
            (bytes[..l.consumed] == EncodeSpec(l.value) <==> l.consumed == 1 || bytes[l.consumed - 1] != 0)
  {
    hide DecodeSpec, EncodeSpec;
    DecodeShape(bytes);
    var l := DecodeSpec(bytes).value;
    var a: nat := bytes[0] as int % 128;
    if l.consumed == 1 {
      EncodeShape(a, 0, 0);
      assert bytes[..1] == [bytes[0]];
    } else if l.consumed == 2 {
      EncodeShape(a, bytes[1], 0);
      assert bytes[..2] == [bytes[0], bytes[1]];
    } else {
      EncodeShape(a, bytes[1] as int % 128, bytes[2]);
      assert bytes[..3] == [bytes[0], bytes[1], bytes[2]];
    }
  }
}
