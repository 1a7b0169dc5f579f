/** crates/kiosk-core/src/b58.rs: the Bitcoin base-58 alphabet, in-place base conversion. */
module Base58 {
  import opened Wrappers
  import opened Digits

  /** The 58 symbols, one run of consecutive characters at a time. */
  const ALPHABET: string :=
    "123456789" + "ABCDEFGH" + "JKLMN" + "PQRSTUVWXYZ" + "abcdefghijk" + "mnopqrstuvwxyz"

  /** Position of a character in ALPHABET. */
  function DigitOf(c: char): (d: Option<nat>)
    ensures d.Some? ==> d.value < 58
  {
    if '1' <= c <= '9' then Some(c as int - '1' as int)
    else if 'A' <= c <= 'H' then Some(c as int - 'A' as int + 9)
    else if 'J' <= c <= 'N' then Some(c as int - 'J' as int + 17)
    else if 'P' <= c <= 'Z' then Some(c as int - 'P' as int + 22)
    else if 'a' <= c <= 'k' then Some(c as int - 'a' as int + 33)
    else if 'm' <= c <= 'z' then Some(c as int - 'm' as int + 44)
    else None
  }

  /** DigitOf is exactly the search for `c` in the alphabet. */
  lemma DigitOfIsPosition(c: char, d: nat)
    requires d < 58
    ensures DigitOf(c) == Some(d) <==> ALPHABET[d] == c
  {
    AlphabetAt(d);
    DigitOfSymbol(c, d, ALPHABET[d]);
  }

  lemma DigitOfSymbol(c: char, d: nat, symbol: char)
    requires d < 58
    requires symbol as int ==
             if d < 9 then '1' as int + d
             else if d < 17 then 'A' as int + d - 9
             else if d < 22 then 'J' as int + d - 17
             else if d < 33 then 'P' as int + d - 22
             else if d < 44 then 'a' as int + d - 33
             else 'm' as int + d - 44
    ensures DigitOf(c) == Some(d) <==> symbol == c
  {
  }

  /** The symbol at each position, as a character code. */
  lemma AlphabetAt(d: nat)
    requires d < 58
    ensures ALPHABET[d] as int ==
            if d < 9 then '1' as int + d
            else if d < 17 then 'A' as int + d - 9
            else if d < 22 then 'J' as int + d - 17
            else if d < 33 then 'P' as int + d - 22
            else if d < 44 then 'a' as int + d - 33
            else 'm' as int + d - 44
  {
    if d < 9 {
      assert ALPHABET[d] == "123456789"[d];
    } else if d < 17 {
      assert ALPHABET[d] == "ABCDEFGH"[d - 9];
    } else if d < 22 {
      assert ALPHABET[d] == "JKLMN"[d - 17];
    } else if d < 33 {
      assert ALPHABET[d] == "PQRSTUVWXYZ"[d - 22];
    } else if d < 44 {
      assert ALPHABET[d] == "abcdefghijk"[d - 33];
    } else {
      assert ALPHABET[d] == "mnopqrstuvwxyz"[d - 44];
    }
  }

  /** The search fails exactly on foreign characters. */
  lemma DigitOfNone(c: char)
    ensures DigitOf(c).None? <==> c !in ALPHABET
  {
    if DigitOf(c).Some? {
      DigitOfIsPosition(c, DigitOf(c).value);
    } else if c in ALPHABET {
      var d: nat :| d < 58 && ALPHABET[d] == c;
      DigitOfIsPosition(c, d);
    }
  }

  predicate InAlphabet(s: string) {
    forall i :: 0 <= i < |s| ==> DigitOf(s[i]).Some?
  }

  function Indices(s: string): (ds: seq<nat>)
    requires InAlphabet(s)
    ensures |ds| == |s| && InRange(ds, 58)
    ensures forall i :: 0 <= i < |s| ==> Some(ds[i]) == DigitOf(s[i])
  {
    seq(|s|, i requires 0 <= i < |s| => DigitOf(s[i]).value)
  }

  function Chars(ds: seq<nat>): (s: string)
    requires InRange(ds, 58)
    ensures |s| == |ds| && forall i :: 0 <= i < |ds| ==> s[i] == ALPHABET[ds[i]]
  {
    seq(|ds|, i requires 0 <= i < |ds| => ALPHABET[ds[i]])
  }

  lemma IndicesOfChars(ds: seq<nat>)
    requires InRange(ds, 58)
    ensures InAlphabet(Chars(ds)) && Indices(Chars(ds)) == ds
  {
    forall i | 0 <= i < |ds| ensures DigitOf(Chars(ds)[i]) == Some(ds[i]) {
      DigitOfIsPosition(Chars(ds)[i], ds[i]);
    }
  }

  lemma CharsOfIndices(s: string)
    requires InAlphabet(s)
    ensures Chars(Indices(s)) == s
  {
    forall i | 0 <= i < |s| ensures Chars(Indices(s))[i] == s[i] {
      DigitOfIsPosition(s[i], Indices(s)[i]);
    }
  }

  function EncodeSpec(input: seq<byte>): string {
    RebaseInRange(input, 256, 58);
    Chars(Rebase(input, 256, 58))
  }

  function DecodeSpec(input: string): Option<seq<byte>> {
    if InAlphabet(input) then
      RebaseInRange(Indices(input), 58, 256);
      Some(Bytes(Rebase(Indices(input), 58, 256)))
    else None
  }

  function Bytes(ds: seq<nat>): (bs: seq<byte>)
    requires InRange(ds, 256)
    ensures bs == ds
  {
    ds
  }

  lemma DecodeOfEncode(input: seq<byte>)
    ensures DecodeSpec(EncodeSpec(input)) == Some(input)
  {
    RebaseInRange(input, 256, 58);
    IndicesOfChars(Rebase(input, 256, 58));
    RebaseTwice(input, 256, 58);
  }

  /** The texts over the alphabet are the ones that decode, and each is the encoding of what it decodes to. */
  lemma EncodeOfDecode(input: string)
    ensures DecodeSpec(input).Some? <==> forall i :: 0 <= i < |input| ==> input[i] in ALPHABET
    ensures DecodeSpec(input).Some? ==> EncodeSpec(DecodeSpec(input).value) == input
  {
    forall i | 0 <= i < |input| ensures input[i] in ALPHABET <==> DigitOf(input[i]).Some? {
      DigitOfNone(input[i]);
    }
    if InAlphabet(input) {
      RebaseTwice(Indices(input), 58, 256);
      CharsOfIndices(input);
    }
  }

  /**
   * The carry loops shared by `encode` (256 into 58) and `decode` (58 into 256): multiply the
   * little-endian digits by `mult`, add `val`, and push what is left of the carry. The carry
   * stays below `mult`, that is at most 255 in `encode` and 57 in `decode`.
   */
  method ShiftIn(digits: seq<nat>, mult: nat, val: nat, base: nat) returns (out: seq<nat>)
    requires base >= 2 && val < mult && Canonical(digits, base)
    ensures out == Of(mult * Eval(digits, base) + val, base)
  {
    out := digits;
    var carry: nat := val;
    ghost var whole := MulAdd(digits, mult, val, base);
    assert digits[0..] == digits;
    for j := 0 to |digits|
      invariant |out| == |digits| && carry < mult
      invariant out[j..] == digits[j..]
      invariant whole == out[..j] + MulAdd(digits[j..], mult, carry, base)
    {
      CarryBound(carry, digits[j], mult, base);
      MulAddStep(digits, j, mult, carry, base);
      assert out[j] == out[j..][0] == digits[j];
      var sum := carry + mult * out[j];
      assert 0 <= sum / base < mult;
      ghost var tail := MulAdd(digits[j + 1..], mult, sum / base, base);
      assert whole == (out[..j] + [sum % base]) + tail;
      assert out[j + 1..] == out[j..][1..] == digits[j + 1..];
      SetAt(out, j, sum % base);
      out := out[j := sum % base];
      carry := sum / base;
    }
    assert whole == out + Of(carry, base) by {
      assert out[..|digits|] == out;
    }
    while carry > 0
      invariant whole == out + Of(carry, base)
    {
      DivSmaller(carry, base);
      assert out + Of(carry, base) == (out + [carry % base]) + Of(carry / base, base);
      out := out + [carry % base];
      carry := carry / base;
    }
    assert whole == out;
    MulAddDigits(digits, mult, val, base);
  }

  lemma SetAt(out: seq<nat>, j: nat, x: nat)
    requires j < |out|
    ensures out[j := x][..j + 1] == out[..j] + [x]
    ensures out[j := x][j + 1..] == out[j + 1..]
  {
  }

  lemma MulAddStep(digits: seq<nat>, j: nat, mult: nat, carry: nat, base: nat)
    requires base >= 2 && j < |digits|
    ensures var sum := carry + mult * digits[j];
            MulAdd(digits[j..], mult, carry, base) == [sum % base] + MulAdd(digits[j + 1..], mult, sum / base, base)
  {
    assert digits[j..][1..] == digits[j + 1..];
  }

  lemma CarryBound(carry: nat, d: nat, mult: nat, base: nat)
    requires carry < mult && d < base
    ensures 0 <= (carry + mult * d) / base < mult
  {
    MulMono(d, base - 1, mult);
    assert mult * (base - 1) == mult * base - mult;
    DivBelow(carry + mult * d, base, mult);
  }

  method Encode(input: seq<byte>) returns (out: string)
    ensures out == EncodeSpec(input)
  {
    hide Eval, Reverse;
    var zeros := 0;
    while zeros < |input| && input[zeros] == 0
      invariant zeros <= |input| && forall i :: 0 <= i < zeros ==> input[i] == 0
    {
      zeros := zeros + 1;
    }
    ghost var number: seq<nat> := input;
    LeadingZerosUnique(number, zeros);
    var digits: seq<nat> := [];
    for i := zeros to |input|
      invariant digits == Of(Value(number[zeros..i], 256), 58)
    {
      EvalOf(Value(number[zeros..i], 256), 58);
      ValueStep(number, zeros, i);
      digits := ShiftIn(digits, 256, input[i], 58);
    }
    assert number[zeros..|input|] == number[zeros..];
    out := Symbols(zeros, digits);
  }

  lemma ValueStep(input: seq<nat>, zeros: nat, i: nat)
    requires zeros <= i < |input|
    ensures Value(input[zeros..i + 1], 256) == 256 * Value(input[zeros..i], 256) + input[i]
  {
    assert input[zeros..i + 1][..i - zeros] == input[zeros..i];
  }

  /** Leading ones, then the digits from the most significant down. */
  method Symbols(zeros: nat, digits: seq<nat>) returns (out: string)
    requires InRange(digits, 58)
    ensures out == Chars(Zeros(zeros) + Reverse(digits))
  {
    out := Ones(zeros);
    for k := |digits| downto 0
      invariant out == Chars(Zeros(zeros) + Reverse(digits[k..]))
    {
      assert digits[k..][1..] == digits[k + 1..];
      out := out + [ALPHABET[digits[k]]];
    }
    assert digits[0..] == digits;
  }

  function Ones(n: nat): (s: string)
    ensures s == Chars(Zeros(n))
  {
    seq(n, _ => '1')
  }

  method Decode(input: string) returns (out: Option<seq<byte>>)
    ensures out == DecodeSpec(input)
  {
    hide Eval, Reverse, Value, DecodeSpec, Rebase;
    var zeros := 0;
    while zeros < |input| && input[zeros] == '1'
      invariant zeros <= |input| && AllOnes(input[..zeros])
    {
      zeros := zeros + 1;
    }
    OnesInAlphabet(input[..zeros]);
    var bytes: seq<nat> := [];
    for i := zeros to |input|
      invariant InAlphabet(input[..i]) && bytes == Of(Number(input[..i]), 256)
    {
      match DigitOf(input[i])
      case None =>
        RejectsAt(input, i);
        return None;
      case Some(val) =>
        EvalOf(Number(input[..i]), 256);
        NumberStep(input, i, val);
        bytes := ShiftIn(bytes, 58, val, 256);
    }
    assert input[..|input|] == input;
    DecodedBytes(input, zeros);
    out := Some(Bytes(Zeros(zeros) + Reverse(bytes)));
  }

  lemma RejectsAt(s: string, i: nat)
    requires i < |s| && DigitOf(s[i]).None?
    ensures !InAlphabet(s) && DecodeSpec(s).None?
  {
  }

  /** The number that base-58 text spells. */
  function Number(s: string): nat
    requires InAlphabet(s)
  {
    Value(Indices(s), 58)
  }

  lemma NumberStep(s: string, i: nat, val: nat)
    requires i < |s| && InAlphabet(s[..i]) && DigitOf(s[i]) == Some(val)
    ensures InAlphabet(s[..i + 1]) && Number(s[..i + 1]) == 58 * Number(s[..i]) + val
  {
    assert Indices(s[..i + 1])[..i] == Indices(s[..i]);
  }

  /** Decoding is the leading zeros and then the bytes of the number. */
  lemma DecodedBytes(s: string, n: nat)
    requires InAlphabet(s) && n <= |s| && AllOnes(s[..n]) && (n < |s| ==> s[n] != '1')
    ensures InRange(Of(Number(s), 256), 256)
    ensures DecodeSpec(s) == Some(Zeros(n) + Reverse(Of(Number(s), 256)))
  {
    LeadingOnes(s, n);
    SkipZeros(Indices(s), 58);
  }

  predicate AllOnes(s: string) {
    forall i :: 0 <= i < |s| ==> s[i] == '1'
  }

  lemma OnesInAlphabet(s: string)
    requires AllOnes(s)
    ensures InAlphabet(s) && Number(s) == 0
  {
    LeadingOnes(s, |s|);
    SkipZeros(Indices(s), 58);
  }

  /** The '1' is digit zero: leading ones are the leading zeros of the digits. */
  lemma LeadingOnes(s: string, n: nat)
    requires InAlphabet(s) && n <= |s| && AllOnes(s[..n]) && (n < |s| ==> s[n] != '1')
    ensures LeadingZeros(Indices(s)) == n
  {
    forall i | 0 <= i < n ensures Indices(s)[i] == 0 {
      assert s[i] == s[..n][i];
    }
    LeadingZerosUnique(Indices(s), n);
  }

  /** A Solana public key: base-58 text of exactly 32 bytes. */
  function DecodePubkey(input: string): Option<seq<byte>> {
    var v := DecodeSpec(input);
    if v.Some? && |v.value| == 32 then v else None
  }

  predicate IsPubkey(s: string) {
    DecodePubkey(s).Some?
  }

  /** `decodeBase58Length` of the two trusted scripts, on arbitrary-precision integers. */
  method DecodedLength(text: string) returns (n: int)
    ensures n == if text != "" && InAlphabet(text) then |DecodeSpec(text).value| else -1
  {
    if text == "" {
      return -1;
    }
    var value: nat := 0;
    for i := 0 to |text|
      invariant InAlphabet(text[..i]) && value == Number(text[..i])
    {
      match DigitOf(text[i])
      case None =>
        return -1;
      case Some(digit) =>
        NumberStep(text, i, digit);
        value := value * 58 + digit;
    }
    assert text[..|text|] == text;
    var bytes := 0;
    var copy := value;
    while copy > 0
      invariant bytes + |Of(copy, 256)| == |Of(value, 256)|
    {
      copy := copy / 256;
      bytes := bytes + 1;
    }
    var zeroes := 0;
    while zeroes < |text| && text[zeroes] == '1'
      invariant zeroes <= |text| && AllOnes(text[..zeroes])
    {
      zeroes := zeroes + 1;
    }
    DecodedBytes(text, zeroes);
    return bytes + zeroes;
  }

  /** Leading zeros do not change a value. */
  lemma {:induction false} SkipZeros(ds: seq<nat>, base: nat)
    ensures Value(ds[LeadingZeros(ds)..], base) == Value(ds, base)
  {
    if ds != [] {
      var init, z := ds[..|ds| - 1], LeadingZeros(ds);
      SkipZeros(init, base);
      if z == |ds| {
        LeadingZerosUnique(init, |init|);
      } else {
        LeadingZerosUnique(init, z);
        assert ds[z..][..|ds| - z - 1] == init[z..];
      }
    }
  }
}
