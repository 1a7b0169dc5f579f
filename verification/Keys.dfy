/**
 * The fixed program and sysvar accounts, as 32-byte keys and as the base-58 text that nodes print. The
 * verifiers compare texts and the producer writes keys; that both mean the same accounts takes a bound
 * on the numeral of each text, which is what most of this module is about.
 */
module Keys {
  import opened Wrappers
  import opened Message
  import opened Digits
  import opened Base58

  const SYSTEM_PROGRAM: string := "1111111111111111" + "1111111111111111"
  const RECENT_BLOCKHASHES: string := "SysvarRecentB1" + "ockHashes11111" + "11111111111" + "1111"
  const RENT_SYSVAR: string := "SysvarRent1111" + "11111111111111" + "11111111111" + "1111"
  const MEMO_PROGRAM: string := "MemoSq4gqABAXK" + "b96qnH8TysNcWx" + "MyWCqXgDLGm" + "fcHr"

  /** The base-58 text of a key, as a node prints it. */
  function Show(k: Key): string {
    EncodeSpec(k)
  }

  lemma ShowDecodes(k: Key)
    ensures DecodePubkey(Show(k)) == Some(k)
  {
    DecodeOfEncode(k);
  }

  lemma ShowInjective(a: Key, b: Key)
    ensures Show(a) == Show(b) <==> a == b
  {
    DecodeOfEncode(a);
    DecodeOfEncode(b);
  }

  lemma DecodeShows(s: string)
    requires IsPubkey(s)
    ensures Show(DecodePubkey(s).value) == s
  {
    EncodeOfDecode(s);
  }

  // ---- The constants are public keys -------------------------------------------------------

  function Pow(b: nat, n: nat): nat {
    if n == 0 then 1 else b * Pow(b, n - 1)
  }

  lemma {:induction false} PowPlus(b: nat, m: nat, n: nat)
    ensures Pow(b, m + n) == Pow(b, m) * Pow(b, n)
  {
    if m > 0 {
      PowPlus(b, m - 1, n);
      assert Pow(b, m + n) == b * Pow(b, m - 1 + n);
      MulAssoc(b, Pow(b, m - 1), Pow(b, n));
    }
  }

  lemma MulAssoc(a: nat, b: nat, c: nat)
    ensures a * (b * c) == (a * b) * c
  {
  }

  /** A number with a first digit lies between that digit and the next, scaled. */
  lemma {:induction false} ValueRange(ds: seq<nat>, base: nat)
    requires base >= 2 && ds != [] && InRange(ds, base)
    ensures ds[0] * Pow(base, |ds| - 1) <= Value(ds, base) < (ds[0] + 1) * Pow(base, |ds| - 1)
  {
    var init, last := ds[..|ds| - 1], ds[|ds| - 1];
    if init == [] {
      assert Value(init, base) == 0;
    } else {
      ValueRange(init, base);
      var p, v := Pow(base, |init| - 1), Value(init, base);
      assert Pow(base, |ds| - 1) == base * p;
      Scale(ds[0], p, v, base, last);
    }
  }

  lemma Scale(d: nat, p: nat, v: nat, base: nat, last: nat)
    requires d * p <= v < (d + 1) * p && last < base
    ensures d * (base * p) <= v * base + last < (d + 1) * (base * p)
  {
    MulMono(d * p, v, base);
    MulMono(v + 1, (d + 1) * p, base);
    assert (d * p) * base == d * (base * p);
    assert ((d + 1) * p) * base == (d + 1) * (base * p);
    assert (v + 1) * base == v * base + base;
  }

  lemma {:induction false} OfLength(v: nat, base: nat, n: nat)
    requires base >= 2 && Pow(base, n) <= v < Pow(base, n + 1)
    ensures |Of(v, base)| == n + 1
    decreases n
  {
    PowPositive(base, n);
    if n == 0 {
      assert Pow(base, 0) == 1 && Pow(base, 1) == base;
      DivModUnique(v, base, 0, v);
    } else {
      DivRange(v, base, Pow(base, n - 1), Pow(base, n));
      OfLength(v / base, base, n - 1);
    }
  }

  lemma DivRange(v: nat, base: nat, lo: nat, hi: nat)
    requires base >= 2 && base * lo <= v < base * hi
    ensures lo <= v / base < hi
  {
    var q := v / base;
    assert v == base * q + v % base;
    if q < lo {
      MulMono(q + 1, lo, base);
      assert false;
    }
    if q >= hi {
      MulMono(hi, q, base);
      assert false;
    }
  }

  lemma {:induction false} PowPositive(b: nat, n: nat)
    requires b >= 1
    ensures Pow(b, n) >= 1
  {
    if n > 0 {
      PowPositive(b, n - 1);
    }
  }

  /** Base-58 text of 43 symbols, the first worth 16 to 57, is a 32-byte key. */
  lemma FortyThree(s: string)
    requires |s| == 43 && InAlphabet(s) && DigitOf(s[0]).value >= 16
    ensures IsPubkey(s)
  {
    hide Pow, Value, Of, DecodeSpec, InAlphabet;
    var ds := Indices(s);
    ValueRange(ds, 58);
    PowerFacts();
    MulMono(16, ds[0], Pow(58, 42));
    MulMono(ds[0] + 1, 58, Pow(58, 42));
    OfLength(Number(s), 256, 31);
    assert s[..0] == "" && AllOnes(s[..0]);
    DecodedBytes(s, 0);
  }

  lemma PowerFacts()
    ensures Pow(256, 31) <= 16 * Pow(58, 42)
    ensures 58 * Pow(58, 42) < Pow(256, 32)
  {
    assert Pow(58, 5) == 656356768;
    assert Pow(58, 10) == 430804206899405824 by { PowPlus(58, 5, 5); }
    assert Pow(58, 20) == 185592264682226060569122324245118976 by { PowPlus(58, 10, 10); }
    assert Pow(58, 21) == 10764351351569111513009094806216900608;
    assert Pow(58, 42) == 115871260020027757769182095419415455604368209753879122781949129969750769664 by { PowPlus(58, 21, 21); }
    assert Pow(256, 4) == 0x1_0000_0000;
    assert Pow(256, 8) == 0x1_0000_0000_0000_0000 by { PowPlus(256, 4, 4); }
    assert Pow(256, 16) == 0x1_0000_0000_0000_0000_0000_0000_0000_0000 by { PowPlus(256, 8, 8); }
    assert Pow(256, 32) == 0x1_0000_0000_0000_0000_0000_0000_0000_0000 * 0x1_0000_0000_0000_0000_0000_0000_0000_0000 by {
      PowPlus(256, 16, 16);
    }
    assert Pow(256, 32) == 256 * Pow(256, 31);
  }

  lemma ConstantsArePubkeys()
    ensures IsPubkey(RECENT_BLOCKHASHES) && IsPubkey(MEMO_PROGRAM)
    ensures DecodePubkey(SYSTEM_PROGRAM) == Some(Zeros(32))
  {
    hide DecodeSpec;
    BlockhashesAlphabet();
    FortyThree(RECENT_BLOCKHASHES);
    MemoAlphabet();
    FortyThree(MEMO_PROGRAM);
    SystemIsZero();
  }

  lemma BlockhashesAlphabet()
    ensures |RECENT_BLOCKHASHES| == 43 && InAlphabet(RECENT_BLOCKHASHES) && RECENT_BLOCKHASHES[0] == 'S'
  {
    assert InAlphabet("SysvarRecentB1") && InAlphabet("ockHashes11111") && InAlphabet("11111111111") && InAlphabet("1111");
  }

  lemma MemoAlphabet()
    ensures |MEMO_PROGRAM| == 43 && InAlphabet(MEMO_PROGRAM) && MEMO_PROGRAM[0] == 'M'
  {
    assert InAlphabet("MemoSq4gqABAXK") && InAlphabet("b96qnH8TysNcWx") && InAlphabet("MyWCqXgDLGm") && InAlphabet("fcHr");
  }

  lemma SystemIsZero()
    ensures |SYSTEM_PROGRAM| == 32 && DecodePubkey(SYSTEM_PROGRAM) == Some(Zeros(32))
  {
    var s := SYSTEM_PROGRAM;
    assert AllOnes("1111111111111111");
    assert AllOnes(s) && s[..32] == s;
    OnesInAlphabet(s);
    DecodedBytes(s, 32);
    assert Reverse(Of(0, 256)) == [] && Zeros(32) + [] == Zeros(32);
  }

  const SYSTEM: Key := Zeros(32)

  function RecentBlockhashesKey(): Key {
    ConstantsArePubkeys();
    DecodePubkey(RECENT_BLOCKHASHES).value
  }

  function MemoProgramKey(): Key {
    ConstantsArePubkeys();
    DecodePubkey(MEMO_PROGRAM).value
  }

  lemma ShowConstants()
    ensures Show(SYSTEM) == SYSTEM_PROGRAM
    ensures Show(RecentBlockhashesKey()) == RECENT_BLOCKHASHES
    ensures Show(MemoProgramKey()) == MEMO_PROGRAM
    ensures SYSTEM != MemoProgramKey() && SYSTEM != RecentBlockhashesKey() && RecentBlockhashesKey() != MemoProgramKey()
  {
    hide Show, IsPubkey, DecodePubkey;
    ConstantsArePubkeys();
    SystemIsZero();
    ShowPubkeys();
    BlockhashesAlphabet();
    MemoAlphabet();
  }

  lemma ShowPubkeys()
    ensures Show(SYSTEM) == SYSTEM_PROGRAM
    ensures Show(RecentBlockhashesKey()) == RECENT_BLOCKHASHES
    ensures Show(MemoProgramKey()) == MEMO_PROGRAM
  {
    ConstantsArePubkeys();
    hide Show;
    DecodeShows(SYSTEM_PROGRAM);
    DecodeShows(RECENT_BLOCKHASHES);
    DecodeShows(MEMO_PROGRAM);
  }
}
