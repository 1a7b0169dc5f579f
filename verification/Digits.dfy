/**
 * Positional notation: the arithmetic behind the base-58 codec. Numbers are digit sequences in some
 * base, either end first; changing the base of a number through its value and back is the identity on
 * digit sequences with their leading zeros counted apart.
 */
module Digits {

  /** Value of a little-endian digit sequence. */
  function Eval(ds: seq<nat>, base: nat): nat {
    if ds == [] then 0 else ds[0] + base * Eval(ds[1..], base)
  }

  /** Value of a big-endian digit sequence, read left to right. */
  function Value(ds: seq<nat>, base: nat): nat {
    if ds == [] then 0 else Value(ds[..|ds| - 1], base) * base + ds[|ds| - 1]
  }

  /** Little-endian digits of `n`, without leading zeros. */
  function Of(n: nat, base: nat): (ds: seq<nat>)
    requires base >= 2
    ensures InRange(ds, base)
    decreases n
  {
    if n == 0 then [] else
      DivSmaller(n, base);
      [n % base] + Of(n / base, base)
  }

  predicate InRange(ds: seq<nat>, base: nat) {
    forall i :: 0 <= i < |ds| ==> ds[i] < base
  }

  /** Digits in range whose most significant (last) digit is not zero. */
  predicate Canonical(ds: seq<nat>, base: nat) {
    InRange(ds, base) && (ds != [] ==> ds[|ds| - 1] != 0)
  }

  lemma DivSmaller(n: nat, base: nat)
    requires n > 0 && base >= 2
    ensures n / base < n
  {
    assert n == base * (n / base) + n % base;
    if n / base >= n {
      assert base * (n / base) >= 2 * (n / base) by { MulMono(2, base, n / base); }
    }
  }

  lemma MulMono(a: nat, b: nat, c: nat)
    requires a <= b
    ensures a * c <= b * c
  {
  }

  lemma DivBelow(n: nat, base: nat, m: nat)
    requires base > 0 && n < m * base
    ensures 0 <= n / base < m
  {
    var q := n / base;
    assert n == base * q + n % base;
    if q >= m {
      MulMono(m, q, base);
      assert false;
    }
  }

  lemma DivModUnique(n: nat, base: nat, q: nat, r: nat)
    requires base > 0 && r < base && n == r + base * q
    ensures n / base == q && n % base == r
  {
    var d := n / base - q;
    assert n == base * (n / base) + n % base;
    assert base * d == r - n % base by {
      assert base * d == base * (n / base) - base * q;
    }
    if d > 0 {
      assert base * d >= base by { MulMono(1, d, base); }
    }
  }

  lemma {:induction false} EvalOf(n: nat, base: nat)
    requires base >= 2
    ensures Eval(Of(n, base), base) == n
    ensures Canonical(Of(n, base), base)
    decreases n
  {
    if n != 0 {
      DivSmaller(n, base);
      var q, r := n / base, n % base;
      assert n == r + base * q;
      EvalOf(q, base);
      var ds := Of(q, base);
      assert Of(n, base) == [r] + ds;
      assert Eval([r] + ds, base) == r + base * Eval(ds, base) by {
        assert ([r] + ds)[1..] == ds;
      }
      if q == 0 {
        assert base * 0 == 0;
      }
    }
  }

  lemma {:induction false} EvalPositive(ds: seq<nat>, base: nat)
    requires base >= 2 && Canonical(ds, base) && ds != []
    ensures Eval(ds, base) > 0
  {
    if |ds| > 1 {
      EvalPositive(ds[1..], base);
      assert base * Eval(ds[1..], base) >= Eval(ds[1..], base) by { MulMono(1, base, Eval(ds[1..], base)); }
    }
  }

  lemma {:induction false} OfEval(ds: seq<nat>, base: nat)
    requires base >= 2 && Canonical(ds, base)
    ensures Of(Eval(ds, base), base) == ds
  {
    if ds != [] {
      EvalPositive(ds, base);
      DivModUnique(Eval(ds, base), base, Eval(ds[1..], base), ds[0]);
      OfEval(ds[1..], base);
    }
  }

  /** The digits of `m * ds + c`: what one pass of the carry loop leaves behind. */
  function MulAdd(ds: seq<nat>, m: nat, c: nat, base: nat): seq<nat>
    requires base >= 2
  {
    if ds == [] then Of(c, base)
    else [(c + m * ds[0]) % base] + MulAdd(ds[1..], m, (c + m * ds[0]) / base, base)
  }

  lemma {:induction false} MulAddDigits(ds: seq<nat>, m: nat, c: nat, base: nat)
    requires base >= 2 && m >= 1 && Canonical(ds, base)
    ensures MulAdd(ds, m, c, base) == Of(m * Eval(ds, base) + c, base)
  {
    if ds != [] {
      var x, e := c + m * ds[0], Eval(ds[1..], base);
      var whole := m * Eval(ds, base) + c;
      CarryStep(m, c, ds[0], e, base);
      MulAddDigits(ds[1..], m, x / base, base);
      EvalPositive(ds, base);
      MulMono(1, m, Eval(ds, base));
      assert Of(whole, base) == [whole % base] + Of(whole / base, base);
    }
  }

  /** One carry: the low digit stays, the quotient joins the higher digits. */
  lemma CarryStep(m: nat, c: nat, d: nat, e: nat, base: nat)
    requires base >= 2
    ensures (m * (d + base * e) + c) % base == (c + m * d) % base
    ensures (m * (d + base * e) + c) / base == m * e + (c + m * d) / base
  {
    var x := c + m * d;
    var total := m * (d + base * e) + c;
    Distribute(m, d, base, e);
    assert x == base * (x / base) + x % base;
    assert base * (m * e + x / base) == base * (m * e) + base * (x / base);
    DivModUnique(total, base, m * e + x / base, x % base);
  }

  lemma Distribute(m: nat, d: nat, base: nat, e: nat)
    ensures m * (d + base * e) == m * d + base * (m * e)
  {
    assert m * (base * e) == base * (m * e);
  }

  function Reverse<T>(s: seq<T>): (r: seq<T>)
    ensures |r| == |s| && forall i :: 0 <= i < |s| ==> r[i] == s[|s| - 1 - i]
  {
    if s == [] then [] else Reverse(s[1..]) + [s[0]]
  }

  lemma ReverseTwice<T>(s: seq<T>)
    ensures Reverse(Reverse(s)) == s
  {
  }

  lemma {:induction false} ValueIsEval(ds: seq<nat>, base: nat)
    ensures Value(ds, base) == Eval(Reverse(ds), base)
  {
    if ds != [] {
      var init := ds[..|ds| - 1];
      ValueIsEval(init, base);
      assert Reverse(ds)[1..] == Reverse(init);
    }
  }

  function LeadingZeros(ds: seq<nat>): (z: nat)
    ensures z <= |ds|
    ensures forall i :: 0 <= i < z ==> ds[i] == 0
    ensures z < |ds| ==> ds[z] != 0
  {
    if ds == [] || ds[0] != 0 then 0 else 1 + LeadingZeros(ds[1..])
  }

  function Zeros(n: nat): (ds: seq<nat>)
    ensures |ds| == n && forall i :: 0 <= i < n ==> ds[i] == 0
  {
    seq(n, _ => 0)
  }

  /** Change of base that keeps each leading zero as one leading zero. */
  function Rebase(ds: seq<nat>, from: nat, to: nat): seq<nat>
    requires to >= 2
  {
    var z := LeadingZeros(ds);
    Zeros(z) + Reverse(Of(Value(ds[z..], from), to))
  }

  /** `z` is the only possible count of leading zeros. */
  lemma LeadingZerosUnique(ds: seq<nat>, z: nat)
    requires z <= |ds| && (forall i :: 0 <= i < z ==> ds[i] == 0) && (z < |ds| ==> ds[z] != 0)
    ensures LeadingZeros(ds) == z
  {
  }

  lemma RebaseInRange(ds: seq<nat>, from: nat, to: nat)
    requires to >= 2
    ensures InRange(Rebase(ds, from, to), to)
  {
  }

  /** Changing base and back is the identity, leading zeros included. */
  lemma RebaseTwice(ds: seq<nat>, from: nat, to: nat)
    requires from >= 2 && to >= 2 && InRange(ds, from)
    ensures Rebase(Rebase(ds, from, to), to, from) == ds
  {
    hide Eval, Value, Of, Reverse;
    var z := LeadingZeros(ds);
    var t := ds[z..];
    var v := Value(t, from);
    RebaseParts(ds, from, to);
    TrimmedDigits(t, from);
    assert ds == Zeros(z) + t;
  }

  /** A change of base keeps the leading zeros and the value of the rest. */
  lemma RebaseParts(ds: seq<nat>, from: nat, to: nat)
    requires from >= 2 && to >= 2
    ensures var z, r := LeadingZeros(ds), Rebase(ds, from, to);
            LeadingZeros(r) == z && Value(r[z..], to) == Value(ds[z..], from)
  {
    hide Eval, Value, Of, Reverse;
    var z := LeadingZeros(ds);
    var u := Of(Value(ds[z..], from), to);
    EvalOf(Value(ds[z..], from), to);
    var r := Zeros(z) + Reverse(u);
    LeadingZerosUnique(r, z);
    assert r[z..] == Reverse(u);
    ValueIsEval(Reverse(u), to);
    ReverseTwice(u);
  }

  /** Big-endian digits without a leading zero are determined by their value. */
  lemma TrimmedDigits(t: seq<nat>, base: nat)
    requires base >= 2 && InRange(t, base) && (t != [] ==> t[0] != 0)
    ensures Reverse(Of(Value(t, base), base)) == t
  {
    ValueIsEval(t, base);
    OfEval(Reverse(t), base);
    ReverseTwice(t);
  }
}
