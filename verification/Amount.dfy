/** Exact fixed-point token amounts, in Rust and JavaScript. */
module Amount {
  // crates/kiosk-core/src/pay.rs and the `decimal` of scripts/trusted-charge-handoff.mjs. Inputs are
  // already trimmed of white space.

  import opened Wrappers
  import D = Digits

  predicate IsDigit(c: char) {
    '0' <= c <= '9'
  }

  predicate AllDigits(s: string) {
    forall i :: 0 <= i < |s| ==> IsDigit(s[i])
  }

  /** Digit characters as numbers. */
  function Vals(s: string): (ds: seq<nat>)
    requires AllDigits(s)
    ensures |ds| == |s| && D.InRange(ds, 10)
    ensures forall i :: 0 <= i < |s| ==> ds[i] == s[i] as int - '0' as int
  {
    seq(|s|, i requires 0 <= i < |s| => s[i] as int - '0' as int)
  }

  /** The number that a digit string spells; the empty string spells zero. */
  function NatOf(s: string): nat
    requires AllDigits(s)
  {
    D.Value(Vals(s), 10)
  }

  function Pow10(n: nat): (p: nat)
    ensures p >= 1
  {
    if n == 0 then 1 else 10 * Pow10(n - 1)
  }

  // ---- Grammar -----------------------------------------------------------------------------

  /** `digits` or `digits.digits`, cut at the first point. */
  datatype Parts = Parts(int_: string, frac: string)

  function PointAt(s: string): (i: nat)
    ensures i <= |s| && '.' !in s[..i] && (i < |s| ==> s[i] == '.')
  {
    if s == "" || s[0] == '.' then 0 else 1 + PointAt(s[1..])
  }

  /** `split_once('.')` and the checks on both sides. */
  function Split(s: string): Option<Parts> {
    var i := PointAt(s);
    if i == |s| then (if s == "" then None else Some(Parts(s, "")))
    else if i == 0 || i + 1 == |s| then None
    else Some(Parts(s[..i], s[i + 1..]))
  }

  predicate Plain(p: Parts, decimals: nat) {
    p.int_ != "" && AllDigits(p.int_) && AllDigits(p.frac) && |p.frac| <= decimals
  }

  // ---- Base units --------------------------------------------------------------------------

  function Checked(n: nat): Option<nat> {
    if n <= U64_MAX then Some(n) else None
  }

  /** `amount_to_base_units`, with every step checked against u64. */
  function AmountToBaseUnits(s: string, decimals: byte): (r: Option<nat>)
    ensures r.Some? ==> r.value <= U64_MAX
  {
    match Split(s)
    case None => None
    case Some(p) =>
      if !Plain(p, decimals) then None else
      match Checked(Pow10(decimals))
      case None => None
      case Some(scale) =>
        match Checked(NatOf(p.int_))
        case None => None
        case Some(int_) =>
          match Checked(int_ * scale)
          case None => None
          case Some(whole) =>
            match Fractional(p.frac, decimals)
            case None => None
            case Some(fractional) => Checked(whole + fractional)
  }

  function Fractional(frac: string, decimals: byte): Option<nat>
    requires AllDigits(frac) && |frac| <= decimals
  {
    if frac == "" then Some(0) else
    match Checked(NatOf(frac))
    case None => None
    case Some(value) =>
      match Checked(Pow10(decimals - |frac|))
      case None => None
      case Some(scale) => Checked(value * scale)
  }

  /** What the amount is worth in base units, without any machine bound. */
  function ExactUnits(p: Parts, decimals: nat): nat
    requires Plain(p, decimals)
  {
    NatOf(p.int_) * Pow10(decimals) + NatOf(p.frac) * Pow10(decimals - |p.frac|)
  }

  // ---- Canonical text ----------------------------------------------------------------------

  /** `trim_start_matches('0')`. */
  function TrimLeft(s: string): (t: string)
    ensures AllDigits(s) ==> AllDigits(t)
    ensures t != "" ==> t[0] != '0'
  {
    if s != "" && s[0] == '0' then TrimLeft(s[1..]) else s
  }

  /** `trim_end_matches('0')`. */
  function TrimRight(s: string): (t: string)
    ensures AllDigits(s) ==> AllDigits(t)
    ensures |t| <= |s|
    ensures t != "" ==> t[|t| - 1] != '0'
  {
    if s != "" && s[|s| - 1] == '0' then TrimRight(s[..|s| - 1]) else s
  }

  /** Leading zeros gone but for a lone one, trailing fraction zeros gone. */
  function Normal(p: Parts): string {
    var int_ := if TrimLeft(p.int_) == "" then "0" else TrimLeft(p.int_);
    var frac := TrimRight(p.frac);
    if frac == "" then int_ else int_ + "." + frac
  }

  /** `canonicalize_amount`; `None` is the error `BadAmount`. */
  function CanonicalizeAmount(s: string, decimals: byte): Option<string> {
    match Split(s)
    case None => None
    case Some(p) =>
      if !Plain(p, decimals) then None else
      match AmountToBaseUnits(s, decimals)
      case None => None
      case Some(units) => if units == 0 then None else Some(Normal(p))
  }

  /** `validate_amount`: canonical and within the operator's cap. */
  function ValidateAmount(s: string, decimals: byte, maxAmount: string): Option<string> {
    match CanonicalizeAmount(s, decimals)
    case None => None
    case Some(amount) =>
      match CanonicalizeAmount(maxAmount, decimals)
      case None => None
      case Some(cap) =>
        var units, maxUnits := AmountToBaseUnits(amount, decimals), AmountToBaseUnits(cap, decimals);
        if units.None? || maxUnits.None? || units.value > maxUnits.value then None else Some(amount)
  }

  // ---- The JavaScript twin -----------------------------------------------------------------

  /** `padEnd(n, '0')`. */
  function PadRight(s: string, n: nat): (t: string)
    requires |s| <= n
    ensures |t| == n && t[..|s|] == s
    ensures forall i :: |s| <= i < n ==> t[i] == '0'
  {
    s + ZeroText(n - |s|)
  }

  function ZeroText(n: nat): (t: string)
    ensures |t| == n && AllDigits(t) && forall i :: 0 <= i < n ==> t[i] == '0'
  {
    seq(n, _ => '0')
  }

  /** `replace(/^0+(?=\d)/u, '')`: leading zeros, as long as a digit remains. */
  function TrimLeftButOne(s: string): (t: string)
    ensures AllDigits(s) ==> AllDigits(t)
  {
    if |s| > 1 && s[0] == '0' then TrimLeftButOne(s[1..]) else s
  }

  /** `decimal`, on arbitrary-precision integers; `None` is a thrown error. */
  function JsDecimal(s: string, decimals: nat): Option<string> {
    match Split(s)
    case None => None
    case Some(p) =>
      if !Plain(p, decimals) then None else
      var whole := TrimLeftButOne(p.int_);
      var fraction := TrimRight(p.frac);
      var digits := whole + PadRight(p.frac, decimals);
      assert AllDigits(digits);
      var units := NatOf(digits);
      if units == 0 || units > U64_MAX then None
      else Some(if fraction != "" then whole + "." + fraction else whole)
  }

  /** The amount pattern of the order claim: `(0|[1-9]\d*)(\.\d*[1-9])?`, but not `0`. */
  predicate ClaimPattern(s: string) {
    var i := PointAt(s);
    var int_ := s[..i];
    && int_ != "" && AllDigits(int_) && (int_ == "0" || int_[0] != '0')
    && (i < |s| ==> i + 1 < |s| && AllDigits(s[i + 1..]) && s[|s| - 1] != '0')
    && s != "0"
  }

  // ---- Digit arithmetic --------------------------------------------------------------------

  lemma {:induction false} PowPlus(a: nat, b: nat)
    ensures Pow10(a + b) == Pow10(a) * Pow10(b)
  {
    if a > 0 {
      PowPlus(a - 1, b);
      assert 10 * (Pow10(a - 1) * Pow10(b)) == (10 * Pow10(a - 1)) * Pow10(b);
    }
  }

  lemma NatOfSnoc(s: string, c: char)
    requires AllDigits(s) && IsDigit(c)
    ensures AllDigits(s + [c]) && NatOf(s + [c]) == NatOf(s) * 10 + (c as int - '0' as int)
  {
    var ds := Vals(s + [c]);
    assert ds[..|s|] == Vals(s);
  }

  lemma {:induction false} NatOfConcat(a: string, b: string)
    requires AllDigits(a) && AllDigits(b)
    ensures AllDigits(a + b) && NatOf(a + b) == NatOf(a) * Pow10(|b|) + NatOf(b)
  {
    hide NatOf;
    if b == "" {
      EmptyValue();
      assert a + b == a;
    } else {
      var init, last := b[..|b| - 1], b[|b| - 1];
      NatOfConcat(a, init);
      NatOfSnoc(a + init, last);
      NatOfSnoc(init, last);
      assert init + [last] == b && (a + init) + [last] == a + b;
      Assoc(NatOf(a), Pow10(|init|), 10);
    }
  }

  lemma {:induction false} NatOfBound(s: string)
    requires AllDigits(s)
    ensures NatOf(s) < Pow10(|s|)
  {
    if s != "" {
      var init, last := s[..|s| - 1], s[|s| - 1];
      NatOfBound(init);
      NatOfSnoc(init, last);
      assert init + [last] == s;
    }
  }

  /** Digit strings of one length are determined by their number. */
  lemma {:induction false} SameLengthUnique(a: string, b: string)
    requires AllDigits(a) && AllDigits(b) && |a| == |b| && NatOf(a) == NatOf(b)
    ensures a == b
  {
    if a != "" {
      var i, j := a[..|a| - 1], b[..|b| - 1];
      NatOfSnoc(i, a[|a| - 1]);
      NatOfSnoc(j, b[|b| - 1]);
      assert i + [a[|a| - 1]] == a && j + [b[|b| - 1]] == b;
      SameLengthUnique(i, j);
    }
  }

  lemma {:induction false} ZeroValue(n: nat)
    ensures NatOf(ZeroText(n)) == 0
  {
    if n == 0 {
      assert Vals(ZeroText(0)) == [];
    } else {
      ZeroValue(n - 1);
      assert ZeroText(n) == ZeroText(n - 1) + ['0'];
      NatOfSnoc(ZeroText(n - 1), '0');
    }
  }

  lemma {:induction false} TrimLeftValue(s: string)
    requires AllDigits(s)
    ensures NatOf(TrimLeft(s)) == NatOf(s)
  {
    if s != "" && s[0] == '0' {
      var t := s[1..];
      TrimLeftValue(t);
      hide NatOf;
      assert s == ZeroText(1) + t;
      NatOfConcat(ZeroText(1), t);
      ZeroValue(1);
    }
  }

  /** Without leading zeros a digit string is determined by its number. */
  lemma TrimmedUnique(a: string, b: string)
    requires AllDigits(a) && AllDigits(b) && NatOf(a) == NatOf(b)
    requires (a != "" ==> a[0] != '0') && (b != "" ==> b[0] != '0')
    ensures a == b
  {
    D.TrimmedDigits(Vals(a), 10);
    D.TrimmedDigits(Vals(b), 10);
    assert Vals(a) == Vals(b);
    SameVals(a, b);
  }

  lemma SameVals(a: string, b: string)
    requires AllDigits(a) && AllDigits(b) && Vals(a) == Vals(b)
    ensures a == b
  {
    forall i | 0 <= i < |a| ensures a[i] == b[i] {
      assert Vals(a)[i] == Vals(b)[i];
    }
  }

  lemma {:induction false} TrimLeftButOneIs(s: string)
    requires AllDigits(s) && s != ""
    ensures TrimLeftButOne(s) == if TrimLeft(s) == "" then "0" else TrimLeft(s)
  {
    if s[0] == '0' {
      if |s| > 1 {
        TrimLeftButOneIs(s[1..]);
      } else {
        assert s == "0" && s[1..] == "";
      }
    }
  }

  lemma {:induction false} TrimRightPad(s: string)
    ensures PadRight(TrimRight(s), |s|) == s
  {
    if s != "" && s[|s| - 1] == '0' {
      var init := s[..|s| - 1];
      TrimRightPad(init);
      assert s == init + ['0'];
      PadMore(TrimRight(init), |init|);
    } else {
      assert s + ZeroText(0) == s;
    }
  }

  lemma PadMore(s: string, n: nat)
    requires |s| <= n
    ensures PadRight(s, n + 1) == PadRight(s, n) + ['0']
  {
  }

  lemma PadValue(s: string, n: nat)
    requires AllDigits(s) && |s| <= n
    ensures AllDigits(PadRight(s, n)) && NatOf(PadRight(s, n)) == NatOf(s) * Pow10(n - |s|)
  {
    hide NatOf;
    NatOfConcat(s, ZeroText(n - |s|));
    ZeroValue(n - |s|);
  }

  // ---- Exactness ---------------------------------------------------------------------------

  lemma {:induction false} PowMono(a: nat, b: nat)
    requires a <= b
    ensures Pow10(a) <= Pow10(b)
  {
    if a < b {
      PowMono(a, b - 1);
    }
  }

  /** Ten to the 19 is the last power of ten in u64. */
  lemma PowFits(d: nat)
    ensures Pow10(d) <= U64_MAX <==> d <= 19
  {
    assert Pow10(5) == 100_000;
    assert Pow10(10) == 10_000_000_000 by { PowPlus(5, 5); }
    assert Pow10(15) == 1_000_000_000_000_000 by { PowPlus(10, 5); }
    assert Pow10(20) == 100_000_000_000_000_000_000 by { PowPlus(15, 5); }
    assert Pow10(20) == 10 * Pow10(19);
    if d <= 19 {
      PowMono(d, 19);
    } else {
      PowMono(20, d);
    }
  }

  /** Amounts that have base units: plain, at most 19 decimals, and exactly within u64. */
  predicate Fits(s: string, decimals: byte) {
    match Split(s)
    case None => false
    case Some(p) => Plain(p, decimals) && decimals <= 19 && ExactUnits(p, decimals) <= U64_MAX
  }

  lemma FractionalExact(frac: string, decimals: byte)
    requires AllDigits(frac) && |frac| <= decimals <= 19
    ensures Fractional(frac, decimals) == Checked(NatOf(frac) * Pow10(decimals - |frac|))
  {
    PowFits(decimals - |frac|);
    EmptyValue();
    hide NatOf, Pow10;
    Grows(NatOf(frac), Pow10(decimals - |frac|));
    if frac == "" {
      assert 0 * Pow10(decimals) == 0;
    }
  }

  /** The checked arithmetic fails only when the exact value, or the scale itself, leaves u64. */
  lemma UnitsExact(s: string, decimals: byte)
    ensures AmountToBaseUnits(s, decimals) ==
            if Fits(s, decimals) then Some(ExactUnits(Split(s).value, decimals)) else None
  {
    PowFits(decimals);
    var split := Split(s);
    hide Split, NatOf, Pow10, Fractional;
    if split.Some? && Plain(split.value, decimals) && decimals <= 19 {
      var p := split.value;
      FractionalExact(p.frac, decimals);
      Grows(NatOf(p.int_), Pow10(decimals));
    }
  }

  lemma EmptyValue()
    ensures NatOf("") == 0
  {
    assert Vals("") == [];
  }

  lemma Grows(a: nat, b: nat)
    requires b >= 1
    ensures a * b >= a
  {
  }

  // ---- Canonical form ----------------------------------------------------------------------

  lemma {:induction false} PointUnique(s: string, i: nat)
    requires i <= |s| && (forall j :: 0 <= j < i ==> s[j] != '.') && (i < |s| ==> s[i] == '.')
    ensures PointAt(s) == i
  {
    if i > 0 {
      PointUnique(s[1..], i - 1);
    }
  }

  lemma PointIs(a: string, b: string)
    requires AllDigits(a)
    ensures PointAt(a) == |a|
    ensures PointAt(a + "." + b) == |a|
  {
    PointUnique(a, |a|);
    PointUnique(a + "." + b, |a|);
  }

  /** The parts of a canonical text. */
  function NormalParts(p: Parts): Parts {
    Parts(if TrimLeft(p.int_) == "" then "0" else TrimLeft(p.int_), TrimRight(p.frac))
  }

  lemma SplitNormal(p: Parts, decimals: nat)
    requires Plain(p, decimals)
    ensures Plain(NormalParts(p), decimals) && Split(Normal(p)) == Some(NormalParts(p))
  {
    var q := NormalParts(p);
    PointIs(q.int_, q.frac);
    var s := q.int_ + "." + q.frac;
    assert s[..|q.int_|] == q.int_ && s[|q.int_| + 1..] == q.frac;
  }

  lemma NormalUnits(p: Parts, decimals: nat)
    requires Plain(p, decimals)
    ensures Plain(NormalParts(p), decimals)
    ensures ExactUnits(NormalParts(p), decimals) == ExactUnits(p, decimals)
  {
    hide NatOf, Pow10, TrimLeft, TrimRight, Split;
    SplitNormal(p, decimals);
    WholeValue(p.int_);
    FractionValue(p.frac, decimals);
  }

  lemma WholeValue(s: string)
    requires AllDigits(s)
    ensures NatOf(if TrimLeft(s) == "" then "0" else TrimLeft(s)) == NatOf(s)
  {
    TrimLeftValue(s);
    EmptyValue();
    ZeroValue(1);
    assert ZeroText(1) == "0";
  }

  lemma FractionValue(f: string, decimals: nat)
    requires AllDigits(f) && |f| <= decimals
    ensures NatOf(TrimRight(f)) * Pow10(decimals - |TrimRight(f)|) == NatOf(f) * Pow10(decimals - |f|)
  {
    var g := TrimRight(f);
    TrimRightPad(f);
    PadValue(g, |f|);
    PowPlus(|f| - |g|, decimals - |f|);
    hide NatOf, Pow10, TrimRight;
    Assoc(NatOf(g), Pow10(|f| - |g|), Pow10(decimals - |f|));
  }

  lemma Assoc(a: nat, b: nat, c: nat)
    ensures (a * b) * c == a * (b * c)
  {
  }

  lemma TrimAgain(p: Parts)
    ensures NormalParts(NormalParts(p)) == NormalParts(p)
  {
    assert TrimLeft("0") == "" by {
      assert "0"[1..] == "";
    }
  }

  /** Canonicalizing keeps the base units, and a canonical text is its own canonical form. */
  lemma CanonicalKeepsUnits(s: string, decimals: byte)
    requires CanonicalizeAmount(s, decimals).Some?
    ensures var c := CanonicalizeAmount(s, decimals).value;
            && AmountToBaseUnits(c, decimals) == AmountToBaseUnits(s, decimals)
            && 0 < AmountToBaseUnits(c, decimals).value <= U64_MAX
            && CanonicalizeAmount(c, decimals) == Some(c)
  {
    var p := Split(s).value;
    var c := CanonicalizeAmount(s, decimals).value;
    SplitNormal(p, decimals);
    NormalUnits(p, decimals);
    TrimAgain(p);
    UnitsExact(s, decimals);
    UnitsExact(c, decimals);
  }

  /** One canonical text for each amount: equal units if and only if equal texts. */
  lemma CanonicalUnique(s: string, t: string, decimals: byte)
    requires CanonicalizeAmount(s, decimals).Some? && CanonicalizeAmount(t, decimals).Some?
    ensures AmountToBaseUnits(s, decimals) == AmountToBaseUnits(t, decimals)
            <==> CanonicalizeAmount(s, decimals) == CanonicalizeAmount(t, decimals)
  {
    CanonicalKeepsUnits(s, decimals);
    CanonicalKeepsUnits(t, decimals);
    UnitsExact(s, decimals);
    UnitsExact(t, decimals);
    var p, q := Split(s).value, Split(t).value;
    if ExactUnits(p, decimals) == ExactUnits(q, decimals) {
      PartsUnique(p, q, decimals);
    }
  }

  lemma PartsUnique(p: Parts, q: Parts, decimals: nat)
    requires Plain(p, decimals) && Plain(q, decimals)
    requires ExactUnits(p, decimals) == ExactUnits(q, decimals)
    ensures NormalParts(p) == NormalParts(q)
  {
    hide NatOf, Pow10, TrimLeft, TrimRight, PadRight;
    var f, g := PadRight(p.frac, decimals), PadRight(q.frac, decimals);
    PadValue(p.frac, decimals);
    PadValue(q.frac, decimals);
    NatOfBound(f);
    NatOfBound(g);
    assert NatOf(p.int_) * Pow10(decimals) + NatOf(f) == NatOf(q.int_) * Pow10(decimals) + NatOf(g);
    QuotientUnique(NatOf(p.int_), NatOf(f), NatOf(q.int_), NatOf(g), Pow10(decimals));
    SameLengthUnique(f, g);
    TrimPad(p.frac, decimals);
    TrimPad(q.frac, decimals);
    TrimLeftValue(p.int_);
    TrimLeftValue(q.int_);
    TrimmedUnique(TrimLeft(p.int_), TrimLeft(q.int_));
  }

  lemma QuotientUnique(a: nat, r: nat, b: nat, s: nat, m: nat)
    requires r < m && s < m && a * m + r == b * m + s
    ensures a == b && r == s
  {
    D.DivModUnique(a * m + r, m, a, r);
    D.DivModUnique(a * m + r, m, b, s);
  }

  lemma {:induction false} TrimPad(s: string, n: nat)
    requires |s| <= n
    ensures TrimRight(PadRight(s, n)) == TrimRight(s)
    decreases n
  {
    if |s| < n {
      PadMore(s, n - 1);
      TrimPad(s, n - 1);
      assert PadRight(s, n)[..n - 1] == PadRight(s, n - 1);
    } else {
      assert PadRight(s, n) == s;
    }
  }

  // ---- Agreement with the JavaScript side --------------------------------------------------

  /** `decimal` reads the digits of both parts as one number: the exact units. */
  lemma JsUnits(p: Parts, decimals: nat)
    requires Plain(p, decimals)
    ensures AllDigits(TrimLeftButOne(p.int_) + PadRight(p.frac, decimals))
    ensures NatOf(TrimLeftButOne(p.int_) + PadRight(p.frac, decimals)) == ExactUnits(p, decimals)
  {
    hide NatOf, Pow10, TrimLeft, TrimLeftButOne, PadRight;
    TrimLeftButOneIs(p.int_);
    WholeValue(p.int_);
    PadValue(p.frac, decimals);
    NatOfConcat(TrimLeftButOne(p.int_), PadRight(p.frac, decimals));
  }

  lemma JsAgrees(s: string, decimals: byte)
    requires decimals <= 19
    ensures JsDecimal(s, decimals) == CanonicalizeAmount(s, decimals)
  {
    var split := Split(s);
    if split.Some? && Plain(split.value, decimals) {
      JsUnits(split.value, decimals);
      TrimLeftButOneIs(split.value.int_);
      UnitsExact(s, decimals);
    }
  }

  /** The smallest amount of a mint of `decimals` places: `0.00..01`. */
  function OneUnit(decimals: nat): string
    requires decimals >= 1
  {
    "0" + "." + (ZeroText(decimals - 1) + "1")
  }

  /** From 20 decimals on, Rust rejects every amount while JavaScript still accepts one unit. */
  lemma JsDiffers(decimals: byte)
    requires decimals >= 20
    ensures JsDecimal(OneUnit(decimals), decimals).Some?
    ensures forall s :: CanonicalizeAmount(s, decimals).None?
  {
    forall s ensures CanonicalizeAmount(s, decimals).None? {
      UnitsExact(s, decimals);
    }
    OneUnitValue(decimals);
  }

  lemma OneUnitValue(decimals: nat)
    requires decimals >= 1
    ensures Split(OneUnit(decimals)).Some? && Plain(Split(OneUnit(decimals)).value, decimals)
    ensures ExactUnits(Split(OneUnit(decimals)).value, decimals) == 1
    ensures JsDecimal(OneUnit(decimals), decimals).Some?
  {
    var frac, s := ZeroText(decimals - 1) + "1", OneUnit(decimals);
    PointIs("0", frac);
    assert s[..1] == "0" && s[2..] == frac;
    var p := Parts("0", frac);
    assert Split(s) == Some(p);
    OneUnitParts(decimals);
    hide NatOf, Split, Plain, ExactUnits;
    JsUnits(p, decimals);
  }

  lemma OneUnitParts(decimals: nat)
    requires decimals >= 1
    ensures var p := Parts("0", ZeroText(decimals - 1) + "1"); Plain(p, decimals) && ExactUnits(p, decimals) == 1
  {
    NatOfSnoc(ZeroText(decimals - 1), '1');
    ZeroValue(decimals - 1);
    ZeroValue(1);
    assert ZeroText(1) == "0" && ZeroText(decimals - 1) + ['1'] == ZeroText(decimals - 1) + "1";
    hide NatOf;
    assert 0 * Pow10(decimals) == 0;
  }

  /** The two programs agree on every text exactly for mints of at most 19 decimals. */
  lemma JsAgreesIff(decimals: byte)
    ensures (forall s :: JsDecimal(s, decimals) == CanonicalizeAmount(s, decimals)) <==> decimals <= 19
  {
    if decimals <= 19 {
      forall s ensures JsDecimal(s, decimals) == CanonicalizeAmount(s, decimals) {
        JsAgrees(s, decimals);
      }
    } else {
      JsDiffers(decimals);
    }
  }

  // ---- The claim's pattern -----------------------------------------------------------------

  /** The texts that are their own canonical form are those of the claim's pattern that have base units. */
  lemma ClaimPatternIff(c: string, decimals: byte)
    ensures CanonicalizeAmount(c, decimals) == Some(c) <==> ClaimPattern(c) && AmountToBaseUnits(c, decimals).Some?
  {
    UnitsExact(c, decimals);
    if AmountToBaseUnits(c, decimals).Some? {
      var p := Split(c).value;
      SplitNormal(p, decimals);
      if ClaimPattern(c) {
        PatternNormal(c, p);
        PatternPositive(c, p, decimals);
      } else if CanonicalizeAmount(c, decimals) == Some(c) {
        NormalPattern(c, p, decimals);
      }
    }
  }

  lemma PatternNormal(c: string, p: Parts)
    requires ClaimPattern(c) && Split(c) == Some(p)
    ensures Normal(p) == c
  {
    var i := PointAt(c);
    assert TrimLeft("0") == "" by {
      assert "0"[1..] == "";
    }
    if i == |c| {
      assert c[..i] == c;
    } else {
      assert c == c[..i] + "." + c[i + 1..];
      assert p.frac[|p.frac| - 1] == c[|c| - 1];
    }
  }

  lemma NormalPattern(c: string, p: Parts, decimals: byte)
    requires Plain(p, decimals) && Split(c) == Some(p) && Normal(p) == c
    requires CanonicalizeAmount(c, decimals).Some?
    ensures ClaimPattern(c)
  {
    var q := NormalParts(p);
    SplitNormal(p, decimals);
    PointIs(q.int_, q.frac);
    if q.frac == "" {
      assert c[..|c|] == c;
      if c == "0" {
        ZeroHasNoCanonical(decimals);
      }
    } else {
      assert c[..|q.int_|] == q.int_ && c[|q.int_| + 1..] == q.frac;
    }
  }

  lemma ZeroHasNoCanonical(decimals: byte)
    ensures CanonicalizeAmount("0", decimals).None?
  {
    UnitsExact("0", decimals);
    PointIs("0", "");
    EmptyValue();
    ZeroValue(1);
    assert ZeroText(1) == "0";
  }

  lemma {:induction false} NonzeroValue(s: string)
    requires AllDigits(s) && s != "" && (s[|s| - 1] != '0' || s[0] != '0')
    ensures NatOf(s) > 0
  {
    var init, last := s[..|s| - 1], s[|s| - 1];
    NatOfSnoc(init, last);
    assert init + [last] == s;
    if last == '0' {
      NonzeroValue(init);
    }
  }

  lemma PatternPositive(c: string, p: Parts, decimals: nat)
    requires ClaimPattern(c) && Split(c) == Some(p) && Plain(p, decimals)
    ensures ExactUnits(p, decimals) > 0
  {
    var i := PointAt(c);
    if i == |c| {
      assert c[..i] == c;
      NonzeroValue(p.int_);
      hide NatOf;
      Grows(NatOf(p.int_), Pow10(decimals));
    } else {
      assert p.frac[|p.frac| - 1] == c[|c| - 1];
      NonzeroValue(p.frac);
      hide NatOf;
      Grows(NatOf(p.frac), Pow10(decimals - |p.frac|));
    }
  }

  /** An accepted amount is canonical, positive, within u64 and within the cap. */
  lemma ValidateSound(s: string, decimals: byte, maxAmount: string)
    requires ValidateAmount(s, decimals, maxAmount).Some?
    ensures var a := ValidateAmount(s, decimals, maxAmount).value;
            && CanonicalizeAmount(s, decimals) == Some(a) && ClaimPattern(a)
            && AmountToBaseUnits(maxAmount, decimals).Some?
            && 0 < AmountToBaseUnits(a, decimals).value <= AmountToBaseUnits(maxAmount, decimals).value <= U64_MAX
            && ValidateAmount(a, decimals, maxAmount) == Some(a)
  {
    CanonicalKeepsUnits(s, decimals);
    CanonicalKeepsUnits(maxAmount, decimals);
    ClaimPatternIff(ValidateAmount(s, decimals, maxAmount).value, decimals);
  }
}
