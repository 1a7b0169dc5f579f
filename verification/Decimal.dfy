/** crates/kiosk-core/src/pay.rs: which texts are amounts and what they are worth, written out digit by digit. */
module Decimal {
  // Amount.dfy works with parts, scales and checked steps. Here an amount is a text of digits with perhaps a
  // point, worth the number that its digits spell once they are padded to the token's decimals.

  import opened Wrappers
  import A = Amount

  predicate Digits(s: string) {
    forall i :: 0 <= i < |s| ==> '0' <= s[i] <= '9'
  }

  /** The number that digits spell, from the left. */
  function Worth(s: string): nat
    requires Digits(s)
  {
    if s == "" then 0 else Worth(s[..|s| - 1]) * 10 + (s[|s| - 1] as int - 48)
  }

  function Zeros(n: nat): (t: string)
    ensures |t| == n && Digits(t)
  {
    seq(n, _ => '0')
  }

  /** A whole number, or a whole number and decimals. */
  predicate Written(s: string, whole: string, places: string)
    ensures Written(s, whole, places) ==> whole != "" && Digits(whole) && Digits(places)
  {
    && whole != "" && Digits(whole) && Digits(places)
    && s == if places == "" then whole else whole + "." + places
  }

  /** The text is an amount of a token with so many decimals, worth so many base units. */
  ghost predicate IsAmount(s: string, decimals: nat, units: nat) {
    && decimals <= 19 && units <= 18_446_744_073_709_551_615
    && exists whole, places ::
         Written(s, whole, places) && |places| <= decimals && units == Worth(whole + places + Zeros(decimals - |places|))
  }

  /** No leading zero but a lone one, no trailing one after the point, and not zero. */
  ghost predicate IsNormal(s: string) {
    && s != "0"
    && exists whole, places ::
         Written(s, whole, places) && (whole == "0" || whole[0] != '0') && (places != "" ==> places[|places| - 1] != '0')
  }

  // ---- The pieces agree --------------------------------------------------------------------

  lemma DigitsIff(s: string)
    ensures Digits(s) <==> A.AllDigits(s)
  {
    assert forall i :: 0 <= i < |s| ==> (A.IsDigit(s[i]) <==> '0' <= s[i] <= '9');
  }

  lemma {:induction false} WorthIs(s: string)
    requires Digits(s)
    ensures A.AllDigits(s) && Worth(s) == A.NatOf(s)
  {
    DigitsIff(s);
    if s == "" {
      A.EmptyValue();
    } else {
      var init, last := s[..|s| - 1], s[|s| - 1];
      WorthIs(init);
      A.NatOfSnoc(init, last);
      assert init + [last] == s;
    }
  }

  lemma NoPoint(s: string)
    requires Digits(s)
    ensures A.PointAt(s) == |s|
  {
    A.PointUnique(s, |s|);
  }

  /** Cutting at the point finds the two sides. */
  lemma WrittenIff(s: string, whole: string, places: string)
    ensures Written(s, whole, places) <==>
            A.Split(s) == Some(A.Parts(whole, places)) && whole != "" && A.AllDigits(whole) && A.AllDigits(places)
  {
    DigitsIff(whole);
    DigitsIff(places);
    if Written(s, whole, places) {
      if places == "" {
        NoPoint(s);
      } else {
        A.PointUnique(s, |whole|);
        assert s[..|whole|] == whole && s[|whole| + 1..] == places;
      }
    }
    if A.Split(s) == Some(A.Parts(whole, places)) && whole != "" && A.AllDigits(whole) && A.AllDigits(places) {
      var i := A.PointAt(s);
      if i < |s| {
        assert s == s[..i] + "." + s[i + 1..];
      }
    }
  }

  /** The exact units are the digits, padded. */
  lemma UnitsAre(whole: string, places: string, decimals: nat)
    requires whole != "" && Digits(whole) && Digits(places) && |places| <= decimals
    ensures A.Plain(A.Parts(whole, places), decimals)
    ensures A.ExactUnits(A.Parts(whole, places), decimals) == Worth(whole + places + Zeros(decimals - |places|))
  {
    hide A.NatOf, A.Pow10, Worth, Zeros, A.PadRight, Digits, A.AllDigits;
    DigitsIff(whole);
    DigitsIff(places);
    var padded := A.PadRight(places, decimals);
    A.PadValue(places, decimals);
    A.NatOfConcat(whole, padded);
    PaddedIs(whole, places, decimals);
    DigitsIff(whole + padded);
    WorthIs(whole + padded);
  }

  lemma PaddedIs(whole: string, places: string, decimals: nat)
    requires |places| <= decimals
    ensures whole + places + Zeros(decimals - |places|) == whole + A.PadRight(places, decimals)
  {
    ZerosAre(decimals - |places|);
    hide Zeros, A.ZeroText;
    assert whole + (places + Zeros(decimals - |places|)) == whole + places + Zeros(decimals - |places|);
  }

  lemma ZerosAre(n: nat)
    ensures Zeros(n) == A.ZeroText(n)
  {
  }

  // ---- Main results ------------------------------------------------------------------------

  /** An amount is read exactly when it is one, at exactly its worth. */
  lemma UnitsIff(s: string, decimals: byte, units: nat)
    ensures A.AmountToBaseUnits(s, decimals) == Some(units) <==> IsAmount(s, decimals, units)
  {
    A.UnitsExact(s, decimals);
    hide A.AmountToBaseUnits, A.ExactUnits, A.Split, Worth, Zeros, Written;
    if IsAmount(s, decimals, units) {
      var whole, places :| Written(s, whole, places) && |places| <= decimals && units == Worth(whole + places + Zeros(decimals - |places|));
      WrittenIff(s, whole, places);
      SidesAre(s, whole, places, decimals);
    }
    if A.AmountToBaseUnits(s, decimals) == Some(units) {
      var p := A.Split(s).value;
      WrittenIff(s, p.int_, p.frac);
      SidesAre(s, p.int_, p.frac, decimals);
    }
  }

  lemma SidesAre(s: string, whole: string, places: string, decimals: nat)
    requires Written(s, whole, places) && |places| <= decimals
    ensures A.Plain(A.Parts(whole, places), decimals)
    ensures A.ExactUnits(A.Parts(whole, places), decimals) == Worth(whole + places + Zeros(decimals - |places|))
  {
    UnitsAre(whole, places, decimals);
  }

  lemma PatternIff(s: string)
    ensures A.ClaimPattern(s) <==> IsNormal(s)
  {
    if A.ClaimPattern(s) {
      PatternIsNormal(s);
    }
    if IsNormal(s) {
      NormalIsPattern(s);
    }
  }

  lemma PatternIsNormal(s: string)
    requires A.ClaimPattern(s)
    ensures IsNormal(s)
  {
    var i := A.PointAt(s);
    var whole, places := s[..i], if i < |s| then s[i + 1..] else "";
    DigitsIff(whole);
    DigitsIff(places);
    hide A.AllDigits, Digits, A.PointAt;
    CutIs(s, i);
    assert Written(s, whole, places);
    assert places != "" ==> places[|places| - 1] == s[|s| - 1];
  }

  lemma CutIs(s: string, i: nat)
    requires i <= |s| && (i < |s| ==> s[i] == '.')
    ensures s == if i < |s| then s[..i] + "." + s[i + 1..] else s[..i]
  {
  }

  lemma NormalIsPattern(s: string)
    requires IsNormal(s)
    ensures A.ClaimPattern(s)
  {
    var w, p :| Written(s, w, p) && (w == "0" || w[0] != '0') && (p != "" ==> p[|p| - 1] != '0');
    WrittenIff(s, w, p);
    hide Digits, A.AllDigits;
    assert s == if p == "" then w else w + "." + p;
  }

  /** The canonical text of an amount is the one normal text that is worth as much, which must not be nothing. */
  lemma CanonicalIff(s: string, decimals: byte, c: string)
    ensures A.CanonicalizeAmount(s, decimals) == Some(c) <==>
            IsNormal(c) && exists units: nat :: units > 0 && IsAmount(s, decimals, units) && IsAmount(c, decimals, units)
  {
    hide A.CanonicalizeAmount, A.AmountToBaseUnits, IsAmount, IsNormal, A.ClaimPattern;
    PatternIff(c);
    forall t, units: nat ensures A.AmountToBaseUnits(t, decimals) == Some(units) <==> IsAmount(t, decimals, units) {
      UnitsIff(t, decimals, units);
    }
    A.ClaimPatternIff(c, decimals);
    if A.CanonicalizeAmount(s, decimals).Some? {
      A.CanonicalKeepsUnits(s, decimals);
    }
    if exists units: nat :: units > 0 && IsAmount(s, decimals, units) {
      PositiveIsCanonical(s, decimals);
      if A.CanonicalizeAmount(c, decimals).Some? {
        A.CanonicalUnique(s, c, decimals);
      }
    }
    A.ClaimPatternIff(if A.CanonicalizeAmount(s, decimals).Some? then A.CanonicalizeAmount(s, decimals).value else c, decimals);
  }

  lemma PositiveIsCanonical(s: string, decimals: byte)
    requires A.AmountToBaseUnits(s, decimals).Some? && A.AmountToBaseUnits(s, decimals).value > 0
    ensures A.CanonicalizeAmount(s, decimals).Some?
  {
    A.UnitsExact(s, decimals);
    hide A.ExactUnits, A.Normal;
  }

  /** An amount passes, as its canonical text, exactly when the cap is an amount and it is not worth more. */
  lemma ValidateIff(s: string, decimals: byte, maxAmount: string, a: string)
    ensures A.ValidateAmount(s, decimals, maxAmount) == Some(a) <==>
            && A.CanonicalizeAmount(s, decimals) == Some(a)
            && exists units: nat, cap: nat :: IsAmount(s, decimals, units) && IsAmount(maxAmount, decimals, cap) && 0 < units <= cap
  {
    hide A.CanonicalizeAmount, A.AmountToBaseUnits, IsAmount;
    forall t, units: nat ensures A.AmountToBaseUnits(t, decimals) == Some(units) <==> IsAmount(t, decimals, units) {
      UnitsIff(t, decimals, units);
    }
    if A.CanonicalizeAmount(s, decimals).Some? {
      A.CanonicalKeepsUnits(s, decimals);
    }
    if A.CanonicalizeAmount(maxAmount, decimals).Some? {
      A.CanonicalKeepsUnits(maxAmount, decimals);
    } else if A.AmountToBaseUnits(maxAmount, decimals).Some? && A.AmountToBaseUnits(maxAmount, decimals).value > 0 {
      PositiveIsCanonical(maxAmount, decimals);
    }
  }

  /** The checkout's check is the same one for every token of at most 19 decimals. */
  lemma HandoffIff(s: string, decimals: byte, c: string)
    requires decimals <= 19
    ensures A.JsDecimal(s, decimals) == Some(c) <==>
            IsNormal(c) && exists units: nat :: units > 0 && IsAmount(s, decimals, units) && IsAmount(c, decimals, units)
  {
    hide IsNormal, IsAmount, A.JsDecimal, A.CanonicalizeAmount;
    CanonicalIff(s, decimals, c);
    A.JsAgrees(s, decimals);
  }
}
