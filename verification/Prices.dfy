/** Price lists, as charge, watch and handoff read them. */
module Prices {
  // The loops of plugins/kiosk-charge/src/charge.rs, plugins/kiosk-watch/src/watch.rs and
  // scripts/trusted-charge-handoff.mjs over the entries between commas. They differ only in how an
  // amount is checked.

  import opened Wrappers
  import A = Amount

  /** One nonempty entry, trimmed and cut at its first colon, with both sides trimmed. */
  datatype Piece = NoColon | Pair(item: string, amount: string)

  predicate IsItemChar(c: char) {
    'A' <= c <= 'Z' || 'a' <= c <= 'z' || '0' <= c <= '9' || c == '_' || c == '-'
  }

  /** `/^[A-Za-z0-9_-]{1,64}$/`. */
  predicate IsItemId(s: string) {
    1 <= |s| <= 64 && forall i :: 0 <= i < |s| ==> IsItemChar(s[i])
  }

  /** An amount check: the canonical amount, or `None` for a refusal. */
  type Check = string -> Option<string>

  function CapCheck(decimals: byte, maxAmount: string): Check {
    (s: string) => A.ValidateAmount(s, decimals, maxAmount)
  }

  function WatchCheck(decimals: byte): Check {
    (s: string) => A.CanonicalizeAmount(s, decimals)
  }

  function JsCheck(decimals: byte): Check {
    (s: string) => A.JsDecimal(s, decimals)
  }

  predicate Usable(p: Piece, check: Check) {
    p.Pair? && IsItemId(p.item) && check(p.amount).Some?
  }

  /** Every entry is usable and no item is listed twice. */
  predicate Listable(ps: seq<Piece>, check: Check) {
    && (forall i :: 0 <= i < |ps| ==> Usable(ps[i], check))
    && (forall i, j :: 0 <= i < j < |ps| ==> ps[i].item != ps[j].item)
  }

  /** Exactly the listed items, each at its checked amount. */
  predicate IsPriceMap(m: map<string, string>, ps: seq<Piece>, check: Check) {
    && Listable(ps, check)
    && (forall i :: 0 <= i < |ps| ==> ps[i].item in m && m[ps[i].item] == check(ps[i].amount).value)
    && (forall k :: k in m ==> exists i :: 0 <= i < |ps| && ps[i].item == k)
  }

  /** The loop, stopping at the first bad entry. */
  method PriceList(ps: seq<Piece>, check: Check) returns (r: Option<map<string, string>>)
    ensures r.Some? <==> Listable(ps, check)
    ensures r.Some? ==> IsPriceMap(r.value, ps, check)
  {
    hide IsItemId;
    var m: map<string, string> := map[];
    for i := 0 to |ps|
      invariant IsPriceMap(m, ps[..i], check)
    {
      var p := ps[i];
      if !Usable(p, check) {
        return None;
      }
      if p.item in m {
        var k :| 0 <= k < i && ps[..i][k].item == p.item;
        assert ps[k].item == ps[i].item;
        return None;
      }
      ghost var old_ := m;
      m := m[p.item := check(p.amount).value];
      AddEntry(old_, ps[..i], p, check);
      assert ps[..i + 1] == ps[..i] + [p];
    }
    assert ps[..|ps|] == ps;
    return Some(m);
  }

  lemma AddEntry(m: map<string, string>, ps: seq<Piece>, p: Piece, check: Check)
    requires IsPriceMap(m, ps, check) && Usable(p, check) && p.item !in m
    ensures IsPriceMap(m[p.item := check(p.amount).value], ps + [p], check)
  {
    hide IsItemId;
    var qs, m' := ps + [p], m[p.item := check(p.amount).value];
    forall k | k in m' ensures exists i :: 0 <= i < |qs| && qs[i].item == k {
      if k != p.item {
        var i :| 0 <= i < |ps| && ps[i].item == k;
        assert qs[i].item == k;
      } else {
        assert qs[|ps|].item == k;
      }
    }
  }

  /** The verifier and the handoff read every list alike, as long as a unit fits u64. */
  lemma WatchAndHandoffAgree(ps: seq<Piece>, decimals: byte, m: map<string, string>)
    requires decimals <= 19
    ensures IsPriceMap(m, ps, WatchCheck(decimals)) <==> IsPriceMap(m, ps, JsCheck(decimals))
  {
    forall s: string ensures WatchCheck(decimals)(s) == JsCheck(decimals)(s) {
      A.JsAgrees(s, decimals);
    }
    SameChecks(ps, WatchCheck(decimals), JsCheck(decimals), m);
  }

  lemma SameChecks(ps: seq<Piece>, a: Check, b: Check, m: map<string, string>)
    requires forall s :: a(s) == b(s)
    ensures IsPriceMap(m, ps, a) <==> IsPriceMap(m, ps, b)
  {
    hide IsItemId;
    assert forall i :: 0 <= i < |ps| ==> (Usable(ps[i], a) <==> Usable(ps[i], b));
  }

  /** A list that the charge accepts under its cap has the same prices for the verifier. */
  lemma ChargePricesAreWatchPrices(ps: seq<Piece>, decimals: byte, maxAmount: string, m: map<string, string>)
    requires IsPriceMap(m, ps, CapCheck(decimals, maxAmount))
    ensures IsPriceMap(m, ps, WatchCheck(decimals))
  {
    hide IsItemId;
    forall i | 0 <= i < |ps| ensures Usable(ps[i], WatchCheck(decimals))
      && WatchCheck(decimals)(ps[i].amount) == CapCheck(decimals, maxAmount)(ps[i].amount)
    {
      assert Usable(ps[i], CapCheck(decimals, maxAmount));
      A.ValidateSound(ps[i].amount, decimals, maxAmount);
    }
  }

  /** Every price is canonical and within the cap, and checking it again changes nothing. */
  lemma PricesAreCanonical(ps: seq<Piece>, decimals: byte, maxAmount: string, m: map<string, string>, item: string)
    requires IsPriceMap(m, ps, CapCheck(decimals, maxAmount)) && item in m
    ensures IsItemId(item) && A.ClaimPattern(m[item])
    ensures A.ValidateAmount(m[item], decimals, maxAmount) == Some(m[item])
    ensures A.CanonicalizeAmount(m[item], decimals) == Some(m[item])
    ensures A.AmountToBaseUnits(m[item], decimals).Some? && A.AmountToBaseUnits(m[item], decimals).value > 0
  {
    var i :| 0 <= i < |ps| && ps[i].item == item;
    hide IsItemId;
    assert Usable(ps[i], CapCheck(decimals, maxAmount));
    A.ValidateSound(ps[i].amount, decimals, maxAmount);
    A.ClaimPatternIff(m[item], decimals);
  }

  /** Looking one item up. */
  function PriceFor(ps: seq<Piece>, check: Check, item: string): Option<string> {
    if ps == [] then None
    else if ps[0].Pair? && ps[0].item == item then check(ps[0].amount)
    else PriceFor(ps[1..], check, item)
  }

  lemma {:induction false} PriceForAt(ps: seq<Piece>, check: Check, i: nat)
    requires Listable(ps, check) && i < |ps|
    ensures PriceFor(ps, check, ps[i].item) == check(ps[i].amount)
  {
    hide IsItemId;
    assert Usable(ps[0], check);
    if i > 0 {
      assert forall k :: 0 <= k < |ps| - 1 ==> ps[1..][k] == ps[k + 1];
      PriceForAt(ps[1..], check, i - 1);
    }
  }

  lemma {:induction false} PriceForNone(ps: seq<Piece>, check: Check, item: string)
    requires forall i :: 0 <= i < |ps| && ps[i].Pair? ==> ps[i].item != item
    ensures PriceFor(ps, check, item) == None
  {
    if ps != [] {
      PriceForNone(ps[1..], check, item);
    }
  }

  /** The map of a list answers what the list says. */
  lemma PriceForIs(m: map<string, string>, ps: seq<Piece>, check: Check, item: string)
    requires IsPriceMap(m, ps, check)
    ensures PriceFor(ps, check, item) == if item in m then Some(m[item]) else None
  {
    if item in m {
      var i :| 0 <= i < |ps| && ps[i].item == item;
      PriceForAt(ps, check, i);
      assert Usable(ps[i], check);
    } else {
      PriceForNone(ps, check, item);
    }
  }
}
