/** plugins/kiosk-watch/src/watch.rs: token balances of a transaction and the merchant's net credit. */
module Balances {
  import opened Wrappers
  import R = Rpc

  datatype Balance = Balance(index: nat, owner: string, mint: string, amount: nat, decimals: byte)

  // ---- Reading -----------------------------------------------------------------------------

  predicate Readable(e: R.BalanceEntry, keyCount: nat) {
    && e.accountIndex.Some? && e.accountIndex.value < keyCount
    && e.owner.Some? && e.mint.Some? && e.decimals.Some?
    && e.amount.Some? && e.amount.value <= U64_MAX
  }

  function Read(e: R.BalanceEntry, keyCount: nat): Balance
    requires Readable(e, keyCount)
  {
    Balance(e.accountIndex.value, e.owner.value, e.mint.value, e.amount.value, e.decimals.value)
  }

  predicate AllReadable(es: seq<R.BalanceEntry>, keyCount: nat) {
    && (forall i :: 0 <= i < |es| ==> Readable(es[i], keyCount))
    && (forall i, j :: 0 <= i < j < |es| ==> es[i].accountIndex != es[j].accountIndex)
  }

  /** Every entry is readable and no two name one account; `None` is a decode error. */
  function BalancesSpec(entries: Option<seq<R.BalanceEntry>>, keyCount: nat): (r: Option<seq<Balance>>)
    ensures r.Some? <==> entries.Some? && AllReadable(entries.value, keyCount)
  {
    if entries.None? || !AllReadable(entries.value, keyCount) then None
    else Some(seq(|entries.value|, i requires 0 <= i < |entries.value| => Read(entries.value[i], keyCount)))
  }

  /** These are the balances of the entries, one for one: complete, in range, and each of its own account. */
  predicate Lists(entries: Option<seq<R.BalanceEntry>>, keyCount: nat, bs: seq<Balance>) {
    && entries.Some? && |entries.value| == |bs|
    && (forall i :: 0 <= i < |bs| ==>
         && entries.value[i] == R.BalanceEntry(Some(bs[i].index), Some(bs[i].owner), Some(bs[i].mint), Some(bs[i].amount),
                                               Some(bs[i].decimals))
         && bs[i].index < keyCount && bs[i].amount <= U64_MAX)
    && (forall i, j :: 0 <= i < j < |bs| ==> bs[i].index != bs[j].index)
  }

  /** What is read is what is listed, and an entry that is cut, out of range or repeated spoils the list. */
  lemma ReadIff(entries: Option<seq<R.BalanceEntry>>, keyCount: nat, bs: seq<Balance>)
    ensures BalancesSpec(entries, keyCount) == Some(bs) <==> Lists(entries, keyCount, bs)
  {
    if BalancesSpec(entries, keyCount).Some? {
      ReadLists(entries, keyCount);
      var read := BalancesSpec(entries, keyCount).value;
      if Lists(entries, keyCount, bs) {
        assert forall i :: 0 <= i < |bs| ==> bs[i] == read[i];
        assert bs == read;
      }
    }
    ListedIsRead(entries, keyCount, bs);
  }

  lemma ListedIsRead(entries: Option<seq<R.BalanceEntry>>, keyCount: nat, bs: seq<Balance>)
    ensures Lists(entries, keyCount, bs) ==> BalancesSpec(entries, keyCount).Some?
  {
    if Lists(entries, keyCount, bs) {
      var es := entries.value;
      forall i | 0 <= i < |es| ensures Readable(es[i], keyCount) && es[i].accountIndex == Some(bs[i].index) {}
    }
  }

  lemma ReadLists(entries: Option<seq<R.BalanceEntry>>, keyCount: nat)
    requires BalancesSpec(entries, keyCount).Some?
    ensures Lists(entries, keyCount, BalancesSpec(entries, keyCount).value)
  {
    ReadOneEach(entries, keyCount);
    var es, read := entries.value, BalancesSpec(entries, keyCount).value;
    forall i | 0 <= i < |es|
      ensures es[i] == R.BalanceEntry(Some(read[i].index), Some(read[i].owner), Some(read[i].mint), Some(read[i].amount),
                                      Some(read[i].decimals))
      ensures read[i].index < keyCount && read[i].amount <= U64_MAX
    {
      assert Readable(es[i], keyCount);
    }
  }

  /** `token_balances`, with its set of seen account indices. */
  method TokenBalances(entries: Option<seq<R.BalanceEntry>>, keyCount: nat) returns (r: Option<seq<Balance>>)
    ensures r == BalancesSpec(entries, keyCount)
  {
    if entries.None? {
      return None;
    }
    var es := entries.value;
    var seen: set<nat> := {};
    var out: seq<Balance> := [];
    for i := 0 to |es|
      invariant |out| == i
      invariant AllReadable(es[..i], keyCount)
      invariant forall k :: 0 <= k < i ==> out[k] == Read(es[k], keyCount)
      invariant forall x :: x in seen <==> exists k :: 0 <= k < i && es[k].accountIndex == Some(x)
    {
      var e := es[i];
      OneMore(es, i, keyCount);
      if !Readable(e, keyCount) || e.accountIndex.value in seen {
        return None;
      }
      seen := seen + {e.accountIndex.value};
      out := out + [Read(e, keyCount)];
    }
    assert es[..|es|] == es;
    assert out == BalancesSpec(entries, keyCount).value;
    return Some(out);
  }

  /** One more entry is readable if it is so itself and its account is new. */
  lemma OneMore(es: seq<R.BalanceEntry>, i: nat, keyCount: nat)
    requires i < |es| && AllReadable(es[..i], keyCount)
    ensures AllReadable(es[..i + 1], keyCount) <==>
            Readable(es[i], keyCount) && forall k :: 0 <= k < i ==> es[k].accountIndex != es[i].accountIndex
    ensures AllReadable(es, keyCount) ==> AllReadable(es[..i + 1], keyCount)
  {
    var a, b := es[..i], es[..i + 1];
    assert (forall k :: 0 <= k < i ==> b[k] == a[k]) && b[i] == es[i];
    hide Readable;
  }

  // ---- The merchant's total ----------------------------------------------------------------

  predicate Ours(b: Balance, owner: string, mint: string) {
    b.owner == owner && b.mint == mint
  }

  function Share(b: Balance, owner: string, mint: string): nat {
    if Ours(b, owner, mint) then b.amount else 0
  }

  /** What `owner` holds in `mint`, without any machine bound. */
  function Total(bs: seq<Balance>, owner: string, mint: string): nat {
    if bs == [] then 0 else Total(bs[..|bs| - 1], owner, mint) + Share(bs[|bs| - 1], owner, mint)
  }

  /** The fold of checked u128 additions over the merchant's balances. */
  function CheckedTotal(bs: seq<Balance>, owner: string, mint: string): Option<nat> {
    if bs == [] then Some(0) else
    var b := bs[|bs| - 1];
    match CheckedTotal(bs[..|bs| - 1], owner, mint)
    case None => None
    case Some(t) =>
      if !Ours(b, owner, mint) then Some(t) else if t + b.amount > U128_MAX then None else Some(t + b.amount)
  }

  lemma {:induction false} CheckedIsTotal(bs: seq<Balance>, owner: string, mint: string)
    ensures CheckedTotal(bs, owner, mint) ==
            if Total(bs, owner, mint) <= U128_MAX then Some(Total(bs, owner, mint)) else None
  {
    if bs != [] {
      CheckedIsTotal(bs[..|bs| - 1], owner, mint);
    }
  }

  lemma {:induction false} TotalBound(bs: seq<Balance>, owner: string, mint: string)
    requires forall i :: 0 <= i < |bs| ==> bs[i].amount <= U64_MAX
    ensures Total(bs, owner, mint) <= |bs| * U64_MAX
  {
    if bs != [] {
      TotalBound(bs[..|bs| - 1], owner, mint);
    }
  }

  lemma {:induction false} BelowSize(s: set<nat>, n: nat)
    requires forall x :: x in s ==> x < n
    ensures |s| <= n
  {
    if n > 0 {
      var t := s - {n - 1};
      BelowSize(t, n - 1);
      if n - 1 in s {
        assert s == t + {n - 1};
      } else {
        assert s == t;
      }
    } else {
      assert s == {};
    }
  }

  lemma {:induction false} DistinctSize(es: seq<R.BalanceEntry>, keyCount: nat) returns (s: set<nat>)
    requires AllReadable(es, keyCount)
    ensures |s| == |es| && forall x :: x in s <==> exists i :: 0 <= i < |es| && es[i].accountIndex == Some(x)
  {
    s := {};
    if es != [] {
      var init, last := es[..|es| - 1], es[|es| - 1];
      var t := DistinctSize(init, keyCount);
      s := t + {last.accountIndex.value};
      forall i | 0 <= i < |init| ensures init[i].accountIndex != last.accountIndex {
        assert init[i] == es[i];
      }
      assert last.accountIndex.value !in t;
      forall x | x in s ensures exists i :: 0 <= i < |es| && es[i].accountIndex == Some(x) {
        if x in t {
          var i :| 0 <= i < |init| && init[i].accountIndex == Some(x);
          assert es[i].accountIndex == Some(x);
        } else {
          assert es[|es| - 1].accountIndex == Some(x);
        }
      }
      forall i | 0 <= i < |es| ensures es[i].accountIndex.value in s {
        if i < |init| {
          assert init[i].accountIndex == Some(es[i].accountIndex.value);
        }
      }
    }
  }

  /** The u128 sum cannot overflow: indices are distinct and below the number of keys, which fits a machine word. */
  lemma SumFits(entries: Option<seq<R.BalanceEntry>>, keyCount: nat, owner: string, mint: string)
    requires keyCount <= U64_MAX && BalancesSpec(entries, keyCount).Some?
    ensures var bs := BalancesSpec(entries, keyCount).value;
            CheckedTotal(bs, owner, mint) == Some(Total(bs, owner, mint))
  {
    var es := entries.value;
    var bs := BalancesSpec(entries, keyCount).value;
    var s := DistinctSize(es, keyCount);
    BelowSize(s, keyCount);
    TotalBound(bs, owner, mint);
    Product(|bs|, U64_MAX);
    CheckedIsTotal(bs, owner, mint);
  }

  lemma Product(n: nat, m: nat)
    requires n <= U64_MAX && m == U64_MAX
    ensures n * m <= U128_MAX
  {
  }

  // ---- One transfer ------------------------------------------------------------------------

  /** The balance of one account: the first entry with its index. */
  function BalanceAt(bs: seq<Balance>, index: nat): (b: Option<Balance>)
    ensures b.Some? ==> b.value in bs && b.value.index == index
  {
    if bs == [] then None else if bs[0].index == index then Some(bs[0]) else BalanceAt(bs[1..], index)
  }

  /** No two entries name one account. */
  predicate OneEach(bs: seq<Balance>) {
    forall i, j :: 0 <= i < j < |bs| ==> bs[i].index != bs[j].index
  }

  /** Every list that is read has one entry for each of its accounts. */
  lemma ReadOneEach(entries: Option<seq<R.BalanceEntry>>, keyCount: nat)
    requires BalancesSpec(entries, keyCount).Some?
    ensures OneEach(BalancesSpec(entries, keyCount).value)
  {
    var bs := BalancesSpec(entries, keyCount).value;
    forall i, j | 0 <= i < j < |bs| ensures bs[i].index != bs[j].index {
      assert entries.value[i].accountIndex != entries.value[j].accountIndex;
      assert bs[i] == Read(entries.value[i], keyCount) && bs[j] == Read(entries.value[j], keyCount);
    }
  }

  /**
   * `units` moved from account `s` to account `d` of the same mint, and every other account is as it
   * was, in whatever order the two lists name their accounts.
   */
  ghost predicate Transferred(pre: seq<Balance>, post: seq<Balance>, s: nat, d: nat, units: nat) {
    && s != d && BalanceAt(pre, s).Some? && BalanceAt(pre, d).Some?
    && BalanceAt(pre, s).value.mint == BalanceAt(pre, d).value.mint && BalanceAt(pre, s).value.amount >= units
    && forall x :: BalanceAt(post, x) == After(pre, s, d, units, x)
  }

  /** What account `x` holds afterwards. */
  function After(pre: seq<Balance>, s: nat, d: nat, units: nat, x: nat): Option<Balance>
    requires BalanceAt(pre, s).Some? && BalanceAt(pre, d).Some? && BalanceAt(pre, s).value.amount >= units
  {
    var from, to := BalanceAt(pre, s).value, BalanceAt(pre, d).value;
    if x == s then Some(from.(amount := from.amount - units))
    else if x == d then Some(to.(amount := to.amount + units))
    else BalanceAt(pre, x)
  }

  lemma {:induction false} BalanceAtIs(bs: seq<Balance>, k: nat)
    requires k < |bs| && OneEach(bs)
    ensures BalanceAt(bs, bs[k].index) == Some(bs[k])
  {
    if k > 0 {
      assert bs[0].index != bs[k].index;
      forall i, j | 0 <= i < j < |bs| - 1 ensures bs[1..][i].index != bs[1..][j].index {
        assert bs[1..][i] == bs[i + 1] && bs[1..][j] == bs[j + 1];
      }
      BalanceAtIs(bs[1..], k - 1);
    }
  }

  /** With one entry for each account, being listed and being found are one thing. */
  lemma ListedIff(bs: seq<Balance>, b: Balance)
    requires OneEach(bs)
    ensures b in bs <==> BalanceAt(bs, b.index) == Some(b)
  {
    if b in bs {
      var k :| 0 <= k < |bs| && bs[k] == b;
      BalanceAtIs(bs, k);
    }
  }

  lemma {:induction false} TotalUpdate(bs: seq<Balance>, i: nat, b: Balance, owner: string, mint: string)
    requires i < |bs|
    ensures Total(bs[i := b], owner, mint) == Total(bs, owner, mint) - Share(bs[i], owner, mint) + Share(b, owner, mint)
  {
    var n := |bs| - 1;
    if i < n {
      TotalUpdate(bs[..n], i, b, owner, mint);
      assert bs[i := b][..n] == bs[..n][i := b];
    } else {
      assert bs[i := b][..n] == bs[..n];
    }
  }

  lemma {:induction false} TotalRemove(bs: seq<Balance>, k: nat, owner: string, mint: string)
    requires k < |bs|
    ensures Total(bs, owner, mint) == Total(bs[..k] + bs[k + 1..], owner, mint) + Share(bs[k], owner, mint)
  {
    var n := |bs| - 1;
    if k < n {
      TotalRemove(bs[..n], k, owner, mint);
      var rest := bs[..k] + bs[k + 1..];
      assert rest[..n - 1] == bs[..n][..k] + bs[..n][k + 1..] && rest[n - 1] == bs[n];
    } else {
      assert bs[..k] + bs[k + 1..] == bs[..n];
    }
  }

  /** A total does not depend on the order of the entries. */
  lemma {:induction false} TotalOfSame(a: seq<Balance>, b: seq<Balance>, owner: string, mint: string)
    requires OneEach(a) && OneEach(b) && forall e :: e in a <==> e in b
    ensures Total(a, owner, mint) == Total(b, owner, mint)
  {
    if a == [] {
      SomeListed(b);
    } else {
      var n := |a| - 1;
      var init, last := a[..n], a[n];
      assert last in b;
      var k :| 0 <= k < |b| && b[k] == last;
      var c := b[..k] + b[k + 1..];
      TotalRemove(b, k, owner, mint);
      hide Total, OneEach;
      Removed(b, k);
      Removed(a, n);
      assert init == a[..n] + a[n + 1..];
      assert forall e :: e in init <==> e in a && e != last;
      assert forall e :: e in c <==> e in b && e != last;
      TotalOfSame(init, c, owner, mint);
      TotalLast(a, owner, mint);
    }
  }

  lemma SomeListed(bs: seq<Balance>)
    ensures bs != [] ==> exists e :: e in bs
  {
    if bs != [] {
      assert bs[0] in bs;
    }
  }

  lemma TotalLast(bs: seq<Balance>, owner: string, mint: string)
    requires bs != []
    ensures Total(bs, owner, mint) == Total(bs[..|bs| - 1], owner, mint) + Share(bs[|bs| - 1], owner, mint)
  {
  }

  lemma Removed(bs: seq<Balance>, k: nat)
    requires k < |bs| && OneEach(bs)
    ensures OneEach(bs[..k] + bs[k + 1..])
    ensures forall e :: e in bs[..k] + bs[k + 1..] <==> e in bs && e != bs[k]
  {
    var c := bs[..k] + bs[k + 1..];
    assert forall i :: 0 <= i < |c| ==> c[i] == bs[if i < k then i else i + 1];
    forall e | e in bs && e != bs[k] ensures e in c {
      var i :| 0 <= i < |bs| && bs[i] == e;
      assert c[if i < k then i else i - 1] == e;
    }
  }

  /** Replacing the entry of one account. */
  lemma Replaced(bs: seq<Balance>, b: Balance, owner: string, mint: string) returns (c: seq<Balance>)
    requires OneEach(bs) && BalanceAt(bs, b.index).Some?
    ensures OneEach(c) && forall x :: BalanceAt(c, x) == if x == b.index then Some(b) else BalanceAt(bs, x)
    ensures Total(c, owner, mint) ==
            Total(bs, owner, mint) - Share(BalanceAt(bs, b.index).value, owner, mint) + Share(b, owner, mint)
  {
    var k :| 0 <= k < |bs| && bs[k] == BalanceAt(bs, b.index).value;
    c := bs[k := b];
    TotalUpdate(bs, k, b, owner, mint);
    hide Total, Share;
    forall x: nat ensures BalanceAt(c, x) == if x == b.index then Some(b) else BalanceAt(bs, x) {
      if x == b.index {
        BalanceAtIs(c, k);
      } else if BalanceAt(c, x).Some? {
        var i :| 0 <= i < |c| && c[i] == BalanceAt(c, x).value;
        BalanceAtIs(bs, i);
      } else if BalanceAt(bs, x).Some? {
        var i :| 0 <= i < |bs| && bs[i] == BalanceAt(bs, x).value;
        BalanceAtIs(c, i);
      }
    }
  }

  /** The transfer carried out on the first list, one account at a time. */
  lemma Moved(pre: seq<Balance>, post: seq<Balance>, s: nat, d: nat, units: nat, owner: string, mint: string)
    returns (moved: seq<Balance>)
    requires OneEach(pre) && Transferred(pre, post, s, d, units)
    ensures OneEach(moved) && forall x :: BalanceAt(moved, x) == BalanceAt(post, x)
    ensures var from, to := BalanceAt(pre, s).value, BalanceAt(pre, d).value;
            Total(moved, owner, mint) ==
            Total(pre, owner, mint) - Share(from, owner, mint) + Share(from.(amount := from.amount - units), owner, mint)
            - Share(to, owner, mint) + Share(to.(amount := to.amount + units), owner, mint)
  {
    hide Total, OneEach, BalanceAt, Share;
    var from, to := BalanceAt(pre, s).value, BalanceAt(pre, d).value;
    var paid := Replaced(pre, from.(amount := from.amount - units), owner, mint);
    moved := Replaced(paid, to.(amount := to.amount + units), owner, mint);
    forall x: nat ensures BalanceAt(moved, x) == BalanceAt(post, x) {
      assert BalanceAt(post, x) == After(pre, s, d, units, x);
    }
  }

  /** What a transfer does to the shares of its two accounts. */
  lemma Shares(pre: seq<Balance>, post: seq<Balance>, s: nat, d: nat, units: nat, owner: string, mint: string)
    requires Transferred(pre, post, s, d, units) && Ours(BalanceAt(pre, d).value, owner, mint)
    ensures BalanceAt(pre, s).Some? && BalanceAt(pre, d).Some? && BalanceAt(pre, s).value.amount >= units
    ensures var from, to := BalanceAt(pre, s).value, BalanceAt(pre, d).value;
            && Share(from.(amount := from.amount - units), owner, mint) + (if Ours(from, owner, mint) then units else 0)
               == Share(from, owner, mint)
            && Share(to.(amount := to.amount + units), owner, mint) == Share(to, owner, mint) + units
  {
    hide BalanceAt, After;
  }

  lemma TotalByAccount(a: seq<Balance>, b: seq<Balance>, owner: string, mint: string)
    requires OneEach(a) && OneEach(b) && forall x :: BalanceAt(a, x) == BalanceAt(b, x)
    ensures Total(a, owner, mint) == Total(b, owner, mint)
  {
    hide Total, OneEach, BalanceAt;
    forall e ensures e in a <==> e in b {
      ListedIff(a, e);
      ListedIff(b, e);
    }
    TotalOfSame(a, b, owner, mint);
  }

  /**
   * The net credit of one transfer to the merchant is the whole amount when the source is not the
   * merchant's in that mint, and nothing when it is.
   */
  lemma DeltaExact(pre: seq<Balance>, post: seq<Balance>, s: nat, d: nat, units: nat, owner: string, mint: string)
    requires OneEach(pre) && OneEach(post) && Transferred(pre, post, s, d, units) && Ours(BalanceAt(pre, d).value, owner, mint)
    ensures Total(post, owner, mint) ==
            Total(pre, owner, mint) + if Ours(BalanceAt(pre, s).value, owner, mint) then 0 else units
  {
    hide Total, OneEach, BalanceAt, Share, Ours, Transferred;
    Shares(pre, post, s, d, units, owner, mint);
    var moved := Moved(pre, post, s, d, units, owner, mint);
    TotalByAccount(moved, post, owner, mint);
  }
}
