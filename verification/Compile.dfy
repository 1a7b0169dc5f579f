/** crates/kiosk-core/src/msg.rs: `Message::compile`, from instructions to ordered keys and indices. */
module Compile {
  import opened Wrappers
  import opened Message

  // ---- Byte order on keys ------------------------------------------------------------------

  /** Lexicographic order, as Rust compares byte arrays. */
  predicate Less(a: seq<byte>, b: seq<byte>) {
    if b == [] then false
    else if a == [] then true
    else a[0] < b[0] || (a[0] == b[0] && Less(a[1..], b[1..]))
  }

  lemma {:induction false} LessTotal(a: seq<byte>, b: seq<byte>)
    ensures a == b || Less(a, b) || Less(b, a)
    ensures !(Less(a, b) && Less(b, a)) && (a == b ==> !Less(a, b))
  {
    if a != [] && b != [] {
      LessTotal(a[1..], b[1..]);
      assert a == [a[0]] + a[1..] && b == [b[0]] + b[1..];
    }
  }

  lemma {:induction false} LessTrans(a: seq<byte>, b: seq<byte>, c: seq<byte>)
    requires Less(a, b) && Less(b, c)
    ensures Less(a, c)
  {
    if a != [] && a[0] == b[0] == c[0] {
      LessTrans(a[1..], b[1..], c[1..]);
    }
  }

  // ---- The ordered map ---------------------------------------------------------------------

  /** One BTreeMap entry: a key and the flags merged so far. */
  datatype Entry = Entry(key: Key, isSigner: bool, isWritable: bool)

  predicate Sorted(es: seq<Entry>) {
    forall i, j :: 0 <= i < j < |es| ==> Less(es[i].key, es[j].key)
  }

  /** `map.entry(key).or_default()`, then OR the flags in. */
  function Merge(es: seq<Entry>, key: Key, signer: bool, writable: bool): seq<Entry> {
    if es == [] then [Entry(key, signer, writable)]
    else if es[0].key == key then
      [Entry(key, es[0].isSigner || signer, es[0].isWritable || writable)] + es[1..]
    else if Less(key, es[0].key) then [Entry(key, signer, writable)] + es
    else [es[0]] + Merge(es[1..], key, signer, writable)
  }

  predicate Has(es: seq<Entry>, k: Key) {
    exists i :: 0 <= i < |es| && es[i].key == k
  }

  predicate Signs(es: seq<Entry>, k: Key) {
    exists i :: 0 <= i < |es| && es[i].key == k && es[i].isSigner
  }

  predicate Writes(es: seq<Entry>, k: Key) {
    exists i :: 0 <= i < |es| && es[i].key == k && es[i].isWritable
  }

  /** Merging changes the flags of its own key only, and only by OR. */
  lemma {:induction false} MergeFlags(es: seq<Entry>, key: Key, signer: bool, writable: bool, k: Key)
    ensures var r := Merge(es, key, signer, writable);
            && (Has(r, k) <==> Has(es, k) || k == key)
            && (Signs(r, k) <==> Signs(es, k) || (k == key && signer) )
            && (Writes(r, k) <==> Writes(es, k) || (k == key && writable))
  {
    var r := Merge(es, key, signer, writable);
    if es != [] {
      Unfold(es, k);
      Unfold(r, k);
      assert es[0].key != key && !Less(key, es[0].key) ==> r[1..] == Merge(es[1..], key, signer, writable);
      assert es[0].key == key ==> r[1..] == es[1..];
      assert es[0].key != key && Less(key, es[0].key) ==> r[1..] == es;
      MergeFlags(es[1..], key, signer, writable, k);
    } else {
      Unfold(r, k);
      assert r[1..] == [];
    }
  }

  lemma SortedCons(e: Entry, rest: seq<Entry>)
    requires Sorted(rest) && forall i :: 0 <= i < |rest| ==> Less(e.key, rest[i].key)
    ensures Sorted([e] + rest)
  {
    hide Less;
  }

  lemma {:induction false} MergeSorted(es: seq<Entry>, key: Key, signer: bool, writable: bool)
    requires Sorted(es)
    ensures Sorted(Merge(es, key, signer, writable))
  {
    if es != [] {
      var first, rest := es[0], es[1..];
      LessTotal(key, first.key);
      if first.key == key {
        SortedCons(Entry(key, first.isSigner || signer, first.isWritable || writable), rest);
      } else if Less(key, first.key) {
        forall i | 0 <= i < |es| ensures Less(key, es[i].key) {
          if i > 0 {
            LessTrans(key, first.key, es[i].key);
          }
        }
        SortedCons(Entry(key, signer, writable), es);
      } else {
        MergeSorted(rest, key, signer, writable);
        var r := Merge(rest, key, signer, writable);
        forall i | 0 <= i < |r| ensures Less(first.key, r[i].key) {
          MergeFlags(rest, key, signer, writable, r[i].key);
        }
        SortedCons(first, r);
      }
    }
  }

  /** Membership by head and tail. */
  lemma Unfold(es: seq<Entry>, k: Key)
    requires es != []
    ensures Has(es, k) <==> es[0].key == k || Has(es[1..], k)
    ensures Signs(es, k) <==> (es[0].key == k && es[0].isSigner) || Signs(es[1..], k)
    ensures Writes(es, k) <==> (es[0].key == k && es[0].isWritable) || Writes(es[1..], k)
  {
    var t := es[1..];
    assert forall i :: 0 <= i < |t| ==> t[i] == es[i + 1];
    if i :| 0 <= i < |es| && es[i].key == k {
      assert i > 0 ==> t[i - 1] == es[i];
    }
    if i :| 0 <= i < |es| && es[i].key == k && es[i].isSigner {
      assert i > 0 ==> t[i - 1] == es[i];
    }
    if i :| 0 <= i < |es| && es[i].key == k && es[i].isWritable {
      assert i > 0 ==> t[i - 1] == es[i];
    }
  }

  function MergeAccounts(es: seq<Entry>, ams: seq<AccountMeta>): seq<Entry> {
    if ams == [] then es else
    var am := ams[|ams| - 1];
    Merge(MergeAccounts(es, ams[..|ams| - 1]), am.pubkey, am.isSigner, am.isWritable)
  }

  function MergeInstruction(es: seq<Entry>, ix: Instruction): seq<Entry> {
    MergeAccounts(Merge(es, ix.programId, false, false), ix.accounts)
  }

  function MergeAll(ixs: seq<Instruction>): seq<Entry> {
    if ixs == [] then [] else MergeInstruction(MergeAll(ixs[..|ixs| - 1]), ixs[|ixs| - 1])
  }

  /** Every key of the transaction with its merged flags; the payer signs and is writable. */
  function Table(ixs: seq<Instruction>, payer: Key): seq<Entry> {
    Merge(MergeAll(ixs), payer, true, true)
  }

  // What the flags of a key should be, read off the instructions.

  predicate UsedBy(ix: Instruction, k: Key) {
    ix.programId == k || exists j :: 0 <= j < |ix.accounts| && ix.accounts[j].pubkey == k
  }

  predicate SignedIn(ix: Instruction, k: Key) {
    exists j :: 0 <= j < |ix.accounts| && ix.accounts[j].pubkey == k && ix.accounts[j].isSigner
  }

  predicate WrittenIn(ix: Instruction, k: Key) {
    exists j :: 0 <= j < |ix.accounts| && ix.accounts[j].pubkey == k && ix.accounts[j].isWritable
  }

  predicate AnyUses(ixs: seq<Instruction>, k: Key) {
    exists i :: 0 <= i < |ixs| && UsedBy(ixs[i], k)
  }

  predicate AnySigns(ixs: seq<Instruction>, k: Key) {
    exists i :: 0 <= i < |ixs| && SignedIn(ixs[i], k)
  }

  predicate AnyWrites(ixs: seq<Instruction>, k: Key) {
    exists i :: 0 <= i < |ixs| && WrittenIn(ixs[i], k)
  }

  predicate Used(ixs: seq<Instruction>, payer: Key, k: Key) {
    k == payer || AnyUses(ixs, k)
  }

  predicate MustSign(ixs: seq<Instruction>, payer: Key, k: Key) {
    k == payer || AnySigns(ixs, k)
  }

  predicate MayWrite(ixs: seq<Instruction>, payer: Key, k: Key) {
    k == payer || AnyWrites(ixs, k)
  }

  lemma {:induction false} AccountsFlags(es: seq<Entry>, ams: seq<AccountMeta>, k: Key)
    ensures var r := MergeAccounts(es, ams);
            && (Has(r, k) <==> Has(es, k) || exists j :: 0 <= j < |ams| && ams[j].pubkey == k)
            && (Signs(r, k) <==> Signs(es, k) || exists j :: 0 <= j < |ams| && ams[j].pubkey == k && ams[j].isSigner)
            && (Writes(r, k) <==> Writes(es, k) || exists j :: 0 <= j < |ams| && ams[j].pubkey == k && ams[j].isWritable)
  {
    hide Has, Signs, Writes, Merge;
    if ams != [] {
      var init, am := ams[..|ams| - 1], ams[|ams| - 1];
      AccountsFlags(es, init, k);
      MergeFlags(MergeAccounts(es, init), am.pubkey, am.isSigner, am.isWritable, k);
      assert forall j :: 0 <= j < |init| ==> init[j] == ams[j];
    }
  }

  lemma InstructionFlags(es: seq<Entry>, ix: Instruction, k: Key)
    ensures var r := MergeInstruction(es, ix);
            && (Has(r, k) <==> Has(es, k) || UsedBy(ix, k))
            && (Signs(r, k) <==> Signs(es, k) || SignedIn(ix, k))
            && (Writes(r, k) <==> Writes(es, k) || WrittenIn(ix, k))
  {
    hide Has, Signs, Writes, Merge, MergeAccounts;
    MergeFlags(es, ix.programId, false, false, k);
    AccountsFlags(Merge(es, ix.programId, false, false), ix.accounts, k);
  }

  lemma AnySnoc(ixs: seq<Instruction>, ix: Instruction, k: Key)
    ensures AnyUses(ixs + [ix], k) <==> AnyUses(ixs, k) || UsedBy(ix, k)
    ensures AnySigns(ixs + [ix], k) <==> AnySigns(ixs, k) || SignedIn(ix, k)
    ensures AnyWrites(ixs + [ix], k) <==> AnyWrites(ixs, k) || WrittenIn(ix, k)
  {
    hide UsedBy, SignedIn, WrittenIn;
    var r := ixs + [ix];
    assert r[|ixs|] == ix && forall i :: 0 <= i < |ixs| ==> r[i] == ixs[i];
  }

  lemma AnyLast(ixs: seq<Instruction>, k: Key)
    requires ixs != []
    ensures var init, ix := ixs[..|ixs| - 1], ixs[|ixs| - 1];
            && (AnyUses(ixs, k) <==> AnyUses(init, k) || UsedBy(ix, k))
            && (AnySigns(ixs, k) <==> AnySigns(init, k) || SignedIn(ix, k))
            && (AnyWrites(ixs, k) <==> AnyWrites(init, k) || WrittenIn(ix, k))
  {
    AnySnoc(ixs[..|ixs| - 1], ixs[|ixs| - 1], k);
    assert ixs[..|ixs| - 1] + [ixs[|ixs| - 1]] == ixs;
  }

  lemma MergeLast(ixs: seq<Instruction>)
    requires ixs != []
    ensures MergeAll(ixs) == MergeInstruction(MergeAll(ixs[..|ixs| - 1]), ixs[|ixs| - 1])
  {
  }

  lemma {:induction false} AllFlags(ixs: seq<Instruction>, k: Key)
    ensures var r := MergeAll(ixs);
            && (Has(r, k) <==> AnyUses(ixs, k))
            && (Signs(r, k) <==> AnySigns(ixs, k))
            && (Writes(r, k) <==> AnyWrites(ixs, k))
  {
    if ixs != [] {
      MergeLast(ixs);
      hide Has, Signs, Writes, MergeInstruction, AnyUses, AnySigns, AnyWrites, MergeAll;
      var init, ix := ixs[..|ixs| - 1], ixs[|ixs| - 1];
      AllFlags(init, k);
      InstructionFlags(MergeAll(init), ix, k);
      AnyLast(ixs, k);
    }
  }

  /** The merged flags of a key are the OR of all its mentions. */
  lemma TableFlags(ixs: seq<Instruction>, payer: Key, k: Key)
    ensures var t := Table(ixs, payer);
            && (Has(t, k) <==> Used(ixs, payer, k))
            && (Signs(t, k) <==> MustSign(ixs, payer, k))
            && (Writes(t, k) <==> MayWrite(ixs, payer, k))
  {
    AllFlags(ixs, k);
    MergeFlags(MergeAll(ixs), payer, true, true, k);
    hide Has, Signs, Writes, Merge, MergeAll, AnyUses, AnySigns, AnyWrites;
  }

  lemma {:induction false} AccountsSorted(es: seq<Entry>, ams: seq<AccountMeta>)
    requires Sorted(es)
    ensures Sorted(MergeAccounts(es, ams))
  {
    if ams != [] {
      var am := ams[|ams| - 1];
      AccountsSorted(es, ams[..|ams| - 1]);
      MergeSorted(MergeAccounts(es, ams[..|ams| - 1]), am.pubkey, am.isSigner, am.isWritable);
    }
  }

  lemma {:induction false} AllSorted(ixs: seq<Instruction>)
    ensures Sorted(MergeAll(ixs))
  {
    hide Merge, MergeAccounts;
    if ixs != [] {
      var init, ix := ixs[..|ixs| - 1], ixs[|ixs| - 1];
      AllSorted(init);
      MergeSorted(MergeAll(init), ix.programId, false, false);
      AccountsSorted(Merge(MergeAll(init), ix.programId, false, false), ix.accounts);
    }
  }

  lemma TableSorted(ixs: seq<Instruction>, payer: Key)
    ensures Sorted(Table(ixs, payer))
  {
    AllSorted(ixs);
    MergeSorted(MergeAll(ixs), payer, true, true);
  }

  // ---- The four classes --------------------------------------------------------------------

  /** The keys with exactly these flags, in map order. */
  function Select(es: seq<Entry>, signer: bool, writable: bool): seq<Key> {
    if es == [] then [] else
    var last := es[|es| - 1];
    Select(es[..|es| - 1], signer, writable)
    + if last.isSigner == signer && last.isWritable == writable then [last.key] else []
  }

  predicate SortedKeys(ks: seq<Key>) {
    forall i, j :: 0 <= i < j < |ks| ==> Less(ks[i], ks[j])
  }

  lemma AppendSorted(ks: seq<Key>, last: Key)
    requires SortedKeys(ks) && forall k :: k in ks ==> Less(k, last)
    ensures SortedKeys(ks + [last])
  {
    hide Less;
  }

  lemma {:induction false} SelectSound(es: seq<Entry>, signer: bool, writable: bool)
    requires Sorted(es)
    ensures SortedKeys(Select(es, signer, writable))
    ensures forall k :: k in Select(es, signer, writable) ==> Entry(k, signer, writable) in es
  {
    hide Less;
    if es != [] {
      var init, last := es[..|es| - 1], es[|es| - 1];
      SelectSound(init, signer, writable);
      forall e | e in init ensures e in es && Less(e.key, last.key) {
        var i :| 0 <= i < |init| && init[i] == e;
        assert es[i] == e;
      }
      AppendSorted(Select(init, signer, writable), last.key);
    }
  }

  lemma {:induction false} SelectComplete(es: seq<Entry>, e: Entry)
    requires e in es
    ensures e.key in Select(es, e.isSigner, e.isWritable)
  {
    var init := es[..|es| - 1];
    if e != es[|es| - 1] {
      assert es == init + [es[|es| - 1]];
      SelectComplete(init, e);
    }
  }

  /** In a sorted table a key has one entry, so its flags are that entry's flags. */
  lemma EntryFlags(es: seq<Entry>, e: Entry)
    requires Sorted(es) && e in es
    ensures Has(es, e.key) && (Signs(es, e.key) <==> e.isSigner) && (Writes(es, e.key) <==> e.isWritable)
  {
    var i :| 0 <= i < |es| && es[i] == e;
    forall j | 0 <= j < |es| && es[j].key == e.key ensures j == i {
      LessTotal(e.key, e.key);
    }
  }

  /** `ws.retain(|k| k != payer)`. */
  function Without(ks: seq<Key>, payer: Key): seq<Key> {
    if ks == [] then [] else
    Without(ks[..|ks| - 1], payer) + if ks[|ks| - 1] != payer then [ks[|ks| - 1]] else []
  }

  lemma {:induction false} WithoutSound(ks: seq<Key>, payer: Key)
    requires SortedKeys(ks)
    ensures var r := Without(ks, payer);
            && SortedKeys(r)
            && (forall k :: k in r <==> k in ks && k != payer)
            && |r| == |ks| - if payer in ks then 1 else 0
  {
    if ks != [] {
      var init, last := ks[..|ks| - 1], ks[|ks| - 1];
      WithoutSound(init, payer);
      LessTotal(last, last);
      hide Less;
      assert ks == init + [last];
      forall k | k in init ensures Less(k, last) {
        var i :| 0 <= i < |init| && init[i] == k;
        assert ks[i] == k;
      }
      AppendSorted(Without(init, payer), last);
    }
  }

  // ---- Layout ------------------------------------------------------------------------------

  /** Account keys: payer, other writable signers, read-only signers, writable, read-only. */
  function AccountKeys(es: seq<Entry>, payer: Key): seq<Key> {
    [payer] + Without(Select(es, true, true), payer)
    + Select(es, true, false) + Select(es, false, true) + Select(es, false, false)
  }

  /** `iter().position(..)`, for a key that is there. */
  function IndexOf(ks: seq<Key>, k: Key): (i: nat)
    requires k in ks
    ensures i < |ks| && ks[i] == k
  {
    if ks[0] == k then 0 else 1 + IndexOf(ks[1..], k)
  }

  function CompileInstruction(keys: seq<Key>, ix: Instruction): CompiledInstruction
    requires Covers(keys, ix)
  {
    CompiledInstruction(
      IndexOf(keys, ix.programId) % 256,
      seq(|ix.accounts|, j requires 0 <= j < |ix.accounts| => IndexOf(keys, ix.accounts[j].pubkey) % 256),
      ix.data)
  }

  predicate Covers(keys: seq<Key>, ix: Instruction) {
    ix.programId in keys && forall j :: 0 <= j < |ix.accounts| ==> ix.accounts[j].pubkey in keys
  }

  /** The compiled message; the casts to u8 keep the low byte. */
  function CompileSpec(ixs: seq<Instruction>, payer: Key, blockhash: Key): (m: Message)
    ensures m.accountKeys == AccountKeys(Table(ixs, payer), payer) && |m.instructions| == |ixs|
  {
    var t := Table(ixs, payer);
    var keys := AccountKeys(t, payer);
    AllCovered(ixs, payer);
    Message(
      Header((|Select(t, true, true)| + |Select(t, true, false)|) % 256,
             |Select(t, true, false)| % 256,
             |Select(t, false, false)| % 256),
      keys,
      blockhash,
      seq(|ixs|, i requires 0 <= i < |ixs| => CompileInstruction(keys, ixs[i])))
  }

  /** Which keys are laid out, and in which class each one sits. */
  lemma KeyPlace(es: seq<Entry>, payer: Key, k: Key)
    requires Sorted(es) && Entry(payer, true, true) in es
    ensures k in AccountKeys(es, payer) <==> Has(es, k)
  {
    var keys := AccountKeys(es, payer);
    WithoutAll(es, payer);
    if Has(es, k) {
      var i :| 0 <= i < |es| && es[i].key == k;
      SelectComplete(es, es[i]);
    }
    if k in keys {
      ClassOf(es, payer, IndexOf(keys, k));
    }
  }

  lemma WithoutAll(es: seq<Entry>, payer: Key)
    requires Sorted(es)
    ensures SortedKeys(Select(es, true, true))
    ensures var r := Without(Select(es, true, true), payer);
            SortedKeys(r) && forall k :: k in r <==> k in Select(es, true, true) && k != payer
  {
    SelectSound(es, true, true);
    WithoutSound(Select(es, true, true), payer);
  }

  /** Where the classes begin. */
  function SignerCount(es: seq<Entry>): nat {
    |Select(es, true, true)| + |Select(es, true, false)|
  }

  /** The flags a reader of the message header gives to index `i` of `n` keys. */
  predicate HeaderSigner(signers: nat, i: nat) {
    i < signers
  }

  predicate HeaderWritable(signers: nat, roSigned: nat, roUnsigned: nat, n: nat, i: nat) {
    i + roSigned < signers || (signers <= i && i + roUnsigned < n)
  }

  /** The key at each index has exactly the flags its position says. */
  lemma ClassOf(es: seq<Entry>, payer: Key, i: nat)
    requires Sorted(es) && Entry(payer, true, true) in es
    requires i < |AccountKeys(es, payer)|
    ensures var keys := AccountKeys(es, payer);
            var n, s, rs, rn := |keys|, SignerCount(es), |Select(es, true, false)|, |Select(es, false, false)|;
            Entry(keys[i], HeaderSigner(s, i), HeaderWritable(s, rs, rn, n, i)) in es
    ensures i > 0 && i < |Select(es, true, true)| ==> AccountKeys(es, payer)[i] != payer
  {
    var ws, rs, wn, rn := Select(es, true, true), Select(es, true, false), Select(es, false, true), Select(es, false, false);
    var w := Without(ws, payer);
    SelectComplete(es, Entry(payer, true, true));
    SelectSound(es, true, true);
    SelectSound(es, true, false);
    SelectSound(es, false, true);
    SelectSound(es, false, false);
    WithoutSound(ws, payer);
    hide Select, Without, Sorted, SortedKeys;
    var k := AccountKeys(es, payer)[i];
    if i == 0 {
    } else if i < |ws| {
      assert k == w[i - 1];
      assert k in w;
    } else if i < |ws| + |rs| {
      assert k == rs[i - |ws|];
    } else if i < |ws| + |rs| + |wn| {
      assert k == wn[i - |ws| - |rs|];
    } else {
      assert k == rn[i - |ws| - |rs| - |wn|];
    }
  }

  /** Within a class, after the payer, keys are in ascending byte order. */
  lemma ClassesSorted(es: seq<Entry>, payer: Key, i: nat, j: nat)
    requires Sorted(es) && Entry(payer, true, true) in es
    requires 0 < i < j < |AccountKeys(es, payer)|
    requires var keys := AccountKeys(es, payer);
             var n, s, rs, rn := |keys|, SignerCount(es), |Select(es, true, false)|, |Select(es, false, false)|;
             HeaderSigner(s, i) == HeaderSigner(s, j) &&
             HeaderWritable(s, rs, rn, n, i) == HeaderWritable(s, rs, rn, n, j)
    ensures Less(AccountKeys(es, payer)[i], AccountKeys(es, payer)[j])
  {
    var ws, rs, wn, rn := Select(es, true, true), Select(es, true, false), Select(es, false, true), Select(es, false, false);
    var w := Without(ws, payer);
    SelectComplete(es, Entry(payer, true, true));
    SelectSound(es, true, true);
    SelectSound(es, true, false);
    SelectSound(es, false, true);
    SelectSound(es, false, false);
    WithoutSound(ws, payer);
    hide Select, Without, Sorted, Less, SortedKeys;
    SortedPieces(payer, w, rs, wn, rn, i, j);
  }

  lemma SortedPieces(p: Key, w: seq<Key>, rs: seq<Key>, wn: seq<Key>, rn: seq<Key>, i: nat, j: nat)
    requires SortedKeys(w) && SortedKeys(rs) && SortedKeys(wn) && SortedKeys(rn)
    requires 0 < i < j < 1 + |w| + |rs| + |wn| + |rn|
    requires j <= |w| || |w| < i
    requires j <= |w| + |rs| || |w| + |rs| < i
    requires j <= |w| + |rs| + |wn| || |w| + |rs| + |wn| < i
    ensures Less(([p] + w + rs + wn + rn)[i], ([p] + w + rs + wn + rn)[j])
  {
    hide Less;
    var keys := [p] + w + rs + wn + rn;
    if j <= |w| {
      assert keys[i] == w[i - 1] && keys[j] == w[j - 1];
    } else if j <= |w| + |rs| {
      assert keys[i] == rs[i - 1 - |w|] && keys[j] == rs[j - 1 - |w|];
    } else if j <= |w| + |rs| + |wn| {
      assert keys[i] == wn[i - 1 - |w| - |rs|] && keys[j] == wn[j - 1 - |w| - |rs|];
    } else {
      assert keys[i] == rn[i - 1 - |w| - |rs| - |wn|] && keys[j] == rn[j - 1 - |w| - |rs| - |wn|];
    }
  }

  lemma PayerEntry(ixs: seq<Instruction>, payer: Key)
    ensures Sorted(Table(ixs, payer)) && Entry(payer, true, true) in Table(ixs, payer)
  {
    TableSorted(ixs, payer);
    TableFlags(ixs, payer, payer);
    var t := Table(ixs, payer);
    hide Table;
    var i :| 0 <= i < |t| && t[i].key == payer;
    EntryFlags(t, t[i]);
    assert t[i] == Entry(payer, true, true);
  }

  lemma AllCovered(ixs: seq<Instruction>, payer: Key)
    ensures forall i :: 0 <= i < |ixs| ==> Covers(AccountKeys(Table(ixs, payer), payer), ixs[i])
  {
    PayerEntry(ixs, payer);
    var t := Table(ixs, payer);
    hide Table, AccountKeys;
    forall i | 0 <= i < |ixs| ensures Covers(AccountKeys(t, payer), ixs[i]) {
      var ix := ixs[i];
      forall k | UsedBy(ix, k) ensures k in AccountKeys(t, payer) {
        TableFlags(ixs, payer, k);
        KeyPlace(t, payer, k);
      }
    }
  }

  // ---- What a compiled message means -------------------------------------------------------

  predicate Distinct(ks: seq<Key>) {
    forall i, j :: 0 <= i < j < |ks| ==> ks[i] != ks[j]
  }

  /** Signer flag of account `i`, as the message header declares it. */
  predicate SignerAt(m: Message, i: nat) {
    HeaderSigner(m.header.numRequiredSignatures, i)
  }

  /** Writable flag of account `i`, as the message header declares it. */
  predicate WritableAt(m: Message, i: nat) {
    HeaderWritable(m.header.numRequiredSignatures, m.header.numReadonlySigned, m.header.numReadonlyUnsigned,
                   |m.accountKeys|, i)
  }

  /** The account keys are the payer and every mentioned key, each once, the payer first. */
  lemma KeysExact(ixs: seq<Instruction>, payer: Key, blockhash: Key)
    ensures var keys := CompileSpec(ixs, payer, blockhash).accountKeys;
            && Distinct(keys) && keys[0] == payer
            && forall k :: k in keys <==> Used(ixs, payer, k)
  {
    PayerEntry(ixs, payer);
    var t := Table(ixs, payer);
    var keys := AccountKeys(t, payer);
    forall k: Key ensures k in keys <==> Used(ixs, payer, k) {
      KeyPlace(t, payer, k);
      TableFlags(ixs, payer, k);
    }
    forall i, j | 0 <= i < j < |keys| ensures keys[i] != keys[j] {
      DistinctAt(t, payer, i, j);
    }
  }

  lemma DistinctAt(es: seq<Entry>, payer: Key, i: nat, j: nat)
    requires Sorted(es) && Entry(payer, true, true) in es
    requires i < j < |AccountKeys(es, payer)|
    ensures AccountKeys(es, payer)[i] != AccountKeys(es, payer)[j]
  {
    var keys := AccountKeys(es, payer);
    var n, s, rs, rn := |keys|, SignerCount(es), |Select(es, true, false)|, |Select(es, false, false)|;
    ClassOf(es, payer, i);
    ClassOf(es, payer, j);
    LessTotal(keys[i], keys[j]);
    EntryFlags(es, Entry(keys[i], HeaderSigner(s, i), HeaderWritable(s, rs, rn, n, i)));
    EntryFlags(es, Entry(keys[j], HeaderSigner(s, j), HeaderWritable(s, rs, rn, n, j)));
    EntryFlags(es, Entry(payer, true, true));
    if keys[i] == keys[j] {
      assert HeaderSigner(s, i) == HeaderSigner(s, j) && HeaderWritable(s, rs, rn, n, i) == HeaderWritable(s, rs, rn, n, j);
      hide Select, Sorted, Less, Has, Signs, Writes;
      if i > 0 {
        ClassesSorted(es, payer, i, j);
      }
    }
  }

  /** Each account's class is the OR of all its mentions' flags, the payer being writable and signing. */
  lemma TrueFlags(ixs: seq<Instruction>, payer: Key, i: nat)
    requires i < |AccountKeys(Table(ixs, payer), payer)|
    ensures var t := Table(ixs, payer);
            var keys := AccountKeys(t, payer);
            && (HeaderSigner(SignerCount(t), i) <==> MustSign(ixs, payer, keys[i]))
            && (HeaderWritable(SignerCount(t), |Select(t, true, false)|, |Select(t, false, false)|, |keys|, i)
                <==> MayWrite(ixs, payer, keys[i]))
  {
    PayerEntry(ixs, payer);
    var t := Table(ixs, payer);
    var keys := AccountKeys(t, payer);
    hide Table, Select, MustSign, MayWrite;
    var n, s, rs, rn := |keys|, SignerCount(t), |Select(t, true, false)|, |Select(t, false, false)|;
    ClassOf(t, payer, i);
    EntryFlags(t, Entry(keys[i], HeaderSigner(s, i), HeaderWritable(s, rs, rn, n, i)));
    TableFlags(ixs, payer, keys[i]);
  }

  /** The accounts that must sign. */
  function Signers(ixs: seq<Instruction>, payer: Key, keys: seq<Key>): set<Key> {
    set k | k in keys && MustSign(ixs, payer, k)
  }

  /** The accounts that are only looked at. */
  function Readonly(ixs: seq<Instruction>, payer: Key, keys: seq<Key>): set<Key> {
    set k | k in keys && !MustSign(ixs, payer, k) && !MayWrite(ixs, payer, k)
  }

  lemma {:induction false} DistinctSize(ks: seq<Key>)
    requires Distinct(ks)
    ensures |set k | k in ks| == |ks|
  {
    if ks != [] {
      var n := |ks| - 1;
      DistinctSize(ks[..n]);
      assert (set k | k in ks) == (set k | k in ks[..n]) + {ks[n]};
    }
  }

  /** A set that holds exactly one stretch of distinct keys. */
  lemma StretchSize(keys: seq<Key>, s: set<Key>, from: nat, to: nat)
    requires Distinct(keys) && from <= to <= |keys| && forall k :: k in s ==> k in keys
    requires forall i :: 0 <= i < |keys| ==> (keys[i] in s <==> from <= i < to)
    ensures |s| == to - from
  {
    var part := keys[from..to];
    DistinctSize(part);
    forall k ensures k in s <==> k in part {
      if k in s {
        var i :| 0 <= i < |keys| && keys[i] == k;
        assert part[i - from] == k;
      }
    }
    assert s == (set k | k in part);
  }

  /** Signers come first and the readonly accounts that do not sign last, so the class sizes are their numbers. */
  lemma ClassSizes(ixs: seq<Instruction>, payer: Key, blockhash: Key)
    ensures var t, keys := Table(ixs, payer), CompileSpec(ixs, payer, blockhash).accountKeys;
            && |Signers(ixs, payer, keys)| == SignerCount(t) && |Readonly(ixs, payer, keys)| == |Select(t, false, false)|
            && SignerCount(t) + |Select(t, false, false)| <= |keys|
  {
    KeysExact(ixs, payer, blockhash);
    PayerEntry(ixs, payer);
    var t := Table(ixs, payer);
    var keys := AccountKeys(t, payer);
    WithoutCount(t, payer);
    hide Table, AccountKeys, Select, CompileSpec, MustSign, MayWrite;
    var n, s, rn := |keys|, SignerCount(t), |Select(t, false, false)|;
    forall i: nat | i < n
      ensures keys[i] in Signers(ixs, payer, keys) <==> i < s
      ensures keys[i] in Readonly(ixs, payer, keys) <==> n - rn <= i
    {
      TrueFlags(ixs, payer, i);
    }
    StretchSize(keys, Signers(ixs, payer, keys), 0, s);
    StretchSize(keys, Readonly(ixs, payer, keys), n - rn, n);
  }

  /** The header declares every account as the OR of all its mentions' flags. */
  ghost predicate HeaderIsExact(ixs: seq<Instruction>, payer: Key, m: Message) {
    forall i :: 0 <= i < |m.accountKeys| ==>
      && (SignerAt(m, i) <==> MustSign(ixs, payer, m.accountKeys[i]))
      && (WritableAt(m, i) <==> MayWrite(ixs, payer, m.accountKeys[i]))
  }

  /**
   * The header is exact for every account exactly when at most 255 accounts must sign and at most 255 may
   * neither sign nor be written: one more in either class would be cut by its cast to u8.
   */
  lemma FlagsExactIff(ixs: seq<Instruction>, payer: Key, blockhash: Key)
    ensures var m := CompileSpec(ixs, payer, blockhash);
            HeaderIsExact(ixs, payer, m)
            <==> |Signers(ixs, payer, m.accountKeys)| <= 255 && |Readonly(ixs, payer, m.accountKeys)| <= 255
    ensures var m := CompileSpec(ixs, payer, blockhash); |m.accountKeys| <= 255 ==> HeaderIsExact(ixs, payer, m)
  {
    var m, t := CompileSpec(ixs, payer, blockhash), Table(ixs, payer);
    ClassSizes(ixs, payer, blockhash);
    HeaderOf(ixs, payer, blockhash);
    hide Table, AccountKeys, Select, CompileSpec, MustSign, MayWrite, Signers, Readonly;
    var n, s, rn := |m.accountKeys|, SignerCount(t), |Select(t, false, false)|;
    if s <= 255 && rn <= 255 {
      forall i: nat | i < n
        ensures (SignerAt(m, i) <==> MustSign(ixs, payer, m.accountKeys[i]))
                && (WritableAt(m, i) <==> MayWrite(ixs, payer, m.accountKeys[i]))
      {
        TrueFlags(ixs, payer, i);
      }
    } else if s > 255 {
      TrueFlags(ixs, payer, s % 256);
    } else {
      TrueFlags(ixs, payer, n - rn);
    }
  }

  /** The header counts, cut to u8. */
  lemma HeaderOf(ixs: seq<Instruction>, payer: Key, blockhash: Key)
    ensures var t, m := Table(ixs, payer), CompileSpec(ixs, payer, blockhash);
            && m.header == Header(SignerCount(t) % 256, |Select(t, true, false)| % 256, |Select(t, false, false)| % 256)
            && m.accountKeys == AccountKeys(t, payer) && |Select(t, true, false)| <= SignerCount(t)
  {
  }

  /** The classes fill the account keys. */
  lemma WithoutCount(es: seq<Entry>, payer: Key)
    requires Sorted(es) && Entry(payer, true, true) in es
    ensures |AccountKeys(es, payer)| == SignerCount(es) + |Select(es, false, true)| + |Select(es, false, false)|
  {
    SelectComplete(es, Entry(payer, true, true));
    SelectSound(es, true, true);
    WithoutSound(Select(es, true, true), payer);
  }

  /** Accounts of equal flags follow one another in byte order, the payer apart. */
  lemma OrderExact(ixs: seq<Instruction>, payer: Key, blockhash: Key, i: nat, j: nat)
    requires 0 < i < j < |CompileSpec(ixs, payer, blockhash).accountKeys|
    requires var keys := CompileSpec(ixs, payer, blockhash).accountKeys;
             && (MustSign(ixs, payer, keys[i]) <==> MustSign(ixs, payer, keys[j]))
             && (MayWrite(ixs, payer, keys[i]) <==> MayWrite(ixs, payer, keys[j]))
    ensures var keys := CompileSpec(ixs, payer, blockhash).accountKeys;
            Less(keys[i], keys[j])
  {
    PayerEntry(ixs, payer);
    var t := Table(ixs, payer);
    TrueFlags(ixs, payer, i);
    TrueFlags(ixs, payer, j);
    hide CompileSpec, MustSign, MayWrite, Select, Table;
    ClassesSorted(t, payer, i, j);
  }

  /** One compiled instruction names the accounts of the original. */
  predicate Resolves(keys: seq<Key>, ci: CompiledInstruction, ix: Instruction) {
    && ci.programIdIndex < |keys| && keys[ci.programIdIndex] == ix.programId
    && |ci.accounts| == |ix.accounts|
    && (forall j :: 0 <= j < |ix.accounts| ==>
         ci.accounts[j] < |keys| && keys[ci.accounts[j]] == ix.accounts[j].pubkey)
    && ci.data == ix.data
  }

  /**
   * Every index of the compiled message resolves to its original key exactly when there are at
   * most 256 distinct keys: the 257th would be cut by the cast to u8.
   */
  lemma IndicesResolveIff(ixs: seq<Instruction>, payer: Key, blockhash: Key)
    ensures var m := CompileSpec(ixs, payer, blockhash);
            (forall i :: 0 <= i < |ixs| ==> Resolves(m.accountKeys, m.instructions[i], ixs[i]))
            <==> |m.accountKeys| <= 256
    ensures var m := CompileSpec(ixs, payer, blockhash); m.recentBlockhash == blockhash && |m.instructions| == |ixs|
  {
    KeysExact(ixs, payer, blockhash);
    AllCovered(ixs, payer);
    var m := CompileSpec(ixs, payer, blockhash);
    var keys := m.accountKeys;
    assert forall i :: 0 <= i < |ixs| ==> m.instructions[i] == CompileInstruction(keys, ixs[i]);
    hide AccountKeys, Table, CompileSpec, CompileInstruction, Resolves, Covers;
    if |keys| <= 256 {
      forall i | 0 <= i < |ixs| ensures Resolves(keys, m.instructions[i], ixs[i]) {
        SmallResolves(keys, ixs[i]);
      }
    } else {
      assert keys[256] in keys && keys[256] != keys[0];
      var i :| 0 <= i < |ixs| && UsedBy(ixs[i], keys[256]);
      LargeFails(keys, ixs[i]);
    }
  }

  lemma SmallResolves(keys: seq<Key>, ix: Instruction)
    requires |keys| <= 256 && Covers(keys, ix)
    ensures Resolves(keys, CompileInstruction(keys, ix), ix)
  {
  }

  lemma LargeFails(keys: seq<Key>, ix: Instruction)
    requires |keys| > 256 && Distinct(keys) && Covers(keys, ix) && UsedBy(ix, keys[256])
    ensures !Resolves(keys, CompileInstruction(keys, ix), ix)
  {
    IndexUnique(keys, 256);
    var ci := CompileInstruction(keys, ix);
    assert keys[0] != keys[256];
    if ix.programId != keys[256] {
      var j :| 0 <= j < |ix.accounts| && ix.accounts[j].pubkey == keys[256];
      assert ci.accounts[j] == 0;
    }
  }

  lemma IndexUnique(keys: seq<Key>, i: nat)
    requires Distinct(keys) && i < |keys|
    ensures IndexOf(keys, keys[i]) == i
  {
  }

  // ---- The method --------------------------------------------------------------------------

  method Compile(ixs: seq<Instruction>, payer: Key, blockhash: Key) returns (m: Message)
    ensures m == CompileSpec(ixs, payer, blockhash)
  {
    hide Merge, Select, Without, CompileInstruction, Covers;
    var table: seq<Entry> := [];
    for i := 0 to |ixs|
      invariant table == MergeAll(ixs[..i])
    {
      table := MergeFlagsOf(table, ixs[i]);
      assert ixs[..i + 1][..i] == ixs[..i];
    }
    assert ixs[..|ixs|] == ixs;
    table := Merge(table, payer, true, true);
    var ws, rs, wn, rn := Partition(table);
    var numRequiredSignatures := (|ws| + |rs|) % 256;
    var numReadonlySigned := |rs| % 256;
    var numReadonlyUnsigned := |rn| % 256;
    ws := Without(ws, payer);
    var accountKeys := [payer];
    accountKeys := accountKeys + ws;
    accountKeys := accountKeys + rs;
    accountKeys := accountKeys + wn;
    accountKeys := accountKeys + rn;
    AllCovered(ixs, payer);
    var compiled := seq(|ixs|, i requires 0 <= i < |ixs| => CompileInstruction(accountKeys, ixs[i]));
    m := Message(Header(numRequiredSignatures, numReadonlySigned, numReadonlyUnsigned), accountKeys, blockhash, compiled);
  }

  method MergeFlagsOf(before: seq<Entry>, ix: Instruction) returns (table: seq<Entry>)
    ensures table == MergeInstruction(before, ix)
  {
    table := Merge(before, ix.programId, false, false);
    ghost var start := table;
    for j := 0 to |ix.accounts|
      invariant table == MergeAccounts(start, ix.accounts[..j])
    {
      var am := ix.accounts[j];
      table := Merge(table, am.pubkey, am.isSigner, am.isWritable);
      assert ix.accounts[..j + 1][..j] == ix.accounts[..j];
    }
    assert ix.accounts[..|ix.accounts|] == ix.accounts;
  }

  /** The walk over the map that sorts keys into the four classes. */
  method Partition(es: seq<Entry>) returns (ws: seq<Key>, rs: seq<Key>, wn: seq<Key>, rn: seq<Key>)
    ensures ws == Select(es, true, true) && rs == Select(es, true, false)
    ensures wn == Select(es, false, true) && rn == Select(es, false, false)
  {
    ws, rs, wn, rn := [], [], [], [];
    for i := 0 to |es|
      invariant ws == Select(es[..i], true, true) && rs == Select(es[..i], true, false)
      invariant wn == Select(es[..i], false, true) && rn == Select(es[..i], false, false)
    {
      var e := es[i];
      assert es[..i + 1][..i] == es[..i];
      if e.isSigner {
        if e.isWritable {
          ws := ws + [e.key];
        } else {
          rs := rs + [e.key];
        }
      } else {
        if e.isWritable {
          wn := wn + [e.key];
        } else {
          rn := rn + [e.key];
        }
      }
    }
    assert es[..|es|] == es;
  }
}
