/** Names of accounts, keys, ids and numbers as the written-out descriptions spell them. */
module Spelling {
  // The modules that describe a program's inputs and outputs member by member share these. Each is tied here to
  // what the programs' models use in its place.

  import opened Wrappers
  import A = Amount
  import Base58
  import Chain
  import Charge
  import Claim
  import Decimal
  import Keys
  import P = Payment
  import Prices

  const SYSTEM: string := "11111111111111111111111111111111"
  const RECENT_BLOCKHASHES: string := "SysvarRecentB1ockHashes11111111111111111111"
  const RENT: string := "SysvarRent111111111111111111111111111111111"
  const MEMO: string := "MemoSq4gqABAXKb96qnH8TysNcWxMyWCqXgDLGmfcHr"
  const TOKEN: string := "TokenkegQfeZyiNwAJbNbGKPFXCWuBvf9Ss623VQ5DA"
  const TOKEN_2022: string := "TokenzQdBNbLqP5VEhdkAS6EPFLC1PHnBqCXEpPxuEb"
  const COMPUTE_BUDGET: string := "ComputeBudget111111111111111111111111111111"
  const USDC: string := "EPjFWdd5AufqSSqeM2qN1xzybapC8G4wEGGkZwyTDt1v"

  /** Base-58 text of so many bytes. */
  predicate Bytes(text: string, n: nat) {
    Base58.DecodeSpec(text).Some? && |Base58.DecodeSpec(text).value| == n
  }

  predicate IsId(text: string) {
    && 1 <= |text| <= 64
    && forall i :: 0 <= i < |text| ==>
         'A' <= text[i] <= 'Z' || 'a' <= text[i] <= 'z' || '0' <= text[i] <= '9' || text[i] == '_' || text[i] == '-'
  }

  predicate IsDigest(text: string) {
    |text| == 64 && forall i :: 0 <= i < |text| ==> '0' <= text[i] <= '9' || 'a' <= text[i] <= 'f'
  }

  /** Nothing but digits, at least one. */
  predicate Numeral(text: string, n: nat) {
    text != "" && Decimal.Digits(text) && Decimal.Worth(text) == n
  }

  /** A number in digits, perhaps after a plus sign, that fits u64. */
  ghost predicate Spells(text: string, n: nat) {
    n <= 18_446_744_073_709_551_615 && exists d: string :: (text == d || text == "+" + d) && Numeral(d, n)
  }

  // ---- Accounts ----------------------------------------------------------------------------

  lemma Spelled()
    ensures Keys.SYSTEM_PROGRAM == SYSTEM && Keys.RECENT_BLOCKHASHES == RECENT_BLOCKHASHES
    ensures Keys.RENT_SYSVAR == RENT && Keys.MEMO_PROGRAM == MEMO && Chain.FULFILLMENT_TAG == "PKFUL1"
  {
    SpelledSysvars();
    SpelledRent();
    SpelledMemo();
  }

  lemma SpelledSysvars()
    ensures Keys.RECENT_BLOCKHASHES == RECENT_BLOCKHASHES
  {
  }

  lemma SpelledRent()
    ensures Keys.RENT_SYSVAR == RENT
  {
  }

  lemma SpelledMemo()
    ensures Keys.MEMO_PROGRAM == MEMO && P.PAYMENT_TAG == "PKPAY1"
  {
  }

  lemma SpelledToken()
    ensures P.TOKEN_PROGRAM == TOKEN
  {
  }

  lemma SpelledToken2022()
    ensures P.TOKEN_2022_PROGRAM == TOKEN_2022
  {
  }

  lemma SpelledBudget()
    ensures P.COMPUTE_BUDGET_PROGRAM == COMPUTE_BUDGET
  {
  }

  lemma SpelledUsdc()
    ensures Charge.DEFAULT_USDC_MINT == USDC
  {
  }

  // ---- Texts -------------------------------------------------------------------------------

  lemma BytesIff(text: string)
    ensures Bytes(text, 32) <==> Base58.IsPubkey(text)
    ensures Bytes(text, 32) <==> Base58.DecodePubkey(text).Some?
    ensures Bytes(text, 32) ==> Base58.DecodePubkey(text) == Some(Base58.DecodeSpec(text).value)
    ensures Bytes(text, 64) <==> Chain.IsSignature(text)
  {
  }

  lemma IdIff(text: string)
    ensures IsId(text) <==> Prices.IsItemId(text)
  {
    assert forall i :: 0 <= i < |text| ==> (Prices.IsItemChar(text[i]) <==>
      'A' <= text[i] <= 'Z' || 'a' <= text[i] <= 'z' || '0' <= text[i] <= '9' || text[i] == '_' || text[i] == '-');
  }

  lemma DigestIff(text: string)
    ensures IsDigest(text) <==> Claim.IsSha256(text)
  {
  }

  lemma NumeralIff(text: string, n: nat)
    ensures Numeral(text, n) <==> text != "" && A.AllDigits(text) && A.NatOf(text) == n
  {
    Decimal.DigitsIff(text);
    if Decimal.Digits(text) {
      Decimal.WorthIs(text);
    }
  }

  lemma SpellsIff(text: string, n: nat)
    ensures P.ParseU64(text) == Some(n) <==> Spells(text, n)
  {
    hide Numeral, A.NatOf;
    NumeralIff(text, n);
    if text != "" && text[0] == '+' {
      assert text == "+" + text[1..];
      assert !A.AllDigits(text);
      NumeralIff(text[1..], n);
    }
    forall d: string | text == "+" + d ensures d == text[1..] {}
  }
}
