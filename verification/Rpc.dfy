/**
 * What the RPC node answers, already parsed into records. An absent JSON member is `None` or
 * `Missing`; the node may leave out or malform anything, and each program decides what that means.
 */
module Rpc {
  import opened Wrappers
  import opened Json

  /** An account key: bare base-58 text, or an object with its parsed flags. */
  datatype AccountKey =
    | Bare(name: string)
    | Full(pubkey: Option<string>, signer: Option<bool>, writable: Option<bool>)
  {
    function Signer(): Option<bool> {
      if Full? then signer else None
    }

    function Writable(): Option<bool> {
      if Full? then writable else None
    }
  }

  /** A `jsonParsed` instruction. */
  datatype Instruction = Instruction(program: Option<string>, programId: Option<string>, parsed: Json)

  datatype Message = Message(accountKeys: Option<seq<AccountKey>>, instructions: Option<seq<Instruction>>)

  /** An `err` member: absent, null (success) or an error. */
  datatype Outcome = Missing | Success | Failure

  /** One token balance entry of a transaction's metadata. */
  datatype BalanceEntry = BalanceEntry(
    accountIndex: Option<nat>,
    owner: Option<string>,
    mint: Option<string>,
    amount: Option<nat>,      // parsed as u64
    decimals: Option<byte>)

  datatype Meta = Meta(err: Outcome, pre: Option<seq<BalanceEntry>>, post: Option<seq<BalanceEntry>>)

  datatype Transaction = Transaction(
    meta: Option<Meta>,
    message: Option<Message>,
    slot: Option<nat>,
    blockTime: Option<int>)

  datatype RpcError = Transport | Malformed

  /** A `getTransaction` answer; `None` is JSON null. */
  type Answer = Result<Option<Transaction>, RpcError>

  datatype ListedMemo = NoMember | NullMemo | Text(text: string) | NotText

  /** One entry of `getSignaturesForAddress`, with the answer that fetching it gets. */
  datatype Entry = Entry(
    signature: Option<string>,
    err: Outcome,
    memo: ListedMemo,
    slot: Option<nat>,
    blockTime: Option<int>,
    answer: Answer)
}
