# ProofKiosk: a verified model

ProofKiosk sells items for on-chain stablecoin payments. A charge quotes a price as a Solana Pay URL, a
watcher decides whether a finalized transaction pays for it, a trusted script claims the order exactly
once, an actuator pulses one GPIO pin, and an attestation plugin chains signed delivery records on a
durable nonce. This project models that story in Dafny and proves what its pieces promise together.

`dafny verify dfyconfig.toml` checks everything. Each module follows one source file or one question
that spans several:

| module | what it models |
|---|---|
| `Digits`, `Base58`, `Base64`, `Shortvec` | the codecs, as the in-place loops of the source against positional and grouped specifications |
| `Message`, `Compile` | the wire format with a reader for it, and the account table of a message |
| `Amount`, `Url`, `Prices`, `Charge`, `WatchConfig` | exact amounts in Rust and JavaScript, the payment URL and a parser for it, price lists, the charge |
| `Recovery`, `Chain` | the newest-first scan for the chain head: its declarative reading, and the loop over listed transactions |
| `Attest`, `Landing` | building an attestation, and what a node shows of it |
| `Protocol`, `Builders` | any number of builders racing on one nonce as a state machine, and the program's runs as its steps |
| `Balances`, `Payment`, `Watch`, `Fulfillment` | payment verification, and the delivery marker as written and as read |
| `Claim`, `Actuator`, `ActuatorRun`, `Handoff` | the trusted scripts: order handoff, exclusive claim, interleaved actuator runs, and one run from launch to exit |
| `Conservation`, `EndToEnd` | money against pulses over whole runs, and the way from a charge to its pulse |
| `Spelling`, `Decimal`, `Settings` | names, keys, ids and amounts as texts, and the operator's sections, written out |
| `Sighting`, `Attested`, `Receipt`, `Verdicts`, `Grant`, `Quoted` | what recovery, attestation, payment inspection, watcher, claim and handoff take and answer, written out member by member, with an exact condition for every answer |
| `Pin` | the pin, dry runs, claims and journal lines over all interleavings |
| `Keys`, `Json`, `Rpc`, `Wrappers` | program constants, JSON values, parsed node answers, results |

## Conventions

- A method stands for code that loops or goes step by step and is proved equal to a specification
  function; lemmas about the function then say what the code promises. Where two programs share a
  specification (the three price-list loops, the two digit loops of base 58) it is written once.
- `Text` is UTF-8 with one character per byte. A u8, u64 or u128 bound, a cast that cuts and a
  saturating sum are written out; JavaScript integers are bounded by 2^53 - 1 where the script checks it.
- The written-out descriptions name members, literals and bounds, and none of the functions that stand for the
  code. For all inputs the code's answer is tied to them in both directions.
- JSON text is parsed and printed by functions that are parameters. Where a proof needs parsing to undo
  printing it says so for that one record (`Landing.Faithful`, and the memo hypotheses of `Handoff`,
  `EndToEnd`), and lets fractional numbers change their digits.
- The host's clock, in milliseconds, is part of the actuator's state and never goes back; a sleep is the
  least time that has to pass before the next step.
- Node answers are records (`Rpc`) in which anything may be absent or malformed. An entry of a listing
  carries the answer that fetching it gets, so a node may answer anything, whatever it listed.
- Solana is an assumption, stated in `Protocol`: a transaction on a durable nonce lands only while that
  nonce is stored, and landing stores one never stored before; only the device's own artifacts carry
  its authority's signature.
- Error wording is dropped: errors keep their kind, and mismatch reasons collapse into `Mismatch`.

## Where the code and its words disagree

- The actuator's header says that a non-zero exit means the pin was not energised on purpose. A run
  whose LOW fails after its HIGH exits with 1: `ActuatorRun.RunOnce` says exactly which runs command
  HIGH and which exit with 0.
- `COOLDOWN_MS` is called a floor between physical actions. It counts from journalled completed pulses
  and from nothing else: `Actuator.CooldownIff` and `Actuator.NextHighIff` say exactly when the next HIGH
  can come. A pulse that is not journalled as completed is followed by no cooldown: by
  `Actuator.FaultGapIff` the next HIGH can come 400 ms after one that succeeded and no sooner, and in the
  same millisecond as one whose own command failed, because that failure skips the sleep.
- The JavaScript `decimal` and the Rust amount functions agree for every text exactly up to 19 decimals
  (`Amount.JsAgreesIff`); the configurations allow 18.
- A device whose nonce account is its own authority can build attestations that its own chain recovery
  then refuses (`Landing.ClassifiesIff`); nothing in the configuration forbids it.

## Model

| member | source | states |
|---|---|---|
| Base58.Encode | crates/kiosk-core/src/b58.rs:8-31 | the carry loops over a growing digit vector produce the base-58 numeral of the byte string, one `1` per leading zero byte |
| Base58.Decode | crates/kiosk-core/src/b58.rs:34-53 | the same loops the other way: the byte string that a text spells, and nothing for a text with a foreign character |
| Base58.ShiftIn | crates/kiosk-core/src/b58.rs:16-28 | one carry pass multiplies the number held by the digits and adds the next one: the digits are again the canonical ones, in range and with a nonzero top digit |
| Base58.DecodeOfEncode | crates/kiosk-core/src/b58.rs:8-53 | every byte string survives encoding and decoding |
| Base58.EncodeOfDecode | crates/kiosk-core/src/b58.rs:8-53 | exactly the texts over the alphabet decode, and each is the encoding of what it decodes to, so encoding is a bijection |
| Base58.DecodedLength | scripts/trusted-order-claim.mjs:29-42 | the scripts' length function gives the number of bytes that the Rust decoder would return, and -1 for exactly the empty and the foreign texts |
| Base64.Encode | crates/kiosk-core/src/b64.rs:9-31 | the chunk loop produces the padded encoding, group by group |
| Base64.Decode | crates/kiosk-core/src/b64.rs:34-79 | the group loop with its padding count accepts and yields exactly what the strict grammar does |
| Base64.DecodeOfEncode | crates/kiosk-core/src/b64.rs:9-79 | every byte string survives encoding and decoding |
| Base64.EncodeOfDecode | crates/kiosk-core/src/b64.rs:34-79 | an accepted text is the encoding of its bytes, so no two accepted texts mean the same bytes |
| Shortvec.EncodeLen | crates/kiosk-core/src/shortvec.rs:5-18 | the shifting loop emits seven bits a byte, low first |
| Shortvec.DecodeLen | crates/kiosk-core/src/shortvec.rs:22-34 | the accumulating loop reads at most three bytes and refuses a value past u16 |
| Shortvec.DecodeOfEncode | crates/kiosk-core/src/shortvec.rs:5-34 | a written length reads back, with the number of bytes it took, whatever bytes follow |
| Shortvec.CanonicalIff | crates/kiosk-core/src/shortvec.rs:22-34 | the reader also accepts longer spellings: what it read was the canonical one exactly when it took one byte or the last byte is not zero |
| Message.Serialize | crates/kiosk-core/src/msg.rs:120-139 | header, keys, blockhash and instructions in wire order, each list behind its length cast to u16 |
| Message.LengthsWrap | crates/kiosk-core/src/msg.rs:120-139 | a length past u16 is written as what is left of it there |
| Message.RoundTrip | crates/kiosk-core/src/msg.rs:120-139 | a reader built on the length decoder gets back the very message and leaves exactly the bytes that followed it, whenever the lengths fit u16 |
| Message.GateImpliesFit | plugins/kiosk-attest/src/attest.rs:438-448 | a message under the packet gate has no length that a u16 cast could have cut |
| Message.ArtifactReadsBack | plugins/kiosk-attest/src/attest.rs:438-448 | the base64 text of any message under the gate reads back as that message, to the last byte |
| Compile.Compile | crates/kiosk-core/src/msg.rs:56-117 | the merge loop, the four vectors and the index lookups compute the compiled message |
| Compile.KeysExact | crates/kiosk-core/src/msg.rs:62-98 | the account keys are the payer and every mentioned key, each once, payer first |
| Compile.FlagsExactIff | crates/kiosk-core/src/msg.rs:62-98 | the header gives every account exactly the OR of the flags of all its mentions if and only if at most 255 accounts must sign and at most 255 may neither sign nor be written; so always up to 255 keys |
| Compile.OrderExact | crates/kiosk-core/src/msg.rs:80-98 | accounts of equal merged flags follow each other in byte order, the payer apart, for any number of keys |
| Compile.IndicesResolveIff | crates/kiosk-core/src/msg.rs:99-116 | every compiled index names its original key exactly when there are at most 256 keys; the next one falls to the u8 cast |
| Amount.UnitsExact | crates/kiosk-core/src/pay.rs:172-195 | the checked arithmetic yields the exact rational value in base units, and fails exactly when the text is malformed or a value or scale leaves u64 |
| Amount.CanonicalKeepsUnits | crates/kiosk-core/src/pay.rs:114-152 | the canonical text is worth the same, is positive, and canonicalizing it again changes nothing |
| Amount.CanonicalUnique | crates/kiosk-core/src/pay.rs:114-152 | at one scale two amounts are worth the same exactly when their canonical texts are equal |
| Amount.ValidateSound | crates/kiosk-core/src/pay.rs:155-169 | an accepted amount is canonical, positive, within u64 and the cap, and accepted again unchanged |
| Amount.JsAgreesIff | scripts/trusted-charge-handoff.mjs:111-126 | the JavaScript check accepts the same texts with the same output as the Rust one, for all texts, exactly up to 19 decimals |
| Amount.ClaimPatternIff | scripts/trusted-order-claim.mjs:94-98 | a text is a fixed point of canonicalization exactly when it matches the claim's pattern and its value fits |
| Decimal.UnitsIff | crates/kiosk-core/src/pay.rs:172-195 | a text is worth so many base units exactly when it is a whole number, or one with a point and decimals, of no more places than the token has, and its digits padded to those places spell that number within u64 |
| Decimal.CanonicalIff | crates/kiosk-core/src/pay.rs:114-152 | the canonical text of an amount is the one text without spare zeros that is worth as much, if that is more than nothing |
| Decimal.ValidateIff | crates/kiosk-core/src/pay.rs:155-169 | an amount passes, as its canonical text, exactly when the cap is an amount too and not worth less |
| Decimal.PatternIff | scripts/trusted-order-claim.mjs:94-98 | the claim's pattern is that of the texts without spare zeros, other than a lone zero |
| Decimal.HandoffIff | scripts/trusted-charge-handoff.mjs:111-126 | the JavaScript check yields that same text, for every token of at most 19 decimals |
| Url.Url | crates/kiosk-core/src/pay.rs:85-108 | the appending renderer prints the parameters that are present, in order |
| Url.PctEncode | crates/kiosk-core/src/pay.rs:198-209 | the byte loop escapes every byte that is not unreserved (section 2.3 of RFC 3986) |
| Url.DecodeOfEncode | crates/kiosk-core/src/pay.rs:198-209 | any text survives escaping and unescaping, under either reading of a plus sign |
| Url.UrlRoundTrip | crates/kiosk-core/src/pay.rs:85-108 | cutting the printed URL at its delimiters and unescaping gives back the recipient and every parameter in order, and no fragment |
| Url.NewRequestRoundTrip | crates/kiosk-core/src/pay.rs:48-108 | everything the constructor accepts, arbitrary free text included, survives printing and parsing, with the amount canonical |
| Url.EncodeWrites | crates/kiosk-core/src/pay.rs:198-209 | byte by byte, letters, digits and the four marks stand for themselves and every other byte for its two upper-case hexadecimal digits |
| Url.HrefKeepsMeaning | scripts/trusted-charge-handoff.mjs:218-255 | a URL and its serialization parse to the same path, parameters and fragment, escapes and stray percent signs included |
| Url.HrefIsFinal | scripts/trusted-charge-handoff.mjs:218-255 | serializing again changes nothing, and the scheme comes out in lower case |
| Url.QueryWrites | scripts/trusted-charge-handoff.mjs:218-255 | which characters of a query a serialized URL escapes, and how |
| Url.SchemeIff | scripts/trusted-charge-handoff.mjs:218-224 | which texts are URLs of the scheme at all, in any case |
| Url.BareParams | scripts/trusted-charge-handoff.mjs:225-232 | a parameter without a value is read as one with an empty value, and an empty piece as none |
| Url.DecodeReads | scripts/trusted-charge-handoff.mjs:233-241 | escapes are read in either case, and a plus sign as a space where a browser does so |
| Prices.PriceList | plugins/kiosk-watch/src/watch.rs:137-169 | the loop accepts a list exactly when every entry is usable and no item repeats, and its map holds exactly the items at their checked amounts |
| Prices.WatchAndHandoffAgree | scripts/trusted-charge-handoff.mjs:128-139 | verifier and handoff accept the same lists with the same maps |
| Prices.ChargePricesAreWatchPrices | plugins/kiosk-charge/src/charge.rs:110-143 | a list that the charge accepts under its cap has the same prices for the verifier |
| Charge.FromSection | plugins/kiosk-charge/src/charge.rs:71-181 | loads the one configuration that the section describes, display currency and rate included, or refuses when there is none or the price list is too long |
| Settings.ChargeIff | plugins/kiosk-charge/src/charge.rs:71-181 | which configuration a section stands for, default by default and bound by bound: mint, 6 decimals, cap 100, 4096 bytes of price list, a positive rate, a label of 64 characters |
| Charge.ItemCharge | plugins/kiosk-charge/src/charge.rs:244-325 | an item can be charged exactly when it is listed, and its URL parses back to the merchant, list price, mint, reference and the memo that binds reference and item |
| Charge.FreeCharge | plugins/kiosk-charge/src/charge.rs:244-325 | a free amount can be charged exactly when it passes the operator's cap; its URL parses back to merchant, canonical amount, mint, reference, label and the first 64 characters of the note, and to no memo |
| Charge.TakenIs | plugins/kiosk-charge/src/charge.rs:262-269 | a note is cut after so many characters, never inside one |
| WatchConfig.FromSection | plugins/kiosk-watch/src/watch.rs:94-248 | loads the one configuration that the section describes, node address and both policy times included, or refuses when there is none or the price list is too long |
| Settings.WatchIff | plugins/kiosk-watch/src/watch.rs:94-248 | which configuration a section stands for: mint, 6 decimals, quotes of 900 s, silence of 1800 s, both at most a day, finality one of three |
| Recovery.RecoverIff | crates/kiosk-core/src/chain.rs:117-321 | recovery yields a state exactly in three cases: only an initialization in a non-full window, a linked run to zero directly above it, or ten linked newest authenticated entries with the tenth above zero |
| Recovery.HeadIsNewest | crates/kiosk-core/src/chain.rs:224-286 | what is recovered always continues the newest authenticated entry |
| Recovery.InsertInertIff | crates/kiosk-core/src/chain.rs:131-205 | one more public entry, or failed entry that no link names, anywhere in a history leaves the result unchanged exactly when the listing is not full or still shows ten links |
| Recovery.ExtendIff | crates/kiosk-core/src/chain.rs:224-286 | when the successor of a recovered state lands on top, the longer history recovers to its successor exactly when u64, the window and the failed entries above the head allow it |
| Chain.Recover | crates/kiosk-core/src/chain.rs:86-321 | the loop with its five variables, early exits and full-window check computes the scan over the classified entries, for every answer the node may give |
| Sighting.InitIff | crates/kiosk-core/src/chain.rs:704-738 | an entry is seen as the initialization exactly when it is the creation and initialization of the device's nonce account, both instructions and all account flags spelled out, without a memo |
| Sighting.LinkIff | crates/kiosk-core/src/chain.rs:336-459 | an entry is seen as this attestation exactly when the device's authority advances the nonce and writes a version-1 record of this device with this number and predecessor, of one of three exact forms, a delivery with its reference attached once |
| Sighting.ForeignIff | crates/kiosk-core/src/chain.rs:540-589 | exactly when an entry is public traffic, a failure, unreadable, or out of reach; anything else of the device's own is a gap |
| Sighting.FreshDevice | crates/kiosk-core/src/chain.rs:704-738 | a device that was only just created, as a node reports it, recovers to number zero without a predecessor, wherever in a listing of foreign traffic the creation is |
| Recovery.FailsIff | crates/kiosk-core/src/chain.rs:117-321 | exactly when recovery reports a malformed answer or an unreachable node: the scan gets as far as such an entry and nothing above it settles or breaks the chain |
| Attest.ExecuteAttest | plugins/kiosk-attest/src/attest.rs:229-466 | payload, keys, nonce snapshot, recovery at the snapshot's slot, record, message and size gate, in that order, first failure wins |
| Attested.AttestIff | plugins/kiosk-attest/src/attest.rs:229-466 | a run builds this very output exactly when the request is a proper reading, event or delivery, the node shows the device's nonce, the history listed at that slot recovers, and the message of the record with exactly those members and the two instructions fits one packet |
| Attested.RefusedIff | plugins/kiosk-attest/src/attest.rs:229-466 | exactly which runs are refused as a bad request, a bad configuration, an unreachable node, or a rejected reading, history or size; every other refusal is a malformed answer |
| Attested.RecordIsTrue | plugins/kiosk-attest/src/attest.rs:399-438 | the one text that a successful run writes parses to the metric and value of its request, up to the printer's digits, within the operator's range, or to exactly its event, or to exactly its delivery, with device, number, predecessor and time |
| Landing.RecordParses | plugins/kiosk-attest/src/attest.rs:399-419 | the printed record of each kind parses to the sequence number, time and predecessor that it was built from, under the exact schema of that kind |
| Landing.ArtifactIsHarmless | plugins/kiosk-attest/src/attest.rs:196-211 | every artifact invokes exactly System and Memo, needs one signature, that of the configured authority, and its base64 text reads back as its message |
| Landing.ClassifiesIff | crates/kiosk-core/src/chain.rs:500-777 | chain recovery recognizes a landed artifact as an attestation with its memo exactly when the nonce account is not its own authority |
| Landing.LandedView | plugins/kiosk-attest/src/attest.rs:407-438 | in a listing, a landed artifact of any kind is the link with the sequence number and predecessor that it was built to be |
| Landing.LandingExtends | crates/kiosk-core/src/chain.rs:224-286 | a history that recovered, with the artifact built from it on top, recovers to the next state, under the exact conditions of the extension law |
| Protocol.NextKeeps | plugins/kiosk-attest/src/attest.rs:341-419 | every step of every builder, of the chain and of public traffic keeps the invariant that artifacts pair a nonce with a state read at or after it |
| Protocol.ArtifactFollows | plugins/kiosk-attest/src/attest.rs:341-419 | an artifact that can still land carries exactly what should follow the landed chain |
| Protocol.OneChain | plugins/kiosk-attest/src/attest.rs:341-419 | at every moment of every execution the landed attestations form one unforked chain from zero |
| Protocol.LandingContinues | plugins/kiosk-attest/src/attest.rs:407-419 | whatever lands carries the head's successor and names the head's signature |
| Builders.RunPublishes | plugins/kiosk-attest/src/attest.rs:341-397 | a successful run of the program against a node that lists any history at or past the snapshot's slot is one nonce reading and one publication of the state machine |
| Builders.RunLands | crates/kiosk-core/src/chain.rs:86-321 | when its artifact lands, recovery sees in the node's report the very entry that the landing step appends |
| Protocol.UnorderedForks | crates/kiosk-core/src/chain.rs:82-99 | without the slot bound, a stale history and a current nonce fork the chain |
| Protocol.OutdatedReachable | crates/kiosk-core/src/chain.rs:82-99 | states with such a stale history are reached by the first landing |
| Balances.TokenBalances | plugins/kiosk-watch/src/watch.rs:1427-1479 | the loop with its seen set reads the list exactly when every entry is complete, in range and names an account of its own |
| Balances.ReadIff | plugins/kiosk-watch/src/watch.rs:1427-1479 | these balances are read exactly when the entries are theirs, one for one, in range and each of its own account |
| Balances.SumFits | plugins/kiosk-watch/src/watch.rs:1129-1140 | the checked u128 sum of a balance list never overflows |
| Balances.DeltaExact | plugins/kiosk-watch/src/watch.rs:1067-1153 | after one transfer between two accounts, told apart by their index in whatever order the lists name them, the net delta of the destination's owner is the amount when the source is not his in that mint, and zero when it is |
| Payment.ValidateInstructions | plugins/kiosk-watch/src/watch.rs:1179-1295 | the flag-driven loop accepts exactly compute-budget instructions, one binding memo and one exact transfer |
| Payment.InspectTransaction | plugins/kiosk-watch/src/watch.rs:986-1168 | the checks in source order, telling errors from mismatches |
| Payment.InspectPaidIff | plugins/kiosk-watch/src/watch.rs:986-1168 | a transaction is paid for a charge exactly when it meets the declarative payment predicate at the configured price |
| Receipt.InspectIff | plugins/kiosk-watch/src/watch.rs:986-1168 | the answer for every transaction and charge: paid, with all its members, exactly when accounts, set-up, memo, the checked transfer instruction and the balances are as written out; a decode failure or a configuration error exactly when the answer cannot be decided; otherwise a mismatch |
| Payment.OneCharge | plugins/kiosk-watch/src/watch.rs:758-766 | one transaction can be paid for one reference and one item only |
| Payment.InternalNeverPaid | plugins/kiosk-watch/src/watch.rs:1110-1153 | money moved between the merchant's own accounts is never paid, whatever the amount |
| Watch.VerifyPayment | plugins/kiosk-watch/src/watch.rs:471-749 | splitting the listing, the marker pass and the payment pass compute the two-pass verdict |
| Verdicts.VerdictIff | plugins/kiosk-watch/src/watch.rs:471-749 | exactly when the verdict is paid, already fulfilled, pending or mismatch, and none of them without a listing for a configured charge |
| Verdicts.ErrorIff | plugins/kiosk-watch/src/watch.rs:471-749 | exactly which runs end in a request, configuration or node error, a failed listing told by its cause; every other error is a malformed answer |
| Watch.PaidIff | plugins/kiosk-watch/src/watch.rs:471-749 | paid exactly when every entry that is no claim is foreign to the device and some claim verifies while every newer claim is foreign and does not |
| Watch.FulfilledIff | plugins/kiosk-watch/src/watch.rs:555-655 | already fulfilled exactly when some entry is the authority's own marker, naming a payment that verifies and does not postdate it, and every newer non-claim is foreign |
| Watch.PaidIsConfigured | plugins/kiosk-watch/src/watch.rs:471-520 | a paid verdict implies finality `finalized`, a priced item, a real reference, and carries the configured price, recipient, mint and scale |
| Watch.ForeignIsInert | plugins/kiosk-watch/src/watch.rs:542-749 | one more foreign entry that mismatches if it is a claim, anywhere in the listing, leaves every verdict and every error as it was, except that a claim turns pending into mismatch |
| Fulfillment.MarkerAccepted | plugins/kiosk-watch/src/watch.rs:807-942 | the verifier authenticates every landed fulfillment of its own charge, and reads in it the payment that was attested |
| Fulfillment.DeliveredStaysFulfilled | plugins/kiosk-watch/src/watch.rs:555-655 | once a delivery has landed below only foreign traffic, every verification answers already fulfilled, though the payment is still listed |
| Claim.ClaimableIff | scripts/trusted-order-claim.mjs:64-142 | a verified payment and a sound order are claimable exactly when they agree on reference, item, economics and policy and the payment landed inside the quote, up to 30 s of skew before it |
| Grant.ClaimableIff | scripts/trusted-order-claim.mjs:64-142 | two files are claimable exactly when they are the watch result and the order, all members spelled out, of one well-formed deal whose payment landed inside its quote |
| Grant.GrantIff | scripts/trusted-order-claim.mjs:64-207 | a claim is granted with this record exactly when order file and raw result are about one such deal of this reference, and the record repeats its reference, item, amount, recipient, mint, decimals, signature, slot and block time, with driver and time |
| Claim.OrdersDirectory.ClaimOrder | scripts/trusted-order-claim.mjs:169-207 | grants a claim at most once per reference, for a matching payment of that order, and never touches an order or another claim |
| Claim.OrdersDirectory.PersistOrder | scripts/trusted-charge-handoff.mjs:281-318 | creates an order file once; the same text is accepted again, another text never, and no order ever changes |
| Actuator.LastPulseMs | scripts/actuator.mjs:59-71 | the backward scan returns the time of the newest completed pulse, zero without one, skipping malformed lines |
| Actuator.NextKeeps | scripts/actuator.mjs:101-184 | every step of every run, crashes and failed system calls included, keeps the invariant of lock, cooldown, claim and pulse |
| Actuator.AtMostOneHigh | scripts/actuator.mjs:130-165 | in every interleaving no reference gets a second HIGH |
| Actuator.HighIsClaimed | scripts/actuator.mjs:137-150 | every HIGH belongs to a real run that owns the exclusive claim on its order, whose watch result passes the claim's validation against the order file |
| Actuator.HighIsCooled | scripts/actuator.mjs:112-150 | at each HIGH the run holds the lock and its claim, the reference is unfired, and 3000 ms have passed since the last journalled completed pulse |
| Actuator.MutualExclusion | scripts/actuator.mjs:101-110 | two runs are never past the lock at once |
| Actuator.CompletedIsSpaced | scripts/actuator.mjs:112-178 | a pulse journalled as completed lasted its 400 ms and keeps every later HIGH away for the cooldown |
| Actuator.CrashedHolderBlocks | scripts/actuator.mjs:101-110 | the lock of a crashed holder stays, and from then on there is no HIGH and the pin keeps its level |
| Actuator.CanFire | scripts/actuator.mjs:112-165 | an undisturbed run for a matching, unclaimed order on a free and cooled host does command its HIGH, whether the command then succeeds or fails |
| Actuator.CooldownIff | scripts/actuator.mjs:112-150 | from every reachable state with a free lock, and whatever else happens meanwhile, a run for a matching unclaimed order can command its HIGH at a given time exactly when 3000 ms have then passed since the last journalled completed pulse |
| Actuator.NextHighIff | scripts/actuator.mjs:112-178 | after a HIGH the next one can come at a given time exactly when the pulse was not journalled as completed, or 3000 ms have passed since it was |
| Actuator.FaultGapIff | scripts/actuator.mjs:152-172 | after a fault two HIGHs can come with exactly a given gap if and only if it is at least the 400 ms of the pulse when the first command succeeded, and at least zero when it failed, for any two fireable runs in any initial state |
| Pin.PinFollows | scripts/actuator.mjs:130-172 | in every interleaving the pin is LOW from the preflight up to the HIGH command, HIGH throughout a successful pulse and LOW after it |
| Pin.RisesByCommand | scripts/actuator.mjs:150-165 | the pin rises at no other time than when an announced run commands it |
| Pin.DryIsInert | scripts/actuator.mjs:121-129 | a dry run never gets a claim and never commands HIGH, and only a dry run rehearses |
| Pin.GrantIsValid | scripts/trusted-order-claim.mjs:169-207 | a claim is granted only to the ready, real run that holds the lock, while the pin is LOW and the clock safe, for a payment that matches the order; an earlier claim stays |
| Pin.RehearsalIsValid | scripts/actuator.mjs:112-129 | a run rehearses only after the cooldown, with an order that its payment matches |
| Pin.RehearsalSleeps | scripts/actuator.mjs:121-129 | a rehearsal takes 400 ms at least and leaves nothing but its journal line |
| Pin.JournalGrows | scripts/actuator.mjs:53-57 | the journal only grows, line by line, and each line says what its run has just come through |
| Pin.LastPulseIs | scripts/actuator.mjs:59-71 | the cooldown counts from the newest completed or delivered line, whatever other lines follow it |
| ActuatorRun.RunOnce | scripts/actuator.mjs:93-184 | the whole main sequence, on any clock that does not go back, is a path of the state machine; exactly when it exits with 0 and when it commands HIGH, at which times, with which journal lines and which claim; a held lock leaves everything untouched; which ways out release the lock |
| ActuatorRun.OutcomeIs | scripts/actuator.mjs:112-178 | the terms of that contract, case by case: which lines with which times, which claim file, and all that a run needs to pulse |
| ActuatorRun.Pulse | scripts/actuator.mjs:152-178 | commands HIGH once, sleeps unless that failed, commands LOW whatever happened, and reports success exactly when both worked and the completion was journalled |
| Conservation.PulseIsBacked | scripts/trusted-order-claim.mjs:126-133 | every pulse is backed by a ledger transaction that settled its reference and paid what its order file asks |
| Conservation.SettledIsCredited | plugins/kiosk-watch/src/watch.rs:1139-1153 | the settled amount is the recipient's net on-chain credit in that transaction |
| Conservation.Conserved | plugins/kiosk-watch/src/watch.rs:758-766 | distinct pulses are backed by distinct transactions, so per recipient and mint the quotes of all pulsed orders sum to at most what those transactions, and the ledger, credited |
| Handoff.CheckParams | scripts/trusted-charge-handoff.mjs:221-229 | the counting loop accepts exactly known names with each binding parameter once |
| Handoff.ValidateHandoff | scripts/trusted-charge-handoff.mjs:141-257 | from the raw output, wrapped or not and no larger than 64 KiB: the order exactly when the machine output, both plugin sections, both price lists and the URL agree, with the URL as a parser serializes it |
| Quoted.OrderIff | scripts/trusted-charge-handoff.mjs:164-257 | exactly this order is persisted when the raw output opens to the report of a charge for it, both plugin sections sell its item at its amount, and the URL asks for it, all members spelled out |
| Quoted.StoredUrlAsks | scripts/trusted-charge-handoff.mjs:218-255 | the URL that a persisted order keeps parses to that order's recipient, amount, mint, reference and memo |
| Handoff.HandoffIff | scripts/trusted-charge-handoff.mjs:164-257 | the handoff accepts the raw output of a charge that the plugin created, at the charged price and under its very URL, exactly when it is no larger than 64 KiB, the two sections are spelled out and agree on the item and the quote's expiry is a safe integer |
| Handoff.PersistedIsSound | scripts/trusted-charge-handoff.mjs:281-301 | whatever the handoff accepts is an order that the claim script finds sound |
| EndToEnd.ChargeUrl | plugins/kiosk-charge/src/charge.rs:244-325 | the URL of an item charge asks for exactly what the verifier will look for |
| EndToEnd.WalletVerifies | plugins/kiosk-watch/src/watch.rs:986-1168 | a transaction that an honest wallet builds from the URL verifies, for the amount that the URL asked |
| EndToEnd.HonestIsPaid | plugins/kiosk-watch/src/watch.rs:471-749 | within the listed entries, that transaction makes the verdict paid, whatever foreign traffic surrounds it |
| EndToEnd.ClaimAcceptsIff | scripts/trusted-order-claim.mjs:64-142 | the claim accepts that verdict for the handed-off order exactly when the payment landed inside the quote and its signature, payer and slot are well formed |
| EndToEnd.ClaimableFires | scripts/actuator.mjs:101-165 | a claimable payment on file, its watch result wrapped or not, leads on a free and cooled host to the HIGH of its order |
| EndToEnd.ChargeToPulse | scripts/actuator.mjs:101-165 | one sale through all programs: charged, handed off, paid from the parsed charge URL and listed, it is paid at the list price; a run with that result matches exactly when the payment landed inside the quote, and can then command its HIGH at a given time exactly when the cooldown is over |

## Left out

- HTTP, the JSON-RPC envelope, retries and logging: the node is a set of parsed answers.
- JSON and TOML grammars, trimming, splitting price lists at commas and colons, and the 64 KiB bound of the config file: parsing is a parameter, sections start as members and price lists as trimmed entries.
- Heartbeat mode of the watcher and the reading of attestation times: a short scan that adds little beyond recovery and payment verification.
- The attestation configuration and the parsing of metric bounds: a reading is a real number or not finite.
- The fiat hint, message wording, output clamping and the human summaries.
- Hashes, random references and claim ids, file modes, fsync, symbolic links and directory checks: files are created exclusively, appended whole or not at all, and otherwise immutable. A partly written journal line that swallows the next one is not modelled.
- Removing a stale lock by hand, and system clocks that go back.
- The fallback between GPIO tools and their time limits: one command is one step that succeeds or fails.
- Negative numbers and numbers with a fraction are opaque in JSON; JavaScript's `String(value)` is a parameter that is only known to leave strings alone.
- Shell scripts, the display page and server, the test payer and the host test scaffolding.
- ActuatorRun.RunOnce: the run goes to its end with nobody else moving; crashes and interleavings are those of Actuator, whose steps it takes.
- EndToEnd.HonestIsPaid: the newer claims of the same charge, if any, must have mismatched; an earlier verified one would win instead.
