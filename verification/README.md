# Octo: verified core

A Dafny model of the parts of Octo whose correctness rests on interleavings, crash points, chunk
boundaries or exact arithmetic, with proofs over all of them:

- the per-user **audit hash chain** (append, adoption of legacy rows, batched verification, anonymising rewrite);
- **deposit ingestion** as a protocol of many crash-prone workers sharing one cursor and one table;
- the **SSE decoder** behind the payment streams, and the **tick scheduler** that polls everyone else;
- the **circuit breaker** and the retry executor on top of it;
- **master-key rotation** beside a live server, over a symbolic AEAD;
- **withdrawal reconciliation**, **fixed-window rate limiting** and **idempotency keys**;
- operation ids (**TOIDs**) and their **backfill**, **stroop parsing**, **EIP-55 addresses** and the **withdrawal estimate**.

## How it is laid out

Each SQL statement, or each SQL transaction, is one atomic step over maps and sequences. Functions on
values say what each step does; classes and loops (`AuditStore`, `IngestWorkers`, `SseDecoder`,
`TickScheduler`, `ResilientCall`, `KeyMigrator`, `WithdrawalSweep`, `RateStores`, `Idempotency.KeyTable`,
`BackfillRun`, `Address`, `Amount`) are the imperative code, proved against those functions. Where the
source awaits, the loops take a parameter that lets the rest of the system do anything in between.

| files | component |
|---|---|
| `Wrappers`, `Bytes`, `Digits`, `Ordering` | options, results and faults, byte encodings, decimal text, `ORDER BY` |
| `AuditEncoding`, `AuditChain`, `AuditWalk`, `AuditHealth`, `AuditRuns` | MAC messages, the tables, walks over chains, what every run keeps |
| `AuditTamper`, `AuditLedger`, `AuditProvenance`, `AuditLeft` | damaged chains stay damaged; intact chains are what the code signed, and when they are what it left |
| `AuditVerdict`, `AuditColumns` | what the verifier reports and what each operation writes, column by column, on any tables |
| `AuditRewrite`, `AuditStore` | the batched loops, row by row and page by page |
| `Toid`, `Amount`, `Deposits` | operation ids, amounts, what a record credits |
| `IngestProtocol`, `IngestSafety`, `IngestTheorems`, `IngestWorkers` | the ingestion protocol, its invariant, its exact conditions, the workers |
| `SseMeaning`, `SseDecoder`, `TickSchedule`, `TickScheduler` | streams and ticks |
| `CircuitBreaker`, `ResilientCall` | the breaker and `execute` |
| `Crypto`, `KeyRotation`, `KeyMigrator` | sealing, the rotation protocol, the migration loop |
| `Withdrawals`, `WithdrawalSweep` | pending withdrawals, and the sweeps over them |
| `RateLimit`, `RateStores` | fixed windows, and the stores and the limiter that count them |
| `Backfill`, `BackfillRows`, `BackfillRun` | offset paging, what the unique index refuses, the backfill loop |
| `Idempotency`, `Address`, `Estimate` | one component each |

## Assumptions

- **MACs.** `row_hash` and `head_mac` are an arbitrary MAC over the encoded messages. A 32-byte MAC cannot be
  injective on all messages, so theorems that need it assume only that it has no collision between the
  messages actually in play; the encoding itself is proved injective.
- **Schema.** `(user_id, seq)` is unique and `seq >= 1` in the audit table; deposits are unique on
  `(stellar_tx_hash, operation_index)` and on `horizon_op_id`; wallets are unique on their account.
- **Horizon** answers about settled history like a function, pages are the contiguous ascending successors of
  the cursor, and it honours `limit`. Failures, and anything the code awaits, are parameters.
- **AEAD.** A ciphertext decrypts exactly under the key, nonce and associated data it was made with
  (section 2 of RFC 5116), and HKDF separates its inputs.
- **Clocks** are parameters. Where a theorem needs them to be monotone, or not to lag, it says so.

## Where a promise does not hold as stated

Each of these is kept as the code has it, with a lemma giving the failing input or family and a lemma giving
the exact condition.

- *An intact chain was left by the code at some point.* Record, cut the row off, record again, put the row
  back: a run after which the chain is intact and no operation left it (`AuditLeft.RestoredRowWasNeverLeft`).
  What always holds is that its head was signed for exactly that history
  (`AuditProvenance.EveryIntactChainIsSigned`). A record leaves in the tables what it signs exactly when the
  chained rows led to the tip before it, which is the walk the code does before it anonymises
  (`RecordLeavesIff`); on a broken chain that is exactly when stray unchained rows are all that is wrong
  (`RecordOnBrokenLeavesIff`). Recording only then, every intact chain was left (`IntactChainWasLeft`); and
  whatever tables are put in place, that holds exactly while every signed history that tables can hold was left
  (`IntactAlwaysLeftIff`), which a record keeps exactly then, or if that history was left before
  (`RecordKeepsLeftIff`).
- *Every creditable operation below the cursor is credited.* This holds in every run exactly when owed deposits
  share no unique key and lie in ledgers the clock already allows (`IngestTheorems.CompleteIff`). Records
  without a transaction hash all get the hash `""` and clash (`MissingHashesClash`); a clock that lags behind
  the ledger skips a deposit for good (`LateClockLosesDeposit`).
- *A non-closed breaker has at least `failure_threshold` consecutive failures.* After 2^32 consecutive failures
  the counter has wrapped (`CircuitBreaker.OverflowForgets`); in a run that never gets there the claim holds, and
  only then (`CountsAreKeptIff`).
- *A row failed for its timebounds never appears on chain.* Right exactly when no ledger ingested between the
  hash lookup and the close-time read closed early enough to include it (`Withdrawals.ExpiryIsRightIff`).
- *Idempotent replays belong to their request.* Stored and replayed responses stay genuine throughout a run
  exactly when no claimer stores its response in a row that has gone to a request with another hash
  (`Idempotency.ReplaysGenuineIff`). Any claim still running past its TTL can do that
  (`LateFinishIsReplayedToAnother`), and whoever asks next with that hash is handed it (`MislabelIsReplayed`).
- *One claim runs per key.* Running claims own their rows throughout a run exactly when no claim or sweep takes
  the row of one that has outlived its TTL (`RunSoundIff`). Past that, the late claimer's release lets a third
  request in beside one that is well within its own TTL (`LateReleaseLetsAnotherIn`).
- *An unlimited backfill visits every row.* Its query orders by `created_at` alone, so ties may come in any order
  on each query; every row is visited exactly when no tie lies across a page boundary
  (`Backfill.PagingIsCompleteIff`).
- *A backfill makes every row correct.* One refused row rolls its whole batch back. With ties within pages and no
  failure of the database, a run leaves every row that decodes correct, and counts no error, exactly when the
  unique index refuses no row in the order visited (`BackfillRun.Table.BackfillAll`); no order is refused exactly
  when no row that needs correcting wants an index that another row of its transaction has or wants
  (`BackfillRows.NeverRefusedIff`). Two rows that hold each other's index are refused in every order
  (`SwapIsRefused`); `SwapExample` gives such rows.
- *The estimate is exact.* The quoted fee is, exactly while it fits in 64 bits (`Estimate.FeeIsExactIff`). Coverage
  is, except with a zero reserve, a balance of `i64::MAX` and a fee beyond 64 bits (`CoverageIsExactIff`); there
  sufficiency is wrong exactly for credit amounts within the balance, and the maximum exactly for credit assets
  with a balance (`SufficientIsExactIff`, `MaximumIsGreatestIff`). `SaturationMisleads` gives the accounts.

## Where code and documentation disagree

- A failure that opens the breaker makes `execute` return `Circuit`, not the error
  (`crates/resilience/src/lib.rs:356`); a comment and a test in that file expect otherwise.
- `bin/migrate-keys/src/lib.rs:95` passes the old ciphertext to `reseal_wallet` as the value to compare with,
  while `crates/store/src/wallets.rs:406` compares the scheme tag. The migration loop is modelled with the former;
  the rotation protocol holds for writes under either guard (`KeyRotation.EveryRowOpens`), but under the scheme tag a
  row without one is never rotated (`KeyRotation.RotateRowForward`).
- `reseal` is documented to accept scheme 0, but the migration loop builds records with
  `from_parts_with_scheme`, which refuses it (`KeyRotation.OtherSchemesAbort`).
- The backfill's UPDATE also sets `updated_at`, a column no migration adds to `transactions`. The model takes
  the statement as accepted.

## Model

| member | source | states |
|---|---|---|
| `AuditEncoding.PutStrSelfDelimiting` | crates/store/src/audit_chain.rs:120-124 | A length-prefixed string can be read back from any bytes that follow it |
| `AuditEncoding.PutOptSelfDelimiting` | crates/store/src/audit_chain.rs:126-134 | A tagged optional can be read back, and an absent value differs from an empty one |
| `AuditEncoding.RowMessageInjective` | crates/store/src/audit_chain.rs:142-156 | Equal row messages have equal previous hashes and equal columns |
| `AuditEncoding.HeadMessageInjective` | crates/store/src/audit_chain.rs:158-165 | Equal head messages name one user, one position and one hash |
| `AuditEncoding.DomainsDisjoint` | crates/store/src/audit_chain.rs:142-165 | No row message is a head message |
| `AuditEncoding.TextLayout` | crates/store/src/audit_chain.rs:120-134 | A text is its 8-byte big-endian length and its bytes; an optional one is a 0, or a 1 and the text |
| `AuditEncoding.RowLayout` | crates/store/src/audit_chain.rs:142-156 | Reading a row message by position gives back domain, previous hash, ids, sequence number and time, then the texts |
| `AuditEncoding.HeadLayout` | crates/store/src/audit_chain.rs:158-165 | Reading a head message by position gives back domain, user, sequence number and row hash |
| `AuditEncoding.KeyedIs` | crates/store/src/audit_chain.rs:142-165 | The keyed hashes are the MACs of exactly those messages |
| `Bytes.BigEndianOrder` | crates/store/src/audit_chain.rs:146-150 | Numbers go in most significant byte first |
| `AuditHealth.AppendPins` | crates/store/src/audit_chain.rs:337-384 | After an append the user's whole history walks to exactly the head it wrote |
| `AuditHealth.AppendKeepsHealthy` | crates/store/src/audit_chain.rs:337-384 | An append keeps every user either unchained or pinned to a verified head |
| `AuditHealth.AnonymiseShape` | crates/store/src/audit_chain.rs:392-474 | Anonymising touches only the user's rows, nulls both personal columns of all of them and counts them |
| `AuditHealth.AnonymiseKeepsHealthy` | crates/store/src/audit_chain.rs:392-474 | Anonymising keeps every user either unchained or pinned to a verified head |
| `AuditHealth.AdoptWalked` | crates/store/src/audit_chain.rs:506-550 | Legacy rows adopted in (created_at, id) order form a chain that walks to the returned tip |
| `AuditHealth.PinnedVerifies` | crates/store/src/audit_chain.rs:208-305 | A pinned user verifies Intact, with as many rows verified as the user has |
| `AuditRuns.EveryRunVerifies` | crates/store/src/audit_chain.rs:192-305 | From legacy rows only, after any run of appends and deletions every user with a head verifies Intact over all of their rows |
| `AuditRuns.RunNext` | crates/store/src/audit_chain.rs:192-205 | A run takes its operations one by one, and one that fails leaves everything as it was |
| `AuditRuns.DeletionAnonymises` | crates/store/src/account.rs:162-286 | A deletion tombstones the user, keeps all earlier rows, adds its own, and leaves no target or address on any of them |
| `AuditRuns.DeletionVerifies` | crates/store/src/account.rs:274-279 | Right after a deletion the user verifies Intact over all rows |
| `AuditRuns.AppendSucceedsIff` | crates/store/src/audit_chain.rs:337-384 | On healthy tables an append succeeds exactly when its id is new and the next position fits in 64 bits |
| `AuditRuns.DeletionRefusedIff` | crates/store/src/account.rs:162-286 | A deletion is refused as unknown exactly for a missing or tombstoned user, and as a conflict exactly when the wallets are not those checked; past that only the trail can fail it |
| `AuditColumns.RecordedRow` | crates/store/src/audit_chain.rs:337-384 | Whatever the tables hold, the recorded row carries each column the caller gave, placed and linked after the tip, and the head signs it |
| `AuditColumns.FirstRow` | crates/store/src/audit_chain.rs:337-384 | The first row of a user has position 1 and links to 32 zero bytes |
| `AuditColumns.AnonymisedColumns` | crates/store/src/audit_chain.rs:392-474 | Whatever the tables hold, anonymising nulls both personal columns of every row of the user, changes no event and no other user, and counts the rows of the chain and the strays |
| `AuditColumns.DeletionRow` | crates/store/src/account.rs:262-286 | A deletion tombstones the user and records the deletion itself, in its own words, category and time, with no personal column |
| `AuditVerdict.FirstBadRow` | crates/store/src/audit_chain.rs:229-278 | A chain whose first k rows belong and whose next does not is reported broken at k + 1, as a gap, an unlinked hash or a wrong hash |
| `AuditVerdict.GoodChain` | crates/store/src/audit_chain.rs:279-305 | When every row belongs, the report is what the head says: missing, invalid, rows cut, mismatch, strays, or intact |
| `AuditVerdict.GoodOrFirstBad` | crates/store/src/audit_chain.rs:208-305 | Every chain is one or the other |
| `AuditTamper.AppendNeverMends` | crates/store/src/audit_chain.rs:337-384 | Whatever the tables hold, an append that succeeds leaves a Broken chain Broken |
| `AuditTamper.AnonymiseNeverMends` | crates/store/src/audit_chain.rs:392-474 | Whatever the tables hold, an anonymisation that succeeds leaves a Broken chain Broken |
| `AuditTamper.RunNeverMends` | crates/store/src/audit_chain.rs:192-503 | Over any run from any tables, a user found Broken stays Broken |
| `AuditLedger.WalkIsHashChain` | crates/store/src/audit_chain.rs:229-278 | The verifying walk succeeds exactly on hash chains ending in the same hash |
| `AuditLedger.SameHeadSameHistory` | crates/store/src/audit_chain.rs:208-305 | Two databases that verify Intact with one head hash hold identical chained rows |
| `AuditProvenance.EveryIntactChainIsSigned` | crates/store/src/audit_chain.rs:179-305 | Over any run with arbitrary tampering, an Intact chain with a head is the history the code signed that head for |
| `AuditLeft.RestoredRowWasNeverLeft` | crates/store/src/audit_chain.rs:337-384 | From legacy rows, for any user and two events: record, cut, record, restore is an allowed run that ends Intact in a history no operation of it left |
| `AuditLeft.ReachesTipIff` | crates/store/src/audit_chain.rs:208-305 | The chained rows lead to the tip exactly when the verifier objects to nothing but stray unchained rows |
| `AuditLeft.RecordLeavesIff` | crates/store/src/audit_chain.rs:337-384 | A record leaves in the tables the history it signs exactly when the chain reached the tip before |
| `AuditLeft.RecordOnBrokenLeavesIff` | crates/store/src/audit_chain.rs:337-384 | On a Broken chain, exactly when stray unchained rows are all that is wrong |
| `AuditLeft.RecordKeepsLeftIff` | crates/store/src/audit_chain.rs:337-384 | A record keeps every signed history among those left exactly then, or if that history was left before |
| `AuditLeft.IntactAlwaysLeftIff` | crates/store/src/audit_chain.rs:179-305 | Whatever tables are put in place, an Intact chain was left exactly while every signed history that tables can hold was |
| `AuditLeft.IntactChainWasLeft` | crates/store/src/audit_chain.rs:192-503 | When records are only attempted on chains that reach their tip, an Intact chain was left by the code row for row |
| `AuditRewrite.RewriteRowsIsRelink` | crates/store/src/audit_chain.rs:415-459 | Scrubbing and relinking row by row gives what scrubbing all and then linking all gives |
| `AuditRewrite.PageUnmoved` | crates/store/src/audit_chain.rs:402-414 | A page read half way through the rewrite lists what it would have listed before it |
| `AuditStore.RestOfChain` | crates/store/src/audit_chain.rs:229-245 | Once n rows walk, the rows above position n are exactly the rest of the chain |
| `AuditStore.Tables.VerifyAuditChain` | crates/store/src/audit_chain.rs:208-305 | For every batch size of at least one, the batched walk reports what one pass over the snapshot reports |
| `AuditStore.Tables.AdoptRows` | crates/store/src/audit_chain.rs:506-550 | The adoption loop numbers and links the rows as the one-pass adoption does, with the same overflow error |
| `AuditStore.Tables.FindTip` | crates/store/src/audit_chain.rs:478-503 | The tip is the verified head, a fresh adoption, or a refusal |
| `AuditStore.Tables.AppendLink` | crates/store/src/audit_chain.rs:337-384 | Appending in place gives the tables and the error of the value-level append |
| `AuditStore.Tables.AnonymiseChain` | crates/store/src/audit_chain.rs:392-474 | For every batch size, rewriting rows under the paging cursor gives the one-pass result, or its error |
| `AuditStore.Store.RecordAudit` | crates/store/src/audit_chain.rs:192-205 | Recording commits the append or leaves the world as it was |
| `AuditStore.Store.DeleteAccount` | crates/store/src/account.rs:162-286 | Deletion checks the wallet set, anonymises, appends, and commits all of it or nothing |
| `Toid.DecodeInverse` | crates/ingest/src/lib.rs:674-694 | A text decodes to an operation exactly when it is the digits of that operation's packing and the operation is in range |
| `Toid.PrintedToidDecodes` | crates/ingest/src/lib.rs:674-694 | Packing and printing any real operation decodes back to it |
| `Toid.OrderIsLexicographic` | crates/ingest/src/lib.rs:655-694 | Ids are equal exactly for equal operations, and their numeric order is (ledger, transaction, operation) |
| `Toid.PlausibleIff` | crates/ingest/src/lib.rs:650-657 | A ledger is plausible exactly up to the fixed floor, or when that many seconds have passed since genesis |
| `Toid.CeilingOnlyAdmits` | crates/ingest/src/lib.rs:650-694 | Raising the ceiling changes no decoding and only admits later ledgers |
| `Amount.ToStroops` | crates/ingest/src/amount.rs:15-46 | The parser with its padding loop computes the specified stroops |
| `Amount.StroopsIff` | crates/ingest/src/amount.rs:15-46 | Some(v) exactly when the trimmed text is digits with an optional point and at most seven more, and v is 10^7 times its value |
| `Amount.PrintRoundTrip` | crates/ingest/src/amount.rs:15-46 | The canonical text of any amount parses back to it |
| `Amount.TrimIs` | crates/ingest/src/amount.rs:15-19 | Trimming takes off whitespace only |
| `Amount.TrimmedEnds` | crates/ingest/src/amount.rs:15-19 | No whitespace is left at either end |
| `Amount.WhitespaceIs` | crates/ingest/src/amount.rs:15-19 | What counts as whitespace: the 25 characters with the Unicode property |
| `Amount.ParseAmountStroops` | crates/api/src/horizon.rs:130-143 | The lenient parser computes its signed, padded and truncated reading |
| `Amount.ParsedFrom` | crates/api/src/horizon.rs:130-143 | The amount is the number before the point times 10^7 plus the first seven places after it, both signed, and none exactly if either is no number |
| `Amount.PartsOf` | crates/api/src/horizon.rs:130-134 | The parts are what stands before and after the first point |
| `Amount.ParsersAgree` | crates/api/src/horizon.rs:130-143 | Where the strict parser accepts unpadded text, the lenient one returns the same value and cannot overflow |
| `Deposits.DirectOwedIff` | crates/ingest/src/lib.rs:211-327 | Exactly which operations other than claims are owed, and as what row: kind, destination, no self-conversion, payer, memo, asset, and a positive readable amount, the starting balance of a new account |
| `Deposits.ClaimOwedIff` | crates/ingest/src/lib.rs:335-377 | Exactly which claims are owed, and as what row: of ours, of a balance someone else created, for what the first crediting effect says |
| `Deposits.AttributedIff` | crates/ingest/src/lib.rs:211-302 | A row can carry a customer exactly with an id on our own muxed address or an id memo |
| `Deposits.ClaimAttributedIff` | crates/ingest/src/lib.rs:335-377 | A claim can carry a customer exactly with an id memo on the balance creation |
| `Deposits.OneDestination` | crates/ingest/src/lib.rs:305-377 | An operation owes a deposit to at most one account |
| `Deposits.ProcessedAtAnyTime` | crates/ingest/src/lib.rs:211-302 | The clock and the address lookup change nothing about the row but the customer, unless the ledger is implausible |
| `IngestProtocol.PassedSplits` | crates/ingest/src/horizon.rs:200-214 | A cursor splits the operations into those at or below it and those Horizon returns |
| `IngestProtocol.AnswerServes` | crates/ingest/src/horizon.rs:200-214 | Horizon serves the operations after the cursor, up to the limit, and a stream then one more at a time |
| `IngestProtocol.StartAndStop` | crates/ingest/src/lib.rs:156-176 | A worker starts from the stored cursor; stopping at any point forgets the worker and nothing else |
| `IngestSafety.RecordSettles` | crates/store/src/ingest.rs:15-48 | Whether it inserts or finds a duplicate, recording an owed deposit leaves exactly its row there |
| `IngestSafety.StepKeepsSound` | crates/ingest/src/lib.rs:156-302 | Every step of every worker keeps the invariant that ties cursors and workers to the rows present |
| `IngestTheorems.NeverCreditedTwice` | crates/store/src/ingest.rs:15-48 | In no run at all does an operation get two rows |
| `IngestTheorems.EveryRunCreditsOnce` | crates/ingest/src/lib.rs:156-302 | After any interleaving with crashes, each operation at or below the stored cursor that owes a deposit has exactly one row, exact in every field but the customer |
| `IngestTheorems.CompleteIff` | crates/ingest/src/lib.rs:211-302 | Every run is complete exactly when owed deposits share no unique key and lie in plausible ledgers |
| `IngestTheorems.ClashLosesDeposit` | crates/store/src/ingest.rs:15-48 | Two different deposits sharing a unique key: some run loses one |
| `IngestTheorems.LateClockLosesDeposit` | crates/ingest/src/lib.rs:650-657 | A clock behind the ledger: some run skips the deposit for good |
| `IngestTheorems.FaithfulKeysSeparate` | crates/ingest/src/lib.rs:636-694 | If ids name operations and hashes name transactions, TOID decoding makes the dedup keys separate all deposits |
| `IngestTheorems.MissingHashesClash` | crates/ingest/src/lib.rs:218-219 | Two owed operations without a transaction hash and with one operation index clash |
| `IngestTheorems.IngestionCreditsOnce` | crates/ingest/src/lib.rs:156-302 | On a faithful network the real rules credit everything below a cursor exactly once |
| `IngestWorkers.Service.InsertDeposit` | crates/store/src/ingest.rs:15-48 | Inserts unless either unique key is taken, and reports which |
| `IngestWorkers.Service.GetCursor` | crates/store/src/ingest.rs:355-363 | Reads the stored cursor and changes nothing stored |
| `IngestWorkers.Service.StoreCursor` | crates/store/src/ingest.rs:366-380 | Overwrites the cursor with the processed operation's token |
| `IngestWorkers.Service.ProcessRecord` | crates/ingest/src/lib.rs:211-302 | Processing a record is one protocol step on the table |
| `IngestWorkers.Service.PollOnce` | crates/ingest/src/lib.rs:156-176 | Under any interference and any failure, replies to applied writes lost included, a poll is a run of the protocol; a successful one processed, then passed, exactly the records Horizon served after the cursor it read, up to its limit |
| `IngestWorkers.Service.StreamSession` | crates/ingest/src/stream.rs:136-171 | A stream session is a run of the protocol too; one that ends well took, processed and passed, one by one, the operations after the cursor it read, and one that errs met a failure |
| `IngestWorkers.Service.PollKeepsSound` | crates/ingest/src/lib.rs:156-176 | A poll that fails anywhere still leaves everything below every cursor credited |
| `SseMeaning.TakeAllIsMeaning` | crates/ingest/src/horizon.rs:415-448 | Line-by-line decoding computes the split-group-join-parse meaning, with the same first failure |
| `SseMeaning.GlueIsJoin` | crates/ingest/src/horizon.rs:425-432 | Gluing data values one by one is dropping leading empty ones and joining the rest with newlines |
| `SseMeaning.UnfinishedYieldsNothing` | crates/ingest/src/horizon.rs:415-437 | An event not yet ended by a blank line yields no record |
| `SseMeaning.DataLine` | crates/ingest/src/horizon.rs:419-429 | On literal bytes: `data:` and a payload, with or without a space, is a data line with that payload, for both line endings |
| `SseMeaning.OtherLine` | crates/ingest/src/horizon.rs:419-436 | Any other line, an event name or a comment, is neither data nor the end of an event |
| `SseMeaning.OneEvent` | crates/ingest/src/horizon.rs:415-448 | A data line and an empty line mean what the payload parses to, then the rest; beyond 1 MiB they fail |
| `SseMeaning.TwoValues` | crates/ingest/src/horizon.rs:425-432 | The values of two data lines are joined by a newline, and other lines play no part |
| `SseDecoder.Decoder.Feed` | crates/ingest/src/horizon.rs:402-409 | Refuses exactly a buffer that is one unfinished line beyond the limit |
| `SseDecoder.Decoder.NextRecord` | crates/ingest/src/horizon.rs:415-437 | Returns the next record and leaves what the rest of the stream means unchanged |
| `SseDecoder.PaymentStream.NextRecord` | crates/ingest/src/horizon.rs:379-390 | Feeding chunks until a record, the end or a failure preserves what the stream means |
| `SseDecoder.Collect` | crates/ingest/src/horizon.rs:379-448 | For every cut of the bytes into chunks the records and the failure are those of the whole stream; overlong lines can only fail early |
| `CircuitBreaker.NotClosedHasFailed` | crates/resilience/src/lib.rs:205-243 | A breaker that is not closed has at least the threshold of consecutive failures |
| `CircuitBreaker.CountsAreKeptIff` | crates/resilience/src/lib.rs:205-243 | That holds throughout a run exactly when the run never reaches 2^32 consecutive failures |
| `CircuitBreaker.OnlySuccessCloses` | crates/resilience/src/lib.rs:205-243 | Only on_success closes the breaker |
| `CircuitBreaker.ProbesAreSpaced` | crates/resilience/src/lib.rs:205-221 | Between two successes any two admissions while not closed are at least the reset timeout apart |
| `CircuitBreaker.CountIs` | crates/resilience/src/lib.rs:223-243 | The count is the failures since the last success, modulo 2^32 |
| `CircuitBreaker.ClosedIff` | crates/resilience/src/lib.rs:205-243 | The breaker is closed exactly while there are fewer failures than the threshold since the last success |
| `CircuitBreaker.StepLeaves` | crates/resilience/src/lib.rs:205-243 | What each step leaves: a success a closed breaker with no failures, a refused check nothing changed, an admitted one the claimed probe, a failure at the threshold a breaker opened at that time |
| `CircuitBreaker.CoolsDown` | crates/resilience/src/lib.rs:205-243 | After a failure that opens it, a failed probe included, checks are refused until the timeout has passed since that failure, and then admitted |
| `CircuitBreaker.OverflowForgets` | crates/resilience/src/lib.rs:231-243 | At 2^32 consecutive failures the count is zero while the breaker is open |
| `CircuitBreaker.SharedBreaker.Check` | crates/resilience/src/lib.rs:205-221 | Admits exactly when closed or the cool-down has elapsed, claiming the probe in that case |
| `CircuitBreaker.SharedBreaker.OnSuccess` | crates/resilience/src/lib.rs:223-227 | Closes and clears the count |
| `CircuitBreaker.SharedBreaker.OnFailure` | crates/resilience/src/lib.rs:231-243 | Counts, and opens at the threshold |
| `ResilientCall.Execute` | crates/resilience/src/lib.rs:322-368 | At most one call for Submit and max(1, max_attempts) for ReadOnly; each call follows its own successful check; only retriable failures are recorded; the log accounts for the breaker and explains the result |
| `ResilientCall.HonestIsDisciplined` | crates/resilience/src/lib.rs:322-368 | In every log the calls, checks and records follow one another as the loop requires |
| `ResilientCall.AttemptsIs` | crates/resilience/src/lib.rs:334-338 | One attempt for Submit, and max(1, max_attempts) for ReadOnly |
| `TickSchedule.PageDone` | crates/ingest/src/lib.rs:1025-1082 | A finished page keeps every wallet's pages, records and limits within budget |
| `TickSchedule.DrainsButOne` | crates/ingest/src/lib.rs:1050-1082 | Taking a task off the queue leaves every other wallet with a full last page either queued or out of budget |
| `TickSchedule.InTurnGrows` | crates/ingest/src/lib.rs:1025-1082 | Every poll asks for a full page, or for what is left of 500 records, and is the first of its wallet or follows a full page |
| `TickSchedule.RemainingWithout` | crates/ingest/src/lib.rs:1050-1082 | Settling a task takes its wallet's remaining pages off the measure |
| `TickScheduler.Supervisor.SettleNext` | crates/ingest/src/lib.rs:1050-1082 | Settling counts the page, requeues only within budget, and lowers the pages remaining |
| `TickScheduler.Supervisor.FanOut` | crates/ingest/src/lib.rs:970-990 | Queues every wallet of a page that is not streaming, each once |
| `TickScheduler.Supervisor.Tick` | crates/ingest/src/lib.rs:937-1005 | Ends with no task left; at most 10 pages and 500 records per wallet, limits clamped to 1 to 200, at most 1000 tasks; exactly the loaded wallets that are not streaming are polled, again only after a full page, and while pages come back full until the budget is spent; the total is the sum of the pages |
| `Crypto.BoundOpensOnly` | crates/crypto/src/lib.rs:186-260 | An account-bound record opens only for its own key, context and account |
| `Crypto.ResealKeepsSecret` | crates/crypto/src/lib.rs:273-301 | Resealing, with or without an account, keeps the secret and opens under the new key alone |
| `Crypto.OpensIff` | crates/crypto/src/lib.rs:210-241 | Exactly which records open and to what, and which error the others give, by scheme tag |
| `Crypto.BoundOpensIff` | crates/crypto/src/lib.rs:244-268 | The same for account-bound records: the context, a NUL and the account, which must not be empty |
| `Crypto.ResealIff` | crates/crypto/src/lib.rs:273-289 | Resealing takes tags 0 and 1 and exactly what the old key sealed, and refuses what open refuses |
| `Crypto.FromPartsIff` | crates/crypto/src/lib.rs:103-125 | Stored columns make a record exactly with tag 1 or 2, a 12-byte nonce and a 32-byte salt |
| `Crypto.SealedUnder` | crates/crypto/src/lib.rs:153-205 | Sealing records the salt, the nonce and its scheme, 1 or account-bound 2 |
| `KeyRotation.ExamineRotates` | bin/migrate-keys/src/lib.rs:58-87 | A row holding its seed is skipped because the new key opens it, or rewritten so that it does |
| `KeyRotation.AbortsIff` | bin/migrate-keys/src/lib.rs:66-86 | The loop aborts exactly on unreadable columns or records neither key opens |
| `KeyRotation.RecordIff` | bin/migrate-keys/src/lib.rs:58-72 | Exactly which rows make a record, a missing tag meaning V1 |
| `KeyRotation.ContextIs` | bin/migrate-keys/src/lib.rs:74-75 | The context is `octo:` and the network |
| `KeyRotation.SnapshotIs` | bin/migrate-keys/src/lib.rs:44-57 | A page holds exactly the rows that are there |
| `KeyRotation.ReadsChangeNothing` | bin/migrate-keys/src/lib.rs:44-107 | Reading a page and dying change no row |
| `KeyRotation.InsertAdds` | crates/api/src/state.rs:314-333 | A provisioned wallet is one new row that opens under the new key; a taken id changes nothing |
| `KeyRotation.RotateTakesFirst` | bin/migrate-keys/src/lib.rs:58-104 | A migrator takes the first row of its page and may write that row only |
| `KeyRotation.SwapLandsIff` | crates/store/src/wallets.rs:406-436 | A swap lands exactly on a sealed row that is as the guard expects, and changes its sealed columns only |
| `KeyRotation.RotateRowForward` | crates/store/src/wallets.rs:406-436 | Under either guard a write only moves a row forward, and afterwards the new key opens it exactly unless the guard is the scheme tag, the row has none and nobody had rotated it |
| `KeyRotation.StepKeepsSound` | bin/migrate-keys/src/lib.rs:44-107 | Every step of every migrator under either guard, crash or insertion keeps each row's seed under one of the two keys |
| `KeyRotation.EveryRowOpens` | crates/api/src/state.rs:314-333 | At every point of every interleaving, whichever guard each write is made under, the opening keys recover each row's original seed |
| `KeyMigrator.Database.RotateOne` | bin/migrate-keys/src/lib.rs:58-104 | Whatever happens between read and write, afterwards the row opens under the new key |
| `KeyMigrator.Database.SwapRow` | bin/migrate-keys/src/lib.rs:89-104 | The compare-and-swap lands exactly when the row is still as read; either way the row then opens under the new key and no other row moved |
| `KeyMigrator.Database.Migrate` | bin/migrate-keys/src/lib.rs:44-107 | A completed run leaves every sealed row under the new key and counts each row it rotated once; undisturbed these are exactly the rows that needed it and the skipped ones are all the other sealed rows; a run over rotated rows migrates none, and a failed one loses nothing |
| `Withdrawals.RecordHasRow` | crates/store/src/ingest.rs:182-213 | Recording leaves the transfer with its row: the new one, the pending one with the new status and ledger, or the settled one; every other row is kept |
| `Withdrawals.SettledRow` | crates/store/src/ingest.rs:241-265 | Settling gives a pending row its status, ledger and reason, and leaves a settled row and every other alone |
| `Withdrawals.ReconcileReports` | crates/api/src/withdrawal_reconciler.rs:108-134 | A sweep counts each waiting row, and a settlement only where it settled the row itself |
| `Withdrawals.VerdictIff` | crates/api/src/withdrawal_reconciler.rs:67-104 | A row is confirmed exactly when its hash was found successful, with that ledger; and exactly when it waits |
| `Withdrawals.LeavesPendingOnce` | crates/store/src/ingest.rs:182-265 | A row leaves pending at most once and nothing about it changes afterwards |
| `Withdrawals.CountedOnce` | crates/api/src/withdrawal_reconciler.rs:108-134 | Every sweep's stats add up to rows it alone counted, each of them settled |
| `Withdrawals.ExpiredNeverAppears` | crates/api/src/withdrawal_reconciler.rs:74-82 | With no ledger ingested between the two reads, an expired transaction is never on chain |
| `WithdrawalSweep.ExpiredRowsNeverAppear` | crates/api/src/withdrawal_reconciler.rs:74-104 | A row that a sweep failed as expired is on no ledger, when its answers come from one chain and no ledger in time slips in between the two answers about a row |
| `WithdrawalSweep.FailedRowsHaveGrounds` | crates/api/src/withdrawal_reconciler.rs:67-104 | A row that a sweep failed had no hash, failed on chain, was past its timebound, or had none and was long gone, in what the sweep read about it |
| `WithdrawalSweep.FoundRowsAreConfirmed` | crates/api/src/withdrawal_reconciler.rs:108-134 | A listed row found successful is confirmed by the sweep, with the ledger found, unless someone settled it first |
| `Withdrawals.ExpiryIsRightIff` | crates/api/src/withdrawal_reconciler.rs:91-104 | Otherwise the verdict is right exactly when no ledger in between closed in time |
| `Withdrawals.ExpiryIsDecided` | crates/api/src/withdrawal_reconciler.rs:67-88 | The decision on such a chain is exactly that verdict |
| `WithdrawalSweep.Table.SettlePending` | crates/store/src/ingest.rs:241-265 | Settles and reports true exactly while the row is pending |
| `WithdrawalSweep.Table.ListStale` | crates/store/src/ingest.rs:217-239 | The oldest stale pending rows, up to the batch; any other stale row is at least as young |
| `WithdrawalSweep.Table.ReconcileOnce` | crates/api/src/withdrawal_reconciler.rs:108-134 | Under any interference and store failure a sweep counts rows it itself settled, each by its verdict and reason, leaves no row it came to and had a verdict on pending, and reports how many wait; undisturbed it counts every row that left pending, and below its batch size it comes to every stale row |
| `RateLimit.SameCounts` | crates/api/src/rate_limit.rs:80-107 | The swept memory store, the Postgres store and a counter that forgets nothing return the same counts |
| `RateLimit.StoresRemember` | crates/store/src/rate_limit.rs:12-45 | After any run both stores hold every running window exactly |
| `RateLimit.MemoryHitCounts` | crates/api/src/rate_limit.rs:80-99 | A hit is one more in a running window or the first of a new one, saturating at 2^64 - 1; past 10,000 buckets the ended ones are dropped |
| `RateLimit.PostgresHitCounts` | crates/store/src/rate_limit.rs:12-37 | The same, refused exactly at 2^63 - 1, and touching no other bucket |
| `RateLimit.SweepsKeep` | crates/store/src/rate_limit.rs:40-45 | Both sweeps keep every running window, the one in Postgres also those ending now |
| `RateLimit.TwiceTheLimit` | crates/api/src/rate_limit.rs:222-231 | One store lets through at most twice the limit less one in any half-open interval one window long |
| `RateLimit.MostIsAttained` | crates/api/src/rate_limit.rs:80-99 | For every limit and every window of two ticks or more, some run attains that bound |
| `RateLimit.FourTimesTheLimit` | crates/api/src/rate_limit.rs:222-231 | With arbitrary backend failures and the fallback, at most four times the limit less two |
| `RateStores.MemoryStore.Count` | crates/api/src/rate_limit.rs:80-99 | The in-memory hit, with its sweep and saturation |
| `RateStores.MemoryStore.PruneExpired` | crates/api/src/rate_limit.rs:101-107 | Drops exactly the ended windows and reports how many |
| `RateStores.PostgresStore.Hit` | crates/store/src/rate_limit.rs:12-37 | The upsert, and its refusal on overflow |
| `RateStores.PostgresStore.PruneBuckets` | crates/store/src/rate_limit.rs:40-45 | Drops exactly the ended buckets and reports how many |
| `RateStores.RateLimiter.CheckHit` | crates/api/src/rate_limit.rs:222-231 | Allows by the backend's count, or by this process's own while the backend fails |
| `RateStores.RateLimiter.Serve` | crates/api/src/rate_limit.rs:222-237 | Over any checks, prunings and backend failures the limiter's answers are those of counters that forget nothing, and any window-long interval gets less than four times the limit, or twice if the backend never fails |
| `RateStores.Replay` | crates/api/src/rate_limit.rs:80-107 | Replaying any monotone trace on the store object returns the ideal counts hit by hit |
| `Idempotency.ClaimsAreExclusive` | crates/store/src/idempotency.rs:16-50 | With every request inside its TTL, no two claims on a key run together |
| `Idempotency.ReplaysAreGenuine` | crates/store/src/idempotency.rs:51-68 | Every replay is a response stored by a claim with the same key and request hash |
| `Idempotency.ResponseIsStable` | crates/store/src/idempotency.rs:72-119 | A stored response stays as it is until it expires |
| `Idempotency.ClaimTakes` | crates/store/src/idempotency.rs:23-45 | A claim takes a free or expired key for 24 hours and leaves every other row alone |
| `Idempotency.TryStarts` | crates/store/src/idempotency.rs:16-50 | A granted request runs under its claim for 24 hours; any other waits for its answer |
| `Idempotency.LookAndDieEnd` | crates/store/src/idempotency.rs:51-68 | Reading the answer ends the wait, dying ends the request, and neither touches the table |
| `Idempotency.SecondClaimIff` | crates/store/src/idempotency.rs:23-45 | While running claims own their rows, a second claim on a key is granted exactly when the first has outlived its TTL |
| `Idempotency.RunSoundIff` | crates/store/src/idempotency.rs:16-119 | Running claims own their rows throughout a run exactly when no step takes the row of one that has outlived its TTL |
| `Idempotency.ReplaysGenuineIff` | crates/store/src/idempotency.rs:51-92 | Responses stored and replayed are genuine throughout a run exactly when no claimer stores into a row of another hash |
| `Idempotency.MislabelIsReplayed` | crates/store/src/idempotency.rs:51-92 | From any state, a response stored into a row of another hash is replayed to whoever asks with that hash |
| `Idempotency.LateFinishIsReplayedToAnother` | crates/store/src/idempotency.rs:72-92 | Any claim running past its TTL can have its response replayed to a different request |
| `Idempotency.LateReleaseLetsAnotherIn` | crates/store/src/idempotency.rs:95-111 | Any claim running past its TTL can, by its release, let two others run on one key |
| `Idempotency.KeyTable.ClaimKey` | crates/store/src/idempotency.rs:16-69 | The two-statement claim answers truthfully under any interference in between |
| `Idempotency.KeyTable.Serve` | crates/store/src/idempotency.rs:16-119 | Any interleaving of the statements on one table is the run of the model, and in time it keeps claims exclusive and replays genuine |
| `Idempotency.KeyTable.CompleteKey` | crates/store/src/idempotency.rs:72-92 | Stores a response only where there is none |
| `Idempotency.KeyTable.ReleaseKey` | crates/store/src/idempotency.rs:95-111 | Deletes only an unfinished claim |
| `Idempotency.KeyTable.PurgeExpired` | crates/store/src/idempotency.rs:114-119 | Deletes exactly the expired keys |
| `Backfill.EveryRowVisited` | bin/backfill-operation-index/src/main.rs:83-91 | With no tie across a page boundary, every row is on some page however each query orders its ties |
| `Backfill.TieSkipsRow` | bin/backfill-operation-index/src/main.rs:83-91 | With a tie across a boundary, some run of queries skips a row |
| `Backfill.PagingIsCompleteIff` | bin/backfill-operation-index/src/main.rs:83-91 | Paging by offset is complete exactly when no tie lies across a page boundary |
| `Backfill.ListedOldestFirst` | bin/backfill-operation-index/src/main.rs:83-91 | A listing has the rows with an operation id, oldest first |
| `BackfillRows.RefusedConcat` | bin/backfill-operation-index/src/main.rs:125-195 | Correcting two stretches of rows is refused exactly when the first is, or the second on what the first left |
| `BackfillRows.CandidatesRefused` | bin/backfill-operation-index/src/main.rs:78-123 | Rows that are correct already play no part in whether a page is refused |
| `BackfillRows.NeverRefusedIff` | bin/backfill-operation-index/src/main.rs:125-195 | No order of corrections is refused exactly when no row that needs one wants an index another row of its transaction has or wants |
| `BackfillRows.SwapIsRefused` | bin/backfill-operation-index/src/main.rs:146-187 | Two rows that hold each other's index are refused in every order |
| `BackfillRun.Table.FindCandidates` | bin/backfill-operation-index/src/main.rs:78-123 | Exactly the rows of the page whose index is not the one their operation id names, in page order |
| `BackfillRun.Table.UpdateBatch` | bin/backfill-operation-index/src/main.rs:125-195 | Corrects all candidates in one transaction, or none exactly when the unique index refuses one of them, and nothing in a dry run |
| `BackfillRun.Table.RunBackfill` | bin/backfill-operation-index/src/main.rs:197-318 | Never passes the limit, only ever corrects rows, and unlimited visits every page; with no faults it counts errors exactly when the index refuses a row in the order visited, and none where no rows clash |
| `BackfillRun.CountedIs` | bin/backfill-operation-index/src/main.rs:240-290 | What a page adds to the statistics: its rows, the candidates, and the corrected rows or else one error |
| `BackfillRun.VisitedIsListing` | bin/backfill-operation-index/src/main.rs:83-91 | With no tie across a page boundary the pages one after the other hold every row once, oldest first |
| `BackfillRun.Table.BackfillAll` | bin/backfill-operation-index/src/main.rs:197-318 | An unlimited fault-free run makes every decodable row correct, and counts no error, exactly when the index refuses no row in the order visited, so always where no rows clash; it then updated as many as were wrong, and a second run updates none |
| `Address.ToLowercaseHex` | crates/evm-core/src/address.rs:71-78 | The loop prints the forty nibbles in lowercase |
| `Address.ToChecksumHex` | crates/evm-core/src/address.rs:84-104 | The loop gives each letter the case its hash nibble says |
| `Address.ChecksumCase` | crates/evm-core/src/address.rs:84-104 | A letter is a capital exactly where the hash of the lowercase text has the top bit of its nibble set |
| `Address.Utf8Lengths` | crates/evm-core/src/address.rs:190-193 | Lengths are counted in bytes of UTF-8 |
| `Address.ToChecksumString` | crates/evm-core/src/address.rs:110-115 | The checksum form with a prefix |
| `Address.ValidateAddress` | crates/evm-core/src/address.rs:184-227 | Accepts exactly the texts that spell an address and, if mixed-case, are its checksum form; each error says why not |
| `Address.PrintedIsAccepted` | crates/evm-core/src/address.rs:71-115 | For every address and any Keccak, its checksummed, lowercase and uppercase text is accepted as that address |
| `Address.AcceptedText` | crates/evm-core/src/address.rs:184-227 | Accepted text lowercases to the address's hex, and mixed-case text is its checksum form |
| `Estimate.FeeIsExactIff` | crates/api/src/withdrawal_estimate.rs:67-69 | The quoted fee is the fee exactly while it fits in 64 bits |
| `Estimate.CoverageIsExactIff` | crates/api/src/withdrawal_estimate.rs:69-75 | Coverage is that of unbounded integers exactly outside one family: no reserve, a full balance, a fee beyond 64 bits |
| `Estimate.SufficientIsExactIff` | crates/api/src/withdrawal_estimate.rs:53-105 | Sufficiency is exact for native and credit assets, but for credit amounts within the balance in that family |
| `Estimate.MaximumIsGreatestIff` | crates/api/src/withdrawal_estimate.rs:76-86 | The maximum is the greatest amount that can be sent, or zero, but for credit assets with a balance in that family |
| `Estimate.MoreOperationsNeverHelp` | crates/api/src/withdrawal_estimate.rs:69-86 | More operations never raise the maximum |
| `Estimate.RefusesIff` | crates/api/src/withdrawal_estimate.rs:58-66 | Which error, exactly when: operations outside 1 to 100, then a non-positive amount, then no readable trustline |
| `Estimate.ReserveIs` | crates/api/src/horizon.rs:90-98 | Half a lumen for each of two entries, each subentry and each sponsoring, less those sponsored, never negative |
| `Estimate.FirstAssetIs` | crates/api/src/horizon.rs:109-117 | The balance is that of the first line with this code and this issuer |
| `Estimate.FirstNativeIs` | crates/api/src/horizon.rs:100-107 | The native balance is that of the first native line |
| `Estimate.QuoteReports` | crates/api/src/withdrawal_estimate.rs:67-105 | The quote repeats the operations, fees, reserve and balances it was made from |
| `Estimate.FeeIs` | crates/api/src/withdrawal_estimate.rs:67-69 | The fee per operation is the greatest of the last base fee, the 90th percentile and zero |
| `Estimate.BalancesRead` | crates/api/src/horizon.rs:100-117 | An unreadable native balance is zero; an asset balance is none exactly when there is no readable line |
| `Estimate.SaturationMisleads` | crates/api/src/withdrawal_estimate.rs:69-86 | Accounts in that family that are told they can send |
| `Estimate.AccountsFit` | crates/api/src/horizon.rs:90-117 | Every account with the 32-bit counts and 63-bit balances of the protocol is in the range the estimate is proved for |

## Left out

- HTTP, SQL drivers, routing, tracing, e-mail, configuration and the mock Horizon: plumbing.
- The insides of AES-GCM, HKDF, HMAC, SHA-256 and Keccak: uninterpreted, with the assumptions above.
- JSON and UTF-8 validation in the SSE decoder, and muxed-address decoding: arbitrary total functions.
- Leader locks, `StreamSet`, `LiveStreams` and `reconnect_delay`: the ingestion theorems hold for any number of
  workers, so nothing rests on them.
- Payment-link confirmation, webhooks and metrics after a deposit: they do not touch the deposits or the cursor.
- `RetryPolicy::delay_for`: it only decides how long `execute` sleeps.
- `address_by_muxed_id`: the customer a deposit is attributed to is an input to each step.
- V2 and scheme-0 rows in the rotation theorems: the loop aborts on them.
- Amount.ParseAmountStroops: models text as characters, so the panic of truncating inside a multi-byte character is not captured, and its result is the unbounded sum.
- Estimate.SufficientIsExactIff: requires a reserve and balances that do not overflow 64 bits; past that the code panics or wraps.
- BackfillRun.Table.RunBackfill: one ledger ceiling and one set of rows per run; a failing SELECT, which ends the run early, and rows whose operation_index is NULL, on which the tool panics, are not modelled.
- RateLimit.SameCounts: traces of at most 2^63 - 1 events on one clock.
- TickScheduler.Supervisor.Tick: permits of the semaphore are not modelled; any queued task may finish next.
- KeyMigrator.Database.Migrate: `list_sealed_wallets` is not part of the repository's store; a page is taken to be the next sealed wallets by id.
- Idempotency.KeyTable.CompleteKey: status codes above 32767, which the store turns into 500, are not modelled.
- WithdrawalSweep.Table.ListStale: breaks ties of `created_at` by id; its contract allows them in any order.
- RateStores.RateLimiter.Serve: one process on one clock; each further process adds its own fallback counts.
