# Ledger engine of the transaction controller

This project models the ledger engine behind the three write endpoints of
`TransactionController`: deposit (`setor`), withdrawal (`tarik`) and transfer. The
store has three tables, and here they are Dafny values:

- the balance table: a map from (account, currency) to an amount;
- the history table: an append-only sequence of rows;
- the `'001-COU'` counter row: an optional 64-bit number, where `None` means the row is missing.

Each endpoint runs in one store transaction.

- `LedgerEngine.UnitOfWork` is that transaction: a scratch copy of the tables. Its
  methods are the controller's private steps, changing the copy in place. They are
  GenerateTransactionId, IsSufficientBalance, UpdateBalance and InsertHistory, plus
  the two `foreach` loops of a transfer.
- `LedgerEngine.Ledger` holds the committed tables. Only `Commit` copies a unit into it.
  An early "Insufficient balance." return, or a fault, simply drops the unit.

Every endpoint method of `Ledger` (ProcessTransaction, Deposit, Withdraw and Transfer)
is proved equal to a function of the old tables in `LedgerState`: `Process` for
deposits and withdrawals, `Transfer` for transfers. `Apply` and `Run`
chain those functions over a sequence of requests. `LedgerProperties` then proves what
the engine promises about those functions:

- the effect of each operation on balances, history and counter;
- rejections and faults leave everything unchanged;
- balances stay non-negative when no amount is negative;
- every balance equals the sum of the history amounts for its key;
- over a run, transaction ids never repeat and their counters increase.

`TransactionIds` models the id text `yyyyMMdd-00000.NNNNN`. It includes a parser for
that text and proves the round trip. The round trip is what shows that ids made from
different counter values differ.

Modelling choices:

- Amounts are `real`. The split `amount / n` is its own function, `Share`, using
  exact division.
- The counter is a C# `long`. Its `++` wraps from the largest value to the smallest.
- The current date and the store's `GETDATE()` are parameters of every operation:
  a `Date` and a `Timestamp`.
- A fault is an exception inside the unit: the unit is rolled back and the outcome
  is `Fault`. The model has two causes of a fault, the ones the code itself raises:
  a missing counter row (the cast of a null value) and an empty target list
  (division by zero). Errors of the store itself are not modelled (see "Left out").

## Model

| member | source | states |
|---|---|---|
| `TransactionIds.NextNumber` | Program.cs:246-249 | the counter value read, plus one modulo 2^64 in the signed range, so it never equals the old value |
| `TransactionIds.PadLeft` | Program.cs:261-262 | padding a string to a width gives exactly that width, or the string's own length when it is already longer |
| `TransactionIds.PadLeftKeepsValue` | Program.cs:261-262 | padding a digit string only puts '0's in front of it, so the result is still digits and reads as the same number |
| `TransactionIds.DatePart` | Program.cs:261 | the `yyyyMMdd` text; no contract of its own, DatePartRoundTrip states that it is eight digits holding the year, month and day |
| `TransactionIds.CounterPart` | Program.cs:262 | the `D5` text; no contract of its own, CounterPartRoundTrip states that it reads back as the counter value, sign included |
| `TransactionIds.FormatId` | Program.cs:263 | the id text; no contract of its own, IdRoundTrip states that it parses back to its date and counter, and FormatIdInjective that different inputs give different ids |
| `TransactionIds.DatePartRoundTrip` | Program.cs:261 | the `yyyyMMdd` text of a date is eight digits, and its three fields read back as the year, month and day |
| `TransactionIds.CounterPartRoundTrip` | Program.cs:262 | the `D5` text of any 64-bit counter value, negative ones included, reads back as that value |
| `TransactionIds.IdRoundTrip` | Program.cs:260-263 | parsing an id gives back the date and the counter value it was built from |
| `TransactionIds.FormatIdInjective` | Program.cs:260-263 | two ids are equal only when both their dates and their counter values are equal |
| `LedgerState.BalanceOf` | Program.cs:222 | the SELECT's read of a balance; no contract of its own: a missing row reads as zero, IsSufficientBalance compares exactly this value, and UpsertReadsBack gives how the MERGE moves it |
| `LedgerState.Adjustment` | Program.cs:167 | the signed adjustment; no contract of its own, DepositCommits shows a deposit moving the balance by +amount and WithdrawOutcome a withdrawal by -amount, each logged with that signed value |
| `LedgerState.CreditAll` | Program.cs:128-131 | the balances after the credit loop; no contract of its own, CreditAllEffect gives its effect on every row and UnitOfWork.CreditTargets is proved to compute it |
| `LedgerState.ReceivedEntries` | Program.cs:135-138 | the rows of the second loop; no contract of its own, ReceivedEntriesAt gives every row by index and SumReceived their sum per key |
| `LedgerState.Process` | Program.cs:156-195 | a deposit or withdrawal; no contract of its own, characterised by DepositCommits, WithdrawOutcome, MissingCounterFaults and ApplyIsAtomic, and Ledger.ProcessTransaction is proved to compute it |
| `LedgerState.TransferTables` | Program.cs:126-140 | the tables a transfer commits; no contract of its own, characterised by TransferTablesHistory, TransferTablesBalance and TransferTablesReconciled |
| `LedgerState.Transfer` | Program.cs:107-154 | a transfer; no contract of its own, characterised by TransferOutcome, TransferAcceptedHistory, TransferAcceptedBalance and TransferSharesOneId, and Ledger.Transfer is proved to compute it |
| `LedgerState.Upsert` | Program.cs:199-209 | the MERGE: an existing row gains `delta`, a missing row is created holding `delta`, no other row changes, and the key set grows by exactly that key |
| `LedgerState.Share` | Program.cs:127 | the share of a non-negative amount lies between zero and the amount, and that of a non-positive amount between the amount and zero |
| `LedgerProperties.UpsertReadsBack` | Program.cs:199-212 | after the MERGE, the balance read for a key (zero on a missing row) moves by `delta` for the merged key and by nothing for every other key |
| `LedgerProperties.CreditAllEffect` | Program.cs:128-131 | the credit loop adds the share to a target row once per listing in the currency and changes no other row; a row exists afterwards exactly when it existed or was listed |
| `LedgerProperties.SharesForMultiplicity` | Program.cs:128-131 | a target listed m times (duplicates included) is credited m times the share |
| `LedgerProperties.ReceivedEntriesAt` | Program.cs:135-138 | the second loop yields one "Transfer received" row per target, in list order, under the one id and with the share |
| `LedgerEngine.UnitOfWork.Begin` | Program.cs:115 | a newly opened unit sees exactly the committed tables |
| `LedgerEngine.UnitOfWork.GenerateTransactionId` | Program.cs:238-267 | a missing counter row gives no id and writes nothing; otherwise the counter is written back advanced by one, the id is built from today's date and the new value, and balances and history are untouched |
| `LedgerEngine.UnitOfWork.IsSufficientBalance` | Program.cs:215-224 | true exactly when the balance read for the key, zero for a missing row, is at least the required amount |
| `LedgerEngine.UnitOfWork.UpdateBalance` | Program.cs:197-213 | the balances become the MERGE result, and the answer is true exactly when the merged row is not negative afterwards |
| `LedgerEngine.UnitOfWork.InsertHistory` | Program.cs:226-236 | exactly one row is appended, with the given id, account, currency, amount and note stamped with `now` |
| `LedgerEngine.UnitOfWork.CreditTargets` | Program.cs:128-131 | the loop leaves the balances equal to crediting every target in list order; the row checks are ignored |
| `LedgerEngine.UnitOfWork.InsertReceived` | Program.cs:135-138 | the loop appends the received rows of all targets in list order and changes nothing else |
| `LedgerEngine.UnitOfWork.PostTransfer` | Program.cs:126-138 | the writes after the source check: the credits, then the source row with the negated amount, then the received rows |
| `LedgerEngine.Ledger.Commit` | Program.cs:140 | after commit, the committed tables are the unit's tables |
| `LedgerEngine.Ledger.ProcessTransaction` | Program.cs:156-195 | the outcome and the committed tables are those `Process` gives for the old tables |
| `LedgerEngine.Ledger.Deposit` | Program.cs:95-99 | a deposit is `ProcessTransaction` with the deposit kind |
| `LedgerEngine.Ledger.Withdraw` | Program.cs:101-105 | a withdrawal is `ProcessTransaction` with the withdraw kind |
| `LedgerEngine.Ledger.Transfer` | Program.cs:107-154 | the outcome and the committed tables are those `Transfer` gives for the old tables |
| `LedgerProperties.MissingCounterFaults` | Program.cs:246 | with no counter row, every operation faults and leaves the tables unchanged |
| `LedgerProperties.DepositCommits` | Program.cs:166-182 | a deposit always succeeds under the id of the advanced counter; only its own balance moves, by +amount; exactly one row is appended and the counter advances once |
| `LedgerProperties.WithdrawOutcome` | Program.cs:166-182 | a withdrawal is rejected exactly when the balance is below the amount, and then nothing changes; otherwise the balance drops by the amount (no other row moves) and stays non-negative, one row with -amount is appended, and the counter advances once |
| `LedgerProperties.TransferOutcome` | Program.cs:118-141 | a transfer is rejected exactly when the source minus the amount is below zero; it faults exactly when the source check passes with an empty target list; either way nothing changes; otherwise it commits the transfer tables for the advanced counter's id and the split share |
| `LedgerProperties.TransferTablesHistory` | Program.cs:133-138 | the committed history is the old history, then the source row, then one received row per target in list order, all under the one id |
| `LedgerProperties.TransferTablesBalance` | Program.cs:120-131 | every balance moves by the source debit when it is the source, plus the shares from the target listings that name it |
| `LedgerProperties.TransferTablesMultiplicity` | Program.cs:126-131 | the same credit stated as a product: listings times share |
| `LedgerProperties.TransferAcceptedHistory` | Program.cs:133-141 | an accepted transfer appends 1 + n rows: first the source with -amount and "TRANSFER", then each target in list order with amount/n and "Transfer received" |
| `LedgerProperties.TransferAcceptedBalance` | Program.cs:120-131 | an accepted transfer debits the source the full amount and credits each target the share once per listing; no other row moves |
| `LedgerProperties.TransferSharesOneId` | Program.cs:133-138 | every row an accepted transfer appends carries the transfer's id |
| `LedgerProperties.ApplyIsAtomic` | Program.cs:107-195 | an operation that does not succeed leaves all three tables unchanged; one that succeeds advances the counter once, is named after the new value, and only appends to the history |
| `LedgerProperties.WithdrawKeepsNonNegative` | Program.cs:170-176 | a withdrawal of any amount keeps every balance non-negative |
| `LedgerProperties.DepositKeepsNonNegative` | Program.cs:167-176 | a deposit of a non-negative amount keeps every balance non-negative |
| `LedgerProperties.TransferKeepsNonNegative` | Program.cs:121-131 | a transfer of a non-negative amount keeps every balance non-negative: the source is checked after the debit, and the targets only gain |
| `LedgerProperties.TransferSharesKeepNonNegative` | Program.cs:121-131 | the same for the transfer tables, given a source that passed the check and a non-negative share |
| `LedgerProperties.NegativeDepositOverdraws` | Program.cs:167 | no amount is validated, so depositing -1 into an empty account commits and leaves a negative balance |
| `LedgerProperties.NegativeTransferOverdrawsTarget` | Program.cs:127-131 | the target credits are not checked, so a transfer of -2 to one target commits and leaves that target negative |
| `LedgerProperties.SumReceived` | Program.cs:128-138 | per key, the received rows add up to exactly what the credit loop added to that key |
| `LedgerProperties.ProcessKeepsReconciled` | Program.cs:176-179 | a deposit or withdrawal keeps every balance equal to the sum of its logged amounts |
| `LedgerProperties.TransferTablesReconciled` | Program.cs:120-138 | the transfer tables keep every balance equal to the sum of its logged amounts, for any share |
| `LedgerProperties.ApplyKeepsReconciled` | Program.cs:107-195 | every operation keeps every balance equal to the sum of its logged amounts |
| `LedgerProperties.RunKeepsReconciled` | Program.cs:107-195 | any sequence of operations keeps the balances reconciled with the history |
| `LedgerProperties.RunKeepsNonNegative` | Program.cs:107-195 | any sequence of operations with no negative amount keeps every balance non-negative |
| `LedgerProperties.ApplyNumbering` | Program.cs:246-263 | short of wrap-around, an operation that succeeds takes the next counter value as its id; one that does not leaves the counter as it was |
| `LedgerProperties.RunCounter` | Program.cs:246-257 | without wrap-around, a run leaves the counter advanced by exactly the number of successful operations, so it has no gaps |
| `LedgerProperties.RunIdAt` | Program.cs:246-263 | the i-th operation of a run, when it succeeds, is named after the start value plus one plus the number of successes before it |
| `LedgerProperties.RunIdsIncrease` | Program.cs:241-263 | without wrap-around, two successful operations of a run never share an id, and the counter read back from the later id is larger |

## Left out

- The SQL text, the OleDb connection, command and parameter plumbing, and the connection string. Only what the MERGE, SELECT, UPDATE and INSERT statements do to the tables is modelled.
- The `GetHistory` endpoint (Program.cs:26-91), a filtered scan whose order comes from the store's ORDER BY.
- The ReadCommitted isolation level and concurrent requests. Each operation is one sequential, atomic step.
- `async`/`await` and task scheduling.
- C# `decimal` rounding in `amount / n`. `Share` uses exact division, and no claim is made that n times the share equals the amount. Reconciliation of balances with history holds for any share.
- `DateTime.Now` and `GETDATE()` are parameters. One timestamp is used for all the rows an operation inserts.
- DatePart and CounterPart format as a Gregorian culture whose negative sign is '-' would. The server's current culture is not modelled. `ToString("yyyyMMdd")` writes the year, month and day in that culture's calendar: under a Thai Buddhist calendar the year of 2026-10-14 is written 2569. `ToString("D5")` writes that culture's negative sign. `Date` uses Gregorian leap years. Uniqueness of ids is not affected, because two ids of different counter values still differ in their counter part.
- Logging and the mapping of outcomes to Ok, BadRequest and 500 responses. The outcome is a datatype.
- Startup.cs and the host builder, which are wiring with no ledger logic.
- Null requests and a null target list, which would fault like any other exception. Requests are total values here.
- The counter column's type in the store. It is taken to hold any 64-bit value, since the code casts it to `long`.
- The store's string comparison. Balance rows are found by exact equality of the account and currency strings. The store's `=` ignores trailing spaces, and may ignore case, depending on its collation. So under the model, "A " and "A" are two different accounts.
- Errors raised by the store: a time-out, a lost connection, a failing commit, or an amount that overflows the balance column in the MERGE. Each of these would roll the unit back as a fault. So, with a counter row present, the model's deposits and withdrawals always succeed or are rejected, and so does any transfer that names at least one target.
- The precision and scale of the store's amount columns, which round the share and the balances as they are written.
- RunCounter, RunIdAt, RunIdsIncrease: these assume the run does not reach the top of the 64-bit range. At the top, `NextNumber` wraps to the smallest value, so the counter falls below earlier values and the increase no longer holds. The same id text needs the same date and counter, so it can repeat only after a full cycle of 2^64 increments.
- RunIdsIncrease: states that the counter read back from the ids increases, not that the id strings increase in text order. For example, a counter of 100000 gives a six-digit part that sorts before 99999.
- PadLeft: its own contract gives only the length. PadLeftKeepsValue states the rest: the result is '0's followed by the input, and a digit string keeps its value.
- TransferAcceptedBalance: states the credit as the share added once per listing (`Times`), not as a product. TransferTablesMultiplicity gives the product form for the transfer tables.
