/**
 * The ledger's three tables as values (balances keyed by account and currency, the
 * append-only history and the counter row) and, as functions of the old tables, what
 * one deposit, withdrawal or transfer leaves behind once its unit of work has ended.
 */
module LedgerState {
  import opened Wrappers
  import opened TransactionIds

  type AccountId = string
  type CurrencyId = string

  /** The value GETDATE() gives the store when a history row is inserted. */
  type Timestamp = int

  datatype BalanceKey = BalanceKey(account: AccountId, currency: CurrencyId)

  /** One history row: who, what currency, when, the signed amount and a note. */
  datatype HistoryEntry = HistoryEntry(
    transactionId: string,
    account: AccountId,
    currency: CurrencyId,
    timestamp: Timestamp,
    amount: real,
    note: string)
  {
    function Key(): BalanceKey {
      BalanceKey(account, currency)
    }
  }

  /** The balance table, the history table and the last number of the '001-COU' counter row (None when the row is missing). */
  datatype Tables = Tables(
    balances: map<BalanceKey, real>,
    history: seq<HistoryEntry>,
    lastNumber: Option<Int64>)

  /** What a request ends in: its transaction id, the "Insufficient balance." rejection, or a fault that rolled everything back. */
  datatype Outcome = Success(transactionId: string) | InsufficientBalance | Fault

  datatype TransactionType = Deposit | Withdraw

  datatype TransactionRequest = TransactionRequest(
    accountId: AccountId,
    currencyId: CurrencyId,
    amount: real,
    note: string)

  datatype TransferRequest = TransferRequest(
    sourceAccountId: AccountId,
    currencyId: CurrencyId,
    amount: real,
    targetAccountIds: seq<AccountId>)

  const TransferNote: string := "TRANSFER"
  const ReceivedNote: string := "Transfer received"

  /** A balance as the SELECT reads it: a missing row reads as zero. */
  function BalanceOf(balances: map<BalanceKey, real>, key: BalanceKey): real {
    if key in balances then balances[key] else 0.0
  }

  /**
   * The MERGE: add `delta` to the row for `key`, creating the row with value `delta`
   * when there is none. Every other row is left as it was.
   */
  function Upsert(balances: map<BalanceKey, real>, key: BalanceKey, delta: real): (r: map<BalanceKey, real>)
    ensures r.Keys == balances.Keys + {key}
    ensures key in balances ==> r[key] == balances[key] + delta
    ensures key !in balances ==> r[key] == delta
    ensures forall k :: k in balances && k != key ==> r[k] == balances[k]
  {
    if key in balances then balances[key := balances[key] + delta] else balances[key := delta]
  }

  /** The signed adjustment: credit for a deposit, debit for a withdrawal. */
  function Adjustment(kind: TransactionType, amount: real): real {
    if kind == Deposit then amount else -amount
  }

  /** The share each target receives: the amount divided by the number of targets, without any remainder handling. */
  function Share(total: real, targets: seq<AccountId>): (share: real)
    requires |targets| > 0
    ensures 0.0 <= total ==> 0.0 <= share <= total
    ensures total <= 0.0 ==> total <= share <= 0.0
  {
    var c := |targets| as real;
    var share := total / c;
    assert share * c == total;
    assert c >= 1.0;
    assert total - share == share * (c - 1.0);
    assert 0.0 <= total ==> 0.0 <= share <= total by {
      if share < 0.0 { assert share * c < 0.0; }
      if share >= 0.0 { assert share * (c - 1.0) >= 0.0; }
    }
    assert total <= 0.0 ==> total <= share <= 0.0 by {
      if share > 0.0 { assert share * c > 0.0; }
      if share <= 0.0 { assert (0.0 - share) * (c - 1.0) >= 0.0; }
    }
    share
  }

  /** The balances after the credit loop: `share` added, in list order, to each target's row in `currency`. */
  function CreditAll(balances: map<BalanceKey, real>, targets: seq<AccountId>, currency: CurrencyId, share: real): map<BalanceKey, real>
    decreases |targets|
  {
    if targets == [] then balances
    else Upsert(CreditAll(balances, targets[..|targets| - 1], currency, share),
                BalanceKey(targets[|targets| - 1], currency), share)
  }

  /** The history rows of the second loop: one "Transfer received" row per target, in list order. */
  function ReceivedEntries(id: string, targets: seq<AccountId>, currency: CurrencyId, now: Timestamp, share: real): seq<HistoryEntry>
    decreases |targets|
  {
    if targets == [] then []
    else ReceivedEntries(id, targets[..|targets| - 1], currency, now, share)
         + [HistoryEntry(id, targets[|targets| - 1], currency, now, share, ReceivedNote)]
  }

  /**
   * A deposit or withdrawal. The counter is advanced first; a withdrawal is rejected
   * before anything is written when the balance is below the amount; otherwise the
   * balance is adjusted (its non-negative check is ignored) and one history row is added.
   * A rejection or a fault leaves the tables as they were.
   */
  function Process(t: Tables, request: TransactionRequest, kind: TransactionType, today: Date, now: Timestamp): (Outcome, Tables) {
    if t.lastNumber.None? then (Fault, t)
    else
      var n := NextNumber(t.lastNumber.value);
      var id := FormatId(today, n);
      var key := BalanceKey(request.accountId, request.currencyId);
      var adjustment := Adjustment(kind, request.amount);
      if kind == Withdraw && !(BalanceOf(t.balances, key) >= request.amount) then (InsufficientBalance, t)
      else
        var entry := HistoryEntry(id, request.accountId, request.currencyId, now, adjustment, request.note);
        (Success(id), Tables(Upsert(t.balances, key, adjustment), t.history + [entry], Some(n)))
  }

  /**
   * The tables a transfer commits once it has passed the source check: the source
   * debited the full amount, each target credited `share` in list order, the source row
   * and then one row per target in the history, and the counter at `n`.
   */
  function TransferTables(t: Tables, request: TransferRequest, id: string, n: Int64, now: Timestamp, share: real): Tables {
    var source := BalanceKey(request.sourceAccountId, request.currencyId);
    var debited := Upsert(t.balances, source, -request.amount);
    var debit := HistoryEntry(id, request.sourceAccountId, request.currencyId, now, -request.amount, TransferNote);
    Tables(CreditAll(debited, request.targetAccountIds, request.currencyId, share),
           t.history + [debit] + ReceivedEntries(id, request.targetAccountIds, request.currencyId, now, share),
           Some(n))
  }

  /**
   * A transfer. The counter is advanced; the source is debited the full amount and the
   * transfer is rejected when that leaves the source below zero; an empty target list
   * faults on the division; otherwise every target is credited the same share and the
   * history gets the source row followed by one row per target, all under one id.
   */
  function Transfer(t: Tables, request: TransferRequest, today: Date, now: Timestamp): (Outcome, Tables) {
    if t.lastNumber.None? then (Fault, t)
    else
      var n := NextNumber(t.lastNumber.value);
      var id := FormatId(today, n);
      var source := BalanceKey(request.sourceAccountId, request.currencyId);
      if BalanceOf(t.balances, source) - request.amount < 0.0 then (InsufficientBalance, t)
      else if |request.targetAccountIds| == 0 then (Fault, t)
      else (Success(id), TransferTables(t, request, id, n, now, Share(request.amount, request.targetAccountIds)))
  }

  /** One request to the engine, with the date and time it is handled at. */
  datatype Call =
    | ProcessCall(request: TransactionRequest, kind: TransactionType, today: Date, now: Timestamp)
    | TransferCall(transfer: TransferRequest, today: Date, now: Timestamp)

  function Apply(t: Tables, call: Call): (Outcome, Tables) {
    match call
    case ProcessCall(request, kind, today, now) => Process(t, request, kind, today, now)
    case TransferCall(transfer, today, now) => Transfer(t, transfer, today, now)
  }

  /** The outcomes of handling `calls` one after another, and the tables at the end. */
  function Run(t: Tables, calls: seq<Call>): (r: (seq<Outcome>, Tables))
    ensures |r.0| == |calls|
    decreases |calls|
  {
    if calls == [] then ([], t)
    else
      var (outcomes, mid) := Run(t, calls[..|calls| - 1]);
      var (o, after) := Apply(mid, calls[|calls| - 1]);
      (outcomes + [o], after)
  }
}
