/**
 * The controller's operations as imperative code. A `UnitOfWork` is one open store
 * transaction: a scratch copy of the tables that the steps change in place. The
 * `Ledger` holds the committed tables; only `Commit` copies a unit back into it, so a
 * unit that is abandoned (an early rejection, or a fault) leaves the ledger as it was.
 */
module LedgerEngine {
  import opened Wrappers
  import opened TransactionIds
  import opened LedgerState

  class UnitOfWork {
    var balances: map<BalanceKey, real>
    var history: seq<HistoryEntry>
    var lastNumber: Option<Int64>

    /** The tables as this unit of work sees them, pending writes included. */
    function Pending(): Tables
      reads this
    {
      Tables(balances, history, lastNumber)
    }

    /** BeginTransaction: a unit that starts from the committed tables. */
    constructor Begin(committed: Tables)
      ensures Pending() == committed
    {
      balances := committed.balances;
      history := committed.history;
      lastNumber := committed.lastNumber;
    }

    /**
     * Reads the counter row, adds one, writes it back and formats the id for `today`.
     * A missing row is a fault (None) and writes nothing.
     */
    method GenerateTransactionId(today: Date) returns (id: Option<string>)
      modifies this
      ensures old(lastNumber).None? ==> id.None? && Pending() == old(Pending())
      ensures old(lastNumber).Some? ==>
        && lastNumber == Some(NextNumber(old(lastNumber).value))
        && id == Some(FormatId(today, lastNumber.value))
        && balances == old(balances) && history == old(history)
    {
      if lastNumber.None? {
        return None;
      }
      var counterValue := lastNumber.value;
      counterValue := NextNumber(counterValue);
      lastNumber := Some(counterValue);
      id := Some(FormatId(today, counterValue));
    }

    /** True exactly when the balance of `key` (zero if it has no row) is at least `required`. */
    method IsSufficientBalance(key: BalanceKey, required: real) returns (ok: bool)
      ensures ok <==> BalanceOf(balances, key) >= required
    {
      ok := BalanceOf(balances, key) >= required;
    }

    /** The MERGE upsert-and-add on one row, then whether that row is still non-negative. */
    method UpdateBalance(key: BalanceKey, delta: real) returns (ok: bool)
      modifies this
      ensures balances == Upsert(old(balances), key, delta)
      ensures history == old(history) && lastNumber == old(lastNumber)
      ensures ok <==> balances[key] >= 0.0
    {
      if key in balances {
        balances := balances[key := balances[key] + delta];
      } else {
        balances := balances[key := delta];
      }
      ok := IsSufficientBalance(key, 0.0);
    }

    /** Appends one history row. */
    method InsertHistory(transactionId: string, accountId: AccountId, currencyId: CurrencyId, amount: real, note: string, now: Timestamp)
      modifies this
      ensures history == old(history) + [HistoryEntry(transactionId, accountId, currencyId, now, amount, note)]
      ensures balances == old(balances) && lastNumber == old(lastNumber)
    {
      history := history + [HistoryEntry(transactionId, accountId, currencyId, now, amount, note)];
    }

    /** The first loop of a transfer: credits `share` to each target in turn; the row checks are ignored. */
    method CreditTargets(targets: seq<AccountId>, currency: CurrencyId, share: real)
      modifies this
      ensures balances == CreditAll(old(balances), targets, currency, share)
      ensures history == old(history) && lastNumber == old(lastNumber)
    {
      var i := 0;
      while i < |targets|
        invariant 0 <= i <= |targets|
        invariant balances == CreditAll(old(balances), targets[..i], currency, share)
        invariant history == old(history) && lastNumber == old(lastNumber)
      {
        assert targets[..i + 1][..i] == targets[..i];
        var _ := UpdateBalance(BalanceKey(targets[i], currency), share);
        i := i + 1;
      }
      assert targets[..i] == targets;
    }

    /** The second loop of a transfer: one "Transfer received" row per target under `transactionId`. */
    method InsertReceived(transactionId: string, targets: seq<AccountId>, currency: CurrencyId, share: real, now: Timestamp)
      modifies this
      ensures history == old(history) + ReceivedEntries(transactionId, targets, currency, now, share)
      ensures balances == old(balances) && lastNumber == old(lastNumber)
    {
      var i := 0;
      while i < |targets|
        invariant 0 <= i <= |targets|
        invariant history == old(history) + ReceivedEntries(transactionId, targets[..i], currency, now, share)
        invariant balances == old(balances) && lastNumber == old(lastNumber)
      {
        assert targets[..i + 1][..i] == targets[..i];
        InsertHistory(transactionId, targets[i], currency, share, ReceivedNote, now);
        i := i + 1;
      }
      assert targets[..i] == targets;
    }

    /**
     * The writes of a transfer after the source check: the credit loop, the source's
     * history row, then the history loop, all under `transactionId`.
     */
    method PostTransfer(transactionId: string, request: TransferRequest, share: real, now: Timestamp)
      modifies this
      ensures balances == CreditAll(old(balances), request.targetAccountIds, request.currencyId, share)
      ensures history == old(history)
        + [HistoryEntry(transactionId, request.sourceAccountId, request.currencyId, now, -request.amount, TransferNote)]
        + ReceivedEntries(transactionId, request.targetAccountIds, request.currencyId, now, share)
      ensures lastNumber == old(lastNumber)
    {
      CreditTargets(request.targetAccountIds, request.currencyId, share);
      InsertHistory(transactionId, request.sourceAccountId, request.currencyId, -request.amount, TransferNote, now);
      InsertReceived(transactionId, request.targetAccountIds, request.currencyId, share, now);
    }
  }

  class Ledger {
    var balances: map<BalanceKey, real>
    var history: seq<HistoryEntry>
    var lastNumber: Option<Int64>

    /** The committed tables. */
    function State(): Tables
      reads this
    {
      Tables(balances, history, lastNumber)
    }

    constructor (initial: Tables)
      ensures State() == initial
    {
      balances := initial.balances;
      history := initial.history;
      lastNumber := initial.lastNumber;
    }

    /** Makes every write of the unit visible at once. */
    method Commit(unit: UnitOfWork)
      modifies this
      ensures State() == unit.Pending()
    {
      balances := unit.balances;
      history := unit.history;
      lastNumber := unit.lastNumber;
    }

    /** A deposit or withdrawal in its own unit of work. */
    method ProcessTransaction(request: TransactionRequest, kind: TransactionType, today: Date, now: Timestamp)
      returns (outcome: Outcome)
      modifies this
      ensures (outcome, State()) == Process(old(State()), request, kind, today, now)
    {
      var unit := new UnitOfWork.Begin(State());
      var transactionId := unit.GenerateTransactionId(today);
      if transactionId.None? {
        // the cast of the missing counter value throws; the unit is rolled back
        return Fault;
      }
      var key := BalanceKey(request.accountId, request.currencyId);
      var adjustment := LedgerState.Adjustment(kind, request.amount);
      if kind == LedgerState.Withdraw {
        var sufficient := unit.IsSufficientBalance(key, request.amount);
        if !sufficient {
          // returned without Commit: disposing the unit rolls it back
          return InsufficientBalance;
        }
      }
      var _ := unit.UpdateBalance(key, adjustment);
      unit.InsertHistory(transactionId.value, request.accountId, request.currencyId, adjustment, request.note, now);
      Commit(unit);
      outcome := Success(transactionId.value);
    }

    /** The deposit endpoint (setor). */
    method Deposit(request: TransactionRequest, today: Date, now: Timestamp) returns (outcome: Outcome)
      modifies this
      ensures (outcome, State()) == Process(old(State()), request, LedgerState.Deposit, today, now)
    {
      outcome := ProcessTransaction(request, LedgerState.Deposit, today, now);
    }

    /** The withdrawal endpoint (tarik). */
    method Withdraw(request: TransactionRequest, today: Date, now: Timestamp) returns (outcome: Outcome)
      modifies this
      ensures (outcome, State()) == Process(old(State()), request, LedgerState.Withdraw, today, now)
    {
      outcome := ProcessTransaction(request, LedgerState.Withdraw, today, now);
    }

    /** A transfer from one source to a list of targets in its own unit of work. */
    method Transfer(request: TransferRequest, today: Date, now: Timestamp) returns (outcome: Outcome)
      modifies this
      ensures (outcome, State()) == LedgerState.Transfer(old(State()), request, today, now)
    {
      ghost var before := State();
      var unit := new UnitOfWork.Begin(State());
      var transactionId := unit.GenerateTransactionId(today);
      if transactionId.None? {
        return Fault;
      }
      var id := transactionId.value;
      var source := BalanceKey(request.sourceAccountId, request.currencyId);
      var sufficient := unit.UpdateBalance(source, -request.amount);
      assert sufficient <==> BalanceOf(before.balances, source) - request.amount >= 0.0;
      if !sufficient {
        return InsufficientBalance;
      }
      if |request.targetAccountIds| == 0 {
        // dividing by a count of zero throws; the unit is rolled back
        return Fault;
      }
      var share := Share(request.amount, request.targetAccountIds);
      unit.PostTransfer(id, request, share, now);
      assert unit.Pending() == TransferTables(before, request, id, unit.lastNumber.value, now, share);
      Commit(unit);
      outcome := Success(id);
    }
  }
}
