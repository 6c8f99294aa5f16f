/**
 * What the engine promises, proved about the functions that specify it: the effect
 * of each operation on balances, history and counter; all-or-nothing outcomes; the
 * non-negative and reconciled invariants; and ids that never repeat over a run.
 */
module LedgerProperties {
  import opened Wrappers
  import opened TransactionIds
  import opened LedgerState

  // ----- the transfer loops -----

  /** Upsert changes the balance that reads back for `key` by `delta`, and no other. */
  lemma UpsertReadsBack(m: map<BalanceKey, real>, key: BalanceKey, delta: real, k: BalanceKey)
    ensures BalanceOf(Upsert(m, key, delta), k) == BalanceOf(m, k) + (if k == key then delta else 0.0)
  {
  }

  /** `share` once for every occurrence of `account` in the target list. */
  function SharesFor(targets: seq<AccountId>, account: AccountId, share: real): real
    decreases |targets|
  {
    if targets == [] then 0.0
    else SharesFor(targets[..|targets| - 1], account, share) + (if targets[|targets| - 1] == account then share else 0.0)
  }

  /** `count` copies of `share` added up. */
  function Times(count: nat, share: real): real {
    if count == 0 then 0.0 else Times(count - 1, share) + share
  }

  lemma {:induction false} TimesIsProduct(count: nat, share: real)
    ensures Times(count, share) == count as real * share
  {
    if count > 0 {
      TimesIsProduct(count - 1, share);
      assert count as real * share == (count - 1) as real * share + share;
    }
  }

  lemma {:induction false} SharesForCount(targets: seq<AccountId>, account: AccountId, share: real)
    ensures SharesFor(targets, account, share) == Times(multiset(targets)[account], share)
    decreases |targets|
  {
    if targets != [] {
      var init, last := targets[..|targets| - 1], targets[|targets| - 1];
      assert targets == init + [last];
      assert multiset(targets) == multiset(init) + multiset{last};
      SharesForCount(init, account, share);
    }
  }

  /** Duplicates included: an account's shares are its multiplicity in the list times the share. */
  lemma SharesForMultiplicity(targets: seq<AccountId>, account: AccountId, share: real)
    ensures SharesFor(targets, account, share) == (multiset(targets)[account] as real) * share
  {
    SharesForCount(targets, account, share);
    TimesIsProduct(multiset(targets)[account], share);
  }

  /** A list that does not name the account gives it nothing; non-negative shares add up to a non-negative total. */
  lemma {:induction false} SharesForBounds(targets: seq<AccountId>, account: AccountId, share: real)
    ensures account !in targets ==> SharesFor(targets, account, share) == 0.0
    ensures share >= 0.0 ==> SharesFor(targets, account, share) >= 0.0
    decreases |targets|
  {
    if targets != [] {
      SharesForBounds(targets[..|targets| - 1], account, share);
      assert account !in targets ==> account !in targets[..|targets| - 1];
    }
  }

  /** The credit loop adds `share` to a row once per occurrence of its account in the list, and touches no other row. */
  lemma {:induction false} CreditAllEffect(m: map<BalanceKey, real>, targets: seq<AccountId>, currency: CurrencyId, share: real, k: BalanceKey)
    ensures BalanceOf(CreditAll(m, targets, currency, share), k) ==
            BalanceOf(m, k) + (if k.currency == currency then SharesFor(targets, k.account, share) else 0.0)
    ensures k in CreditAll(m, targets, currency, share) <==> k in m || (k.currency == currency && k.account in targets)
    decreases |targets|
  {
    if targets != [] {
      var init, last := targets[..|targets| - 1], targets[|targets| - 1];
      assert targets == init + [last];
      CreditAllEffect(m, init, currency, share, k);
      UpsertReadsBack(CreditAll(m, init, currency, share), BalanceKey(last, currency), share, k);
    }
  }

  /** The received rows are one per target, in list order, all under the same id. */
  lemma {:induction false} ReceivedEntriesAt(id: string, targets: seq<AccountId>, currency: CurrencyId, now: Timestamp, share: real)
    ensures |ReceivedEntries(id, targets, currency, now, share)| == |targets|
    ensures forall i :: 0 <= i < |targets| ==>
      ReceivedEntries(id, targets, currency, now, share)[i] == HistoryEntry(id, targets[i], currency, now, share, ReceivedNote)
    decreases |targets|
  {
    if targets != [] {
      ReceivedEntriesAt(id, targets[..|targets| - 1], currency, now, share);
    }
  }

  // ----- one operation at a time -----

  /** A missing counter row faults every operation before anything is written. */
  lemma MissingCounterFaults(t: Tables, call: Call)
    requires t.lastNumber.None?
    ensures Apply(t, call) == (Fault, t)
  {
  }

  /** A deposit is never rejected: the balance grows by the amount, one row is logged and the counter advances once. */
  lemma DepositCommits(t: Tables, request: TransactionRequest, today: Date, now: Timestamp)
    requires t.lastNumber.Some?
    ensures
      var (o, after) := Process(t, request, Deposit, today, now);
      var key := BalanceKey(request.accountId, request.currencyId);
      var n := NextNumber(t.lastNumber.value);
      && o == Success(FormatId(today, n))
      && BalanceOf(after.balances, key) == BalanceOf(t.balances, key) + request.amount
      && (forall k :: k != key ==> BalanceOf(after.balances, k) == BalanceOf(t.balances, k))
      && after.history == t.history + [HistoryEntry(o.transactionId, request.accountId, request.currencyId, now, request.amount, request.note)]
      && after.lastNumber == Some(n)
  {
    var (o, after) := Process(t, request, Deposit, today, now);
    var key := BalanceKey(request.accountId, request.currencyId);
    forall k ensures BalanceOf(after.balances, k) == BalanceOf(t.balances, k) + (if k == key then request.amount else 0.0) {
      UpsertReadsBack(t.balances, key, request.amount, k);
    }
  }

  /**
   * A withdrawal is rejected exactly when the balance is below the amount, and then
   * nothing changes; otherwise the balance drops by the amount and stays non-negative.
   */
  lemma WithdrawOutcome(t: Tables, request: TransactionRequest, today: Date, now: Timestamp)
    requires t.lastNumber.Some?
    ensures
      var (o, after) := Process(t, request, Withdraw, today, now);
      var key := BalanceKey(request.accountId, request.currencyId);
      var n := NextNumber(t.lastNumber.value);
      && (o == InsufficientBalance <==> BalanceOf(t.balances, key) < request.amount)
      && (o == InsufficientBalance ==> after == t)
      && (o != InsufficientBalance ==>
           && o == Success(FormatId(today, n))
           && BalanceOf(after.balances, key) == BalanceOf(t.balances, key) - request.amount
           && BalanceOf(after.balances, key) >= 0.0
           && (forall k :: k != key ==> BalanceOf(after.balances, k) == BalanceOf(t.balances, k))
           && after.history == t.history + [HistoryEntry(o.transactionId, request.accountId, request.currencyId, now, -request.amount, request.note)]
           && after.lastNumber == Some(n))
  {
    var (o, after) := Process(t, request, Withdraw, today, now);
    var key := BalanceKey(request.accountId, request.currencyId);
    if o != InsufficientBalance {
      forall k ensures BalanceOf(after.balances, k) == BalanceOf(t.balances, k) + (if k == key then -request.amount else 0.0) {
        UpsertReadsBack(t.balances, key, -request.amount, k);
      }
    }
  }

  /** The committed transfer logs the source row and then one row per target, all under `id`, after the old history. */
  lemma TransferTablesHistory(t: Tables, request: TransferRequest, id: string, n: Int64, now: Timestamp, share: real)
    ensures
      var after := TransferTables(t, request, id, n, now, share);
      var targets := request.targetAccountIds;
      var h0 := |t.history|;
      && |after.history| == h0 + 1 + |targets|
      && after.history[..h0] == t.history
      && after.history[h0] == HistoryEntry(id, request.sourceAccountId, request.currencyId, now, -request.amount, TransferNote)
      && (forall i :: 0 <= i < |targets| ==>
            after.history[h0 + 1 + i] == HistoryEntry(id, targets[i], request.currencyId, now, share, ReceivedNote))
      && (forall i :: h0 <= i < |after.history| ==> after.history[i].transactionId == id)
  {
    var after := TransferTables(t, request, id, n, now, share);
    var targets := request.targetAccountIds;
    var received := ReceivedEntries(id, targets, request.currencyId, now, share);
    ReceivedEntriesAt(id, targets, request.currencyId, now, share);
    forall i | 0 <= i < |targets|
      ensures after.history[|t.history| + 1 + i] == HistoryEntry(id, targets[i], request.currencyId, now, share, ReceivedNote)
    {
      assert after.history[|t.history| + 1 + i] == received[i];
    }
    forall i | |t.history| < i < |after.history|
      ensures after.history[i].transactionId == id
    {
      assert after.history[i] == received[i - |t.history| - 1];
    }
  }

  /** The committed transfer moves each balance by the source debit and the target credits that name it. */
  lemma TransferTablesBalance(t: Tables, request: TransferRequest, id: string, n: Int64, now: Timestamp, share: real, k: BalanceKey)
    ensures
      var source := BalanceKey(request.sourceAccountId, request.currencyId);
      BalanceOf(TransferTables(t, request, id, n, now, share).balances, k) ==
        BalanceOf(t.balances, k)
        + (if k == source then -request.amount else 0.0)
        + (if k.currency == request.currencyId then SharesFor(request.targetAccountIds, k.account, share) else 0.0)
  {
    var source := BalanceKey(request.sourceAccountId, request.currencyId);
    UpsertReadsBack(t.balances, source, -request.amount, k);
    CreditAllEffect(Upsert(t.balances, source, -request.amount), request.targetAccountIds, request.currencyId, share, k);
  }

  /**
   * A transfer is rejected exactly when the source would fall below zero after the full
   * debit, faults on an empty target list, and otherwise commits the transfer tables for
   * the id of the advanced counter and the share of the split.
   */
  lemma TransferOutcome(t: Tables, request: TransferRequest, today: Date, now: Timestamp)
    requires t.lastNumber.Some?
    ensures
      var (o, after) := Transfer(t, request, today, now);
      var source := BalanceKey(request.sourceAccountId, request.currencyId);
      var targets := request.targetAccountIds;
      var n := NextNumber(t.lastNumber.value);
      && (o == InsufficientBalance <==> BalanceOf(t.balances, source) - request.amount < 0.0)
      && (o == Fault <==> BalanceOf(t.balances, source) - request.amount >= 0.0 && |targets| == 0)
      && (!o.Success? ==> after == t)
      && (o.Success? ==>
            && o.transactionId == FormatId(today, n)
            && after == TransferTables(t, request, o.transactionId, n, now, Share(request.amount, targets)))
  {
    var source := BalanceKey(request.sourceAccountId, request.currencyId);
    UpsertReadsBack(t.balances, source, -request.amount, source);
  }

  /**
   * An accepted transfer logs 1 + n rows under its one id: the source row with the
   * negated amount first, then one row per listed target, in list order, with the share.
   */
  lemma TransferAcceptedHistory(t: Tables, request: TransferRequest, today: Date, now: Timestamp)
    requires Transfer(t, request, today, now).0.Success?
    ensures
      var (o, after) := Transfer(t, request, today, now);
      var targets := request.targetAccountIds;
      var share := Share(request.amount, targets);
      var h0 := |t.history|;
      && |after.history| == h0 + 1 + |targets|
      && after.history[..h0] == t.history
      && after.history[h0] == HistoryEntry(o.transactionId, request.sourceAccountId, request.currencyId, now, -request.amount, TransferNote)
      && (forall i :: 0 <= i < |targets| ==>
            after.history[h0 + 1 + i] == HistoryEntry(o.transactionId, targets[i], request.currencyId, now, share, ReceivedNote))
  {
    TransferOutcome(t, request, today, now);
    var o := Transfer(t, request, today, now).0;
    TransferTablesHistory(t, request, o.transactionId, NextNumber(t.lastNumber.value), now,
                          Share(request.amount, request.targetAccountIds));
  }

  /**
   * An accepted transfer debits the source the full amount and credits every listed
   * target the same share once per listing, duplicates included (`Times` adds the share
   * up as often as the account is listed, see TimesIsProduct); no other row moves.
   */
  lemma TransferAcceptedBalance(t: Tables, request: TransferRequest, today: Date, now: Timestamp, k: BalanceKey)
    requires Transfer(t, request, today, now).0.Success?
    ensures
      var after := Transfer(t, request, today, now).1;
      var targets := request.targetAccountIds;
      BalanceOf(after.balances, k) ==
        BalanceOf(t.balances, k)
        + (if k == BalanceKey(request.sourceAccountId, request.currencyId) then -request.amount else 0.0)
        + (if k.currency == request.currencyId
           then Times(multiset(targets)[k.account], Share(request.amount, targets))
           else 0.0)
  {
    var o := Transfer(t, request, today, now).0;
    var share := Share(request.amount, request.targetAccountIds);
    TransferOutcome(t, request, today, now);
    TransferTablesBalance(t, request, o.transactionId, NextNumber(t.lastNumber.value), now, share, k);
    SharesForCount(request.targetAccountIds, k.account, share);
  }

  lemma TransferTablesMultiplicity(t: Tables, request: TransferRequest, id: string, n: Int64, now: Timestamp, share: real, k: BalanceKey)
    ensures
      BalanceOf(TransferTables(t, request, id, n, now, share).balances, k) ==
        BalanceOf(t.balances, k)
        + (if k == BalanceKey(request.sourceAccountId, request.currencyId) then -request.amount else 0.0)
        + (if k.currency == request.currencyId then (multiset(request.targetAccountIds)[k.account] as real) * share else 0.0)
  {
    TransferTablesBalance(t, request, id, n, now, share, k);
    SharesForMultiplicity(request.targetAccountIds, k.account, share);
  }

  /** Every history row a transfer adds carries the transfer's one transaction id. */
  lemma TransferSharesOneId(t: Tables, request: TransferRequest, today: Date, now: Timestamp)
    requires Transfer(t, request, today, now).0.Success?
    ensures
      var (o, after) := Transfer(t, request, today, now);
      && |after.history| == |t.history| + 1 + |request.targetAccountIds|
      && forall i :: |t.history| <= i < |after.history| ==> after.history[i].transactionId == o.transactionId
  {
    TransferOutcome(t, request, today, now);
    var o := Transfer(t, request, today, now).0;
    TransferTablesHistory(t, request, o.transactionId, NextNumber(t.lastNumber.value), now,
                          Share(request.amount, request.targetAccountIds));
  }

  /**
   * Every operation is all or nothing: one that does not succeed leaves the tables as
   * they were; one that succeeds advances the counter by one step, names itself after the
   * new value, and only appends to the history.
   */
  lemma ApplyIsAtomic(t: Tables, call: Call)
    ensures
      var (o, after) := Apply(t, call);
      && (!o.Success? ==> after == t)
      && (o.Success? ==>
            && t.lastNumber.Some?
            && after.lastNumber == Some(NextNumber(t.lastNumber.value))
            && o.transactionId == FormatId(call.today, NextNumber(t.lastNumber.value))
            && |after.history| > |t.history|
            && after.history[..|t.history|] == t.history)
  {
    if t.lastNumber.Some? {
      match call
      case ProcessCall(request, kind, today, now) =>
        if kind == Deposit {
          DepositCommits(t, request, today, now);
        } else {
          WithdrawOutcome(t, request, today, now);
        }
      case TransferCall(transfer, today, now) =>
        TransferOutcome(t, transfer, today, now);
        var o := Transfer(t, transfer, today, now).0;
        if o.Success? {
          TransferTablesHistory(t, transfer, o.transactionId, NextNumber(t.lastNumber.value), now,
                                Share(transfer.amount, transfer.targetAccountIds));
        }
    }
  }

  // ----- balances never negative -----

  ghost predicate NonNegative(t: Tables) {
    forall k :: k in t.balances ==> t.balances[k] >= 0.0
  }

  /** Every call whose amount is not negative. */
  predicate NonNegativeAmount(call: Call) {
    match call
    case ProcessCall(request, _, _, _) => request.amount >= 0.0
    case TransferCall(transfer, _, _) => transfer.amount >= 0.0
  }

  /** A withdrawal cannot make a balance negative, whatever its amount. */
  lemma WithdrawKeepsNonNegative(t: Tables, request: TransactionRequest, today: Date, now: Timestamp)
    requires NonNegative(t)
    ensures NonNegative(Process(t, request, Withdraw, today, now).1)
  {
    if t.lastNumber.Some? {
      WithdrawOutcome(t, request, today, now);
    }
  }

  /** A deposit of a non-negative amount cannot make a balance negative. */
  lemma DepositKeepsNonNegative(t: Tables, request: TransactionRequest, today: Date, now: Timestamp)
    requires NonNegative(t) && request.amount >= 0.0
    ensures NonNegative(Process(t, request, Deposit, today, now).1)
  {
  }

  /** A transfer of a non-negative amount cannot make a balance negative: the source is checked and the targets only gain. */
  lemma TransferKeepsNonNegative(t: Tables, request: TransferRequest, today: Date, now: Timestamp)
    requires NonNegative(t) && request.amount >= 0.0
    ensures NonNegative(Transfer(t, request, today, now).1)
  {
    var (o, after) := Transfer(t, request, today, now);
    if o.Success? {
      TransferOutcome(t, request, today, now);
      var targets := request.targetAccountIds;
      var share := Share(request.amount, targets);
      TransferSharesKeepNonNegative(t, request, o.transactionId, NextNumber(t.lastNumber.value), now, share);
    }
  }

  lemma TransferSharesKeepNonNegative(t: Tables, request: TransferRequest, id: string, n: Int64, now: Timestamp, share: real)
    requires NonNegative(t) && share >= 0.0
    requires BalanceOf(t.balances, BalanceKey(request.sourceAccountId, request.currencyId)) - request.amount >= 0.0
    ensures NonNegative(TransferTables(t, request, id, n, now, share))
  {
    var after := TransferTables(t, request, id, n, now, share);
    var source := BalanceKey(request.sourceAccountId, request.currencyId);
    forall k | k in after.balances ensures after.balances[k] >= 0.0 {
      TransferTablesBalance(t, request, id, n, now, share, k);
      SharesForBounds(request.targetAccountIds, k.account, share);
      assert BalanceOf(after.balances, k) == after.balances[k];
      if k != source {
        assert BalanceOf(t.balances, k) >= 0.0;
      }
    }
  }

  /** No caller checks the sign of the amount: a negative deposit overdraws an empty account. */
  lemma NegativeDepositOverdraws(today: Date, now: Timestamp)
    ensures
      var t := Tables(map[], [], Some(0));
      var (o, after) := Process(t, TransactionRequest("A", "USD", -1.0, ""), Deposit, today, now);
      o.Success? && NonNegative(t) && !NonNegative(after)
  {
    var t := Tables(map[], [], Some(0));
    var after := Process(t, TransactionRequest("A", "USD", -1.0, ""), Deposit, today, now).1;
    assert after.balances[BalanceKey("A", "USD")] == -1.0;
  }

  /** The credits of a transfer are not checked: a negative transfer overdraws its target. */
  lemma NegativeTransferOverdrawsTarget(today: Date, now: Timestamp)
    ensures
      var t := Tables(map[], [], Some(0));
      var (o, after) := Transfer(t, TransferRequest("A", "USD", -2.0, ["B"]), today, now);
      o.Success? && NonNegative(t) && !NonNegative(after)
  {
    var t := Tables(map[], [], Some(0));
    var request := TransferRequest("A", "USD", -2.0, ["B"]);
    var key := BalanceKey("B", "USD");
    TransferOutcome(t, request, today, now);
    var o := Transfer(t, request, today, now).0;
    assert Share(-2.0, request.targetAccountIds) == -2.0;
    TransferTablesBalance(t, request, o.transactionId, NextNumber(0), now, -2.0, key);
    assert request.targetAccountIds[..0] == [];
    assert SharesFor(request.targetAccountIds, "B", -2.0) == -2.0;
    assert key in Transfer(t, request, today, now).1.balances;
  }

  // ----- balances reconcile with history -----

  /** The sum of the history amounts logged against `key`. */
  function SumFor(history: seq<HistoryEntry>, key: BalanceKey): real
    decreases |history|
  {
    if history == [] then 0.0
    else SumFor(history[..|history| - 1], key)
         + (if history[|history| - 1].Key() == key then history[|history| - 1].amount else 0.0)
  }

  /** Every balance equals the sum of the signed amounts logged against its key. */
  ghost predicate Reconciled(t: Tables) {
    forall k :: BalanceOf(t.balances, k) == SumFor(t.history, k)
  }

  lemma {:induction false} SumForAppend(h1: seq<HistoryEntry>, h2: seq<HistoryEntry>, key: BalanceKey)
    ensures SumFor(h1 + h2, key) == SumFor(h1, key) + SumFor(h2, key)
    decreases |h2|
  {
    if h2 == [] {
      assert h1 + h2 == h1;
    } else {
      var h := h1 + h2;
      var e := h2[|h2| - 1];
      var term := if e.Key() == key then e.amount else 0.0;
      assert h[..|h| - 1] == h1 + h2[..|h2| - 1];
      assert h[|h| - 1] == e;
      assert SumFor(h, key) == SumFor(h1 + h2[..|h2| - 1], key) + term;
      assert SumFor(h2, key) == SumFor(h2[..|h2| - 1], key) + term;
      SumForAppend(h1, h2[..|h2| - 1], key);
    }
  }

  /** The received rows sum, per key, to what the credit loop added to that key. */
  lemma {:induction false} SumReceived(id: string, targets: seq<AccountId>, currency: CurrencyId, now: Timestamp, share: real, k: BalanceKey)
    ensures SumFor(ReceivedEntries(id, targets, currency, now, share), k) ==
            (if k.currency == currency then SharesFor(targets, k.account, share) else 0.0)
    decreases |targets|
  {
    if targets != [] {
      var init := targets[..|targets| - 1];
      var r := ReceivedEntries(id, targets, currency, now, share);
      assert r[..|r| - 1] == ReceivedEntries(id, init, currency, now, share);
      SumReceived(id, init, currency, now, share, k);
    }
  }

  /** Every operation keeps the balances reconciled with the history. */
  lemma ApplyKeepsReconciled(t: Tables, call: Call)
    requires Reconciled(t)
    ensures Reconciled(Apply(t, call).1)
  {
    match call
    case ProcessCall(request, kind, today, now) =>
      ProcessKeepsReconciled(t, request, kind, today, now);
    case TransferCall(transfer, today, now) =>
      var o := Transfer(t, transfer, today, now).0;
      if o.Success? {
        TransferOutcome(t, transfer, today, now);
        TransferTablesReconciled(t, transfer, o.transactionId, NextNumber(t.lastNumber.value), now,
                                 Share(transfer.amount, transfer.targetAccountIds));
      }
  }

  lemma ProcessKeepsReconciled(t: Tables, request: TransactionRequest, kind: TransactionType, today: Date, now: Timestamp)
    requires Reconciled(t)
    ensures Reconciled(Process(t, request, kind, today, now).1)
  {
    var (o, after) := Process(t, request, kind, today, now);
    if o.Success? {
      var key := BalanceKey(request.accountId, request.currencyId);
      var delta := Adjustment(kind, request.amount);
      forall k ensures BalanceOf(after.balances, k) == SumFor(after.history, k) {
        UpsertReadsBack(t.balances, key, delta, k);
        assert after.history[..|after.history| - 1] == t.history;
      }
    }
  }

  lemma TransferTablesReconciled(t: Tables, request: TransferRequest, id: string, n: Int64, now: Timestamp, share: real)
    requires Reconciled(t)
    ensures Reconciled(TransferTables(t, request, id, n, now, share))
  {
    var after := TransferTables(t, request, id, n, now, share);
    var targets := request.targetAccountIds;
    var debit := HistoryEntry(id, request.sourceAccountId, request.currencyId, now, -request.amount, TransferNote);
    var received := ReceivedEntries(id, targets, request.currencyId, now, share);
    assert after.history == (t.history + [debit]) + received;
    forall k ensures BalanceOf(after.balances, k) == SumFor(after.history, k) {
      TransferTablesBalance(t, request, id, n, now, share, k);
      SumForAppend(t.history + [debit], received, k);
      assert (t.history + [debit])[..|t.history|] == t.history;
      SumReceived(id, targets, request.currencyId, now, share, k);
    }
  }

  // ----- runs of operations -----

  /** The number of successful outcomes. */
  function Successes(outcomes: seq<Outcome>): (r: nat)
    ensures r <= |outcomes|
    decreases |outcomes|
  {
    if outcomes == [] then 0
    else Successes(outcomes[..|outcomes| - 1]) + (if outcomes[|outcomes| - 1].Success? then 1 else 0)
  }

  lemma {:induction false} SuccessesGrow(outcomes: seq<Outcome>, i: nat, j: nat)
    requires i < j <= |outcomes| && outcomes[i].Success?
    ensures Successes(outcomes[..i]) < Successes(outcomes[..j])
    decreases j
  {
    if j == i + 1 {
      assert outcomes[..j][..i] == outcomes[..i];
    } else {
      assert outcomes[..j][..j - 1] == outcomes[..j - 1];
      SuccessesGrow(outcomes, i, j - 1);
    }
  }

  /** One more call: its outcome is appended and the tables are those it leaves. */
  lemma RunStep(t: Tables, calls: seq<Call>)
    requires calls != []
    ensures Run(t, calls).0 == Run(t, calls[..|calls| - 1]).0 + [Apply(Run(t, calls[..|calls| - 1]).1, calls[|calls| - 1]).0]
    ensures Run(t, calls).1 == Apply(Run(t, calls[..|calls| - 1]).1, calls[|calls| - 1]).1
  {
  }

  /** Below the top of the range, a call that succeeds takes the next number `n` and is named after it. */
  lemma ApplyNumbering(t: Tables, call: Call, n: Int64)
    requires t.lastNumber.Some? && t.lastNumber.value + 1 == n
    ensures Apply(t, call).0.Success? ==> Apply(t, call).0.transactionId == FormatId(call.today, n)
    ensures Apply(t, call).1.lastNumber.Some?
    ensures Apply(t, call).1.lastNumber.value == if Apply(t, call).0.Success? then n else n - 1
  {
    ApplyIsAtomic(t, call);
  }

  /** Over a run without wrap-around, the counter ends advanced by the number of successes. */
  lemma {:induction false} RunCounter(t: Tables, calls: seq<Call>, c: Int64)
    requires t.lastNumber == Some(c) && c + |calls| <= MaxLong
    ensures Run(t, calls).1.lastNumber.Some? && Run(t, calls).1.lastNumber.value == c + Successes(Run(t, calls).0)
    decreases |calls|
  {
    if calls != [] {
      var init, last := calls[..|calls| - 1], calls[|calls| - 1];
      RunCounter(t, init, c);
      RunStep(t, calls);
      var outcomes, mid := Run(t, init).0, Run(t, init).1;
      var all := Run(t, calls).0;
      assert all[..|outcomes|] == outcomes;
      var k := Successes(outcomes);
      assert k <= |init| == |outcomes|;
      ApplyNumbering(mid, last, c + k + 1);
    }
  }

  /** The first i outcomes of a run are the outcomes of its first i calls. */
  lemma {:induction false} RunPrefix(t: Tables, calls: seq<Call>, i: nat)
    requires i <= |calls|
    ensures Run(t, calls).0[..i] == Run(t, calls[..i]).0
    decreases |calls|
  {
    if i < |calls| {
      var init := calls[..|calls| - 1];
      RunStep(t, calls);
      RunPrefix(t, init, i);
      assert init[..i] == calls[..i];
      assert Run(t, calls).0[..i] == Run(t, init).0[..i];
    } else {
      assert calls[..i] == calls;
    }
  }

  /** The i-th outcome of a run is what the i-th call gives on the tables the calls before it leave. */
  lemma RunAt(t: Tables, calls: seq<Call>, i: nat)
    requires i < |calls|
    ensures Run(t, calls).0[..i] == Run(t, calls[..i]).0
    ensures Run(t, calls).0[i] == Apply(Run(t, calls[..i]).1, calls[i]).0
  {
    var pre := calls[..i + 1];
    RunPrefix(t, calls, i);
    RunPrefix(t, calls, i + 1);
    RunStep(t, pre);
    assert pre[..i] == calls[..i];
    assert Run(t, calls).0[i] == Run(t, pre).0[i];
  }

  /**
   * Over a run without wrap-around, the i-th call, when it succeeds, is named after the
   * counter value one past the successes before it.
   */
  lemma RunIdAt(t: Tables, calls: seq<Call>, c: Int64, i: nat)
    requires t.lastNumber == Some(c) && c + |calls| <= MaxLong
    requires i < |calls| && Run(t, calls).0[i].Success?
    ensures Run(t, calls).0[i].transactionId == FormatId(calls[i].today, c + 1 + Successes(Run(t, calls).0[..i]))
  {
    var before := Run(t, calls[..i]);
    var k := Successes(before.0);
    assert k <= |calls[..i]| == |before.0|;
    RunCounter(t, calls[..i], c);
    ApplyNumbering(before.1, calls[i], c + k + 1);
    RunAt(t, calls, i);
  }

  /**
   * Over a run without wrap-around, the ids of successful calls never repeat, and the
   * counter each id carries strictly increases from one success to the next.
   */
  lemma RunIdsIncrease(t: Tables, calls: seq<Call>, c: Int64, i: nat, j: nat)
    requires t.lastNumber == Some(c) && c + |calls| <= MaxLong
    requires i < j < |calls|
    requires Run(t, calls).0[i].Success? && Run(t, calls).0[j].Success?
    ensures
      var outcomes := Run(t, calls).0;
      && outcomes[i].transactionId != outcomes[j].transactionId
      && ParseId(outcomes[i].transactionId).Some?
      && ParseId(outcomes[j].transactionId).Some?
      && ParseId(outcomes[i].transactionId).value.counter < ParseId(outcomes[j].transactionId).value.counter
  {
    var outcomes := Run(t, calls).0;
    assert |outcomes| == |calls|;
    var ki, kj := Successes(outcomes[..i]), Successes(outcomes[..j]);
    assert ki <= i && kj <= j;
    RunIdAt(t, calls, c, i);
    RunIdAt(t, calls, c, j);
    SuccessesGrow(outcomes, i, j);
    IdsOrdered(outcomes[i].transactionId, outcomes[j].transactionId, calls[i].today, calls[j].today, c + 1 + ki, c + 1 + kj);
  }

  /** Ids formatted from increasing counter values are distinct and read back in the same order. */
  lemma IdsOrdered(s1: string, s2: string, d1: Date, d2: Date, n1: Int64, n2: Int64)
    requires s1 == FormatId(d1, n1) && s2 == FormatId(d2, n2) && n1 < n2
    ensures s1 != s2
    ensures ParseId(s1) == Some(IdParts(d1, n1)) && ParseId(s2) == Some(IdParts(d2, n2))
  {
    IdRoundTrip(d1, n1);
    IdRoundTrip(d2, n2);
  }


  /** Runs keep the balances reconciled with the history. */
  lemma {:induction false} RunKeepsReconciled(t: Tables, calls: seq<Call>)
    requires Reconciled(t)
    ensures Reconciled(Run(t, calls).1)
    decreases |calls|
  {
    if calls != [] {
      RunKeepsReconciled(t, calls[..|calls| - 1]);
      ApplyKeepsReconciled(Run(t, calls[..|calls| - 1]).1, calls[|calls| - 1]);
    }
  }

  /** Runs whose amounts are all non-negative never leave a negative balance. */
  lemma {:induction false} RunKeepsNonNegative(t: Tables, calls: seq<Call>)
    requires NonNegative(t)
    requires forall i :: 0 <= i < |calls| ==> NonNegativeAmount(calls[i])
    ensures NonNegative(Run(t, calls).1)
    decreases |calls|
  {
    if calls != [] {
      var init := calls[..|calls| - 1];
      RunKeepsNonNegative(t, init);
      var mid := Run(t, init).1;
      match calls[|calls| - 1]
      case ProcessCall(request, kind, today, now) =>
        if kind == Deposit {
          DepositKeepsNonNegative(mid, request, today, now);
        } else {
          WithdrawKeepsNonNegative(mid, request, today, now);
        }
      case TransferCall(transfer, today, now) =>
        TransferKeepsNonNegative(mid, transfer, today, now);
    }
  }
}
