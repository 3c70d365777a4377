/**
 * The reconciliation of the balance mirror against the committed queue rows, and what its report
 * means in terms of the statements that were executed.
 */
module BalanceDrift {
  import opened PaymentQueue

  datatype DriftRecord = DriftRecord(accountId: string,
                                     mirrorCredits: int, queueCredits: int, creditDrift: int,
                                     mirrorDebits: int, queueDebits: int, debitDrift: int)

  datatype Reconciliation = Reconciliation(accountsChecked: nat, driftingAccounts: seq<DriftRecord>,
                                           totalCreditDrift: int, totalDebitDrift: int, clean: bool)

  function Drift(side: Side, account: Account, rows: seq<Row>): int {
    account.Posted(side) - CommittedTotal(side, rows, account.id)
  }

  predicate Drifts(account: Account, rows: seq<Row>) {
    Drift(Credit, account, rows) != 0 || Drift(Debit, account, rows) != 0
  }

  function Abs(x: int): int {
    if x < 0 then -x else x
  }

  function Describe(account: Account, rows: seq<Row>): DriftRecord {
    DriftRecord(account.id,
                account.creditsPosted, CommittedTotal(Credit, rows, account.id), Drift(Credit, account, rows),
                account.debitsPosted, CommittedTotal(Debit, rows, account.id), Drift(Debit, account, rows))
  }

  /** One record for each drifting account, in the order of the accounts. */
  function Drifting(accounts: seq<Account>, rows: seq<Row>): seq<DriftRecord> {
    if accounts == [] then []
    else
      var n := |accounts| - 1;
      Drifting(accounts[..n], rows) + (if Drifts(accounts[n], rows) then [Describe(accounts[n], rows)] else [])
  }

  /** The sum of the absolute drifts of all accounts. */
  function TotalDrift(side: Side, accounts: seq<Account>, rows: seq<Row>): (t: int)
    ensures t >= 0
  {
    if accounts == [] then 0
    else TotalDrift(side, accounts[..|accounts| - 1], rows) + Abs(Drift(side, accounts[|accounts| - 1], rows))
  }

  /** The record gives the account's mirror and queue totals, and each drift as mirror minus queue. */
  predicate RecordOf(d: DriftRecord, account: Account, rows: seq<Row>) {
    && d.accountId == account.id
    && d.mirrorCredits == account.creditsPosted && d.queueCredits == CommittedTotal(Credit, rows, account.id)
    && d.mirrorDebits == account.debitsPosted && d.queueDebits == CommittedTotal(Debit, rows, account.id)
    && d.mirrorCredits == d.queueCredits + d.creditDrift && d.mirrorDebits == d.queueDebits + d.debitDrift
  }

  /** The record is that of account number `k`. */
  predicate RecordAt(d: DriftRecord, accounts: seq<Account>, rows: seq<Row>, k: nat) {
    k < |accounts| && RecordOf(d, accounts[k], rows) && (d.creditDrift != 0 || d.debitDrift != 0)
  }

  lemma {:induction false} RecordsAreOfAccounts(accounts: seq<Account>, rows: seq<Row>)
    ensures forall d <- Drifting(accounts, rows) :: exists k: nat :: RecordAt(d, accounts, rows, k)
  {
    if accounts != [] {
      var n := |accounts| - 1;
      RecordsAreOfAccounts(accounts[..n], rows);
      forall d <- Drifting(accounts, rows) ensures exists k: nat :: RecordAt(d, accounts, rows, k) {
        if d in Drifting(accounts[..n], rows) {
          var k: nat :| RecordAt(d, accounts[..n], rows, k);
          assert RecordAt(d, accounts, rows, k);
        } else {
          assert RecordAt(d, accounts, rows, n);
        }
      }
    }
  }

  lemma {:induction false} DriftingAccountsHaveRecords(accounts: seq<Account>, rows: seq<Row>, k: nat)
    requires k < |accounts|
    requires accounts[k].creditsPosted != CommittedTotal(Credit, rows, accounts[k].id) ||
             accounts[k].debitsPosted != CommittedTotal(Debit, rows, accounts[k].id)
    ensures exists d <- Drifting(accounts, rows) :: RecordOf(d, accounts[k], rows)
  {
    var n := |accounts| - 1;
    if k < n {
      DriftingAccountsHaveRecords(accounts[..n], rows, k);
      var d :| d in Drifting(accounts[..n], rows) && RecordOf(d, accounts[..n][k], rows);
      assert d in Drifting(accounts, rows);
    } else {
      assert RecordOf(Describe(accounts[n], rows), accounts[n], rows);
      assert Drifting(accounts, rows)[|Drifting(accounts, rows)| - 1] == Describe(accounts[n], rows);
    }
  }

  lemma {:induction false} RecordsHaveNoRepeats(accounts: seq<Account>, rows: seq<Row>)
    requires Distinct(accounts)
    ensures forall i, j :: 0 <= i < j < |Drifting(accounts, rows)| ==>
            Drifting(accounts, rows)[i].accountId != Drifting(accounts, rows)[j].accountId
  {
    if accounts != [] {
      var n := |accounts| - 1;
      var head := Drifting(accounts[..n], rows);
      RecordsHaveNoRepeats(accounts[..n], rows);
      RecordsAreOfAccounts(accounts[..n], rows);
      forall i | 0 <= i < |head| ensures head[i].accountId != accounts[n].id {
        assert head[i] in head;
        var k: nat :| RecordAt(head[i], accounts[..n], rows, k);
        assert accounts[..n][k] == accounts[k];
      }
    }
  }

  method RunBalanceDriftCheck(accounts: seq<Account>, rows: seq<Row>) returns (r: Reconciliation)
    ensures r.accountsChecked == |accounts|
    ensures r.driftingAccounts == Drifting(accounts, rows)
    ensures forall d <- r.driftingAccounts :: exists k: nat :: RecordAt(d, accounts, rows, k)
    ensures r.totalCreditDrift == TotalDrift(Credit, accounts, rows)
    ensures r.totalDebitDrift == TotalDrift(Debit, accounts, rows)
    ensures r.clean <==> forall k, side :: 0 <= k < |accounts| ==> Drift(side, accounts[k], rows) == 0
  {
    if |accounts| == 0 {
      return Reconciliation(0, [], 0, 0, true);
    }
    var driftingAccounts: seq<DriftRecord> := [];
    var totalCreditDrift := 0;
    var totalDebitDrift := 0;
    for k := 0 to |accounts|
      invariant driftingAccounts == Drifting(accounts[..k], rows)
      invariant totalCreditDrift == TotalDrift(Credit, accounts[..k], rows)
      invariant totalDebitDrift == TotalDrift(Debit, accounts[..k], rows)
      invariant driftingAccounts == [] <==> forall j :: 0 <= j < k ==> !Drifts(accounts[j], rows)
    {
      var account := accounts[k];
      assert accounts[..k + 1][..k] == accounts[..k];
      var queueCredits := CommittedTotal(Credit, rows, account.id);
      var queueDebits := CommittedTotal(Debit, rows, account.id);
      var creditDrift := account.creditsPosted - queueCredits;
      var debitDrift := account.debitsPosted - queueDebits;
      var absCreditDrift := if creditDrift < 0 then -creditDrift else creditDrift;
      var absDebitDrift := if debitDrift < 0 then -debitDrift else debitDrift;
      if absCreditDrift > 0 || absDebitDrift > 0 {
        driftingAccounts := driftingAccounts + [DriftRecord(account.id,
          account.creditsPosted, queueCredits, creditDrift, account.debitsPosted, queueDebits, debitDrift)];
        totalCreditDrift := totalCreditDrift + absCreditDrift;
        totalDebitDrift := totalDebitDrift + absDebitDrift;
      }
    }
    assert accounts[..|accounts|] == accounts;
    r := Reconciliation(|accounts|, driftingAccounts, totalCreditDrift, totalDebitDrift, |driftingAccounts| == 0);
    forall k, side | 0 <= k < |accounts| && r.clean ensures Drift(side, accounts[k], rows) == 0 {
      assert !Drifts(accounts[k], rows);
      match side case Credit => case Debit =>
    }
    if forall k, side :: 0 <= k < |accounts| ==> Drift(side, accounts[k], rows) == 0 {
      assert forall k :: 0 <= k < |accounts| ==> !Drifts(accounts[k], rows);
    }
    RecordsAreOfAccounts(accounts, rows);
  }

  ghost predicate Clean(w: World) {
    forall k, side :: 0 <= k < |w.accounts| ==> Drift(side, w.accounts[k], w.rows) == 0
  }

  /** In every run the check is clean exactly when, for every account and side, the surplus
      applications of the mirror weighted by their amounts cancel out. */
  lemma {:induction false} CleanExactlyWhenNoSurplus(steps: seq<Step>)
    ensures var w := Run(PaymentQueue.INITIAL, steps);
            Clean(w) <==>
            forall k, side :: 0 <= k < |w.accounts| ==> Surplus(side, w.rows, w.Applied(side), w.accounts[k].id) == 0
  {
    var w := Run(PaymentQueue.INITIAL, steps);
    if Clean(w) {
      forall k, side | 0 <= k < |w.accounts|
        ensures Surplus(side, w.rows, w.Applied(side), w.accounts[k].id) == 0
      {
        DriftExplained(steps, k, side);
        assert Drift(side, w.accounts[k], w.rows) == 0;
      }
    }
    if forall k, side :: 0 <= k < |w.accounts| ==> Surplus(side, w.rows, w.Applied(side), w.accounts[k].id) == 0 {
      forall k, side | 0 <= k < |w.accounts| ensures Drift(side, w.accounts[k], w.rows) == 0 {
        DriftExplained(steps, k, side);
      }
    }
  }

  /** What the report says in every run: there is one record for each account with a surplus on some side and
      for no other, and its drifts are the surpluses: positive when the mirror was updated too often. */
  lemma {:induction false} ReportTellsTheSurpluses(steps: seq<Step>, k: nat)
    requires k < |Run(PaymentQueue.INITIAL, steps).accounts|
    ensures var w := Run(PaymentQueue.INITIAL, steps);
            var account, records := w.accounts[k], Drifting(w.accounts, w.rows);
            var credit := Surplus(Credit, w.rows, w.credited, account.id);
            var debit := Surplus(Debit, w.rows, w.debited, account.id);
            && (credit != 0 || debit != 0 <==> exists d <- records :: d.accountId == account.id)
            && (forall d <- records :: d.accountId == account.id ==>
                  d.creditDrift == credit && d.debitDrift == debit &&
                  d.mirrorCredits == account.creditsPosted && d.mirrorDebits == account.debitsPosted)
            && (forall i, j :: 0 <= i < j < |records| ==> records[i].accountId != records[j].accountId)
  {
    var w := Run(PaymentQueue.INITIAL, steps);
    RunKeepsInv(steps);
    DriftExplained(steps, k, Credit);
    DriftExplained(steps, k, Debit);
    RecordsHaveNoRepeats(w.accounts, w.rows);
    RecordsOfAccount(w.accounts, w.rows, k);
  }

  lemma RecordsOfAccount(accounts: seq<Account>, rows: seq<Row>, k: nat)
    requires Distinct(accounts) && k < |accounts|
    ensures (exists d <- Drifting(accounts, rows) :: d.accountId == accounts[k].id) <==>
            accounts[k].creditsPosted != CommittedTotal(Credit, rows, accounts[k].id) ||
            accounts[k].debitsPosted != CommittedTotal(Debit, rows, accounts[k].id)
    ensures forall d <- Drifting(accounts, rows) :: d.accountId == accounts[k].id ==> RecordOf(d, accounts[k], rows)
  {
    RecordsAreOfAccounts(accounts, rows);
    if accounts[k].creditsPosted != CommittedTotal(Credit, rows, accounts[k].id) ||
       accounts[k].debitsPosted != CommittedTotal(Debit, rows, accounts[k].id)
    {
      DriftingAccountsHaveRecords(accounts, rows, k);
    }
    forall d <- Drifting(accounts, rows) | d.accountId == accounts[k].id ensures RecordAt(d, accounts, rows, k) {
      var j: nat :| RecordAt(d, accounts, rows, j);
      assert accounts[j].id == accounts[k].id;
    }
  }

  /** The sum over all accounts of how far the mirror is off on one side, in either direction. */
  function TotalSurplus(side: Side, accounts: seq<Account>, rows: seq<Row>, applied: multiset<nat>): int {
    if accounts == [] then 0
    else
      var surplus := Surplus(side, rows, applied, accounts[|accounts| - 1].id);
      TotalSurplus(side, accounts[..|accounts| - 1], rows, applied) + (if surplus >= 0 then surplus else -surplus)
  }

  lemma {:induction false} TotalsAddUpSurpluses(side: Side, accounts: seq<Account>, rows: seq<Row>,
                                                applied: multiset<nat>)
    requires forall k :: 0 <= k < |accounts| ==>
             accounts[k].Posted(side) - CommittedTotal(side, rows, accounts[k].id) ==
             Surplus(side, rows, applied, accounts[k].id)
    ensures TotalDrift(side, accounts, rows) == TotalSurplus(side, accounts, rows, applied)
  {
    if accounts != [] {
      TotalsAddUpSurpluses(side, accounts[..|accounts| - 1], rows, applied);
    }
  }

  /** In every run each reported total is the sum of the magnitudes of the surpluses. */
  lemma {:induction false} TotalsTellTheSurpluses(steps: seq<Step>, side: Side)
    ensures var w := Run(PaymentQueue.INITIAL, steps);
            TotalDrift(side, w.accounts, w.rows) == TotalSurplus(side, w.accounts, w.rows, w.Applied(side))
  {
    var w := Run(PaymentQueue.INITIAL, steps);
    forall k | 0 <= k < |w.accounts|
      ensures w.accounts[k].Posted(side) - CommittedTotal(side, w.rows, w.accounts[k].id) ==
              Surplus(side, w.rows, w.Applied(side), w.accounts[k].id)
    {
      DriftExplained(steps, k, side);
    }
    TotalsAddUpSurpluses(side, w.accounts, w.rows, w.Applied(side));
  }

  /** Both totals vanish exactly when no account drifts: nothing cancels between accounts. */
  lemma {:induction false} TotalsVanishExactlyWhenClean(accounts: seq<Account>, rows: seq<Row>)
    ensures TotalDrift(Credit, accounts, rows) == 0 && TotalDrift(Debit, accounts, rows) == 0 <==>
            forall k :: 0 <= k < |accounts| ==> !Drifts(accounts[k], rows)
  {
    if accounts != [] {
      var n := |accounts| - 1;
      TotalsVanishExactlyWhenClean(accounts[..n], rows);
      assert forall k :: 0 <= k < n ==> accounts[..n][k] == accounts[k];
    }
  }

  // ----- Conservation across accounts -----

  function TotalPosted(side: Side, accounts: seq<Account>): int {
    if accounts == [] then 0
    else TotalPosted(side, accounts[..|accounts| - 1]) + accounts[|accounts| - 1].Posted(side)
  }

  /** Amount times effective applications, over all rows. */
  function TotalApplied(rows: seq<Row>, applied: multiset<nat>): int {
    if rows == [] then 0
    else TotalApplied(rows[..|rows| - 1], applied) + rows[|rows| - 1].amount * applied[|rows| - 1]
  }

  function TotalReceived(side: Side, accounts: seq<Account>, rows: seq<Row>, applied: multiset<nat>): int {
    if accounts == [] then 0
    else
      var n := |accounts| - 1;
      TotalReceived(side, accounts[..n], rows, applied) + Received(side, rows, applied, accounts[n].id)
  }

  lemma {:induction false} PostedIsReceived(side: Side, accounts: seq<Account>, rows: seq<Row>, applied: multiset<nat>)
    requires forall k :: 0 <= k < |accounts| ==>
             accounts[k].Posted(side) == Received(side, rows, applied, accounts[k].id)
    ensures TotalPosted(side, accounts) == TotalReceived(side, accounts, rows, applied)
  {
    if accounts != [] {
      PostedIsReceived(side, accounts[..|accounts| - 1], rows, applied);
    }
  }

  lemma {:induction false} LastRowIsReceivedOnce(side: Side, accounts: seq<Account>, rows: seq<Row>,
                                                 applied: multiset<nat>)
    requires Distinct(accounts) && rows != []
    ensures var n := |rows| - 1;
            TotalReceived(side, accounts, rows, applied) ==
            TotalReceived(side, accounts, rows[..n], applied)
            + (if HasAccount(accounts, rows[n].AccountOn(side)) then rows[n].amount * applied[n] else 0)
  {
    var n := |rows| - 1;
    if accounts != [] {
      var m := |accounts| - 1;
      LastRowIsReceivedOnce(side, accounts[..m], rows, applied);
      var id := rows[n].AccountOn(side);
      if HasAccount(accounts[..m], id) {
        var k :| 0 <= k < m && accounts[..m][k].id == id;
        assert accounts[k].id == id && HasAccount(accounts, id);
      } else if accounts[m].id == id {
        assert HasAccount(accounts, id);
      } else {
        assert forall k :: 0 <= k < m ==> accounts[k] == accounts[..m][k];
        assert !HasAccount(accounts, id);
      }
    }
  }

  lemma {:induction false} NothingReceivedFromNoRows(side: Side, accounts: seq<Account>, applied: multiset<nat>)
    ensures TotalReceived(side, accounts, [], applied) == 0
  {
    if accounts != [] {
      NothingReceivedFromNoRows(side, accounts[..|accounts| - 1], applied);
    }
  }

  lemma {:induction false} ReceivedAddsUp(side: Side, accounts: seq<Account>, rows: seq<Row>, applied: multiset<nat>)
    requires Distinct(accounts)
    requires forall i :: 0 <= i < |rows| && i in applied ==> HasAccount(accounts, rows[i].AccountOn(side))
    ensures TotalReceived(side, accounts, rows, applied) == TotalApplied(rows, applied)
  {
    if rows == [] {
      NothingReceivedFromNoRows(side, accounts, applied);
    } else {
      var n := |rows| - 1;
      ReceivedAddsUp(side, accounts, rows[..n], applied);
      LastRowIsReceivedOnce(side, accounts, rows, applied);
      assert n !in applied ==> rows[n].amount * applied[n] == 0;
    }
  }

  /** Conservation in every run: what all accounts together show on a side is the sum over the rows of
      the amount times the effective applications on that side. Debits and credits differ exactly by
      the rows whose two sides were applied a different number of times. */
  lemma {:induction false} MirrorTotals(steps: seq<Step>, side: Side)
    ensures var w := Run(PaymentQueue.INITIAL, steps);
            TotalPosted(side, w.accounts) == TotalApplied(w.rows, w.Applied(side))
  {
    RunKeepsInv(steps);
    var w := Run(PaymentQueue.INITIAL, steps);
    PostedIsReceived(side, w.accounts, w.rows, w.Applied(side));
    ReceivedAddsUp(side, w.accounts, w.rows, w.Applied(side));
  }
}
