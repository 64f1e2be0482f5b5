/**
 * The account service's read operations over the bank-account rows the
 * repository returns. Balances are BigDecimal amounts of scale 2, modelled
 * as whole numbers of minor units; a NULL balance column is None.
 */
module AccountService {
  import opened Wrappers

  datatype BankAccount = BankAccount(
    id: string,
    accountNumber: string,
    accountName: string,
    bankCode: string,
    bankName: string,
    accountType: string,
    balance: Option<int>,
    currency: Option<string>,
    status: Option<string>,
    createdAt: Option<string>,
    updatedAt: Option<string>)

  datatype BankAccountResponse = BankAccountResponse(
    id: string,
    accountNumber: string,
    accountName: string,
    bankCode: string,
    bankName: string,
    accountType: string,
    balance: Option<int>,
    currency: Option<string>,
    status: Option<string>,
    createdAt: Option<string>,
    updatedAt: Option<string>)

  datatype AccountBalance = AccountBalance(
    accountNumber: string,
    accountName: string,
    bankCode: string,
    bankName: string,
    balance: Option<int>,
    currency: Option<string>)

  datatype BalanceSummary = BalanceSummary(totalAccounts: nat, totalBalance: int, currency: Option<string>, accounts: seq<AccountBalance>)

  /** `mapToResponse` */
  function MapToResponse(a: BankAccount): BankAccountResponse {
    BankAccountResponse(a.id, a.accountNumber, a.accountName, a.bankCode, a.bankName, a.accountType,
                        a.balance, a.currency, a.status, a.createdAt, a.updatedAt)
  }

  /** `getAllAccounts`: one response per row, in repository order. */
  function GetAllAccounts(accounts: seq<BankAccount>): (r: seq<BankAccountResponse>)
    ensures |r| == |accounts|
    ensures forall i :: 0 <= i < |r| ==> r[i] == MapToResponse(accounts[i])
    decreases |accounts|
  {
    if accounts == [] then [] else [MapToResponse(accounts[0])] + GetAllAccounts(accounts[1..])
  }

  /** Every field of a row reaches its response unchanged. */
  lemma MapToResponseCopies(a: BankAccount)
    ensures var r := MapToResponse(a);
            r.id == a.id && r.accountNumber == a.accountNumber && r.accountName == a.accountName
            && r.bankCode == a.bankCode && r.bankName == a.bankName && r.accountType == a.accountType
            && r.balance == a.balance && r.currency == a.currency && r.status == a.status
            && r.createdAt == a.createdAt && r.updatedAt == a.updatedAt
  {
  }

  /** `findByStatus("ACTIVE")`, keeping repository order. */
  function Active(accounts: seq<BankAccount>): (r: seq<BankAccount>)
    ensures |r| <= |accounts|
    decreases |accounts|
  {
    if accounts == [] then []
    else (if accounts[0].status == Some("ACTIVE") then [accounts[0]] else []) + Active(accounts[1..])
  }

  /** The active rows are exactly the rows whose status is "ACTIVE". */
  lemma {:induction false} ActiveComplete(accounts: seq<BankAccount>)
    ensures forall x :: x in Active(accounts) <==> x in accounts && x.status == Some("ACTIVE")
    decreases |accounts|
  {
    if accounts != [] {
      ActiveComplete(accounts[1..]);
      var head := if accounts[0].status == Some("ACTIVE") then [accounts[0]] else [];
      assert Active(accounts) == head + Active(accounts[1..]);
      forall x | x in accounts && x.status == Some("ACTIVE") ensures x in Active(accounts) {
        if x != accounts[0] {
          assert x in accounts[1..];
        }
      }
    }
  }

  /** `reduce(BigDecimal.ZERO, BigDecimal::add)` as the stream runs it: left to right; a null balance stops it. */
  function ReduceBalances(acc: int, accounts: seq<BankAccount>): Option<int>
    decreases |accounts|
  {
    if accounts == [] then Some(acc)
    else if accounts[0].balance.None? then None
    else ReduceBalances(acc + accounts[0].balance.value, accounts[1..])
  }

  /** The reference: the sum of the balances, all of them present. */
  predicate AllBalancesPresent(accounts: seq<BankAccount>) {
    forall i :: 0 <= i < |accounts| ==> accounts[i].balance.Some?
  }

  function Total(accounts: seq<BankAccount>): int
    requires AllBalancesPresent(accounts)
    decreases |accounts|
  {
    if accounts == [] then 0 else accounts[0].balance.value + Total(accounts[1..])
  }

  lemma {:induction false} ReduceIsTotal(acc: int, accounts: seq<BankAccount>)
    ensures ReduceBalances(acc, accounts).Some? <==> AllBalancesPresent(accounts)
    ensures AllBalancesPresent(accounts) ==> ReduceBalances(acc, accounts) == Some(acc + Total(accounts))
    decreases |accounts|
  {
    if accounts != [] {
      ReduceIsTotal(acc + accounts[0].balance.GetOr(0), accounts[1..]);
      if accounts[0].balance.Some? && !AllBalancesPresent(accounts) {
        var i :| 0 <= i < |accounts| && accounts[i].balance.None?;
        assert accounts[1..][i - 1] == accounts[i];
      }
      if AllBalancesPresent(accounts) {
        assert AllBalancesPresent(accounts[1..]) by {
          forall i | 0 <= i < |accounts[1..]| ensures accounts[1..][i].balance.Some? {
            assert accounts[1..][i] == accounts[i + 1];
          }
        }
      }
    }
  }

  /** The total over two groups of accounts is the sum of their totals. */
  lemma {:induction false} TotalAppend(a: seq<BankAccount>, b: seq<BankAccount>)
    requires AllBalancesPresent(a) && AllBalancesPresent(b)
    ensures AllBalancesPresent(a + b) && Total(a + b) == Total(a) + Total(b)
    decreases |a|
  {
    assert AllBalancesPresent(a + b) by {
      forall i | 0 <= i < |a + b| ensures (a + b)[i].balance.Some? {
        if i >= |a| { assert (a + b)[i] == b[i - |a|]; }
      }
    }
    if a != [] {
      assert (a + b)[0] == a[0];
      assert (a + b)[1..] == a[1..] + b;
      assert AllBalancesPresent(a[1..]) by {
        forall i | 0 <= i < |a[1..]| ensures a[1..][i].balance.Some? {
          assert a[1..][i] == a[i + 1];
        }
      }
      TotalAppend(a[1..], b);
    } else {
      assert a + b == b;
    }
  }

  function ToAccountBalance(a: BankAccount): AccountBalance {
    AccountBalance(a.accountNumber, a.accountName, a.bankCode, a.bankName, a.balance, a.currency)
  }

  /**
   * `getBalanceFromAllAccounts` over the rows of the repository: None when an
   * active row has a NULL balance (the reduction throws).
   */
  function GetBalanceFromAllAccounts(accounts: seq<BankAccount>): (r: Option<BalanceSummary>)
    ensures r.Some? <==> AllBalancesPresent(Active(accounts))
    ensures r.Some? ==> r.value.totalBalance == Total(Active(accounts)) && r.value.totalAccounts == |Active(accounts)|
    ensures r.Some? ==> |r.value.accounts| == |Active(accounts)|
                        && forall i :: 0 <= i < |Active(accounts)| ==>
                             var e, a := r.value.accounts[i], Active(accounts)[i];
                             e.accountNumber == a.accountNumber && e.accountName == a.accountName
                             && e.bankCode == a.bankCode && e.bankName == a.bankName
                             && e.balance == a.balance && e.currency == a.currency
    ensures r.Some? ==> r.value.currency == if Active(accounts) == [] then Some("IDR") else Active(accounts)[0].currency
  {
    var active := Active(accounts);
    ReduceIsTotal(0, active);
    var total := ReduceBalances(0, active);
    if total.None? then None
    else
      var balances := seq(|active|, i requires 0 <= i < |active| => ToAccountBalance(active[i]));
      var currency := if active == [] then Some("IDR") else active[0].currency;
      Some(BalanceSummary(|active|, total.value, currency, balances))
  }

  /** Rows that are not active never change the summary. */
  lemma {:induction false} InactiveRowsIgnored(accounts: seq<BankAccount>, row: BankAccount)
    requires row.status != Some("ACTIVE")
    ensures GetBalanceFromAllAccounts(accounts + [row]) == GetBalanceFromAllAccounts(accounts)
  {
    ActiveSnoc(accounts, row);
    assert Active(accounts) + [] == Active(accounts);
  }

  lemma {:induction false} ActiveSnoc(accounts: seq<BankAccount>, row: BankAccount)
    ensures Active(accounts + [row]) == Active(accounts) + (if row.status == Some("ACTIVE") then [row] else [])
    decreases |accounts|
  {
    if accounts == [] {
      assert accounts + [row] == [row];
    } else {
      var r := accounts + [row];
      assert r[0] == accounts[0];
      assert r[1..] == accounts[1..] + [row];
      ActiveSnoc(accounts[1..], row);
      var head := if accounts[0].status == Some("ACTIVE") then [accounts[0]] else [];
      var tail := if row.status == Some("ACTIVE") then [row] else [];
      assert Active(r) == head + Active(r[1..]);
      assert Active(accounts) == head + Active(accounts[1..]);
      assert head + (Active(accounts[1..]) + tail) == (head + Active(accounts[1..])) + tail;
    }
  }
}
