/**
 What the total of the accounts is, and what the ledger has posted to
 one: by their laws, not by how they are computed.
 */
module BankTotals {
  import opened Banker
  import opened BankerSteps

  /** Running totals over the accounts below n, one after the other, from zero. */
  ghost predicate RunningTotals(sums: seq<real>, accounts: Accounts, n: nat) {
    && |sums| == n + 1 && sums[0] == 0.0
    && forall i :: 0 <= i < n ==> sums[i + 1] == if i in accounts then sums[i] + accounts[i] else sums[i]
  }

  ghost predicate IsTotal(total: real, accounts: Accounts, n: nat) {
    exists sums: seq<real> :: RunningTotals(sums, accounts, n) && sums[n] == total
  }

  lemma {:induction false} RunningIsSum(sums: seq<real>, accounts: Accounts, n: nat, k: nat)
    requires RunningTotals(sums, accounts, n) && k <= n
    ensures sums[k] == Sum(accounts, k)
  {
    if k > 0 { RunningIsSum(sums, accounts, n, k - 1); }
  }

  /** There is one total, and it is the sum. */
  lemma TotalIsSum(accounts: Accounts, n: nat, total: real)
    ensures IsTotal(total, accounts, n) <==> total == Sum(accounts, n)
  {
    var sums := seq(n + 1, i requires 0 <= i <= n => Sum(accounts, i));
    assert RunningTotals(sums, accounts, n);
    if IsTotal(total, accounts, n) {
      var others: seq<real> :| RunningTotals(others, accounts, n) && others[n] == total;
      RunningIsSum(others, accounts, n, n);
    }
  }

  lemma {:induction false} SumOfNone(accounts: Accounts, n: nat)
    requires forall k: int :: 0 <= k < n ==> k !in accounts
    ensures Sum(accounts, n) == 0.0
  {
    if n > 0 { SumOfNone(accounts, n - 1); }
  }

  /** No accounts, no money. */
  lemma TotalOfNone(accounts: Accounts, n: nat, total: real)
    requires forall k: int :: 0 <= k < n ==> k !in accounts
    ensures IsTotal(total, accounts, n) <==> total == 0.0
  {
    SumOfNone(accounts, n);
    TotalIsSum(accounts, n, total);
  }

  lemma {:induction false} SumWithOneMore(accounts: Accounts, k: nat, v: real, n: nat)
    requires k !in accounts
    ensures Sum(accounts[k := v], n) == if k < n then Sum(accounts, n) + v else Sum(accounts, n)
  {
    if n > 0 { SumWithOneMore(accounts, k, v, n - 1); }
  }

  /** One account more, and the total is more by exactly what it holds. */
  lemma TotalWithOneMore(accounts: Accounts, k: nat, v: real, n: nat, total: real)
    requires k !in accounts && k < n
    ensures IsTotal(total, accounts, n) <==> IsTotal(total + v, accounts[k := v], n)
  {
    SumWithOneMore(accounts, k, v, n);
    TotalIsSum(accounts, n, total);
    TotalIsSum(accounts[k := v], n, total + v);
  }

  /** So accounts of v each, from 0 to n - 1, have n times v: ten of 100 make 1000. */
  lemma {:induction false} TotalOfEqual(accounts: Accounts, v: real, n: nat)
    requires forall k: int :: 0 <= k < n ==> k in accounts && accounts[k] == v
    ensures IsTotal(n as real * v, accounts, n)
  {
    EqualSum(accounts, v, n);
    TotalIsSum(accounts, n, n as real * v);
  }

  lemma OneTimeMore(m: real, v: real)
    ensures (m + 1.0) * v == m * v + v
  {
  }

  lemma {:induction false} EqualSum(accounts: Accounts, v: real, n: nat)
    requires forall k: int :: 0 <= k < n ==> k in accounts && accounts[k] == v
    ensures Sum(accounts, n) == n as real * v
  {
    if n > 0 {
      EqualSum(accounts, v, n - 1);
      OneTimeMore((n - 1) as real, v);
    }
  }

  /** A posting takes the amount from its source and gives it to its target, and an empty ledger has posted nothing. */
  lemma LedgerLaws(ledger: seq<Deposit>, d: Deposit)
    ensures forall key: int :: Net([], key) == 0.0
    ensures d.src != d.dst ==>
              && Net(ledger + [d], d.src) == Net(ledger, d.src) - d.amount
              && Net(ledger + [d], d.dst) == Net(ledger, d.dst) + d.amount
    ensures forall key: int :: (key != d.src && key != d.dst) || d.src == d.dst ==>
              Net(ledger + [d], key) == Net(ledger, key)
  {
    forall key: int ensures Net(ledger + [d], key) == Net(ledger, key) + Delta(d, key) { NetOneMore(ledger, d, key); }
  }
}
