/** Deposit and balance over the bucket-list map, as the single-threaded pass runs them. */
module SerialBank {
  import opened Banker
  import opened BankTotals
  import SM = SimpleMap

  /** The accounts after a deposit between two that exist. */
  function Moved(accounts: Accounts, d: Deposit): (r: Accounts)
    requires d.src in accounts && d.dst in accounts
    ensures r.Keys == accounts.Keys
    ensures forall key :: key in accounts ==> r[key] == accounts[key] + Delta(d, key)
    ensures d.src == d.dst ==> r == accounts
    ensures d.src != d.dst ==> r == accounts[d.src := accounts[d.src] - d.amount][d.dst := accounts[d.dst] + d.amount]
  {
    var out := accounts[d.src := accounts[d.src] - d.amount];
    out[d.dst := out[d.dst] + d.amount]
  }

  /** The deposit is made when both accounts exist; otherwise, even halfway through, nothing changes. */
  method ApplyDeposit(accounts: SM.SimpleMap, d: Deposit) returns (ok: bool)
    requires accounts.Valid()
    modifies accounts`pairs, accounts.nodes
    ensures accounts.Valid()
    ensures ok <==> d.src in old(accounts.pairs) && d.dst in old(accounts.pairs)
    ensures accounts.pairs == if ok then Moved(old(accounts.pairs), d) else old(accounts.pairs)
  {
    var source, found := accounts.Lookup(d.src);
    if found {
      var updated := accounts.Update(d.src, source - d.amount);
      var target, other := accounts.Lookup(d.dst);
      if other {
        updated := accounts.Update(d.dst, target + d.amount);
        return true;
      }
      updated := accounts.Update(d.src, source);
      assert accounts.pairs == old(accounts.pairs);
    }
    ok := false;
  }

  method Balance(accounts: SM.SimpleMap, range: nat) returns (total: real)
    requires accounts.Valid()
    ensures IsTotal(total, accounts.pairs, range) && total == Sum(accounts.pairs, range)
  {
    total := 0.0;
    var i := 0;
    while i < range
      invariant 0 <= i <= range && total == Sum(accounts.pairs, i)
    {
      var val, found := accounts.Lookup(i);
      total := total + val;
      i := i + 1;
    }
    TotalIsSum(accounts.pairs, range, total);
  }

  lemma {:induction false} SumMoved(accounts: Accounts, d: Deposit, n: nat)
    requires d.src in accounts && d.dst in accounts
    ensures Sum(Moved(accounts, d), n)
              == Sum(accounts, n) + (if d.dst < n then d.amount else 0.0) - (if d.src < n then d.amount else 0.0)
  {
    if n > 0 {
      SumMoved(accounts, d, n - 1);
      assert BalanceOf(Moved(accounts, d), n - 1) == BalanceOf(accounts, n - 1)
                + (if n - 1 in accounts then Delta(d, n - 1) else 0.0);
    }
  }

  /** A deposit leaves the total over the key range as it was. */
  lemma DepositKeepsTotal(accounts: Accounts, d: Deposit, range: nat)
    requires d.src in accounts && d.dst in accounts && d.src < range && d.dst < range
    ensures Sum(Moved(accounts, d), range) == Sum(accounts, range)
  {
    SumMoved(accounts, d, range);
  }
}
