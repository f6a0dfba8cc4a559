/** Balances of one account and of the whole account list (types/account.rs). */
module Ledger {
  import opened Keys
  import opened Results
  import opened Types

  // ----- one account

  /** `Account::balance`: the first entry of the asset, or zero. */
  function Balance(balances: seq<AssetBalance>, asset: AssetId): nat {
    if balances == [] then 0
    else if balances[0].asset == asset then balances[0].available
    else Balance(balances[1..], asset)
  }

  /** What an account holds of an asset over all its entries. */
  function EntrySum(balances: seq<AssetBalance>, asset: AssetId): nat {
    if balances == [] then 0
    else (if balances[0].asset == asset then balances[0].available else 0) + EntrySum(balances[1..], asset)
  }

  /** Sorted by asset, no duplicates, no zero balances, all within a u128. */
  ghost predicate CanonicalBalances(balances: seq<AssetBalance>) {
    balances != [] ==>
      && 0 < balances[0].available <= U128_MAX
      && (|balances| > 1 ==> balances[0].asset < balances[1].asset)
      && CanonicalBalances(balances[1..])
  }

  ghost predicate SortedEntries(balances: seq<AssetBalance>) {
    && (forall i, j :: 0 <= i < j < |balances| ==> balances[i].asset < balances[j].asset)
    && (forall i :: 0 <= i < |balances| ==> 0 < balances[i].available <= U128_MAX)
  }

  /** The same, entry by entry and pair by pair. */
  lemma {:induction false} CanonicalMeans(balances: seq<AssetBalance>)
    ensures CanonicalBalances(balances) <==> SortedEntries(balances)
  {
    if balances != [] {
      CanonicalMeans(balances[1..]);
      if CanonicalBalances(balances) {
        forall j | 0 < j < |balances| ensures balances[0].asset < balances[j].asset {
          assert balances[1..][0] == balances[1] && balances[1..][j - 1] == balances[j];
        }
      }
    }
  }

  /** Where the asset is, or where it would be inserted. */
  function AssetPosition(balances: seq<AssetBalance>, asset: AssetId): (i: nat)
    ensures i <= |balances|
    ensures forall k :: 0 <= k < i ==> balances[k].asset < asset
    ensures i < |balances| ==> asset <= balances[i].asset
  {
    if balances == [] || asset <= balances[0].asset then 0 else 1 + AssetPosition(balances[1..], asset)
  }

  function Debit(account: Account, asset: AssetId, amount: nat): (r: Result<Account>)
    ensures r.Ok? ==> r.value.id == account.id && r.value.nextNonce == account.nextNonce
  {
    var balances := account.balances;
    var i := AssetPosition(balances, asset);
    if i == |balances| || balances[i].asset != asset || balances[i].available < amount then
      Err(InsufficientBalance)
    else
      var left := balances[i].available - amount;
      Ok(account.(balances := if left == 0 then balances[..i] + balances[i + 1..]
                              else balances[i := AssetBalance(asset, left)]))
  }

  function Credit(account: Account, asset: AssetId, amount: nat): (r: Result<Account>)
    ensures r.Ok? ==> r.value.id == account.id && r.value.nextNonce == account.nextNonce
  {
    var balances := account.balances;
    var i := AssetPosition(balances, asset);
    if amount == 0 then
      Ok(account)
    else if i < |balances| && balances[i].asset == asset then
      if balances[i].available + amount > U128_MAX then
        Err(ArithmeticOverflow)
      else
        Ok(account.(balances := balances[i := AssetBalance(asset, balances[i].available + amount)]))
    else
      Ok(account.(balances := balances[..i] + [AssetBalance(asset, amount)] + balances[i..]))
  }

  lemma {:induction false} EntrySumAppend(a: seq<AssetBalance>, b: seq<AssetBalance>, asset: AssetId)
    ensures EntrySum(a + b, asset) == EntrySum(a, asset) + EntrySum(b, asset)
  {
    if a == [] {
      assert a + b == b;
    } else {
      EntrySumAppend(a[1..], b, asset);
      assert (a + b)[1..] == a[1..] + b;
    }
  }

  lemma {:induction false} EntrySumAbsent(balances: seq<AssetBalance>, asset: AssetId)
    requires forall i :: 0 <= i < |balances| ==> balances[i].asset != asset
    ensures EntrySum(balances, asset) == 0
  {
    if balances != [] {
      EntrySumAbsent(balances[1..], asset);
    }
  }

  /** One entry taken out of the list. */
  lemma EntrySumAt(balances: seq<AssetBalance>, i: nat, asset: AssetId)
    requires i < |balances|
    ensures EntrySum(balances, asset) ==
            EntrySum(balances[..i], asset) + (if balances[i].asset == asset then balances[i].available else 0)
            + EntrySum(balances[i + 1..], asset)
  {
    EntrySumAppend(balances[..i], balances[i..], asset);
    assert balances == balances[..i] + balances[i..];
    assert balances[i..][1..] == balances[i + 1..];
  }

  /** In canonical form the position decides the balance. */
  lemma CanonicalPosition(balances: seq<AssetBalance>, asset: AssetId)
    requires CanonicalBalances(balances)
    ensures var i := AssetPosition(balances, asset);
            EntrySum(balances, asset) ==
            if i < |balances| && balances[i].asset == asset then balances[i].available else 0
  {
    var i := AssetPosition(balances, asset);
    CanonicalMeans(balances);
    if i < |balances| {
      EntrySumAt(balances, i, asset);
      EntrySumAbsent(balances[i + 1..], asset);
    } else {
      assert balances[..i] == balances;
    }
    EntrySumAbsent(balances[..i], asset);
  }

  lemma {:induction false} BalanceIsSum(balances: seq<AssetBalance>, asset: AssetId)
    requires CanonicalBalances(balances)
    ensures Balance(balances, asset) == EntrySum(balances, asset)
  {
    if balances != [] {
      CanonicalMeans(balances);
      BalanceIsSum(balances[1..], asset);
      if balances[0].asset == asset {
        EntrySumAbsent(balances[1..], asset);
      }
    }
  }

  /** A debit succeeds exactly when the asset is held and covers the amount;
      it then takes that amount from that asset and keeps the form canonical. */
  lemma DebitEffect(account: Account, asset: AssetId, amount: nat)
    requires CanonicalBalances(account.balances)
    ensures Debit(account, asset, amount).Ok? <==>
              EntrySum(account.balances, asset) > 0 && amount <= EntrySum(account.balances, asset)
    ensures Debit(account, asset, amount).Err? ==> Debit(account, asset, amount).error == InsufficientBalance
    ensures Debit(account, asset, amount).Ok? ==>
              var r := Debit(account, asset, amount).value;
              && CanonicalBalances(r.balances)
              && forall x :: EntrySum(r.balances, x) == EntrySum(account.balances, x) - (if x == asset then amount else 0)
  {
    var balances := account.balances;
    var i := AssetPosition(balances, asset);
    CanonicalMeans(balances);
    CanonicalPosition(balances, asset);
    if Debit(account, asset, amount).Ok? {
      if balances[i].available == amount {
        RemoveCanonical(balances, i);
        forall x ensures EntrySum(balances[..i] + balances[i + 1..], x) ==
                         EntrySum(balances, x) - (if x == asset then amount else 0)
        {
          EntrySumAt(balances, i, x);
          EntrySumAppend(balances[..i], balances[i + 1..], x);
        }
      } else {
        UpdateCanonical(balances, i, AssetBalance(asset, balances[i].available - amount));
        UpdateEntry(balances, i, AssetBalance(asset, balances[i].available - amount));
      }
    }
  }

  /** A credit succeeds exactly when the new balance fits; it then adds the
      amount to that asset and keeps the form canonical. */
  lemma CreditEffect(account: Account, asset: AssetId, amount: nat)
    requires CanonicalBalances(account.balances) && amount <= U128_MAX
    ensures Credit(account, asset, amount).Ok? <==>
              amount == 0 || EntrySum(account.balances, asset) + amount <= U128_MAX
    ensures Credit(account, asset, amount).Err? ==> Credit(account, asset, amount).error == ArithmeticOverflow
    ensures Credit(account, asset, amount).Ok? ==>
              var r := Credit(account, asset, amount).value;
              && CanonicalBalances(r.balances)
              && forall x :: EntrySum(r.balances, x) == EntrySum(account.balances, x) + (if x == asset then amount else 0)
  {
    var balances := account.balances;
    CanonicalPosition(balances, asset);
    if amount > 0 && Credit(account, asset, amount).Ok? {
      var i := AssetPosition(balances, asset);
      if i < |balances| && balances[i].asset == asset {
        CreditExisting(balances, i, asset, amount);
      } else {
        CreditNew(balances, i, asset, amount);
      }
    }
  }

  lemma CreditExisting(balances: seq<AssetBalance>, i: nat, asset: AssetId, amount: nat)
    requires CanonicalBalances(balances) && i < |balances| && balances[i].asset == asset
    requires balances[i].available + amount <= U128_MAX
    ensures var r := balances[i := AssetBalance(asset, balances[i].available + amount)];
            && CanonicalBalances(r)
            && forall x :: EntrySum(r, x) == EntrySum(balances, x) + (if x == asset then amount else 0)
  {
    CanonicalMeans(balances);
    UpdateCanonical(balances, i, AssetBalance(asset, balances[i].available + amount));
    UpdateEntry(balances, i, AssetBalance(asset, balances[i].available + amount));
  }

  lemma CreditNew(balances: seq<AssetBalance>, i: nat, asset: AssetId, amount: nat)
    requires CanonicalBalances(balances) && i == AssetPosition(balances, asset)
    requires i < |balances| ==> balances[i].asset != asset
    requires 0 < amount <= U128_MAX
    ensures var r := balances[..i] + [AssetBalance(asset, amount)] + balances[i..];
            && CanonicalBalances(r)
            && forall x :: EntrySum(r, x) == EntrySum(balances, x) + (if x == asset then amount else 0)
  {
    CanonicalMeans(balances);
    InsertCanonical(balances, i, AssetBalance(asset, amount));
    InsertEntry(balances, i, AssetBalance(asset, amount));
  }

  lemma UpdateCanonical(balances: seq<AssetBalance>, i: nat, entry: AssetBalance)
    requires CanonicalBalances(balances) && i < |balances|
    requires entry.asset == balances[i].asset && 0 < entry.available <= U128_MAX
    ensures CanonicalBalances(balances[i := entry])
  {
    CanonicalMeans(balances);
    CanonicalMeans(balances[i := entry]);
    assert forall k :: 0 <= k < |balances| ==> balances[i := entry][k].asset == balances[k].asset;
  }

  lemma {:induction false} InsertCanonical(balances: seq<AssetBalance>, i: nat, entry: AssetBalance)
    requires CanonicalBalances(balances) && i <= |balances| && 0 < entry.available <= U128_MAX
    requires forall k :: 0 <= k < i ==> balances[k].asset < entry.asset
    requires forall k :: i <= k < |balances| ==> entry.asset < balances[k].asset
    ensures CanonicalBalances(balances[..i] + [entry] + balances[i..])
  {
    var r := balances[..i] + [entry] + balances[i..];
    if i == 0 {
      assert r[1..] == balances;
    } else {
      InsertCanonical(balances[1..], i - 1, entry);
      assert r[1..] == balances[1..][..i - 1] + [entry] + balances[1..][i - 1..];
      assert r[0] == balances[0] && r[1] == if i == 1 then entry else balances[1];
    }
  }

  lemma RemoveCanonical(balances: seq<AssetBalance>, i: nat)
    requires CanonicalBalances(balances) && i < |balances|
    ensures CanonicalBalances(balances[..i] + balances[i + 1..])
  {
    var r := balances[..i] + balances[i + 1..];
    CanonicalMeans(balances);
    CanonicalMeans(r);
    assert forall k :: 0 <= k < i ==> r[k] == balances[k];
    assert forall k :: i <= k < |r| ==> r[k] == balances[k + 1];
  }

  lemma UpdateEntry(balances: seq<AssetBalance>, i: nat, entry: AssetBalance)
    requires i < |balances| && entry.asset == balances[i].asset
    ensures forall x :: EntrySum(balances[i := entry], x) ==
              EntrySum(balances, x) + (if x == entry.asset then entry.available - balances[i].available else 0)
  {
    var r := balances[i := entry];
    assert r[..i] == balances[..i] && r[i + 1..] == balances[i + 1..];
    forall x ensures EntrySum(r, x) == EntrySum(balances, x) + (if x == entry.asset then entry.available - balances[i].available else 0) {
      EntrySumAt(r, i, x);
      EntrySumAt(balances, i, x);
    }
  }

  lemma InsertEntry(balances: seq<AssetBalance>, i: nat, entry: AssetBalance)
    requires i <= |balances|
    ensures forall x :: EntrySum(balances[..i] + [entry] + balances[i..], x) ==
              EntrySum(balances, x) + (if x == entry.asset then entry.available else 0)
  {
    var r := balances[..i] + [entry] + balances[i..];
    assert r[..i] == balances[..i] && r[i + 1..] == balances[i..];
    assert balances == balances[..i] + balances[i..];
    forall x ensures EntrySum(r, x) == EntrySum(balances, x) + (if x == entry.asset then entry.available else 0) {
      EntrySumAt(r, i, x);
      EntrySumAppend(balances[..i], balances[i..], x);
    }
  }

  // ----- the account list

  ghost predicate CanonicalAccounts(accounts: seq<Account>) {
    forall i :: 0 <= i < |accounts| ==> CanonicalBalances(accounts[i].balances)
  }

  ghost predicate SameIds(a: seq<Account>, b: seq<Account>) {
    |a| == |b| && forall i :: 0 <= i < |a| ==> a[i].id == b[i].id
  }

  /** Total of one asset over all accounts. */
  function Total(accounts: seq<Account>, asset: AssetId): nat {
    if accounts == [] then 0 else EntrySum(accounts[0].balances, asset) + Total(accounts[1..], asset)
  }

  /** Holding of one account, zero when it does not exist. */
  function Holding(accounts: seq<Account>, id: AccountId, asset: AssetId): nat {
    if accounts == [] then 0
    else if accounts[0].id == id then EntrySum(accounts[0].balances, asset)
    else Holding(accounts[1..], id, asset)
  }

  /** Next nonce of one account, zero when it does not exist. */
  function NextNonce(accounts: seq<Account>, id: AccountId): nat {
    if accounts == [] then 0
    else if accounts[0].id == id then accounts[0].nextNonce
    else NextNonce(accounts[1..], id)
  }

  lemma {:induction false} TotalAppend(a: seq<Account>, b: seq<Account>, asset: AssetId)
    ensures Total(a + b, asset) == Total(a, asset) + Total(b, asset)
  {
    if a == [] {
      assert a + b == b;
    } else {
      TotalAppend(a[1..], b, asset);
      assert (a + b)[1..] == a[1..] + b;
    }
  }

  lemma TotalUpdate(accounts: seq<Account>, i: nat, account: Account, asset: AssetId)
    requires i < |accounts|
    ensures Total(accounts[i := account], asset) ==
            Total(accounts, asset) - EntrySum(accounts[i].balances, asset) + EntrySum(account.balances, asset)
    ensures Total(accounts, asset) >= EntrySum(accounts[i].balances, asset)
  {
    TotalSplit(accounts, i, asset);
    TotalSplit(accounts[i := account], i, asset);
    assert accounts[i := account][..i] == accounts[..i] && accounts[i := account][i + 1..] == accounts[i + 1..];
  }

  lemma TotalSplit(accounts: seq<Account>, i: nat, asset: AssetId)
    requires i < |accounts|
    ensures Total(accounts, asset) ==
            Total(accounts[..i], asset) + EntrySum(accounts[i].balances, asset) + Total(accounts[i + 1..], asset)
  {
    TotalAppend(accounts[..i], accounts[i..], asset);
    assert accounts == accounts[..i] + accounts[i..];
    assert accounts[i..][1..] == accounts[i + 1..];
  }

  lemma TotalInsert(accounts: seq<Account>, i: nat, account: Account, asset: AssetId)
    requires i <= |accounts|
    ensures Total(accounts[..i] + [account] + accounts[i..], asset) ==
            Total(accounts, asset) + EntrySum(account.balances, asset)
  {
    var inserted := accounts[..i] + [account] + accounts[i..];
    TotalSplit(inserted, i, asset);
    assert inserted[..i] == accounts[..i] && inserted[i + 1..] == accounts[i..];
    TotalAppend(accounts[..i], accounts[i..], asset);
    assert accounts == accounts[..i] + accounts[i..];
  }

  /** Reading one account of a list with distinct ids. */
  lemma {:induction false} LookupAt(accounts: seq<Account>, i: nat)
    requires DistinctIds(accounts) && i < |accounts|
    ensures forall asset :: Holding(accounts, accounts[i].id, asset) == EntrySum(accounts[i].balances, asset)
    ensures NextNonce(accounts, accounts[i].id) == accounts[i].nextNonce
  {
    if i > 0 {
      LookupAt(accounts[1..], i - 1);
    }
  }

  lemma {:induction false} LookupAbsent(accounts: seq<Account>, id: AccountId)
    requires forall i :: 0 <= i < |accounts| ==> accounts[i].id != id
    ensures forall asset :: Holding(accounts, id, asset) == 0
    ensures NextNonce(accounts, id) == 0
  {
    if accounts != [] {
      LookupAbsent(accounts[1..], id);
    }
  }

  /** Replacing an account in place changes nothing for the others. */
  lemma {:induction false} LookupUpdate(accounts: seq<Account>, i: nat, account: Account, id: AccountId)
    requires i < |accounts| && account.id == accounts[i].id
    requires DistinctIds(accounts)
    ensures forall asset :: Holding(accounts[i := account], id, asset) ==
              if id == account.id then EntrySum(account.balances, asset) else Holding(accounts, id, asset)
    ensures NextNonce(accounts[i := account], id) == if id == account.id then account.nextNonce else NextNonce(accounts, id)
  {
    if i == 0 {
      assert accounts[0 := account][1..] == accounts[1..];
    } else {
      LookupUpdate(accounts[1..], i - 1, account, id);
      assert accounts[i := account][1..] == accounts[1..][i - 1 := account];
    }
  }

  /** Inserting a new account changes nothing for the others. */
  lemma {:induction false} LookupInsert(accounts: seq<Account>, i: nat, account: Account, id: AccountId)
    requires i <= |accounts|
    requires forall k :: 0 <= k < |accounts| ==> accounts[k].id != account.id
    ensures var inserted := accounts[..i] + [account] + accounts[i..];
            && (forall asset :: Holding(inserted, id, asset) ==
                 if id == account.id then EntrySum(account.balances, asset) else Holding(accounts, id, asset))
            && NextNonce(inserted, id) == if id == account.id then account.nextNonce else NextNonce(accounts, id)
  {
    var inserted := accounts[..i] + [account] + accounts[i..];
    if i == 0 {
      assert inserted == [account] + accounts;
    } else {
      LookupInsert(accounts[1..], i - 1, account, id);
      assert inserted[1..] == accounts[1..][..i - 1] + [account] + accounts[1..][i - 1..];
    }
  }
}
