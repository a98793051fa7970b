/** The figures behind the asset list (assetslistmodel.cpp): balances listed by account are
    regrouped by asset.  Amounts are real numbers. */
module Pivot {

  /** An account and its balances, assets in the order the map holds them. */
  datatype AccountInfo = AccountInfo(name: string, balances: seq<Balance>)

  datatype Balance = Balance(asset: string, amount: real)

  /** One balance of one account. */
  datatype Entry = Entry(account: string, asset: string, amount: real)

  type AssetMap = map<string, map<string, real>>

  /** Balances below this are not shown. */
  const DUST := 0.0000001

  function Listed(name: string, balances: seq<Balance>): (es: seq<Entry>)
    ensures |es| == |balances|
  {
    seq(|balances|, k requires 0 <= k < |balances| => Entry(name, balances[k].asset, balances[k].amount))
  }

  /** All balances of all accounts, in order. */
  function Entries(accounts: seq<AccountInfo>): seq<Entry> {
    if accounts == [] then []
    else
      var last := accounts[|accounts| - 1];
      Entries(accounts[..|accounts| - 1]) + Listed(last.name, last.balances)
  }

  lemma ListedAt(name: string, balances: seq<Balance>, k: nat)
    requires k < |balances|
    ensures Listed(name, balances)[k] == Entry(name, balances[k].asset, balances[k].amount)
  {
  }

  lemma EntriesOfOne(x: AccountInfo)
    ensures Entries([]) == [] && Entries([x]) == Listed(x.name, x.balances)
  {
    assert [x][..0] == [];
  }

  lemma {:induction false} EntriesOfParts(a: seq<AccountInfo>, b: seq<AccountInfo>)
    ensures Entries(a + b) == Entries(a) + Entries(b)
  {
    hide Listed;
    if b == [] {
      assert a + b == a;
    } else {
      assert (a + b)[..|a + b| - 1] == a + b[..|b| - 1];
      EntriesOfParts(a, b[..|b| - 1]);
    }
  }

  /** The entry counts for the asset. */
  predicate Counts(e: Entry, asset: string) { e.asset == asset && e.amount >= DUST }

  /** What an account holds of an asset, dust aside. */
  function Held(es: seq<Entry>, asset: string, account: string): real {
    if es == [] then 0.0
    else
      var e := es[|es| - 1];
      Held(es[..|es| - 1], asset, account) + if Counts(e, asset) && e.account == account then e.amount else 0.0
  }

  /** What all accounts together hold of an asset, dust aside. */
  function HeldByAll(es: seq<Entry>, asset: string): real {
    if es == [] then 0.0
    else
      var e := es[|es| - 1];
      HeldByAll(es[..|es| - 1], asset) + if Counts(e, asset) then e.amount else 0.0
  }

  lemma {:induction false} HeldOfParts(p: seq<Entry>, q: seq<Entry>, asset: string, account: string)
    ensures Held(p + q, asset, account) == Held(p, asset, account) + Held(q, asset, account)
    ensures HeldByAll(p + q, asset) == HeldByAll(p, asset) + HeldByAll(q, asset)
  {
    if q == [] {
      assert p + q == p;
    } else {
      assert (p + q)[..|p + q| - 1] == p + q[..|q| - 1];
      HeldOfParts(p, q[..|q| - 1], asset, account);
    }
  }

  /** One turn of the regrouping loop. */
  function Add(m: AssetMap, e: Entry): AssetMap {
    if e.amount < DUST then m
    else
      var balances := if e.asset in m then m[e.asset] else map[];
      m[e.asset := balances[e.account := if e.account in balances then balances[e.account] + e.amount else e.amount]]
  }

  function Regroup(es: seq<Entry>): AssetMap {
    if es == [] then map[] else Add(Regroup(es[..|es| - 1]), es[|es| - 1])
  }

  lemma RegroupNext(es: seq<Entry>, e: Entry)
    ensures Regroup(es + [e]) == Add(Regroup(es), e)
  {
    assert (es + [e])[..|es|] == es;
  }

  /** The regrouping loops of setAccountInfo: over the accounts ... */
  method BuildAssetMap(accounts: seq<AccountInfo>) returns (assetMap: AssetMap)
    ensures assetMap == Regroup(Entries(accounts))
  {
    hide Regroup;
    assetMap := map[];
    RegroupNothing();
    for i := 0 to |accounts|
      invariant assetMap == Regroup(Entries(accounts[..i]))
    {
      assetMap := AddAccount(assetMap, accounts[i], Entries(accounts[..i]));
      assert accounts[..i + 1][..i] == accounts[..i];
    }
    assert accounts[..|accounts|] == accounts;
  }

  lemma RegroupNothing()
    ensures Regroup([]) == map[] && Entries([]) == []
  {
  }

  /** ... and over the balances of one. */
  method AddAccount(soFar: AssetMap, account: AccountInfo, ghost before: seq<Entry>) returns (assetMap: AssetMap)
    requires soFar == Regroup(before)
    ensures assetMap == Regroup(before + Listed(account.name, account.balances))
  {
    hide Regroup;
    assetMap := soFar;
    var accountName, balances := account.name, account.balances;
    ghost var all := Listed(accountName, balances);
    assert before + all[..0] == before;
    for j := 0 to |balances|
      invariant assetMap == Regroup(before + all[..j])
    {
      RegroupNext(before + all[..j], all[j]);
      assert before + all[..j + 1] == (before + all[..j]) + [all[j]];
      var assetName, balance := balances[j].asset, balances[j].amount;
      if balance < DUST {
        continue;
      }
      var held: map<string, real> := map[];
      if assetName in assetMap {
        held := assetMap[assetName];
      }
      if accountName in held {
        held := held[accountName := held[accountName] + balance];
      } else {
        held := held[accountName := balance];
      }
      assetMap := assetMap[assetName := held];
    }
    assert all[..|balances|] == all;
  }

  /** An account is listed under an asset exactly when it has a balance of it that is not dust. */
  ghost predicate Lists(es: seq<Entry>, asset: string, account: string) {
    exists k :: 0 <= k < |es| && Counts(es[k], asset) && es[k].account == account
  }

  lemma ListsNext(es: seq<Entry>, asset: string, account: string)
    requires es != []
    ensures var e := es[|es| - 1];
            Lists(es, asset, account) <==>
            Lists(es[..|es| - 1], asset, account) || (Counts(e, asset) && e.account == account)
  {
    var r := es[..|es| - 1];
    if Lists(r, asset, account) {
      var k :| 0 <= k < |r| && Counts(r[k], asset) && r[k].account == account;
      assert es[k] == r[k];
    }
    if k :| 0 <= k < |es| && Counts(es[k], asset) && es[k].account == account {
      assert k < |r| ==> r[k] == es[k];
    }
  }

  /** The map has the assets and accounts with a balance that is not dust, and under them what
      they hold. */
  lemma {:induction false} RegroupHolds(es: seq<Entry>, asset: string, account: string)
    ensures var m := Regroup(es);
            && (asset in m && account in m[asset] <==> Lists(es, asset, account))
            && (asset in m && account in m[asset] ==> m[asset][account] == Held(es, asset, account))
            && (!Lists(es, asset, account) ==> Held(es, asset, account) == 0.0)
            && (asset in m ==> m[asset] != map[])
  {
    if es != [] {
      RegroupHolds(es[..|es| - 1], asset, account);
      ListsNext(es, asset, account);
    }
  }

  /** What the accounts of a list hold of an asset. */
  function HeldBy(es: seq<Entry>, asset: string, ks: seq<string>): real {
    if ks == [] then 0.0 else HeldBy(es, asset, ks[..|ks| - 1]) + Held(es, asset, ks[|ks| - 1])
  }

  predicate Distinct(ks: seq<string>) { forall i, j :: 0 <= i < j < |ks| ==> ks[i] != ks[j] }

  /** Summing first within each account and then over the accounts loses nothing and counts
      nothing twice. */
  lemma {:induction false} SumByAccount(es: seq<Entry>, asset: string, ks: seq<string>)
    requires Distinct(ks) && forall a :: Lists(es, asset, a) ==> a in ks
    ensures HeldBy(es, asset, ks) == HeldByAll(es, asset)
  {
    if es == [] {
      NobodyHolds(asset, ks);
    } else {
      var r, e := es[..|es| - 1], es[|es| - 1];
      forall a | Lists(r, asset, a) ensures a in ks {
        ListsNext(es, asset, a);
      }
      SumByAccount(r, asset, ks);
      if Counts(e, asset) {
        ListsNext(es, asset, e.account);
      }
      OneMoreEntry(es, asset, ks);
    }
  }

  lemma {:induction false} NobodyHolds(asset: string, ks: seq<string>)
    ensures HeldBy([], asset, ks) == 0.0
  {
    if ks != [] {
      NobodyHolds(asset, ks[..|ks| - 1]);
    }
  }

  lemma {:induction false} OneMoreEntry(es: seq<Entry>, asset: string, ks: seq<string>)
    requires es != [] && Distinct(ks)
    ensures var r, e := es[..|es| - 1], es[|es| - 1];
            HeldBy(es, asset, ks) ==
            HeldBy(r, asset, ks) + if Counts(e, asset) && e.account in ks then e.amount else 0.0
  {
    if ks != [] {
      OneMoreEntry(es, asset, ks[..|ks| - 1]);
    }
  }
}
