/** How the asset list's figures relate to the accounts it was built from, and what toggling does
    over any number of clicks. */
module AssetsProperties {
  import opened Pivot
  import opened NameOrder
  import opened DisplayList
  import opened AssetItems

  function SumBalances(f: seq<ChildFigures>): real {
    if f == [] then 0.0 else SumBalances(f[..|f| - 1]) + f[|f| - 1].balance
  }

  /** The row's balance is what all accounts together hold of the asset, and what its children
      show; the children are the accounts that hold some, with what they hold. */
  ghost predicate RowMatches(row: ItemFigures, es: seq<Entry>, unitPrice: real) {
    && row.balance == HeldByAll(es, row.assetName) && row.balance == SumBalances(row.children)
    && row.price == Priced(row.balance, unitPrice)
    && Distinct(AccountNames(row.children))
    && (forall account :: account in AccountNames(row.children) <==> Lists(es, row.assetName, account))
    && forall k :: 0 <= k < |row.children| ==>
         && row.children[k].balance == Held(es, row.assetName, row.children[k].accountName)
         && row.children[k].price == Priced(row.children[k].balance, unitPrice)
  }

  ghost predicate HasRow(f: seq<ItemFigures>, asset: string) {
    exists i :: 0 <= i < |f| && f[i].assetName == asset
  }

  ghost predicate SomebodyHolds(es: seq<Entry>, asset: string) {
    exists account :: Lists(es, asset, account)
  }

  /** A list built from the accounts has a row for an asset exactly when some account has a balance
      of it that is not dust, and its rows match the accounts. */
  lemma RowsMatchAccounts(f: seq<ItemFigures>, es: seq<Entry>, unitPrice: string -> real)
    requires Holdings(f, Regroup(es), unitPrice)
    ensures forall asset :: HasRow(f, asset) <==> SomebodyHolds(es, asset)
    ensures forall i :: 0 <= i < |f| ==> RowMatches(f[i], es, unitPrice(f[i].assetName))
  {
    hide RowMatches, ItemBuilt, Lists, Regroup;
    forall asset ensures HasRow(f, asset) <==> SomebodyHolds(es, asset) {
      AssetListed(es, asset);
    }
    forall i | 0 <= i < |f| ensures RowMatches(f[i], es, unitPrice(f[i].assetName)) {
      BuiltRowMatches(f[i], es, unitPrice(f[i].assetName));
    }
  }

  lemma AssetListed(es: seq<Entry>, asset: string)
    ensures asset in Regroup(es) <==> SomebodyHolds(es, asset)
  {
    hide Regroup, Lists;
    if asset in Regroup(es) {
      RegroupHolds(es, asset, "");
      var account :| account in Regroup(es)[asset];
      RegroupHolds(es, asset, account);
    }
    if account :| Lists(es, asset, account) {
      RegroupHolds(es, asset, account);
    }
  }

  lemma BuiltRowMatches(row: ItemFigures, es: seq<Entry>, unitPrice: real)
    requires row.assetName in Regroup(es)
    requires ItemBuilt(row, row.assetName, Regroup(es)[row.assetName], unitPrice)
    ensures RowMatches(row, es, unitPrice)
  {
    hide Regroup, Lists, Priced;
    var asset, m, ks := row.assetName, Regroup(es)[row.assetName], AccountNames(row.children);
    forall account ensures account in ks <==> Lists(es, asset, account) {
      RegroupHolds(es, asset, account);
    }
    forall k | 0 <= k < |ks| ensures row.children[k].balance == Held(es, asset, ks[k]) {
      RegroupHolds(es, asset, ks[k]);
      assert ks[k] in m;
    }
    SumsAgree(row.children, es, asset, m);
    SumByAccount(es, asset, ks);
  }

  /** Summing the children, their keys in the map, and what their accounts hold is all the same. */
  lemma {:induction false} SumsAgree(f: seq<ChildFigures>, es: seq<Entry>, asset: string, m: map<string, real>)
    requires forall k :: k in AccountNames(f) ==> k in m
    requires forall k :: 0 <= k < |f| ==>
               && f[k].accountName in m && f[k].balance == m[f[k].accountName]
               && f[k].balance == Held(es, asset, f[k].accountName)
    ensures SumKeys(m, AccountNames(f)) == SumBalances(f) == HeldBy(es, asset, AccountNames(f))
  {
    if f != [] {
      var n := |f| - 1;
      assert AccountNames(f)[..n] == AccountNames(f[..n]);
      assert AccountNames(f)[n] == f[n].accountName;
      assert forall k :: k in AccountNames(f[..n]) ==> k in AccountNames(f);
      SumsAgree(f[..n], es, asset, m);
    }
  }

  // ---------- the rows, said of the accounts ----------

  /** A balance that is shown under the asset. */
  predicate Shown(b: Balance, asset: string) { b.asset == asset && b.amount >= 0.0000001 }

  ghost predicate AccountHolds(x: AccountInfo, asset: string) {
    exists k :: 0 <= k < |x.balances| && Shown(x.balances[k], asset)
  }

  /** Sum of the balances shown under the asset. */
  function SumShown(balances: seq<Balance>, asset: string): real {
    if balances == [] then 0.0
    else
      var b := balances[|balances| - 1];
      SumShown(balances[..|balances| - 1], asset) + if Shown(b, asset) then b.amount else 0.0
  }

  /** The same over all accounts, or over those of one name. */
  function SumOver(accounts: seq<AccountInfo>, asset: string): real {
    if accounts == [] then 0.0
    else SumOver(accounts[..|accounts| - 1], asset) + SumShown(accounts[|accounts| - 1].balances, asset)
  }

  function SumNamed(accounts: seq<AccountInfo>, asset: string, name: string): real {
    if accounts == [] then 0.0
    else
      var x := accounts[|accounts| - 1];
      SumNamed(accounts[..|accounts| - 1], asset, name) + if x.name == name then SumShown(x.balances, asset) else 0.0
  }

  lemma {:induction false} ListedSums(name: string, balances: seq<Balance>, asset: string, account: string)
    ensures HeldByAll(Listed(name, balances), asset) == SumShown(balances, asset)
    ensures Held(Listed(name, balances), asset, account) == if name == account then SumShown(balances, asset) else 0.0
  {
    if balances != [] {
      var front := balances[..|balances| - 1];
      assert Listed(name, balances)[..|balances| - 1] == Listed(name, front);
      ListedSums(name, front, asset, account);
    }
  }

  lemma {:induction false} EntriesSums(accounts: seq<AccountInfo>, asset: string, account: string)
    ensures HeldByAll(Entries(accounts), asset) == SumOver(accounts, asset)
    ensures Held(Entries(accounts), asset, account) == SumNamed(accounts, asset, account)
  {
    hide Listed, HeldByAll, Held, SumShown;
    if accounts == [] {
      NothingHeld(asset, account);
    } else {
      var front, x := accounts[..|accounts| - 1], accounts[|accounts| - 1];
      EntriesSums(front, asset, account);
      HeldOfParts(Entries(front), Listed(x.name, x.balances), asset, account);
      ListedSums(x.name, x.balances, asset, account);
    }
  }

  lemma NothingHeld(asset: string, account: string)
    ensures HeldByAll([], asset) == 0.0 && Held([], asset, account) == 0.0
  {
  }

  /** An account is listed exactly if one of its name holds the asset. */
  lemma {:induction false} ListsIff(accounts: seq<AccountInfo>, asset: string, account: string)
    ensures Lists(Entries(accounts), asset, account) <==>
            exists i :: 0 <= i < |accounts| && accounts[i].name == account && AccountHolds(accounts[i], asset)
  {
    hide Lists, AccountHolds;
    if accounts == [] {
      NothingListed(asset, account);
    } else {
      var n := |accounts| - 1;
      var front, x := accounts[..n], accounts[n];
      ListsIff(front, asset, account);
      ListsOfParts(Entries(front), Listed(x.name, x.balances), asset, account);
      ListedListsIff(x, asset, account);
      if i :| 0 <= i < n && front[i].name == account && AccountHolds(front[i], asset) {
        assert accounts[i] == front[i];
      }
      if i :| 0 <= i < |accounts| && accounts[i].name == account && AccountHolds(accounts[i], asset) {
        assert i < n ==> front[i] == accounts[i];
      }
    }
  }

  lemma NothingListed(asset: string, account: string)
    ensures !Lists([], asset, account)
  {
  }

  lemma ListsOfParts(p: seq<Entry>, q: seq<Entry>, asset: string, account: string)
    ensures Lists(p + q, asset, account) <==> Lists(p, asset, account) || Lists(q, asset, account)
  {
    if k :| 0 <= k < |p| && Counts(p[k], asset) && p[k].account == account {
      assert (p + q)[k] == p[k];
    }
    if k :| 0 <= k < |q| && Counts(q[k], asset) && q[k].account == account {
      assert (p + q)[|p| + k] == q[k];
    }
    if k :| 0 <= k < |p + q| && Counts((p + q)[k], asset) && (p + q)[k].account == account {
      assert (p + q)[k] == if k < |p| then p[k] else q[k - |p|];
    }
  }

  lemma ListedListsIff(x: AccountInfo, asset: string, account: string)
    ensures Lists(Listed(x.name, x.balances), asset, account) <==> x.name == account && AccountHolds(x, asset)
  {
    var es := Listed(x.name, x.balances);
    if k :| 0 <= k < |es| && Counts(es[k], asset) && es[k].account == account {
      assert Shown(x.balances[k], asset);
    }
    if x.name == account && AccountHolds(x, asset) {
      var k :| 0 <= k < |x.balances| && Shown(x.balances[k], asset);
      assert Counts(es[k], asset);
    }
  }

  /** The accounts of a name together hold what the child shows, and it is worth that much. */
  ghost predicate ChildShows(child: ChildFigures, asset: string, accounts: seq<AccountInfo>, unitPrice: real) {
    && child.level == 2 && child.assetName == asset
    && (exists i :: 0 <= i < |accounts| && accounts[i].name == child.accountName && AccountHolds(accounts[i], asset))
    && child.balance == SumNamed(accounts, asset, child.accountName)
    && child.price == if unitPrice < 0.0 then -1.0 else child.balance * unitPrice
  }

  /** Every account that holds some of the asset has its child, and only one. */
  ghost predicate ChildrenCover(children: seq<ChildFigures>, asset: string, accounts: seq<AccountInfo>) {
    && (forall i, j :: 0 <= i < j < |children| ==> children[i].accountName != children[j].accountName)
    && (forall i :: 0 <= i < |accounts| && AccountHolds(accounts[i], asset) ==>
          exists k :: 0 <= k < |children| && children[k].accountName == accounts[i].name)
  }

  /** A row shows what the accounts hold of its asset and what that is worth, and its children do
      the same for each name of an account that holds some. */
  ghost predicate RowShows(row: ItemFigures, accounts: seq<AccountInfo>, unitPrice: real) {
    && row.level == 1 && row.balance == SumOver(accounts, row.assetName)
    && row.price == (if unitPrice < 0.0 then -1.0 else row.balance * unitPrice)
    && ChildrenCover(row.children, row.assetName, accounts)
    && forall k :: 0 <= k < |row.children| ==> ChildShows(row.children[k], row.assetName, accounts, unitPrice)
  }

  /** A list built from the accounts has a row for an asset exactly if some account has a balance of
      it of at least 0.0000001, and its rows show just those balances. */
  lemma RowsShowAccounts(f: seq<ItemFigures>, accounts: seq<AccountInfo>, unitPrice: string -> real)
    requires Holdings(f, Regroup(Entries(accounts)), unitPrice)
    ensures forall asset :: HasRow(f, asset) <==> exists i :: 0 <= i < |accounts| && AccountHolds(accounts[i], asset)
    ensures forall i :: 0 <= i < |f| ==> RowShows(f[i], accounts, unitPrice(f[i].assetName))
  {
    hide RowMatches, RowShows, Regroup, Entries, AccountHolds, Lists;
    var es := Entries(accounts);
    RowsMatchAccounts(f, es, unitPrice);
    forall asset
      ensures SomebodyHolds(es, asset) <==> exists i :: 0 <= i < |accounts| && AccountHolds(accounts[i], asset)
    {
      SomebodyIff(accounts, asset);
    }
    forall i | 0 <= i < |f| ensures RowShows(f[i], accounts, unitPrice(f[i].assetName)) {
      MatchingRowShows(f[i], accounts, unitPrice(f[i].assetName));
    }
  }

  lemma SomebodyIff(accounts: seq<AccountInfo>, asset: string)
    ensures SomebodyHolds(Entries(accounts), asset) <==>
            exists i :: 0 <= i < |accounts| && AccountHolds(accounts[i], asset)
  {
    hide Lists, Entries, AccountHolds;
    if account :| Lists(Entries(accounts), asset, account) {
      ListsIff(accounts, asset, account);
    }
    if i :| 0 <= i < |accounts| && AccountHolds(accounts[i], asset) {
      ListsIff(accounts, asset, accounts[i].name);
    }
  }

  lemma MatchingRowShows(row: ItemFigures, accounts: seq<AccountInfo>, unitPrice: real)
    requires row.assetName in Regroup(Entries(accounts))
    requires ItemBuilt(row, row.assetName, Regroup(Entries(accounts))[row.assetName], unitPrice)
    requires RowMatches(row, Entries(accounts), unitPrice)
    ensures RowShows(row, accounts, unitPrice)
  {
    hide Regroup, Entries, ChildrenBuilt, ChildShows, ChildrenCover, SumOver;
    EntriesSums(accounts, row.assetName, "");
    MatchingCovers(row, accounts, unitPrice);
    forall k | 0 <= k < |row.children| ensures ChildShows(row.children[k], row.assetName, accounts, unitPrice) {
      MatchingChildShows(row, accounts, unitPrice, k);
    }
  }

  lemma MatchingCovers(row: ItemFigures, accounts: seq<AccountInfo>, unitPrice: real)
    requires RowMatches(row, Entries(accounts), unitPrice)
    ensures ChildrenCover(row.children, row.assetName, accounts)
  {
    hide Entries, Lists, AccountHolds, Held, HeldByAll, SumBalances, Priced;
    var ks := AccountNames(row.children);
    assert forall k :: 0 <= k < |ks| ==> ks[k] == row.children[k].accountName;
    forall i | 0 <= i < |accounts| && AccountHolds(accounts[i], row.assetName)
      ensures exists k :: 0 <= k < |row.children| && row.children[k].accountName == accounts[i].name
    {
      ListsIff(accounts, row.assetName, accounts[i].name);
      assert accounts[i].name in ks;
      var k :| 0 <= k < |ks| && ks[k] == accounts[i].name;
      assert row.children[k].accountName == accounts[i].name;
    }
  }

  lemma MatchingChildShows(row: ItemFigures, accounts: seq<AccountInfo>, unitPrice: real, k: nat)
    requires row.assetName in Regroup(Entries(accounts)) && k < |row.children|
    requires ItemBuilt(row, row.assetName, Regroup(Entries(accounts))[row.assetName], unitPrice)
    requires RowMatches(row, Entries(accounts), unitPrice)
    ensures ChildShows(row.children[k], row.assetName, accounts, unitPrice)
  {
    hide Regroup, Entries, Lists, AccountHolds, Held, HeldByAll, SumBalances, SumKeys, SumNamed;
    var child := row.children[k];
    assert AccountNames(row.children)[k] == child.accountName;
    ListsIff(accounts, row.assetName, child.accountName);
    EntriesSums(accounts, row.assetName, child.accountName);
  }

  // ---------- many clicks ----------

  /** The items after clicks on the heads of the given items, one after the other. */
  function Clicks<T>(v: seq<Item<T>>, js: seq<nat>): (w: seq<Item<T>>)
    requires forall k :: 0 <= k < |js| ==> js[k] < |v|
    ensures |w| == |v|
  {
    if js == [] then v else Toggle(Clicks(v, js[..|js| - 1]), js[|js| - 1])
  }

  function Count(js: seq<nat>, j: nat): nat {
    if js == [] then 0 else Count(js[..|js| - 1], j) + if js[|js| - 1] == j then 1 else 0
  }

  /** Whatever the order of clicks, an item ends up turned around exactly when it was clicked an
      odd number of times, and nothing else changes; so the display list depends on the clicks
      only through these parities. */
  lemma {:induction false} ClicksByParity<T>(v: seq<Item<T>>, js: seq<nat>)
    requires forall k :: 0 <= k < |js| ==> js[k] < |v|
    ensures forall j :: 0 <= j < |v| ==>
              Clicks(v, js)[j] == v[j].(collapse := v[j].collapse != (Count(js, j) % 2 == 1))
  {
    if js != [] {
      ClicksByParity(v, js[..|js| - 1]);
    }
  }
}
