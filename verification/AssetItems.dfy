/** The items of the asset list (assetslistmodel.cpp): heap objects for assets and, below them,
    for the accounts that hold them, and the loops that build them. */
module AssetItems {
  import opened Pivot
  import opened NameOrder

  /** Fields the C++ constructor leaves alone keep whatever value they had. */
  class AssetItemData {
    var assetName: string
    var accountName: string
    var balance: real
    var price: real
    var level: int
    var collapse: bool
    var theLast: bool
    var children: seq<AssetItemData>

    constructor ()
      ensures children == []
    {
      children := [];
    }
  }

  // ---------- sorting ----------

  /** Sorted by asset name; items of one name may stand in any order. */
  ghost predicate SortedByName(items: seq<AssetItemData>)
    reads items
  {
    forall i, j :: 0 <= i < j < |items| ==> !Less(items[j].assetName, items[i].assetName)
  }

  /** `p` rearranges `items` into `sorted`, losing none and doubling none. */
  ghost predicate Rearranges(p: seq<nat>, items: seq<AssetItemData>, sorted: seq<AssetItemData>) {
    && |p| == |items| == |sorted|
    && (forall i :: 0 <= i < |p| ==> p[i] < |items| && sorted[i] == items[p[i]])
    && (forall i, j :: 0 <= i < j < |p| ==> p[i] != p[j])
    && (forall k :: 0 <= k < |items| ==> k in p)
  }

  /** std::sort by asset name.  Callers may rely on the contract only: the order of items with
      equal names is not specified. */
  method SortByName(items: seq<AssetItemData>) returns (sorted: seq<AssetItemData>, ghost p: seq<nat>)
    ensures Rearranges(p, items, sorted) && SortedByName(sorted)
  {
    hide Rearranges;
    sorted, p := [], [];
    NothingToRearrange();
    for i := 0 to |items|
      invariant Rearranges(p, items[..i], sorted) && SortedByName(sorted)
    {
      hide SortedByName;
      var q := PlaceByName(sorted, items[i]);
      InsertRearranges(p, items[..i], sorted, q, items[i]);
      assert items[..i + 1] == items[..i] + [items[i]];
      sorted := sorted[..q] + [items[i]] + sorted[q..];
      p := p[..q] + [i] + p[q..];
    }
    assert items[..|items|] == items;
  }

  lemma NothingToRearrange()
    ensures Rearranges([], [], [])
  {
  }

  lemma InsertRearranges(p: seq<nat>, items: seq<AssetItemData>, sorted: seq<AssetItemData>, q: nat, x: AssetItemData)
    requires Rearranges(p, items, sorted) && q <= |sorted|
    ensures |p| == |sorted| == |items|
    ensures Rearranges(p[..q] + [|items|] + p[q..], items + [x], sorted[..q] + [x] + sorted[q..])
  {
    var r, t := p[..q] + [|items|] + p[q..], sorted[..q] + [x] + sorted[q..];
    forall i | 0 <= i < |r| ensures r[i] < |items| + 1 && t[i] == (items + [x])[r[i]] {
      if i < q {
        assert r[i] == p[i];
      } else if i > q {
        assert r[i] == p[i - 1];
      }
    }
    InsertCovers(p, |items|, q);
  }

  lemma InsertCovers(p: seq<nat>, n: nat, q: nat)
    requires q <= |p| && (forall i :: 0 <= i < |p| ==> p[i] < n)
    requires (forall i, j :: 0 <= i < j < |p| ==> p[i] != p[j]) && (forall k :: 0 <= k < n ==> k in p)
    ensures var r := p[..q] + [n] + p[q..];
            && (forall i, j :: 0 <= i < j < |r| ==> r[i] != r[j])
            && (forall k :: 0 <= k < n + 1 ==> k in r)
  {
    var r := p[..q] + [n] + p[q..];
    assert r[q] == n;
    forall k | 0 <= k < n ensures k in r {
      assert k in p;
      var i :| 0 <= i < |p| && p[i] == k;
      assert r[if i < q then i else i + 1] == k;
    }
  }

  method PlaceByName(sorted: seq<AssetItemData>, x: AssetItemData) returns (q: nat)
    requires SortedByName(sorted)
    ensures q <= |sorted| && SortedByName(sorted[..q] + [x] + sorted[q..])
  {
    q := |sorted|;
    while q > 0 && Less(x.assetName, sorted[q - 1].assetName)
      invariant q <= |sorted|
      invariant forall j :: q <= j < |sorted| ==> Less(x.assetName, sorted[j].assetName)
    {
      q := q - 1;
    }
    forall j | q <= j < |sorted| ensures !Less(sorted[j].assetName, x.assetName) {
      LessTotal(x.assetName, sorted[j].assetName);
    }
    forall i | 0 <= i < q ensures !Less(x.assetName, sorted[i].assetName) {
      NotLessTransitive(sorted[i].assetName, sorted[q - 1].assetName, x.assetName, i < q - 1);
    }
  }

  /** `a` is not after `b` (or is `b`), and `b` not after `c`, so `a` is not after `c`. */
  lemma NotLessTransitive(a: string, b: string, c: string, apart: bool)
    requires if apart then !Less(b, a) else a == b
    requires !Less(c, b)
    ensures !Less(c, a)
  {
    LessTotal(a, b);
    LessTotal(b, c);
    LessTotal(a, c);
    if Less(c, a) {
      if Less(a, b) {
        LessTransitive(c, a, b);
      }
    }
  }

  // ---------- figures ----------

  /** What the list shows of a child. */
  datatype ChildFigures = ChildFigures(assetName: string, accountName: string, balance: real, price: real, level: int)

  /** What the list shows of a head and its children. */
  datatype ItemFigures =
    ItemFigures(assetName: string, balance: real, price: real, level: int, children: seq<ChildFigures>)

  ghost function ChildFigure(c: AssetItemData): ChildFigures
    reads c
  {
    ChildFigures(c.assetName, c.accountName, c.balance, c.price, c.level)
  }

  ghost function ChildrenFigures(children: seq<AssetItemData>): (f: seq<ChildFigures>)
    reads children
    ensures |f| == |children|
  {
    seq(|children|, k requires 0 <= k < |children| reads children => ChildFigure(children[k]))
  }

  ghost function Figure(item: AssetItemData): ItemFigures
    reads item, item.children
  {
    ItemFigures(item.assetName, item.balance, item.price, item.level, ChildrenFigures(item.children))
  }

  function AccountNames(f: seq<ChildFigures>): (ks: seq<string>)
    ensures |ks| == |f|
  {
    seq(|f|, k requires 0 <= k < |f| => f[k].accountName)
  }

  /** The price of an amount, -1 when the asset has no price. */
  function Priced(amount: real, unitPrice: real): real {
    if unitPrice < 0.0 then -1.0 else amount * unitPrice
  }

  function SumKeys(m: map<string, real>, ks: seq<string>): real
    requires forall k :: k in ks ==> k in m
  {
    if ks == [] then 0.0 else SumKeys(m, ks[..|ks| - 1]) + m[ks[|ks| - 1]]
  }

  function ChildOf(assetName: string, account: string, amount: real, unitPrice: real): ChildFigures {
    ChildFigures(assetName, account, amount, Priced(amount, unitPrice), 2)
  }

  /** One child for each account in `balances`, in any order. */
  ghost predicate ChildrenBuilt(f: seq<ChildFigures>, assetName: string, balances: map<string, real>, unitPrice: real) {
    var ks := AccountNames(f);
    && Distinct(ks) && (forall a :: a in ks <==> a in balances)
    && forall k :: 0 <= k < |f| ==> f[k] == ChildOf(assetName, ks[k], balances[ks[k]], unitPrice)
  }

  /** A head with its children, its balance the sum of theirs. */
  ghost predicate ItemBuilt(f: ItemFigures, assetName: string, balances: map<string, real>, unitPrice: real) {
    && f.level == 1 && f.assetName == assetName
    && ChildrenBuilt(f.children, assetName, balances, unitPrice)
    && f.balance == SumKeys(balances, AccountNames(f.children))
    && f.price == Priced(f.balance, unitPrice)
  }

  /** There is a built item for each asset of the map, and for nothing else. */
  ghost predicate Holdings(f: seq<ItemFigures>, m: AssetMap, unitPrice: string -> real) {
    && (forall asset :: asset in m ==> exists i :: 0 <= i < |f| && f[i].assetName == asset)
    && forall i :: 0 <= i < |f| ==>
         f[i].assetName in m && ItemBuilt(f[i], f[i].assetName, m[f[i].assetName], unitPrice(f[i].assetName))
  }

  /** Sum of the prices of the rows that have one. */
  function SumPriced(f: seq<ItemFigures>, unitPrice: string -> real): real {
    if f == [] then 0.0
    else
      var last := f[|f| - 1];
      SumPriced(f[..|f| - 1], unitPrice) + if unitPrice(last.assetName) >= 0.0 then last.price else 0.0
  }

  lemma SumPricedNext(f: seq<ItemFigures>, x: ItemFigures, unitPrice: string -> real)
    ensures SumPriced(f + [x], unitPrice) ==
            SumPriced(f, unitPrice) + if unitPrice(x.assetName) >= 0.0 then x.price else 0.0
  {
    assert (f + [x])[..|f|] == f;
  }

  /** The order of summing over distinct keys does not matter. */
  lemma {:induction false} SumKeysAnyOrder(m: map<string, real>, a: seq<string>, b: seq<string>)
    requires Distinct(a) && Distinct(b) && (forall k :: k in a <==> k in b) && forall k :: k in a ==> k in m
    ensures SumKeys(m, a) == SumKeys(m, b)
  {
    if a == [] {
      SomeMember(b);
    } else {
      var n, x := |a| - 1, a[|a| - 1];
      assert x in b;
      var i :| 0 <= i < |b| && b[i] == x;
      var c := b[..i] + b[i + 1..];
      SumKeysWithout(m, b, i);
      forall k ensures k in a[..n] <==> k in c {
        if k in a[..n] {
          assert k in b && k != x;
        }
        if k in c {
          assert k in b && k != x;
        }
      }
      SumKeysAnyOrder(m, a[..n], c);
    }
  }

  lemma {:induction false} SumKeysWithout(m: map<string, real>, b: seq<string>, i: nat)
    requires i < |b| && forall k :: k in b ==> k in m
    ensures SumKeys(m, b) == SumKeys(m, b[..i] + b[i + 1..]) + m[b[i]]
  {
    var n := |b| - 1;
    if i == n {
      assert b[..i] + b[i + 1..] == b[..n];
    } else {
      var c := b[..i] + b[i + 1..];
      assert c[..|c| - 1] == b[..n][..i] + b[..n][i + 1..];
      SumKeysWithout(m, b[..n], i);
    }
  }

  lemma PriceOfSum(a: real, b: real, unitPrice: real)
    requires unitPrice >= 0.0
    ensures Priced(a + b, unitPrice) == Priced(a, unitPrice) + Priced(b, unitPrice)
  {
  }

  // ---------- building ----------

  method NewChild(assetName: string, account: string, amount: real, unitPrice: real) returns (childData: AssetItemData)
    ensures fresh(childData) && childData.children == []
    ensures ChildFigure(childData) == ChildOf(assetName, account, amount, unitPrice)
  {
    childData := new AssetItemData();
    childData.level, childData.assetName := 2, assetName;
    childData.accountName, childData.balance := account, amount;
    childData.price := if unitPrice >= 0.0 then amount * unitPrice else -1.0;
  }

  /** The innermost loop of setAccountInfo: the children of one asset in account order, with the
      balance and price its head gathers from them, and what they add to the total price. */
  method BuildChildren(assetName: string, balances: map<string, real>, ks: seq<string>, unitPrice: real)
    returns (children: seq<AssetItemData>, balance: real, price: real, added: real)
    requires forall k :: k in ks ==> k in balances
    ensures |children| == |ks| && forall k :: 0 <= k < |ks| ==> fresh(children[k]) && children[k].children == []
    ensures forall k :: 0 <= k < |ks| ==>
              ChildFigure(children[k]) == ChildOf(assetName, ks[k], balances[ks[k]], unitPrice)
    ensures balance == SumKeys(balances, ks) && price == Priced(balance, unitPrice)
    ensures added == if unitPrice >= 0.0 then price else 0.0
  {
    children, balance, added := [], 0.0, 0.0;
    price := if unitPrice < 0.0 then -1.0 else 0.0;
    for i := 0 to |ks|
      invariant |children| == i && forall k :: 0 <= k < i ==> fresh(children[k]) && children[k].children == []
      invariant forall k :: 0 <= k < i ==>
                  ChildFigure(children[k]) == ChildOf(assetName, ks[k], balances[ks[k]], unitPrice)
      invariant balance == SumKeys(balances, ks[..i]) && price == Priced(balance, unitPrice)
      invariant added == if unitPrice >= 0.0 then price else 0.0
    {
      assert ks[..i + 1][..i] == ks[..i];
      var childData := NewChild(assetName, ks[i], balances[ks[i]], unitPrice);
      if unitPrice >= 0.0 {
        PriceOfSum(balance, childData.balance, unitPrice);
        price := price + childData.price;
        added := added + childData.price;
      }
      balance := balance + childData.balance;
      children := children + [childData];
    }
    assert ks[..|ks|] == ks;
  }

  /** Sorting the children, which all have the same asset name. */
  method SortChildren(children: seq<AssetItemData>, ks: seq<string>, assetName: string, balances: map<string, real>,
                      unitPrice: real)
    returns (sorted: seq<AssetItemData>)
    requires Distinct(ks) && (forall a :: a in ks <==> a in balances) && |children| == |ks|
    requires forall k :: 0 <= k < |ks| ==>
               ChildFigure(children[k]) == ChildOf(assetName, ks[k], balances[ks[k]], unitPrice)
    ensures |sorted| == |children| && forall k :: 0 <= k < |sorted| ==> sorted[k] in children
    ensures ChildrenBuilt(ChildrenFigures(sorted), assetName, balances, unitPrice)
    ensures SumKeys(balances, AccountNames(ChildrenFigures(sorted))) == SumKeys(balances, ks)
  {
    hide SumKeys, Priced;
    ghost var p;
    sorted, p := SortByName(children);
    ghost var f := ChildrenFigures(sorted);
    forall i | 0 <= i < |p| ensures f[i] == ChildOf(assetName, ks[p[i]], balances[ks[p[i]]], unitPrice) {
      assert f[i] == ChildFigure(children[p[i]]);
    }
    RearrangedNames(p, ks, AccountNames(f));
    SumKeysAnyOrder(balances, ks, AccountNames(f));
  }

  /** The body of setAccountInfo's second loop: the head and children of one asset. */
  method BuildItem(assetName: string, balances: map<string, real>, unitPrice: real, collapse: bool)
    returns (itemData: AssetItemData, added: real)
    requires balances != map[]
    ensures fresh(itemData) && itemData.collapse == collapse && itemData.children != []
    ensures forall k :: 0 <= k < |itemData.children| ==>
              fresh(itemData.children[k]) && itemData.children[k].children == []
    ensures ItemBuilt(Figure(itemData), assetName, balances, unitPrice)
    ensures added == if unitPrice >= 0.0 then itemData.price else 0.0
  {
    hide SumKeys, Priced, ChildrenBuilt, ChildrenFigures;
    var ks := InOrder(balances.Keys);
    AscendingDistinct(ks);
    SomeKey(balances, ks);
    var children, balance, price;
    children, balance, price, added := BuildChildren(assetName, balances, ks, unitPrice);
    var sorted := SortChildren(children, ks, assetName, balances, unitPrice);
    itemData := NewHead(assetName, balance, price, collapse, sorted);
  }

  method NewHead(assetName: string, balance: real, price: real, collapse: bool, children: seq<AssetItemData>)
    returns (itemData: AssetItemData)
    ensures fresh(itemData) && itemData.collapse == collapse && itemData.children == children
    ensures Figure(itemData) == ItemFigures(assetName, balance, price, 1, ChildrenFigures(children))
    ensures itemData.price == price
  {
    itemData := new AssetItemData();
    itemData.assetName, itemData.level, itemData.collapse := assetName, 1, collapse;
    itemData.balance, itemData.price := balance, price;
    itemData.children := children;
  }

  /** No asset of the regrouped map is without accounts. */
  lemma NothingEmpty(es: seq<Entry>)
    ensures forall asset :: asset in Regroup(es) ==> Regroup(es)[asset] != map[]
  {
    forall asset | asset in Regroup(es) ensures Regroup(es)[asset] != map[] {
      RegroupHolds(es, asset, "");
    }
  }

  lemma AscendingDistinct(ks: seq<string>)
    requires Ascending(ks)
    ensures Distinct(ks)
  {
    forall i, j | 0 <= i < j < |ks| ensures ks[i] != ks[j] {
      LessTotal(ks[i], ks[j]);
    }
  }

  lemma SomeKey(m: map<string, real>, ks: seq<string>)
    requires m != map[] && forall k :: k in m ==> k in ks
    ensures ks != []
  {
    var k :| k in m;
  }

  lemma RearrangedNames(p: seq<nat>, ks: seq<string>, rs: seq<string>)
    requires |p| == |ks| == |rs| && Distinct(ks)
    requires forall i :: 0 <= i < |p| ==> p[i] < |ks| && rs[i] == ks[p[i]]
    requires (forall i, j :: 0 <= i < j < |p| ==> p[i] != p[j]) && forall k :: 0 <= k < |ks| ==> k in p
    ensures Distinct(rs) && forall k :: k in ks <==> k in rs
  {
    forall k | k in ks ensures k in rs {
      var m :| 0 <= m < |ks| && ks[m] == k;
      assert m in p;
      var i :| 0 <= i < |p| && p[i] == m;
      assert rs[i] == k;
    }
  }

  /** Items that are in strict name order already stay where they are. */
  lemma SortedAlready(p: seq<nat>, items: seq<AssetItemData>, sorted: seq<AssetItemData>)
    requires Rearranges(p, items, sorted) && SortedByName(sorted)
    requires forall i, j :: 0 <= i < j < |items| ==> Less(items[i].assetName, items[j].assetName)
    ensures sorted == items
  {
    var a := seq(|items|, i requires 0 <= i < |items| reads items => items[i].assetName);
    var b := seq(|sorted|, i requires 0 <= i < |sorted| reads sorted => sorted[i].assetName);
    AscendingDistinct(a);
    RearrangedNames(p, a, b);
    forall i, j | 0 <= i < j < |b| ensures Less(b[i], b[j]) {
      LessTotal(b[i], b[j]);
      assert !Less(sorted[j].assetName, sorted[i].assetName);
    }
    AscendingUnique(a, b);
    forall i | 0 <= i < |p| ensures p[i] == i {
      assert a[p[i]] == b[i] == a[i];
    }
  }
}
