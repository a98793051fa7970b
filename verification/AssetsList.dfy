/** AssetsListModel (assetslistmodel.cpp): the list of items, flattened for display, toggled by
    clicks, and rebuilt from the accounts. */
module AssetsList {
  import opened Pivot
  import opened NameOrder
  import opened DisplayList
  import opened AssetItems

  ghost function View(items: seq<AssetItemData>): (v: seq<Item<AssetItemData>>)
    reads items
    ensures |v| == |items|
  {
    seq(|items|, i requires 0 <= i < |items| reads items => Item(items[i], items[i].children, items[i].collapse))
  }

  ghost function Children(items: seq<AssetItemData>): (kids: seq<seq<AssetItemData>>)
    reads items
    ensures |kids| == |items|
  {
    seq(|items|, i requires 0 <= i < |items| reads items => items[i].children)
  }

  ghost function Kids(items: seq<AssetItemData>): set<AssetItemData>
    reads items
  {
    Members(Children(items))
  }

  function Members<T(==)>(kids: seq<seq<T>>): set<T> {
    set i, a | 0 <= i < |kids| && 0 <= a < |kids[i]| :: kids[i][a]
  }

  /** No object is in two places: heads and children are all different. */
  ghost predicate Separate<T>(heads: seq<T>, kids: seq<seq<T>>) {
    && (forall i, j, a :: 0 <= i < |heads| && 0 <= j < |kids| && 0 <= a < |kids[j]| ==> heads[i] != kids[j][a])
    && (forall i, a, j, b :: 0 <= i < |kids| && 0 <= a < |kids[i]| && 0 <= j < |kids| && 0 <= b < |kids[j]|
          && kids[i][a] == kids[j][b]
          ==> i == j && a == b)
  }

  /** Two levels: ascending heads, each with children of its own that have none. */
  ghost predicate Tree(items: seq<AssetItemData>)
    reads items, Kids(items)
  {
    && (forall i, j :: 0 <= i < j < |items| ==> Less(items[i].assetName, items[j].assetName))
    && (forall i :: 0 <= i < |items| ==> items[i].children != [])
    && Separate(items, Children(items))
    && (forall c :: c in Kids(items) ==> c.children == [])
  }

  /** The figures of the items are `f`. */
  ghost predicate Pictured(items: seq<AssetItemData>, f: seq<ItemFigures>)
    reads items, Kids(items)
  {
    |f| == |items| &&
    forall i :: 0 <= i < |items| ==>
      (forall c :: c in items[i].children ==> c in Kids(items)) && Figure(items[i]) == f[i]
  }

  /** So the fields of the objects are the figures. */
  lemma FieldsAreFigures(items: seq<AssetItemData>, f: seq<ItemFigures>, i: nat)
    requires Pictured(items, f) && i < |items|
    ensures var x, y := items[i], f[i];
            && x.assetName == y.assetName && x.balance == y.balance && x.price == y.price && x.level == y.level
            && |x.children| == |y.children|
            && forall k :: 0 <= k < |x.children| ==>
                 var c, d := x.children[k], y.children[k];
                 && c.assetName == d.assetName && c.accountName == d.accountName && c.level == d.level
                 && c.balance == d.balance && c.price == d.price
  {
    var x, y := items[i], f[i];
    assert Figure(x) == y;
    assert forall k :: 0 <= k < |x.children| ==> y.children[k] == ChildFigure(x.children[k]);
  }

  /** Among the children of a head only the last is marked. */
  ghost predicate LastMarked(children: seq<AssetItemData>)
    reads children
  {
    forall a :: 0 <= a < |children| ==> (children[a].theLast <==> a == |children| - 1)
  }

  ghost predicate Marked(items: seq<AssetItemData>)
    reads items, Kids(items)
  {
    forall i :: 0 <= i < |items| && !items[i].collapse ==>
      (forall c :: c in items[i].children ==> c in Kids(items)) && LastMarked(items[i].children)
  }

  function Remembered(state: map<string, bool>, assetName: string): bool {
    if assetName in state then state[assetName] else true
  }

  class AssetsListModel {
    var itemDataList: seq<AssetItemData>
    var displayItemDataList: seq<AssetItemData>
    var itemCollapseState: map<string, bool>
    var listHeight: int
    var totalPrice: real
    ghost var figures: seq<ItemFigures>

    constructor ()
      ensures Valid() && itemDataList == [] && itemCollapseState == map[]
    {
      itemDataList, displayItemDataList, itemCollapseState := [], [], map[];
      listHeight, totalPrice, figures := 0, 0.0, [];
    }

    /** The display list and its height are the flattening of the items, shown children are marked
        by position, `figures` are the figures of the items, and collapse flags are the remembered ones. */
    ghost predicate Valid()
      reads this, itemDataList, Kids(itemDataList)
    {
      && Tree(itemDataList) && Pictured(itemDataList, figures) && Shown()
      && Flags()
    }

    /** Every item's flag is the one remembered for its asset, collapsed if there is none. */
    ghost predicate Flags()
      reads this, itemDataList
    {
      forall i :: 0 <= i < |itemDataList| ==>
        itemDataList[i].collapse == Remembered(itemCollapseState, itemDataList[i].assetName)
    }

    ghost predicate Shown()
      reads this, itemDataList, Kids(itemDataList)
    {
      && displayItemDataList == Flat(View(itemDataList)) && listHeight == Height(View(itemDataList))
      && Marked(itemDataList)
    }

    /** One turn of refreshList's loop. */
    method ShowItem(itemData: AssetItemData)
      requires itemData !in itemData.children && itemData.children != []
      requires forall a, b :: 0 <= a < b < |itemData.children| ==> itemData.children[a] != itemData.children[b]
      modifies this`displayItemDataList, this`listHeight, itemData.children`theLast
      ensures displayItemDataList ==
              old(displayItemDataList) + Rows(Item(itemData, itemData.children, itemData.collapse))
      ensures listHeight == old(listHeight) + 50 + if itemData.collapse then 0 else 32 * |itemData.children|
      ensures !itemData.collapse ==> LastMarked(itemData.children)
    {
      displayItemDataList := displayItemDataList + [itemData];
      listHeight := listHeight + 50;
      if itemData.collapse {
        return;
      }
      var children := itemData.children;
      for j := 0 to |children|
        invariant displayItemDataList == old(displayItemDataList) + [itemData] + children[..j]
        invariant listHeight == old(listHeight) + 50 + 32 * j
        invariant forall a :: 0 <= a < j ==> !children[a].theLast
      {
        var childItemData := children[j];
        childItemData.theLast := false;
        displayItemDataList := displayItemDataList + [childItemData];
        listHeight := listHeight + 32;
      }
      assert children[..|children|] == children;
      if displayItemDataList != [] {
        displayItemDataList[|displayItemDataList| - 1].theLast := true;
      }
    }

    method RefreshList()
      requires Separate(itemDataList, Children(itemDataList))
      requires forall i :: 0 <= i < |itemDataList| ==> itemDataList[i].children != []
      modifies this`displayItemDataList, this`listHeight, Kids(itemDataList)`theLast
      ensures Shown()
      ensures View(itemDataList) == old(View(itemDataList)) && Children(itemDataList) == old(Children(itemDataList))
    {
      hide Flat, Height, Rows, Separate, Marked, LastMarked, Laid;
      displayItemDataList, listHeight := [], 0;
      FlatNone<AssetItemData>();
      var items := itemDataList;
      ghost var v, kids := View(items), Children(items);
      assert Laid(items, v, kids) by {
        LaidOut(items);
      }
      for i := 0 to |items|
        invariant displayItemDataList == Flat(v[..i]) && listHeight == Height(v[..i])
        invariant Laid(items, v, kids)
        invariant forall k :: 0 <= k < i && !v[k].collapse ==> LastMarked(kids[k])
      {
        LaidChildren(items, v, kids, i);
        ShowNext(items, i, v, kids);
      }
      assert v[..|items|] == v;
      LaidView(items, v, kids);
      MarkedBy(items, kids);
    }

    /** One turn, on the items as they were laid out before the loop. */
    method ShowNext(items: seq<AssetItemData>, i: nat,
                    ghost v: seq<Item<AssetItemData>>, ghost kids: seq<seq<AssetItemData>>)
      requires i < |items| && Laid(items, v, kids)
      requires displayItemDataList == Flat(v[..i]) && listHeight == Height(v[..i])
      requires forall k :: 0 <= k < i && !v[k].collapse ==> LastMarked(kids[k])
      modifies this`displayItemDataList, this`listHeight, items[i].children`theLast
      ensures Laid(items, v, kids)
      ensures displayItemDataList == Flat(v[..i + 1]) && listHeight == Height(v[..i + 1])
      ensures forall k :: 0 <= k <= i && !v[k].collapse ==> LastMarked(kids[k])
    {
      hide Flat, Height, Rows, Separate;
      FlatNext(v, i);
      OwnChildren(items, kids, i);
      ShowItem(items[i]);
    }

    /** refreshList touches nothing but marks. */
    method Refresh(ghost f: seq<ItemFigures>)
      requires Tree(itemDataList) && Pictured(itemDataList, f)
      modifies this`displayItemDataList, this`listHeight, Kids(itemDataList)`theLast
      ensures Shown() && Tree(itemDataList) && Pictured(itemDataList, f) && Flags() == old(Flags())
      ensures View(itemDataList) == old(View(itemDataList))
    {
      hide Flat, Height, Rows, Separate, Marked, LastMarked, View;
      ghost var items := itemDataList;
      RefreshList();
      forall i | 0 <= i < |items|
        ensures (forall c :: c in items[i].children ==> c in Kids(items)) && Figure(items[i]) == f[i]
      {
        assert ChildrenFigures(items[i].children) == old(ChildrenFigures(items[i].children));
      }
    }

    /** The slot for a click on a row; `announced` is what the views are told. */
    method Collapse(row: nat) returns (announced: seq<Announcement>)
      requires Valid() && row < |displayItemDataList|
      modifies this, itemDataList, Kids(itemDataList)`theLast
      ensures Valid() && itemDataList == old(itemDataList)
      ensures totalPrice == old(totalPrice) && figures == old(figures)
      ensures old(displayItemDataList[row].children) == [] ==>
                && announced == [] && displayItemDataList == old(displayItemDataList)
                && listHeight == old(listHeight) && itemCollapseState == old(itemCollapseState)
      ensures old(displayItemDataList[row].children) != [] ==>
                && (exists j :: Toggled(old(View(itemDataList)), View(itemDataList), j, row,
                                        old(displayItemDataList), displayItemDataList, announced))
                && itemCollapseState == old(itemCollapseState)[old(displayItemDataList[row].assetName) :=
                                                               !old(displayItemDataList[row].collapse)]
    {
      hide Flat, Height, Separate, Marked, Describes;
      var itemData := displayItemDataList[row];
      if |itemData.children| == 0 {
        return [];
      }
      ghost var j := ClickedHead(itemDataList, row);
      announced := ToggleItem(itemData, row, j);
      assert Toggled(old(View(itemDataList)), View(itemDataList), j, row,
                     old(displayItemDataList), displayItemDataList, announced);
    }

    /** The same for a row that is the head of item `j`. */
    method ToggleItem(itemData: AssetItemData, row: nat, ghost j: nat) returns (announced: seq<Announcement>)
      requires Valid() && j < |itemDataList| && itemData == itemDataList[j]
      requires row == |Flat(View(itemDataList)[..j])|
      modifies itemData`collapse, this`itemCollapseState
      modifies this`displayItemDataList, this`listHeight, Kids(itemDataList)`theLast
      ensures Valid()
      ensures Toggled(old(View(itemDataList)), View(itemDataList), j, row,
                      old(displayItemDataList), displayItemDataList, announced)
      ensures itemCollapseState == old(itemCollapseState)[itemData.assetName := !old(itemData.collapse)]
    {
      hide Flat, Height, Toggled, Tree, Pictured, Flags;
      ghost var v := View(itemDataList);
      FlipItem(itemData, j);
      Refresh(figures);
      announced :=
        if !itemData.collapse then [Inserted(row + 1, row + |itemData.children|)]
        else [Removed(row + 1, row + |itemData.children|)];
      assert View(itemDataList)[j].collapse == itemData.collapse;
      DoesToggle(v, View(itemDataList), j, row, announced);
    }

    /** Turning an item's flag around and remembering it. */
    method FlipItem(itemData: AssetItemData, ghost j: nat)
      requires Tree(itemDataList) && Pictured(itemDataList, figures) && Flags()
      requires j < |itemDataList| && itemData == itemDataList[j]
      modifies itemData`collapse, this`itemCollapseState
      ensures Tree(itemDataList) && Pictured(itemDataList, figures) && Flags()
      ensures View(itemDataList) == Toggle(old(View(itemDataList)), j)
      ensures Children(itemDataList) == old(Children(itemDataList))
      ensures itemCollapseState == old(itemCollapseState)[itemData.assetName := !old(itemData.collapse)]
    {
      hide Tree, Pictured;
      NamesDiffer(itemDataList, j);
      Flip(itemDataList, itemData, j, figures);
      Remember(itemData);
    }

    /** The memory is kept apart from the items. */
    method Remember(itemData: AssetItemData)
      requires Tree(itemDataList) && Pictured(itemDataList, figures)
      modifies this`itemCollapseState
      ensures Tree(itemDataList) && Pictured(itemDataList, figures)
      ensures itemCollapseState == old(itemCollapseState)[itemData.assetName := itemData.collapse]
    {
      hide Separate, Figure;
      itemCollapseState := itemCollapseState[itemData.assetName := itemData.collapse];
    }

    /** Rebuilding the list from the accounts and the unit prices (negative for no price). */
    method SetAccountInfo(accounts: seq<AccountInfo>, unitPrice: string -> real)
      modifies this
      ensures Valid() && itemCollapseState == old(itemCollapseState)
      ensures forall i :: 0 <= i < |itemDataList| ==> fresh(itemDataList[i])
      ensures Holdings(figures, Regroup(Entries(accounts)), unitPrice)
      ensures totalPrice == SumPriced(figures, unitPrice)
      ensures forall i :: 0 <= i < |itemDataList| ==>
                var asset := itemDataList[i].assetName;
                itemDataList[i].collapse == if asset in itemCollapseState then itemCollapseState[asset] else true
      ensures itemCollapseState == map[] ==>
                displayItemDataList == itemDataList && listHeight == 50 * |itemDataList|
    {
      hide Separate, Marked, Flat, Height, Holdings, SumPriced, Regroup, Entries, Tree, Pictured;
      itemDataList, displayItemDataList, totalPrice := [], [], 0.0;
      var assetMap := BuildAssetMap(accounts);
      NothingEmpty(Entries(accounts));
      var items, total;
      ghost var f;
      items, total, f := BuildItems(assetMap, itemCollapseState, unitPrice);
      ghost var p;
      var sorted;
      sorted, p := SortByName(items);
      NamesAscend(items);
      SortedAlready(p, items, sorted);
      Install(sorted, total, f);
    }

    /** The last statements of setAccountInfo: the new items are put in place and shown. */
    method Install(items: seq<AssetItemData>, total: real, ghost f: seq<ItemFigures>)
      requires Tree(items) && Pictured(items, f)
      requires forall i :: 0 <= i < |items| ==> items[i].collapse == Remembered(itemCollapseState, items[i].assetName)
      modifies this, Kids(items)`theLast
      ensures Valid() && itemDataList == items && figures == f && totalPrice == total
      ensures itemCollapseState == old(itemCollapseState)
      ensures itemCollapseState == map[] ==>
                displayItemDataList == itemDataList && listHeight == 50 * |itemDataList|
    {
      hide Flat, Height, Marked, Tree, Pictured;
      ghost var kids := Children(items);
      itemDataList, totalPrice, figures := items, total, f;
      assert Children(items) == kids;
      Refresh(f);
      if itemCollapseState == map[] {
        AllCollapsed(View(itemDataList));
      }
    }
  }

  /** The items have the children `kids`, all in separate places, and `v` is their view. */
  ghost predicate Laid(items: seq<AssetItemData>, v: seq<Item<AssetItemData>>, kids: seq<seq<AssetItemData>>)
    reads items
  {
    && |v| == |kids| == |items| && Separate(items, kids)
    && forall k :: 0 <= k < |items| ==>
         items[k].children == kids[k] && kids[k] != [] && v[k] == Item(items[k], kids[k], items[k].collapse)
  }

  lemma LaidOut(items: seq<AssetItemData>)
    requires Separate(items, Children(items))
    requires forall i :: 0 <= i < |items| ==> items[i].children != []
    ensures Laid(items, View(items), Children(items))
  {
    hide Separate;
  }

  lemma LaidView(items: seq<AssetItemData>, v: seq<Item<AssetItemData>>, kids: seq<seq<AssetItemData>>)
    requires Laid(items, v, kids)
    ensures View(items) == v && Children(items) == kids
    ensures forall k :: 0 <= k < |items| ==> items[k].collapse == v[k].collapse
  {
    hide Separate;
  }

  lemma LaidChildren(items: seq<AssetItemData>, v: seq<Item<AssetItemData>>, kids: seq<seq<AssetItemData>>, i: nat)
    requires Laid(items, v, kids) && i < |items|
    ensures forall c :: c in items[i].children ==> c in Members(kids)
  {
    OwnChildren(items, kids, i);
  }

  lemma NamesAscend(items: seq<AssetItemData>)
    requires Tree(items)
    ensures forall i, j :: 0 <= i < j < |items| ==> Less(items[i].assetName, items[j].assetName)
  {
  }

  lemma NamesDiffer(items: seq<AssetItemData>, j: nat)
    requires Tree(items) && j < |items|
    ensures forall i :: 0 <= i < |items| && i != j ==> items[i].assetName != items[j].assetName
  {
    forall i | 0 <= i < |items| && i != j ensures items[i].assetName != items[j].assetName {
      LessTotal(items[i].assetName, items[j].assetName);
    }
  }

  /** Flags matter neither to the shape of the tree nor to its figures. */
  method Flip(items: seq<AssetItemData>, itemData: AssetItemData, ghost j: nat, ghost f: seq<ItemFigures>)
    requires Tree(items) && Pictured(items, f) && j < |items| && itemData == items[j]
    modifies itemData`collapse
    ensures Tree(items) && Pictured(items, f) && itemData.collapse != old(itemData.collapse)
    ensures View(items) == Toggle(old(View(items)), j) && Children(items) == old(Children(items))
  {
    hide Separate;
    ghost var kids := Children(items);
    NamesDiffer(items, j);
    itemData.collapse := !itemData.collapse;
    assert Children(items) == kids;
    forall i | 0 <= i < |items|
      ensures (forall c :: c in items[i].children ==> c in Kids(items)) && Figure(items[i]) == f[i]
    {
      assert ChildrenFigures(items[i].children) == old(ChildrenFigures(items[i].children));
    }
  }

  /** What a click on the head of item `j`, shown in row `row`, does: the item is toggled, and the
      one new announcement is true of the change of the display list. */
  ghost predicate Toggled(v: seq<Item<AssetItemData>>, w: seq<Item<AssetItemData>>, j: nat, row: nat,
                          before: seq<AssetItemData>, after: seq<AssetItemData>, announced: seq<Announcement>)
  {
    && j < |v| && row == |Flat(v[..j])| && row < |before| && before[row] == v[j].head
    && w == Toggle(v, j)
    && announced == [Announce(v, j, row)] && Describes(Announce(v, j, row), before, after)
  }

  lemma DoesToggle(v: seq<Item<AssetItemData>>, w: seq<Item<AssetItemData>>, j: nat, row: nat,
                   announced: seq<Announcement>)
    requires j < |v| && row == |Flat(v[..j])| && w == Toggle(v, j)
    requires announced == [Announce(v, j, row)]
    ensures Toggled(v, w, j, row, Flat(v), Flat(w), announced)
  {
    hide Flat, Describes;
    ToggleDescribed(v, j);
  }

  /** A row with children below it is the head of an item. */
  lemma ClickedHead(items: seq<AssetItemData>, row: nat) returns (j: nat)
    requires Tree(items) && row < |Flat(View(items))| && Flat(View(items))[row].children != []
    ensures j < |items| && Flat(View(items))[row] == items[j] && row == |Flat(View(items)[..j])|
  {
    var v := View(items);
    j := RowOwner(v, row);
    if Flat(v)[row] in v[j].children {
      OwnChildren(items, Children(items), j);
    }
  }

  lemma MarkedBy(items: seq<AssetItemData>, kids: seq<seq<AssetItemData>>)
    requires kids == Children(items)
    requires forall k :: 0 <= k < |items| && !items[k].collapse ==> LastMarked(kids[k])
    ensures Marked(items)
  {
    hide LastMarked;
    forall i, c | 0 <= i < |items| && c in items[i].children ensures c in Kids(items) {
      assert c in kids[i];
    }
  }

  /** What separateness says about the children of one head. */
  lemma OwnChildren<T>(heads: seq<T>, kids: seq<seq<T>>, i: nat)
    requires Separate(heads, kids) && |heads| == |kids| && i < |heads|
    ensures heads[i] !in kids[i]
    ensures forall a, b :: 0 <= a < b < |kids[i]| ==> kids[i][a] != kids[i][b]
    ensures forall c :: c in kids[i] ==> c in Members(kids) && c !in heads
    ensures forall k, a :: 0 <= k < |kids| && k != i && 0 <= a < |kids[k]| ==> kids[k][a] !in kids[i]
  {
  }

  lemma ExtendSeparate<T>(heads: seq<T>, kids: seq<seq<T>>, h: T, c: seq<T>)
    requires Separate(heads, kids) && h !in c
    requires forall j, a :: 0 <= j < |kids| && 0 <= a < |kids[j]| ==> kids[j][a] != h && kids[j][a] !in c
    requires forall i :: 0 <= i < |heads| ==> heads[i] !in c
    requires forall a, b :: 0 <= a < b < |c| ==> c[a] != c[b]
    ensures Separate(heads + [h], kids + [c])
  {
  }

  lemma BuiltChildren(item: AssetItemData, assetName: string, balances: map<string, real>, unitPrice: real)
    requires ItemBuilt(Figure(item), assetName, balances, unitPrice)
    ensures item !in item.children && item.assetName == assetName && item.price == Figure(item).price
    ensures forall a, b :: 0 <= a < b < |item.children| ==> item.children[a] != item.children[b]
  {
    hide SumKeys, Priced;
    var f := Figure(item).children;
    forall a | 0 <= a < |item.children| ensures item.children[a] != item {
      assert f[a].level == 2;
    }
    forall a, b | 0 <= a < b < |item.children| ensures item.children[a] != item.children[b] {
      assert AccountNames(f)[a] == item.children[a].accountName && AccountNames(f)[b] == item.children[b].accountName;
    }
  }

  /** The items built so far: one for each name of `ks`, with the remembered flag. */
  ghost predicate BuiltSoFar(items: seq<AssetItemData>, f: seq<ItemFigures>, ks: seq<string>, m: AssetMap,
                             state: map<string, bool>, unitPrice: string -> real)
    requires forall k :: k in ks ==> k in m
    reads items, Kids(items)
  {
    && |items| == |ks| && Pictured(items, f) && Separate(items, Children(items))
    && (forall c :: c in Kids(items) ==> c.children == [])
    && (forall k :: 0 <= k < |ks| ==>
          items[k].assetName == ks[k] && items[k].children != [] && items[k].collapse == Remembered(state, ks[k]))
    && (forall k :: 0 <= k < |ks| ==> ItemBuilt(f[k], ks[k], m[ks[k]], unitPrice(ks[k])))
  }

  lemma ExtendBuilt(items: seq<AssetItemData>, f: seq<ItemFigures>, ks: seq<string>, m: AssetMap,
                    state: map<string, bool>, unitPrice: string -> real, x: AssetItemData, k: string)
    requires (forall k :: k in ks ==> k in m) && k in m
    requires BuiltSoFar(items, f, ks, m, state, unitPrice)
    requires ItemBuilt(Figure(x), k, m[k], unitPrice(k)) && x.children != [] && x.collapse == Remembered(state, k)
    requires forall a :: 0 <= a < |x.children| ==> x.children[a].children == []
    requires x !in items && x !in Kids(items)
    requires forall c :: c in x.children ==> c !in items && c !in Kids(items)
    ensures BuiltSoFar(items + [x], f + [Figure(x)], ks + [k], m, state, unitPrice)
    ensures Kids(items + [x]) == Kids(items) + set c | c in x.children
  {
    hide ItemBuilt, Separate;
    BuiltChildren(x, k, m[k], unitPrice(k));
    var kids := Children(items);
    assert Children(items + [x]) == kids + [x.children];
    MembersNext(kids, x.children);
    ExtendSeparate(items, kids, x, x.children);
  }

  lemma MembersNext<T>(kids: seq<seq<T>>, c: seq<T>)
    ensures Members(kids + [c]) == Members(kids) + set x | x in c
    ensures forall j, a :: 0 <= j < |kids| && 0 <= a < |kids[j]| ==> kids[j][a] in Members(kids)
  {
    var n := |kids|;
    forall x | x in Members(kids) || x in c ensures x in Members(kids + [c]) {
      if x in c {
        var a :| 0 <= a < |c| && c[a] == x;
        assert (kids + [c])[n][a] == x;
      } else {
        var j, a :| 0 <= j < n && 0 <= a < |kids[j]| && kids[j][a] == x;
        assert (kids + [c])[j][a] == x;
      }
    }
  }

  /** The second loop of setAccountInfo: one item for each asset, in name order. */
  method BuildItems(assetMap: AssetMap, state: map<string, bool>, unitPrice: string -> real)
    returns (items: seq<AssetItemData>, total: real, ghost f: seq<ItemFigures>)
    requires forall asset :: asset in assetMap ==> assetMap[asset] != map[]
    ensures forall i :: 0 <= i < |items| ==> fresh(items[i])
    ensures forall c :: c in Kids(items) ==> fresh(c)
    ensures Tree(items) && Pictured(items, f) && Holdings(f, assetMap, unitPrice) && total == SumPriced(f, unitPrice)
    ensures forall i :: 0 <= i < |items| ==> items[i].collapse == Remembered(state, items[i].assetName)
  {
    hide ItemBuilt, Separate, SumPriced, Pictured, BuiltSoFar, Holdings;
    var ks := InOrder(assetMap.Keys);
    items, total, f := [], 0.0, [];
    NothingBuilt(assetMap, state, unitPrice);
    for i := 0 to |ks|
      invariant BuiltSoFar(items, f, ks[..i], assetMap, state, unitPrice)
      invariant forall k :: 0 <= k < |items| ==> fresh(items[k])
      invariant forall c :: c in Kids(items) ==> fresh(c)
      invariant total == SumPriced(f, unitPrice)
    {
      var itemData, added := NextItem(items, f, ks[..i], assetMap, state, unitPrice, ks[i]);
      assert ks[..i + 1] == ks[..i] + [ks[i]];
      items, f := items + [itemData], f + [Figure(itemData)];
      total := total + added;
    }
    assert ks[..|ks|] == ks;
    BuiltTree(items, f, ks, assetMap, state, unitPrice);
  }

  /** One turn of that loop. */
  method NextItem(items: seq<AssetItemData>, ghost f: seq<ItemFigures>, ghost ks: seq<string>, m: AssetMap,
                  state: map<string, bool>, unitPrice: string -> real, assetName: string)
    returns (itemData: AssetItemData, added: real)
    requires (forall k :: k in ks ==> k in m) && assetName in m && m[assetName] != map[]
    requires BuiltSoFar(items, f, ks, m, state, unitPrice)
    ensures fresh(itemData) && forall c :: c in Kids(items + [itemData]) ==> c in Kids(items) || fresh(c)
    ensures BuiltSoFar(items + [itemData], f + [Figure(itemData)], ks + [assetName], m, state, unitPrice)
    ensures SumPriced(f + [Figure(itemData)], unitPrice) == SumPriced(f, unitPrice) + added
  {
    hide ItemBuilt, Separate, SumPriced;
    itemData, added := BuildItem(assetName, m[assetName], unitPrice(assetName), Remembered(state, assetName));
    BuiltChildren(itemData, assetName, m[assetName], unitPrice(assetName));
    ExtendBuilt(items, f, ks, m, state, unitPrice, itemData, assetName);
    SumPricedNext(f, Figure(itemData), unitPrice);
  }

  lemma NothingBuilt(m: AssetMap, state: map<string, bool>, unitPrice: string -> real)
    ensures SumPriced([], unitPrice) == 0.0 && BuiltSoFar([], [], [], m, state, unitPrice)
  {
  }

  lemma BuiltTree(items: seq<AssetItemData>, f: seq<ItemFigures>, ks: seq<string>, m: AssetMap,
                  state: map<string, bool>, unitPrice: string -> real)
    requires Ascending(ks) && forall k :: k in ks <==> k in m
    requires BuiltSoFar(items, f, ks, m, state, unitPrice)
    ensures Tree(items) && Pictured(items, f) && Holdings(f, m, unitPrice)
    ensures forall i :: 0 <= i < |items| ==> items[i].collapse == Remembered(state, items[i].assetName)
  {
    hide ItemBuilt, Separate, Holdings, Pictured;
    BuiltHoldings(items, f, ks, m, state, unitPrice);
  }

  lemma BuiltHoldings(items: seq<AssetItemData>, f: seq<ItemFigures>, ks: seq<string>, m: AssetMap,
                      state: map<string, bool>, unitPrice: string -> real)
    requires forall k :: k in ks <==> k in m
    requires BuiltSoFar(items, f, ks, m, state, unitPrice)
    ensures Holdings(f, m, unitPrice)
  {
    hide ItemBuilt, Separate;
    forall asset | asset in m ensures exists i :: 0 <= i < |f| && f[i].assetName == asset {
      assert asset in ks;
      var i :| 0 <= i < |ks| && ks[i] == asset;
      assert f[i].assetName == asset;
    }
  }
}
