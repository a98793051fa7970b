/** The flattened list of rows: every head, followed by its children unless it is collapsed. */
module DisplayList {

  datatype Item<T> = Item(head: T, children: seq<T>, collapse: bool)

  function Rows<T>(item: Item<T>): (rows: seq<T>)
    ensures |rows| >= 1
  {
    [item.head] + if item.collapse then [] else item.children
  }

  function Flat<T>(v: seq<Item<T>>): seq<T> {
    if v == [] then [] else Flat(v[..|v| - 1]) + Rows(v[|v| - 1])
  }

  /** 50 pixels a head, 32 a shown child. */
  function Height<T>(v: seq<Item<T>>): int {
    if v == [] then 0
    else Height(v[..|v| - 1]) + 50 + if v[|v| - 1].collapse then 0 else 32 * |v[|v| - 1].children|
  }

  function Toggle<T>(v: seq<Item<T>>, j: nat): seq<Item<T>>
    requires j < |v|
  {
    v[j := v[j].(collapse := !v[j].collapse)]
  }

  /** What the model tells its view: rows `first` to `last` have appeared, or have gone. */
  datatype Announcement = Inserted(first: int, last: int) | Removed(first: int, last: int)

  /** The announcement is true of the change from one display list to the next. */
  ghost predicate Describes<T>(a: Announcement, before: seq<T>, after: seq<T>) {
    match a
    case Inserted(first, last) =>
      && 0 <= first <= |before| && first <= last + 1 && |after| == |before| + last + 1 - first
      && after[..first] == before[..first] && after[last + 1..] == before[first..]
    case Removed(first, last) =>
      && 0 <= first <= last + 1 <= |before| && |after| == |before| - (last + 1 - first)
      && after[..first] == before[..first] && after[first..] == before[last + 1..]
  }

  function Announce<T>(v: seq<Item<T>>, j: nat, row: nat): Announcement
    requires j < |v|
  {
    if v[j].collapse then Inserted(row + 1, row + |v[j].children|) else Removed(row + 1, row + |v[j].children|)
  }

  lemma {:induction false} FlatConcat<T>(v: seq<Item<T>>, w: seq<Item<T>>)
    ensures Flat(v + w) == Flat(v) + Flat(w)
    ensures Height(v + w) == Height(v) + Height(w)
  {
    if w == [] {
      assert v + w == v;
    } else {
      hide Rows;
      var u, r := w[..|w| - 1], Rows(w[|w| - 1]);
      assert (v + w)[..|v + w| - 1] == v + u && (v + w)[|v + w| - 1] == w[|w| - 1];
      FlatConcat(v, u);
      assert (Flat(v) + Flat(u)) + r == Flat(v) + (Flat(u) + r);
    }
  }

  lemma FlatNext<T>(v: seq<Item<T>>, i: nat)
    requires i < |v|
    ensures Flat(v[..i + 1]) == Flat(v[..i]) + Rows(v[i])
    ensures Height(v[..i + 1]) == Height(v[..i]) + 50 + if v[i].collapse then 0 else 32 * |v[i].children|
  {
    assert v[..i + 1][..i] == v[..i];
  }

  /** With all items collapsed the list shows the heads alone. */
  lemma {:induction false} AllCollapsed<T>(v: seq<Item<T>>)
    requires forall i :: 0 <= i < |v| ==> v[i].collapse
    ensures |Flat(v)| == |v| && Height(v) == 50 * |v|
    ensures forall i :: 0 <= i < |v| ==> Flat(v)[i] == v[i].head
  {
    if v != [] {
      AllCollapsed(v[..|v| - 1]);
    }
  }

  lemma FlatNone<T>()
    ensures Flat<T>([]) == [] && Height<T>([]) == 0
  {
  }

  /** The display list around item `j`. */
  lemma FlatAround<T>(v: seq<Item<T>>, j: nat)
    requires j < |v|
    ensures Flat(v) == Flat(v[..j]) + Rows(v[j]) + Flat(v[j + 1..])
    ensures Height(v) == Height(v[..j]) + Height([v[j]]) + Height(v[j + 1..])
  {
    hide Flat, Height, Rows;
    SplitAround(v, j);
    FlatConcat(v[..j] + [v[j]], v[j + 1..]);
    FlatConcat(v[..j], [v[j]]);
    FlatOne(v[j]);
  }

  lemma SplitAround<T>(s: seq<T>, j: nat)
    requires j < |s|
    ensures s == (s[..j] + [s[j]]) + s[j + 1..]
  {
  }

  lemma FlatOne<T>(item: Item<T>)
    ensures Flat([item]) == Rows(item)
    ensures Height([item]) == 50 + if item.collapse then 0 else 32 * |item.children|
  {
    assert [item][..0] == [];
  }

  lemma RowsOf<T>(item: Item<T>)
    ensures Rows(item) == if item.collapse then [item.head] else [item.head] + item.children
  {
  }

  lemma ToggleParts<T>(v: seq<Item<T>>, j: nat)
    requires j < |v|
    ensures var w := Toggle(v, j);
            && |w| == |v| && w[..j] == v[..j] && w[j + 1..] == v[j + 1..]
            && w[j] == v[j].(collapse := !v[j].collapse)
  {
  }

  /** Toggling twice restores the items, hence the list and the height. */
  lemma ToggleTwice<T>(v: seq<Item<T>>, j: nat)
    requires j < |v|
    ensures Toggle(Toggle(v, j), j) == v
  {
  }

  /** Toggling item `j` changes the recomputed list by exactly the announced rows, which are the
      item's children right below its head, and changes the height by 32 for each. */
  lemma ToggleDescribed<T>(v: seq<Item<T>>, j: nat)
    requires j < |v|
    ensures var w, row := Toggle(v, j), |Flat(v[..j])|;
            && row < |Flat(v)| && row < |Flat(w)| && Flat(v)[row] == v[j].head && Flat(w)[row] == v[j].head
            && Describes(Announce(v, j, row), Flat(v), Flat(w))
            && (if v[j].collapse then Shows(v, w, row, v[j].children) else Shows(w, v, row, v[j].children))
  {
    hide Flat, Height, Describes, Toggle, Shows;
    var w := Toggle(v, j);
    ToggleParts(v, j);
    if v[j].collapse {
      Expanding(v, j);
    } else {
      ToggleTwice(v, j);
      Expanding(w, j);
    }
  }

  /** `w` shows the same rows as `v` and `children` right below row `row`, and is that much higher. */
  ghost predicate Shows<T>(v: seq<Item<T>>, w: seq<Item<T>>, row: nat, children: seq<T>) {
    && row < |Flat(v)| && Flat(w) == Flat(v)[..row + 1] + children + Flat(v)[row + 1..]
    && Height(w) == Height(v) + 32 * |children|
  }

  lemma Expanding<T>(v: seq<Item<T>>, j: nat)
    requires j < |v| && v[j].collapse
    ensures var w, row, n := Toggle(v, j), |Flat(v[..j])|, |v[j].children|;
            && row < |Flat(v)| && row < |Flat(w)| && Flat(v)[row] == v[j].head && Flat(w)[row] == v[j].head
            && Describes(Inserted(row + 1, row + n), Flat(v), Flat(w))
            && Describes(Removed(row + 1, row + n), Flat(w), Flat(v))
            && Shows(v, w, row, v[j].children)
  {
    hide Flat, Height, Describes, Toggle;
    ExpandedLists(v, j);
    Splice(Flat(v[..j]), v[j].head, v[j].children, Flat(v[j + 1..]));
  }

  lemma ExpandedLists<T>(v: seq<Item<T>>, j: nat)
    requires j < |v| && v[j].collapse
    ensures var w, p, s := Toggle(v, j), Flat(v[..j]), Flat(v[j + 1..]);
            && Flat(v) == p + [v[j].head] + s && Flat(w) == p + ([v[j].head] + v[j].children) + s
            && Height(w) == Height(v) + 32 * |v[j].children|
  {
    hide Flat, Height, Rows, Toggle;
    var w := Toggle(v, j);
    ToggleParts(v, j);
    FlatAround(v, j);
    FlatAround(w, j);
    FlatOne(v[j]);
    FlatOne(w[j]);
    RowsOf(v[j]);
    RowsOf(w[j]);
  }

  /** A head without and with its children below it. */
  lemma Splice<T>(p: seq<T>, head: T, children: seq<T>, s: seq<T>)
    ensures var short, long := p + [head] + s, p + ([head] + children) + s;
            var row, n := |p|, |children|;
            && short[row] == head && long[row] == head && long == short[..row + 1] + children + short[row + 1..]
            && Describes(Inserted(row + 1, row + n), short, long)
            && Describes(Removed(row + 1, row + n), long, short)
  {
    var short, long := p + [head] + s, p + ([head] + children) + s;
    var row, n := |p|, |children|;
    assert long[..row + 1] == p + [head] == short[..row + 1];
    assert long[row + n + 1..] == s == short[row + 1..];
    assert long == (p + [head]) + children + s;
  }

  /** Every row is the head of an item, at the place the items before it leave, or one of its
      children. */
  lemma {:induction false} RowOwner<T>(v: seq<Item<T>>, row: nat) returns (j: nat)
    requires row < |Flat(v)|
    ensures j < |v|
    ensures (row == |Flat(v[..j])| && Flat(v)[row] == v[j].head) || Flat(v)[row] in v[j].children
  {
    var r := v[..|v| - 1];
    if row < |Flat(r)| {
      j := RowOwner(r, row);
      assert r[..j] == v[..j];
    } else {
      j := |v| - 1;
    }
  }
}
