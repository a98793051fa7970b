/** The delegates a wallet votes for: DataMgr's cached list over the data base table (datamgr.cpp),
    and the page of DelegatesPage that shows it ten at a time (delegatespage.cpp). */
module VoteDelegates {

  datatype DelegateAccount = DelegateAccount(id: int, name: string, votesNum: string, votesPercent: string)

  const PAGE_ROW_MAX := 10

  predicate AscendingIds(s: seq<DelegateAccount>) { forall i, j :: 0 <= i < j < |s| ==> s[i].id < s[j].id }

  predicate DistinctIds(s: seq<DelegateAccount>) { forall i, j :: 0 <= i < j < |s| ==> s[i].id != s[j].id }

  function Ids(s: seq<DelegateAccount>): set<int> { set k | 0 <= k < |s| :: s[k].id }

  /** The ids in list order. */
  function IdList(s: seq<DelegateAccount>): (r: seq<int>)
    ensures |r| == |s|
  {
    seq(|s|, k requires 0 <= k < |s| => s[k].id)
  }

  /** The list and the table hold the same accounts, the list by ascending id. */
  ghost predicate Agrees(s: seq<DelegateAccount>, table: map<int, DelegateAccount>) {
    && AscendingIds(s) && Ids(s) == table.Keys
    && forall k :: 0 <= k < |s| ==> s[k].id in table && table[s[k].id] == s[k]
  }

  /** Adding the id if it is absent, removing it if it is there. */
  function Toggle(ids: set<int>, id: int): set<int> {
    if id in ids then ids - {id} else ids + {id}
  }

  /** What a click on the shown record `account` makes of the table. */
  function Clicked(table: map<int, DelegateAccount>, account: DelegateAccount): map<int, DelegateAccount> {
    if account.id in table then table - {account.id} else table[account.id := account]
  }

  /** The `p`-th slice of at most ten. */
  function Page<T>(s: seq<T>, p: nat): (page: seq<T>)
    requires p >= 1
    ensures |page| <= 10
  {
    var start, end := (p - 1) * PAGE_ROW_MAX, p * PAGE_ROW_MAX;
    if |s| <= start then [] else if |s| < end then s[start..] else s[start..end]
  }

  function PageCount(n: nat): (c: nat)
    ensures c >= 1
  {
    if n == 0 then 1 else (n + PAGE_ROW_MAX - 1) / PAGE_ROW_MAX
  }

  class Delegates {
    var cache: seq<DelegateAccount>
    var table: map<int, DelegateAccount>
    var pageNum: int
    var totalPageNum: int
    var requested: seq<int>

    ghost predicate Valid()
      reads this
    {
      Agrees(cache, table)
    }

    /** Loading the cache from the rows of the table, which come in any order. */
    constructor (rows: seq<DelegateAccount>, table: map<int, DelegateAccount>)
      requires DistinctIds(rows) && Ids(rows) == table.Keys
      requires forall k :: 0 <= k < |rows| ==> rows[k].id in table && table[rows[k].id] == rows[k]
      ensures Valid() && this.table == table
    {
      cache, this.table := rows, table;
      pageNum, totalPageNum, requested := 1, 1, [];
      new;
      cache := SortVoteDelegateAccount(cache);
      SortedAgrees(rows, cache, table);
    }

    method IsVoteDelegate(accountId: int) returns (found: bool)
      ensures found == (accountId in Ids(cache))
    {
      for i := 0 to |cache|
        invariant forall k :: 0 <= k < i ==> cache[k].id != accountId
      {
        if cache[i].id == accountId {
          return true;
        }
      }
      return false;
    }

    method SaveVoteDelegateAccount(account: DelegateAccount) returns (saved: bool)
      requires Valid()
      modifies this`cache, this`table
      ensures Valid() && saved == (account.id !in old(table))
      ensures table == if saved then old(table)[account.id := account] else old(table)
    {
      var known := IsVoteDelegate(account.id);
      if known {
        return false;
      }
      AppendNew(cache, account);
      cache := cache + [account];
      ghost var unsorted := cache;
      cache := SortVoteDelegateAccount(cache);
      table := table[account.id := account];
      SortedAgrees(unsorted, cache, table);
      return true;
    }

    method DeleteVoteDelegateAccount(accountId: int)
      requires Valid()
      modifies this`cache, this`table
      ensures Valid() && table == old(table) - {accountId}
    {
      ghost var was := cache;
      var i := 0;
      while i < |cache|
        invariant i <= |cache| && cache == was
        invariant forall k :: 0 <= k < i ==> cache[k].id != accountId
      {
        if cache[i].id == accountId {
          RemoveAt(cache, i);
          cache := cache[..i] + cache[i + 1..];
          break;
        }
        i := i + 1;
      }
      table := table - {accountId};
    }

    /** goToSupportedPage: the page is clamped to the last one, and its delegates are requested. */
    method GoToSupportedPage(num: int)
      requires num >= 1
      modifies this`pageNum, this`totalPageNum, this`requested
      ensures totalPageNum == PageCount(|cache|) && 1 <= pageNum <= totalPageNum
      ensures pageNum == if num > totalPageNum then totalPageNum else num
      ensures requested == IdList(Page(cache, pageNum)) && (cache != [] ==> requested != [])
      ensures |requested| == (if |cache| < pageNum * 10 then |cache| else pageNum * 10) - (pageNum - 1) * 10
      ensures forall k :: 0 <= k < |requested| ==> requested[k] == cache[(pageNum - 1) * 10 + k].id
    {
      hide IdList, Page;
      totalPageNum := |cache| / PAGE_ROW_MAX + if |cache| % PAGE_ROW_MAX != 0 then 1 else 0;
      totalPageNum := if totalPageNum == 0 then 1 else totalPageNum;
      pageNum := if num > totalPageNum then totalPageNum else num;
      var startNum := (pageNum - 1) * PAGE_ROW_MAX;
      var endNum := startNum + PAGE_ROW_MAX;
      endNum := if |cache| < endNum then |cache| else endNum;
      var accounts: seq<int> := [];
      var i := startNum;
      while i < endNum
        invariant startNum <= i && (i <= endNum || endNum < startNum)
        invariant |accounts| == i - startNum
        invariant forall k :: 0 <= k < |accounts| ==> accounts[k] == cache[startNum + k].id
      {
        accounts := accounts + [cache[i].id];
        i := i + 1;
      }
      requested := accounts;
      PageIds(cache, pageNum, requested);
    }

    /** onCheckboxClicked for the delegate `account`; on the tab of supported delegates the current
        page is shown again after a removal. */
    method OnCheckboxClicked(account: DelegateAccount, supportedTab: bool)
      requires Valid() && pageNum >= 1
      modifies this
      ensures Valid() && table == Clicked(old(table), account) && pageNum >= 1
      ensures table.Keys == Toggle(old(table.Keys), account.id)
      ensures account.id in old(table) && supportedTab ==>
                && totalPageNum == PageCount(|cache|)
                && pageNum == (if old(pageNum) > totalPageNum then totalPageNum else old(pageNum))
                && requested == IdList(Page(cache, pageNum)) && (cache != [] ==> requested != [])
      ensures !(account.id in old(table) && supportedTab) ==>
                pageNum == old(pageNum) && totalPageNum == old(totalPageNum) && requested == old(requested)
    {
      var voted := IsVoteDelegate(account.id);
      if voted {
        DeleteVoteDelegateAccount(account.id);
        if supportedTab {
          GoToSupportedPage(pageNum);
        }
      } else {
        var saved := SaveVoteDelegateAccount(account);
      }
    }
  }

  /** qSort by id; ids being distinct, the order is fully determined. */
  method SortVoteDelegateAccount(s: seq<DelegateAccount>) returns (r: seq<DelegateAccount>)
    requires DistinctIds(s)
    ensures AscendingIds(r) && Ids(r) == Ids(s) && forall x :: x in r <==> x in s
  {
    r := [];
    for i := 0 to |s|
      invariant AscendingIds(r) && forall x :: x in r <==> x in s[..i]
    {
      forall k | 0 <= k < |r| ensures r[k].id != s[i].id {
        assert r[k] in s[..i];
      }
      var p := PlaceById(r, s[i]);
      assert r == r[..p] + r[p..] && s[..i + 1] == s[..i] + [s[i]];
      r := r[..p] + [s[i]] + r[p..];
    }
    assert s[..|s|] == s;
    IdsOfMembers(r, s);
  }

  /** The ids of a slice of ten, place by place, are those of the page. */
  lemma PageIds(s: seq<DelegateAccount>, p: nat, r: seq<int>)
    requires 1 <= p <= PageCount(|s|)
    requires |r| == (if |s| < p * 10 then |s| else p * 10) - (p - 1) * 10
    requires forall k :: 0 <= k < |r| ==> r[k] == s[(p - 1) * 10 + k].id
    ensures r == IdList(Page(s, p)) && (s != [] ==> r != [])
  {
    assert |Page(s, p)| == |r|;
  }

  method PlaceById(r: seq<DelegateAccount>, x: DelegateAccount) returns (p: nat)
    requires AscendingIds(r) && forall k :: 0 <= k < |r| ==> r[k].id != x.id
    ensures p <= |r| && AscendingIds(r[..p] + [x] + r[p..])
  {
    p := |r|;
    while p > 0 && x.id < r[p - 1].id
      invariant p <= |r| && forall k :: p <= k < |r| ==> x.id < r[k].id
    {
      p := p - 1;
    }
  }

  lemma IdsOfMembers(r: seq<DelegateAccount>, s: seq<DelegateAccount>)
    requires forall x :: x in r <==> x in s
    ensures Ids(r) == Ids(s)
  {
    forall id ensures id in Ids(r) <==> id in Ids(s) {
      if k :| 0 <= k < |r| && r[k].id == id {
        assert r[k] in s;
      }
      if k :| 0 <= k < |s| && s[k].id == id {
        assert s[k] in r;
      }
    }
  }

  lemma AppendNew(s: seq<DelegateAccount>, x: DelegateAccount)
    requires AscendingIds(s) && x.id !in Ids(s)
    ensures DistinctIds(s + [x]) && Ids(s + [x]) == Ids(s) + {x.id}
  {
    forall id | id in Ids(s) + {x.id} ensures id in Ids(s + [x]) {
      if k :| 0 <= k < |s| && s[k].id == id {
        assert (s + [x])[k].id == id;
      } else {
        assert (s + [x])[|s|].id == id;
      }
    }
  }

  lemma SortedAgrees(s: seq<DelegateAccount>, r: seq<DelegateAccount>, table: map<int, DelegateAccount>)
    requires AscendingIds(r) && Ids(r) == table.Keys && forall x :: x in r <==> x in s
    requires forall k :: 0 <= k < |s| ==> s[k].id in table && table[s[k].id] == s[k]
    ensures Agrees(r, table)
  {
    forall k | 0 <= k < |r| ensures r[k].id in table && table[r[k].id] == r[k] {
      assert r[k] in s;
    }
  }

  lemma RemoveAt(s: seq<DelegateAccount>, i: nat)
    requires AscendingIds(s) && i < |s|
    ensures var r := s[..i] + s[i + 1..]; AscendingIds(r) && Ids(r) == Ids(s) - {s[i].id}
  {
    var r := s[..i] + s[i + 1..];
    forall id ensures id in Ids(r) <==> id in Ids(s) && id != s[i].id {
      if k :| 0 <= k < |r| && r[k].id == id {
        assert r[k] == s[if k < i then k else k + 1];
      }
      if k :| 0 <= k < |s| && s[k].id == id && k != i {
        assert s[k] == r[if k < i then k else k - 1];
      }
    }
  }

  // ---------- properties ----------

  /** The cached list is a function of the table: there is only one list that agrees with it. */
  lemma CacheDetermined(a: seq<DelegateAccount>, b: seq<DelegateAccount>, table: map<int, DelegateAccount>)
    requires Agrees(a, table) && Agrees(b, table)
    ensures a == b
  {
    forall x ensures x in a <==> x in b {
      if x in a {
        InOther(a, b, table, x);
      }
      if x in b {
        InOther(b, a, table, x);
      }
    }
    AgreesUnique(a, b);
  }

  lemma InOther(a: seq<DelegateAccount>, b: seq<DelegateAccount>, table: map<int, DelegateAccount>, x: DelegateAccount)
    requires Agrees(a, table) && Agrees(b, table) && x in a
    ensures x in b
  {
    assert x.id in Ids(b);
    var k :| 0 <= k < |b| && b[k].id == x.id;
    assert b[k] == x;
  }

  lemma {:induction false} AgreesUnique(a: seq<DelegateAccount>, b: seq<DelegateAccount>)
    requires AscendingIds(a) && AscendingIds(b) && forall x :: x in a <==> x in b
    ensures a == b
  {
    if a == [] || b == [] {
      Member(a);
      Member(b);
    } else {
      Member(a);
      Member(b);
      assert a[0] == b[0];
      forall x ensures x in a[1..] <==> x in b[1..] {
        if x in a[1..] {
          assert x in b && x.id > a[0].id;
        }
        if x in b[1..] {
          assert x in a && x.id > b[0].id;
        }
      }
      AgreesUnique(a[1..], b[1..]);
    }
  }

  lemma Member<T>(s: seq<T>)
    ensures s != [] ==> s[0] in s
  {
  }

  /** Two clicks on a delegate, showing `first` and then `second`, restore the ids and with them
      every page's request; they restore the list exactly if the delegate was not voted for, or if
      the record saved by the second click is the one the first removed. */
  lemma TwoClicks(before: seq<DelegateAccount>, after: seq<DelegateAccount>, table: map<int, DelegateAccount>,
                  first: DelegateAccount, second: DelegateAccount)
    requires first.id == second.id
    requires Agrees(before, table) && Agrees(after, Clicked(Clicked(table, first), second))
    ensures IdList(after) == IdList(before)
    ensures forall p :: p >= 1 ==> IdList(Page(after, p)) == IdList(Page(before, p))
    ensures after == before <==> first.id !in table || table[first.id] == second
  {
    hide Agrees, IdList, Page, Clicked;
    var twice := Clicked(Clicked(table, first), second);
    ClickedTwice(table, first, second);
    AgreesIds(before, table);
    AgreesIds(after, twice);
    SameIds(before, after);
    forall p | p >= 1 ensures IdList(Page(after, p)) == IdList(Page(before, p)) {
      PageOfIds(after, p);
      PageOfIds(before, p);
    }
    if twice == table {
      CacheDetermined(before, after, table);
    } else if before == after {
      OneTable(before, table, twice);
    }
  }

  lemma ClickedTwice(table: map<int, DelegateAccount>, first: DelegateAccount, second: DelegateAccount)
    requires first.id == second.id
    ensures var twice := Clicked(Clicked(table, first), second);
            && twice.Keys == table.Keys
            && (twice == table <==> first.id !in table || table[first.id] == second)
  {
    var twice := Clicked(Clicked(table, first), second);
    if first.id in table {
      assert twice[first.id] == second;
    }
  }

  lemma AgreesIds(s: seq<DelegateAccount>, table: map<int, DelegateAccount>)
    requires Agrees(s, table)
    ensures AscendingIds(s) && Ids(s) == table.Keys
  {
  }

  /** A list that agrees with it determines the table. */
  lemma OneTable(s: seq<DelegateAccount>, table: map<int, DelegateAccount>, other: map<int, DelegateAccount>)
    requires Agrees(s, table) && Agrees(s, other)
    ensures table == other
  {
    forall id | id in table ensures table[id] == other[id] {
      assert id in Ids(s);
    }
  }

  lemma PageOfIds(s: seq<DelegateAccount>, p: nat)
    requires p >= 1
    ensures IdList(Page(s, p)) == Page(IdList(s), p)
  {
  }

  /** Ascending lists with the same ids have them in the same places. */
  lemma {:induction false} SameIds(a: seq<DelegateAccount>, b: seq<DelegateAccount>)
    requires AscendingIds(a) && AscendingIds(b) && Ids(a) == Ids(b)
    ensures IdList(a) == IdList(b)
  {
    NoIds(a);
    NoIds(b);
    if a != [] {
      LastId(a);
      LastId(b);
      assert a[|a| - 1].id in Ids(b) && b[|b| - 1].id in Ids(a);
      SameIds(a[..|a| - 1], b[..|b| - 1]);
      assert IdList(a) == IdList(a[..|a| - 1]) + [a[|a| - 1].id];
      assert IdList(b) == IdList(b[..|b| - 1]) + [b[|b| - 1].id];
    }
  }

  lemma NoIds(s: seq<DelegateAccount>)
    ensures Ids(s) == {} <==> s == []
  {
    assert s != [] ==> s[|s| - 1].id in Ids(s);
  }

  lemma LastId(s: seq<DelegateAccount>)
    requires AscendingIds(s) && s != []
    ensures Ids(s[..|s| - 1]) == Ids(s) - {s[|s| - 1].id}
    ensures forall id :: id in Ids(s) ==> id <= s[|s| - 1].id
  {
    var r := s[..|s| - 1];
    RemoveAt(s, |s| - 1);
    assert s[..|s| - 1] + s[|s|..] == r;
  }

  /** A delegate whose votes have grown since it was voted for comes back with the new votes. */
  lemma SecondClickRenews()
    ensures var stored, shown := DelegateAccount(7, "d", "10", "1%"), DelegateAccount(7, "d", "11", "1%");
            var table := map[7 := stored];
            Agrees([stored], table) && Agrees([shown], Clicked(Clicked(table, shown), shown))
  {
    var stored, shown := DelegateAccount(7, "d", "10", "1%"), DelegateAccount(7, "d", "11", "1%");
    assert [stored][0].id in Ids([stored]) && [shown][0].id in Ids([shown]);
    assert Clicked(Clicked(map[7 := stored], shown), shown) == map[7 := shown];
  }

  function ToggleAll(ids: set<int>, clicks: seq<int>): set<int> {
    if clicks == [] then ids else Toggle(ToggleAll(ids, clicks[..|clicks| - 1]), clicks[|clicks| - 1])
  }

  function Count(clicks: seq<int>, id: int): nat {
    if clicks == [] then 0 else Count(clicks[..|clicks| - 1], id) + if clicks[|clicks| - 1] == id then 1 else 0
  }

  /** After any clicks an id is voted for exactly when it was and was clicked an even number of
      times, or was not and was clicked an odd number of times. */
  lemma {:induction false} ToggleAllByParity(ids: set<int>, clicks: seq<int>, id: int)
    ensures id in ToggleAll(ids, clicks) <==> (id in ids) != (Count(clicks, id) % 2 == 1)
  {
    if clicks != [] {
      ToggleAllByParity(ids, clicks[..|clicks| - 1], id);
    }
  }

  function Pages<T>(s: seq<T>, p: nat): seq<T> {
    if p == 0 then [] else Pages(s, p - 1) + Page(s, p)
  }

  /** The first `p` pages, one after the other, are the front of the list. */
  lemma {:induction false} PagesArePrefix<T>(s: seq<T>, p: nat)
    ensures Pages(s, p) == s[..if p * PAGE_ROW_MAX < |s| then p * PAGE_ROW_MAX else |s|]
  {
    if p > 0 {
      PagesArePrefix(s, p - 1);
    }
  }

  /** Pages 1 to the last together are the whole list; all but the last are full, and the last is
      not empty unless the list is. */
  lemma PagesCover<T>(s: seq<T>)
    ensures var c := PageCount(|s|);
            && Pages(s, c) == s
            && (forall p :: 1 <= p < c ==> |Page(s, p)| == 10)
            && (s != [] ==> Page(s, c) != [])
  {
    PagesArePrefix(s, PageCount(|s|));
  }
}
