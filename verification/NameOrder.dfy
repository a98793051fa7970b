/** QString's order on names, and the ascending key order of a QMap. */
module NameOrder {

  predicate Less(a: string, b: string) {
    b != "" && (a == "" || a[0] < b[0] || (a[0] == b[0] && Less(a[1..], b[1..])))
  }

  /** A name is less than another if it is a proper prefix of it, or if its character is the smaller
      one where the two first differ. */
  lemma {:induction false} LessIff(a: string, b: string)
    ensures Less(a, b) <==> (a <= b && a != b) || exists n: nat :: SmallerAt(a, b, n)
  {
    if a != "" && b != "" && a[0] == b[0] {
      LessIff(a[1..], b[1..]);
      assert a == [a[0]] + a[1..] && b == [b[0]] + b[1..];
      if n: nat :| SmallerAt(a[1..], b[1..], n) {
        assert a[..n + 1] == [a[0]] + a[1..][..n] && b[..n + 1] == [b[0]] + b[1..][..n];
        assert SmallerAt(a, b, n + 1);
      }
      if n: nat :| SmallerAt(a, b, n) {
        assert a[1..][..n - 1] == a[..n][1..] && b[1..][..n - 1] == b[..n][1..];
        assert SmallerAt(a[1..], b[1..], n - 1);
      }
    } else if a != "" && b != "" {
      assert a[0] < b[0] ==> SmallerAt(a, b, 0);
      assert forall n: nat :: SmallerAt(a, b, n) && n > 0 ==> a[..n][0] == b[..n][0];
    }
  }

  /** The names agree up to `n`, where `a` has the smaller character. */
  predicate SmallerAt(a: string, b: string, n: nat) {
    n < |a| && n < |b| && a[..n] == b[..n] && a[n] < b[n]
  }

  lemma {:induction false} LessTotal(a: string, b: string)
    ensures a == b <==> !Less(a, b) && !Less(b, a)
    ensures !(Less(a, b) && Less(b, a))
  {
    if a != "" && b != "" && a[0] == b[0] {
      LessTotal(a[1..], b[1..]);
      assert a == [a[0]] + a[1..] && b == [b[0]] + b[1..];
    }
  }

  lemma {:induction false} LessTransitive(a: string, b: string, c: string)
    requires Less(a, b) && Less(b, c)
    ensures Less(a, c)
  {
    if a != "" && a[0] == b[0] == c[0] {
      LessTransitive(a[1..], b[1..], c[1..]);
    }
  }

  predicate Ascending(ks: seq<string>) { forall i, j :: 0 <= i < j < |ks| ==> Less(ks[i], ks[j]) }

  /** The place of a new name in an ascending list. */
  method Place(ks: seq<string>, x: string) returns (p: nat)
    requires Ascending(ks) && x !in ks
    ensures p <= |ks| && Ascending(ks[..p] + [x] + ks[p..])
  {
    p := 0;
    while p < |ks| && Less(ks[p], x)
      invariant p <= |ks| && forall i :: 0 <= i < p ==> Less(ks[i], x)
    {
      p := p + 1;
    }
    forall j | p <= j < |ks| ensures Less(x, ks[j]) {
      LessTotal(ks[p], x);
      if p < j {
        LessTransitive(x, ks[p], ks[j]);
      }
    }
  }

  /** The keys of a map in the order its iterator visits them. */
  method InOrder(keys: set<string>) returns (ks: seq<string>)
    ensures Ascending(ks) && forall k :: k in ks <==> k in keys
  {
    ks := [];
    var left := keys;
    while left != {}
      invariant left <= keys && Ascending(ks)
      invariant forall k :: k in ks <==> k in keys && k !in left
      decreases |left|
    {
      var x :| x in left;
      var p := Place(ks, x);
      assert ks == ks[..p] + ks[p..];
      ks := ks[..p] + [x] + ks[p..];
      left := left - {x};
    }
  }

  lemma SomeMember(b: seq<string>)
    ensures b != [] ==> exists k :: k in b
  {
    if b != [] {
      assert b[0] in b;
    }
  }

  /** An ascending list is determined by its members. */
  lemma {:induction false} AscendingUnique(a: seq<string>, b: seq<string>)
    requires Ascending(a) && Ascending(b) && forall k :: k in a <==> k in b
    ensures a == b
  {
    if a == [] {
      SomeMember(b);
    } else {
      assert a[0] in b && b != [] && b[0] in a;
      LessTotal(a[0], b[0]);
      LessTotal(a[0], a[0]);
      forall k ensures k in a[1..] <==> k in b[1..] {
        if k in a[1..] {
          LessTotal(k, a[0]);
          assert k in a && k != a[0];
        }
        if k in b[1..] {
          LessTotal(k, b[0]);
          assert k in b && k != b[0];
        }
      }
      AscendingUnique(a[1..], b[1..]);
    }
  }
}
