/** The canonical order of endpoint lists: sorted by every field, one endpoint per address. */
module Endpoints {
  import opened Basics

  // ---------------------------------------------------------------------------
  // The order
  // ---------------------------------------------------------------------------

  function CompareInts(a: int, b: int): int {
    if a < b then -1 else if a > b then 1 else 0
  }

  /** Byte by byte, a proper prefix first. */
  function CompareStrings(a: string, b: string): int {
    if a == "" then (if b == "" then 0 else -1)
    else if b == "" then 1
    else if a[0] != b[0] then (if a[0] < b[0] then -1 else 1)
    else CompareStrings(a[1..], b[1..])
  }

  function CompareLists(a: seq<string>, b: seq<string>): int {
    if a == [] then (if b == [] then 0 else -1)
    else if b == [] then 1
    else
      var c := CompareStrings(a[0], b[0]);
      if c != 0 then c else CompareLists(a[1..], b[1..])
  }

  /** Every field counts, host and port first. */
  function Compare(a: Endpoint, b: Endpoint): int {
    var host := CompareStrings(a.host, b.host);
    var port := CompareInts(a.port, b.port);
    var name := CompareStrings(a.name, b.name);
    var zone := CompareStrings(a.zone, b.zone);
    var node := CompareStrings(a.nodeName, b.nodeName);
    if host != 0 then host
    else if port != 0 then port
    else if name != 0 then name
    else if zone != 0 then zone
    else if node != 0 then node
    else CompareLists(a.forZones, b.forZones)
  }

  predicate Leq(a: Endpoint, b: Endpoint) {
    Compare(a, b) <= 0
  }

  predicate SameAddress(a: Endpoint, b: Endpoint) {
    a.host == b.host && a.port == b.port
  }

  /** Order of addresses alone. */
  predicate AddressLess(a: Endpoint, b: Endpoint) {
    var host := CompareStrings(a.host, b.host);
    host < 0 || (host == 0 && a.port < b.port)
  }

  lemma {:induction false} StringOrder(a: string, b: string, c: string)
    ensures CompareStrings(a, b) == 0 <==> a == b
    ensures CompareStrings(b, a) == -CompareStrings(a, b)
    ensures CompareStrings(a, b) <= 0 && CompareStrings(b, c) <= 0 ==> CompareStrings(a, c) <= 0
    decreases |a| + |b| + |c|
  {
    if a != "" && b != "" {
      assert a == [a[0]] + a[1..] && b == [b[0]] + b[1..];
      if c != "" {
        StringOrder(a[1..], b[1..], c[1..]);
      } else {
        StringOrder(a[1..], b[1..], c);
      }
    }
  }

  /** `a` runs out, or has the smaller byte, where the two first differ. */
  predicate FirstDifference(a: string, b: string, k: nat) {
    && k < |b| && k <= |a| && a[..k] == b[..k]
    && (k == |a| || a[k] < b[k])
  }

  /** Strings come in the order of their bytes. */
  lemma {:induction false} StringsByBytes(a: string, b: string)
    ensures CompareStrings(a, b) < 0 <==> exists k: nat :: FirstDifference(a, b, k)
  {
    if a != "" && b != "" && a[0] == b[0] {
      StringsByBytes(a[1..], b[1..]);
      assert a == [a[0]] + a[1..] && b == [b[0]] + b[1..];
      if k: nat :| FirstDifference(a[1..], b[1..], k) {
        assert a[..k + 1] == [a[0]] + a[1..][..k] && b[..k + 1] == [b[0]] + b[1..][..k];
        assert FirstDifference(a, b, k + 1);
      }
      if k: nat :| FirstDifference(a, b, k) {
        assert k > 0;
        assert a[1..][..k - 1] == a[..k][1..] && b[1..][..k - 1] == b[..k][1..];
        assert FirstDifference(a[1..], b[1..], k - 1);
      }
    } else {
      assert b != "" && (a == "" || a[0] < b[0]) ==> FirstDifference(a, b, 0);
      if k: nat :| FirstDifference(a, b, k) {
        assert a != "" && k > 0 ==> a[..k][0] == b[..k][0];
      }
    }
  }

  lemma {:induction false} ListOrder(a: seq<string>, b: seq<string>, c: seq<string>)
    ensures CompareLists(a, b) == 0 <==> a == b
    ensures CompareLists(b, a) == -CompareLists(a, b)
    ensures CompareLists(a, b) <= 0 && CompareLists(b, c) <= 0 ==> CompareLists(a, c) <= 0
    decreases |a| + |b| + |c|
  {
    hide CompareStrings;
    if a != [] && b != [] {
      assert a == [a[0]] + a[1..] && b == [b[0]] + b[1..];
      if c != [] {
        StringOrder(a[0], b[0], c[0]);
        StringOrder(b[0], c[0], a[0]);
        StringOrder(a[0], c[0], b[0]);
        ListOrder(a[1..], b[1..], c[1..]);
      } else {
        StringOrder(a[0], b[0], a[0]);
        ListOrder(a[1..], b[1..], c);
      }
    }
  }

  /** Compare is a total order on whole endpoints, so nothing is left to iteration order. */
  lemma CompareIsTotalOrder(a: Endpoint, b: Endpoint, c: Endpoint)
    ensures Compare(a, b) == 0 <==> a == b
    ensures Compare(b, a) == -Compare(a, b)
    ensures Leq(a, b) && Leq(b, c) ==> Leq(a, c)
  {
    hide CompareStrings, CompareLists;
    FieldOrder(a.host, b.host, c.host);
    FieldOrder(a.name, b.name, c.name);
    FieldOrder(a.zone, b.zone, c.zone);
    FieldOrder(a.nodeName, b.nodeName, c.nodeName);
    ListOrder(a.forZones, b.forZones, c.forZones);
  }

  lemma FieldOrder(a: string, b: string, c: string)
    ensures CompareStrings(a, b) == 0 <==> a == b
    ensures CompareStrings(b, c) == 0 <==> b == c
    ensures CompareStrings(a, c) == 0 <==> a == c
    ensures CompareStrings(b, a) == -CompareStrings(a, b)
    ensures CompareStrings(a, b) <= 0 && CompareStrings(b, c) <= 0 ==> CompareStrings(a, c) <= 0
  {
    hide CompareStrings;
    StringOrder(a, b, c);
    StringOrder(b, c, a);
    StringOrder(a, c, b);
  }

  // ---------------------------------------------------------------------------
  // Sorting and compacting
  // ---------------------------------------------------------------------------

  predicate Ascending(s: seq<Endpoint>) {
    forall i, j | 0 <= i < j < |s| :: Leq(s[i], s[j])
  }

  function Insert(s: seq<Endpoint>, e: Endpoint): seq<Endpoint> {
    if s == [] || Leq(e, s[0]) then [e] + s else [s[0]] + Insert(s[1..], e)
  }

  function Sorted(s: seq<Endpoint>): seq<Endpoint> {
    if s == [] then [] else Insert(Sorted(s[..|s| - 1]), s[|s| - 1])
  }

  /** The first of every run of equal addresses. */
  function Compact(s: seq<Endpoint>): seq<Endpoint> {
    if s == [] then []
    else
      var n := |s| - 1;
      var front := Compact(s[..n]);
      if n > 0 && SameAddress(s[n - 1], s[n]) then front else front + [s[n]]
  }

  function Canonical(s: seq<Endpoint>): seq<Endpoint> {
    Compact(Sorted(s))
  }

  lemma {:induction false} InsertAddsOne(s: seq<Endpoint>, e: Endpoint)
    ensures multiset(Insert(s, e)) == multiset(s) + multiset{e}
    decreases s
  {
    hide Leq;
    if s != [] && !Leq(e, s[0]) {
      assert s == [s[0]] + s[1..];
      InsertAddsOne(s[1..], e);
    }
  }

  lemma {:induction false} InsertKeepsAscending(s: seq<Endpoint>, e: Endpoint)
    requires Ascending(s)
    ensures Ascending(Insert(s, e))
    decreases s
  {
    hide Leq;
    if s != [] {
      CompareIsTotalOrderAll();
      if Leq(e, s[0]) {
        forall x | x in s ensures Leq(e, x) {
          FirstIsLeast(s, x);
        }
      } else {
        InsertKeepsAscending(s[1..], e);
        InsertAddsOne(s[1..], e);
        var r := Insert(s[1..], e);
        forall x | x in r ensures Leq(s[0], x) {
          assert x in multiset(r);
          assert x == e || x in s;
          if x in s {
            FirstIsLeast(s, x);
          }
        }
        hide Insert;
        PrependKeepsAscending(s[0], r);
        InsertUnfolds(s, e);
      }
    }
  }

  lemma InsertUnfolds(s: seq<Endpoint>, e: Endpoint)
    requires s != [] && !Leq(e, s[0])
    ensures Insert(s, e) == [s[0]] + Insert(s[1..], e)
  {}

  lemma PrependKeepsAscending(x: Endpoint, r: seq<Endpoint>)
    requires Ascending(r) && forall y | y in r :: Leq(x, y)
    ensures Ascending([x] + r)
  {
    hide Leq;
  }

  lemma CompareIsTotalOrderAll()
    ensures forall a, b, c :: Leq(a, b) && Leq(b, c) ==> Leq(a, c)
    ensures forall a, b :: Leq(a, b) || Leq(b, a)
    ensures forall a, b :: Leq(a, b) && Leq(b, a) ==> a == b
  {
    forall a, b, c ensures Leq(a, b) && Leq(b, c) ==> Leq(a, c) {
      CompareIsTotalOrder(a, b, c);
    }
    forall a, b ensures Leq(a, b) || Leq(b, a) {
      CompareIsTotalOrder(a, b, a);
    }
    forall a, b ensures Leq(a, b) && Leq(b, a) ==> a == b {
      CompareIsTotalOrder(a, b, a);
    }
  }

  lemma {:induction false} SortedIsSorted(s: seq<Endpoint>)
    ensures Ascending(Sorted(s)) && multiset(Sorted(s)) == multiset(s)
  {
    if s != [] {
      hide Ascending, Insert;
      var n := |s| - 1;
      SortedIsSorted(s[..n]);
      InsertKeepsAscending(Sorted(s[..n]), s[n]);
      InsertAddsOne(Sorted(s[..n]), s[n]);
      assert s == s[..n] + [s[n]];
    } else {
      assert Ascending([]);
    }
  }

  lemma FirstIsLeast(s: seq<Endpoint>, e: Endpoint)
    requires Ascending(s) && e in s
    ensures Leq(s[0], e)
  {
    CompareIsTotalOrder(e, e, e);
    hide Compare;
  }

  lemma HeadsAgree(s: seq<Endpoint>, t: seq<Endpoint>)
    requires Ascending(s) && Ascending(t) && multiset(s) == multiset(t) && s != []
    ensures t != [] && s[0] == t[0] && multiset(s[1..]) == multiset(t[1..])
  {
    hide Ascending, Leq;
    SameMembers(s, t);
    assert s[0] in t;
    assert t[0] in s;
    FirstIsLeast(s, t[0]);
    FirstIsLeast(t, s[0]);
    CompareIsTotalOrder(s[0], t[0], s[0]);
    LeqIs(s[0], t[0]);
    LeqIs(t[0], s[0]);
    hide Compare;
    assert s == [s[0]] + s[1..] && t == [t[0]] + t[1..];
    assert multiset(s[1..]) == multiset(s) - multiset{s[0]};
  }

  lemma LeqIs(a: Endpoint, b: Endpoint)
    ensures Leq(a, b) <==> Compare(a, b) <= 0
  {}

  /** There is one ascending arrangement of a multiset, so the algorithm that sorts does not
      matter. */
  lemma {:induction false} AscendingIsUnique(s: seq<Endpoint>, t: seq<Endpoint>)
    requires Ascending(s) && Ascending(t) && multiset(s) == multiset(t)
    ensures s == t
    decreases s
  {
    hide Leq;
    if s == [] {
      assert |multiset(t)| == 0;
    } else {
      HeadsAgree(s, t);
      AscendingIsUnique(s[1..], t[1..]);
      assert s == [s[0]] + s[1..] && t == [t[0]] + t[1..];
    }
  }

  /** Canonicalising depends on the multiset of endpoints only. */
  lemma CanonicalIsFunctionOfMultiset(a: seq<Endpoint>, b: seq<Endpoint>)
    requires multiset(a) == multiset(b)
    ensures Canonical(a) == Canonical(b)
  {
    hide Sorted;
    SortedIsSorted(a);
    SortedIsSorted(b);
    AscendingIsUnique(Sorted(a), Sorted(b));
  }

  /** Whatever sorting routine is used. */
  lemma AnySortGivesCanonical(a: seq<Endpoint>, s: seq<Endpoint>)
    requires Ascending(s) && multiset(s) == multiset(a)
    ensures Compact(s) == Canonical(a)
  {
    hide Sorted;
    SortedIsSorted(a);
    AscendingIsUnique(s, Sorted(a));
  }

  predicate AddressesIncrease(s: seq<Endpoint>) {
    forall i, j | 0 <= i < j < |s| :: AddressLess(s[i], s[j])
  }

  lemma LeqOrdersAddresses(a: Endpoint, b: Endpoint)
    requires Leq(a, b)
    ensures SameAddress(a, b) || AddressLess(a, b)
  {
    StringOrder(a.host, b.host, a.host);
    hide CompareStrings;
  }

  /** No endpoint of `s` at the same address comes before `e`. */
  predicate LeastOfAddress(e: Endpoint, s: seq<Endpoint>) {
    e in s && forall f | f in s && SameAddress(e, f) :: Leq(e, f)
  }

  predicate Covered(f: Endpoint, s: seq<Endpoint>) {
    exists e :: e in s && SameAddress(e, f)
  }

  lemma {:induction false} CompactIncreases(s: seq<Endpoint>)
    requires Ascending(s)
    ensures AddressesIncrease(Compact(s)) && forall e | e in Compact(s) :: e in s
    decreases s
  {
    if s != [] {
      hide Compare, Leq, AddressLess, Compact;
      var n := |s| - 1;
      var front, last := s[..n], s[n];
      CompactUnfolds(s);
      CompactIncreases(front);
      if n == 0 || !SameAddress(s[n - 1], last) {
        NewAddress(s);
        forall e | e in Compact(front) ensures AddressLess(e, last) {
          assert e in front && !SameAddress(e, last);
          LastIsGreatest(s, e);
          LeqOrdersAddresses(e, last);
        }
      }
    }
  }

  lemma LastIsGreatest(s: seq<Endpoint>, e: Endpoint)
    requires s != [] && Ascending(s) && e in s
    ensures Leq(e, s[|s| - 1])
  {
    CompareIsTotalOrder(e, e, e);
    hide Compare;
  }

  lemma {:induction false} CompactCovers(s: seq<Endpoint>)
    ensures forall f | f in s :: Covered(f, Compact(s))
    decreases s
  {
    if s != [] {
      hide Compact;
      var n := |s| - 1;
      var front, last := s[..n], s[n];
      CompactUnfolds(s);
      CompactCovers(front);
      forall f | f in s ensures Covered(f, Compact(s)) {
        if f in front {
          CoveredByMore(f, Compact(front), [last]);
        } else if n > 0 && SameAddress(s[n - 1], last) {
          assert s[n - 1] in front && Covered(s[n - 1], Compact(front));
          SameCover(s[n - 1], last, Compact(front));
        } else {
          assert Compact(s)[|Compact(s)| - 1] == last;
          assert last in Compact(s) && SameAddress(last, last);
        }
      }
    }
  }

  lemma CoveredByMore(f: Endpoint, s: seq<Endpoint>, t: seq<Endpoint>)
    requires Covered(f, s)
    ensures Covered(f, s + t)
  {
    var e :| e in s && SameAddress(e, f);
    assert e in s + t;
  }

  lemma SameCover(f: Endpoint, g: Endpoint, s: seq<Endpoint>)
    requires Covered(f, s) && SameAddress(f, g)
    ensures Covered(g, s)
  {
    var e :| e in s && SameAddress(e, f);
    assert SameAddress(e, g);
  }

  lemma {:induction false} CompactIsLeast(s: seq<Endpoint>)
    requires Ascending(s)
    ensures forall e | e in Compact(s) :: LeastOfAddress(e, s)
    decreases s
  {
    if s != [] {
      hide Compare, Leq, Compact, SameAddress;
      var n := |s| - 1;
      var front, last := s[..n], s[n];
      assert s == front + [last];
      CompactUnfolds(s);
      CompactIsLeast(front);
      forall e | e in Compact(s) ensures LeastOfAddress(e, s) {
        LastIsGreatest(s, last);
        if e in Compact(front) {
          assert LeastOfAddress(e, front) && e in front;
          LastIsGreatest(s, e);
        } else {
          NewAddress(s);
          Reversed(last, front);
        }
      }
    }
  }

  lemma Reversed(e: Endpoint, s: seq<Endpoint>)
    requires forall f | f in s :: !SameAddress(f, e)
    ensures forall f | f in s :: !SameAddress(e, f)
  {
    forall f | f in s ensures !SameAddress(e, f) {
      assert !SameAddress(f, e);
    }
  }

  lemma CompactUnfolds(s: seq<Endpoint>)
    requires s != []
    ensures var n := |s| - 1;
      Compact(s) == if n > 0 && SameAddress(s[n - 1], s[n]) then Compact(s[..n]) else Compact(s[..n]) + [s[n]]
  {}

  /** If the last two differ in address, the last address occurs nowhere before. */
  lemma NewAddress(s: seq<Endpoint>)
    requires s != [] && Ascending(s)
    requires |s| == 1 || !SameAddress(s[|s| - 2], s[|s| - 1])
    ensures var last := s[|s| - 1]; forall e | e in s[..|s| - 1] :: !SameAddress(e, last)
  {
    hide Compare, CompareStrings;
    var n := |s| - 1;
    forall i | 0 <= i < n ensures !SameAddress(s[i], s[n]) {
      assert i < n - 1 ==> Leq(s[i], s[n - 1]);
      assert Leq(s[n - 1], s[n]);
      StringOrder(s[n - 1].host, s[n].host, s[n].host);
      if SameAddress(s[i], s[n]) && i < n - 1 {
        LeqOrdersAddresses(s[i], s[n - 1]);
        LeqOrdersAddresses(s[n - 1], s[n]);
        StringOrder(s[n].host, s[n - 1].host, s[n].host);
      }
    }
  }

  /** The published list: increasing addresses, exactly the given ones, each represented by
      its least endpoint. */
  lemma CanonicalCoversAddresses(a: seq<Endpoint>)
    ensures AddressesIncrease(Canonical(a))
    ensures forall e | e in Canonical(a) :: LeastOfAddress(e, a)
    ensures forall f | f in a :: Covered(f, Canonical(a))
  {
    var s := Sorted(a);
    SortedIsSorted(a);
    CompactIncreases(s);
    CompactCovers(s);
    CompactIsLeast(s);
    SameMembers(a, s);
    hide Sorted, Compact, SameAddress, Covered, AddressesIncrease, Ascending, Leq;
  }

  lemma SameMembers(a: seq<Endpoint>, s: seq<Endpoint>)
    requires multiset(a) == multiset(s)
    ensures forall e :: e in a <==> e in s
  {
    assert forall e :: e in a <==> e in multiset(a);
    assert forall e :: e in s <==> e in multiset(s);
  }
}
