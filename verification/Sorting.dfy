// What the sorting functions of Go's standard library promise: a permutation of the
// input without inversions.  Nothing else about them is used anywhere.
module Sorting {
  import Text

  ghost predicate Before<T>(less: (T, T) -> bool, x: T, y: T) {
    less(x, y)
  }

  // What sort.Slice asks of its comparison.
  ghost predicate StrictWeakOrder<T(!new)>(less: (T, T) -> bool) {
    && (forall x, y :: Before(less, x, y) ==> !Before(less, y, x))
    && (forall x, y, z :: Before(less, x, y) && Before(less, y, z) ==> Before(less, x, z))
    && (forall x, y, z :: !Before(less, x, y) && !Before(less, y, z) ==> !Before(less, x, z))
  }

  lemma Asymmetric<T(!new)>(less: (T, T) -> bool, x: T, y: T)
    requires StrictWeakOrder(less)
    ensures !(less(x, y) && less(y, x))
  {
    assert Before(less, x, y) ==> !Before(less, y, x);
  }

  lemma NotBelow<T(!new)>(less: (T, T) -> bool, x: T, y: T, z: T)
    requires StrictWeakOrder(less) && !less(x, y) && !less(y, z)
    ensures !less(x, z)
  {
    assert !Before(less, x, y) && !Before(less, y, z);
  }

  ghost predicate Sorted<T>(less: (T, T) -> bool, s: seq<T>) {
    forall i, j | 0 <= i < j < |s| :: !less(s[j], s[i])
  }

  // Every two different elements are ordered.
  ghost predicate TotalOn<T>(less: (T, T) -> bool, s: seq<T>) {
    forall x, y | x in s && y in s && x != y :: less(x, y) || less(y, x)
  }

  ghost predicate Distinct<T>(s: seq<T>) {
    forall i, j | 0 <= i < j < |s| :: s[i] != s[j]
  }

  // sort.Slice, sort.SliceStable, sort.Strings and sort.Ints
  method Sort<T(!new, ==)>(s: seq<T>, less: (T, T) -> bool) returns (r: seq<T>)
    requires StrictWeakOrder(less)
    ensures Sorted(less, r) && multiset(r) == multiset(s)
  {
    r := [];
    for i := 0 to |s|
      invariant Sorted(less, r) && multiset(r) == multiset(s[..i])
    {
      r := Insert(r, s[i], less);
      assert s[..i + 1] == s[..i] + [s[i]];
    }
    assert s[..|s|] == s;
  }

  method Insert<T(!new, ==)>(s: seq<T>, x: T, less: (T, T) -> bool) returns (r: seq<T>)
    requires StrictWeakOrder(less) && Sorted(less, s)
    ensures Sorted(less, r) && multiset(r) == multiset(s) + multiset{x}
  {
    var k := |s|;
    while k > 0 && less(x, s[k - 1])
      invariant 0 <= k <= |s|
      invariant forall j | k <= j < |s| :: less(x, s[j])
    {
      k := k - 1;
    }
    r := s[..k] + [x] + s[k..];
    assert multiset(r) == multiset(s) + multiset{x} by {
      assert s == s[..k] + s[k..];
    }
    Placed(s, x, less, k);
  }

  lemma Placed<T(!new)>(s: seq<T>, x: T, less: (T, T) -> bool, k: nat)
    requires StrictWeakOrder(less) && Sorted(less, s) && k <= |s|
    requires (forall j | k <= j < |s| :: less(x, s[j])) && (k > 0 ==> !less(x, s[k - 1]))
    ensures Sorted(less, s[..k] + [x] + s[k..])
  {
    forall j | k <= j < |s|
      ensures !less(s[j], x)
    {
      Asymmetric(less, x, s[j]);
    }
    forall j | 0 <= j < k
      ensures !less(x, s[j])
    {
      if j < k - 1 {
        NotBelow(less, x, s[k - 1], s[j]);
      }
    }
  }

  lemma SameElements<T>(a: seq<T>, b: seq<T>)
    requires multiset(a) == multiset(b)
    ensures |a| == |b| && forall x :: x in a <==> x in b
  {
    assert |multiset(a)| == |a| && |multiset(b)| == |b|;
    forall x
      ensures x in a <==> x in b
    {
      assert x in a <==> x in multiset(a);
      assert x in b <==> x in multiset(b);
    }
  }

  // Any two correct sorts agree when no two different elements tie.
  lemma {:induction false} SortUnique<T>(less: (T, T) -> bool, a: seq<T>, b: seq<T>)
    requires Sorted(less, a) && Sorted(less, b)
    requires multiset(a) == multiset(b) && TotalOn(less, a)
    ensures a == b
  {
    SameElements(a, b);
    if a != [] {
      SameFirst(less, a, b);
      RestMultiset(a);
      RestMultiset(b);
      SortUnique(less, a[1..], b[1..]);
    }
  }

  lemma RestMultiset<T>(s: seq<T>)
    requires s != []
    ensures multiset(s[1..]) == multiset(s) - multiset{s[0]}
    ensures s == [s[0]] + s[1..]
  {
    assert s == [s[0]] + s[1..];
  }

  lemma SameFirst<T>(less: (T, T) -> bool, a: seq<T>, b: seq<T>)
    requires Sorted(less, a) && Sorted(less, b) && TotalOn(less, a)
    requires a != [] && b != [] && forall x :: x in a <==> x in b
    ensures a[0] == b[0]
  {
    assert a[0] in b && b[0] in a;
  }

  // ---- ties ----

  ghost predicate Tied<T>(less: (T, T) -> bool, x: T, y: T) {
    !less(x, y) && !less(y, x)
  }

  lemma TiedToItself<T(!new)>(less: (T, T) -> bool, x: T)
    requires StrictWeakOrder(less)
    ensures Tied(less, x, x)
  {
    Asymmetric(less, x, x);
  }

  // Replacing elements by ones they tie with keeps a list sorted.
  lemma TiedSorted<T(!new)>(less: (T, T) -> bool, s: seq<T>, t: seq<T>)
    requires StrictWeakOrder(less) && Sorted(less, s) && |t| == |s|
    requires forall k | 0 <= k < |s| :: Tied(less, s[k], t[k])
    ensures Sorted(less, t)
  {
    forall i, j | 0 <= i < j < |t|
      ensures !less(t[j], t[i])
    {
      NotBelow(less, t[j], s[j], s[i]);
      NotBelow(less, t[j], s[i], t[i]);
    }
  }

  lemma Replaced<T>(s: seq<T>, i: nat, x: T)
    requires i < |s|
    ensures multiset(s[i := x]) == multiset(s) - multiset{s[i]} + multiset{x}
  {
    assert s == s[..i] + [s[i]] + s[i + 1..];
    assert s[i := x] == s[..i] + [x] + s[i + 1..];
  }

  // Two different elements that tie can change places.
  lemma Exchange<T(!new)>(less: (T, T) -> bool, s: seq<T>, i: nat, j: nat) returns (t: seq<T>)
    requires StrictWeakOrder(less) && Sorted(less, s)
    requires i < |s| && j < |s| && s[i] != s[j] && Tied(less, s[i], s[j])
    ensures Sorted(less, t) && multiset(t) == multiset(s) && t != s
  {
    var half := s[i := s[j]];
    t := half[j := s[i]];
    Replaced(s, i, s[j]);
    Replaced(half, j, s[i]);
    forall k | 0 <= k < |s|
      ensures Tied(less, s[k], t[k])
    {
      TiedToItself(less, s[k]);
    }
    TiedSorted(less, s, t);
  }

  // ---- sorted lists of strings without duplicates ----

  ghost predicate Ascending(s: seq<string>) {
    forall i, j | 0 <= i < j < |s| :: Text.Less(s[i], s[j])
  }

  lemma StringOrder()
    ensures StrictWeakOrder(Text.Less)
  {
    forall x, y
      ensures Before(Text.Less, x, y) ==> !Before(Text.Less, y, x)
    {
      Text.LessTotal(x, y);
    }
    forall x, y, z
      ensures Before(Text.Less, x, y) && Before(Text.Less, y, z) ==> Before(Text.Less, x, z)
      ensures !Before(Text.Less, x, y) && !Before(Text.Less, y, z) ==> !Before(Text.Less, x, z)
    {
      StringTransitive(x, y, z);
    }
  }

  lemma StringTransitive(x: string, y: string, z: string)
    ensures Text.Less(x, y) && Text.Less(y, z) ==> Text.Less(x, z)
    ensures !Text.Less(x, y) && !Text.Less(y, z) ==> !Text.Less(x, z)
  {
    Text.LessTotal(x, y);
    Text.LessTotal(y, z);
    if Text.Less(x, y) && Text.Less(y, z) {
      Text.LessTransitive(x, y, z);
    }
    if y != z && Text.Less(z, y) && Text.Less(x, z) {
      Text.LessTransitive(x, z, y);
    }
  }

  lemma SortedDistinctAscends(s: seq<string>)
    requires Sorted(Text.Less, s) && Distinct(s)
    ensures Ascending(s)
  {
    forall i, j | 0 <= i < j < |s|
      ensures Text.Less(s[i], s[j])
    {
      Text.LessTotal(s[i], s[j]);
    }
  }

  lemma DistinctPermuted<T>(a: seq<T>, b: seq<T>)
    requires Distinct(a) && multiset(a) == multiset(b)
    ensures Distinct(b)
  {
    forall i, j | 0 <= i < j < |b|
      ensures b[i] != b[j]
    {
      if b[i] == b[j] {
        Twice(b, i, j);
        AtMostOnce(a, b[i]);
      }
    }
  }

  lemma Twice<T>(s: seq<T>, i: nat, j: nat)
    requires i < j < |s| && s[i] == s[j]
    ensures multiset(s)[s[i]] >= 2
  {
    assert s == s[..i] + [s[i]] + s[i + 1..j] + [s[j]] + s[j + 1..];
  }

  lemma {:induction false} AtMostOnce<T>(s: seq<T>, x: T)
    requires Distinct(s)
    ensures multiset(s)[x] <= 1
  {
    if s != [] {
      var n := |s| - 1;
      assert s == s[..n] + [s[n]];
      AtMostOnce(s[..n], x);
      assert s[n] !in s[..n];
      assert s[n] !in multiset(s[..n]);
    }
  }

  // An ascending list is determined by its elements.
  lemma {:induction false} AscendingUnique(a: seq<string>, b: seq<string>)
    requires Ascending(a) && Ascending(b) && forall x :: x in a <==> x in b
    ensures a == b
  {
    if a == [] {
      SomeMember(b);
    } else {
      assert a[0] in b;
      FirstIsLeast(a, b);
      forall x
        ensures x in a[1..] <==> x in b[1..]
      {
        Rest(a, x);
        Rest(b, x);
      }
      AscendingUnique(a[1..], b[1..]);
      assert a == [a[0]] + a[1..] && b == [b[0]] + b[1..];
    }
  }

  lemma SomeMember<T>(s: seq<T>)
    ensures s != [] ==> exists x :: x in s
  {
    if s != [] {
      assert s[0] in s;
    }
  }

  lemma FirstIsLeast(a: seq<string>, b: seq<string>)
    requires Ascending(a) && Ascending(b) && a != [] && b != [] && forall x :: x in a <==> x in b
    ensures a[0] == b[0]
  {
    assert a[0] in b && b[0] in a;
    Text.LessTotal(a[0], b[0]);
  }

  lemma Rest(s: seq<string>, x: string)
    requires Ascending(s) && s != []
    ensures x in s[1..] <==> x in s && x != s[0]
  {
    assert s == [s[0]] + s[1..];
    Text.LessTotal(s[0], s[0]);
  }

  // ---- a set of strings as an ascending list ----

  function Insertion(s: seq<string>, x: string): (r: seq<string>)
    ensures |r| == |s| + 1 && forall y :: y in r <==> y in s || y == x
  {
    if s == [] || Text.Less(x, s[0]) then [x] + s else [s[0]] + Insertion(s[1..], x)
  }

  lemma {:induction false} InsertionAscends(s: seq<string>, x: string)
    requires Ascending(s) && x !in s
    ensures Ascending(Insertion(s, x))
  {
    if s == [] {
    } else if Text.Less(x, s[0]) {
      forall j | 0 < j < |s|
        ensures Text.Less(x, s[j])
      {
        Text.LessTransitive(x, s[0], s[j]);
      }
    } else {
      InsertionAscends(s[1..], x);
      Text.LessTotal(x, s[0]);
      var rest := Insertion(s[1..], x);
      forall j | 0 <= j < |rest|
        ensures Text.Less(s[0], rest[j])
      {
        assert rest[j] in rest;
        assert rest[j] != x ==> rest[j] in s[1..];
      }
    }
  }

  ghost function Listing(s: set<string>): seq<string>
    decreases |s|
  {
    if s == {} then []
    else
      var x :| x in s;
      Insertion(Listing(s - {x}), x)
  }

  lemma {:induction false} ListingShape(s: set<string>)
    ensures Ascending(Listing(s)) && forall x :: x in Listing(s) <==> x in s
    decreases |s|
  {
    if s != {} {
      var x :| x in s && Listing(s) == Insertion(Listing(s - {x}), x);
      ListingShape(s - {x});
      InsertionAscends(Listing(s - {x}), x);
    }
  }

  lemma ListingUnique(r: seq<string>, s: set<string>)
    requires Ascending(r) && forall x :: x in r <==> x in s
    ensures r == Listing(s)
  {
    ListingShape(s);
    AscendingUnique(r, Listing(s));
  }

  function Elements(s: seq<string>): set<string> {
    set x | x in s
  }

  // Sorting a list without duplicates lists its elements.
  method SortStrings(s: seq<string>) returns (r: seq<string>)
    requires Distinct(s)
    ensures r == Listing(Elements(s))
  {
    StringOrder();
    r := Sort(s, Text.Less);
    SameElements(r, s);
    DistinctPermuted(s, r);
    SortedDistinctAscends(r);
    ListingUnique(r, Elements(s));
  }
}
