/** Sorted sequences over a strict total order, as slices.Sorted and slices.SortedFunc produce them. */
module Sorting {

  ghost predicate StrictOrder<T(!new)>(less: (T, T) -> bool) {
    && (forall x :: !less(x, x))
    && (forall x, y, z :: less(x, y) && less(y, z) ==> less(x, z))
    && (forall x, y :: x != y ==> less(x, y) || less(y, x))
  }

  ghost predicate Ascending<T>(less: (T, T) -> bool, s: seq<T>) {
    forall i, j :: 0 <= i < j < |s| ==> less(s[i], s[j])
  }

  ghost function Elements<T>(s: seq<T>): set<T> {
    set x | x in s
  }

  /** An ascending sequence is determined by its elements: sorting has one possible result. */
  lemma {:induction false} AscendingUnique<T(!new)>(less: (T, T) -> bool, a: seq<T>, b: seq<T>)
    requires StrictOrder(less) && Ascending(less, a) && Ascending(less, b)
    requires Elements(a) == Elements(b)
    ensures a == b
  {
    assert forall k :: 0 <= k < |b| ==> b[k] in Elements(b);
    assert 0 < |b| ==> b[0] in Elements(b);
    if a != [] {
      assert a[0] in Elements(b);
      assert b != [];
      assert b[0] in Elements(a);
      assert a[0] == b[0];
      assert Elements(a[1..]) == Elements(a) - {a[0]};
      assert Elements(b[1..]) == Elements(b) - {b[0]};
      AscendingUnique(less, a[1..], b[1..]);
      assert a == [a[0]] + a[1..] && b == [b[0]] + b[1..];
    }
  }

  /** Puts x in front of the first element that is not below it. */
  method Insert<T(!new,==)>(less: (T, T) -> bool, s: seq<T>, x: T) returns (r: seq<T>)
    requires StrictOrder(less) && Ascending(less, s) && x !in s
    ensures Ascending(less, r) && Elements(r) == Elements(s) + {x} && |r| == |s| + 1
  {
    var i := 0;
    while i < |s| && less(s[i], x)
      invariant 0 <= i <= |s|
      invariant forall k :: 0 <= k < i ==> less(s[k], x)
    {
      i := i + 1;
    }
    r := s[..i] + [x] + s[i..];
    assert forall k :: i <= k < |s| ==> less(x, s[k]);
    assert forall y :: y in r <==> y in s || y == x;
  }

  /** The elements of a set in ascending order; the set is traversed in any order, as Go does with a map. */
  method SortedKeys<T(!new,==)>(less: (T, T) -> bool, keys: set<T>) returns (s: seq<T>)
    requires StrictOrder(less)
    ensures Ascending(less, s) && Elements(s) == keys && |s| == |keys|
  {
    s := [];
    var rest := keys;
    while rest != {}
      invariant rest <= keys && Ascending(less, s) && Elements(s) == keys - rest && |s| == |keys| - |rest|
      decreases |rest|
    {
      var x :| x in rest;
      assert x !in Elements(s);
      s := Insert(less, s, x);
      rest := rest - {x};
    }
  }

  lemma SortedExists<T(!new)>(less: (T, T) -> bool, keys: set<T>)
    requires StrictOrder(less)
    ensures exists s :: Ascending(less, s) && Elements(s) == keys
  {
    if keys == {} {
      assert Elements<T>([]) == {};
    } else {
      var least := Least(less, keys);
      SortedExists(less, keys - {least});
      var rest :| Ascending(less, rest) && Elements(rest) == keys - {least};
      assert forall i :: 0 <= i < |rest| ==> rest[i] in Elements(rest);
      var s := [least] + rest;
      assert forall x :: x in s <==> x == least || x in Elements(rest);
      assert Elements(s) == keys;
    }
  }

  lemma Least<T(!new)>(less: (T, T) -> bool, keys: set<T>) returns (least: T)
    requires StrictOrder(less) && keys != {}
    ensures least in keys && forall x :: x in keys && x != least ==> less(least, x)
  {
    least :| least in keys;
    var others := keys - {least};
    if others != {} {
      var next := Least(less, others);
      if less(next, least) { least := next; }
    }
  }

  /** The elements of a set in ascending order. */
  ghost function Sorted<T(!new)>(less: (T, T) -> bool, keys: set<T>): (s: seq<T>)
    requires StrictOrder(less)
    ensures Ascending(less, s) && Elements(s) == keys
  {
    SortedExists(less, keys);
    var s :| Ascending(less, s) && Elements(s) == keys;
    s
  }

  predicate NatLess(a: nat, b: nat) {
    a < b
  }

  lemma NatLessIsStrictOrder()
    ensures StrictOrder(NatLess)
  {
  }

  /** Lexicographic order on strings, as strings.Compare has it. */
  predicate StringLess(a: string, b: string) {
    b != [] && (a == [] || a[0] < b[0] || (a[0] == b[0] && StringLess(a[1..], b[1..])))
  }

  /** a is a proper prefix of b, or less where they first differ. */
  predicate DiffersAt(a: string, b: string, n: nat) {
    n <= |a| && n < |b| && a[..n] == b[..n] && (n == |a| || a[n] < b[n])
  }

  lemma {:induction false} StringLessMeaning(a: string, b: string)
    ensures StringLess(a, b) <==> exists n: nat :: DiffersAt(a, b, n)
  {
    forall n: nat | n > 0 && DiffersAt(a, b, n) ensures a != [] && a[0] == b[0] {
      assert a[..n][0] == b[..n][0];
    }
    if b != [] && (a == [] || a[0] < b[0]) {
      assert DiffersAt(a, b, 0);
    } else if a != [] && b != [] && a[0] == b[0] {
      StringLessMeaning(a[1..], b[1..]);
      assert a == [a[0]] + a[1..] && b == [b[0]] + b[1..];
      if n: nat :| DiffersAt(a[1..], b[1..], n) {
        assert a[..n + 1] == [a[0]] + a[1..][..n] && b[..n + 1] == [b[0]] + b[1..][..n];
        assert DiffersAt(a, b, n + 1);
      }
      if n: nat :| DiffersAt(a, b, n) {
        assert n > 0;
        assert a[1..][..n - 1] == a[..n][1..] && b[1..][..n - 1] == b[..n][1..];
        assert DiffersAt(a[1..], b[1..], n - 1);
      }
    }
  }

  lemma {:induction false} StringLessTransitive(a: string, b: string, c: string)
    requires StringLess(a, b) && StringLess(b, c)
    ensures StringLess(a, c)
  {
    if a != [] && a[0] == b[0] && b[0] == c[0] {
      StringLessTransitive(a[1..], b[1..], c[1..]);
    }
  }

  lemma {:induction false} StringLessConnected(a: string, b: string)
    requires a != b
    ensures StringLess(a, b) || StringLess(b, a)
  {
    if a != [] && b != [] && a[0] == b[0] {
      assert a == [a[0]] + a[1..] && b == [b[0]] + b[1..];
      StringLessConnected(a[1..], b[1..]);
    }
  }

  lemma {:induction false} StringLessIrreflexive(a: string)
    ensures !StringLess(a, a)
  {
    if a != [] { StringLessIrreflexive(a[1..]); }
  }

  lemma StringLessIsStrictOrder()
    ensures StrictOrder(StringLess)
  {
    forall x: string ensures !StringLess(x, x) { StringLessIrreflexive(x); }
    forall x: string, y: string, z: string | StringLess(x, y) && StringLess(y, z) ensures StringLess(x, z) {
      StringLessTransitive(x, y, z);
    }
    forall x: string, y: string | x != y ensures StringLess(x, y) || StringLess(y, x) {
      StringLessConnected(x, y);
    }
  }
}
