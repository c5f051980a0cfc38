/** Python's ordering of strings and of paths, and `sorted`. */
module Ordering {

  /** `lt` is irreflexive, transitive and total (any two different values are related). */
  ghost predicate StrictTotalOrder<T(!new)>(lt: (T, T) -> bool) {
    && (forall x :: !lt(x, x))
    && (forall x, y, z :: lt(x, y) && lt(y, z) ==> lt(x, z))
    && (forall x, y :: x == y || lt(x, y) || lt(y, x))
  }

  /** Characters compare by code point. */
  predicate CharLess(a: char, b: char) {
    a < b
  }

  /** Python's `<` on strings, lists and tuples: the first differing element decides, and a
      proper prefix comes first. */
  predicate SeqLess<T(==)>(a: seq<T>, b: seq<T>, lt: (T, T) -> bool)
    decreases |a|
  {
    if a == [] then b != []
    else if b == [] then false
    else if a[0] == b[0] then SeqLess(a[1..], b[1..], lt)
    else lt(a[0], b[0])
  }

  /** Python's `<` on `str`. */
  predicate StrLess(a: string, b: string) {
    SeqLess(a, b, CharLess)
  }

  lemma {:induction false} SeqLessIrreflexive<T(!new)>(a: seq<T>, lt: (T, T) -> bool)
    requires StrictTotalOrder(lt)
    ensures !SeqLess(a, a, lt)
    decreases |a|
  {
    if a != [] {
      SeqLessIrreflexive(a[1..], lt);
    }
  }

  lemma {:induction false} SeqLessTransitive<T(!new)>(a: seq<T>, b: seq<T>, c: seq<T>, lt: (T, T) -> bool)
    requires StrictTotalOrder(lt)
    requires SeqLess(a, b, lt) && SeqLess(b, c, lt)
    ensures SeqLess(a, c, lt)
    decreases |a|
  {
    if a != [] && a[0] == b[0] && b[0] == c[0] {
      SeqLessTransitive(a[1..], b[1..], c[1..], lt);
    }
  }

  lemma {:induction false} SeqLessTotal<T(!new)>(a: seq<T>, b: seq<T>, lt: (T, T) -> bool)
    requires StrictTotalOrder(lt)
    ensures a == b || SeqLess(a, b, lt) || SeqLess(b, a, lt)
    decreases |a|
  {
    if a != [] && b != [] && a[0] == b[0] {
      SeqLessTotal(a[1..], b[1..], lt);
      if a[1..] == b[1..] {
        assert a == [a[0]] + a[1..] && b == [b[0]] + b[1..];
      }
    }
  }

  /** Lexicographic order over a strict total order is again a strict total order. */
  lemma SeqLessStrictTotal<T(!new)>(lt: (T, T) -> bool)
    requires StrictTotalOrder(lt)
    ensures forall a: seq<T> :: !SeqLess(a, a, lt)
    ensures forall a: seq<T>, b, c :: SeqLess(a, b, lt) && SeqLess(b, c, lt) ==> SeqLess(a, c, lt)
    ensures forall a: seq<T>, b :: a == b || SeqLess(a, b, lt) || SeqLess(b, a, lt)
  {
    forall a: seq<T> ensures !SeqLess(a, a, lt) {
      SeqLessIrreflexive(a, lt);
    }
    forall a: seq<T>, b, c | SeqLess(a, b, lt) && SeqLess(b, c, lt) ensures SeqLess(a, c, lt) {
      SeqLessTransitive(a, b, c, lt);
    }
    forall a: seq<T>, b ensures a == b || SeqLess(a, b, lt) || SeqLess(b, a, lt) {
      SeqLessTotal(a, b, lt);
    }
  }

  lemma StrLessStrictTotal()
    ensures StrictTotalOrder(StrLess)
  {
    SeqLessStrictTotal(CharLess);
  }

  // ---------------------------------------------------------------------------------------
  // sorted

  /** No element is smaller than one before it. */
  ghost predicate SortedBy<T>(s: seq<T>, lt: (T, T) -> bool) {
    forall i, j :: 0 <= i < j < |s| ==> !lt(s[j], s[i])
  }

  /** Puts `x` before the first element that is not smaller than it. */
  function Insert<T>(x: T, s: seq<T>, lt: (T, T) -> bool): (r: seq<T>)
    ensures multiset(r) == multiset(s) + multiset{x}
  {
    if s == [] then [x]
    else if lt(s[0], x) then
      assert s == [s[0]] + s[1..];
      [s[0]] + Insert(x, s[1..], lt)
    else [x] + s
  }

  lemma SortedCons<T>(a: T, t: seq<T>, lt: (T, T) -> bool)
    requires SortedBy(t, lt)
    requires forall k :: 0 <= k < |t| ==> !lt(t[k], a)
    ensures SortedBy([a] + t, lt)
  {
    var s := [a] + t;
    forall i, j | 0 <= i < j < |s| ensures !lt(s[j], s[i]) {
      assert s[j] == t[j - 1];
      if i > 0 {
        assert s[i] == t[i - 1];
      }
    }
  }

  lemma {:induction false} InsertSorted<T(!new)>(x: T, s: seq<T>, lt: (T, T) -> bool)
    requires StrictTotalOrder(lt)
    requires SortedBy(s, lt)
    ensures SortedBy(Insert(x, s, lt), lt)
    decreases |s|
  {
    if s != [] {
      if lt(s[0], x) {
        var tail := s[1..];
        assert SortedBy(tail, lt) by {
          forall i, j | 0 <= i < j < |tail| ensures !lt(tail[j], tail[i]) {
            assert tail[j] == s[j + 1] && tail[i] == s[i + 1];
          }
        }
        InsertSorted(x, tail, lt);
        var rest := Insert(x, tail, lt);
        forall k | 0 <= k < |rest| ensures !lt(rest[k], s[0]) {
          var e := rest[k];
          assert e in multiset(rest);
          if e != x {
            assert e in multiset(tail);
            var j :| 0 <= j < |tail| && tail[j] == e;
            assert s[j + 1] == e;
          }
        }
        SortedCons(s[0], rest, lt);
      } else {
        forall j | 0 <= j < |s| ensures !lt(s[j], x) {
          if j > 0 {
            assert !lt(s[j], s[0]);
          }
        }
        SortedCons(x, s, lt);
      }
    }
  }

  /** `sorted(s)`: an ascending permutation of `s`. */
  function Sort<T(!new)>(s: seq<T>, lt: (T, T) -> bool): (r: seq<T>)
    requires StrictTotalOrder(lt)
    ensures multiset(r) == multiset(s)
    ensures SortedBy(r, lt)
  {
    if s == [] then []
    else
      var rest := Sort(s[1..], lt);
      InsertSorted(s[0], rest, lt);
      assert s == [s[0]] + s[1..];
      Insert(s[0], rest, lt)
  }

  /** A sorted sequence without repeated elements is strictly ascending. */
  lemma SortedDistinctAscending<T(!new)>(s: seq<T>, lt: (T, T) -> bool)
    requires StrictTotalOrder(lt)
    requires SortedBy(s, lt)
    requires forall i, j :: 0 <= i < j < |s| ==> s[i] != s[j]
    ensures forall i, j :: 0 <= i < j < |s| ==> lt(s[i], s[j])
  {
  }
}
