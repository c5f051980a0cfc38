/** Sequence and dictionary helpers shared by the parsers: list comprehensions with a filter,
    `zip`, `dict(pairs)` (the last pair for a key wins) and `enumerate`. */
module Collections {
  import opened Wrappers

  /** The elements of `s` that satisfy `p`, in their original order. */
  function Filter<T(!new)>(s: seq<T>, p: T -> bool): (r: seq<T>)
    ensures |r| <= |s|
    ensures forall x :: x in r <==> x in s && p(x)
    ensures forall i :: 0 <= i < |r| ==> p(r[i])
  {
    if s == [] then []
    else if p(s[0]) then [s[0]] + Filter(s[1..], p)
    else Filter(s[1..], p)
  }

  /** Filtering keeps the order of the elements it keeps. */
  lemma {:induction false} FilterKeepsOrder<T(!new)>(s: seq<T>, p: T -> bool)
    ensures IsSubsequence(Filter(s, p), s)
    decreases |s|
  {
    if s != [] {
      FilterKeepsOrder(s[1..], p);
    }
  }

  /** Filtering one more element at the end. */
  lemma {:induction false} FilterAppend<T(!new)>(s: seq<T>, x: T, p: T -> bool)
    ensures Filter(s + [x], p) == Filter(s, p) + (if p(x) then [x] else [])
    decreases |s|
  {
    if s == [] {
      assert (s + [x])[1..] == [];
    } else {
      assert (s + [x])[0] == s[0] && (s + [x])[1..] == s[1..] + [x];
      FilterAppend(s[1..], x, p);
    }
  }

  /** `a` can be obtained from `b` by deleting elements: the order of `a` is that of `b`. */
  predicate IsSubsequence<T(==)>(a: seq<T>, b: seq<T>)
    decreases |b|
  {
    if a == [] then true
    else if b == [] then false
    else if a[0] == b[0] then IsSubsequence(a[1..], b[1..])
    else IsSubsequence(a, b[1..])
  }

  /** Python's `zip(a, b)`: pairs up to the shorter of the two sequences. */
  function Zip<A, B>(a: seq<A>, b: seq<B>): (r: seq<(A, B)>)
    ensures |r| == if |a| < |b| then |a| else |b|
    ensures forall k :: 0 <= k < |r| ==> r[k] == (a[k], b[k])
  {
    if a == [] || b == [] then [] else [(a[0], b[0])] + Zip(a[1..], b[1..])
  }

  /** Python's slice `s[:n]` for `n >= 0`. */
  function Take<T>(s: seq<T>, n: nat): (r: seq<T>)
    ensures |r| == if n < |s| then n else |s|
    ensures r <= s
  {
    if n < |s| then s[..n] else s
  }

  /** Python's `list(enumerate(keys))` with the pair order swapped to (key, index). */
  function Enumerate<K>(keys: seq<K>): (r: seq<(K, nat)>)
    ensures |r| == |keys|
    ensures forall i :: 0 <= i < |keys| ==> r[i] == (keys[i], i)
  {
    seq(|keys|, i requires 0 <= i < |keys| => (keys[i], i as nat))
  }

  /** The index of the last pair whose key is `k`, or -1 when there is none. */
  function LastKeyIndex<K(==), V>(pairs: seq<(K, V)>, k: K): (i: int)
    ensures -1 <= i < |pairs|
    ensures i == -1 <==> forall j :: 0 <= j < |pairs| ==> pairs[j].0 != k
    ensures i >= 0 ==> pairs[i].0 == k && forall j :: i < j < |pairs| ==> pairs[j].0 != k
  {
    if pairs == [] then -1
    else if pairs[|pairs| - 1].0 == k then |pairs| - 1
    else LastKeyIndex(pairs[..|pairs| - 1], k)
  }

  /** Python's `dict(pairs)`: every key of a pair is present, and its value is the value of
      the last pair with that key. */
  function DictOf<K(!new,==), V>(pairs: seq<(K, V)>): (m: map<K, V>)
    ensures forall k :: k in m <==> LastKeyIndex(pairs, k) >= 0
    ensures forall k :: k in m ==> m[k] == pairs[LastKeyIndex(pairs, k)].1
  {
    if pairs == [] then map[]
    else
      var n := |pairs| - 1;
      DictOf(pairs[..n])[pairs[n].0 := pairs[n].1]
  }

  /** `{k: i for i, k in enumerate(keys)}`: each key maps to the index of its last occurrence. */
  function IndexMap<K(!new,==)>(keys: seq<K>): (m: map<K, nat>)
    ensures forall k :: k in m <==> k in keys
    ensures forall k :: k in m ==> m[k] < |keys| && keys[m[k]] == k
    ensures forall k, j :: k in m && m[k] < j < |keys| ==> keys[j] != k
  {
    var pairs := Enumerate(keys);
    assert forall k :: LastKeyIndex(pairs, k) >= 0 <==> k in keys by {
      forall k ensures LastKeyIndex(pairs, k) >= 0 <==> k in keys {
        if k in keys {
          var j :| 0 <= j < |keys| && keys[j] == k;
          assert pairs[j].0 == k;
        }
      }
    }
    DictOf(pairs)
  }

  /** The pairs `f` yields for the elements of `s`, in order, skipping the elements for which
      it yields nothing: `[f(a) for a in s]` followed by the filter `if m`. */
  function Collect<A, K, V>(f: A -> Option<(K, V)>, s: seq<A>): seq<(K, V)> {
    if s == [] then []
    else
      var n := |s| - 1;
      match f(s[n])
      case None => Collect(f, s[..n])
      case Some(kv) => Collect(f, s[..n]) + [kv]
  }

  /** The pairs `f` yields for the elements of `s`, entered into a dict one element after the
      other, so that a later pair overwrites an earlier one with the same key. */
  function Gather<A, K(!new,==), V>(f: A -> Option<(K, V)>, s: seq<A>): map<K, V> {
    if s == [] then map[]
    else
      var n := |s| - 1;
      match f(s[n])
      case None => Gather(f, s[..n])
      case Some(kv) => Gather(f, s[..n])[kv.0 := kv.1]
  }

  /** `f` yields a pair with key `k` for `a`. */
  predicate Yields<A, K(==), V>(f: A -> Option<(K, V)>, a: A, k: K) {
    f(a).Some? && f(a).value.0 == k
  }

  /** Gathering is `dict` applied to the collected pairs. */
  lemma {:induction false} GatherIsDictOfCollect<A, K(!new), V>(f: A -> Option<(K, V)>, s: seq<A>)
    ensures Gather(f, s) == DictOf(Collect(f, s))
    decreases |s|
  {
    if s != [] {
      var n := |s| - 1;
      GatherIsDictOfCollect(f, s[..n]);
      var prev := Collect(f, s[..n]);
      match f(s[n])
      case None =>
      case Some(kv) =>
        assert (prev + [kv])[..|prev|] == prev;
    }
  }

  /** A key is gathered exactly when `f` yields it for some element. */
  lemma {:induction false} GatherKeys<A, K(!new), V>(f: A -> Option<(K, V)>, s: seq<A>, k: K)
    ensures k in Gather(f, s) <==> exists i :: 0 <= i < |s| && Yields(f, s[i], k)
    decreases |s|
  {
    if s != [] {
      var n := |s| - 1;
      var prefix := s[..n];
      GatherKeys(f, prefix, k);
      if k in Gather(f, prefix) {
        var i :| 0 <= i < |prefix| && Yields(f, prefix[i], k);
        assert s[i] == prefix[i];
      }
      if exists i :: 0 <= i < |s| && Yields(f, s[i], k) {
        var i :| 0 <= i < |s| && Yields(f, s[i], k);
        if i < n {
          assert prefix[i] == s[i];
        }
      }
    }
  }

  /** The value gathered for a key is the one of the last element for which `f` yields it. */
  lemma {:induction false} GatherLastWins<A, K(!new), V>(f: A -> Option<(K, V)>, s: seq<A>, i: nat)
    requires i < |s| && f(s[i]).Some?
    requires forall j :: i < j < |s| ==> !Yields(f, s[j], f(s[i]).value.0)
    ensures f(s[i]).value.0 in Gather(f, s)
    ensures Gather(f, s)[f(s[i]).value.0] == f(s[i]).value.1
    decreases |s|
  {
    var kv := f(s[i]).value;
    var n := |s| - 1;
    if i < n {
      var prefix := s[..n];
      assert prefix[i] == s[i];
      forall j | i < j < |prefix| ensures !Yields(f, prefix[j], kv.0) {
        assert prefix[j] == s[j];
      }
      GatherLastWins(f, prefix, i);
      assert !Yields(f, s[n], kv.0);
    }
  }

  /** `[f(a) for a in s]` where `f` may raise: the results in order, or the error of the first
      element that fails. */
  function MapAll<A, B, E>(f: A -> Result<B, E>, s: seq<A>): Result<seq<B>, E> {
    if s == [] then Success([])
    else
      var b :- f(s[0]);
      var rest :- MapAll(f, s[1..]);
      Success([b] + rest)
  }

  /** The mapping succeeds exactly when `f` succeeds on every element. */
  lemma {:induction false} MapAllSucceeds<A, B, E>(f: A -> Result<B, E>, s: seq<A>)
    ensures MapAll(f, s).Success? <==> forall i :: 0 <= i < |s| ==> f(s[i]).Success?
    decreases |s|
  {
    if s != [] {
      MapAllSucceeds(f, s[1..]);
      assert forall i :: 1 <= i < |s| ==> s[i] == s[1..][i - 1];
    }
  }

  /** After a successful mapping, the i-th result is that of `f` on the i-th element. */
  lemma {:induction false} MapAllValues<A, B, E>(f: A -> Result<B, E>, s: seq<A>)
    requires MapAll(f, s).Success?
    ensures |MapAll(f, s).value| == |s|
    ensures forall i :: 0 <= i < |s| ==> f(s[i]) == Success(MapAll(f, s).value[i])
    decreases |s|
  {
    if s != [] {
      MapAllValues(f, s[1..]);
      var r := MapAll(f, s).value;
      assert forall i :: 1 <= i < |s| ==> s[i] == s[1..][i - 1] && r[i] == MapAll(f, s[1..]).value[i - 1];
    }
  }

  /** A failed mapping reports the error of the first element on which `f` fails. */
  lemma {:induction false} MapAllFirstError<A, B, E>(f: A -> Result<B, E>, s: seq<A>, k: nat)
    requires k < |s| && f(s[k]).Failure?
    requires forall i :: 0 <= i < k ==> f(s[i]).Success?
    ensures MapAll(f, s) == Failure(f(s[k]).error)
    decreases k
  {
    if k > 0 {
      assert forall i :: 0 <= i < k - 1 ==> s[1..][i] == s[i + 1];
      MapAllFirstError(f, s[1..], k - 1);
    }
  }

  /** The results already produced, put in front of the result for the remaining elements. */
  function PrependAll<B, E>(done: seq<B>, r: Result<seq<B>, E>): Result<seq<B>, E> {
    match r
    case Failure(e) => Failure(e)
    case Success(rest) => Success(done + rest)
  }

  lemma PrependNone<B, E>(r: Result<seq<B>, E>)
    ensures PrependAll([], r) == r
  {
    match r
    case Failure(_) =>
    case Success(rest) =>
      assert [] + rest == rest;
  }

  lemma PrependAllAppend<B, E>(done: seq<B>, b: B, r: Result<seq<B>, E>)
    ensures PrependAll(done, PrependAll([b], r)) == PrependAll(done + [b], r)
  {
    match r
    case Failure(_) =>
    case Success(rest) =>
      assert done + ([b] + rest) == (done + [b]) + rest;
  }

  /** The mapping of the elements from `i` on, in terms of the i-th one. */
  lemma MapAllStep<A, B, E>(f: A -> Result<B, E>, s: seq<A>, i: nat)
    requires i < |s|
    ensures MapAll(f, s[i..]) ==
      match f(s[i])
      case Failure(e) => Failure(e)
      case Success(b) => PrependAll([b], MapAll(f, s[i + 1..]))
  {
    assert s[i..][0] == s[i] && s[i..][1..] == s[i + 1..];
  }

  /** `xs` and `ys` have the same length and are related element by element by `R`. */
  predicate Pointwise<A, B>(R: (A, B) -> bool, xs: seq<A>, ys: seq<B>) {
    |xs| == |ys| && forall j :: 0 <= j < |xs| ==> R(xs[j], ys[j])
  }

  lemma PointwiseCons<A, B>(R: (A, B) -> bool, x: A, xs: seq<A>, y: B, ys: seq<B>)
    requires R(x, y) && Pointwise(R, xs, ys)
    ensures Pointwise(R, [x] + xs, [y] + ys)
  {
    forall j | 1 <= j < |xs| + 1
      ensures R(([x] + xs)[j], ([y] + ys)[j])
    {
      assert ([x] + xs)[j] == xs[j - 1] && ([y] + ys)[j] == ys[j - 1];
    }
  }

  /** `[items[index[k]] for k in want]`: the items the index map names for the wanted keys, in
      that order; the first key missing from the index is the error, as the comprehension
      raises at the first such key. */
  function SelectAll<K(==), T>(items: seq<T>, index: map<K, nat>, want: seq<K>): (r: Result<seq<T>, K>)
    requires forall k :: k in index ==> index[k] < |items|
    ensures r.Success? <==> forall i :: 0 <= i < |want| ==> want[i] in index
    ensures r.Success? ==> |r.value| == |want| && forall i :: 0 <= i < |want| ==> r.value[i] == items[index[want[i]]]
    ensures r.Failure? ==> r.error in want && r.error !in index
    ensures r.Failure? ==>
              exists f :: 0 <= f < |want| && r.error == want[f] && want[f] !in index &&
                          forall j :: 0 <= j < f ==> want[j] in index
  {
    if want == [] then Success([])
    else if want[0] !in index then Failure(want[0])
    else
      var tail := want[1..];
      match SelectAll(items, index, tail)
      case Failure(k) =>
        var f :| 0 <= f < |tail| && k == tail[f] && tail[f] !in index &&
                 forall j :: 0 <= j < f ==> tail[j] in index;
        assert want[f + 1] == k;
        assert forall j :: 1 <= j < f + 1 ==> want[j] == tail[j - 1];
        Failure(k)
      case Success(rest) =>
        assert forall i :: 1 <= i < |want| ==> want[i] == tail[i - 1];
        Success([items[index[want[0]]]] + rest)
  }

  /** The lookup `d.get(k, default)`. */
  function GetOr<K, V>(d: map<K, V>, k: K, default: V): V {
    if k in d then d[k] else default
  }
}
