/** Shared building blocks: an option type for pandas' missing values, counting of
    key columns (what `groupby(...).size()` and `crosstab` compute), summing a
    count table, and Python's ordering of strings. */
module Common {

  /** A possibly missing value (pandas NaN / NaT). */
  datatype Option<+T> = None | Some(value: T)

  // ---------------------------------------------------------------------------
  // Counting
  // ---------------------------------------------------------------------------

  /** The number of positions of `s` that hold `x`. */
  function Occ<T(==)>(s: seq<T>, x: T): (n: nat)
    ensures n <= |s|
    ensures n > 0 <==> x in s
  {
    if s == [] then 0
    else
      assert s == s[..|s| - 1] + [s[|s| - 1]];
      Occ(s[..|s| - 1], x) + (if s[|s| - 1] == x then 1 else 0)
  }

  lemma {:induction false} OccAppend<T>(a: seq<T>, b: seq<T>, x: T)
    ensures Occ(a + b, x) == Occ(a, x) + Occ(b, x)
    decreases |b|
  {
    if b == [] {
      assert a + b == a;
    } else {
      var b' := b[..|b| - 1];
      assert (a + b)[..|a + b| - 1] == a + b';
      assert (a + b)[|a + b| - 1] == b[|b| - 1];
      OccAppend(a, b', x);
    }
  }

  /** Group a key column and count each group (`groupby(...).size()`). */
  function Tally<K(==,!new)>(keys: seq<K>): map<K, nat>
  {
    if keys == [] then map[]
    else
      var m := Tally(keys[..|keys| - 1]);
      var k := keys[|keys| - 1];
      m[k := if k in m then m[k] + 1 else 1]
  }

  /** A tally holds the keys that occur, each mapped to how often it occurs. No
      group is ever empty, and a key that does not occur has no entry (it is not
      stored as 0). */
  lemma {:induction false} TallyCounts<K(!new)>(keys: seq<K>)
    ensures forall k :: k in Tally(keys) <==> k in keys
    ensures forall k :: k in Tally(keys) ==> Tally(keys)[k] == Occ(keys, k) && Tally(keys)[k] >= 1
  {
    if keys != [] {
      var init, last := keys[..|keys| - 1], keys[|keys| - 1];
      assert keys == init + [last];
      TallyCounts(init);
      forall k ensures Occ(keys, k) == Occ(init, k) + (if last == k then 1 else 0) {
      }
    }
  }

  /** The sum of all the counts of a table. */
  ghost function MapSum<K>(m: map<K, nat>): nat
    decreases m.Keys
  {
    if m == map[] then 0
    else
      var k :| k in m;
      m[k] + MapSum(m - {k})
  }

  /** The sum does not depend on which key is taken out first. */
  lemma {:induction false} MapSumRemove<K>(m: map<K, nat>, k: K)
    requires k in m
    ensures MapSum(m) == m[k] + MapSum(m - {k})
    decreases m.Keys
  {
    var j :| j in m && MapSum(m) == m[j] + MapSum(m - {j});
    if j != k {
      var mj, mk := m - {j}, m - {k};
      MapSumRemove(mj, k);
      MapSumRemove(mk, j);
      assert mj - {k} == mk - {j};
    }
  }

  /** Adding the key `k` with count `v` (replacing its old count) changes the sum by the difference. */
  lemma MapSumUpdate<K>(m: map<K, nat>, k: K, v: nat)
    ensures k in m ==> MapSum(m[k := v]) + m[k] == MapSum(m) + v
    ensures k !in m ==> MapSum(m[k := v]) == MapSum(m) + v
  {
    var m' := m[k := v];
    MapSumRemove(m', k);
    if k in m {
      MapSumRemove(m, k);
      assert m' - {k} == m - {k};
    } else {
      assert m' - {k} == m;
    }
  }

  /** Count conservation: the counts of a tally add up to the number of keys counted. */
  lemma {:induction false} TallyTotal<K(!new)>(keys: seq<K>)
    ensures MapSum(Tally(keys)) == |keys|
  {
    if keys != [] {
      var init := keys[..|keys| - 1];
      var k := keys[|keys| - 1];
      TallyTotal(init);
      var m := Tally(init);
      MapSumUpdate(m, k, if k in m then m[k] + 1 else 1);
    }
  }

  /** `f` applied to every element, the results concatenated in order. */
  function FlatMap<A, B>(s: seq<A>, f: A -> seq<B>): seq<B>
  {
    if s == [] then [] else FlatMap(s[..|s| - 1], f) + f(s[|s| - 1])
  }

  lemma FlatMapSingle<A, B>(x: A, f: A -> seq<B>)
    ensures FlatMap([x], f) == f(x)
  {
    assert [x][..0] == [];
  }

  lemma {:induction false} FlatMapAppend<A, B>(a: seq<A>, b: seq<A>, f: A -> seq<B>)
    ensures FlatMap(a + b, f) == FlatMap(a, f) + FlatMap(b, f)
    decreases |b|
  {
    if b == [] {
      assert a + b == a;
    } else {
      var b', x := b[..|b| - 1], b[|b| - 1];
      assert (a + b)[..|a + b| - 1] == a + b';
      assert (a + b)[|a + b| - 1] == x;
      FlatMapAppend(a, b', f);
    }
  }

  /** Every element of `xs` paired with the fixed value `b`. */
  function PairWith<A, B(==)>(xs: set<A>, b: B): set<(A, B)>
  {
    set x | x in xs :: (x, b)
  }

  /** Pairing with a fixed value keeps the size of a set. */
  lemma {:induction false} PairWithCard<A, B>(xs: set<A>, b: B)
    ensures |PairWith(xs, b)| == |xs|
  {
    if xs != {} {
      var z :| z in xs;
      PairWithCard(xs - {z}, b);
      assert PairWith(xs, b) == PairWith(xs - {z}, b) + {(z, b)};
      assert (z, b) !in PairWith(xs - {z}, b);
    }
  }

  /** A sparse count table made dense over `keys`: the missing keys get an explicit 0. */
  function ZeroFill<K>(m: map<K, nat>, keys: set<K>): (r: map<K, nat>)
    requires m.Keys <= keys
    ensures r.Keys == keys
    ensures forall k :: k in m ==> r[k] == m[k]
    ensures forall k :: k in keys && k !in m ==> r[k] == 0
  {
    map k | k in keys :: if k in m then m[k] else 0
  }

  /** Zero-filling leaves the total unchanged. */
  lemma {:induction false} ZeroFillTotal<K>(m: map<K, nat>, keys: set<K>)
    requires m.Keys <= keys
    ensures MapSum(ZeroFill(m, keys)) == MapSum(m)
    decreases keys
  {
    if keys == m.Keys {
      assert ZeroFill(m, keys) == m;
    } else {
      var k :| k in keys && k !in m;
      var smaller := ZeroFill(m, keys - {k});
      assert ZeroFill(m, keys) == smaller[k := 0];
      ZeroFillTotal(m, keys - {k});
      MapSumUpdate(smaller, k, 0);
    }
  }

  // ---------------------------------------------------------------------------
  // Distinct values in order of first appearance (pandas `Series.unique`)
  // ---------------------------------------------------------------------------

  /** The index of the first occurrence of `x` in `s`. */
  function FirstIndex<T(==)>(s: seq<T>, x: T): (i: nat)
    requires x in s
    ensures i < |s| && s[i] == x
    ensures forall j :: 0 <= j < i ==> s[j] != x
  {
    if s[0] == x then 0 else 1 + FirstIndex(s[1..], x)
  }

  /** Each value of `s` once, ordered by where it first appears. */
  function Unique<T(==,!new)>(s: seq<T>): (u: seq<T>)
    ensures forall x :: x in u <==> x in s
    ensures forall i, j :: 0 <= i < j < |u| ==> u[i] != u[j]
    ensures forall i, j :: 0 <= i < j < |u| ==> FirstIndex(s, u[i]) < FirstIndex(s, u[j])
  {
    if s == [] then []
    else
      var init := s[..|s| - 1];
      var x := s[|s| - 1];
      assert s == init + [x];
      var u := Unique(init);
      FirstIndexPrefix(init, x);
      if x in u then u else u + [x]
  }

  lemma FirstIndexPrefix<T(!new)>(init: seq<T>, x: T)
    ensures forall y :: y in init ==> FirstIndex(init + [x], y) == FirstIndex(init, y)
    ensures x !in init ==> FirstIndex(init + [x], x) == |init|
  {
    forall y | y in init
      ensures FirstIndex(init + [x], y) == FirstIndex(init, y)
    {
      var i := FirstIndex(init, y);
      var s := init + [x];
      assert s[i] == y;
      var k := FirstIndex(s, y);
      assert k <= i;
      assert init[k] == y;
    }
    if x !in init {
      var s := init + [x];
      var k := FirstIndex(s, x);
    }
  }

  // ---------------------------------------------------------------------------
  // Python's ordering of `str` values: lexicographic by code point
  // ---------------------------------------------------------------------------

  predicate NameLess(a: string, b: string)
  {
    if a == [] then b != []
    else if b == [] then false
    else a[0] < b[0] || (a[0] == b[0] && NameLess(a[1..], b[1..]))
  }

  lemma {:induction false} NameLessIrreflexive(a: string)
    ensures !NameLess(a, a)
  {
    if a != [] {
      NameLessIrreflexive(a[1..]);
    }
  }

  lemma {:induction false} NameLessTransitive(a: string, b: string, c: string)
    requires NameLess(a, b) && NameLess(b, c)
    ensures NameLess(a, c)
  {
    if a != [] && b != [] && c != [] && a[0] == b[0] == c[0] {
      NameLessTransitive(a[1..], b[1..], c[1..]);
    }
  }

  lemma {:induction false} NameLessTotal(a: string, b: string)
    requires a != b
    ensures NameLess(a, b) || NameLess(b, a)
  {
    if a != [] && b != [] && a[0] == b[0] {
      assert a == [a[0]] + a[1..] && b == [b[0]] + b[1..];
      NameLessTotal(a[1..], b[1..]);
    }
  }

  lemma NameLessAsymmetric(a: string, b: string)
    requires NameLess(a, b)
    ensures !NameLess(b, a)
  {
    if NameLess(b, a) {
      NameLessTransitive(a, b, a);
      NameLessIrreflexive(a);
    }
  }

  /** Python's `str` order is a strict total order. */
  lemma NameOrder()
    ensures StrictTotalOrder(NameLess)
  {
    forall a, b, c | NameLess(a, b) && NameLess(b, c) ensures NameLess(a, c) {
      NameLessTransitive(a, b, c);
    }
    forall a ensures !NameLess(a, a) {
      NameLessIrreflexive(a);
    }
    forall a, b | a != b ensures NameLess(a, b) || NameLess(b, a) {
      NameLessTotal(a, b);
    }
  }

  ghost predicate NamesAscending(s: seq<string>)
  {
    Ascending(s, NameLess)
  }

  // ---------------------------------------------------------------------------
  // `sorted(set(...))`: the distinct values in ascending order
  // ---------------------------------------------------------------------------

  /** `less` is irreflexive, transitive and relates any two different values. */
  ghost predicate StrictTotalOrder<T(!new)>(less: (T, T) -> bool)
  {
    && (forall a :: !less(a, a))
    && (forall a, b, c :: less(a, b) && less(b, c) ==> less(a, c))
    && (forall a, b :: a != b ==> less(a, b) || less(b, a))
  }

  /** Strictly ascending under `less`, hence without repetitions. */
  ghost predicate Ascending<T>(s: seq<T>, less: (T, T) -> bool)
  {
    forall i, j :: 0 <= i < j < |s| ==> less(s[i], s[j])
  }

  /** Insert `x` into a strictly ascending list, unless it is already there. */
  function Insert<T(==,!new)>(x: T, s: seq<T>, less: (T, T) -> bool): (r: seq<T>)
    requires StrictTotalOrder(less) && Ascending(s, less)
    ensures Ascending(r, less)
    ensures forall y :: y in r <==> y == x || y in s
  {
    if s == [] then [x]
    else if x == s[0] then s
    else if less(x, s[0]) then
      [x] + s
    else
      var rest := Insert(x, s[1..], less);
      assert forall y :: y in rest ==> less(s[0], y) by {
        forall y | y in rest ensures less(s[0], y) {
          if y != x {
            var j :| 1 <= j < |s| && s[j] == y;
          }
        }
      }
      [s[0]] + rest
  }

  /** The distinct values of `s` in ascending order (what pandas does with group
      keys, pivot indexes and columns, and what `sorted(....unique())` yields). */
  function SortedDistinct<T(==,!new)>(s: seq<T>, less: (T, T) -> bool): (r: seq<T>)
    requires StrictTotalOrder(less)
    ensures Ascending(r, less)
    ensures forall y :: y in r <==> y in s
  {
    if s == [] then []
    else
      assert s == s[..|s| - 1] + [s[|s| - 1]];
      Insert(s[|s| - 1], SortedDistinct(s[..|s| - 1], less), less)
  }

  // ---------------------------------------------------------------------------
  // `.dropna()` of a derived column: the present values, in row order
  // ---------------------------------------------------------------------------

  function FilterMap<A, B(!new)>(s: seq<A>, f: A -> Option<B>): (r: seq<B>)
    ensures forall y :: y in r <==> exists x :: x in s && f(x) == Some(y)
  {
    if s == [] then []
    else
      var init, x := s[..|s| - 1], s[|s| - 1];
      assert s == init + [x];
      FilterMap(init, f) + (if f(x).Some? then [f(x).value] else [])
  }
}
