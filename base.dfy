/** Generic helpers shared by the front-end and the API models: an optional
    value, flattening, chunking, counting and a stable sort by an integer key. */
module Base {

  datatype Option<T> = None | Some(value: T)

  /** Concatenation of a sequence of sequences. */
  function Flatten<T>(ss: seq<seq<T>>): seq<T>
  {
    if ss == [] then [] else ss[0] + Flatten(ss[1..])
  }

  lemma {:induction false} FlattenAppend<T>(ss: seq<seq<T>>, s: seq<T>)
    ensures Flatten(ss + [s]) == Flatten(ss) + s
  {
    if ss == [] {
      assert ss + [s] == [s];
    } else {
      assert (ss + [s])[1..] == ss[1..] + [s];
      FlattenAppend(ss[1..], s);
    }
  }

  /** Concatenation regrouped; stated once so that proofs about long
      concatenations do not search for it. */
  lemma AppendAssoc<T>(a: seq<T>, b: seq<T>, c: seq<T>)
    ensures a + b + c == a + (b + c)
  {
  }

  lemma AppendAssoc3<T>(a: seq<T>, b: seq<T>, c: seq<T>, d: seq<T>)
    ensures a + b + c + d == a + (b + (c + d))
  {
  }

  /** A sequence is its three consecutive slices put back together. */
  lemma SplitThree<T>(s: seq<T>, a: nat, b: nat)
    requires a <= b <= |s|
    ensures s == s[..a] + (s[a..b] + s[b..])
  {
    assert s[a..] == s[a..b] + s[b..];
    assert s == s[..a] + s[a..];
  }

  function Min(a: int, b: int): int { if a <= b then a else b }

  function Max(a: int, b: int): int { if a >= b then a else b }

  /** Ceiling of n / d for a positive divisor. */
  function CeilDiv(n: nat, d: nat): (q: nat)
    requires d > 0
    ensures d * q >= n && (q == 0 || d * (q - 1) < n)
  {
    (n + d - 1) / d
  }

  /** `s` cut into consecutive pieces of `size` elements, the last one possibly
      shorter; the JavaScript index loop `for (i = 0; i < n; i += size)` and the
      Python `range(0, len(items), size)` generator both produce exactly these. */
  function Chunks<T>(s: seq<T>, size: nat): seq<seq<T>>
    requires size > 0
    decreases |s|
  {
    if s == [] then [] else [s[..Min(size, |s|)]] + Chunks(s[Min(size, |s|)..], size)
  }

  lemma {:induction false} ChunksFlatten<T>(s: seq<T>, size: nat)
    requires size > 0
    ensures Flatten(Chunks(s, size)) == s
    decreases |s|
  {
    if s != [] {
      var k := Min(size, |s|);
      ChunksFlatten(s[k..], size);
      assert s[..k] + s[k..] == s;
    }
  }

  lemma MulMonotone(d: nat, a: nat, b: nat)
    requires a <= b
    ensures d * a <= d * b
  {
    assert d * b == d * a + d * (b - a);
  }

  /** The two inequalities of CeilDiv's contract determine the quotient. */
  lemma CeilDivUnique(n: nat, d: nat, q: nat)
    requires d > 0
    requires d * q >= n && (q == 0 || d * (q - 1) < n)
    ensures CeilDiv(n, d) == q
  {
    var c := CeilDiv(n, d);
    if c < q {
      MulMonotone(d, c, q - 1);
    } else if q < c {
      MulMonotone(d, q, c - 1);
    }
  }

  lemma CeilDivOne(n: nat, d: nat)
    requires 0 < n <= d
    ensures CeilDiv(n, d) == 1
  {
    CeilDivUnique(n, d, 1);
  }

  lemma CeilDivStep(n: nat, d: nat)
    requires 0 < d < n
    ensures CeilDiv(n, d) == 1 + CeilDiv(n - d, d)
  {
    var q := CeilDiv(n - d, d);
    assert d * (q + 1) == d * q + d;
    CeilDivUnique(n, d, q + 1);
  }

  lemma {:induction false} ChunksShape<T>(s: seq<T>, size: nat)
    requires size > 0
    ensures |Chunks(s, size)| == CeilDiv(|s|, size)
    ensures forall i :: 0 <= i < |Chunks(s, size)| ==> 0 < |Chunks(s, size)[i]| <= size
    ensures forall i :: 0 <= i < |Chunks(s, size)| - 1 ==> |Chunks(s, size)[i]| == size
    decreases |s|
  {
    if s != [] {
      var k := Min(size, |s|);
      ChunksShape(s[k..], size);
      var rest := Chunks(s[k..], size);
      assert Chunks(s, size) == [s[..k]] + rest;
      if |s| <= size {
        assert s[k..] == [];
        CeilDivOne(|s|, size);
      } else {
        CeilDivStep(|s|, size);
      }
    }
  }

  /** Number of elements of `s` that satisfy `p`. */
  function CountIf<T>(s: seq<T>, p: T -> bool): nat
  {
    if s == [] then 0 else (if p(s[0]) then 1 else 0) + CountIf(s[1..], p)
  }

  lemma {:induction false} CountIfAppend<T>(s: seq<T>, x: T, p: T -> bool)
    ensures CountIf(s + [x], p) == CountIf(s, p) + (if p(x) then 1 else 0)
  {
    if s == [] {
      assert [x][1..] == [];
    } else {
      assert (s + [x])[1..] == s[1..] + [x];
      CountIfAppend(s[1..], x, p);
    }
  }

  lemma {:induction false} CountIfBound<T>(s: seq<T>, p: T -> bool)
    ensures CountIf(s, p) <= |s|
  {
    if s != [] { CountIfBound(s[1..], p); }
  }

  /** The images under `f` of the elements of `s` that `keep` accepts, in
      order. */
  function MapKeep<A, B>(s: seq<A>, f: A -> B, keep: B -> bool): (r: seq<B>)
    ensures |r| <= |s|
    ensures forall k :: 0 <= k < |r| ==> keep(r[k])
  {
    if s == [] then []
    else
      var rest := MapKeep(s[1..], f, keep);
      if keep(f(s[0])) then [f(s[0])] + rest else rest
  }

  /** Each element contributes, in its own place, its image when `keep`
      accepts it and nothing otherwise. */
  lemma {:induction false} MapKeepSplit<A, B>(a: seq<A>, x: A, b: seq<A>, f: A -> B, keep: B -> bool)
    ensures MapKeep(a + [x] + b, f, keep)
      == MapKeep(a, f, keep) + (if keep(f(x)) then [f(x)] else []) + MapKeep(b, f, keep)
  {
    var s := a + [x] + b;
    if a == [] {
      assert s[0] == x && s[1..] == b;
    } else {
      assert s[0] == a[0] && s[1..] == a[1..] + [x] + b;
      MapKeepSplit(a[1..], x, b, f, keep);
    }
  }

  /** The result holds the accepted image of every element and nothing
      else. */
  lemma {:induction false} MapKeepMembers<A, B>(s: seq<A>, f: A -> B, keep: B -> bool)
    ensures forall x :: x in s && keep(f(x)) ==> f(x) in MapKeep(s, f, keep)
    ensures forall y :: y in MapKeep(s, f, keep) ==> exists x :: x in s && y == f(x)
  {
    if s != [] {
      MapKeepMembers(s[1..], f, keep);
      assert s == [s[0]] + s[1..];
    }
  }

  /** Sum of the integers of a sequence. */
  function Sum(s: seq<int>): int
  {
    if s == [] then 0 else s[0] + Sum(s[1..])
  }

  lemma {:induction false} SumAppend(s: seq<int>, x: int)
    ensures Sum(s + [x]) == Sum(s) + x
  {
    if s == [] {
      assert [x][1..] == [];
    } else {
      assert (s + [x])[1..] == s[1..] + [x];
      SumAppend(s[1..], x);
    }
  }

  // ---------------------------------------------------------------------------
  // A stable insertion sort by an integer key: the abstract behaviour of
  // `Array.prototype.sort` with a comparator `(a, b) => key(a) - key(b)`.

  ghost predicate SortedBy<T>(s: seq<T>, key: T -> int)
  {
    forall i, j :: 0 <= i < j < |s| ==> key(s[i]) <= key(s[j])
  }

  /** A prefix of a sorted sequence is sorted and is part of it. */
  lemma SortedPrefix<T>(s: seq<T>, key: T -> int, k: nat)
    requires SortedBy(s, key) && k <= |s|
    ensures SortedBy(s[..k], key)
    ensures multiset(s[..k]) <= multiset(s)
  {
    assert s == s[..k] + s[k..];
    assert multiset(s) == multiset(s[..k]) + multiset(s[k..]);
  }

  /** In a sorted sequence an element left out of a prefix has a key no
      smaller than any element of the prefix. */
  lemma SortedPrefixMaximal<T>(s: seq<T>, key: T -> int, k: nat, x: T, y: T)
    requires SortedBy(s, key) && k <= |s|
    requires x in s && x !in s[..k] && y in s[..k]
    ensures key(y) <= key(x)
  {
    var jx :| 0 <= jx < |s| && s[jx] == x;
    var iy :| 0 <= iy < k && s[..k][iy] == y;
    assert forall j :: 0 <= j < k ==> s[j] in s[..k];
    assert jx >= k;
  }

  /** In a sorted sequence every element lies between the first and the last. */
  lemma SortedEnds<T>(s: seq<T>, key: T -> int, t: T)
    requires SortedBy(s, key) && t in s
    ensures key(s[0]) <= key(t) <= key(s[|s| - 1])
  {
    var j :| 0 <= j < |s| && s[j] == t;
  }

  /** Inserts `x` before the first element whose key is not smaller. */
  function InsertBy<T>(x: T, s: seq<T>, key: T -> int): (r: seq<T>)
    ensures multiset(r) == multiset(s) + multiset{x}
    ensures |r| == |s| + 1
  {
    if s == [] then [x]
    else if key(x) <= key(s[0]) then [x] + s
    else
      assert s == [s[0]] + s[1..];
      [s[0]] + InsertBy(x, s[1..], key)
  }

  /** Insertion keeps a sorted sequence sorted; the new first element is
      `x` or the old first element. */
  lemma {:induction false} InsertBySorted<T>(x: T, s: seq<T>, key: T -> int)
    requires SortedBy(s, key)
    ensures SortedBy(InsertBy(x, s, key), key)
    ensures InsertBy(x, s, key)[0] == x || (s != [] && InsertBy(x, s, key)[0] == s[0])
  {
    if s != [] && key(x) <= key(s[0]) {
      ConsSorted(x, s, key);
    } else if s != [] {
      InsertBySorted(x, s[1..], key);
      ConsSorted(s[0], InsertBy(x, s[1..], key), key);
    }
  }

  /** A sorted sequence stays sorted when an element no larger than its
      first is put in front. */
  lemma ConsSorted<T>(x: T, s: seq<T>, key: T -> int)
    requires SortedBy(s, key) && (s != [] ==> key(x) <= key(s[0]))
    ensures SortedBy([x] + s, key)
  {
    var r := [x] + s;
    forall i, j | 0 <= i < j < |r| ensures key(r[i]) <= key(r[j]) {
      assert r[j] == s[j - 1];
      if i > 0 { assert r[i] == s[i - 1]; }
    }
  }

  function SortBy<T>(s: seq<T>, key: T -> int): (r: seq<T>)
    ensures multiset(r) == multiset(s)
    ensures |r| == |s|
    ensures SortedBy(r, key)
  {
    if s == [] then []
    else
      assert s == [s[0]] + s[1..];
      var rest := SortBy(s[1..], key);
      InsertBySorted(s[0], rest, key);
      InsertBy(s[0], rest, key)
  }

  /** The elements of `s` whose key is `k`, in their order in `s`. */
  function WithKey<T>(s: seq<T>, key: T -> int, k: int): seq<T>
  {
    if s == [] then [] else (if key(s[0]) == k then [s[0]] else []) + WithKey(s[1..], key, k)
  }

  /** Insertion passes only elements of smaller key, so among the elements of
      any one key `x` comes first. */
  lemma {:induction false} InsertByWithKey<T>(x: T, s: seq<T>, key: T -> int, k: int)
    ensures WithKey(InsertBy(x, s, key), key, k) == (if key(x) == k then [x] else []) + WithKey(s, key, k)
  {
    if s == [] {
      WithKeyCons(x, [], key, k);
    } else if key(x) <= key(s[0]) {
      WithKeyCons(x, s, key, k);
    } else {
      var t := InsertBy(x, s[1..], key);
      assert InsertBy(x, s, key) == [s[0]] + t;
      WithKeyCons(s[0], t, key, k);
      assert s == [s[0]] + s[1..];
      WithKeyCons(s[0], s[1..], key, k);
      InsertByWithKey(x, s[1..], key, k);
      SwapEmpty(if key(s[0]) == k then [s[0]] else [], if key(x) == k then [x] else [], WithKey(s[1..], key, k));
    }
  }

  /** Two sequences of which one is empty commute in front of a third. */
  lemma SwapEmpty<T>(a: seq<T>, b: seq<T>, c: seq<T>)
    requires a == [] || b == []
    ensures a + (b + c) == b + (a + c)
  {
    if a == [] { assert a + (b + c) == b + c; } else { assert b + (a + c) == a + c; }
  }

  lemma WithKeyCons<T>(y: T, t: seq<T>, key: T -> int, k: int)
    ensures WithKey([y] + t, key, k) == (if key(y) == k then [y] else []) + WithKey(t, key, k)
  {
    assert ([y] + t)[1..] == t;
  }


  /** Stability, as `Array.prototype.sort` guarantees it: elements with equal
      keys keep their relative input order. */
  lemma {:induction false} SortByStable<T>(s: seq<T>, key: T -> int, k: int)
    ensures WithKey(SortBy(s, key), key, k) == WithKey(s, key, k)
  {
    if s != [] {
      SortByStable(s[1..], key, k);
      InsertByWithKey(s[0], SortBy(s[1..], key), key, k);
    }
  }

  // ---------------------------------------------------------------------------
  // Sequences without repetitions

  /** No element occurs twice. */
  predicate Distinct<T(==)>(s: seq<T>)
  {
    forall a, b :: 0 <= a < b < |s| ==> s[a] != s[b]
  }

  lemma {:induction false} MultiplicityOfDistinct<T>(s: seq<T>, x: T)
    requires Distinct(s)
    ensures multiset(s)[x] <= 1
  {
    if s != [] {
      assert s == [s[0]] + s[1..];
      assert Distinct(s[1..]) by {
        forall a, b | 0 <= a < b < |s[1..]|
          ensures s[1..][a] != s[1..][b]
        {
          assert s[1..][a] == s[a + 1] && s[1..][b] == s[b + 1];
        }
      }
      MultiplicityOfDistinct(s[1..], x);
      if s[0] == x {
        assert forall j :: 0 <= j < |s[1..]| ==> s[1..][j] == s[j + 1] != s[0];
        assert x !in s[1..];
      }
    }
  }

  /** A permutation of a sequence without duplicates has none either. */
  lemma DistinctPermutation<T>(s: seq<T>, t: seq<T>)
    requires multiset(s) == multiset(t) && Distinct(s)
    ensures Distinct(t)
  {
    forall a, b | 0 <= a < b < |t|
      ensures t[a] != t[b]
    {
      if t[a] == t[b] {
        var x := t[a];
        assert t == t[..b] + t[b..];
        assert x in t[..b] && x in t[b..];
        assert multiset(t)[x] == multiset(t[..b])[x] + multiset(t[b..])[x];
        MultiplicityOfDistinct(s, x);
        assert false;
      }
    }
  }

  // ---------------------------------------------------------------------------
  // Counting over a partition

  /** The predicate that holds everywhere. */
  function Always<T>(): T -> bool
  {
    x => true
  }

  lemma {:induction false} CountIfAlways<T>(s: seq<T>)
    ensures CountIf(s, Always()) == |s|
  {
    if s != [] { CountIfAlways(s[1..]); }
  }

  /** When every element satisfying `all` satisfies exactly one of `p`, `q`
      and `r` (and the others none), the three counts add up to that of `all`. */
  lemma {:induction false} CountIfPartition<T>(s: seq<T>, all: T -> bool, p: T -> bool, q: T -> bool, r: T -> bool)
    requires forall x :: (if p(x) then 1 else 0) + (if q(x) then 1 else 0) + (if r(x) then 1 else 0)
                         == (if all(x) then 1 else 0)
    ensures CountIf(s, p) + CountIf(s, q) + CountIf(s, r) == CountIf(s, all)
  {
    if s != [] { CountIfPartition(s[1..], all, p, q, r); }
  }

  /** Index of the first occurrence of `x` in `s`. */
  function Find<T(==)>(s: seq<T>, x: T): (i: nat)
    requires x in s
    ensures i < |s| && s[i] == x && x !in s[..i]
  {
    if s[0] == x then 0 else 1 + Find(s[1..], x)
  }
}
