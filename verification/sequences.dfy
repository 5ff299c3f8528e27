/**
 * Sequence vocabulary shared by the model: Python's prefix slice, subsequences,
 * list-comprehension filtering, and Python's stable sort in descending key order.
 */
module Sequences {

  /** Python's `s[:k]`; a negative `k` drops `-k` elements from the end. */
  function Prefix<T>(s: seq<T>, k: int): (r: seq<T>)
    ensures |r| <= |s| && r == s[..|r|]
    ensures k >= 0 ==> |r| == (if k < |s| then k else |s|)
    ensures k < 0 ==> |r| == (if -k < |s| then |s| + k else 0)
  {
    if k >= 0 then (if k < |s| then s[..k] else s)
    else (if -k < |s| then s[..|s| + k] else [])
  }

  /** No element occurs twice. */
  predicate Distinct<T(==)>(s: seq<T>) {
    forall i, j :: 0 <= i < j < |s| ==> s[i] != s[j]
  }

  /** `xs` can be obtained from `ys` by deleting elements (order kept). */
  predicate IsSubseq<T(==)>(xs: seq<T>, ys: seq<T>)
    decreases |ys|
  {
    if xs == [] then true
    else if ys == [] then false
    else (xs[|xs| - 1] == ys[|ys| - 1] && IsSubseq(xs[..|xs| - 1], ys[..|ys| - 1]))
         || IsSubseq(xs, ys[..|ys| - 1])
  }

  lemma SubseqExtend<T>(xs: seq<T>, ys: seq<T>, y: T)
    requires IsSubseq(xs, ys)
    ensures IsSubseq(xs, ys + [y])
  {
    assert (ys + [y])[..|ys|] == ys;
  }

  lemma SubseqSnoc<T>(xs: seq<T>, ys: seq<T>, y: T)
    requires IsSubseq(xs, ys)
    ensures IsSubseq(xs + [y], ys + [y])
  {
    assert (xs + [y])[..|xs|] == xs;
    assert (ys + [y])[..|ys|] == ys;
  }

  lemma {:induction false} SubseqRefl<T>(xs: seq<T>)
    ensures IsSubseq(xs, xs)
    decreases |xs|
  {
    if xs != [] {
      SubseqRefl(xs[..|xs| - 1]);
    }
  }

  /** A subsequence is no longer than the sequence and draws only its elements. */
  lemma {:induction false} SubseqElements<T>(xs: seq<T>, ys: seq<T>)
    requires IsSubseq(xs, ys)
    ensures |xs| <= |ys|
    ensures forall x :: x in xs ==> x in ys
    decreases |ys|
  {
    if xs != [] {
      var xs', ys' := xs[..|xs| - 1], ys[..|ys| - 1];
      if xs[|xs| - 1] == ys[|ys| - 1] && IsSubseq(xs', ys') {
        SubseqElements(xs', ys');
        assert xs == xs' + [xs[|xs| - 1]];
        assert ys == ys' + [ys[|ys| - 1]];
      } else {
        SubseqElements(xs, ys');
        assert ys == ys' + [ys[|ys| - 1]];
      }
    }
  }

  lemma {:induction false} SubseqTrans<T>(xs: seq<T>, ys: seq<T>, zs: seq<T>)
    requires IsSubseq(xs, ys) && IsSubseq(ys, zs)
    ensures IsSubseq(xs, zs)
    decreases |zs|
  {
    if xs != [] {
      var zs' := zs[..|zs| - 1];
      if IsSubseq(ys, zs') {
        SubseqTrans(xs, ys, zs');
      } else {
        var xs', ys' := xs[..|xs| - 1], ys[..|ys| - 1];
        if xs[|xs| - 1] == ys[|ys| - 1] && IsSubseq(xs', ys') {
          SubseqTrans(xs', ys', zs');
        } else {
          SubseqTrans(xs, ys', zs');
        }
      }
    }
  }

  /** Every prefix is a subsequence. */
  lemma {:induction false} PrefixIsSubseq<T>(s: seq<T>, n: nat)
    requires n <= |s|
    ensures IsSubseq(s[..n], s)
    decreases |s|
  {
    if n == |s| {
      assert s[..n] == s;
      SubseqRefl(s);
    } else {
      PrefixIsSubseq(s[..|s| - 1], n);
      assert s[..|s| - 1][..n] == s[..n];
    }
  }

  /** A subsequence of distinct elements has distinct elements. */
  lemma {:induction false} SubseqDistinct<T>(xs: seq<T>, ys: seq<T>)
    requires IsSubseq(xs, ys) && Distinct(ys)
    ensures Distinct(xs)
    decreases |ys|
  {
    if xs != [] {
      var xs', ys' := xs[..|xs| - 1], ys[..|ys| - 1];
      if xs[|xs| - 1] == ys[|ys| - 1] && IsSubseq(xs', ys') {
        SubseqDistinct(xs', ys');
        SubseqElements(xs', ys');
        assert ys[|ys| - 1] !in ys' by {
          forall i | 0 <= i < |ys'| ensures ys'[i] != ys[|ys| - 1] { }
        }
        forall i, j | 0 <= i < j < |xs| ensures xs[i] != xs[j] {
          if j == |xs| - 1 {
            assert xs[i] == xs'[i];
            assert xs[i] in ys';
          } else {
            assert xs[i] == xs'[i] && xs[j] == xs'[j];
          }
        }
      } else {
        SubseqDistinct(xs, ys');
      }
    }
  }

  /** The list comprehension `[x for x in s if p(x)]`. */
  function Filter<T>(s: seq<T>, p: T -> bool): (r: seq<T>)
    ensures forall i :: 0 <= i < |r| ==> r[i] in s && p(r[i])
    ensures forall i :: 0 <= i < |s| && p(s[i]) ==> s[i] in r
    decreases |s|
  {
    if s == [] then []
    else
      var s', x := s[..|s| - 1], s[|s| - 1];
      assert s == s' + [x];
      Filter(s', p) + (if p(x) then [x] else [])
  }

  /** What a prefix of a filtered list holds comes from the list and passes the filter. */
  lemma PrefixOfFilter<T>(s: seq<T>, p: T -> bool, k: int)
    ensures forall x :: x in Prefix(Filter(s, p), k) ==> x in s && p(x)
  {
    var r := Prefix(Filter(s, p), k);
    forall x | x in r ensures x in s && p(x) {
      var i :| 0 <= i < |r| && r[i] == x;
      assert r[i] == Filter(s, p)[i];
    }
  }

  /** Filtering only deletes: the result is a subsequence. */
  lemma {:induction false} FilterSubseq<T>(s: seq<T>, p: T -> bool)
    ensures IsSubseq(Filter(s, p), s)
    decreases |s|
  {
    if s != [] {
      var s', x := s[..|s| - 1], s[|s| - 1];
      FilterSubseq(s', p);
      assert s == s' + [x];
      if p(x) {
        SubseqSnoc(Filter(s', p), s', x);
      } else {
        assert Filter(s, p) == Filter(s', p);
        SubseqExtend(Filter(s', p), s', x);
      }
    }
  }

  /** Two predicates that agree on the elements of `s` filter it alike. */
  lemma {:induction false} FilterSame<T>(s: seq<T>, p: T -> bool, q: T -> bool)
    requires forall x :: x in s ==> p(x) == q(x)
    ensures Filter(s, p) == Filter(s, q)
    decreases |s|
  {
    if s != [] {
      var s' := s[..|s| - 1];
      assert forall x :: x in s' ==> x in s;
      FilterSame(s', p, q);
    }
  }

  /** A one-element list is kept or dropped whole. */
  lemma FilterSingleton<T>(x: T, p: T -> bool)
    ensures Filter([x], p) == if p(x) then [x] else []
  {
    assert [x][..0] == [];
  }

  /** Filtering commutes with appending. */
  lemma FilterSnoc<T>(s: seq<T>, x: T, p: T -> bool)
    ensures Filter(s + [x], p) == Filter(s, p) + (if p(x) then [x] else [])
  {
    assert (s + [x])[..|s|] == s;
  }

  /** Filtering by a predicate every element meets keeps the whole sequence. */
  lemma {:induction false} FilterKeepsAll<T>(s: seq<T>, p: T -> bool)
    requires forall i :: 0 <= i < |s| ==> p(s[i])
    ensures Filter(s, p) == s
    decreases |s|
  {
    if s != [] {
      var s', x := s[..|s| - 1], s[|s| - 1];
      TakeSnoc(s, |s| - 1);
      assert s[..|s|] == s;
      forall i | 0 <= i < |s'| ensures p(s'[i]) {
        assert s'[i] == s[i];
      }
      FilterKeepsAll(s', p);
      FilterSnoc(s', x, p);
    }
  }

  /** Filtering distributes over concatenation. */
  lemma {:induction false} FilterAppend<T>(a: seq<T>, b: seq<T>, p: T -> bool)
    ensures Filter(a + b, p) == Filter(a, p) + Filter(b, p)
    decreases |b|
  {
    if b == [] {
      assert a + b == a;
    } else {
      var b', x := b[..|b| - 1], b[|b| - 1];
      FilterAppend(a, b', p);
      SnocParts(a, b);
      FilterSnoc(a + b', x, p);
      FilterSnoc(b', x, p);
      ConcatAssoc(Filter(a, p), Filter(b', p), if p(x) then [x] else []);
    }
  }

  /** The first `i + 1` elements are the first `i` and then the element at `i`. */
  lemma TakeSnoc<T>(s: seq<T>, i: int)
    requires 0 <= i < |s|
    ensures s[..i + 1] == s[..i] + [s[i]]
  {
  }

  /** Splitting off the last element of a non-empty `b`, also inside `a + b`. */
  lemma SnocParts<T>(a: seq<T>, b: seq<T>)
    requires b != []
    ensures b == b[..|b| - 1] + [b[|b| - 1]]
    ensures a + b == (a + b[..|b| - 1]) + [b[|b| - 1]]
  {
  }

  lemma ConcatAssoc<T>(x: seq<T>, y: seq<T>, z: seq<T>)
    ensures (x + y) + z == x + (y + z)
  {
  }

  /** Once `a` has `k` elements, the first `k` of `a + b` are those of `a`. */
  lemma PrefixOfLonger<T>(a: seq<T>, b: seq<T>, k: int)
    requires 0 <= k <= |a|
    ensures Prefix(a + b, k) == Prefix(a, k)
  {
    assert (a + b)[..k] == a[..k];
  }

  /** `list(reversed(s))`. */
  function Reverse<T>(s: seq<T>): (r: seq<T>)
    ensures |r| == |s| && forall i :: 0 <= i < |s| ==> r[i] == s[|s| - 1 - i]
  {
    seq(|s|, i requires 0 <= i < |s| => s[|s| - 1 - i])
  }

  /**
   * The first occurrence of every element, in order of first occurrence: the keys of
   * a dict built by assigning the elements of `s` in turn, or the list built by a loop
   * that skips elements already in a `seen` set.
   */
  function Dedup<T(==)>(s: seq<T>): seq<T>
    decreases |s|
  {
    if s == [] then []
    else
      var r := Dedup(s[..|s| - 1]);
      if s[|s| - 1] in r then r else r + [s[|s| - 1]]
  }

  /** One more element is appended to the de-duplicated list unless already in it. */
  lemma DedupSnoc<T>(s: seq<T>, x: T)
    ensures Dedup(s + [x]) == if x in Dedup(s) then Dedup(s) else Dedup(s) + [x]
  {
    assert (s + [x])[..|s|] == s;
  }

  /** `Dedup` keeps exactly the elements of `s`, once each, in their order in `s`. */
  lemma {:induction false} DedupFacts<T>(s: seq<T>)
    ensures Distinct(Dedup(s))
    ensures forall x :: x in Dedup(s) <==> x in s
    ensures IsSubseq(Dedup(s), s)
    decreases |s|
  {
    if s != [] {
      var s', x := s[..|s| - 1], s[|s| - 1];
      DedupFacts(s');
      assert s == s' + [x];
      var r := Dedup(s');
      if x in r {
        SubseqExtend(r, s', x);
      } else {
        SubseqSnoc(r, s', x);
      }
    }
  }

  /** Appending elements only appends to the deduplicated list. */
  lemma {:induction false} DedupAppend<T>(a: seq<T>, b: seq<T>)
    ensures |Dedup(a)| <= |Dedup(a + b)| && Dedup(a + b)[..|Dedup(a)|] == Dedup(a)
    decreases |b|
  {
    if b == [] {
      assert a + b == a;
    } else {
      var b', x := b[..|b| - 1], b[|b| - 1];
      DedupAppend(a, b');
      assert a + b == (a + b') + [x];
      assert (a + b)[..|a + b| - 1] == a + b';
    }
  }

  /** `[f(x) for x in s]`. */
  function Map<T, U>(s: seq<T>, f: T -> U): (r: seq<U>)
    ensures |r| == |s| && forall i :: 0 <= i < |s| ==> r[i] == f(s[i])
  {
    seq(|s|, i requires 0 <= i < |s| => f(s[i]))
  }

  /** Projecting a non-empty list: the first image, then the images of the rest. */
  lemma MapCons<T, U>(s: seq<T>, f: T -> U)
    requires s != []
    ensures Map(s, f) == [f(s[0])] + Map(s[1..], f)
  {
  }

  /** Projecting `[x] + s`: the image of `x`, then the images of `s`. */
  lemma MapPrepend<T, U>(x: T, s: seq<T>, f: T -> U)
    ensures Map([x] + s, f) == [f(x)] + Map(s, f)
  {
    assert ([x] + s)[1..] == s;
    MapCons([x] + s, f);
  }

  /** Projecting both sides keeps a subsequence a subsequence. */
  lemma {:induction false} SubseqMap<T, U>(xs: seq<T>, ys: seq<T>, f: T -> U)
    requires IsSubseq(xs, ys)
    ensures IsSubseq(Map(xs, f), Map(ys, f))
    decreases |ys|
  {
    if xs != [] {
      var xs', ys' := xs[..|xs| - 1], ys[..|ys| - 1];
      assert Map(ys, f) == Map(ys', f) + [f(ys[|ys| - 1])];
      if xs[|xs| - 1] == ys[|ys| - 1] && IsSubseq(xs', ys') {
        SubseqMap(xs', ys', f);
        assert Map(xs, f) == Map(xs', f) + [f(xs[|xs| - 1])];
        SubseqSnoc(Map(xs', f), Map(ys', f), f(ys[|ys| - 1]));
      } else {
        SubseqMap(xs, ys', f);
        SubseqExtend(Map(xs, f), Map(ys', f), f(ys[|ys| - 1]));
      }
    }
  }

  /** Keys never increase from left to right. */
  predicate SortedDesc<T>(s: seq<T>, key: T -> real) {
    forall i, j :: 0 <= i < j < |s| ==> key(s[i]) >= key(s[j])
  }

  /**
   * Insert `x` into `s` in front of the first element whose key is not greater
   * than `x`'s: `x` stays ahead of every element with an equal key.
   */
  function InsertDesc<T(==)>(x: T, s: seq<T>, key: T -> real): (r: seq<T>)
    ensures |r| == |s| + 1
    ensures multiset(r) == multiset(s) + multiset{x}
    decreases |s|
  {
    if s == [] || key(s[0]) <= key(x) then [x] + s
    else
      assert s == [s[0]] + s[1..];
      [s[0]] + InsertDesc(x, s[1..], key)
  }

  lemma {:induction false} InsertDescSorted<T>(x: T, s: seq<T>, key: T -> real)
    requires SortedDesc(s, key)
    ensures SortedDesc(InsertDesc(x, s, key), key)
    decreases |s|
  {
    if s != [] && key(s[0]) > key(x) {
      var r' := InsertDesc(x, s[1..], key);
      InsertDescSorted(x, s[1..], key);
      forall i | 0 <= i < |r'| ensures key(s[0]) >= key(r'[i]) {
        assert r'[i] in multiset(r');
        if r'[i] != x {
          assert r'[i] in s[1..];
        }
      }
    }
  }

  /**
   * Python's `sorted(s, key=key, reverse=True)`: a stable sort into non-increasing
   * key order, where elements with equal keys keep their original order.
   */
  function SortDesc<T(==)>(s: seq<T>, key: T -> real): (r: seq<T>)
    ensures |r| == |s|
    ensures multiset(r) == multiset(s)
    ensures SortedDesc(r, key)
    decreases |s|
  {
    if s == [] then []
    else
      assert s == [s[0]] + s[1..];
      InsertDescSorted(s[0], SortDesc(s[1..], key), key);
      InsertDesc(s[0], SortDesc(s[1..], key), key)
  }

  /** Re-sorting an already sorted list changes nothing (stability). */
  lemma {:induction false} SortDescOfSorted<T>(s: seq<T>, key: T -> real)
    requires SortedDesc(s, key)
    ensures SortDesc(s, key) == s
    decreases |s|
  {
    if s != [] {
      SortDescOfSorted(s[1..], key);
      assert s == [s[0]] + s[1..];
    }
  }

  /** Sorting permutes any projection of the elements as well. */
  lemma {:induction false} MapInsertDesc<T, U>(x: T, s: seq<T>, key: T -> real, f: T -> U)
    ensures multiset(Map(InsertDesc(x, s, key), f)) == multiset(Map(s, f)) + multiset{f(x)}
    decreases |s|
  {
    if s == [] || key(s[0]) <= key(x) {
      MapPrepend(x, s, f);
    } else {
      MapInsertDesc(x, s[1..], key, f);
      MapPrepend(s[0], InsertDesc(x, s[1..], key), f);
      MapCons(s, f);
    }
  }

  lemma {:induction false} MapSortDesc<T, U>(s: seq<T>, key: T -> real, f: T -> U)
    ensures multiset(Map(SortDesc(s, key), f)) == multiset(Map(s, f))
    decreases |s|
  {
    if s != [] {
      MapSortDesc(s[1..], key, f);
      MapInsertDesc(s[0], SortDesc(s[1..], key), key, f);
      assert SortDesc(s, key) == InsertDesc(s[0], SortDesc(s[1..], key), key);
      MapCons(s, f);
    }
  }
}
