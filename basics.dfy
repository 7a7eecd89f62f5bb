/** Small shared vocabulary: optional values, results with string errors,
    order-preserving filtering, the subsequence relation and distinctness. */
module Basics {

  datatype Option<+T> = None | Some(value: T)

  /** A JavaScript promise or call that either yields a value or throws an error
      whose message is kept. */
  datatype Result<+T> = Success(value: T) | Failure(error: string)

  /** `Array.prototype.filter`: keeps, in order, the elements satisfying `p`. */
  function Filter<T>(s: seq<T>, p: T -> bool): (r: seq<T>)
    ensures |r| <= |s|
    decreases |s|
  {
    if s == [] then []
    else if p(s[|s| - 1]) then Filter(s[..|s| - 1], p) + [s[|s| - 1]]
    else Filter(s[..|s| - 1], p)
  }

  /** `a` can be obtained from `b` by deleting elements. */
  ghost predicate IsSubseq<T>(a: seq<T>, b: seq<T>)
    decreases |b|
  {
    if b == [] then a == []
    else
      (a != [] && a[|a| - 1] == b[|b| - 1] && IsSubseq(a[..|a| - 1], b[..|b| - 1]))
      || IsSubseq(a, b[..|b| - 1])
  }

  /** No value occurs twice. */
  ghost predicate Distinct<T>(s: seq<T>) {
    forall i, j :: 0 <= i < j < |s| ==> s[i] != s[j]
  }

  lemma {:induction false} FilterMembership<T>(s: seq<T>, p: T -> bool, x: T)
    ensures x in Filter(s, p) <==> x in s && p(x)
    decreases |s|
  {
    if s != [] {
      var init := s[..|s| - 1];
      assert s == init + [s[|s| - 1]];
      FilterMembership(init, p, x);
    }
  }

  lemma {:induction false} SubseqRefl<T>(a: seq<T>)
    ensures IsSubseq(a, a)
    decreases |a|
  {
    if a != [] {
      SubseqRefl(a[..|a| - 1]);
    }
  }

  lemma {:induction false} SubseqEmpty<T>(b: seq<T>)
    ensures IsSubseq([], b)
    decreases |b|
  {
    if b != [] {
      SubseqEmpty(b[..|b| - 1]);
    }
  }

  /** Appending the same element to both sides keeps the relation. */
  lemma SubseqSnoc<T>(a: seq<T>, b: seq<T>, x: T)
    requires IsSubseq(a, b)
    ensures IsSubseq(a + [x], b + [x])
  {
    assert (a + [x])[..|a|] == a;
    assert (b + [x])[..|b|] == b;
  }

  /** Appending an element to the larger side only keeps the relation. */
  lemma SubseqExtend<T>(a: seq<T>, b: seq<T>, x: T)
    requires IsSubseq(a, b)
    ensures IsSubseq(a, b + [x])
  {
    assert (b + [x])[..|b|] == b;
  }

  lemma {:induction false} SubseqTrans<T>(a: seq<T>, b: seq<T>, c: seq<T>)
    requires IsSubseq(a, b) && IsSubseq(b, c)
    ensures IsSubseq(a, c)
    decreases |c|
  {
    if c == [] {
    } else {
      var c' := c[..|c| - 1];
      if b != [] && b[|b| - 1] == c[|c| - 1] && IsSubseq(b[..|b| - 1], c') {
        var b' := b[..|b| - 1];
        if a != [] && a[|a| - 1] == b[|b| - 1] && IsSubseq(a[..|a| - 1], b') {
          SubseqTrans(a[..|a| - 1], b', c');
        } else {
          SubseqTrans(a, b', c');
        }
      } else {
        SubseqTrans(a, b, c');
      }
    }
  }

  lemma {:induction false} SubseqMembership<T>(a: seq<T>, b: seq<T>, x: T)
    requires IsSubseq(a, b) && x in a
    ensures x in b
    decreases |b|
  {
    var b' := b[..|b| - 1];
    assert b == b' + [b[|b| - 1]];
    if a != [] && a[|a| - 1] == b[|b| - 1] && IsSubseq(a[..|a| - 1], b') {
      var a' := a[..|a| - 1];
      assert a == a' + [a[|a| - 1]];
      if x != a[|a| - 1] {
        SubseqMembership(a', b', x);
      }
    } else {
      SubseqMembership(a, b', x);
    }
  }

  /** Filtering only deletes elements. */
  lemma {:induction false} FilterSubseq<T>(s: seq<T>, p: T -> bool)
    ensures IsSubseq(Filter(s, p), s)
    decreases |s|
  {
    if s != [] {
      var init, last := s[..|s| - 1], s[|s| - 1];
      assert s == init + [last];
      FilterSubseq(init, p);
      if p(last) {
        SubseqSnoc(Filter(init, p), init, last);
      } else {
        SubseqExtend(Filter(init, p), init, last);
      }
    }
  }

  lemma DistinctAppend<T>(a: seq<T>, b: seq<T>)
    requires Distinct(a) && Distinct(b)
    requires forall x :: x in a ==> x !in b
    ensures Distinct(a + b)
  {
    forall i, j | 0 <= i < j < |a + b|
      ensures (a + b)[i] != (a + b)[j]
    {
      if j >= |a| && i < |a| {
        assert (a + b)[i] in a;
        assert (a + b)[j] in b;
      }
    }
  }

  /** The key of every element, in order. */
  function Keys<T, K>(s: seq<T>, key: T -> K): (r: seq<K>)
    ensures |r| == |s|
    ensures forall i :: 0 <= i < |s| ==> r[i] == key(s[i])
    decreases |s|
  {
    if s == [] then [] else Keys(s[..|s| - 1], key) + [key(s[|s| - 1])]
  }

  /** The elements whose key does not occur earlier: the first element with
      each key, in the order of the input. */
  function UniqueBy<T, K(==)>(s: seq<T>, key: T -> K): (r: seq<T>)
    ensures |r| <= |s|
    decreases |s|
  {
    if s == [] then []
    else
      var init := s[..|s| - 1];
      if key(s[|s| - 1]) in Keys(init, key) then UniqueBy(init, key)
      else UniqueBy(init, key) + [s[|s| - 1]]
  }

  lemma {:induction false} KeysAppend<T, K>(a: seq<T>, x: T, key: T -> K)
    ensures Keys(a + [x], key) == Keys(a, key) + [key(x)]
  {
    assert (a + [x])[..|a|] == a;
  }

  /** Deduplication keeps every key. */
  lemma {:induction false} UniqueByKeys<T, K>(s: seq<T>, key: T -> K, k: K)
    ensures k in Keys(UniqueBy(s, key), key) <==> k in Keys(s, key)
    decreases |s|
  {
    if s != [] {
      var init, last := s[..|s| - 1], s[|s| - 1];
      assert s == init + [last];
      UniqueByKeys(init, key, k);
      KeysAppend(init, last, key);
      if key(last) !in Keys(init, key) {
        KeysAppend(UniqueBy(init, key), last, key);
      }
    }
  }

  /** No key occurs twice after deduplication. */
  lemma {:induction false} UniqueByDistinct<T, K>(s: seq<T>, key: T -> K)
    ensures Distinct(Keys(UniqueBy(s, key), key))
    decreases |s|
  {
    if s != [] {
      var init, last := s[..|s| - 1], s[|s| - 1];
      UniqueByDistinct(init, key);
      if key(last) !in Keys(init, key) {
        var u := UniqueBy(init, key);
        UniqueByKeys(init, key, key(last));
        KeysAppend(u, last, key);
        DistinctAppend(Keys(u, key), [key(last)]);
      }
    }
  }

  /** Deduplication only deletes elements. */
  lemma {:induction false} UniqueBySubseq<T, K>(s: seq<T>, key: T -> K)
    ensures IsSubseq(UniqueBy(s, key), s)
    decreases |s|
  {
    if s != [] {
      var init, last := s[..|s| - 1], s[|s| - 1];
      assert s == init + [last];
      UniqueBySubseq(init, key);
      if key(last) in Keys(init, key) {
        SubseqExtend(UniqueBy(init, key), init, last);
      } else {
        SubseqSnoc(UniqueBy(init, key), init, last);
      }
    }
  }

  /** The first element with each key is kept. */
  lemma {:induction false} UniqueByFirst<T, K>(s: seq<T>, key: T -> K, i: nat)
    requires i < |s| && key(s[i]) !in Keys(s[..i], key)
    ensures s[i] in UniqueBy(s, key)
    decreases |s|
  {
    var init := s[..|s| - 1];
    if i < |s| - 1 {
      assert init[..i] == s[..i];
      UniqueByFirst(init, key, i);
    } else {
      assert s[..i] == init;
    }
  }

  /** Every element kept by deduplication is in the input. */
  lemma {:induction false} UniqueByMembership<T, K>(s: seq<T>, key: T -> K, x: T)
    ensures x in UniqueBy(s, key) ==> x in s
  {
    if x in UniqueBy(s, key) {
      UniqueBySubseq(s, key);
      SubseqMembership(UniqueBy(s, key), s, x);
    }
  }

  /** Filtering keeps distinct elements distinct. */
  lemma {:induction false} FilterDistinct<T>(s: seq<T>, p: T -> bool)
    requires Distinct(s)
    ensures Distinct(Filter(s, p))
    decreases |s|
  {
    if s != [] {
      var init, last := s[..|s| - 1], s[|s| - 1];
      assert s == init + [last];
      assert Distinct(init);
      FilterDistinct(init, p);
      if p(last) {
        forall x | x in Filter(init, p)
          ensures x !in [last]
        {
          FilterMembership(init, p, x);
        }
        DistinctAppend(Filter(init, p), [last]);
      }
    }
  }

  /** The index of the first occurrence of `x` in `s`. */
  function FirstIndex<T(==)>(s: seq<T>, x: T): (r: nat)
    requires x in s
    ensures r < |s| && s[r] == x && x !in s[..r]
    decreases |s|
  {
    if s[0] == x then 0
    else
      var r' := FirstIndex(s[1..], x);
      assert s[..r' + 1] == [s[0]] + s[1..][..r'];
      r' + 1
  }

  /** Appending an element does not move the first occurrence of an element
      already present, and that occurrence lies before the appended one. */
  lemma {:induction false} FirstIndexAppend<T>(s: seq<T>, u: T, x: T)
    requires x in s
    ensures x in s + [u] && FirstIndex(s + [u], x) == FirstIndex(s, x) < |s|
  {
    var k, r := FirstIndex(s, x), FirstIndex(s + [u], x);
    assert (s + [u])[k] == x;
  }

  /** An element appended to a sequence that does not hold it occurs first
      at the end. */
  lemma {:induction false} FirstIndexLast<T>(s: seq<T>, u: T)
    requires u !in s
    ensures u in s + [u] && FirstIndex(s + [u], u) == |s|
  {
    var r := FirstIndex(s + [u], u);
    assert r <= |s|;
  }

  /** The elements of `r` occur in `s`, in the order of their first
      occurrences there. */
  ghost predicate InOrder<T>(r: seq<T>, s: seq<T>) {
    forall i, j :: 0 <= i < j < |r| ==> r[i] in s && r[j] in s && FirstIndex(s, r[i]) < FirstIndex(s, r[j])
  }

  /** Appending to the larger side keeps the order. */
  lemma {:induction false} InOrderExtend<T>(r: seq<T>, s: seq<T>, u: T)
    requires InOrder(r, s) && forall x :: x in r ==> x in s
    ensures InOrder(r, s + [u])
  {
    forall i, j | 0 <= i < j < |r|
      ensures r[i] in s + [u] && r[j] in s + [u] && FirstIndex(s + [u], r[i]) < FirstIndex(s + [u], r[j])
    {
      FirstIndexAppend(s, u, r[i]);
      FirstIndexAppend(s, u, r[j]);
    }
  }

  /** Appending a new element to both sides keeps the order. */
  lemma {:induction false} InOrderSnoc<T>(r: seq<T>, s: seq<T>, u: T)
    requires InOrder(r, s) && (forall x :: x in r ==> x in s) && u !in s
    ensures InOrder(r + [u], s + [u])
  {
    var r' := r + [u];
    forall i, j | 0 <= i < j < |r'|
      ensures r'[i] in s + [u] && r'[j] in s + [u] && FirstIndex(s + [u], r'[i]) < FirstIndex(s + [u], r'[j])
    {
      assert r'[i] == r[i];
      FirstIndexAppend(s, u, r[i]);
      if j < |r| {
        assert r'[j] == r[j];
        FirstIndexAppend(s, u, r[j]);
      } else {
        FirstIndexLast(s, u);
      }
    }
  }
}
