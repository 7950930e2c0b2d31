/** Byte-wise lexicographic order and the sorted listing that KEYS answers with. */
module SortedKeys {
  import opened Common

  /** Shorter strings come before their extensions, octets compare unsigned. */
  predicate Leq(a: Bytes, b: Bytes) {
    a == [] || (b != [] && (a[0] < b[0] || (a[0] == b[0] && Leq(a[1..], b[1..]))))
  }

  lemma {:induction false} LeqReflexive(a: Bytes)
    ensures Leq(a, a)
    decreases |a|
  {
    if a != [] {
      LeqReflexive(a[1..]);
    }
  }

  lemma {:induction false} LeqTotal(a: Bytes, b: Bytes)
    ensures Leq(a, b) || Leq(b, a)
    decreases |a|
  {
    if a != [] && b != [] {
      LeqTotal(a[1..], b[1..]);
    }
  }

  lemma {:induction false} LeqTransitive(a: Bytes, b: Bytes, c: Bytes)
    requires Leq(a, b) && Leq(b, c)
    ensures Leq(a, c)
    decreases |a|
  {
    if a != [] && a[0] == b[0] && b[0] == c[0] {
      LeqTransitive(a[1..], b[1..], c[1..]);
    }
  }

  lemma {:induction false} LeqAntisymmetric(a: Bytes, b: Bytes)
    requires Leq(a, b) && Leq(b, a)
    ensures a == b
    decreases |a|
  {
    if a != [] {
      LeqAntisymmetric(a[1..], b[1..]);
      assert a == [a[0]] + a[1..] && b == [b[0]] + b[1..];
    }
  }

  /** The first octet in which they differ decides, compared without sign; a prefix comes first. */
  lemma {:induction false} LeqMeans(a: Bytes, b: Bytes)
    ensures Leq(a, b) <==> (|a| <= |b| && a == b[..|a|]) || exists i :: Differ(a, b, i)
    decreases |a|
  {
    if a != [] && b != [] {
      var a', b' := a[1..], b[1..];
      assert a == [a[0]] + a' && b == [b[0]] + b';
      LeqMeans(a', b');
      if a[0] == b[0] {
        forall i | Differ(a', b', i)
          ensures Differ(a, b, i + 1)
        {
          assert a[..i + 1] == [a[0]] + a'[..i] && b[..i + 1] == [b[0]] + b'[..i];
        }
        forall i | Differ(a, b, i)
          ensures Differ(a', b', i - 1)
        {
          assert a[..i] == [a[0]] + a'[..i - 1] && b[..i] == [b[0]] + b'[..i - 1];
          assert a'[..i - 1] == a[..i][1..] && b'[..i - 1] == b[..i][1..];
        }
      } else if a[0] < b[0] {
        assert Differ(a, b, 0);
      } else {
        DifferAfter(a, b);
      }
    }
  }

  lemma DifferAfter(a: Bytes, b: Bytes)
    requires a != [] && b != []
    ensures forall i :: Differ(a, b, i) ==> i == 0 || a[0] == b[0]
  {
    forall i | Differ(a, b, i)
      ensures i == 0 || a[0] == b[0]
    {
      if i > 0 {
        assert a[..i][0] == b[..i][0];
      }
    }
  }

  predicate Differ(a: Bytes, b: Bytes, i: int) {
    0 <= i < |a| && i < |b| && a[..i] == b[..i] && a[i] < b[i]
  }

  predicate Sorted(xs: seq<Bytes>) {
    forall i, j :: 0 <= i < j < |xs| ==> Leq(xs[i], xs[j])
  }

  predicate NoDuplicates(xs: seq<Bytes>) {
    forall i, j :: 0 <= i < j < |xs| ==> xs[i] != xs[j]
  }

  function Insert(x: Bytes, xs: seq<Bytes>): (r: seq<Bytes>)
    ensures multiset(r) == multiset(xs) + multiset{x}
  {
    if xs == [] then [x]
    else if Leq(x, xs[0]) then [x] + xs
    else assert xs == [xs[0]] + xs[1..]; [xs[0]] + Insert(x, xs[1..])
  }

  function Sort(xs: seq<Bytes>): (r: seq<Bytes>)
    ensures multiset(r) == multiset(xs)
  {
    if xs == [] then []
    else assert xs == [xs[0]] + xs[1..]; Insert(xs[0], Sort(xs[1..]))
  }

  lemma {:induction false} InsertSorted(x: Bytes, xs: seq<Bytes>)
    requires Sorted(xs)
    ensures Sorted(Insert(x, xs))
    decreases |xs|
  {
    hide Leq;
    if xs != [] {
      var r := Insert(x, xs);
      if Leq(x, xs[0]) {
        forall j | 1 <= j < |r|
          ensures Leq(r[0], r[j])
        {
          if j > 1 {
            assert Leq(xs[0], xs[j - 1]);
            LeqTransitive(x, xs[0], xs[j - 1]);
          }
        }
      } else {
        LeqTotal(x, xs[0]);
        var rest := Insert(x, xs[1..]);
        InsertSorted(x, xs[1..]);
        forall j | 0 <= j < |rest|
          ensures Leq(xs[0], rest[j])
        {
          assert rest[j] in multiset(rest);
          assert rest[j] in multiset(xs[1..]) + multiset{x};
          if rest[j] != x {
            assert rest[j] in xs[1..];
          }
        }
      }
    }
  }

  lemma {:induction false} SortSorted(xs: seq<Bytes>)
    ensures Sorted(Sort(xs))
    decreases |xs|
  {
    if xs != [] {
      SortSorted(xs[1..]);
      InsertSorted(xs[0], Sort(xs[1..]));
    }
  }

  /** The sequence names exactly the members of the set, each once. */
  ghost predicate Lists(xs: seq<Bytes>, keys: set<Bytes>) {
    NoDuplicates(xs) && forall k :: k in xs <==> k in keys
  }

  lemma DuplicatesCounted(xs: seq<Bytes>, i: nat, j: nat)
    requires i < j < |xs| && xs[i] == xs[j]
    ensures multiset(xs)[xs[i]] >= 2
  {
    assert xs == xs[..i] + [xs[i]] + xs[i + 1..j] + [xs[j]] + xs[j + 1..];
  }

  lemma {:induction false} NoDuplicatesCounted(xs: seq<Bytes>, x: Bytes)
    requires NoDuplicates(xs)
    ensures multiset(xs)[x] <= 1
    decreases |xs|
  {
    if xs != [] {
      var n := |xs| - 1;
      assert xs == xs[..n] + [xs[n]];
      NoDuplicatesCounted(xs[..n], x);
      if xs[n] == x {
        assert x !in xs[..n];
      }
    }
  }

  /** Sorting a listing of a set keeps it a listing of that set. */
  lemma SortLists(xs: seq<Bytes>, keys: set<Bytes>)
    requires Lists(xs, keys)
    ensures Lists(Sort(xs), keys) && Sorted(Sort(xs))
  {
    hide Sort, Leq;
    var r := Sort(xs);
    SortSorted(xs);
    forall i, j | 0 <= i < j < |r|
      ensures r[i] != r[j]
    {
      if r[i] == r[j] {
        DuplicatesCounted(r, i, j);
        NoDuplicatesCounted(xs, r[i]);
      }
    }
    forall k
      ensures k in r <==> k in keys
    {
      assert k in r <==> k in multiset(r);
      assert k in xs <==> k in multiset(xs);
    }
  }

  lemma EmptyListing(xs: seq<Bytes>, keys: set<Bytes>)
    requires Lists(xs, keys)
    ensures xs == [] <==> keys == {}
  {
    if xs != [] {
      assert xs[0] in keys;
    }
  }

  /** A set has one sorted listing, so KEYS has one possible answer. */
  lemma {:induction false} SortedListingUnique(xs: seq<Bytes>, ys: seq<Bytes>, keys: set<Bytes>)
    requires Sorted(xs) && Sorted(ys) && Lists(xs, keys) && Lists(ys, keys)
    ensures xs == ys
    decreases |xs|
  {
    hide Leq;
    if xs == [] {
      EmptyListing(xs, keys);
      EmptyListing(ys, keys);
    } else {
      assert xs[0] in xs;
      assert xs[0] in ys;
      FirstIsLeast(xs, ys[0]);
      FirstIsLeast(ys, xs[0]);
      LeqAntisymmetric(xs[0], ys[0]);
      RestLists(xs, keys);
      RestLists(ys, keys);
      SortedListingUnique(xs[1..], ys[1..], keys - {xs[0]});
      assert xs == [xs[0]] + xs[1..] && ys == [ys[0]] + ys[1..];
    }
  }

  lemma FirstIsLeast(xs: seq<Bytes>, x: Bytes)
    requires Sorted(xs) && x in xs
    ensures Leq(xs[0], x)
  {
    hide Leq;
    var i :| 0 <= i < |xs| && xs[i] == x;
    if i == 0 {
      LeqReflexive(x);
    }
  }

  lemma RestLists(xs: seq<Bytes>, keys: set<Bytes>)
    requires xs != [] && Sorted(xs) && Lists(xs, keys)
    ensures Sorted(xs[1..]) && Lists(xs[1..], keys - {xs[0]})
  {
    hide Leq;
    var rest := xs[1..];
    assert xs == [xs[0]] + rest;
    assert forall i :: 0 <= i < |rest| ==> rest[i] == xs[i + 1];
  }
}
