/** Sorting and ordering, as Python's `sorted`, `min` and string comparison use them. */
module Orders {

  /** A reflexive, transitive, total comparison: what a sort key induces. */
  ghost predicate TotalPreorder<T(!new)>(leq: (T, T) -> bool) {
    && (forall x, y :: leq(x, y) || leq(y, x))
    && (forall x, y, z :: leq(x, y) && leq(y, z) ==> leq(x, z))
  }

  /** A preorder under which only equal values tie. */
  ghost predicate TotalOrder<T(!new)>(leq: (T, T) -> bool) {
    && TotalPreorder(leq)
    && (forall x, y :: leq(x, y) && leq(y, x) ==> x == y)
  }

  ghost predicate Sorted<T>(s: seq<T>, leq: (T, T) -> bool) {
    forall i, j :: 0 <= i < j < |s| ==> leq(s[i], s[j])
  }

  ghost predicate Distinct<T>(s: seq<T>) {
    forall i, j :: 0 <= i < j < |s| ==> s[i] != s[j]
  }

  function Elements<T(==)>(s: seq<T>): set<T> {
    set x | x in s
  }

  /** Puts `x` before the first element that is not smaller, so that equal keys keep their order. */
  function Insert<T>(x: T, s: seq<T>, leq: (T, T) -> bool): (r: seq<T>) {
    if s == [] then [x]
    else if leq(x, s[0]) then [x] + s
    else [s[0]] + Insert(x, s[1..], leq)
  }

  /** The stable sort. */
  function Sort<T>(s: seq<T>, leq: (T, T) -> bool): (r: seq<T>) {
    if s == [] then [] else Insert(s[0], Sort(s[1..], leq), leq)
  }

  /** `min` with a key: the first of the least elements. */
  function FirstLeast<T(!new)>(s: seq<T>, leq: (T, T) -> bool): (m: T)
    requires s != [] && TotalPreorder(leq)
    ensures m in s && forall x :: x in s ==> leq(m, x)
  {
    if |s| == 1 then s[0]
    else
      var before, last := FirstLeast(s[..|s| - 1], leq), s[|s| - 1];
      assert s == s[..|s| - 1] + [last];
      if leq(before, last) then before else last
  }

  lemma {:induction false} InsertKeepsContents<T>(x: T, s: seq<T>, leq: (T, T) -> bool)
    ensures multiset(Insert(x, s, leq)) == multiset{x} + multiset(s)
    ensures |Insert(x, s, leq)| == |s| + 1
  {
    if s != [] && !leq(x, s[0]) {
      InsertKeepsContents(x, s[1..], leq);
      assert s == [s[0]] + s[1..];
    }
  }

  lemma {:induction false} InsertSorted<T(!new)>(x: T, s: seq<T>, leq: (T, T) -> bool)
    requires TotalPreorder(leq) && Sorted(s, leq)
    ensures Sorted(Insert(x, s, leq), leq)
  {
    var r := Insert(x, s, leq);
    if s != [] && !leq(x, s[0]) {
      var t := Insert(x, s[1..], leq);
      InsertSorted(x, s[1..], leq);
      InsertKeepsContents(x, s[1..], leq);
      forall j | 0 <= j < |t| ensures leq(s[0], t[j]) {
        assert t[j] in multiset(t);
        assert t[j] == x || t[j] in s[1..];
      }
    } else if s != [] {
      forall j | 0 <= j < |s| ensures leq(x, s[j]) {
        assert leq(s[0], s[j]);
      }
    }
  }

  /** Sorting permutes its input and puts it in order. */
  lemma {:induction false} SortCorrect<T(!new)>(s: seq<T>, leq: (T, T) -> bool)
    requires TotalPreorder(leq)
    ensures Sorted(Sort(s, leq), leq)
    ensures multiset(Sort(s, leq)) == multiset(s)
    ensures |Sort(s, leq)| == |s|
  {
    if s != [] {
      SortCorrect(s[1..], leq);
      InsertSorted(s[0], Sort(s[1..], leq), leq);
      InsertKeepsContents(s[0], Sort(s[1..], leq), leq);
      assert s == [s[0]] + s[1..];
    }
  }

  lemma {:induction false} MultisetElement<T>(a: seq<T>, b: seq<T>, x: T)
    requires multiset(a) == multiset(b)
    ensures x in a <==> x in b
  {
    assert x in a <==> x in multiset(a);
    assert x in b <==> x in multiset(b);
  }

  lemma {:induction false} NoElements<T>(a: seq<T>)
    ensures Elements(a) == {} <==> a == []
  {
    if a != [] {
      assert a[0] in Elements(a);
    }
  }

  lemma {:induction false} ElementsConcat<T>(a: seq<T>, b: seq<T>)
    ensures Elements(a + b) == Elements(a) + Elements(b)
  {
  }

  /** Finds `a[0]` in a rearrangement of `a`. */
  lemma {:induction false} Extract<T>(a: seq<T>, b: seq<T>) returns (front: seq<T>, back: seq<T>)
    requires a != [] && multiset(a) == multiset(b)
    ensures b == front + [a[0]] + back
    ensures multiset(a[1..]) == multiset(front + back)
  {
    MultisetElement(a, b, a[0]);
    var i :| 0 <= i < |b| && b[i] == a[0];
    front, back := b[..i], b[i + 1..];
    assert b == front + [a[0]] + back;
    assert a == [a[0]] + a[1..];
    MultisetPull(front, [a[0]], back);
    var one := multiset([a[0]]);
    assert multiset(a) == one + multiset(a[1..]);
    assert multiset(a[1..]) == multiset(a) - one == multiset(b) - one == multiset(front + back);
  }

  lemma {:induction false} MultisetPull<T>(a: seq<T>, b: seq<T>, c: seq<T>)
    ensures multiset(a + b + c) == multiset(b) + multiset(a + c)
  {
    assert multiset(a + c) == multiset(a) + multiset(c);
    assert multiset(a + b + c) == multiset(a) + multiset(b) + multiset(c);
  }

  /** Ties under `leq` are equalities, among the elements of `s`. */
  ghost predicate TiesAreEqual<T>(s: seq<T>, leq: (T, T) -> bool) {
    forall x, y :: x in s && y in s && leq(x, y) && leq(y, x) ==> x == y
  }

  lemma {:induction false} SameFirst<T(!new)>(a: seq<T>, b: seq<T>, leq: (T, T) -> bool)
    requires TotalPreorder(leq) && TiesAreEqual(a, leq)
    requires Sorted(a, leq) && Sorted(b, leq) && multiset(a) == multiset(b) && a != [] && b != []
    ensures a[0] == b[0]
  {
    MultisetElement(a, b, a[0]);
    MultisetElement(a, b, b[0]);
    var i :| 0 <= i < |a| && a[i] == b[0];
    var j :| 0 <= j < |b| && b[j] == a[0];
    assert leq(a[0], b[0]) && leq(b[0], a[0]);
  }

  lemma {:induction false} SameTail<T>(a: seq<T>, b: seq<T>)
    requires a != [] && b != [] && a[0] == b[0] && multiset(a) == multiset(b)
    ensures multiset(a[1..]) == multiset(b[1..])
  {
    assert a == [a[0]] + a[1..] && b == [b[0]] + b[1..];
    assert multiset(a[1..]) == multiset(a) - multiset{a[0]};
    assert multiset(b[1..]) == multiset(b) - multiset{b[0]};
  }

  lemma {:induction false} TailKeeps<T>(a: seq<T>, leq: (T, T) -> bool)
    requires a != []
    ensures Sorted(a, leq) ==> Sorted(a[1..], leq)
    ensures TiesAreEqual(a, leq) ==> TiesAreEqual(a[1..], leq)
  {
  }

  /** When only equal elements tie there is one sorted arrangement of a collection. */
  lemma {:induction false} SortedUnique<T(!new)>(a: seq<T>, b: seq<T>, leq: (T, T) -> bool)
    requires TotalPreorder(leq) && TiesAreEqual(a, leq)
    requires Sorted(a, leq) && Sorted(b, leq)
    requires multiset(a) == multiset(b)
    ensures a == b
  {
    assert |a| == |multiset(a)| == |multiset(b)| == |b|;
    if a != [] {
      SameFirst(a, b, leq);
      SameTail(a, b);
      TailKeeps(a, leq);
      TailKeeps(b, leq);
      SortedUnique(a[1..], b[1..], leq);
      assert a == [a[0]] + a[1..] && b == [b[0]] + b[1..];
    }
  }

  /** Sorting forgets the order its input arrived in. */
  lemma {:induction false} SortForgetsOrder<T(!new)>(a: seq<T>, b: seq<T>, leq: (T, T) -> bool)
    requires TotalPreorder(leq) && TiesAreEqual(a, leq)
    requires multiset(a) == multiset(b)
    ensures Sort(a, leq) == Sort(b, leq)
  {
    SortCorrect(a, leq);
    SortCorrect(b, leq);
    forall x ensures x in Sort(a, leq) <==> x in a { MultisetElement(Sort(a, leq), a, x); }
    SortedUnique(Sort(a, leq), Sort(b, leq), leq);
  }

  lemma {:induction false} DistinctMultiset<T>(a: seq<T>, b: seq<T>)
    requires Distinct(a) && Distinct(b) && Elements(a) == Elements(b)
    ensures multiset(a) == multiset(b)
  {
    forall x ensures multiset(a)[x] == multiset(b)[x] {
      DistinctCount(a, x);
      DistinctCount(b, x);
      assert x in a <==> x in Elements(a);
      assert x in b <==> x in Elements(b);
    }
  }

  lemma {:induction false} DistinctCount<T>(a: seq<T>, x: T)
    requires Distinct(a)
    ensures multiset(a)[x] == if x in a then 1 else 0
  {
    if a != [] {
      assert a == [a[0]] + a[1..];
      DistinctCount(a[1..], x);
      if x == a[0] {
        assert x !in a[1..];
      }
    }
  }

  lemma {:induction false} DistinctLength<T>(a: seq<T>)
    requires Distinct(a)
    ensures |a| == |Elements(a)|
  {
    if a != [] {
      DistinctLength(a[1..]);
      assert a[0] !in a[1..];
      assert Elements(a) == Elements(a[1..]) + {a[0]};
    }
  }

  /** Two sorted listings of one set are the same listing. */
  lemma {:induction false} SortedSetUnique<T(!new)>(a: seq<T>, b: seq<T>, leq: (T, T) -> bool)
    requires TotalOrder(leq) && Sorted(a, leq) && Sorted(b, leq)
    requires Distinct(a) && Distinct(b) && Elements(a) == Elements(b)
    ensures a == b
  {
    DistinctMultiset(a, b);
    SortedUnique(a, b, leq);
  }

  /** The elements of a set in an order nobody chose: what iterating over a Python set yields. */
  method Listing<T(==)>(s: set<T>) returns (r: seq<T>)
    ensures Elements(r) == s && Distinct(r) && |r| == |s|
  {
    r := [];
    var rest := s;
    while rest != {}
      invariant Distinct(r) && Elements(r) !! rest && Elements(r) + rest == s
      decreases rest
    {
      var x :| x in rest;
      assert x !in Elements(r);
      assert Elements(r + [x]) == Elements(r) + {x};
      r := r + [x];
      rest := rest - {x};
    }
    DistinctLength(r);
  }

  /** `sorted(s)` for a set `s`. */
  method SortedSet<T(!new,==)>(s: set<T>, leq: (T, T) -> bool) returns (r: seq<T>)
    requires TotalPreorder(leq)
    ensures Sorted(r, leq) && Distinct(r) && Elements(r) == s && |r| == |s|
  {
    var listing := Listing(s);
    r := Sort(listing, leq);
    SortCorrect(listing, leq);
    ghost var sorted := r;
    assert Elements(sorted) == s by {
      forall x ensures x in Elements(sorted) <==> x in s {
        MultisetElement(sorted, listing, x);
        assert x in Elements(listing) <==> x in s;
      }
    }
    DistinctPermutation(listing, r);
  }

  lemma {:induction false} DistinctPermutation<T>(a: seq<T>, b: seq<T>)
    requires Distinct(a) && multiset(a) == multiset(b)
    ensures Distinct(b)
  {
    forall i, j | 0 <= i < j < |b| ensures b[i] != b[j] {
      if b[i] == b[j] {
        assert b == b[..i] + [b[i]] + b[i + 1..j] + [b[j]] + b[j + 1..];
        assert multiset(b)[b[i]] >= 2;
        DistinctCount(a, b[i]);
        assert false;
      }
    }
  }

  /** Python's order on strings: by code point, a proper prefix first. */
  predicate StringLeq(a: string, b: string) {
    a == [] || (b != [] && (a[0] < b[0] || (a[0] == b[0] && StringLeq(a[1..], b[1..]))))
  }

  lemma {:induction false} StringLeqTotal(a: string, b: string)
    ensures StringLeq(a, b) || StringLeq(b, a)
  {
    if a != [] && b != [] {
      StringLeqTotal(a[1..], b[1..]);
    }
  }

  lemma {:induction false} StringLeqAntisymmetric(a: string, b: string)
    requires StringLeq(a, b) && StringLeq(b, a)
    ensures a == b
  {
    if a != [] && b != [] {
      StringLeqAntisymmetric(a[1..], b[1..]);
      assert a == [a[0]] + a[1..] && b == [b[0]] + b[1..];
    }
  }

  lemma {:induction false} StringLeqTransitive(a: string, b: string, c: string)
    requires StringLeq(a, b) && StringLeq(b, c)
    ensures StringLeq(a, c)
  {
    if a != [] && b != [] && c != [] && a[0] == b[0] == c[0] {
      StringLeqTransitive(a[1..], b[1..], c[1..]);
    }
  }

  lemma {:induction false} StringOrder()
    ensures TotalOrder(StringLeq)
  {
    forall a, b ensures StringLeq(a, b) || StringLeq(b, a) { StringLeqTotal(a, b); }
    forall a, b | StringLeq(a, b) && StringLeq(b, a) ensures a == b { StringLeqAntisymmetric(a, b); }
    forall a, b, c | StringLeq(a, b) && StringLeq(b, c) ensures StringLeq(a, c) { StringLeqTransitive(a, b, c); }
  }
}
