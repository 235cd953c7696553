/** Stable sorting by a textual key, and what the sorted sequence remembers of the original. */
module StableSort {
  import opened Strings

  // ---- sorting ----

  /** Puts x before the first element whose key is not smaller. */
  function Insert<T>(x: T, s: seq<T>, key: T -> string): seq<T> {
    if s == [] || Leq(key(x), key(s[0])) then [x] + s else [s[0]] + Insert(x, s[1..], key)
  }

  function SortBy<T>(s: seq<T>, key: T -> string): seq<T> {
    if s == [] then [] else Insert(s[0], SortBy(s[1..], key), key)
  }

  /** Each element's key is at most every later one's. */
  predicate SortedBy<T>(s: seq<T>, key: T -> string) {
    s == [] || ((forall i :: 0 < i < |s| ==> Leq(key(s[0]), key(s[i]))) && SortedBy(s[1..], key))
  }

  /** The elements with key k, in their order. */
  function Keyed<T>(s: seq<T>, key: T -> string, k: string): seq<T> {
    if s == [] then [] else (if key(s[0]) == k then [s[0]] else []) + Keyed(s[1..], key, k)
  }

  /** Two sequences that hold the same elements in the same order under every key. */
  ghost predicate SameByKey<T(!new)>(a: seq<T>, b: seq<T>, key: T -> string) {
    forall k :: Keyed(a, key, k) == Keyed(b, key, k)
  }

  lemma {:induction false} InsertMembers<T>(x: T, s: seq<T>, key: T -> string)
    ensures multiset(Insert(x, s, key)) == multiset{x} + multiset(s)
  {
    if s != [] && !Leq(key(x), key(s[0])) {
      InsertMembers(x, s[1..], key);
      assert s == [s[0]] + s[1..];
    }
  }

  lemma {:induction false} InsertSorted<T>(x: T, s: seq<T>, key: T -> string)
    requires SortedBy(s, key)
    ensures SortedBy(Insert(x, s, key), key)
  {
    if s == [] {
    } else if Leq(key(x), key(s[0])) {
      forall i | 0 < i < |s| ensures Leq(key(x), key(s[i])) {
        LeqTransitive(key(x), key(s[0]), key(s[i]));
      }
      assert ([x] + s)[1..] == s;
    } else {
      LeqTotal(key(x), key(s[0]));
      InsertSorted(x, s[1..], key);
      InsertMembers(x, s[1..], key);
      var rest := Insert(x, s[1..], key);
      forall i | 0 <= i < |rest| ensures Leq(key(s[0]), key(rest[i])) {
        assert rest[i] in multiset(rest);
        assert rest[i] == x || rest[i] in s[1..];
      }
      assert ([s[0]] + rest)[1..] == rest;
    }
  }

  lemma {:induction false} SortIsSorted<T>(s: seq<T>, key: T -> string)
    ensures SortedBy(SortBy(s, key), key)
  {
    if s != [] {
      SortIsSorted(s[1..], key);
      InsertSorted(s[0], SortBy(s[1..], key), key);
    }
  }

  /** Keys never fall from an earlier element to a later one. */
  lemma {:induction false} SortAscends<T>(s: seq<T>, key: T -> string, i: nat, j: nat)
    requires i < j < |SortBy(s, key)|
    ensures Leq(key(SortBy(s, key)[i]), key(SortBy(s, key)[j]))
  {
    SortIsSorted(s, key);
    SortedAt(SortBy(s, key), key, i, j);
  }

  lemma {:induction false} SortedAt<T>(s: seq<T>, key: T -> string, i: nat, j: nat)
    requires SortedBy(s, key) && i < j < |s|
    ensures Leq(key(s[i]), key(s[j]))
  {
    if i > 0 {
      assert s[1..][i - 1] == s[i] && s[1..][j - 1] == s[j];
      SortedAt(s[1..], key, i - 1, j - 1);
    }
  }

  lemma {:induction false} KeyedCons<T>(x: T, s: seq<T>, key: T -> string, k: string)
    ensures Keyed([x] + s, key, k) == (if key(x) == k then [x] else []) + Keyed(s, key, k)
  {
    assert ([x] + s)[1..] == s;
  }

  lemma {:induction false} InsertKeyed<T>(x: T, s: seq<T>, key: T -> string, k: string)
    ensures Keyed(Insert(x, s, key), key, k) == (if key(x) == k then [x] else []) + Keyed(s, key, k)
  {
    if s == [] || Leq(key(x), key(s[0])) {
      KeyedCons(x, s, key, k);
    } else {
      InsertKeyed(x, s[1..], key, k);
      KeyedCons(s[0], Insert(x, s[1..], key), key, k);
      LeqTotal(key(x), key(s[0]));
    }
  }

  /** Sorting is stable. */
  lemma {:induction false} SortStable<T>(s: seq<T>, key: T -> string, k: string)
    ensures Keyed(SortBy(s, key), key, k) == Keyed(s, key, k)
  {
    if s != [] {
      SortStable(s[1..], key, k);
      InsertKeyed(s[0], SortBy(s[1..], key), key, k);
    }
  }

  lemma {:induction false} KeyedMembers<T>(s: seq<T>, key: T -> string, k: string)
    ensures forall x :: multiset(Keyed(s, key, k))[x] == if key(x) == k then multiset(s)[x] else 0
  {
    if s != [] {
      KeyedMembers(s[1..], key, k);
      assert s == [s[0]] + s[1..];
    }
  }

  lemma {:induction false} SmallestComesFirst<T(!new)>(a: seq<T>, b: seq<T>, key: T -> string)
    requires SortedBy(b, key) && a != [] && SameByKey(a, b, key)
    ensures b != [] && Leq(key(b[0]), key(a[0]))
  {
    var k := key(a[0]);
    assert Keyed(b, key, k) == Keyed(a, key, k);
    assert Keyed(a, key, k)[0] == a[0];
    KeyedMembers(b, key, k);
    assert a[0] in multiset(Keyed(b, key, k));
    assert a[0] in b;
    LeqTotal(k, k);
  }

  /** Sorted sequences that agree under every key are the same sequence. */
  lemma {:induction false} SortedUnique<T(!new)>(a: seq<T>, b: seq<T>, key: T -> string)
    requires SortedBy(a, key) && SortedBy(b, key) && SameByKey(a, b, key)
    ensures a == b
  {
    if a == [] && b == [] {
    } else if a == [] {
      SmallestComesFirst(b, a, key);
    } else {
      SmallestComesFirst(a, b, key);
      SmallestComesFirst(b, a, key);
      LeqAntisymmetric(key(a[0]), key(b[0]));
      assert a[0] == b[0] by {
        var k := key(a[0]);
        assert Keyed(a, key, k) == Keyed(b, key, k);
        assert Keyed(a, key, k)[0] == a[0] && Keyed(b, key, k)[0] == b[0];
      }
      forall k ensures Keyed(a[1..], key, k) == Keyed(b[1..], key, k) {
        assert Keyed(a, key, k) == Keyed(b, key, k);
        var head := if key(a[0]) == k then [a[0]] else [];
        assert (head + Keyed(a[1..], key, k))[|head|..] == Keyed(a[1..], key, k);
        assert (head + Keyed(b[1..], key, k))[|head|..] == Keyed(b[1..], key, k);
      }
      SortedUnique(a[1..], b[1..], key);
      assert a == [a[0]] + a[1..] && b == [b[0]] + b[1..];
    }
  }

  /** Sorting identifies exactly the sequences that agree under every key. */
  lemma {:induction false} SortIdentifies<T(!new)>(a: seq<T>, b: seq<T>, key: T -> string)
    ensures SortBy(a, key) == SortBy(b, key) <==> SameByKey(a, b, key)
  {
    forall k ensures Keyed(SortBy(a, key), key, k) == Keyed(a, key, k)
                  && Keyed(SortBy(b, key), key, k) == Keyed(b, key, k) {
      SortStable(a, key, k);
      SortStable(b, key, k);
    }
    SortIsSorted(a, key);
    SortIsSorted(b, key);
    if SameByKey(a, b, key) {
      SortedUnique(SortBy(a, key), SortBy(b, key), key);
    }
  }

  // ---- when the order of equal keys cannot matter ----

  /** Elements of s with equal keys are equal. */
  ghost predicate KeysDetermine<T>(s: seq<T>, key: T -> string) {
    forall i, j :: 0 <= i < |s| && 0 <= j < |s| && key(s[i]) == key(s[j]) ==> s[i] == s[j]
  }

  lemma {:induction false} SameByKeyMembers<T(!new)>(a: seq<T>, b: seq<T>, key: T -> string)
    requires SameByKey(a, b, key)
    ensures multiset(a) == multiset(b)
  {
    forall x ensures multiset(a)[x] == multiset(b)[x] {
      KeyedMembers(a, key, key(x));
      KeyedMembers(b, key, key(x));
      assert Keyed(a, key, key(x)) == Keyed(b, key, key(x));
    }
  }

  lemma {:induction false} CopiesEqual<T>(a: seq<T>, b: seq<T>, x: T)
    requires forall y :: y in a ==> y == x
    requires multiset(a) == multiset(b)
    ensures a == b
  {
    assert |a| == |multiset(a)| == |multiset(b)| == |b|;
    forall i | 0 <= i < |a| ensures a[i] == b[i] {
      assert b[i] in multiset(b);
      assert a[i] in a && b[i] in a;
    }
  }

  lemma {:induction false} MembersSameByKey<T(!new)>(a: seq<T>, b: seq<T>, key: T -> string)
    requires KeysDetermine(a, key) && multiset(a) == multiset(b)
    ensures SameByKey(a, b, key)
  {
    forall k ensures Keyed(a, key, k) == Keyed(b, key, k) {
      KeyedMembers(a, key, k);
      KeyedMembers(b, key, k);
      var ak, bk := Keyed(a, key, k), Keyed(b, key, k);
      assert multiset(ak) == multiset(bk);
      if ak == [] {
        assert |bk| == |multiset(bk)| == 0;
      } else {
        forall y | y in ak ensures y == ak[0] {
          assert y in multiset(ak) && ak[0] in multiset(ak);
          assert y in a && ak[0] in a && key(y) == key(ak[0]);
        }
        CopiesEqual(ak, bk, ak[0]);
      }
    }
  }

  /** When keys determine elements, sorting identifies exactly the permutations. */
  lemma {:induction false} SortIdentifiesPermutations<T(!new)>(a: seq<T>, b: seq<T>, key: T -> string)
    requires forall x, y :: key(x) == key(y) ==> x == y
    ensures SortBy(a, key) == SortBy(b, key) <==> multiset(a) == multiset(b)
  {
    SortIdentifies(a, b, key);
    if SameByKey(a, b, key) {
      SameByKeyMembers(a, b, key);
    }
    if multiset(a) == multiset(b) {
      MembersSameByKey(a, b, key);
    }
  }
}
