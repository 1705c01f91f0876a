/**
 * Stable sorting by an integer key. `Array.prototype.sort` is required to be stable
 * (ECMAScript 2019 and later), so a JavaScript sort with the comparator `(a, b) => key(a) - key(b)`
 * has exactly one possible result; `Sort` computes it by insertion.
 */
module StableSort {
  /** Keys never decrease along `s`. */
  ghost predicate SortedBy<T>(s: seq<T>, key: T -> int) {
    forall i, j | 0 <= i < j < |s| :: key(s[i]) <= key(s[j])
  }

  /** `x` has key `k`. */
  predicate HasKey<T>(x: T, key: T -> int, k: int) {
    key(x) == k
  }

  /** The elements of `s` whose key is `k`, in their order in `s`. */
  function KeyClass<T>(s: seq<T>, key: T -> int, k: int): (r: seq<T>)
    ensures |r| <= |s|
    decreases |s|
  {
    if |s| == 0 then []
    else (if HasKey(s[0], key, k) then [s[0]] else []) + KeyClass(s[1..], key, k)
  }

  /** The key class of a single element. */
  lemma KeyClassSingle<T>(x: T, key: T -> int, k: int)
    ensures KeyClass([x], key, k) == (if HasKey(x, key, k) then [x] else [])
  {
    assert [x][1..] == [];
  }

  /** Key classes distribute over concatenation. */
  lemma {:induction false} KeyClassConcat<T>(a: seq<T>, b: seq<T>, key: T -> int, k: int)
    ensures KeyClass(a + b, key, k) == KeyClass(a, key, k) + KeyClass(b, key, k)
    decreases |a|
  {
    if |a| == 0 {
      assert a + b == b;
    } else {
      var c := if HasKey(a[0], key, k) then [a[0]] else [];
      assert (a + b)[0] == a[0];
      assert (a + b)[1..] == a[1..] + b;
      assert KeyClass(a + b, key, k) == c + KeyClass(a[1..] + b, key, k);
      assert KeyClass(a, key, k) == c + KeyClass(a[1..], key, k);
      KeyClassConcat(a[1..], b, key, k);
      AppendAssoc(c, KeyClass(a[1..], key, k), KeyClass(b, key, k));
    }
  }

  lemma AppendAssoc<T>(a: seq<T>, b: seq<T>, c: seq<T>)
    ensures a + (b + c) == (a + b) + c
  {
  }

  /** An element belongs to the key class of its key. */
  lemma {:induction false} KeyClassMember<T>(s: seq<T>, key: T -> int, x: T)
    ensures x in KeyClass(s, key, key(x)) <==> x in s
    decreases |s|
  {
    if |s| > 0 {
      KeyClassMember(s[1..], key, x);
      assert s == [s[0]] + s[1..];
    }
  }

  /**
   * `r` is a stable sort of `s`: the keys are ascending, and the elements sharing any one key
   * appear in `r` exactly as they appear in `s` (so `r` is also a permutation of `s`).
   */
  ghost predicate IsStableSortOf<T>(r: seq<T>, s: seq<T>, key: T -> int) {
    && SortedBy(r, key)
    && multiset(r) == multiset(s)
    && forall k :: KeyClass(r, key, k) == KeyClass(s, key, k)
  }

  /** `x` placed after every element of the sorted `s` whose key is at most `key(x)`. */
  function Insert<T>(x: T, s: seq<T>, key: T -> int): (r: seq<T>)
    ensures |r| == |s| + 1
    decreases |s|
  {
    if |s| == 0 then [x]
    else if key(x) < key(s[0]) then [x] + s
    else [s[0]] + Insert(x, s[1..], key)
  }

  /** Inserting adds exactly `x`. */
  lemma {:induction false} InsertPermutes<T>(x: T, s: seq<T>, key: T -> int)
    ensures multiset(Insert(x, s, key)) == multiset(s) + multiset{x}
    decreases |s|
  {
    if |s| > 0 && key(s[0]) <= key(x) {
      InsertPermutes(x, s[1..], key);
      assert s == [s[0]] + s[1..];
    }
  }

  /** Inserting into a sorted sequence keeps it sorted. */
  lemma {:induction false} InsertSorted<T>(x: T, s: seq<T>, key: T -> int)
    requires SortedBy(s, key)
    ensures SortedBy(Insert(x, s, key), key)
    ensures Insert(x, s, key)[0] == (if |s| == 0 || key(x) < key(s[0]) then x else s[0])
    decreases |s|
  {
    if |s| > 0 && key(s[0]) <= key(x) {
      InsertSorted(x, s[1..], key);
      var rest := Insert(x, s[1..], key);
      assert Insert(x, s, key) == [s[0]] + rest;
    }
  }

  /** Insertion sort: each element, from first to last, is inserted into the sorted prefix before it. */
  function Sort<T>(s: seq<T>, key: T -> int): (r: seq<T>)
    ensures |r| == |s|
    decreases |s|
  {
    if |s| == 0 then [] else Insert(s[|s| - 1], Sort(s[..|s| - 1], key), key)
  }

  /** `Sort` returns a sorted permutation of its input. */
  lemma {:induction false} SortSortsAndPermutes<T>(s: seq<T>, key: T -> int)
    ensures SortedBy(Sort(s, key), key)
    ensures multiset(Sort(s, key)) == multiset(s)
    decreases |s|
  {
    if |s| > 0 {
      var init := s[..|s| - 1];
      var x := s[|s| - 1];
      var sorted := Sort(init, key);
      assert Sort(s, key) == Insert(x, sorted, key);
      SortSortsAndPermutes(init, key);
      InsertSorted(x, sorted, key);
      InsertPermutes(x, sorted, key);
      assert s == init + [x];
      assert multiset(s) == multiset(init) + multiset{x};
    }
  }

  /** In a sorted sequence no element has a key below the first key. */
  lemma {:induction false} KeyClassBelowFirst<T>(s: seq<T>, key: T -> int, k: int)
    requires SortedBy(s, key)
    requires |s| > 0 && k < key(s[0])
    ensures KeyClass(s, key, k) == []
    decreases |s|
  {
    if |s| > 1 {
      KeyClassBelowFirst(s[1..], key, k);
    }
  }

  /** Inserting `x` appends it to its own key class and leaves every other class alone. */
  lemma {:induction false} InsertKeyClass<T>(x: T, s: seq<T>, key: T -> int, k: int)
    requires SortedBy(s, key)
    ensures KeyClass(Insert(x, s, key), key, k)
         == KeyClass(s, key, k) + (if HasKey(x, key, k) then [x] else [])
    decreases |s|
  {
    if |s| == 0 {
    } else if key(x) < key(s[0]) {
      KeyClassConcat([x], s, key, k);
      if HasKey(x, key, k) {
        KeyClassBelowFirst(s, key, k);
      }
    } else {
      var rest := Insert(x, s[1..], key);
      assert Insert(x, s, key) == [s[0]] + rest;
      InsertKeyClass(x, s[1..], key, k);
      KeyClassConcat([s[0]], rest, key, k);
      KeyClassConcat([s[0]], s[1..], key, k);
      assert [s[0]] + s[1..] == s;
    }
  }

  /** `Sort` is stable: each key class keeps its order. */
  lemma {:induction false} SortKeyClass<T>(s: seq<T>, key: T -> int, k: int)
    ensures KeyClass(Sort(s, key), key, k) == KeyClass(s, key, k)
    decreases |s|
  {
    if |s| > 0 {
      var init := s[..|s| - 1];
      var x := s[|s| - 1];
      var sorted := Sort(init, key);
      assert Sort(s, key) == Insert(x, sorted, key);
      assert init + [x] == s;
      SortKeyClass(init, key, k);
      SortSortsAndPermutes(init, key);
      InsertKeyClass(x, sorted, key, k);
      KeyClassConcat(init, [x], key, k);
      KeyClassSingle(x, key, k);
    }
  }

  /** `Sort(s, key)` is a stable sort of `s`. */
  lemma SortIsStable<T>(s: seq<T>, key: T -> int)
    ensures IsStableSortOf(Sort(s, key), s, key)
  {
    SortSortsAndPermutes(s, key);
    forall k ensures KeyClass(Sort(s, key), key, k) == KeyClass(s, key, k) {
      SortKeyClass(s, key, k);
    }
  }

  /** Inserting an element whose key is at least every key of `s` appends it. */
  lemma {:induction false} InsertLast<T>(x: T, s: seq<T>, key: T -> int)
    requires forall i | 0 <= i < |s| :: key(s[i]) <= key(x)
    ensures Insert(x, s, key) == s + [x]
    decreases |s|
  {
    if |s| > 0 {
      InsertLast(x, s[1..], key);
      assert [s[0]] + (s[1..] + [x]) == s + [x];
    }
  }

  /** Sorting an already sorted sequence changes nothing. */
  lemma {:induction false} SortSorted<T>(s: seq<T>, key: T -> int)
    requires SortedBy(s, key)
    ensures Sort(s, key) == s
    decreases |s|
  {
    if |s| > 0 {
      var init := s[..|s| - 1];
      SortSorted(init, key);
      InsertLast(s[|s| - 1], init, key);
      assert init + [s[|s| - 1]] == s;
    }
  }

  /** Appending to a sorted sequence and sorting is the same as inserting. */
  lemma SortAppendSorted<T>(s: seq<T>, x: T, key: T -> int)
    requires SortedBy(s, key)
    ensures Sort(s + [x], key) == Insert(x, s, key)
  {
    assert (s + [x])[..|s|] == s;
    SortSorted(s, key);
  }

  /** The first element of a non-empty sorted sequence has the least key. */
  lemma FirstOfKeyClass<T>(s: seq<T>, key: T -> int)
    requires SortedBy(s, key) && |s| > 0
    ensures KeyClass(s, key, key(s[0])) == [s[0]] + KeyClass(s[1..], key, key(s[0]))
  {
    KeyClassConcat([s[0]], s[1..], key, key(s[0]));
    assert [s[0]] + s[1..] == s;
  }

  /** Two sorted sequences with the same key classes start with the same element. */
  lemma SameHead<T>(r: seq<T>, q: seq<T>, key: T -> int)
    requires SortedBy(r, key) && SortedBy(q, key) && |r| > 0
    requires forall k :: KeyClass(r, key, k) == KeyClass(q, key, k)
    ensures |q| > 0 && q[0] == r[0]
  {
    KeyClassMember(r, key, r[0]);
    KeyClassMember(q, key, r[0]);
    assert r[0] in q;
    var i :| 0 <= i < |q| && q[i] == r[0];
    assert key(q[0]) <= key(r[0]);
    KeyClassMember(q, key, q[0]);
    KeyClassMember(r, key, q[0]);
    assert q[0] in KeyClass(r, key, key(q[0]));
    var j :| 0 <= j < |r| && r[j] == q[0];
    assert key(r[0]) <= key(q[0]);
    var k0 := key(r[0]);
    FirstOfKeyClass(r, key);
    FirstOfKeyClass(q, key);
    assert KeyClass(r, key, k0)[0] == r[0];
    assert KeyClass(q, key, k0)[0] == q[0];
  }

  /** Removing a common first element keeps the key classes equal. */
  lemma SameTailClasses<T>(r: seq<T>, q: seq<T>, key: T -> int)
    requires |r| > 0 && |q| > 0 && r[0] == q[0]
    requires forall k :: KeyClass(r, key, k) == KeyClass(q, key, k)
    ensures forall k :: KeyClass(r[1..], key, k) == KeyClass(q[1..], key, k)
  {
    forall k ensures KeyClass(r[1..], key, k) == KeyClass(q[1..], key, k) {
      KeyClassConcat([r[0]], r[1..], key, k);
      KeyClassConcat([q[0]], q[1..], key, k);
      assert [r[0]] + r[1..] == r;
      assert [q[0]] + q[1..] == q;
      var c := KeyClass([r[0]], key, k);
      assert c + KeyClass(r[1..], key, k) == c + KeyClass(q[1..], key, k);
      assert KeyClass(r[1..], key, k) == (c + KeyClass(r[1..], key, k))[|c|..];
    }
  }

  /**
   * A stable sort is unique: two sorted sequences with the same key classes are equal.
   * Hence any stable sort of `s` (such as the one `Array.prototype.sort` performs) is `Sort(s, key)`.
   */
  lemma {:induction false} StableSortUnique<T>(r: seq<T>, q: seq<T>, key: T -> int)
    requires SortedBy(r, key) && SortedBy(q, key)
    requires forall k :: KeyClass(r, key, k) == KeyClass(q, key, k)
    ensures r == q
    decreases |r|
  {
    if |r| == 0 {
      if |q| > 0 {
        SameHead(q, r, key);
      }
    } else {
      SameHead(r, q, key);
      SameTailClasses(r, q, key);
      StableSortUnique(r[1..], q[1..], key);
      assert r == [r[0]] + r[1..];
      assert q == [q[0]] + q[1..];
    }
  }
}
