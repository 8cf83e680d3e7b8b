/** Python's `list.sort(key=...)`: a stable sort on a key that is a number or `float('inf')`. */
module Ordering {

  /** A sort key: a finite number, or positive infinity (the default for a missing field). */
  datatype Key = Finite(v: real) | Infinite

  predicate KeyLe(a: Key, b: Key) {
    b.Infinite? || (a.Finite? && a.v <= b.v)
  }

  predicate KeyLt(a: Key, b: Key) {
    !KeyLe(b, a)
  }

  predicate Sorted<T>(s: seq<T>, key: T -> Key) {
    forall i, j :: 0 <= i < j < |s| ==> KeyLe(key(s[i]), key(s[j]))
  }

  /** The elements of `s` whose key is `k`, in their order in `s`. Stability means the sort keeps
      every such class unchanged. */
  function KeyClass<T>(s: seq<T>, key: T -> Key, k: Key): (r: seq<T>)
    ensures |r| <= |s|
  {
    if s == [] then []
    else (if key(s[0]) == k then [s[0]] else []) + KeyClass(s[1..], key, k)
  }

  lemma {:induction false} KeyClassConcat<T>(a: seq<T>, b: seq<T>, key: T -> Key, k: Key)
    ensures KeyClass(a + b, key, k) == KeyClass(a, key, k) + KeyClass(b, key, k)
    decreases |a|
  {
    if a == [] {
      assert a + b == b;
    } else {
      var head := if key(a[0]) == k then [a[0]] else [];
      assert (a + b)[0] == a[0] && (a + b)[1..] == a[1..] + b;
      KeyClassConcat(a[1..], b, key, k);
      assert KeyClass(a + b, key, k) == head + KeyClass(a[1..] + b, key, k);
      assert KeyClass(a, key, k) == head + KeyClass(a[1..], key, k);
    }
  }

  /** A class that has no member of key `k` contributes nothing. */
  lemma {:induction false} KeyClassAbsent<T>(s: seq<T>, key: T -> Key, k: Key)
    requires forall i :: 0 <= i < |s| ==> key(s[i]) != k
    ensures KeyClass(s, key, k) == []
    decreases |s|
  {
    if s != [] {
      KeyClassAbsent(s[1..], key, k);
    }
  }

  /** Put `x` into the sorted `s` after every element whose key is not larger. */
  function Insert<T>(s: seq<T>, x: T, key: T -> Key): (r: seq<T>)
    ensures |r| == |s| + 1
  {
    if s == [] then [x]
    else if KeyLt(key(x), key(s[0])) then [x] + s
    else [s[0]] + Insert(s[1..], x, key)
  }

  lemma SortedTail<T>(s: seq<T>, key: T -> Key)
    requires s != [] && Sorted(s, key)
    ensures Sorted(s[1..], key)
    ensures forall i :: 0 <= i < |s| ==> KeyLe(key(s[0]), key(s[i]))
  {
    forall i, j | 0 <= i < j < |s| - 1 ensures KeyLe(key(s[1..][i]), key(s[1..][j])) {
      assert s[1..][i] == s[i + 1] && s[1..][j] == s[j + 1];
    }
  }

  /** The first element of a sorted sequence has the least key. */
  lemma SortedFirst<T>(s: seq<T>, key: T -> Key)
    requires s != [] && Sorted(s, key)
    ensures forall y :: y in s ==> KeyLe(key(s[0]), key(y))
  {
    forall y | y in s ensures KeyLe(key(s[0]), key(y)) {
      var i :| 0 <= i < |s| && s[i] == y;
    }
  }

  lemma KeyLeTrans(a: Key, b: Key, c: Key)
    requires KeyLe(a, b) && KeyLe(b, c)
    ensures KeyLe(a, c)
  {
  }

  /** Inserting adds exactly one occurrence of `x`. */
  lemma {:induction false} InsertMultiset<T>(s: seq<T>, x: T, key: T -> Key)
    ensures multiset(Insert(s, x, key)) == multiset(s) + multiset{x}
    ensures forall y :: y in Insert(s, x, key) <==> y == x || y in s
    decreases |s|
  {
    if s != [] && !KeyLt(key(x), key(s[0])) {
      InsertMultiset(s[1..], x, key);
      assert s == [s[0]] + s[1..];
    }
  }

  /** Inserting keeps the sequence sorted. */
  lemma {:induction false} InsertSorted<T>(s: seq<T>, x: T, key: T -> Key)
    requires Sorted(s, key)
    ensures Sorted(Insert(s, x, key), key)
    decreases |s|
  {
    if s == [] {
    } else if KeyLt(key(x), key(s[0])) {
      var r := [x] + s;
      SortedTail(s, key);
      forall i, j | 0 <= i < j < |r| ensures KeyLe(key(r[i]), key(r[j])) {
        if i == 0 {
          KeyLeTrans(key(x), key(s[0]), key(r[j]));
        } else {
          assert r[i] == s[i - 1] && r[j] == s[j - 1];
        }
      }
    } else {
      var tail := s[1..];
      var rest := Insert(tail, x, key);
      SortedTail(s, key);
      InsertSorted(tail, x, key);
      SortedFirst(s, key);
      var r := [s[0]] + rest;
      forall j | 0 < j < |r| ensures KeyLe(key(s[0]), key(r[j])) {
        assert r[j] == rest[j - 1];
        InsertMember(tail, x, key, r[j]);
        if r[j] != x {
          assert r[j] in s;
        }
      }
      forall i, j | 0 <= i < j < |r| ensures KeyLe(key(r[i]), key(r[j])) {
        if i > 0 {
          assert r[i] == rest[i - 1] && r[j] == rest[j - 1];
        }
      }
    }
  }

  lemma InsertMember<T>(s: seq<T>, x: T, key: T -> Key, z: T)
    requires z in Insert(s, x, key)
    ensures z == x || z in s
  {
    InsertMultiset(s, x, key);
  }

  /** Inserting `x` appends it to its own key class and leaves every other class alone. */
  lemma {:induction false} InsertKeyClass<T>(s: seq<T>, x: T, key: T -> Key, k: Key)
    requires Sorted(s, key)
    ensures KeyClass(Insert(s, x, key), key, k) == KeyClass(s, key, k) + (if key(x) == k then [x] else [])
    decreases |s|
  {
    var tail := if key(x) == k then [x] else [];
    if s == [] {
      assert [x][1..] == [];
      assert KeyClass([x], key, k) == tail + KeyClass([], key, k);
    } else if KeyLt(key(x), key(s[0])) {
      InsertKeyClassFront(s, x, key, k);
    } else {
      SortedTail(s, key);
      InsertKeyClass(s[1..], x, key, k);
      InsertKeyClassBehind(s, x, key, k);
    }
  }

  /** `x` goes behind the head: the head's class contribution comes first on both sides. */
  lemma InsertKeyClassBehind<T>(s: seq<T>, x: T, key: T -> Key, k: Key)
    requires s != [] && !KeyLt(key(x), key(s[0]))
    requires KeyClass(Insert(s[1..], x, key), key, k) == KeyClass(s[1..], key, k) + (if key(x) == k then [x] else [])
    ensures KeyClass(Insert(s, x, key), key, k) == KeyClass(s, key, k) + (if key(x) == k then [x] else [])
  {
    var rest := Insert(s[1..], x, key);
    var head := if key(s[0]) == k then [s[0]] else [];
    assert Insert(s, x, key) == [s[0]] + rest;
    assert ([s[0]] + rest)[0] == s[0] && ([s[0]] + rest)[1..] == rest;
    assert KeyClass([s[0]] + rest, key, k) == head + KeyClass(rest, key, k);
    assert KeyClass(s, key, k) == head + KeyClass(s[1..], key, k);
  }

  /** `x` goes in front of every element: when it shares the class `k`, that class was empty. */
  lemma InsertKeyClassFront<T>(s: seq<T>, x: T, key: T -> Key, k: Key)
    requires Sorted(s, key) && s != [] && KeyLt(key(x), key(s[0]))
    ensures KeyClass([x] + s, key, k) == KeyClass(s, key, k) + (if key(x) == k then [x] else [])
  {
    var tail := if key(x) == k then [x] else [];
    assert ([x] + s)[0] == x && ([x] + s)[1..] == s;
    assert KeyClass([x] + s, key, k) == tail + KeyClass(s, key, k);
    if key(x) == k {
      SortedTail(s, key);
      forall i | 0 <= i < |s| ensures key(s[i]) != k {
        assert KeyLe(key(s[0]), key(s[i]));
      }
      KeyClassAbsent(s, key, k);
    }
  }

  /** `list.sort(key=key)`: insertion sort, one element at a time from the left. */
  function SortBy<T>(s: seq<T>, key: T -> Key): (r: seq<T>)
    ensures |r| == |s|
    ensures Sorted(r, key)
    ensures multiset(r) == multiset(s)
  {
    if s == [] then []
    else
      var init := s[..|s| - 1];
      var last := s[|s| - 1];
      var sorted := SortBy(init, key);
      InsertSorted(sorted, last, key);
      InsertMultiset(sorted, last, key);
      assert s == init + [last];
      Insert(sorted, last, key)
  }

  /** The sort orders by key, permutes its input, and keeps elements of equal key in input order. */
  lemma {:induction false} SortByProperties<T>(s: seq<T>, key: T -> Key)
    ensures Sorted(SortBy(s, key), key)
    ensures multiset(SortBy(s, key)) == multiset(s)
    ensures forall k :: KeyClass(SortBy(s, key), key, k) == KeyClass(s, key, k)
    decreases |s|
  {
    if s != [] {
      var init := s[..|s| - 1];
      var last := s[|s| - 1];
      SortByProperties(init, key);
      assert s == init + [last];
      forall k ensures KeyClass(SortBy(s, key), key, k) == KeyClass(s, key, k) {
        InsertKeyClass(SortBy(init, key), last, key, k);
        KeyClassConcat(init, [last], key, k);
      }
    }
  }

  /** An already sorted sequence is left unchanged. */
  lemma {:induction false} SortByOfSorted<T>(s: seq<T>, key: T -> Key)
    requires Sorted(s, key)
    ensures SortBy(s, key) == s
    decreases |s|
  {
    if s != [] {
      var init := s[..|s| - 1];
      SortByOfSorted(init, key);
      InsertAtEnd(init, s[|s| - 1], key);
      assert s == init + [s[|s| - 1]];
    }
  }

  lemma {:induction false} InsertAtEnd<T>(s: seq<T>, x: T, key: T -> Key)
    requires forall i :: 0 <= i < |s| ==> KeyLe(key(s[i]), key(x))
    ensures Insert(s, x, key) == s + [x]
    decreases |s|
  {
    if s != [] {
      InsertAtEnd(s[1..], x, key);
      assert s == [s[0]] + s[1..];
    }
  }
}
