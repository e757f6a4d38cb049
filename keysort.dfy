/**
 * Python's `sorted(xs, key=f)` / `xs.sort(key=f)`: a stable sort. The key values the core
 * uses are numbers, `(is_unknown, number)` pairs and strings, gathered in `Key`.
 */
module KeySort {
  import opened Order

  /** `(unknown, v)` orders like the Python tuple `(v is None, v or 0)`; a plain number is `(False, v)`. */
  datatype Key = NumKey(unknown: bool, v: real) | StrKey(s: string)

  predicate KeyLt(a: Key, b: Key)
  {
    match (a, b)
    case (NumKey(u1, v1), NumKey(u2, v2)) => (!u1 && u2) || (u1 == u2 && v1 < v2)
    case (StrKey(s1), StrKey(s2)) => StrLt(s1, s2)
    case (NumKey(_, _), StrKey(_)) => true
    case (StrKey(_), NumKey(_, _)) => false
  }

  lemma KeyLtIrreflexive(a: Key)
    ensures !KeyLt(a, a)
  {
    if a.StrKey? { StrLtIrreflexive(a.s); }
  }

  lemma KeyLtTransitive(a: Key, b: Key, c: Key)
    requires KeyLt(a, b) && KeyLt(b, c)
    ensures KeyLt(a, c)
  {
    if a.StrKey? && b.StrKey? && c.StrKey? { StrLtTransitive(a.s, b.s, c.s); }
  }

  lemma KeyLtTotal(a: Key, b: Key)
    ensures a == b || KeyLt(a, b) || KeyLt(b, a)
  {
    if a.StrKey? && b.StrKey? { StrLtTotal(a.s, b.s); }
  }

  /** Non-decreasing under `key`. */
  predicate SortedBy<T>(key: T -> Key, s: seq<T>)
  {
    forall i, j :: 0 <= i < j < |s| ==> !KeyLt(key(s[j]), key(s[i]))
  }

  /** The elements of `s` whose key is `k`, in their order in `s`. */
  function Class<T>(key: T -> Key, s: seq<T>, k: Key): seq<T>
  {
    if s == [] then [] else (if key(s[0]) == k then [s[0]] else []) + Class(key, s[1..], k)
  }

  lemma {:induction false} ClassAppend<T>(key: T -> Key, a: seq<T>, b: seq<T>, k: Key)
    ensures Class(key, a + b, k) == Class(key, a, k) + Class(key, b, k)
  {
    if a != [] {
      assert (a + b)[0] == a[0] && (a + b)[1..] == a[1..] + b;
      ClassAppend(key, a[1..], b, k);
    } else {
      assert a + b == b;
    }
  }

  lemma {:induction false} ClassEmptyBelow<T>(key: T -> Key, s: seq<T>, k: Key)
    requires SortedBy(key, s)
    requires s != [] && KeyLt(k, key(s[0]))
    ensures Class(key, s, k) == []
  {
    KeyLtIrreflexive(k);
    if |s| > 1 {
      KeyLtTotal(key(s[0]), key(s[1]));
      if KeyLt(key(s[0]), key(s[1])) { KeyLtTransitive(k, key(s[0]), key(s[1])); }
      ClassEmptyBelow(key, s[1..], k);
    }
  }

  /** Places `x` after every element whose key is not above its own. */
  function Insert<T>(key: T -> Key, x: T, s: seq<T>): seq<T>
  {
    if s == [] then [x]
    else if KeyLt(key(x), key(s[0])) then [x] + s
    else [s[0]] + Insert(key, x, s[1..])
  }

  lemma {:induction false} InsertMultiset<T>(key: T -> Key, x: T, s: seq<T>)
    ensures multiset(Insert(key, x, s)) == multiset(s) + multiset{x}
  {
    if s != [] && !KeyLt(key(x), key(s[0])) {
      InsertMultiset(key, x, s[1..]);
      assert s == [s[0]] + s[1..];
    }
  }

  lemma {:induction false} InsertSorted<T>(key: T -> Key, x: T, s: seq<T>)
    requires SortedBy(key, s)
    ensures SortedBy(key, Insert(key, x, s))
  {
    if s == [] {
    } else if KeyLt(key(x), key(s[0])) {
      var r := [x] + s;
      forall j | 0 < j < |r| ensures !KeyLt(key(r[j]), key(x)) {
        assert r[j] == s[j - 1];
        KeyLtTotal(key(s[0]), key(s[j - 1]));
        if KeyLt(key(s[0]), key(s[j - 1])) {
          KeyLtTransitive(key(x), key(s[0]), key(s[j - 1]));
        }
        if KeyLt(key(r[j]), key(x)) {
          KeyLtTransitive(key(x), key(r[j]), key(x));
          KeyLtIrreflexive(key(x));
        }
      }
    } else {
      var t := Insert(key, x, s[1..]);
      InsertSorted(key, x, s[1..]);
      InsertMultiset(key, x, s[1..]);
      var r := [s[0]] + t;
      forall j | 0 < j < |r| ensures !KeyLt(key(r[j]), key(s[0])) {
        assert r[j] == t[j - 1];
        assert r[j] in multiset(t);
        if r[j] != x {
          assert r[j] in multiset(s[1..]);
          var m :| 0 <= m < |s[1..]| && s[1..][m] == r[j];
          assert s[m + 1] == r[j];
        }
      }
    }
  }

  lemma ClassCons<T>(key: T -> Key, a: T, t: seq<T>, k: Key)
    ensures Class(key, [a] + t, k) == (if key(a) == k then [a] else []) + Class(key, t, k)
  {
    assert ([a] + t)[1..] == t;
  }

  lemma SortedTail<T>(key: T -> Key, s: seq<T>)
    requires s != [] && SortedBy(key, s)
    ensures SortedBy(key, s[1..])
  {
    forall i, j | 0 <= i < j < |s[1..]| ensures !KeyLt(key(s[1..][j]), key(s[1..][i])) {
      assert s[1..][i] == s[i + 1] && s[1..][j] == s[j + 1];
    }
  }

  lemma {:induction false} InsertClass<T>(key: T -> Key, x: T, s: seq<T>, k: Key)
    requires SortedBy(key, s)
    ensures Class(key, Insert(key, x, s), k) == Class(key, s, k) + (if key(x) == k then [x] else [])
  {
    if s == [] {
      ClassCons(key, x, [], k);
    } else if KeyLt(key(x), key(s[0])) {
      if key(x) == k { ClassEmptyBelow(key, s, k); }
      ClassCons(key, x, s, k);
    } else {
      SortedTail(key, s);
      InsertClass(key, x, s[1..], k);
      InsertClassPast(key, x, s, k);
    }
  }

  /** Inserting past the head adds to the class what inserting into the tail does. */
  lemma InsertClassPast<T>(key: T -> Key, x: T, s: seq<T>, k: Key)
    requires s != [] && !KeyLt(key(x), key(s[0]))
    requires Class(key, Insert(key, x, s[1..]), k) == Class(key, s[1..], k) + (if key(x) == k then [x] else [])
    ensures Class(key, Insert(key, x, s), k) == Class(key, s, k) + (if key(x) == k then [x] else [])
  {
    var t := Insert(key, x, s[1..]);
    var c0 := if key(s[0]) == k then [s[0]] else [];
    var cx := if key(x) == k then [x] else [];
    ClassCons(key, s[0], t, k);
    ClassCons(key, s[0], s[1..], k);
    assert [s[0]] + s[1..] == s;
    assert c0 + (Class(key, s[1..], k) + cx) == (c0 + Class(key, s[1..], k)) + cx;
  }

  /** `sorted(xs, key=key)`: each element is inserted after the ones before it with an equal key. */
  function SortBy<T>(key: T -> Key, xs: seq<T>): (r: seq<T>)
    ensures SortedBy(key, r)
    ensures multiset(r) == multiset(xs)
    ensures forall k :: Class(key, r, k) == Class(key, xs, k)
  {
    if xs == [] then []
    else
      var init := xs[..|xs| - 1];
      var last := xs[|xs| - 1];
      assert xs == init + [last];
      var sorted := SortBy(key, init);
      var r := Insert(key, last, sorted);
      InsertSorted(key, last, sorted);
      InsertMultiset(key, last, sorted);
      assert forall k :: Class(key, r, k) == Class(key, xs, k) by {
        forall k ensures Class(key, r, k) == Class(key, xs, k) {
          InsertClass(key, last, sorted, k);
          ClassAppend(key, init, [last], k);
        }
      }
      r
  }

  /** The first element of a class is the first element of `s` with that key. */
  lemma {:induction false} ClassHead<T>(key: T -> Key, s: seq<T>, i: nat)
    requires i < |s|
    requires forall j :: 0 <= j < i ==> key(s[j]) != key(s[i])
    ensures Class(key, s, key(s[i])) != [] && Class(key, s, key(s[i]))[0] == s[i]
  {
    if i > 0 {
      ClassHead(key, s[1..], i - 1);
    }
  }

  /** The last element of a class is the last element of `s` with that key. */
  lemma {:induction false} ClassLast<T>(key: T -> Key, s: seq<T>, i: nat)
    requires i < |s|
    requires forall j :: i < j < |s| ==> key(s[j]) != key(s[i])
    ensures var c := Class(key, s, key(s[i])); c != [] && c[|c| - 1] == s[i]
  {
    if i > 0 {
      ClassLast(key, s[1..], i - 1);
    } else {
      ClassNone(key, s[1..], key(s[0]));
    }
  }

  lemma {:induction false} ClassNone<T>(key: T -> Key, s: seq<T>, k: Key)
    requires forall j :: 0 <= j < |s| ==> key(s[j]) != k
    ensures Class(key, s, k) == []
  {
    if s != [] { ClassNone(key, s[1..], k); }
  }

  /** Every member of a class has the class's key. */
  lemma {:induction false} ClassMembers<T>(key: T -> Key, s: seq<T>, k: Key)
    ensures forall y :: y in Class(key, s, k) ==> y in s && key(y) == k
  {
    if s != [] { ClassMembers(key, s[1..], k); }
  }

  /** Every element lies between the first and the last of the sorted sequence. */
  lemma SortByBounds<T>(key: T -> Key, xs: seq<T>, x: T)
    requires x in xs
    ensures var r := SortBy(key, xs);
      r != [] && !KeyLt(key(x), key(r[0])) && !KeyLt(key(r[|r| - 1]), key(x))
  {
    var r := SortBy(key, xs);
    assert x in multiset(r);
    var j :| 0 <= j < |r| && r[j] == x;
    KeyLtIrreflexive(key(x));
    if j > 0 {
      assert !KeyLt(key(r[j]), key(r[0]));
    }
    if j < |r| - 1 {
      assert !KeyLt(key(r[|r| - 1]), key(r[j]));
    }
  }

  /** The first and the last of the sorted sequence come from the input. */
  lemma SortByEnds<T>(key: T -> Key, xs: seq<T>)
    requires xs != []
    ensures var r := SortBy(key, xs); |r| == |xs| && r[0] in xs && r[|r| - 1] in xs
  {
    var r := SortBy(key, xs);
    assert |multiset(r)| == |multiset(xs)|;
    assert r[0] in multiset(r) && r[|r| - 1] in multiset(r);
  }

  /** A sequence with the same classes as `xs` starts with the first element of its head's class. */
  lemma SameClassesFirst<T>(key: T -> Key, r: seq<T>, xs: seq<T>, i: nat)
    requires i < |xs| && r != [] && key(xs[i]) == key(r[0])
    requires forall j :: 0 <= j < i ==> key(xs[j]) != key(xs[i])
    requires Class(key, r, key(xs[i])) == Class(key, xs, key(xs[i]))
    ensures r[0] == xs[i]
  {
    ClassHead(key, xs, i);
    ClassHead(key, r, 0);
  }

  /** A sequence with the same classes as `xs` ends with the last element of its tail's class. */
  lemma SameClassesLast<T>(key: T -> Key, r: seq<T>, xs: seq<T>, i: nat)
    requires i < |xs| && r != [] && key(xs[i]) == key(r[|r| - 1])
    requires forall j :: i < j < |xs| ==> key(xs[j]) != key(xs[i])
    requires Class(key, r, key(xs[i])) == Class(key, xs, key(xs[i]))
    ensures r[|r| - 1] == xs[i]
  {
    ClassLast(key, xs, i);
    ClassLast(key, r, |r| - 1);
  }

  /** Stability: the first of the sorted sequence is the first input element with the smallest key. */
  lemma SortByFirst<T>(key: T -> Key, xs: seq<T>, i: nat)
    requires i < |xs|
    requires key(xs[i]) == key(SortBy(key, xs)[0])
    requires forall j :: 0 <= j < i ==> key(xs[j]) != key(xs[i])
    ensures SortBy(key, xs)[0] == xs[i]
  {
    SameClassesFirst(key, SortBy(key, xs), xs, i);
  }

  /** Stability: the last of the sorted sequence is the last input element with the largest key. */
  lemma SortByLast<T>(key: T -> Key, xs: seq<T>, i: nat)
    requires i < |xs|
    requires key(xs[i]) == key(SortBy(key, xs)[|SortBy(key, xs)| - 1])
    requires forall j :: i < j < |xs| ==> key(xs[j]) != key(xs[i])
    ensures SortBy(key, xs)[|SortBy(key, xs)| - 1] == xs[i]
  {
    SameClassesLast(key, SortBy(key, xs), xs, i);
  }

  /** Sorting keeps exactly the elements of the input. */
  lemma SortByMembers<T>(key: T -> Key, xs: seq<T>)
    ensures forall x :: x in SortBy(key, xs) <==> x in xs
  {
    var r := SortBy(key, xs);
    forall x ensures x in r <==> x in xs {
      assert x in r <==> x in multiset(r);
      assert x in xs <==> x in multiset(xs);
    }
  }
}
