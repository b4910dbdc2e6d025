/**
 * `Array.prototype.sort` with a comparator, as the engine uses it twice.
 *
 * The sort is stable (ECMAScript 2019 and later). With a comparator whose sign
 * agrees with the order of some real-valued key, a stable sort has exactly one
 * possible outcome; `SortBy` computes it by stable insertion, asking the
 * comparator `cmp(e, x) <= 0` to decide whether `x` goes after `e`.
 */
module StableSort {

  type Comparator<!T> = (T, T) -> real

  /** `cmp` orders values exactly as `key` does. */
  ghost predicate AgreesWith<T(!new)>(cmp: Comparator<T>, key: T -> real)
  {
    forall a, b :: cmp(a, b) <= 0.0 <==> key(a) <= key(b)
  }

  ghost predicate Ordered<T>(s: seq<T>, key: T -> real)
  {
    forall i, j :: 0 <= i < j < |s| ==> key(s[i]) <= key(s[j])
  }

  /** The elements of `s` whose key is `c`, in their order in `s`. */
  function KeyFilter<T>(s: seq<T>, key: T -> real, c: real): seq<T>
  {
    if s == [] then []
    else (if key(s[0]) == c then [s[0]] else []) + KeyFilter(s[1..], key, c)
  }

  /** Inserts `x` into `t` after every element the comparator does not place after `x`. */
  function Insert<T>(x: T, t: seq<T>, cmp: Comparator<T>): seq<T>
  {
    if t == [] then [x]
    else if cmp(t[0], x) <= 0.0 then [t[0]] + Insert(x, t[1..], cmp)
    else [x] + t
  }

  /** Stable sort: the elements are inserted in their original order. */
  function SortBy<T>(s: seq<T>, cmp: Comparator<T>): seq<T>
  {
    if s == [] then [] else Insert(s[|s| - 1], SortBy(s[..|s| - 1], cmp), cmp)
  }

  lemma {:induction false} InsertPermutation<T>(x: T, t: seq<T>, cmp: Comparator<T>)
    ensures multiset(Insert(x, t, cmp)) == multiset(t) + multiset{x}
  {
    if t != [] && cmp(t[0], x) <= 0.0 {
      InsertPermutation(x, t[1..], cmp);
      assert t == [t[0]] + t[1..];
    }
  }

  /** The sort neither loses nor duplicates an element. */
  lemma {:induction false} SortPermutation<T>(s: seq<T>, cmp: Comparator<T>)
    ensures multiset(SortBy(s, cmp)) == multiset(s)
    ensures |SortBy(s, cmp)| == |s|
  {
    if s != [] {
      var init := s[..|s| - 1];
      SortPermutation(init, cmp);
      InsertPermutation(s[|s| - 1], SortBy(init, cmp), cmp);
      assert s == init + [s[|s| - 1]];
    }
    assert |SortBy(s, cmp)| == |multiset(SortBy(s, cmp))|;
  }

  lemma OrderedCons<T>(x: T, t: seq<T>, key: T -> real)
    requires Ordered(t, key)
    requires forall i :: 0 <= i < |t| ==> key(x) <= key(t[i])
    ensures Ordered([x] + t, key)
  {
    var r := [x] + t;
    forall i, j | 0 <= i < j < |r| ensures key(r[i]) <= key(r[j]) {
      assert r[j] == t[j - 1];
      if i > 0 {
        assert r[i] == t[i - 1];
      }
    }
  }

  lemma {:induction false} InsertOrdered<T(!new)>(x: T, t: seq<T>, cmp: Comparator<T>, key: T -> real)
    requires AgreesWith(cmp, key)
    requires Ordered(t, key)
    ensures Ordered(Insert(x, t, cmp), key)
  {
    if t == [] {
    } else if cmp(t[0], x) <= 0.0 {
      var rest := Insert(x, t[1..], cmp);
      assert Ordered(t[1..], key);
      InsertOrdered(x, t[1..], cmp, key);
      InsertPermutation(x, t[1..], cmp);
      forall i | 0 <= i < |rest| ensures key(t[0]) <= key(rest[i]) {
        assert rest[i] in multiset(rest);
        if rest[i] != x {
          assert rest[i] in t[1..];
          var j :| 0 <= j < |t[1..]| && t[1..][j] == rest[i];
          assert t[1..][j] == t[j + 1];
        }
      }
      OrderedCons(t[0], rest, key);
    } else {
      assert key(x) <= key(t[0]);
      OrderedCons(x, t, key);
    }
  }

  /** The sort returns its elements in non-decreasing key order. */
  lemma {:induction false} SortOrdered<T(!new)>(s: seq<T>, cmp: Comparator<T>, key: T -> real)
    requires AgreesWith(cmp, key)
    ensures Ordered(SortBy(s, cmp), key)
  {
    if s != [] {
      SortOrdered(s[..|s| - 1], cmp, key);
      InsertOrdered(s[|s| - 1], SortBy(s[..|s| - 1], cmp), cmp, key);
    }
  }

  lemma {:induction false} KeyFilterAppend<T>(s: seq<T>, t: seq<T>, key: T -> real, c: real)
    ensures KeyFilter(s + t, key, c) == KeyFilter(s, key, c) + KeyFilter(t, key, c)
  {
    if s == [] {
      assert s + t == t;
    } else {
      KeyFilterAppend(s[1..], t, key, c);
      assert s == [s[0]] + s[1..];
      assert s + t == [s[0]] + (s[1..] + t);
      KeyFilterCons(s[0], s[1..] + t, key, c);
      KeyFilterCons(s[0], s[1..], key, c);
    }
  }

  lemma KeyFilterSingle<T>(x: T, key: T -> real, c: real)
    ensures KeyFilter([x], key, c) == if key(x) == c then [x] else []
  {
    assert KeyFilter([x], key, c) == (if key(x) == c then [x] else []) + KeyFilter([x][1..], key, c);
  }

  lemma KeyFilterCons<T>(x: T, t: seq<T>, key: T -> real, c: real)
    ensures KeyFilter([x] + t, key, c) == (if key(x) == c then [x] else []) + KeyFilter(t, key, c)
  {
    assert ([x] + t)[0] == x;
    assert ([x] + t)[1..] == t;
  }

  lemma {:induction false} KeyFilterAbove<T>(t: seq<T>, key: T -> real, c: real)
    requires forall e | e in t :: key(e) > c
    ensures KeyFilter(t, key, c) == []
  {
    if t != [] {
      assert t[0] in t;
      assert forall e | e in t[1..] :: e in t;
      KeyFilterAbove(t[1..], key, c);
    }
  }

  lemma {:induction false} InsertKeyFilter<T(!new)>(x: T, t: seq<T>, cmp: Comparator<T>, key: T -> real, c: real)
    requires AgreesWith(cmp, key)
    requires Ordered(t, key)
    ensures KeyFilter(Insert(x, t, cmp), key, c)
         == KeyFilter(t, key, c) + (if key(x) == c then [x] else [])
  {
    if t == [] {
      KeyFilterSingle(x, key, c);
    } else if cmp(t[0], x) <= 0.0 {
      var rest := Insert(x, t[1..], cmp);
      assert Ordered(t[1..], key);
      InsertKeyFilter(x, t[1..], cmp, key, c);
      KeyFilterCons(t[0], rest, key, c);
      KeyFilterCons(t[0], t[1..], key, c);
      assert t == [t[0]] + t[1..];
    } else {
      KeyFilterCons(x, t, key, c);
      if key(x) == c {
        forall e | e in t ensures key(e) > c {
          var i :| 0 <= i < |t| && t[i] == e;
          assert key(t[0]) <= key(t[i]);
        }
        KeyFilterAbove(t, key, c);
      }
    }
  }

  /** Stability: the elements of any one key keep their original relative order. */
  lemma {:induction false} SortStable<T(!new)>(s: seq<T>, cmp: Comparator<T>, key: T -> real, c: real)
    requires AgreesWith(cmp, key)
    ensures KeyFilter(SortBy(s, cmp), key, c) == KeyFilter(s, key, c)
  {
    if s != [] {
      var init, last := s[..|s| - 1], s[|s| - 1];
      SortStable(init, cmp, key, c);
      SortOrdered(init, cmp, key);
      InsertKeyFilter(last, SortBy(init, cmp), cmp, key, c);
      assert s == init + [last];
      KeyFilterAppend(init, [last], key, c);
      KeyFilterSingle(last, key, c);
    }
  }

  /** An element the comparator never places before any of `t` goes last. */
  lemma {:induction false} InsertAfterAll<T>(x: T, t: seq<T>, cmp: Comparator<T>)
    requires forall i :: 0 <= i < |t| ==> cmp(t[i], x) <= 0.0
    ensures Insert(x, t, cmp) == t + [x]
  {
    if t != [] {
      assert cmp(t[0], x) <= 0.0;
      InsertAfterAll(x, t[1..], cmp);
      assert t == [t[0]] + t[1..];
    }
  }

  /** A comparator that finds every pair equal leaves the order unchanged. */
  lemma {:induction false} SortAllEqual<T>(s: seq<T>, cmp: Comparator<T>)
    requires forall a, b :: cmp(a, b) == 0.0
    ensures SortBy(s, cmp) == s
  {
    if s != [] {
      var init := s[..|s| - 1];
      SortAllEqual(init, cmp);
      InsertAfterAll(s[|s| - 1], init, cmp);
      assert init + [s[|s| - 1]] == s;
    }
  }
}
