/** SQL `ORDER BY` and `GROUP BY ... ORDER BY key ASC`. A row is ordered by a key
    made of integers (one per `ORDER BY` column, negated for `DESC`, a string
    column spelled out as its code points), compared lexicographically. */
module Ordering {
  import opened Schema

  /** Lexicographic order on integer keys; a proper prefix comes first. */
  predicate LexLe(a: seq<int>, b: seq<int>)
    decreases |a|
  {
    a == [] || (b != [] && (a[0] < b[0] || (a[0] == b[0] && LexLe(a[1..], b[1..]))))
  }

  lemma {:induction false} LexLeTotal(a: seq<int>, b: seq<int>)
    ensures LexLe(a, b) || LexLe(b, a)
    decreases |a|
  {
    if a != [] && b != [] && a[0] == b[0] {
      LexLeTotal(a[1..], b[1..]);
    }
  }

  lemma {:induction false} LexLeTrans(a: seq<int>, b: seq<int>, c: seq<int>)
    requires LexLe(a, b) && LexLe(b, c)
    ensures LexLe(a, c)
    decreases |a|
  {
    if a != [] && a[0] == b[0] && b[0] == c[0] {
      LexLeTrans(a[1..], b[1..], c[1..]);
    }
  }

  /** Comparing keys that start with one column compares that column first. */
  lemma LexLeCons(x: int, a: seq<int>, y: int, b: seq<int>)
    ensures LexLe([x] + a, [y] + b) <==> x < y || (x == y && LexLe(a, b))
  {
    assert ([x] + a)[1..] == a && ([y] + b)[1..] == b;
  }

  /** A one-column key compares as that column. */
  lemma LexLeSingle(x: int, y: int)
    ensures LexLe([x], [y]) <==> x <= y
  {
    assert [x][1..] == [] && [y][1..] == [];
  }

  ghost predicate SortedBy<T>(s: seq<T>, key: T -> seq<int>)
  {
    forall i, j :: 0 <= i < j < |s| ==> LexLe(key(s[i]), key(s[j]))
  }

  /** A row that sorts before the head of an ordered list sorts before all of it. */
  lemma PrependSorted<T>(x: T, s: seq<T>, key: T -> seq<int>)
    requires SortedBy(s, key) && s != [] && LexLe(key(x), key(s[0]))
    ensures SortedBy([x] + s, key)
  {
    forall j | 0 < j < |s| ensures LexLe(key(x), key(s[j])) {
      LexLeTrans(key(x), key(s[0]), key(s[j]));
    }
  }

  /** The head of an ordered list stays first when a later row is inserted behind it. */
  lemma HeadStaysFirst<T>(h: T, tail: seq<T>, x: T, rest: seq<T>, key: T -> seq<int>)
    requires SortedBy([h] + tail, key) && SortedBy(rest, key) && LexLe(key(h), key(x))
    requires multiset(rest) == multiset(tail) + multiset{x}
    ensures SortedBy([h] + rest, key)
  {
    forall j | 0 <= j < |rest| ensures LexLe(key(h), key(rest[j])) {
      assert rest[j] in multiset(rest);
      if rest[j] != x {
        assert rest[j] in multiset(tail);
        var k :| 0 <= k < |tail| && tail[k] == rest[j];
        assert ([h] + tail)[0] == h && ([h] + tail)[k + 1] == rest[j];
      }
    }
  }

  /** Inserts `x` into an already ordered list, before the first row it does not follow. */
  function Insert<T>(x: T, s: seq<T>, key: T -> seq<int>): (r: seq<T>)
    requires SortedBy(s, key)
    ensures multiset(r) == multiset(s) + multiset{x}
    ensures SortedBy(r, key)
  {
    if s == [] then [x]
    else if LexLe(key(x), key(s[0])) then
      PrependSorted(x, s, key);
      [x] + s
    else
      var rest := Insert(x, s[1..], key);
      assert s == [s[0]] + s[1..];
      LexLeTotal(key(x), key(s[0]));
      HeadStaysFirst(s[0], s[1..], x, rest, key);
      [s[0]] + rest
  }

  /** `ORDER BY key`: an ordered permutation of the rows (insertion sort). */
  function SortBy<T>(s: seq<T>, key: T -> seq<int>): (r: seq<T>)
    ensures multiset(r) == multiset(s)
    ensures SortedBy(r, key)
  {
    if s == [] then []
    else
      assert s == s[..|s| - 1] + [s[|s| - 1]];
      Insert(s[|s| - 1], SortBy(s[..|s| - 1], key), key)
  }

  lemma SortByLength<T>(s: seq<T>, key: T -> seq<int>)
    ensures |SortBy(s, key)| == |s|
  {
    assert |multiset(SortBy(s, key))| == |multiset(s)|;
  }

  lemma SortByMembers<T>(s: seq<T>, key: T -> seq<int>, x: T)
    ensures x in SortBy(s, key) <==> x in s
  {
    assert x in SortBy(s, key) <==> x in multiset(SortBy(s, key));
  }

  /** `SELECT ... WHERE p ORDER BY key`: exactly the rows satisfying `p`, each as
      often as in the table, in key order. */
  function Select<T>(s: seq<T>, p: T -> bool, key: T -> seq<int>): (r: seq<T>)
    ensures forall x | x in r :: x in s && p(x)
    ensures forall x | x in s && p(x) :: x in r
    ensures multiset(r) <= multiset(s)
    ensures multiset(r) == multiset(Where(s, p))
    ensures SortedBy(r, key)
  {
    var w := Where(s, p);
    WhereMultiset(s, p);
    var r := SortBy(w, key);
    assert forall x | x in r :: x in s && p(x) by {
      forall x | x in r ensures x in s && p(x) {
        SortByMembers(w, key, x);
        WhereMembers(s, p, x);
      }
    }
    assert forall x | x in s && p(x) :: x in r by {
      forall x | x in s && p(x) ensures x in r {
        SortByMembers(w, key, x);
        WhereMembers(s, p, x);
      }
    }
    r
  }

  /** `SELECT` returns as many rows as the filter keeps. */
  lemma SelectLength<T>(s: seq<T>, p: T -> bool, key: T -> seq<int>)
    ensures |Select(s, p, key)| == |Where(s, p)|
  {
    SortByLength(Where(s, p), key);
  }

  ghost predicate StrictlyAscending(s: seq<int>)
  {
    forall i, j :: 0 <= i < j < |s| ==> s[i] < s[j]
  }

  /** Adds a group key to a strictly ascending list of distinct keys. */
  function InsertKey(k: int, s: seq<int>): (r: seq<int>)
    requires StrictlyAscending(s)
    ensures StrictlyAscending(r)
    ensures forall x :: x in r <==> x in s || x == k
  {
    if s == [] then [k]
    else if k < s[0] then [k] + s
    else if k == s[0] then s
    else
      var rest := InsertKey(k, s[1..]);
      assert s == [s[0]] + s[1..];
      assert forall j | 0 <= j < |rest| :: s[0] < rest[j] by {
        forall j | 0 <= j < |rest| ensures s[0] < rest[j] {
          assert rest[j] in rest;
        }
      }
      [s[0]] + rest
  }

  /** `GROUP BY key ORDER BY key ASC`: each key present once, in ascending order. */
  function SortedKeys(ks: seq<int>): (r: seq<int>)
    ensures StrictlyAscending(r)
    ensures forall x :: x in r <==> x in ks
  {
    if ks == [] then []
    else
      assert ks == ks[..|ks| - 1] + [ks[|ks| - 1]];
      InsertKey(ks[|ks| - 1], SortedKeys(ks[..|ks| - 1]))
  }

  /** The code points of a string, as a sort key. */
  function Chars(s: string): (r: seq<int>)
    ensures |r| == |s|
    ensures forall i :: 0 <= i < |s| ==> r[i] == s[i] as int
  {
    seq(|s|, i requires 0 <= i < |s| => s[i] as int)
  }
}
