/** Hash iteration: a set visited in some order, and the sorts applied to what was visited. */
module Enumerations {
  import opened Bytes

  /** `q` visits every element of `s` once, in an order of its own. */
  ghost predicate Enumerates<T>(q: seq<T>, s: set<T>) { multiset(q) == multiset(s) }

  function SetOf<T>(q: seq<T>): set<T> { set x | x in q }

  /** Every order a hash table could iterate in is a possible result. */
  method Enumerate<T(==)>(s: set<T>) returns (q: seq<T>)
    ensures Enumerates(q, s)
  {
    q := [];
    var left := s;
    while left != {}
      invariant left <= s && multiset(q) == multiset(s - left)
      decreases left
    {
      var x :| x in left;
      q := q + [x];
      left := left - {x};
      assert s - left == (s - left - {x}) + {x};
    }
    assert s - left == s;
  }

  lemma EnumerationIs<T>(q: seq<T>, s: set<T>)
    requires Enumerates(q, s)
    ensures SetOf(q) == s && |q| == |s|
    ensures forall i, j :: 0 <= i < j < |q| ==> q[i] != q[j]
  {
    forall x ensures x in q <==> x in s {
      assert x in q <==> x in multiset(q);
      assert x in s <==> x in multiset(s);
    }
    assert |multiset(q)| == |multiset(s)|;
    forall i, j | 0 <= i < j < |q| ensures q[i] != q[j] {
      assert q == q[..j] + q[j..];
      assert multiset(q)[q[i]] == multiset(q[..j])[q[i]] + multiset(q[j..])[q[i]];
      assert q[..j][i] == q[i] && q[j..][0] == q[j];
    }
  }

  lemma {:induction false} DistinctEnumerates<T>(q: seq<T>, s: set<T>)
    requires SetOf(q) == s && forall i, j :: 0 <= i < j < |q| ==> q[i] != q[j]
    ensures Enumerates(q, s)
    decreases |q|
  {
    if q == [] {
      assert s == {};
    } else {
      var rest, x := q[..|q| - 1], q[|q| - 1];
      assert q == rest + [x];
      assert x !in rest;
      assert SetOf(rest) == s - {x};
      DistinctEnumerates(rest, s - {x});
      assert s == (s - {x}) + {x};
    }
  }

  // ------------------------------------------------------------------- sorting

  ghost predicate TotalOrder<T(!new)>(le: (T, T) -> bool)
  {
    && (forall x, y :: le(x, y) || le(y, x))
    && (forall x, y :: le(x, y) && le(y, x) ==> x == y)
    && (forall x, y, z :: le(x, y) && le(y, z) ==> le(x, z))
  }

  predicate SortedBy<T>(le: (T, T) -> bool, q: seq<T>) { forall i, j :: 0 <= i < j < |q| ==> le(q[i], q[j]) }

  /** `sort`, by insertion. */
  method Sort<T(!new)>(le: (T, T) -> bool, q: seq<T>) returns (r: seq<T>)
    requires TotalOrder(le)
    ensures multiset(r) == multiset(q) && SortedBy(le, r)
  {
    r := [];
    for i := 0 to |q|
      invariant multiset(r) == multiset(q[..i]) && SortedBy(le, r)
    {
      r := Insert(le, r, q[i]);
      assert q[..i + 1] == q[..i] + [q[i]];
    }
    assert q[..|q|] == q;
  }

  method Insert<T(!new)>(le: (T, T) -> bool, q: seq<T>, x: T) returns (r: seq<T>)
    requires TotalOrder(le) && SortedBy(le, q)
    ensures multiset(r) == multiset(q) + multiset{x} && SortedBy(le, r)
  {
    var k := 0;
    while k < |q| && le(q[k], x)
      invariant 0 <= k <= |q| && forall j :: 0 <= j < k ==> le(q[j], x)
    {
      k := k + 1;
    }
    InsertSorted(le, q, k, x);
    assert q == q[..k] + q[k..];
    r := q[..k] + [x] + q[k..];
  }

  lemma InsertSorted<T(!new)>(le: (T, T) -> bool, r: seq<T>, k: nat, x: T)
    requires TotalOrder(le) && k <= |r| && SortedBy(le, r)
    requires forall j :: 0 <= j < k ==> le(r[j], x)
    requires k < |r| ==> !le(r[k], x)
    ensures SortedBy(le, r[..k] + [x] + r[k..])
  {
    forall j | k <= j < |r| ensures le(x, r[j]) {
      assert le(x, r[k]);
      if j > k { assert le(r[k], r[j]); }
    }
  }

  lemma LeastFirst<T(!new)>(le: (T, T) -> bool, q: seq<T>, x: T)
    requires TotalOrder(le) && SortedBy(le, q) && x in q
    ensures le(q[0], x)
  {
    var i :| 0 <= i < |q| && q[i] == x;
    assert le(x, x);
    if i > 0 { assert le(q[0], q[i]); }
  }

  lemma TailMultiset<T>(q: seq<T>)
    requires q != []
    ensures multiset(q[1..]) == multiset(q) - multiset{q[0]}
  {
    assert q == [q[0]] + q[1..];
  }

  /** A set has one sorted enumeration: sorting undoes the hash order. */
  lemma {:induction false} SortedOnce<T(!new)>(le: (T, T) -> bool, p: seq<T>, q: seq<T>)
    requires TotalOrder(le) && multiset(p) == multiset(q) && SortedBy(le, p) && SortedBy(le, q)
    ensures p == q
    decreases |p|
  {
    assert |p| == |multiset(p)| == |multiset(q)| == |q|;
    if p != [] {
      assert p[0] in multiset(q) && q[0] in multiset(p);
      LeastFirst(le, p, q[0]);
      LeastFirst(le, q, p[0]);
      TailMultiset(p);
      TailMultiset(q);
      SortedOnce(le, p[1..], q[1..]);
      assert p == [p[0]] + p[1..] && q == [q[0]] + q[1..];
    }
  }

  /** Lexicographic order of byte strings. */
  predicate LexLe(a: bytes, b: bytes)
  {
    a == [] || (b != [] && (a[0] < b[0] || (a[0] == b[0] && LexLe(a[1..], b[1..]))))
  }

  lemma {:induction false} LexTotal(a: bytes, b: bytes)
    ensures LexLe(a, b) || LexLe(b, a)
    ensures LexLe(a, b) && LexLe(b, a) ==> a == b
  {
    if a != [] && b != [] {
      LexTotal(a[1..], b[1..]);
      assert a == [a[0]] + a[1..] && b == [b[0]] + b[1..];
    }
  }

  lemma {:induction false} LexTransitive(a: bytes, b: bytes, c: bytes)
    requires LexLe(a, b) && LexLe(b, c)
    ensures LexLe(a, c)
  {
    if a != [] && a[0] == b[0] == c[0] { LexTransitive(a[1..], b[1..], c[1..]); }
  }

  lemma {:induction false} LexBehindPrefix(p: bytes, a: bytes, b: bytes)
    ensures LexLe(p + a, p + b) <==> LexLe(a, b)
    decreases |p|
  {
    if p == [] {
      assert p + a == a && p + b == b;
    } else {
      LexBehindPrefix(p[1..], a, b);
      assert (p + a)[0] == p[0] == (p + b)[0];
      assert (p + a)[1..] == p[1..] + a;
      assert (p + b)[1..] == p[1..] + b;
    }
  }

  /** Which way round: behind a common prefix the end of the string comes first, then the smaller
      byte. */
  lemma LexDirection(p: bytes, x: byte, y: byte, a: bytes, b: bytes)
    ensures LexLe(p, p + a) && (a != [] ==> !LexLe(p + a, p))
    ensures x < y ==> LexLe(p + ([x] + a), p + ([y] + b)) && !LexLe(p + ([y] + b), p + ([x] + a))
  {
    assert p + [] == p;
    LexBehindPrefix(p, [], a);
    LexBehindPrefix(p, a, []);
    LexBehindPrefix(p, [x] + a, [y] + b);
    LexBehindPrefix(p, [y] + b, [x] + a);
  }

  lemma LexIsTotalOrder()
    ensures TotalOrder(LexLe)
  {
    forall a: bytes, b: bytes ensures LexLe(a, b) || LexLe(b, a) ensures LexLe(a, b) && LexLe(b, a) ==> a == b {
      LexTotal(a, b);
    }
    forall a: bytes, b: bytes, c: bytes | LexLe(a, b) && LexLe(b, c) ensures LexLe(a, c) {
      LexTransitive(a, b, c);
    }
  }

  predicate IntLe(a: int, b: int) { a <= b }

  /** A set of byte strings in order, as KEYS and SMEMBERS reply with it. */
  method InLexOrder(s: set<bytes>) returns (q: seq<bytes>)
    ensures Enumerates(q, s) && SortedBy(LexLe, q)
  {
    var any := Enumerate(s);
    LexIsTotalOrder();
    q := Sort(LexLe, any);
  }

  /** The keys of an ordered map, in ascending order. */
  method Ascending(s: set<int>) returns (q: seq<int>)
    ensures SetOf(q) == s && forall i, j :: 0 <= i < j < |q| ==> q[i] < q[j]
  {
    var any := Enumerate(s);
    q := Sort(IntLe, any);
    EnumerationIs(q, s);
    assert forall i, j :: 0 <= i < j < |q| ==> IntLe(q[i], q[j]);
  }
}
