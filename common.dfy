/** Value types and sequence operations shared by the table models: the
    optional value that a `fetchone()` may return, the error a UNIQUE
    constraint raises, and the filtering, counting and ordering that the
    SQL statements of the models perform over a table's rows. */
module Common {

  /** A value that may be absent (Python's `None`). */
  datatype Option<+T> = None | Some(value: T)

  /** The database failures the models can meet: `sqlite3.IntegrityError`,
      raised when a statement would break a UNIQUE constraint, and the
      `OverflowError` sqlite3 raises when it binds a Python `int` that does not
      fit SQLite's 64-bit INTEGER. */
  datatype DbError = UniqueViolation | IntegerOverflow

  /** The range of SQLite's INTEGER: signed 64-bit. */
  const MinInt64: int := -0x8000_0000_0000_0000
  const MaxInt64: int := 0x7FFF_FFFF_FFFF_FFFF

  /** sqlite3 can bind `x` as an INTEGER parameter. */
  predicate FitsInt64(x: int) {
    MinInt64 <= x <= MaxInt64
  }

  /** The outcome of a statement that may raise `DbError`. */
  datatype Result<+T> = Ok(value: T) | Err(error: DbError)

  function Min(a: int, b: int): int { if a <= b then a else b }

  /** Every element stands in relation `ok` to every element after it. With a
      symmetric `ok` such as "the ids differ" this says that no two rows clash. */
  ghost predicate Pairwise<T>(s: seq<T>, ok: (T, T) -> bool) {
    forall i, j :: 0 <= i < j < |s| ==> ok(s[i], s[j])
  }

  /** Two different elements of a pairwise sequence are related one way round
      or the other. */
  lemma PairwiseMembers<T>(s: seq<T>, ok: (T, T) -> bool, x: T, y: T)
    requires Pairwise(s, ok)
    requires x in s && y in s
    ensures x == y || ok(x, y) || ok(y, x)
  {
    var i :| 0 <= i < |s| && s[i] == x;
    var j :| 0 <= j < |s| && s[j] == y;
  }

  /** The number of elements whose `key` is `v` (the row count of a
      `WHERE key = v` clause). */
  function Count<T(!new), K(==)>(s: seq<T>, key: T -> K, v: K): (n: nat)
    ensures n <= |s|
    ensures n == 0 <==> forall x :: x in s ==> key(x) != v
  {
    if s == [] then 0
    else (if key(s[0]) == v then 1 else 0) + Count(s[1..], key, v)
  }

  /** The elements whose `key` is not `v`, in their original order: what a
      `DELETE ... WHERE key = v` leaves behind. */
  function Reject<T(!new), K(==)>(s: seq<T>, key: T -> K, v: K): (r: seq<T>)
    ensures forall x :: x in r <==> x in s && key(x) != v
    ensures |r| + Count(s, key, v) == |s|
  {
    if s == [] then []
    else if key(s[0]) == v then Reject(s[1..], key, v)
    else [s[0]] + Reject(s[1..], key, v)
  }

  /** The tail of a pairwise sequence is pairwise. */
  lemma PairwiseTail<T>(s: seq<T>, ok: (T, T) -> bool)
    requires Pairwise(s, ok) && s != []
    ensures Pairwise(s[1..], ok)
  {
    forall i, j | 0 <= i < j < |s[1..]| ensures ok(s[1..][i], s[1..][j]) {
      assert s[1..][i] == s[i + 1] && s[1..][j] == s[j + 1];
    }
  }

  /** An element related to everything in a pairwise sequence can be put in
      front of it. */
  lemma PairwiseCons<T>(x: T, s: seq<T>, ok: (T, T) -> bool)
    requires Pairwise(s, ok)
    requires forall y :: y in s ==> ok(x, y)
    ensures Pairwise([x] + s, ok)
  {
    var r := [x] + s;
    forall i, j | 0 <= i < j < |r| ensures ok(r[i], r[j]) {
      assert r[j] == s[j - 1];
      if i > 0 {
        assert r[i] == s[i - 1];
      }
    }
  }

  /** Removing elements keeps every remaining pair related as before: a
      delete cannot break a uniqueness constraint. */
  lemma {:induction false} RejectPairwise<T(!new), K>(s: seq<T>, key: T -> K, v: K, ok: (T, T) -> bool)
    requires Pairwise(s, ok)
    ensures Pairwise(Reject(s, key, v), ok)
  {
    if s != [] {
      PairwiseTail(s, ok);
      RejectPairwise(s[1..], key, v, ok);
      var rest := Reject(s[1..], key, v);
      if key(s[0]) != v {
        forall y | y in rest ensures ok(s[0], y) {
          var k :| 0 <= k < |s[1..]| && s[1..][k] == y;
          assert s[k + 1] == y;
        }
        PairwiseCons(s[0], rest, ok);
      }
    }
  }

  /** SQL ordering: `le` must be a total preorder, as every ORDER BY key is. */
  ghost predicate TotalPreorder<T(!new)>(le: (T, T) -> bool) {
    && (forall a, b :: le(a, b) || le(b, a))
    && (forall a, b, c :: le(a, b) && le(b, c) ==> le(a, c))
  }

  ghost predicate Sorted<T>(s: seq<T>, le: (T, T) -> bool) {
    forall i, j :: 0 <= i < j < |s| ==> le(s[i], s[j])
  }

  /** Inserts `x` before the first element it may precede. */
  function Insert<T>(x: T, s: seq<T>, le: (T, T) -> bool): (r: seq<T>)
    ensures multiset(r) == multiset(s) + multiset{x}
  {
    if s == [] then [x]
    else if le(x, s[0]) then [x] + s
    else
      assert s == [s[0]] + s[1..];
      [s[0]] + Insert(x, s[1..], le)
  }

  /** The rows in the order an ORDER BY clause with key order `le` returns
      them. `Insert` places an element before the first one it ties with, so
      rows with equal keys keep their stored order, one of the orders SQL
      allows. */
  function Sort<T>(s: seq<T>, le: (T, T) -> bool): (r: seq<T>)
    ensures multiset(r) == multiset(s)
  {
    if s == [] then []
    else
      assert s == [s[0]] + s[1..];
      Insert(s[0], Sort(s[1..], le), le)
  }

  lemma {:induction false} InsertSorted<T(!new)>(x: T, s: seq<T>, le: (T, T) -> bool)
    requires TotalPreorder(le) && Sorted(s, le)
    ensures Sorted(Insert(x, s, le), le)
  {
    if s != [] && !le(x, s[0]) {
      assert le(s[0], x);
      assert Sorted(s[1..], le) by {
        forall i, j | 0 <= i < j < |s[1..]| ensures le(s[1..][i], s[1..][j]) {
          assert s[1..][i] == s[i + 1] && s[1..][j] == s[j + 1];
        }
      }
      InsertSorted(x, s[1..], le);
      var rest := Insert(x, s[1..], le);
      var r := [s[0]] + rest;
      forall i, j | 0 <= i < j < |r| ensures le(r[i], r[j]) {
        if i == 0 {
          assert r[j] in multiset(rest);
          assert r[j] == x || r[j] in s[1..];
        } else {
          assert r[i] == rest[i - 1] && r[j] == rest[j - 1];
        }
      }
    }
  }

  lemma {:induction false} SortSorted<T(!new)>(s: seq<T>, le: (T, T) -> bool)
    requires TotalPreorder(le)
    ensures Sorted(Sort(s, le), le)
  {
    if s != [] {
      SortSorted(s[1..], le);
      InsertSorted(s[0], Sort(s[1..], le), le);
    }
  }

  /** The first `k` elements of a sorted sequence come before all the others:
      what a `LIMIT k` after an ORDER BY keeps. */
  lemma SortedPrefix<T>(s: seq<T>, le: (T, T) -> bool, k: nat)
    requires Sorted(s, le) && k <= |s|
    ensures multiset(s[..k]) <= multiset(s)
    ensures forall x, i :: x in multiset(s) - multiset(s[..k]) && 0 <= i < k ==> le(s[i], x)
  {
    assert s == s[..k] + s[k..];
    assert multiset(s) == multiset(s[..k]) + multiset(s[k..]);
    forall x, i | x in multiset(s) - multiset(s[..k]) && 0 <= i < k ensures le(s[i], x) {
      assert x in multiset(s[k..]);
      var j :| 0 <= j < |s[k..]| && s[k..][j] == x;
      assert s[k + j] == x;
    }
  }
}
