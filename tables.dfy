/** A database table kept as the sequence of its rows in storage order,
    and the keyed lookups, filters and orderings the services ask of it. */
module Tables {

  datatype Option<+T> = None | Some(value: T)

  /** No two rows of the table share a key. */
  predicate Unique<T, K(==)>(rows: seq<T>, key: T -> K) {
    forall i, j :: 0 <= i < j < |rows| ==> key(rows[i]) != key(rows[j])
  }

  /** The row whose key is `k`, if there is one (a unique-key `findUnique`). */
  function Lookup<T, K(==)>(rows: seq<T>, key: T -> K, k: K): (r: Option<T>)
    ensures r.Some? ==> r.value in rows && key(r.value) == k
    ensures r.None? <==> forall i :: 0 <= i < |rows| ==> key(rows[i]) != k
  {
    if rows == [] then None
    else if key(rows[0]) == k then Some(rows[0])
    else Lookup(rows[1..], key, k)
  }

  /** The rows whose key is `k`, in storage order (a `findMany` with a `where`). */
  function Where<T, K(==)>(rows: seq<T>, key: T -> K, k: K): (r: seq<T>)
    ensures forall i :: 0 <= i < |r| ==> r[i] in rows && key(r[i]) == k
    ensures forall i :: 0 <= i < |rows| && key(rows[i]) == k ==> rows[i] in r
    ensures |r| <= |rows|
  {
    if rows == [] then []
    else if key(rows[0]) == k then [rows[0]] + Where(rows[1..], key, k)
    else Where(rows[1..], key, k)
  }

  /** The table after deleting the row(s) whose key is `k`. */
  function WithoutKey<T, K(==)>(rows: seq<T>, key: T -> K, k: K): (r: seq<T>)
    ensures forall i :: 0 <= i < |r| ==> r[i] in rows && key(r[i]) != k
    ensures forall i :: 0 <= i < |rows| && key(rows[i]) != k ==> rows[i] in r
    ensures |r| <= |rows|
  {
    if rows == [] then []
    else if key(rows[0]) == k then WithoutKey(rows[1..], key, k)
    else [rows[0]] + WithoutKey(rows[1..], key, k)
  }

  /** The table after overwriting the row(s) whose key is `k` with `x`. */
  function ReplaceKey<T, K(==)>(rows: seq<T>, key: T -> K, k: K, x: T): (r: seq<T>)
    ensures |r| == |rows|
    ensures forall i :: 0 <= i < |rows| ==> r[i] == if key(rows[i]) == k then x else rows[i]
  {
    if rows == [] then []
    else [if key(rows[0]) == k then x else rows[0]] + ReplaceKey(rows[1..], key, k, x)
  }

  /** A filter keeps every matching row as often as the table holds it, and no other row. */
  lemma {:induction false} WhereKeepsCounts<T, K>(rows: seq<T>, key: T -> K, k: K, x: T)
    ensures multiset(Where(rows, key, k))[x] == if key(x) == k then multiset(rows)[x] else 0
  {
    if rows != [] {
      assert rows == [rows[0]] + rows[1..];
      WhereKeepsCounts(rows[1..], key, k, x);
    }
  }

  /** A delete keeps every row with another key as often as the table holds it, and no row with the key. */
  lemma {:induction false} WithoutKeyKeepsCounts<T, K>(rows: seq<T>, key: T -> K, k: K, x: T)
    ensures multiset(WithoutKey(rows, key, k))[x] == if key(x) != k then multiset(rows)[x] else 0
  {
    if rows != [] {
      assert rows == [rows[0]] + rows[1..];
      WithoutKeyKeepsCounts(rows[1..], key, k, x);
    }
  }

  /** Applies `f` to every row, keeping the order. */
  function MapRows<T, U>(rows: seq<T>, f: T -> U): (r: seq<U>)
    ensures |r| == |rows|
    ensures forall i :: 0 <= i < |rows| ==> r[i] == f(rows[i])
  {
    if rows == [] then [] else [f(rows[0])] + MapRows(rows[1..], f)
  }

  /** Mapping the identity over a table gives the table back. */
  lemma {:induction false} MapIdentity<T>(rows: seq<T>, id: T -> T)
    requires forall x :: id(x) == x
    ensures MapRows(rows, id) == rows
  {
    if rows != [] {
      MapIdentity(rows[1..], id);
    }
  }

  /** A row appended with a key the table lacks is what a lookup of that key finds. */
  lemma {:induction false} LookupAppended<T, K>(rows: seq<T>, key: T -> K, x: T)
    requires Lookup(rows, key, key(x)).None?
    ensures Lookup(rows + [x], key, key(x)) == Some(x)
  {
    if rows != [] {
      assert (rows + [x])[1..] == rows[1..] + [x];
      LookupAppended(rows[1..], key, x);
    }
  }

  /** Appending a row whose key is new keeps the keys unique. */
  lemma AppendUnique<T, K>(rows: seq<T>, key: T -> K, x: T)
    requires Unique(rows, key)
    requires Lookup(rows, key, key(x)).None?
    ensures Unique(rows + [x], key)
  {
  }

  /** Appending a row and then deleting its key, which the table lacked, restores the table. */
  lemma {:induction false} WithoutKeyAfterAppend<T, K>(rows: seq<T>, key: T -> K, x: T)
    requires Lookup(rows, key, key(x)).None?
    ensures WithoutKey(rows + [x], key, key(x)) == rows
  {
    if rows == [] {
      assert WithoutKey([x], key, key(x)) == WithoutKey([], key, key(x));
    } else {
      assert (rows + [x])[1..] == rows[1..] + [x];
      WithoutKeyAfterAppend(rows[1..], key, x);
    }
  }

  /** Deleting rows keeps any key that was unique unique. */
  lemma {:induction false} WithoutKeyUnique<T, K, L>(rows: seq<T>, key: T -> K, k: K, other: T -> L)
    requires Unique(rows, other)
    ensures Unique(WithoutKey(rows, key, k), other)
  {
    if rows != [] {
      WithoutKeyUnique(rows[1..], key, k, other);
      if key(rows[0]) != k {
        var rest := WithoutKey(rows[1..], key, k);
        forall m | 0 <= m < |rest|
          ensures other(rest[m]) != other(rows[0])
        {
          var j :| 0 <= j < |rows[1..]| && rows[1..][j] == rest[m];
          assert rows[j + 1] == rest[m];
        }
      }
    }
  }

  /** Selecting rows keeps any key that was unique unique. */
  lemma {:induction false} WhereUnique<T, K, L>(rows: seq<T>, key: T -> K, k: K, other: T -> L)
    requires Unique(rows, other)
    ensures Unique(Where(rows, key, k), other)
  {
    if rows != [] {
      WhereUnique(rows[1..], key, k, other);
      if key(rows[0]) == k {
        var rest := Where(rows[1..], key, k);
        forall m | 0 <= m < |rest|
          ensures other(rest[m]) != other(rows[0])
        {
          var j :| 0 <= j < |rows[1..]| && rows[1..][j] == rest[m];
          assert rows[j + 1] == rest[m];
        }
      }
    }
  }

  /** Under a unique key, deleting a key that is present removes exactly one row. */
  lemma {:induction false} WithoutKeyRemovesOne<T, K>(rows: seq<T>, key: T -> K, k: K)
    requires Unique(rows, key)
    requires Lookup(rows, key, k).Some?
    ensures |WithoutKey(rows, key, k)| == |rows| - 1
  {
    if key(rows[0]) == k {
      WithoutAbsentKey(rows[1..], key, k);
    } else {
      WithoutKeyRemovesOne(rows[1..], key, k);
    }
  }

  /** Deleting a key the table lacks changes nothing. */
  lemma {:induction false} WithoutAbsentKey<T, K>(rows: seq<T>, key: T -> K, k: K)
    requires Lookup(rows, key, k).None?
    ensures WithoutKey(rows, key, k) == rows
  {
    if rows != [] {
      WithoutAbsentKey(rows[1..], key, k);
    }
  }

  /** Overwriting the row with key `k` by a row that keeps `k` and whose `other`
      key no other row uses keeps `other` unique. */
  lemma ReplaceKeyUnique<T, K, L>(rows: seq<T>, key: T -> K, k: K, x: T, other: T -> L)
    requires Unique(rows, key) && Unique(rows, other)
    requires key(x) == k
    requires forall i :: 0 <= i < |rows| && key(rows[i]) != k ==> other(rows[i]) != other(x)
    ensures Unique(ReplaceKey(rows, key, k, x), other)
  {
  }

  /** The rows are ordered by the timestamp `at`, newest first. */
  ghost predicate NewestFirst<T>(rows: seq<T>, at: T -> int) {
    forall i, j :: 0 <= i < j < |rows| ==> at(rows[i]) >= at(rows[j])
  }

  /** Inserts `x` into rows ordered newest first, in front of the first row that is not newer. */
  function InsertNewestFirst<T>(x: T, rows: seq<T>, at: T -> int): (r: seq<T>)
    ensures multiset(r) == multiset(rows) + multiset{x}
  {
    if rows == [] || at(x) >= at(rows[0]) then [x] + rows
    else
      assert rows == [rows[0]] + rows[1..];
      [rows[0]] + InsertNewestFirst(x, rows[1..], at)
  }

  /** Inserting into rows ordered newest first keeps them ordered. */
  lemma {:induction false} InsertKeepsNewestFirst<T>(x: T, rows: seq<T>, at: T -> int)
    requires NewestFirst(rows, at)
    ensures NewestFirst(InsertNewestFirst(x, rows, at), at)
  {
    if rows != [] && at(x) < at(rows[0]) {
      var rest := InsertNewestFirst(x, rows[1..], at);
      InsertKeepsNewestFirst(x, rows[1..], at);
      forall m | 0 <= m < |rest|
        ensures at(rest[m]) <= at(rows[0])
      {
        assert rest[m] in multiset(rest);
        if rest[m] != x {
          assert rest[m] in multiset(rows[1..]);
          var j :| 0 <= j < |rows[1..]| && rows[1..][j] == rest[m];
          assert rows[j + 1] == rest[m];
        }
      }
    }
  }

  /** The rows ordered by `at`, newest first (an `orderBy: { createdAt: 'desc' }`). */
  function SortNewestFirst<T>(rows: seq<T>, at: T -> int): (r: seq<T>)
    ensures multiset(r) == multiset(rows)
    ensures NewestFirst(r, at)
  {
    if rows == [] then []
    else
      assert rows == [rows[0]] + rows[1..];
      InsertKeepsNewestFirst(rows[0], SortNewestFirst(rows[1..], at), at);
      InsertNewestFirst(rows[0], SortNewestFirst(rows[1..], at), at)
  }

  /** The length of the longest key of the table. */
  function LongestKey<T>(rows: seq<T>, key: T -> string): (n: nat)
    ensures forall i :: 0 <= i < |rows| ==> |key(rows[i])| <= n
  {
    if rows == [] then 0
    else
      var m := LongestKey(rows[1..], key);
      if |key(rows[0])| > m then |key(rows[0])| else m
  }

  /** The store can always generate a string key the table does not use yet. */
  lemma FreshKeyExists<T>(rows: seq<T>, key: T -> string)
    ensures exists k :: Lookup(rows, key, k).None?
  {
    var k := seq(LongestKey(rows, key) + 1, _ => 'x');
    assert Lookup(rows, key, k).None?;
  }
}
