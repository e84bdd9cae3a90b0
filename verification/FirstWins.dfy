/**
 Inserting rows with "on conflict do nothing" into a table with a unique key,
 and reading a log at least once.
 */
module FirstWins {
  function Insert<K, V>(t: map<K, V>, row: (K, V)): map<K, V> {
    if row.0 in t then t else t[row.0 := row.1]
  }

  /** One statement inserting all rows, in order. */
  function InsertAll<K, V>(t: map<K, V>, rows: seq<(K, V)>): map<K, V> {
    if rows == [] then t else Insert(InsertAll(t, rows[..|rows| - 1]), rows[|rows| - 1])
  }

  /** Where a key first occurs among the rows, or their number if it does not. */
  function FirstIndex<K(==), V>(rows: seq<(K, V)>, key: K): (i: nat)
    ensures i <= |rows|
    ensures i < |rows| ==> rows[i].0 == key
    ensures forall j :: 0 <= j < i ==> rows[j].0 != key
  {
    if rows == [] then 0
    else if rows[0].0 == key then 0
    else
      var i := FirstIndex(rows[1..], key);
      assert forall j :: 1 <= j < i + 1 ==> rows[j] == rows[1..][j - 1];
      i + 1
  }

  lemma FirstIndexUnique<K, V>(rows: seq<(K, V)>, key: K, i: nat)
    requires i <= |rows| && (i < |rows| ==> rows[i].0 == key)
    requires forall j :: 0 <= j < i ==> rows[j].0 != key
    ensures FirstIndex(rows, key) == i
  {
  }

  /** The table holds, for each key, the row it held already or else the first one inserted. */
  lemma {:induction false} InsertAllExactly<K, V>(t: map<K, V>, rows: seq<(K, V)>, key: K)
    ensures key in InsertAll(t, rows) <==> key in t || FirstIndex(rows, key) < |rows|
    ensures key in InsertAll(t, rows) ==>
      InsertAll(t, rows)[key] == if key in t then t[key] else rows[FirstIndex(rows, key)].1
  {
    if rows != [] {
      var before := rows[..|rows| - 1];
      InsertAllExactly(t, before, key);
      var i := FirstIndex(before, key);
      if i < |before| {
        FirstIndexUnique(rows, key, i);
      } else if rows[|rows| - 1].0 == key {
        FirstIndexUnique(rows, key, |rows| - 1);
      } else {
        FirstIndexUnique(rows, key, |rows|);
      }
    }
  }

  lemma {:induction false} InsertConcat<K, V>(t: map<K, V>, a: seq<(K, V)>, b: seq<(K, V)>)
    ensures InsertAll(InsertAll(t, a), b) == InsertAll(t, a + b)
    decreases |b|
  {
    if b == [] {
      assert a + b == a;
    } else {
      InsertConcat(t, a, b[..|b| - 1]);
      assert (a + b)[..|a + b| - 1] == a + b[..|b| - 1];
    }
  }

  /** Rows that are already there change nothing. */
  lemma {:induction false} InsertKnown<K, V>(t: map<K, V>, rows: seq<(K, V)>)
    requires forall r :: r in rows ==> r.0 in t
    ensures InsertAll(t, rows) == t
  {
    if rows != [] {
      InsertKnown(t, rows[..|rows| - 1]);
    }
  }

  lemma InsertedKeys<K, V>(t: map<K, V>, rows: seq<(K, V)>, r: (K, V))
    requires r in rows
    ensures r.0 in InsertAll(t, rows)
  {
    InsertAllExactly(t, rows, r.0);
  }

  /** Inserting rows a second time changes nothing. */
  lemma InsertAgain<K, V>(p: seq<(K, V)>, s: seq<(K, V)>, t: seq<(K, V)>)
    ensures InsertAll(InsertAll(map[], p + (s + t)), s) == InsertAll(map[], p + (s + t))
  {
    hide InsertAll;
    var all := p + (s + t);
    forall r | r in s ensures r.0 in InsertAll(map[], all) {
      assert r in s + t;
      InsertedKeys(map[], all, r);
    }
    InsertKnown(InsertAll(map[], all), s);
  }
}
