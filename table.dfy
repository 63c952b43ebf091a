/**
 * A database table as the model sees it: a sequence of rows in insertion
 * order, with the handful of queries the services run against it.
 */
module Table {
  import opened Wrappers

  /** Index of the first row whose key equals `k`: `query.filter(key == k).first()`. */
  function IndexOfKey<T, K(==)>(rows: seq<T>, key: T -> K, k: K): (r: Option<nat>)
    ensures r.Some? ==> r.value < |rows| && key(rows[r.value]) == k
    ensures r.Some? ==> forall j :: 0 <= j < r.value ==> key(rows[j]) != k
    ensures r.None? <==> forall j :: 0 <= j < |rows| ==> key(rows[j]) != k
  {
    if |rows| == 0 then None
    else if key(rows[0]) == k then Some(0)
    else
      match IndexOfKey(rows[1..], key, k)
      case None => None
      case Some(i) => Some(i + 1)
  }

  /**
   * Python truthiness of an optional id: `None` and `0` are false, so an
   * exclusion id of 0 (`if exclude_id:`) excludes nothing.
   */
  predicate IsTruthy(id: Option<int>) {
    id.Some? && id.value != 0
  }

  /** No two rows share a key: a `unique=True` column. */
  predicate UniqueBy<T, K(==)>(rows: seq<T>, key: T -> K) {
    forall i, j :: 0 <= i < j < |rows| ==> key(rows[i]) != key(rows[j])
  }

  /** The key the store gives a new row: one more than every key in the table. */
  function NextId<T>(rows: seq<T>, id: T -> int): (r: int)
    ensures r >= 1
    ensures forall j :: 0 <= j < |rows| ==> id(rows[j]) < r
  {
    if |rows| == 0 then 1
    else
      var m := NextId(rows[..|rows| - 1], id);
      var last := id(rows[|rows| - 1]);
      if last < m then m else last + 1
  }

  /** The table without its `k`-th row: `db.delete(row)`. */
  function RemoveAt<T>(rows: seq<T>, k: nat): (r: seq<T>)
    requires k < |rows|
    ensures |r| == |rows| - 1
    ensures forall j :: 0 <= j < k ==> r[j] == rows[j]
    ensures forall j :: k <= j < |r| ==> r[j] == rows[j + 1]
  {
    rows[..k] + rows[k + 1..]
  }

  /** `query.offset(skip).limit(limit).all()` over the rows in insertion order. */
  function Page<T>(rows: seq<T>, skip: nat, limit: nat): (r: seq<T>)
    ensures |r| <= limit
    ensures |r| == if skip + limit <= |rows| then limit else if skip <= |rows| then |rows| - skip else 0
    ensures forall j :: 0 <= j < |r| ==> skip + j < |rows| && r[j] == rows[skip + j]
  {
    var lo := if skip <= |rows| then skip else |rows|;
    var hi := if skip + limit <= |rows| then skip + limit else |rows|;
    rows[lo..hi]
  }

  /** Two consecutive pages together are the page that spans both. */
  lemma PagesConcatenate<T>(rows: seq<T>, skip: nat, l1: nat, l2: nat)
    ensures Page(rows, skip, l1) + Page(rows, skip + l1, l2) == Page(rows, skip, l1 + l2)
  {
    var a, b, c := Page(rows, skip, l1), Page(rows, skip + l1, l2), Page(rows, skip, l1 + l2);
    assert |a + b| == |c|;
    forall j | 0 <= j < |c| ensures (a + b)[j] == c[j] {
      if j < |a| {
      } else {
        assert b[j - |a|] == rows[skip + l1 + (j - |a|)];
      }
    }
  }

  /** Appending a row whose key is new keeps the keys unique. */
  lemma {:induction false} UniqueAppend<T, K>(rows: seq<T>, x: T, key: T -> K)
    requires UniqueBy(rows, key)
    requires IndexOfKey(rows, key, key(x)).None?
    ensures UniqueBy(rows + [x], key)
  {
    var r := rows + [x];
    forall i, j | 0 <= i < j < |r| ensures key(r[i]) != key(r[j]) {
      if j < |rows| {
        assert r[i] == rows[i] && r[j] == rows[j];
      } else {
        assert r[i] == rows[i];
      }
    }
  }

  /** Removing a row keeps the keys unique. */
  lemma {:induction false} UniqueRemove<T, K>(rows: seq<T>, k: nat, key: T -> K)
    requires k < |rows|
    requires UniqueBy(rows, key)
    ensures UniqueBy(RemoveAt(rows, k), key)
  {
    var r := RemoveAt(rows, k);
    forall i, j | 0 <= i < j < |r| ensures key(r[i]) != key(r[j]) {
      var i' := if i < k then i else i + 1;
      var j' := if j < k then j else j + 1;
      assert r[i] == rows[i'] && r[j] == rows[j'] && i' < j';
    }
  }

  /** Replacing a row by one whose key no other row holds keeps the keys unique. */
  lemma {:induction false} UniqueReplace<T, K>(rows: seq<T>, k: nat, x: T, key: T -> K)
    requires k < |rows|
    requires UniqueBy(rows, key)
    requires forall j :: 0 <= j < |rows| && j != k ==> key(rows[j]) != key(x)
    ensures UniqueBy(rows[k := x], key)
  {
    var r := rows[k := x];
    forall i, j | 0 <= i < j < |r| ensures key(r[i]) != key(r[j]) {
      if i == k {
        assert key(r[j]) == key(rows[j]);
      } else if j == k {
        assert key(r[i]) == key(rows[i]);
      } else {
        assert r[i] == rows[i] && r[j] == rows[j];
      }
    }
  }

  /** With unique keys, the row found by key is the only one holding it. */
  lemma UniqueLookup<T, K>(rows: seq<T>, key: T -> K, k: nat)
    requires k < |rows|
    requires UniqueBy(rows, key)
    ensures IndexOfKey(rows, key, key(rows[k])) == Some(k)
  {
  }
}
