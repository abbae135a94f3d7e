/**
 * What the models need of Django's ORM: a table is a sequence of rows with
 * distinct primary keys, and `save()` of an object replaces the row with its
 * key or adds it.
 */
module Orm {
  import opened Wrappers

  /** The position of the row with primary key `pk`, if any. */
  function FindPk<T>(rows: seq<T>, pkOf: T -> Option<int>, pk: Option<int>): (r: Option<nat>)
    ensures r.Some? ==> r.value < |rows| && pkOf(rows[r.value]) == pk
    ensures r.None? ==> forall i :: 0 <= i < |rows| ==> pkOf(rows[i]) != pk
    decreases |rows|
  {
    if rows == [] then None
    else if pkOf(rows[|rows| - 1]) == pk then Some(|rows| - 1)
    else FindPk(rows[..|rows| - 1], pkOf, pk)
  }

  /** Every row has a key, below `nextPk`, and no two rows share one. */
  ghost predicate KeysValid<T>(rows: seq<T>, pkOf: T -> Option<int>, nextPk: int) {
    && (forall i :: 0 <= i < |rows| ==> pkOf(rows[i]).Some? && pkOf(rows[i]).value < nextPk)
    && (forall i, j :: 0 <= i < j < |rows| ==> pkOf(rows[i]) != pkOf(rows[j]))
  }

  /** The write of a row that has a key: an UPDATE of the row with that key, or an INSERT. */
  function Upsert<T>(rows: seq<T>, pkOf: T -> Option<int>, item: T): (r: seq<T>)
    ensures item in r
    ensures |rows| <= |r| <= |rows| + 1
    ensures |r| == |rows| + 1 ==> r[..|rows|] == rows
  {
    match FindPk(rows, pkOf, pkOf(item))
    case Some(i) => assert rows[i := item][i] == item; rows[i := item]
    case None => assert (rows + [item])[|rows|] == item; rows + [item]
  }

  /** Writing keeps every key distinct, and the written row is in the table afterwards. */
  lemma UpsertKeepsKeys<T>(rows: seq<T>, pkOf: T -> Option<int>, item: T, nextPk: int, nextPk': int)
    requires KeysValid(rows, pkOf, nextPk) && pkOf(item).Some?
    requires nextPk <= nextPk' && pkOf(item).value < nextPk'
    ensures KeysValid(Upsert(rows, pkOf, item), pkOf, nextPk')
    ensures item in Upsert(rows, pkOf, item)
    ensures forall i :: 0 <= i < |Upsert(rows, pkOf, item)| && pkOf(Upsert(rows, pkOf, item)[i]) != pkOf(item) ==>
              i < |rows| && Upsert(rows, pkOf, item)[i] == rows[i]
  {
    match FindPk(rows, pkOf, pkOf(item))
    case Some(at) => UpdateKeepsKeys(rows, pkOf, item, at, nextPk, nextPk');
    case None => InsertKeepsKeys(rows, pkOf, item, nextPk, nextPk');
  }

  /** The UPDATE case: the row at `at` already has the key of `item`, so the keys stay as they were. */
  lemma UpdateKeepsKeys<T>(rows: seq<T>, pkOf: T -> Option<int>, item: T, at: nat, nextPk: int, nextPk': int)
    requires KeysValid(rows, pkOf, nextPk) && pkOf(item).Some?
    requires nextPk <= nextPk' && pkOf(item).value < nextPk'
    requires at < |rows| && pkOf(rows[at]) == pkOf(item)
    ensures KeysValid(rows[at := item], pkOf, nextPk')
    ensures forall i :: 0 <= i < |rows| && pkOf(rows[at := item][i]) != pkOf(item) ==> rows[at := item][i] == rows[i]
  {
    assert forall i :: 0 <= i < |rows| ==> pkOf(rows[at := item][i]) == pkOf(rows[i]);
  }

  /** The INSERT case: no row has the key of `item`, so appending it keeps the keys distinct. */
  lemma InsertKeepsKeys<T>(rows: seq<T>, pkOf: T -> Option<int>, item: T, nextPk: int, nextPk': int)
    requires KeysValid(rows, pkOf, nextPk) && pkOf(item).Some?
    requires nextPk <= nextPk' && pkOf(item).value < nextPk'
    requires forall i :: 0 <= i < |rows| ==> pkOf(rows[i]) != pkOf(item)
    ensures KeysValid(rows + [item], pkOf, nextPk')
  {
    assert forall i :: 0 <= i < |rows| ==> (rows + [item])[i] == rows[i];
  }
}
