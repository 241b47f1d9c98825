/**
 * A stored table: its rows in insertion order, each carrying a store-assigned id.
 * `key` extracts the id of a row; the functions here are the primary-key operations
 * a JPA repository performs (find by id, save over an existing row, delete by id).
 */
module Table {
  import opened Common
  import opened Seqs

  /** Ids strictly increase along the table, so no two rows share an id. */
  predicate Ascending<T>(rows: seq<T>, key: T -> nat) {
    forall i, j :: 0 <= i < j < |rows| ==> key(rows[i]) < key(rows[j])
  }

  /** Every id was handed out by a counter that starts at 1 and now stands at `nextId`. */
  predicate WellFormed<T>(rows: seq<T>, key: T -> nat, nextId: nat) {
    && Ascending(rows, key)
    && forall i :: 0 <= i < |rows| ==> 1 <= key(rows[i]) < nextId
  }

  /** `findById`: the row with id `id`, if any. */
  function Lookup<T(==,!new)>(rows: seq<T>, key: T -> nat, id: int): (r: Option<T>)
    ensures r.Some? ==> r.value in rows && key(r.value) == id
    ensures r.None? ==> forall x :: x in rows ==> key(x) != id
  {
    if rows == [] then None
    else if key(rows[0]) == id then Some(rows[0])
    else
      assert forall x :: x in rows ==> x == rows[0] || x in rows[1..];
      Lookup(rows[1..], key, id)
  }

  lemma AscendingTail<T>(rows: seq<T>, key: T -> nat)
    requires Ascending(rows, key) && rows != []
    ensures Ascending(rows[1..], key)
  {
    forall i, j | 0 <= i < j < |rows[1..]| ensures key(rows[1..][i]) < key(rows[1..][j]) {
      assert rows[1..][i] == rows[i + 1] && rows[1..][j] == rows[j + 1];
    }
  }

  /** On a table with distinct ids, the lookup of a stored row's id finds exactly that row. */
  lemma {:induction false} LookupFinds<T(!new)>(rows: seq<T>, key: T -> nat, x: T)
    requires Ascending(rows, key) && x in rows
    ensures Lookup(rows, key, key(x)) == Some(x)
  {
    if rows[0] != x {
      var j :| 0 <= j < |rows| && rows[j] == x;
      assert j > 0 && key(rows[0]) < key(x);
      assert x in rows[1..] by { assert rows[1..][j - 1] == x; }
      AscendingTail(rows, key);
      LookupFinds(rows[1..], key, x);
    }
  }

  /** Two stored rows with the same id are the same row. */
  lemma SameIdSameRow<T(!new)>(rows: seq<T>, key: T -> nat, x: T, y: T)
    requires Ascending(rows, key) && x in rows && y in rows && key(x) == key(y)
    ensures x == y
  {
    LookupFinds(rows, key, x);
    LookupFinds(rows, key, y);
  }

  /** Saving an entity whose id is stored: the row with that id becomes `rec`. */
  function Replace<T>(rows: seq<T>, key: T -> nat, rec: T): (r: seq<T>)
    ensures |r| == |rows|
    ensures forall i :: 0 <= i < |rows| ==> key(r[i]) == key(rows[i])
  {
    seq(|rows|, i requires 0 <= i < |rows| => if key(rows[i]) == key(rec) then rec else rows[i])
  }

  /** After a replace, the saved id finds the new row and every other id finds what it found before. */
  lemma {:induction false} LookupReplace<T(!new)>(rows: seq<T>, key: T -> nat, rec: T, id: int)
    ensures Lookup(Replace(rows, key, rec), key, id) ==
            if id == key(rec) && Lookup(rows, key, id).Some? then Some(rec) else Lookup(rows, key, id)
  {
    if rows != [] {
      assert Replace(rows, key, rec)[1..] == Replace(rows[1..], key, rec);
      LookupReplace(rows[1..], key, rec, id);
    }
  }

  /** Saving twice over the same id leaves what the second save wrote. */
  lemma ReplaceTwice<T>(rows: seq<T>, key: T -> nat, a: T, b: T)
    requires key(a) == key(b)
    ensures Replace(Replace(rows, key, a), key, b) == Replace(rows, key, b)
  {
  }

  /** Saving a row that is already stored, unchanged, leaves the table as it was. */
  lemma ReplaceStored<T(!new)>(rows: seq<T>, key: T -> nat, x: T)
    requires Ascending(rows, key) && x in rows
    ensures Replace(rows, key, x) == rows
  {
    forall i | 0 <= i < |rows| ensures Replace(rows, key, x)[i] == rows[i] {
      if key(rows[i]) == key(x) {
        SameIdSameRow(rows, key, rows[i], x);
      }
    }
  }

  /** `saveAll` over entities that are all stored: each save replaces one row, in list order. */
  function ReplaceAll<T>(rows: seq<T>, key: T -> nat, recs: seq<T>): (r: seq<T>)
    ensures |r| == |rows|
    ensures forall i :: 0 <= i < |rows| ==> key(r[i]) == key(rows[i])
  {
    if recs == [] then rows
    else Replace(ReplaceAll(rows, key, recs[..|recs| - 1]), key, recs[|recs| - 1])
  }

  /** The batch of the first `k + 1` saves is the batch of the first `k` followed by one more. */
  lemma ReplaceAllPrefix<T>(rows: seq<T>, key: T -> nat, recs: seq<T>, k: nat)
    requires k < |recs|
    ensures ReplaceAll(rows, key, recs[..k + 1]) == Replace(ReplaceAll(rows, key, recs[..k]), key, recs[k])
  {
    assert recs[..k + 1][..k] == recs[..k];
  }

  /**
   * Writing back `g` of some stored rows (with `g` keeping ids) changes exactly those rows:
   * a row listed in `picked` becomes `g` of itself, every other row stays as it was.
   */
  lemma {:induction false} ReplaceAllMapped<T(!new)>(rows: seq<T>, key: T -> nat, picked: seq<T>, g: T -> T, i: nat)
    requires Ascending(rows, key)
    requires forall x :: x in picked ==> x in rows
    requires forall x :: key(g(x)) == key(x)
    requires i < |rows|
    ensures ReplaceAll(rows, key, Map(picked, g))[i] == if rows[i] in picked then g(rows[i]) else rows[i]
  {
    if picked != [] {
      var front, last := picked[..|picked| - 1], picked[|picked| - 1];
      var recs := Map(picked, g);
      assert recs[..|recs| - 1] == Map(front, g);
      assert forall x :: x in front ==> x in picked;
      ReplaceAllMapped(rows, key, front, g, i);
      var before := ReplaceAll(rows, key, Map(front, g));
      assert key(before[i]) == key(rows[i]);
      assert key(g(last)) == key(last);
      if key(rows[i]) == key(last) {
        SameIdSameRow(rows, key, rows[i], last);
      }
      assert picked == front + [last];
    }
  }

  /** `deleteById`: the rows whose id is not `id`. */
  function Remove<T(==,!new)>(rows: seq<T>, key: T -> nat, id: int): (r: seq<T>)
    ensures forall x :: x in r <==> x in rows && key(x) != id
  {
    Filter(rows, x => key(x) != id)
  }

  lemma {:induction false} FilterAscending<T(!new)>(rows: seq<T>, key: T -> nat, p: T -> bool)
    requires Ascending(rows, key)
    ensures Ascending(Filter(rows, p), key)
  {
    if rows != [] {
      AscendingTail(rows, key);
      FilterAscending(rows[1..], key, p);
      var tail := Filter(rows[1..], p);
      if p(rows[0]) {
        forall x | x in tail ensures key(rows[0]) < key(x) {
          var j :| 0 <= j < |rows[1..]| && rows[1..][j] == x;
          assert rows[j + 1] == x;
        }
        var r := [rows[0]] + tail;
        forall i, j | 0 <= i < j < |r| ensures key(r[i]) < key(r[j]) {
          assert r[j] == tail[j - 1];
          if i > 0 { assert r[i] == tail[i - 1]; }
        }
      }
    }
  }

  /** Deleting keeps the table well formed; the counter is untouched, so a deleted id is never reissued. */
  lemma RemoveWellFormed<T(!new)>(rows: seq<T>, key: T -> nat, nextId: nat, id: int)
    requires WellFormed(rows, key, nextId)
    ensures WellFormed(Remove(rows, key, id), key, nextId)
  {
    FilterAscending(rows, key, x => key(x) != id);
    var r := Remove(rows, key, id);
    forall i | 0 <= i < |r| ensures 1 <= key(r[i]) < nextId {
      assert r[i] in rows;
    }
  }

  /** After a delete, the deleted id finds nothing and every other id finds what it found before. */
  lemma LookupRemove<T(!new)>(rows: seq<T>, key: T -> nat, nextId: nat, id: int, other: int)
    requires WellFormed(rows, key, nextId)
    ensures Lookup(Remove(rows, key, id), key, other) == if other == id then None else Lookup(rows, key, other)
  {
    var r := Remove(rows, key, id);
    RemoveWellFormed(rows, key, nextId, id);
    var found := Lookup(r, key, other);
    if found.Some? {
      LookupFinds(rows, key, found.value);
    }
  }

  /** Inserting a row under the next counter value keeps the table well formed. */
  lemma AppendWellFormed<T>(rows: seq<T>, key: T -> nat, nextId: nat, rec: T)
    requires WellFormed(rows, key, nextId) && key(rec) == nextId && nextId >= 1
    ensures WellFormed(rows + [rec], key, nextId + 1)
  {
  }

  /** After an insert, the new id finds the new row and every other id finds what it found before. */
  lemma LookupAppend<T(!new)>(rows: seq<T>, key: T -> nat, nextId: nat, rec: T, id: int)
    requires WellFormed(rows, key, nextId) && key(rec) == nextId && nextId >= 1
    ensures Lookup(rows + [rec], key, id) == if id == nextId then Some(rec) else Lookup(rows, key, id)
  {
    var r := rows + [rec];
    AppendWellFormed(rows, key, nextId, rec);
    var found := Lookup(r, key, id);
    if id == nextId {
      LookupFinds(r, key, rec);
    } else if found.Some? {
      assert found.value in rows;
      LookupFinds(rows, key, found.value);
    }
  }
}
