/** A many-to-many link table (HotelFacilities, RoomAmenities) as the row
    sequence it is: the database declares no key on it, so only the services'
    own "already linked?" test keeps pairs from repeating. */
module LinkTable {

  /** No pair occurs twice. */
  ghost predicate NoDuplicates<T>(rows: seq<T>) {
    forall i, j :: 0 <= i < j < |rows| ==> rows[i] != rows[j]
  }

  /** The position `FirstOrDefault` stops at: the first row equal to `x`. */
  function FirstOccurrence<T(==)>(rows: seq<T>, x: T): (i: nat)
    requires x in rows
    ensures i < |rows| && rows[i] == x
    ensures x !in rows[..i]
  {
    if rows[0] == x then 0
    else
      assert rows == [rows[0]] + rows[1..];
      var j := FirstOccurrence(rows[1..], x);
      assert rows[1..][..j] == rows[1..j + 1];
      assert rows[..j + 1] == [rows[0]] + rows[1..j + 1];
      j + 1
  }

  /** The table after removing the first row equal to `x`, if there is one. */
  function RemoveFirst<T(==)>(rows: seq<T>, x: T): (r: seq<T>)
    ensures x !in rows ==> r == rows
    ensures x in rows ==> |r| == |rows| - 1
    ensures multiset(r) == multiset(rows) - multiset{x}
  {
    if x !in rows then rows
    else
      var i := FirstOccurrence(rows, x);
      assert rows == rows[..i] + [x] + rows[i + 1..];
      rows[..i] + rows[i + 1..]
  }

  /** Appending a pair that is not yet there keeps the table free of
      duplicates, and the pair is then present exactly once. */
  lemma AppendFreshKeepsNoDuplicates<T>(rows: seq<T>, x: T)
    requires NoDuplicates(rows) && x !in rows
    ensures NoDuplicates(rows + [x])
    ensures multiset(rows + [x])[x] == 1
  {
    assert multiset(rows)[x] == 0;
    forall i, j | 0 <= i < j < |rows + [x]|
      ensures (rows + [x])[i] != (rows + [x])[j]
    {
      if j == |rows| {
        assert (rows + [x])[i] == rows[i] && rows[i] in rows;
      }
    }
  }

  /** Cutting row `i` out keeps the rows before it and shifts every later
      row down by one. */
  lemma CutShifts<T>(rows: seq<T>, i: nat, r: seq<T>)
    requires i < |rows| && r == rows[..i] + rows[i + 1..]
    ensures |r| == |rows| - 1
    ensures forall k :: 0 <= k < i ==> r[k] == rows[k]
    ensures forall k :: i <= k < |r| ==> r[k] == rows[k + 1]
  {
  }

  /** Cutting a row out of a table without duplicates leaves one. */
  lemma CutKeepsNoDuplicates<T>(rows: seq<T>, i: nat)
    requires NoDuplicates(rows) && i < |rows|
    ensures NoDuplicates(rows[..i] + rows[i + 1..])
  {
    var r := rows[..i] + rows[i + 1..];
    CutShifts(rows, i, r);
    forall a, b | 0 <= a < b < |r|
      ensures r[a] != r[b]
    {
      var a' := if a < i then a else a + 1;
      var b' := if b < i then b else b + 1;
      assert r[a] == rows[a'] && r[b] == rows[b'] && a' < b';
    }
  }

  /** Cutting row `i` out of a table without duplicates removes exactly the
      value at `i`. */
  lemma CutRemovesOnlyThatRow<T>(rows: seq<T>, i: nat)
    requires NoDuplicates(rows) && i < |rows|
    ensures forall y :: y in rows[..i] + rows[i + 1..] <==> y in rows && y != rows[i]
  {
    var r := rows[..i] + rows[i + 1..];
    CutShifts(rows, i, r);
    forall k | 0 <= k < |r|
      ensures r[k] != rows[i]
    {
      var k' := if k < i then k else k + 1;
      assert r[k] == rows[k'] && k' != i;
    }
    forall y | y in rows && y != rows[i]
      ensures y in r
    {
      var m :| 0 <= m < |rows| && rows[m] == y;
      var m' := if m < i then m else m - 1;
      assert r[m'] == y;
    }
  }

  /** In a table without duplicates, removal deletes exactly that pair and
      keeps every other one, and the table stays free of duplicates. */
  lemma RemoveFirstKeepsNoDuplicates<T>(rows: seq<T>, x: T)
    requires NoDuplicates(rows)
    ensures NoDuplicates(RemoveFirst(rows, x))
    ensures x !in RemoveFirst(rows, x)
    ensures forall y :: y in RemoveFirst(rows, x) <==> y in rows && y != x
  {
    if x in rows {
      var i := FirstOccurrence(rows, x);
      CutKeepsNoDuplicates(rows, i);
      CutRemovesOnlyThatRow(rows, i);
    }
  }

  /** Adding a new pair and then removing it restores the table. */
  lemma {:induction false} AddThenRemoveRestores<T>(rows: seq<T>, x: T)
    requires x !in rows
    ensures RemoveFirst(rows + [x], x) == rows
  {
    var i := FirstOccurrence(rows + [x], x);
    assert (rows + [x])[..i] == rows;
  }
}
