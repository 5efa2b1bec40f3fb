/** Small building blocks shared by every part of the model: nullable values,
    outcomes that carry an exception instead of a value, and the .NET string
    predicates the services test their arguments with. */
module Common {

  /** A C# nullable value (`string?`, `int?`, `DateTime?`): `None` is null. */
  datatype Option<+T> = None | Some(value: T) {
    /** The `??` operator. */
    function GetOr(default: T): T {
      match this
      case Some(v) => v
      case None => default
    }
  }

  /** The result of an operation that either returns a value or throws. */
  datatype Result<+T, +E> = Success(value: T) | Failure(error: E)

  /** `string.IsNullOrEmpty`. */
  predicate IsNullOrEmpty(s: Option<string>) {
    s.None? || s.value == ""
  }

  /** `char.IsWhiteSpace`: the Unicode separators plus the control characters
      U+0009..U+000D, U+0085. */
  predicate IsWhiteSpace(c: char) {
    c == ' ' || ('\t' <= c <= '\r') || c == '\U{85}' || c == '\U{A0}' || c == '\U{1680}'
    || ('\U{2000}' <= c <= '\U{200A}') || c == '\U{2028}' || c == '\U{2029}'
    || c == '\U{202F}' || c == '\U{205F}' || c == '\U{3000}'
  }

  /** `string.IsNullOrWhiteSpace`. */
  predicate IsNullOrWhiteSpace(s: Option<string>) {
    s.None? || forall i :: 0 <= i < |s.value| ==> IsWhiteSpace(s.value[i])
  }

  /** `needle` occurs in `haystack` starting at position `k`. */
  predicate OccursAt(haystack: string, needle: string, k: int) {
    0 <= k <= |haystack| - |needle| && haystack[k..k + |needle|] == needle
  }

  /** Ordinal `string.Contains(needle)`. */
  predicate Contains(haystack: string, needle: string) {
    exists k :: 0 <= k <= |haystack| && OccursAt(haystack, needle, k)
  }

  /** The partial-update rule for a required string field: the argument
      replaces the field only when it is neither null nor empty. */
  function PickString(arg: Option<string>, current: string): string {
    if IsNullOrEmpty(arg) then current else arg.value
  }

  /** The same rule for a nullable string field. */
  function PickNullableString(arg: Option<string>, current: Option<string>): Option<string> {
    if IsNullOrEmpty(arg) then current else arg
  }

  /** The partial-update rule for a nullable value argument (`HasValue`). */
  function PickValue<T>(arg: Option<T>, current: T): T {
    arg.GetOr(current)
  }

  /** `FirstOrDefault(p)` over a table in its row order: the index of the
      first row satisfying `p`, or `None`. */
  function FirstIndex<T>(rows: seq<T>, p: T -> bool): (r: Option<nat>)
    ensures r.Some? ==> r.value < |rows| && p(rows[r.value])
    ensures r.Some? ==> forall j :: 0 <= j < r.value ==> !p(rows[j])
    ensures r.None? ==> forall j :: 0 <= j < |rows| ==> !p(rows[j])
  {
    if rows == [] then None
    else if p(rows[0]) then Some(0)
    else
      match FirstIndex(rows[1..], p)
      case None => None
      case Some(i) => Some(i + 1)
  }

  /** `AnyAsync(p)`. */
  predicate Any<T>(rows: seq<T>, p: T -> bool) {
    exists i :: 0 <= i < |rows| && p(rows[i])
  }

  lemma FirstIndexFindsAny<T>(rows: seq<T>, p: T -> bool)
    ensures FirstIndex(rows, p).Some? <==> Any(rows, p)
  {
  }

  /** `Where(p)`: the rows satisfying `p`, in their original order. */
  function Where<T(!new)>(rows: seq<T>, p: T -> bool): (r: seq<T>)
    ensures |r| <= |rows|
    ensures forall x :: x in r <==> x in rows && p(x)
    ensures multiset(r) <= multiset(rows)
  {
    if rows == [] then []
    else
      assert rows == [rows[0]] + rows[1..];
      (if p(rows[0]) then [rows[0]] else []) + Where(rows[1..], p)
  }

  /** One row is kept exactly when it satisfies the predicate. */
  lemma WhereSingleton<T(!new)>(x: T, p: T -> bool)
    ensures Where([x], p) == if p(x) then [x] else []
  {
    assert [x][1..] == [];
  }

  /** Filtering a row in front of others. */
  lemma WhereCons<T(!new)>(x: T, rows: seq<T>, p: T -> bool)
    ensures Where([x] + rows, p) == (if p(x) then [x] else []) + Where(rows, p)
  {
    assert ([x] + rows)[0] == x && ([x] + rows)[1..] == rows;
  }

  /** Filtering distributes over concatenation, so the kept rows keep their
      order. */
  lemma {:induction false} WhereAppend<T(!new)>(a: seq<T>, b: seq<T>, p: T -> bool)
    ensures Where(a + b, p) == Where(a, p) + Where(b, p)
  {
    if a == [] {
      assert a + b == b;
    } else {
      var h := if p(a[0]) then [a[0]] else [];
      var t := a[1..];
      assert a == [a[0]] + t;
      assert a + b == [a[0]] + (t + b);
      calc {
        Where(a + b, p);
        == { WhereCons(a[0], t + b, p); }
        h + Where(t + b, p);
        == { WhereAppend(t, b, p); }
        h + (Where(t, p) + Where(b, p));
        ==
        (h + Where(t, p)) + Where(b, p);
        == { WhereCons(a[0], t, p); }
        Where(a, p) + Where(b, p);
      }
    }
  }

  /** Filtering keeps every copy of a satisfying row and no copy of any
      other. */
  lemma {:induction false} WhereKeepsMultiplicity<T(!new)>(rows: seq<T>, p: T -> bool, x: T)
    ensures multiset(Where(rows, p))[x] == if p(x) then multiset(rows)[x] else 0
  {
    if rows != [] {
      assert rows == [rows[0]] + rows[1..];
      WhereCons(rows[0], rows[1..], p);
      WhereKeepsMultiplicity(rows[1..], p, x);
    }
  }

  /** The keys of an identity-keyed table below `n`, ascending: the order
      SQLite reads the rows in. */
  function IdsBelow<V>(table: map<int, V>, n: int): (s: seq<int>)
    ensures forall i :: 0 <= i < |s| ==> s[i] in table && 0 < s[i] < n
    ensures forall x :: x in table && 0 < x < n ==> x in s
    ensures forall i, j :: 0 <= i < j < |s| ==> s[i] < s[j]
    decreases n
  {
    if n <= 1 then []
    else if n - 1 in table then IdsBelow(table, n - 1) + [n - 1]
    else IdsBelow(table, n - 1)
  }

  /** The rows of `table` listed by `ids`. */
  function RowsOf<V>(table: map<int, V>, ids: seq<int>): (rows: seq<V>)
    requires forall i :: 0 <= i < |ids| ==> ids[i] in table
    ensures |rows| == |ids|
    ensures forall i :: 0 <= i < |ids| ==> rows[i] == table[ids[i]]
  {
    seq(|ids|, i requires 0 <= i < |ids| => table[ids[i]])
  }

  /** The listed ids whose rows satisfy `p`. */
  ghost function MatchingIds<V>(table: map<int, V>, ids: seq<int>, p: V -> bool): set<int>
    requires forall i :: 0 <= i < |ids| ==> ids[i] in table
  {
    set x | x in ids && p(table[x])
  }

  lemma MatchingIdsCons<V>(table: map<int, V>, ids: seq<int>, p: V -> bool)
    requires forall i :: 0 <= i < |ids| ==> ids[i] in table
    requires ids != [] && ids[0] !in ids[1..]
    ensures |MatchingIds(table, ids, p)|
            == (if p(table[ids[0]]) then 1 else 0) + |MatchingIds(table, ids[1..], p)|
  {
    var all, tail := MatchingIds(table, ids, p), MatchingIds(table, ids[1..], p);
    assert forall x :: x in ids <==> x == ids[0] || x in ids[1..] by {
      assert ids == [ids[0]] + ids[1..];
    }
    if p(table[ids[0]]) {
      assert all == {ids[0]} + tail;
    } else {
      assert all == tail;
    }
  }

  /** `CountAsync` after `Where(p)` over distinct ids counts the ids whose
      rows satisfy `p`. */
  lemma {:induction false} WhereCount<V(!new)>(table: map<int, V>, ids: seq<int>, p: V -> bool)
    requires forall i :: 0 <= i < |ids| ==> ids[i] in table
    requires forall i, j :: 0 <= i < j < |ids| ==> ids[i] != ids[j]
    ensures |Where(RowsOf(table, ids), p)| == |MatchingIds(table, ids, p)|
  {
    if ids == [] {
      assert MatchingIds(table, ids, p) == {};
    } else {
      WhereCount(table, ids[1..], p);
      assert RowsOf(table, ids)[1..] == RowsOf(table, ids[1..]);
      MatchingIdsCons(table, ids, p);
    }
  }
}
