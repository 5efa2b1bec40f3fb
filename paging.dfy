/** PagedResult: one page of a query's rows plus the row count before paging. */
module Paging {

  datatype PagedResult<T> = PagedResult(items: seq<T>, total: int, page: int, pageSize: int) {

    /** `TotalPages`: the number of pages of `pageSize` rows needed for
        `total` rows, the ceiling of their quotient. */
    function TotalPages(): (r: int)
      requires pageSize > 0
      ensures r * pageSize >= total
      ensures (r - 1) * pageSize < total
      ensures total == 0 ==> r == 0
      ensures total > 0 ==> r > 0
    {
      var q := -((-total) / pageSize);
      CeilingBounds(total, pageSize);
      q
    }
  }

  /** The two inequalities that pin down the ceiling of `t / p`, for the
      negated Euclidean quotient. */
  lemma CeilingBounds(t: int, p: int)
    requires p > 0
    ensures -((-t) / p) * p >= t
    ensures (-((-t) / p) - 1) * p < t
    ensures t == 0 ==> -((-t) / p) == 0
    ensures t > 0 ==> -((-t) / p) > 0
  {
    var q := (-t) / p;
    var m := (-t) % p;
    assert -t == q * p + m && 0 <= m < p;
    assert -q * p == t + m;
    assert (-q - 1) * p == t + m - p;
    if t > 0 && q >= 0 {
      MultiplyMonotone(0, q, p);
    }
  }

  /** The page count is the least count that holds every row. */
  lemma TotalPagesIsLeast(r: PagedResult, k: int)
    requires r.pageSize > 0
    requires k * r.pageSize >= r.total
    ensures r.TotalPages() <= k
  {
    var n := r.TotalPages();
    if k < n {
      assert k <= n - 1;
      MultiplyMonotone(k, n - 1, r.pageSize);
    }
  }

  lemma MultiplyMonotone(a: int, b: int, p: int)
    requires a <= b && p > 0
    ensures a * p <= b * p
  {
  }

  /** SQLite OFFSET: a negative offset skips nothing. */
  function Skip<T>(rows: seq<T>, n: int): seq<T> {
    if n <= 0 then rows else if n >= |rows| then [] else rows[n..]
  }

  /** SQLite LIMIT: a negative limit means no limit. */
  function Take<T>(rows: seq<T>, n: int): seq<T> {
    if n < 0 || n >= |rows| then rows else rows[..n]
  }

  /** The offset of a page: the rows of the earlier pages. */
  function Offset(page: int, pageSize: int): int {
    (page - 1) * pageSize
  }

  /** Where OFFSET `offset` then LIMIT `limit` start and end in `len` rows. */
  function WindowStart(len: nat, offset: int): (lo: nat)
    ensures lo <= len
    ensures 0 <= offset <= len ==> lo == offset
  {
    if offset <= 0 then 0 else if offset >= len then len else offset
  }

  function WindowEnd(len: nat, offset: int, limit: int): (hi: nat)
    ensures WindowStart(len, offset) <= hi <= len
    ensures limit >= 0 ==> hi - WindowStart(len, offset) <= limit
    ensures limit >= 0 && WindowStart(len, offset) + limit <= len ==> hi == WindowStart(len, offset) + limit
    ensures limit < 0 ==> hi == len
  {
    var lo := WindowStart(len, offset);
    if limit < 0 || lo + limit >= len then len else lo + limit
  }

  /** OFFSET then LIMIT cuts one contiguous window out of the rows, never
      longer than a non-negative limit. */
  lemma SkipTakeIsWindow<T>(rows: seq<T>, offset: int, limit: int)
    ensures Take(Skip(rows, offset), limit)
            == rows[WindowStart(|rows|, offset)..WindowEnd(|rows|, offset, limit)]
  {
  }

  /** Position `i` of the ordered rows lies on page `i / pageSize + 1`. */
  lemma PageOfPosition(i: nat, pageSize: int)
    requires pageSize > 0
    ensures 0 <= Offset(i / pageSize + 1, pageSize) <= i < Offset(i / pageSize + 1, pageSize) + pageSize
  {
    var k := i / pageSize;
    assert Offset(k + 1, pageSize) == k * pageSize;
    assert i == k * pageSize + i % pageSize;
    MultiplyMonotone(0, k, pageSize);
  }

  /** Row `i` is inside the window of page `i / pageSize + 1`. */
  lemma RowInItsWindow<T>(rows: seq<T>, i: nat, pageSize: int)
    requires pageSize > 0 && i < |rows|
    ensures var offset := Offset(i / pageSize + 1, pageSize);
            rows[i] in rows[WindowStart(|rows|, offset)..WindowEnd(|rows|, offset, pageSize)]
  {
    var offset := Offset(i / pageSize + 1, pageSize);
    PageOfPosition(i, pageSize);
    var lo, hi := WindowStart(|rows|, offset), WindowEnd(|rows|, offset, pageSize);
    assert lo == offset && lo <= i < hi;
    assert rows[i] == rows[lo..hi][i - lo];
  }
}
