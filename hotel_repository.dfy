/** HotelRepository: the filtered, name-ordered, paged hotel search and the
    CRUD operations on the Hotels table.

    The search reads the table in ascending id order (the order SQLite scans
    it in), keeps the rows that pass the query's filters, orders them by name
    with SQLite's binary collation (code point by code point) keeping equal
    names in table order, and cuts out one page with OFFSET and LIMIT. */
module HotelRepository {
  import opened Common
  import opened Entities
  import opened Data
  import opened Paging

  /** HotelQueryDto; its defaults are page 1 of 10 rows. */
  datatype HotelQuery = HotelQuery(
    page: int,
    pageSize: int,
    search: Option<string>,
    city: Option<string>,
    country: Option<string>,
    minStarRating: Option<int>)

  const DefaultQuery := HotelQuery(1, 10, None, None, None, None)

  // ---------------------------------------------------------------------------
  // Filtering

  /** The search clause: an empty search keeps every hotel; otherwise the
      text must occur in the name or in a description that is not null. */
  predicate SearchClause(h: Hotel, search: Option<string>) {
    IsNullOrEmpty(search)
    || Contains(h.name, search.value)
    || (h.description.Some? && Contains(h.description.value, search.value))
  }

  predicate CityClause(h: Hotel, city: Option<string>) {
    IsNullOrEmpty(city) || h.city == city.value
  }

  predicate CountryClause(h: Hotel, country: Option<string>) {
    IsNullOrEmpty(country) || h.country == country.value
  }

  predicate StarClause(h: Hotel, minStarRating: Option<int>) {
    minStarRating.None? || h.starRating >= minStarRating.value
  }

  /** The four `Where` clauses applied in turn. */
  predicate Matches(h: Hotel, q: HotelQuery) {
    && SearchClause(h, q.search)
    && CityClause(h, q.city)
    && CountryClause(h, q.country)
    && StarClause(h, q.minStarRating)
  }

  /** The filter as a row predicate; it depends on the four filter fields
      only, not on the page asked for. */
  function Criterion(search: Option<string>, city: Option<string>, country: Option<string>,
                     minStarRating: Option<int>): Hotel -> bool
  {
    h => SearchClause(h, search) && CityClause(h, city) && CountryClause(h, country)
         && StarClause(h, minStarRating)
  }

  function MatchesQuery(q: HotelQuery): Hotel -> bool {
    Criterion(q.search, q.city, q.country, q.minStarRating)
  }

  /** The rows that pass the filters, in their original order. */
  function Filter(rows: seq<Hotel>, q: HotelQuery): (r: seq<Hotel>)
    ensures forall h :: h in r <==> h in rows && Matches(h, q)
    ensures multiset(r) <= multiset(rows)
  {
    Where(rows, MatchesQuery(q))
  }

  /** A query with no filter set keeps every row. */
  lemma {:induction false} EmptyQueryKeepsAll(rows: seq<Hotel>, page: int, pageSize: int)
    ensures Filter(rows, HotelQuery(page, pageSize, None, None, None, None)) == rows
  {
    if rows != [] {
      EmptyQueryKeepsAll(rows[1..], page, pageSize);
      assert rows == [rows[0]] + rows[1..];
    }
  }

  // ---------------------------------------------------------------------------
  // Ordering

  /** SQLite's BINARY collation on names: lexicographic by code point. */
  predicate NameLe(a: string, b: string)
    decreases |a|
  {
    a == [] || (b != [] && (a[0] < b[0] || (a[0] == b[0] && NameLe(a[1..], b[1..]))))
  }

  lemma {:induction false} NameLeTotal(a: string, b: string)
    ensures NameLe(a, b) || NameLe(b, a)
    decreases |a|
  {
    if a != [] && b != [] && a[0] == b[0] {
      NameLeTotal(a[1..], b[1..]);
    }
  }

  lemma {:induction false} NameLeTransitive(a: string, b: string, c: string)
    requires NameLe(a, b) && NameLe(b, c)
    ensures NameLe(a, c)
    decreases |a|
  {
    if a != [] && b != [] && c != [] && a[0] == b[0] == c[0] {
      NameLeTransitive(a[1..], b[1..], c[1..]);
    }
  }

  lemma {:induction false} NameLeAntisymmetric(a: string, b: string)
    requires NameLe(a, b) && NameLe(b, a)
    ensures a == b
    decreases |a|
  {
    if a != [] {
      NameLeAntisymmetric(a[1..], b[1..]);
      assert a == [a[0]] + a[1..] && b == [b[0]] + b[1..];
    }
  }

  ghost predicate SortedByName(rows: seq<Hotel>) {
    forall i, j :: 0 <= i < j < |rows| ==> NameLe(rows[i].name, rows[j].name)
  }

  /** Places `h` before the first row whose name is not smaller, so rows
      inserted later keep their relative order among equal names. */
  function InsertByName(h: Hotel, rows: seq<Hotel>): seq<Hotel> {
    if rows == [] then [h]
    else if NameLe(h.name, rows[0].name) then [h] + rows
    else [rows[0]] + InsertByName(h, rows[1..])
  }

  lemma {:induction false} InsertByNamePermutes(h: Hotel, rows: seq<Hotel>)
    ensures multiset(InsertByName(h, rows)) == multiset(rows) + multiset{h}
  {
    if rows != [] && !NameLe(h.name, rows[0].name) {
      InsertByNamePermutes(h, rows[1..]);
      assert rows == [rows[0]] + rows[1..];
    }
  }

  /** A row no greater than any row of a sorted sequence can go in front. */
  lemma ConsSorted(x: Hotel, rows: seq<Hotel>)
    requires SortedByName(rows)
    requires forall j :: 0 <= j < |rows| ==> NameLe(x.name, rows[j].name)
    ensures SortedByName([x] + rows)
  {
    var r := [x] + rows;
    forall i, j | 0 <= i < j < |r| ensures NameLe(r[i].name, r[j].name) {
      if i > 0 {
        assert r[i] == rows[i - 1] && r[j] == rows[j - 1];
      }
    }
  }

  /** In a sorted sequence, a row no greater than the first is no greater
      than any. */
  lemma BelowFirstIsBelowAll(x: Hotel, rows: seq<Hotel>)
    requires SortedByName(rows) && rows != [] && NameLe(x.name, rows[0].name)
    ensures forall j :: 0 <= j < |rows| ==> NameLe(x.name, rows[j].name)
  {
    forall j | 0 < j < |rows| ensures NameLe(x.name, rows[j].name) {
      NameLeTransitive(x.name, rows[0].name, rows[j].name);
    }
  }

  /** Every row of `InsertByName(h, rows)` is `h` or a row of `rows`. */
  lemma InsertedRowsFrom(h: Hotel, rows: seq<Hotel>, x: Hotel)
    requires x in InsertByName(h, rows)
    ensures x == h || x in rows
  {
    InsertByNamePermutes(h, rows);
    assert x in multiset(InsertByName(h, rows));
  }

  lemma {:induction false} InsertByNameSorted(h: Hotel, rows: seq<Hotel>)
    requires SortedByName(rows)
    ensures SortedByName(InsertByName(h, rows))
  {
    if rows == [] {
    } else if NameLe(h.name, rows[0].name) {
      BelowFirstIsBelowAll(h, rows);
      ConsSorted(h, rows);
    } else {
      NameLeTotal(h.name, rows[0].name);
      var tail := InsertByName(h, rows[1..]);
      InsertByNameSorted(h, rows[1..]);
      forall j | 0 <= j < |tail| ensures NameLe(rows[0].name, tail[j].name) {
        InsertedRowsFrom(h, rows[1..], tail[j]);
      }
      ConsSorted(rows[0], tail);
    }
  }

  /** `OrderBy(h => h.Name)`: a stable insertion sort, ordered and a
      permutation of its input. */
  function SortByName(rows: seq<Hotel>): (r: seq<Hotel>)
    ensures SortedByName(r)
    ensures multiset(r) == multiset(rows)
  {
    if rows == [] then []
    else
      var sortedTail := SortByName(rows[1..]);
      InsertByNameSorted(rows[0], sortedTail);
      InsertByNamePermutes(rows[0], sortedTail);
      assert rows == [rows[0]] + rows[1..];
      InsertByName(rows[0], sortedTail)
  }

  // ---------------------------------------------------------------------------
  // Paging

  /** The table's rows in id order. */
  function TableRows(hotels: map<int, Hotel>, n: int): (rows: seq<Hotel>)
    requires forall k :: k in hotels ==> 0 < k < n
    ensures forall h :: h in rows <==> h in hotels.Values
  {
    var ids := IdsBelow(hotels, n);
    var rows := RowsOf(hotels, ids);
    assert forall h :: h in hotels.Values ==> h in rows by {
      forall h | h in hotels.Values ensures h in rows {
        var k :| k in hotels && hotels[k] == h;
        var i :| 0 <= i < |ids| && ids[i] == k;
        assert rows[i] == h;
      }
    }
    rows
  }

  /** The `CountAsync` of the filtered query: one per matching hotel id. */
  lemma CountIsMatchingIds(hotels: map<int, Hotel>, n: int, q: HotelQuery)
    requires forall k :: k in hotels ==> 0 < k < n
    ensures |Filter(TableRows(hotels, n), q)| == |set id | id in hotels && Matches(hotels[id], q)|
  {
    var ids := IdsBelow(hotels, n);
    assert TableRows(hotels, n) == RowsOf(hotels, ids);
    WhereCount(hotels, ids, MatchesQuery(q));
    MatchingIdsOfTable(hotels, n, q);
  }

  /** The ids of the table whose hotels pass the filters. */
  lemma MatchingIdsOfTable(hotels: map<int, Hotel>, n: int, q: HotelQuery)
    requires forall k :: k in hotels ==> 0 < k < n
    ensures MatchingIds(hotels, IdsBelow(hotels, n), MatchesQuery(q))
            == set id | id in hotels && Matches(hotels[id], q)
  {
    var ids := IdsBelow(hotels, n);
    var p := MatchesQuery(q);
    forall id | id in hotels
      ensures p(hotels[id]) == Matches(hotels[id], q)
    {
    }
  }

  /** The filtered rows of the table in name order, before paging. */
  function OrderedMatches(hotels: map<int, Hotel>, n: int, q: HotelQuery): (r: seq<Hotel>)
    requires forall k :: k in hotels ==> 0 < k < n
    ensures forall h :: h in r <==> h in hotels.Values && Matches(h, q)
    ensures SortedByName(r)
    ensures multiset(r) == multiset(Filter(TableRows(hotels, n), q))
  {
    var matching := Filter(TableRows(hotels, n), q);
    var r := SortByName(matching);
    assert forall h :: h in r <==> h in matching by {
      forall h ensures h in r <==> h in matching {
        assert h in r <==> h in multiset(r);
        assert h in matching <==> h in multiset(matching);
      }
    }
    r
  }

  /** GetPagedAsync over a table whose ids lie below `n`. */
  function GetPaged(hotels: map<int, Hotel>, n: int, q: HotelQuery): (r: PagedResult<Hotel>)
    requires forall k :: k in hotels ==> 0 < k < n
    ensures r.page == q.page && r.pageSize == q.pageSize
    ensures r.total == |set id | id in hotels && Matches(hotels[id], q)|
  {
    var queryable := Filter(TableRows(hotels, n), q);
    var total := |queryable|;
    CountIsMatchingIds(hotels, n, q);
    var items := Take(Skip(OrderedMatches(hotels, n, q), Offset(q.page, q.pageSize)), q.pageSize);
    PagedResult(items, total, q.page, q.pageSize)
  }

  /** A page is the window of the ordered matches after the earlier pages. */
  lemma PageIsWindow(hotels: map<int, Hotel>, n: int, q: HotelQuery)
    requires forall k :: k in hotels ==> 0 < k < n
    ensures var all := OrderedMatches(hotels, n, q);
            var offset := Offset(q.page, q.pageSize);
            GetPaged(hotels, n, q).items
              == all[WindowStart(|all|, offset)..WindowEnd(|all|, offset, q.pageSize)]
  {
    SkipTakeIsWindow(OrderedMatches(hotels, n, q), Offset(q.page, q.pageSize), q.pageSize);
  }

  /** A window of a sorted sequence is sorted. */
  lemma SortedWindow(rows: seq<Hotel>, lo: nat, hi: nat)
    requires SortedByName(rows) && lo <= hi <= |rows|
    ensures SortedByName(rows[lo..hi])
  {
    var w := rows[lo..hi];
    forall i, j | 0 <= i < j < |w| ensures NameLe(w[i].name, w[j].name) {
      assert w[i] == rows[lo + i] && w[j] == rows[lo + j];
    }
  }

  /** A page holds only matching hotels, in name order, and never more than
      `PageSize` of them. */
  lemma PageItems(hotels: map<int, Hotel>, n: int, q: HotelQuery)
    requires forall k :: k in hotels ==> 0 < k < n
    ensures var items := GetPaged(hotels, n, q).items;
            && (forall h :: h in items ==> h in hotels.Values && Matches(h, q))
            && SortedByName(items)
            && (q.pageSize >= 0 ==> |items| <= q.pageSize)
  {
    var all := OrderedMatches(hotels, n, q);
    var offset := Offset(q.page, q.pageSize);
    PageIsWindow(hotels, n, q);
    var lo, hi := WindowStart(|all|, offset), WindowEnd(|all|, offset, q.pageSize);
    SortedWindow(all, lo, hi);
    assert forall h :: h in all[lo..hi] ==> h in all;
  }

  /** The total counts every matching hotel, whatever page is asked for. */
  lemma TotalIndependentOfPage(hotels: map<int, Hotel>, n: int, q: HotelQuery, page: int, pageSize: int)
    requires forall k :: k in hotels ==> 0 < k < n
    ensures GetPaged(hotels, n, q.(page := page, pageSize := pageSize)).total == GetPaged(hotels, n, q).total
  {
  }

  /** Every matching hotel appears on the page that covers its position in
      name order. */
  lemma MatchOnItsPage(hotels: map<int, Hotel>, n: int, q: HotelQuery, i: nat)
    requires forall k :: k in hotels ==> 0 < k < n
    requires q.pageSize > 0
    requires i < |OrderedMatches(hotels, n, q)|
    ensures OrderedMatches(hotels, n, q)[i] in GetPaged(hotels, n, q.(page := i / q.pageSize + 1)).items
  {
    var q' := q.(page := i / q.pageSize + 1);
    assert MatchesQuery(q') == MatchesQuery(q);
    assert OrderedMatches(hotels, n, q') == OrderedMatches(hotels, n, q);
    PageIsWindow(hotels, n, q');
    RowInItsWindow(OrderedMatches(hotels, n, q), i, q.pageSize);
  }

  // ---------------------------------------------------------------------------
  // CRUD

  /** GetByIdAsync. */
  function GetById(hotels: map<int, Hotel>, id: int): (r: Option<Hotel>)
    ensures r.Some? <==> id in hotels
    ensures r.Some? ==> r.value == hotels[id]
  {
    if id in hotels then Some(hotels[id]) else None
  }

  /** ExistsAsync. */
  predicate Exists(hotels: map<int, Hotel>, id: int) {
    exists k :: k in hotels && hotels[k].id == id
  }

  lemma ExistsIffFound(hotels: map<int, Hotel>, id: int)
    requires forall k :: k in hotels ==> hotels[k].id == k
    ensures Exists(hotels, id) <==> GetById(hotels, id).Some?
  {
    if id in hotels {
      assert hotels[id].id == id;
    }
  }

  /** CreateAsync: the new hotel gets a positive id and is found by it. */
  method Create(db: Database, hotel: Hotel, now: Instant) returns (created: Hotel)
    requires db.Valid()
    modifies db`hotels, db`nextHotelId
    ensures db.Valid()
    ensures created == hotel.(id := old(db.nextHotelId), createdAt := now)
    ensures created.id > 0 && created.id !in old(db.hotels)
    ensures db.hotels == old(db.hotels)[created.id := created]
    ensures GetById(db.hotels, created.id) == Some(created)
  {
    created := hotel.(id := db.nextHotelId, createdAt := now);
    db.hotels := db.hotels[created.id := created];
    db.nextHotelId := db.nextHotelId + 1;
  }

  /** UpdateAsync: stamps UpdatedAt and replaces the stored row. */
  method Update(db: Database, hotel: Hotel, now: Instant) returns (updated: Hotel)
    requires db.Valid() && hotel.id in db.hotels
    modifies db`hotels
    ensures db.Valid()
    ensures updated == hotel.(updatedAt := Some(now))
    ensures db.hotels == old(db.hotels)[hotel.id := updated]
    ensures GetById(db.hotels, hotel.id) == Some(updated)
  {
    updated := hotel.(updatedAt := Some(now));
    db.hotels := db.hotels[hotel.id := updated];
  }

  /** DeleteAsync: false for an absent id; otherwise the hotel is gone. */
  method Delete(db: Database, id: int) returns (deleted: bool)
    requires db.Valid()
    modifies db`hotels
    ensures db.Valid()
    ensures deleted <==> id in old(db.hotels)
    ensures db.hotels == old(db.hotels) - {id}
    ensures GetById(db.hotels, id) == None
  {
    if id !in db.hotels {
      return false;
    }
    db.hotels := db.hotels - {id};
    return true;
  }
}
