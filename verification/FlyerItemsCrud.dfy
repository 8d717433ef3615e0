/** The two operations on the `flyer_items` table: storing extracted items
    (`create_flyer_items`) and reading back the recent ones of a store
    (`get_flyer_items_by_store`). The table is a sequence of rows, timestamps
    are integer microseconds and the current time is a parameter. */
module FlyerItemsCrud {
  import opened Wrappers

  // ------------------------------------------------------------ data model

  /** The units an extracted item may be sold by. */
  datatype SellingUnit = Pack | Bag | Lb | Kg | Each | Oz | G | Count | Bunch | Bottle | Tin | Canister

  /** The validated item as it arrives from extraction. */
  datatype FlyerItem = FlyerItem(
    name: string,
    price: real,
    sellingUnit: SellingUnit,
    sellingValue: Option<real>,
    measuredQuantityValue: Option<real>,
    measuredQuantityUnit: Option<string>,
    store: string,
    notes: Option<string>)

  /** A row of `flyer_items`. `id`, `extractedAt` and `createdAt` are filled in
      by the database; `None` is SQL NULL (or not yet assigned). */
  datatype FlyerItemRow = FlyerItemRow(
    id: Option<int>,
    name: string,
    price: real,
    sellingUnit: string,
    sellingValue: Option<real>,
    measuredQuantityValue: Option<real>,
    measuredQuantityUnit: Option<string>,
    store: string,
    notes: Option<string>,
    extractedAt: Option<int>,
    createdAt: Option<int>)

  /** How a unit is spelled in the `sellingUnit` column. */
  function UnitName(u: SellingUnit): string
  {
    match u
    case Pack => "pack"
    case Bag => "bag"
    case Lb => "lb"
    case Kg => "kg"
    case Each => "each"
    case Oz => "oz"
    case G => "g"
    case Count => "count"
    case Bunch => "bunch"
    case Bottle => "bottle"
    case Tin => "tin"
    case Canister => "canister"
  }

  /** The unit a column value spells, if it is one of the twelve. */
  function UnitOf(s: string): Option<SellingUnit>
  {
    if s == "pack" then Some(Pack)
    else if s == "bag" then Some(Bag)
    else if s == "lb" then Some(Lb)
    else if s == "kg" then Some(Kg)
    else if s == "each" then Some(Each)
    else if s == "oz" then Some(Oz)
    else if s == "g" then Some(G)
    else if s == "count" then Some(Count)
    else if s == "bunch" then Some(Bunch)
    else if s == "bottle" then Some(Bottle)
    else if s == "tin" then Some(Tin)
    else if s == "canister" then Some(Canister)
    else None
  }

  lemma UnitNameRoundTrip(u: SellingUnit)
    ensures UnitOf(UnitName(u)) == Some(u)
  {
  }

  // ------------------------------------------------------------ create

  /** The row built for one item, before the database assigns its id and timestamps. */
  function RowOf(item: FlyerItem): FlyerItemRow
  {
    FlyerItemRow(None, item.name, item.price, UnitName(item.sellingUnit), item.sellingValue,
      item.measuredQuantityValue, item.measuredQuantityUnit, item.store, item.notes, None, None)
  }

  /** The item a stored row describes again, as validating the row against
      `FlyerItem` does when the items endpoint returns it; `None` when the unit
      column holds none of the twelve units, which that validation rejects. */
  function ItemOf(row: FlyerItemRow): Option<FlyerItem>
  {
    match UnitOf(row.sellingUnit)
    case None => None
    case Some(u) =>
      Some(FlyerItem(row.name, row.price, u, row.sellingValue, row.measuredQuantityValue,
        row.measuredQuantityUnit, row.store, row.notes))
  }

  /** Storing an item and reading it back gives the item unchanged. */
  lemma ItemRowRoundTrip(item: FlyerItem)
    ensures ItemOf(RowOf(item)) == Some(item)
  {
    UnitNameRoundTrip(item.sellingUnit);
  }

  /** `create_flyer_items`: one new row per item, in input order, each copying the
      item's eight fields, with id and timestamps left to the database. */
  function CreateFlyerItems(items: seq<FlyerItem>): (rows: seq<FlyerItemRow>)
    ensures |rows| == |items|
    ensures forall i :: 0 <= i < |rows| ==>
      ItemOf(rows[i]) == Some(items[i])
      && rows[i].id.None? && rows[i].extractedAt.None? && rows[i].createdAt.None?
  {
    if items == [] then []
    else
      ItemRowRoundTrip(items[0]);
      [RowOf(items[0])] + CreateFlyerItems(items[1..])
  }

  // ------------------------------------------------------------- query

  const DefaultLimit: int := 100
  const DefaultDaysLimit: int := 7
  const MicrosPerDay: int := 86_400_000_000

  /** `now - timedelta(days=daysLimit)`. */
  function Threshold(now: int, daysLimit: int): int
  {
    now - daysLimit * MicrosPerDay
  }

  /** A row passes both filters: its store is `storeName` exactly and its
      extraction time is known and not before `threshold` (a NULL time fails the
      comparison in SQL). */
  predicate Qualifies(row: FlyerItemRow, storeName: string, threshold: int)
  {
    row.store == storeName && row.extractedAt.Some? && row.extractedAt.value >= threshold
  }

  /** The rows that pass both filters, in table order: each qualifying row as
      many times as the table holds it, and no other row. */
  function Candidates(table: seq<FlyerItemRow>, storeName: string, threshold: int): (r: seq<FlyerItemRow>)
    ensures multiset(r) <= multiset(table)
    ensures forall row :: row in r <==> row in table && Qualifies(row, storeName, threshold)
    ensures forall row :: multiset(r)[row] == if Qualifies(row, storeName, threshold) then multiset(table)[row] else 0
  {
    if table == [] then []
    else
      var rest := Candidates(table[1..], storeName, threshold);
      assert table == [table[0]] + table[1..];
      if Qualifies(table[0], storeName, threshold) then [table[0]] + rest else rest
  }

  /** The sort key; only rows that passed the filter (and so have a time) are sorted. */
  function Stamp(row: FlyerItemRow): int
  {
    if row.extractedAt.Some? then row.extractedAt.value else 0
  }

  /** `ORDER BY extracted_at DESC`. */
  predicate NewestFirst(s: seq<FlyerItemRow>)
  {
    forall i, j :: 0 <= i < j < |s| ==> Stamp(s[i]) >= Stamp(s[j])
  }

  /** Put `row` into `s` after the leading rows newer than it. */
  function Insert(row: FlyerItemRow, s: seq<FlyerItemRow>): (r: seq<FlyerItemRow>)
    ensures multiset(r) == multiset(s) + multiset{row}
  {
    if s == [] then [row]
    else if Stamp(s[0]) <= Stamp(row) then [row] + s
    else
      assert s == [s[0]] + s[1..];
      [s[0]] + Insert(row, s[1..])
  }

  /** Inserting adds `row` and nothing else. */
  lemma {:induction false} InsertElements(row: FlyerItemRow, s: seq<FlyerItemRow>)
    ensures forall x :: x in Insert(row, s) ==> x == row || x in s
  {
    if s != [] && Stamp(s[0]) > Stamp(row) {
      InsertElements(row, s[1..]);
    }
  }

  /** Inserting into a newest-first sequence keeps it newest first. */
  lemma {:induction false} InsertKeepsOrder(row: FlyerItemRow, s: seq<FlyerItemRow>)
    requires NewestFirst(s)
    ensures NewestFirst(Insert(row, s))
  {
    if s != [] && Stamp(s[0]) > Stamp(row) {
      var rest := s[1..];
      assert NewestFirst(rest) by {
        forall i, j | 0 <= i < j < |rest| ensures Stamp(rest[i]) >= Stamp(rest[j]) {
          assert rest[i] == s[i + 1] && rest[j] == s[j + 1];
        }
      }
      var tail := Insert(row, rest);
      InsertKeepsOrder(row, rest);
      InsertElements(row, rest);
      forall x | x in rest ensures Stamp(s[0]) >= Stamp(x) {
        var k :| 0 <= k < |rest| && rest[k] == x;
        assert s[k + 1] == x;
      }
      var r := [s[0]] + tail;
      forall i, j | 0 <= i < j < |r| ensures Stamp(r[i]) >= Stamp(r[j]) {
        assert r[j] == tail[j - 1];
        assert r[j] in tail;
        if i > 0 {
          assert r[i] == tail[i - 1];
        }
      }
    }
  }

  /** The rows of `s` ordered newest first. */
  function SortNewestFirst(s: seq<FlyerItemRow>): (r: seq<FlyerItemRow>)
    ensures multiset(r) == multiset(s)
  {
    if s == [] then []
    else
      assert s == [s[0]] + s[1..];
      Insert(s[0], SortNewestFirst(s[1..]))
  }

  /** The sort puts the rows newest first. */
  lemma {:induction false} SortIsNewestFirst(s: seq<FlyerItemRow>)
    ensures NewestFirst(SortNewestFirst(s))
  {
    if s != [] {
      SortIsNewestFirst(s[1..]);
      InsertKeepsOrder(s[0], SortNewestFirst(s[1..]));
    }
  }

  datatype QueryError = NegativeLimit

  /** `get_flyer_items_by_store`: the rows of `storeName` extracted at or after
      `daysLimit` days before `now`, newest first, at most `limit` of them.
      PostgreSQL rejects a negative `LIMIT`, which is the one failure. */
  function GetFlyerItemsByStore(table: seq<FlyerItemRow>, storeName: string, now: int,
                                limit: int, daysLimit: int): (r: Result<seq<FlyerItemRow>, QueryError>)
    ensures r.Failure? <==> limit < 0
  {
    if limit < 0 then Failure(NegativeLimit)
    else
      var sorted := SortNewestFirst(Candidates(table, storeName, Threshold(now, daysLimit)));
      Success(if limit < |sorted| then sorted[..limit] else sorted)
  }

  /** What the query promises: every returned row belongs to the store and is
      recent enough; the rows come newest first; there are `limit` of them or
      all the qualifying rows if fewer; they are drawn from the qualifying rows
      without repetition; and any qualifying row left out is no newer than any
      row returned. Which of several equally new rows fill the last places is
      not fixed. */
  lemma {:induction false} GetFlyerItemsByStoreSpec(table: seq<FlyerItemRow>, storeName: string, now: int,
                                                    limit: int, daysLimit: int)
    requires limit >= 0
    ensures var r := GetFlyerItemsByStore(table, storeName, now, limit, daysLimit);
      var cands := Candidates(table, storeName, Threshold(now, daysLimit));
      && r.Success?
      && (forall row :: row in r.value ==> Qualifies(row, storeName, Threshold(now, daysLimit)))
      && NewestFirst(r.value)
      && |r.value| == (if limit < |cands| then limit else |cands|)
      && multiset(r.value) <= multiset(cands)
      && (forall left, kept :: left in multiset(cands) - multiset(r.value) && kept in r.value ==>
            Stamp(left) <= Stamp(kept))
  {
    var cands := Candidates(table, storeName, Threshold(now, daysLimit));
    var sorted := SortNewestFirst(cands);
    SortIsNewestFirst(cands);
    var k := if limit < |sorted| then limit else |sorted|;
    assert sorted[..|sorted|] == sorted;
    assert GetFlyerItemsByStore(table, storeName, now, limit, daysLimit) == Success(sorted[..k]);
    NewestPrefix(sorted, k);
    DrawnFrom(sorted[..k], cands, storeName, Threshold(now, daysLimit));
  }

  /** The query as both routers call it, with the defaults of 100 rows and 7
      days: it succeeds, returns at most 100 rows, all of `storeName` and
      extracted in the last 7 days, newest first. */
  function GetFlyerItemsByStoreDefaults(table: seq<FlyerItemRow>, storeName: string, now: int): (r: seq<FlyerItemRow>)
    ensures |r| <= DefaultLimit
    ensures forall row :: row in r ==> Qualifies(row, storeName, Threshold(now, DefaultDaysLimit))
    ensures NewestFirst(r)
  {
    GetFlyerItemsByStoreSpec(table, storeName, now, DefaultLimit, DefaultDaysLimit);
    GetFlyerItemsByStore(table, storeName, now, DefaultLimit, DefaultDaysLimit).value
  }

  /** The first `k` rows of a newest-first sequence are newest first, and every
      row after them is no newer than any of them. */
  lemma NewestPrefix(sorted: seq<FlyerItemRow>, k: nat)
    requires NewestFirst(sorted) && k <= |sorted|
    ensures NewestFirst(sorted[..k])
    ensures multiset(sorted[..k]) <= multiset(sorted)
    ensures forall left, kept :: left in multiset(sorted) - multiset(sorted[..k]) && kept in sorted[..k] ==>
      Stamp(left) <= Stamp(kept)
  {
    var r := sorted[..k];
    forall i, j | 0 <= i < j < |r| ensures Stamp(r[i]) >= Stamp(r[j]) {
      assert r[i] == sorted[i] && r[j] == sorted[j];
    }
    PrefixNewerThanRest(sorted, k);
    LeftOutIsRest(sorted, k);
  }

  /** In a newest-first sequence, no row after position `k` is newer than a row before it. */
  lemma PrefixNewerThanRest(sorted: seq<FlyerItemRow>, k: nat)
    requires NewestFirst(sorted) && k <= |sorted|
    ensures forall x, kept :: x in sorted[k..] && kept in sorted[..k] ==> Stamp(x) <= Stamp(kept)
  {
    var r, tail := sorted[..k], sorted[k..];
    forall x, kept | x in tail && kept in r ensures Stamp(x) <= Stamp(kept) {
      var j :| 0 <= j < |tail| && tail[j] == x;
      var i :| 0 <= i < |r| && r[i] == kept;
      assert tail[j] == sorted[k + j];
      assert r[i] == sorted[i];
    }
  }

  /** What a prefix leaves out of a sequence is the rest of the sequence. */
  lemma LeftOutIsRest(sorted: seq<FlyerItemRow>, k: nat)
    requires k <= |sorted|
    ensures multiset(sorted[..k]) <= multiset(sorted)
    ensures forall left :: left in multiset(sorted) - multiset(sorted[..k]) ==> left in sorted[k..]
  {
    var r, tail := sorted[..k], sorted[k..];
    assert sorted == r + tail;
    assert multiset(sorted) == multiset(r) + multiset(tail);
    forall left | left in multiset(sorted) - multiset(r) ensures left in tail {
      assert left in multiset(tail);
    }
  }

  /** Rows drawn from the qualifying rows qualify. */
  lemma DrawnFrom(r: seq<FlyerItemRow>, cands: seq<FlyerItemRow>, storeName: string, threshold: int)
    requires forall row :: row in cands ==> Qualifies(row, storeName, threshold)
    requires multiset(r) <= multiset(cands)
    ensures forall row :: row in r ==> Qualifies(row, storeName, threshold)
  {
    forall row | row in r ensures Qualifies(row, storeName, threshold) {
      assert row in multiset(r);
      assert row in cands;
    }
  }
}
