/**
 * The legacy server's reading of stored items and categories
 * (server_legacy_because_matsmart_updated/src/lib/fetch-items-from-db.js):
 * rows of the latest scrape turned into items whose category ids are read
 * back as numbers, optionally keyed by url, and category rows turned into
 * categories.
 */
module LegacyFetchItemsFromDb {
  import opened JsStrings
  import opened Keyed
  import opened Models

  /**
   * An item as the legacy `newItem` builds it. The legacy code never
   * changes an item after building it, so an item is a value.
   */
  datatype LegacyItem = LegacyItem(id: int, categories: seq<JsNumber>, url: string, imgUrl: string,
                                   name: string, price: string, discount: string, bestBefore: string,
                                   firstSeen: int, lastSeen: int)

  /** A row of the legacy items table; `categories` is the comma-joined list of category ids. */
  datatype ItemRow = ItemRow(id: int, categories: string, url: string, imgUrl: string, name: string,
                             price: string, discount: string, bestBefore: string,
                             firstSeen: int, lastSeen: int)

  /** A row of the legacy categories table. */
  datatype CategoryRow = CategoryRow(id: int, url: string, name: string)

  /** What `fetchItemsFromDb` resolves with: the item list, or the items keyed by url. */
  datatype Fetched =
    | AsList(items: seq<LegacyItem>)
    | AsMap(byUrl: map<string, LegacyItem>)

  // ---------------------------------------------------------------------------
  // row.categories.split(",").map(Number)
  // ---------------------------------------------------------------------------

  /** The stored category column read back: split on "," and each piece passed to `Number`. */
  function CategoryNumbers(column: string): (r: seq<JsNumber>)
    ensures |r| == |Split(column, ',')|
    ensures forall i | 0 <= i < |r| :: r[i] == NumberOf(Split(column, ',')[i])
  {
    var pieces := Split(column, ',');
    seq(|pieces|, i requires 0 <= i < |pieces| => NumberOf(pieces[i]))
  }

  /** The category ids rendered in decimal, as `join(",")` writes them. */
  function Decimals(ids: seq<nat>): (ds: seq<string>)
    ensures |ds| == |ids|
    ensures forall i | 0 <= i < |ids| :: ds[i] == Decimal(ids[i])
  {
    seq(|ids|, i requires 0 <= i < |ids| => Decimal(ids[i]))
  }

  /**
   * Reading back a non-empty comma-joined list of category ids gives
   * exactly those ids, in order.
   */
  lemma {:induction false} CategoryNumbersOfJoin(ids: seq<nat>)
    requires |ids| >= 1
    ensures |CategoryNumbers(Join(Decimals(ids), ','))| == |ids|
    ensures forall i | 0 <= i < |ids| :: CategoryNumbers(Join(Decimals(ids), ','))[i] == Integer(ids[i])
  {
    var ds := Decimals(ids);
    forall i | 0 <= i < |ds|
      ensures ',' !in ds[i]
    {
      assert AllDigits(ds[i]);
    }
    SplitJoin(ds, ',');
    forall i | 0 <= i < |ids|
      ensures NumberOf(ds[i]) == Integer(ids[i])
    {
      NumberOfDecimal(ids[i]);
    }
  }

  /** An empty list of ids is stored as "", which reads back as the single id 0. */
  lemma EmptyCategoriesReadAsZero()
    ensures CategoryNumbers(Join([], ',')) == [Integer(0)]
  {
    assert Split([], ',') == [[]];
    assert AllDigits([]);
  }

  // ---------------------------------------------------------------------------
  // translateToMap
  // ---------------------------------------------------------------------------

  /** The urls of a list of items, in order. */
  function Urls(items: seq<LegacyItem>): seq<string>
  {
    Project(items, (it: LegacyItem) => it.url)
  }

  /** `translateToMap`: one `set` per item, so each url maps to the last item carrying it. */
  method TranslateToMap(items: seq<LegacyItem>) returns (m: map<string, LegacyItem>)
    ensures forall u :: u in m <==> u in Urls(items)
    ensures forall i | IsLast(Urls(items), i) :: m[items[i].url] == items[i]
    ensures forall u | u in m :: m[u] == items[LastIndex(Urls(items), u)]
  {
    m := map[];
    for k := 0 to |items|
      invariant forall u :: u in m <==> u in Urls(items)[..k]
      invariant forall i | IsLast(Urls(items)[..k], i) :: m[items[i].url] == items[i]
    {
      var item := items[k];
      assert Urls(items)[..k + 1] == Urls(items)[..k] + [item.url];
      forall i | IsLast(Urls(items)[..k + 1], i) ensures i == k || (IsLast(Urls(items)[..k], i) && items[i].url != item.url) {
        IsLastAppend(Urls(items)[..k], item.url, i);
      }
      m := m[item.url := item];
    }
    assert Urls(items)[..|items|] == Urls(items);
    forall u | u in m ensures m[u] == items[LastIndex(Urls(items), u)] {
      var i := LastIndex(Urls(items), u);
    }
  }

  // ---------------------------------------------------------------------------
  // fetchItemsFromDb: the rows of the latest scrape turned into items
  // ---------------------------------------------------------------------------

  /** `it` holds the fields of `row`, with the categories column read back as numbers. */
  predicate ReadFrom(it: LegacyItem, row: ItemRow)
  {
    && it.id == row.id && it.categories == CategoryNumbers(row.categories) && it.url == row.url
    && it.imgUrl == row.imgUrl && it.name == row.name && it.price == row.price
    && it.discount == row.discount && it.bestBefore == row.bestBefore
    && it.firstSeen == row.firstSeen && it.lastSeen == row.lastSeen
  }

  /** The row loop: one item per row, in row order. */
  method ItemsFromRows(rows: seq<ItemRow>) returns (items: seq<LegacyItem>)
    ensures |items| == |rows|
    ensures forall i | 0 <= i < |rows| :: ReadFrom(items[i], rows[i])
  {
    items := [];
    for i := 0 to |rows|
      invariant |items| == i
      invariant forall j | 0 <= j < i :: ReadFrom(items[j], rows[j])
    {
      var row := rows[i];
      var item := LegacyItem(row.id, CategoryNumbers(row.categories), row.url, row.imgUrl, row.name,
                             row.price, row.discount, row.bestBefore, row.firstSeen, row.lastSeen);
      items := items + [item];
    }
  }

  /**
   * `fetchItemsFromDb` once the rows are read: the items in row order, or,
   * when `asMap` is set, the items keyed by url with the last row winning.
   */
  method FetchItemsFromDb(rows: seq<ItemRow>, asMap: bool) returns (r: Fetched)
    ensures r.AsMap? <==> asMap
    ensures r.AsList? ==> |r.items| == |rows| && forall i | 0 <= i < |rows| :: ReadFrom(r.items[i], rows[i])
    ensures r.AsMap? ==> forall u :: u in r.byUrl <==> exists i | 0 <= i < |rows| :: rows[i].url == u
    ensures r.AsMap? ==> forall i | 0 <= i < |rows| && IsLast(RowUrls(rows), i) ::
      rows[i].url in r.byUrl && ReadFrom(r.byUrl[rows[i].url], rows[i])
  {
    var items := ItemsFromRows(rows);
    if asMap {
      assert Urls(items) == RowUrls(rows);
      var m := TranslateToMap(items);
      forall u ensures u in m <==> exists i | 0 <= i < |rows| :: rows[i].url == u {
        if u in m {
          var i :| 0 <= i < |items| && Urls(items)[i] == u;
          assert rows[i].url == u;
        }
      }
      r := AsMap(m);
    } else {
      r := AsList(items);
    }
  }

  /** The urls of the rows, in order. */
  function RowUrls(rows: seq<ItemRow>): seq<string>
  {
    Project(rows, (row: ItemRow) => row.url)
  }

  // ---------------------------------------------------------------------------
  // resolveCategories
  // ---------------------------------------------------------------------------

  /** `resolveCategories`: one category per row, in row order, titled by the row's name. */
  method ResolveCategories(rows: seq<CategoryRow>) returns (categories: seq<Category>)
    ensures |categories| == |rows|
    ensures forall i | 0 <= i < |rows| ::
      categories[i] == Category(rows[i].id, rows[i].url, rows[i].name)
  {
    categories := [];
    for i := 0 to |rows|
      invariant |categories| == i
      invariant forall j | 0 <= j < i :: categories[j] == Category(rows[j].id, rows[j].url, rows[j].name)
    {
      var row := rows[i];
      categories := categories + [Category(row.id, row.url, row.name)];
    }
  }
}
