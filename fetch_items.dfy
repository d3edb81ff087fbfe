/**
 * The scraper's data transformations in src/fetch-items.js: turning one
 * listing element into an item, choosing the categories to scrape, keying
 * stored items by url, turning stored rows into items, and merging the
 * per-category item lists into one item per url.
 */
module FetchItems {
  import opened Wrappers
  import opened JsStrings
  import opened Keyed
  import opened Models
  import CombineSpec

  /**
   * An item record as `newItem` builds it. Only `categories` is ever
   * changed after construction (by the merge), so the other fields are
   * constants. Parsed items carry numeric category ids; items read back
   * from the database carry the strings that splitting the stored column gives.
   */
  class Item<C> {
    const id: int
    var categories: seq<C>
    const url: string
    const imgUrl: string
    const name: string
    const price: string
    const discount: string
    const firstSeen: int
    const lastSeen: int

    constructor (id: int, categories: seq<C>, url: string, imgUrl: string, name: string,
                 price: string, discount: string, firstSeen: int, lastSeen: int)
      ensures this.id == id && this.categories == categories && this.url == url
      ensures this.imgUrl == imgUrl && this.name == name && this.price == price
      ensures this.discount == discount && this.firstSeen == firstSeen && this.lastSeen == lastSeen
    {
      this.id := id;
      this.categories := categories;
      this.url := url;
      this.imgUrl := imgUrl;
      this.name := name;
      this.price := price;
      this.discount := discount;
      this.firstSeen := firstSeen;
      this.lastSeen := lastSeen;
    }
  }

  /** The urls of a list of items, in order (urls never change, so no heap is read). */
  function Urls<C>(items: seq<Item<C>>): seq<string>
  {
    Project(items, (it: Item<C>) => it.url)
  }

  // ---------------------------------------------------------------------------
  // parseItem
  // ---------------------------------------------------------------------------

  /** What `parseItem` reads from one listing element once the markup has been queried. */
  datatype Fragment = Fragment(
    href: string,              // the element's href attribute
    imageSrc: Option<string>,  // src of the first `img.zoom`; None when there is none
    nameText: string,          // text of the first `span.prd-name` ("" when there is none)
    priceText: string,         // text of the first `div.prd-price-num` ("" when there is none)
    discount: string)          // the old-price text once its decoration regex has run

  /** The two lookups in `parseItem` that throw a TypeError. */
  datatype ParseError =
    | NoImage  // `[0]` of an empty selection is undefined, or its src is missing
    | NoPrice  // `match(/\d+/)` returned null

  /** The image url: the scheme prefixed and every `?itok=…` stripped. */
  function ImageUrl(src: string): (r: string)
    ensures StartsWith(r, "http:")
    ensures |r| <= |src| + 5
  {
    "http:" + StripItok(src)
  }

  /** On a single-line src, the image url is the part before the first `?itok=`. */
  lemma ImageUrlSingleLine(src: string)
    requires forall k | 0 <= k < |src| :: !IsLineTerminator(src[k])
    ensures ImageUrl(src) == "http:" + match IndexOf(src, ItokMarker)
      case Some(i) => src[..i]
      case None => src
  {
    StripItokSingleLine(src);
  }

  /**
   * `parseItem`: a fresh item with id -1, the scraping category as its only
   * category, both timestamps at the time of the run, and the extracted
   * fields; or the first of the two lookups that throws.
   */
  method ParseItem(f: Fragment, categoryId: int, now: int) returns (r: Result<Item<int>, ParseError>)
    ensures r.Failure? <==> f.imageSrc.None? || MatchDigits(f.priceText).None?
    ensures r.Failure? ==> r.error == if f.imageSrc.None? then NoImage else NoPrice
    ensures r.Success? ==> fresh(r.value)
    ensures r.Success? ==>
      && r.value.id == -1
      && r.value.categories == [categoryId]
      && r.value.url == f.href
      && r.value.imgUrl == ImageUrl(f.imageSrc.value)
      && r.value.name == Trim(f.nameText)
      && r.value.price == MatchDigits(f.priceText).value
      && r.value.discount == f.discount
      && r.value.firstSeen == now && r.value.lastSeen == now
  {
    if f.imageSrc.None? {
      return Failure(NoImage);
    }
    var itemImageUrl := ImageUrl(f.imageSrc.value);
    var name := Trim(f.nameText);
    var price := MatchDigits(f.priceText);
    if price.None? {
      return Failure(NoPrice);
    }
    var item := new Item(-1, [categoryId], f.href, itemImageUrl, name, price.value, f.discount, now, now);
    return Success(item);
  }

  // ---------------------------------------------------------------------------
  // resolveCategories
  // ---------------------------------------------------------------------------

  /** A row of `SELECT id, url, title FROM categories`. */
  datatype CategoryRow = CategoryRow(id: int, url: string, title: string)

  /** Only categories 4 and 0 are scraped. */
  predicate Scraped(id: int)
  {
    id == 4 || id == 0
  }

  function CategoryOf(row: CategoryRow): Category
  {
    Category(row.id, row.url, row.title)
  }

  /** The categories of the scraped rows, in row order. */
  function Selected(rows: seq<CategoryRow>): seq<Category>
  {
    if rows == [] then []
    else
      var last := rows[|rows| - 1];
      Selected(rows[..|rows| - 1]) + if Scraped(last.id) then [CategoryOf(last)] else []
  }

  /** A category is selected exactly when it comes from a row whose id is 4 or 0. */
  lemma {:induction false} SelectedMembers(rows: seq<CategoryRow>, c: Category)
    ensures c in Selected(rows) <==> exists i | 0 <= i < |rows| :: Scraped(rows[i].id) && c == CategoryOf(rows[i])
  {
    if rows != [] {
      var init := rows[..|rows| - 1];
      SelectedMembers(init, c);
      assert forall i | 0 <= i < |init| :: init[i] == rows[i];
    }
  }

  /** Selection keeps row order: it distributes over concatenation. */
  lemma {:induction false} SelectedAppend(a: seq<CategoryRow>, b: seq<CategoryRow>)
    ensures Selected(a + b) == Selected(a) + Selected(b)
    decreases |b|
  {
    if b == [] {
      assert a + b == a;
    } else {
      var binit := b[..|b| - 1];
      assert (a + b)[..|a + b| - 1] == a + binit;
      SelectedAppend(a, binit);
    }
  }

  /** `resolveCategories`: keeps the rows with id 4 or 0, in order. */
  method ResolveCategories(rows: seq<CategoryRow>) returns (categories: seq<Category>)
    ensures categories == Selected(rows)
    ensures forall c | c in categories :: Scraped(c.id)
  {
    categories := [];
    for i := 0 to |rows|
      invariant categories == Selected(rows[..i])
    {
      var row := rows[i];
      assert rows[..i + 1][..i] == rows[..i];
      if !(row.id == 4 || row.id == 0) {
        continue;
      }
      categories := categories + [Category(row.id, row.url, row.title)];
    }
    assert rows[..|rows|] == rows;
    forall c | c in categories ensures Scraped(c.id) {
      SelectedMembers(rows, c);
    }
  }

  // ---------------------------------------------------------------------------
  // translateToMap
  // ---------------------------------------------------------------------------

  /**
   * `translateToMap`: one `set` per item, so each url maps to the last
   * item carrying it; the map holds the items themselves, not copies.
   */
  method TranslateToMap<C>(items: seq<Item<C>>) returns (m: map<string, Item<C>>)
    ensures forall u :: u in m <==> u in Urls(items)
    ensures forall i | IsLast(Urls(items), i) :: m[items[i].url] == items[i]
    ensures forall u | u in m :: m[u] == items[LastIndex(Urls(items), u)]
  {
    m := map[];
    for k := 0 to |items|
      invariant forall u :: u in m <==> u in Urls(items)[..k]
      invariant forall i | IsLast(Urls(items)[..k], i) :: m[items[i].url] == items[i]
    {
      var item := items[k];
      assert Urls(items)[..k + 1] == Urls(items)[..k] + [item.url];
      forall i | IsLast(Urls(items)[..k + 1], i) ensures i == k || (IsLast(Urls(items)[..k], i) && items[i].url != item.url) {
        IsLastAppend(Urls(items)[..k], item.url, i);
      }
      m := m[item.url := item];
    }
    assert Urls(items)[..|items|] == Urls(items);
    forall u | u in m ensures m[u] == items[LastIndex(Urls(items), u)] {
      var i := LastIndex(Urls(items), u);
    }
  }

  // ---------------------------------------------------------------------------
  // fetchItemsFromDb: rows of `SELECT * FROM items` turned into items
  // ---------------------------------------------------------------------------

  /** A row of the items table; `categories` is the comma-joined list of category ids. */
  datatype ItemRow = ItemRow(id: int, categories: string, url: string, imgUrl: string, name: string,
                             price: string, discount: string, firstSeen: int, lastSeen: int)

  /** `it` holds the fields of `row`, with the categories column split on ",". */
  ghost predicate ReadFrom(it: Item<string>, row: ItemRow)
    reads it
  {
    && it.id == row.id && it.categories == Split(row.categories, ',') && it.url == row.url
    && it.imgUrl == row.imgUrl && it.name == row.name && it.price == row.price
    && it.discount == row.discount && it.firstSeen == row.firstSeen && it.lastSeen == row.lastSeen
  }

  /** The row loop of `fetchItemsFromDb`: one fresh item per row, in row order. */
  method ItemsFromRows(rows: seq<ItemRow>) returns (items: seq<Item<string>>)
    ensures |items| == |rows|
    ensures forall i | 0 <= i < |rows| :: fresh(items[i]) && ReadFrom(items[i], rows[i])
  {
    items := [];
    for i := 0 to |rows|
      invariant |items| == i
      invariant forall j | 0 <= j < i :: fresh(items[j]) && ReadFrom(items[j], rows[j])
    {
      var row := rows[i];
      var item := new Item(row.id, Split(row.categories, ','), row.url, row.imgUrl, row.name,
                           row.price, row.discount, row.firstSeen, row.lastSeen);
      items := items + [item];
    }
  }

  /** `fetchItemsFromDb` once the rows are read: the items keyed by url, the last row winning. */
  method FetchItemsFromDb(rows: seq<ItemRow>) returns (m: map<string, Item<string>>)
    ensures forall u :: u in m <==> exists i | 0 <= i < |rows| :: rows[i].url == u
    ensures forall i | 0 <= i < |rows| && IsLast(RowUrls(rows), i) ::
      rows[i].url in m && fresh(m[rows[i].url]) && ReadFrom(m[rows[i].url], rows[i])
  {
    var items := ItemsFromRows(rows);
    assert Urls(items) == RowUrls(rows);
    m := TranslateToMap(items);
    forall u ensures u in m <==> exists i | 0 <= i < |rows| :: rows[i].url == u {
      if u in m {
        var i :| 0 <= i < |items| && Urls(items)[i] == u;
        assert rows[i].url == u;
      }
    }
  }

  /** The urls of the rows, in order. */
  function RowUrls(rows: seq<ItemRow>): seq<string>
  {
    Project(rows, (row: ItemRow) => row.url)
  }

  // ---------------------------------------------------------------------------
  // flatMapCombineCategories
  // ---------------------------------------------------------------------------

  /** The per-category lists laid end to end, in traversal order. */
  ghost function Flatten<T>(cs: seq<seq<T>>): seq<T>
  {
    if cs == [] then [] else Flatten(cs[..|cs| - 1]) + cs[|cs| - 1]
  }

  /** The lists before `i` laid end to end are a prefix of all of them laid end to end. */
  lemma {:induction false} FlattenPrefix<T>(cs: seq<seq<T>>, i: nat)
    requires i <= |cs|
    ensures Flatten(cs[..i]) <= Flatten(cs)
    decreases |cs| - i
  {
    if i < |cs| {
      FlattenPrefix(cs, i + 1);
      assert cs[..i + 1][..i] == cs[..i];
    } else {
      assert cs[..i] == cs;
    }
  }

  /** The list at position `i` sits in the flattened lists `all` right after the `k` items of the lists before it. */
  lemma {:induction false} FlattenAt<T>(cs: seq<seq<T>>, i: nat, all: seq<T>, k: nat)
    requires i < |cs| && all == Flatten(cs) && k == |Flatten(cs[..i])|
    ensures k + |cs[i]| == |Flatten(cs[..i + 1])| <= |all|
    ensures forall t | k <= t < k + |cs[i]| :: all[t] == cs[i][t - k]
  {
    FlattenPrefix(cs, i + 1);
    assert cs[..i + 1][..i] == cs[..i];
    assert Flatten(cs[..i + 1]) == Flatten(cs[..i]) + cs[i];
    forall t | k <= t < k + |cs[i]|
      ensures all[t] == cs[i][t - k]
    {
      assert Flatten(cs[..i + 1])[t] == cs[i][t - k];
    }
  }

  /** The url and categories of each item, as the merge specification sees them. */
  ghost function Listings(xs: seq<Item<int>>): (ls: seq<CombineSpec.Listing>)
    reads set x | x in xs
    ensures |ls| == |xs|
    ensures forall i | 0 <= i < |xs| :: ls[i] == CombineSpec.Listing(xs[i].url, xs[i].categories)
  {
    if xs == [] then []
    else Listings(xs[..|xs| - 1]) + [CombineSpec.Listing(xs[|xs| - 1].url, xs[|xs| - 1].categories)]
  }

  /** A url seen among the first `k` listings has a first occurrence there. */
  lemma {:induction false} FirstOccurrence(ls: seq<CombineSpec.Listing>, j: nat) returns (f: nat)
    requires j < |ls|
    ensures f <= j && ls[f].url == ls[j].url && CombineSpec.FirstWithUrl(ls, f)
  {
    if exists i | 0 <= i < j :: ls[i].url == ls[j].url {
      var i :| 0 <= i < j && ls[i].url == ls[j].url;
      f := FirstOccurrence(ls, i);
    } else {
      f := j;
    }
  }

  /** The categories array of each item, as it is now. */
  ghost function CategoriesOf(xs: seq<Item<int>>): (cats: seq<seq<int>>)
    reads set x | x in xs
    ensures |cats| == |xs|
    ensures forall t | 0 <= t < |xs| :: cats[t] == xs[t].categories
  {
    if xs == [] then [] else CategoriesOf(xs[..|xs| - 1]) + [xs[|xs| - 1].categories]
  }

  /** `ls` records the url and the categories before the merge of each item of the traversal `xs`. */
  ghost predicate Aligned(xs: seq<Item<int>>, ls: seq<CombineSpec.Listing>)
  {
    && |ls| == |xs| && CombineSpec.Categorised(ls)
    && (forall t | 0 <= t < |xs| :: ls[t].url == xs[t].url)
  }

  /** The records are taken from one record per item, so an item met twice has one record. */
  ghost predicate Snapshot(xs: seq<Item<int>>, ls: seq<CombineSpec.Listing>,
                           orig: map<Item<int>, CombineSpec.Listing>)
  {
    |ls| == |xs| && forall t | 0 <= t < |xs| :: xs[t] in orig && orig[xs[t]] == ls[t]
  }

  /** The map has the urls of the first `k` items as keys. */
  ghost predicate KeysMerged(xs: seq<Item<int>>, ls: seq<CombineSpec.Listing>, k: nat,
                             url2item: map<string, Item<int>>)
    requires Aligned(xs, ls) && k <= |xs|
  {
    url2item.Keys == CombineSpec.Combined(ls, k).Keys
  }

  /** Among the first `k` items, the first one with each url is the one stored. */
  ghost predicate FirstsStored(xs: seq<Item<int>>, ls: seq<CombineSpec.Listing>, k: nat,
                               url2item: map<string, Item<int>>)
    requires Aligned(xs, ls) && k <= |xs|
  {
    forall f {:trigger CombineSpec.FirstWithUrl(ls, f)} | 0 <= f < k && CombineSpec.FirstWithUrl(ls, f) ::
      xs[f].url in url2item && url2item[xs[f].url] == xs[f]
  }

  /** A stored item has the merged categories; every other item keeps its own. */
  ghost predicate CategoriesMerged(xs: seq<Item<int>>, ls: seq<CombineSpec.Listing>, k: nat,
                                   url2item: map<string, Item<int>>, cats: seq<seq<int>>)
    requires Aligned(xs, ls) && k <= |xs| && |cats| == |xs| && KeysMerged(xs, ls, k, url2item)
  {
    forall t | 0 <= t < |xs| ::
      cats[t] ==
        if xs[t].url in url2item && url2item[xs[t].url] == xs[t]
        then CombineSpec.Combined(ls, k)[xs[t].url]
        else ls[t].categories
  }

  /**
   * The state of the merge after the first `k` items of `xs`, whose url
   * and categories before the merge are `ls` and whose categories are now
   * `cats`.
   */
  ghost predicate MergedState(xs: seq<Item<int>>, ls: seq<CombineSpec.Listing>,
                              orig: map<Item<int>, CombineSpec.Listing>, k: nat,
                              url2item: map<string, Item<int>>, cats: seq<seq<int>>)
  {
    && Aligned(xs, ls) && Snapshot(xs, ls, orig) && k <= |xs| && |cats| == |xs|
    && KeysMerged(xs, ls, k, url2item)
    && FirstsStored(xs, ls, k, url2item)
    && CategoriesMerged(xs, ls, k, url2item, cats)
  }

  ghost predicate MergedUpTo(xs: seq<Item<int>>, ls: seq<CombineSpec.Listing>,
                             orig: map<Item<int>, CombineSpec.Listing>, k: nat,
                             url2item: map<string, Item<int>>)
    reads set x | x in xs
  {
    MergedState(xs, ls, orig, k, url2item, CategoriesOf(xs))
  }

  /** Before the first item, the map is empty and every item has its own categories. */
  lemma {:induction false} MergeStart(xs: seq<Item<int>>, ls: seq<CombineSpec.Listing>,
                                      orig: map<Item<int>, CombineSpec.Listing>)
    requires ls == Listings(xs)
    requires orig == map x | x in xs :: CombineSpec.Listing(x.url, x.categories)
    requires forall x | x in xs :: x.categories != []
    ensures MergedUpTo(xs, ls, orig, 0, map[])
  {
    assert CombineSpec.Combined(ls, 0) == map[];
    forall t | 0 <= t < |xs|
      ensures xs[t] in orig && orig[xs[t]] == ls[t] && ls[t].categories != []
    {
      assert xs[t] in xs;
    }
  }

  /** Every stored item is the first of the merged items with its url. */
  lemma {:induction false} StoredIsFirst(xs: seq<Item<int>>, ls: seq<CombineSpec.Listing>,
                                         orig: map<Item<int>, CombineSpec.Listing>, k: nat,
                                         url2item: map<string, Item<int>>, cats: seq<seq<int>>, u: string)
    returns (f: nat)
    requires MergedState(xs, ls, orig, k, url2item, cats)
    requires u in url2item
    ensures f < k && CombineSpec.FirstWithUrl(ls, f) && xs[f].url == u && url2item[u] == xs[f]
  {
    CombineSpec.CombinedKeys(ls, k, u);
    var j :| 0 <= j < k && ls[j].url == u;
    f := FirstOccurrence(ls, j);
  }

  /** An item whose url is new is stored as it is. */
  lemma {:induction false} MergeNewUrl(xs: seq<Item<int>>, ls: seq<CombineSpec.Listing>,
                                       orig: map<Item<int>, CombineSpec.Listing>, k: nat,
                                       url2item: map<string, Item<int>>, cats: seq<seq<int>>)
    requires MergedState(xs, ls, orig, k, url2item, cats)
    requires k < |xs| && xs[k].url !in url2item
    ensures MergedState(xs, ls, orig, k + 1, url2item[xs[k].url := xs[k]], cats)
  {
    NewUrlEntry(xs, ls, orig, k, url2item, cats);
    NewUrlFirsts(xs, ls, orig, k, url2item, cats);
    NewUrlCategories(xs, ls, orig, k, url2item, cats);
  }

  /** The merged entry of a new url is its listing's categories. */
  lemma {:induction false} NewUrlEntry(xs: seq<Item<int>>, ls: seq<CombineSpec.Listing>,
                                       orig: map<Item<int>, CombineSpec.Listing>, k: nat,
                                       url2item: map<string, Item<int>>, cats: seq<seq<int>>)
    requires MergedState(xs, ls, orig, k, url2item, cats)
    requires k < |xs| && xs[k].url !in url2item
    ensures xs[k].url !in CombineSpec.Combined(ls, k)
    ensures CombineSpec.Combined(ls, k + 1) == CombineSpec.Combined(ls, k)[xs[k].url := ls[k].categories]
    ensures KeysMerged(xs, ls, k + 1, url2item[xs[k].url := xs[k]])
  {
    CombineSpec.CombinedKeys(ls, k, xs[k].url);
  }

  /** Storing a new url's item keeps every first occurrence stored, its own included. */
  lemma {:induction false} NewUrlFirsts(xs: seq<Item<int>>, ls: seq<CombineSpec.Listing>,
                                        orig: map<Item<int>, CombineSpec.Listing>, k: nat,
                                        url2item: map<string, Item<int>>, cats: seq<seq<int>>)
    requires MergedState(xs, ls, orig, k, url2item, cats)
    requires k < |xs| && xs[k].url !in url2item
    ensures FirstsStored(xs, ls, k + 1, url2item[xs[k].url := xs[k]])
  {
    var r := url2item[xs[k].url := xs[k]];
    forall f | 0 <= f < k + 1 && CombineSpec.FirstWithUrl(ls, f)
      ensures xs[f].url in r && r[xs[f].url] == xs[f]
    {
      if f < k {
        assert xs[f].url in url2item;
      }
    }
  }

  /** Storing a new url's item leaves every item's categories as the merged state wants them. */
  lemma {:induction false} NewUrlCategories(xs: seq<Item<int>>, ls: seq<CombineSpec.Listing>,
                                            orig: map<Item<int>, CombineSpec.Listing>, k: nat,
                                            url2item: map<string, Item<int>>, cats: seq<seq<int>>)
    requires MergedState(xs, ls, orig, k, url2item, cats)
    requires k < |xs| && xs[k].url !in url2item
    requires KeysMerged(xs, ls, k + 1, url2item[xs[k].url := xs[k]])
    requires CombineSpec.Combined(ls, k + 1) == CombineSpec.Combined(ls, k)[xs[k].url := ls[k].categories]
    ensures CategoriesMerged(xs, ls, k + 1, url2item[xs[k].url := xs[k]], cats)
  {
    var r := url2item[xs[k].url := xs[k]];
    var after := CombineSpec.Combined(ls, k + 1);
    forall t | 0 <= t < |xs|
      ensures cats[t] == if xs[t].url in r && r[xs[t].url] == xs[t] then after[xs[t].url] else ls[t].categories
    {
      if xs[t] == xs[k] {
        assert ls[t] == ls[k];
      }
    }
  }

  /** The categories after `x` has had `h` appended. */
  ghost function Appended(xs: seq<Item<int>>, cats: seq<seq<int>>, x: Item<int>, h: int): (cats': seq<seq<int>>)
    requires |cats| == |xs|
    ensures |cats'| == |xs|
    ensures forall t | 0 <= t < |xs| :: cats'[t] == if xs[t] == x then cats[t] + [h] else cats[t]
  {
    seq(|xs|, t requires 0 <= t < |xs| => if xs[t] == x then cats[t] + [h] else cats[t])
  }

  /**
   * An item whose url is already stored contributes the first category of
   * its listing, which is appended to the stored item's categories.
   */
  lemma {:induction false} MergeKnownUrl(xs: seq<Item<int>>, ls: seq<CombineSpec.Listing>,
                                         orig: map<Item<int>, CombineSpec.Listing>, k: nat,
                                         url2item: map<string, Item<int>>, cats: seq<seq<int>>)
    requires MergedState(xs, ls, orig, k, url2item, cats)
    requires k < |xs| && xs[k].url in url2item
    ensures cats[k] != [] && cats[k][0] == ls[k].categories[0]
    ensures MergedState(xs, ls, orig, k + 1, url2item,
                        Appended(xs, cats, url2item[xs[k].url], ls[k].categories[0]))
  {
    var u := xs[k].url;
    var stored := url2item[u];
    var h := ls[k].categories[0];
    var before, after := CombineSpec.Combined(ls, k), CombineSpec.Combined(ls, k + 1);
    assert stored.url == u && cats[k] != [] && cats[k][0] == h && !CombineSpec.FirstWithUrl(ls, k)
        && after == before[u := before[u] + [h]] by {
      var f := StoredIsFirst(xs, ls, orig, k, url2item, cats, u);
      CombineSpec.CombinedAt(ls, k, f);
      if xs[k] == stored {
        assert ls[k] == ls[f];
      }
    }
    assert KeysMerged(xs, ls, k + 1, url2item);
    assert FirstsStored(xs, ls, k + 1, url2item) by {
      forall f | 0 <= f < k + 1 && CombineSpec.FirstWithUrl(ls, f)
        ensures xs[f].url in url2item && url2item[xs[f].url] == xs[f]
      {
      }
    }
    AppendedMerged(xs, ls, orig, k, url2item, cats, h);
  }

  /** The categories part of `MergeKnownUrl`, once the merged map is known to grow by `h`. */
  lemma {:induction false} AppendedMerged(xs: seq<Item<int>>, ls: seq<CombineSpec.Listing>,
                                          orig: map<Item<int>, CombineSpec.Listing>, k: nat,
                                          url2item: map<string, Item<int>>, cats: seq<seq<int>>, h: int)
    requires MergedState(xs, ls, orig, k, url2item, cats)
    requires k < |xs| && xs[k].url in url2item && url2item[xs[k].url].url == xs[k].url
    requires KeysMerged(xs, ls, k + 1, url2item)
    requires var before := CombineSpec.Combined(ls, k);
      CombineSpec.Combined(ls, k + 1) == before[xs[k].url := before[xs[k].url] + [h]]
    ensures CategoriesMerged(xs, ls, k + 1, url2item, Appended(xs, cats, url2item[xs[k].url], h))
  {
    var u := xs[k].url;
    var stored := url2item[u];
    var after := CombineSpec.Combined(ls, k + 1);
    var cats' := Appended(xs, cats, stored, h);
    forall t | 0 <= t < |xs|
      ensures cats'[t] == if xs[t].url in url2item && url2item[xs[t].url] == xs[t] then after[xs[t].url] else ls[t].categories
    {
      if xs[t] == stored {
        assert xs[t].url == u;
      }
    }
  }

  /**
   * The callback the merge runs on each item: store it when its url is new,
   * otherwise append its `categories[0]` to the stored item's categories.
   */
  method CombineItem(ghost xs: seq<Item<int>>, ghost ls: seq<CombineSpec.Listing>,
                     ghost orig: map<Item<int>, CombineSpec.Listing>, ghost k: nat,
                     url2item: map<string, Item<int>>, itemSingleCategory: Item<int>)
    returns (r: map<string, Item<int>>)
    requires k < |xs| && itemSingleCategory == xs[k]
    requires MergedUpTo(xs, ls, orig, k, url2item)
    modifies set x | x in xs
    ensures MergedUpTo(xs, ls, orig, k + 1, r)
  {
    ghost var cats := CategoriesOf(xs);
    if itemSingleCategory.url !in url2item {
      r := url2item[itemSingleCategory.url := itemSingleCategory];
      MergeNewUrl(xs, ls, orig, k, url2item, cats);
    } else {
      var itemFromMap := url2item[itemSingleCategory.url];
      ghost var f := StoredIsFirst(xs, ls, orig, k, url2item, cats, itemSingleCategory.url);
      MergeKnownUrl(xs, ls, orig, k, url2item, cats);
      ghost var h := ls[k].categories[0];
      ghost var appended := Appended(xs, cats, itemFromMap, h);
      itemFromMap.categories := itemFromMap.categories + [itemSingleCategory.categories[0]];
      r := url2item;
      forall t | 0 <= t < |xs|
        ensures xs[t].categories == appended[t]
      {
      }
      assert CategoriesOf(xs) == appended;
    }
  }

  /** The callback the merge runs on each category's list: every item of it, in order. */
  method CombineCategory(ghost xs: seq<Item<int>>, ghost ls: seq<CombineSpec.Listing>,
                         ghost orig: map<Item<int>, CombineSpec.Listing>, ghost k: nat,
                         url2item: map<string, Item<int>>, itemsForCategory: seq<Item<int>>)
    returns (r: map<string, Item<int>>, ghost merged: nat)
    requires k + |itemsForCategory| <= |xs|
    requires forall t | k <= t < k + |itemsForCategory| :: xs[t] == itemsForCategory[t - k]
    requires MergedUpTo(xs, ls, orig, k, url2item)
    modifies set x | x in xs
    ensures merged == k + |itemsForCategory| && MergedUpTo(xs, ls, orig, merged, r)
  {
    r := url2item;
    merged := k;
    var j := 0;
    while j < |itemsForCategory|
      invariant 0 <= j <= |itemsForCategory| && merged == k + j
      invariant MergedUpTo(xs, ls, orig, merged, r)
    {
      assert xs[merged] == itemsForCategory[j] by {
        assert merged - k == j;
      }
      r := CombineItem(xs, ls, orig, merged, r, itemsForCategory[j]);
      merged := merged + 1;
      j := j + 1;
    }
  }

  /** A map with the merged keys has exactly the urls of the traversal as keys. */
  lemma {:induction false} TraversalKeys(xs: seq<Item<int>>, ls: seq<CombineSpec.Listing>,
                                         url2item: map<string, Item<int>>)
    requires Aligned(xs, ls) && KeysMerged(xs, ls, |xs|, url2item)
    ensures forall u :: u in url2item <==> exists j | 0 <= j < |xs| :: xs[j].url == u
  {
    forall u
      ensures u in url2item <==> exists j | 0 <= j < |xs| :: xs[j].url == u
    {
      CombineSpec.CombinedKeys(ls, |xs|, u);
      if exists j | 0 <= j < |xs| :: xs[j].url == u {
        var j :| 0 <= j < |xs| && xs[j].url == u;
        assert ls[j].url == u;
      }
      if exists j | 0 <= j < |xs| :: ls[j].url == u {
        var j :| 0 <= j < |xs| && ls[j].url == u;
        assert xs[j].url == u;
      }
    }
  }

  /**
   * The outcome of the merge over the traversal `xs`, whose listings were
   * `ls` beforehand and whose categories are now `cats`: the keys are
   * exactly the urls of the items, each mapped to the first item with that
   * url, which has the merged categories of its url; every other item has
   * its own.
   */
  ghost predicate Merged(xs: seq<Item<int>>, ls: seq<CombineSpec.Listing>,
                         url2item: map<string, Item<int>>, cats: seq<seq<int>>)
    requires |ls| == |xs| && |cats| == |xs|
  {
    && CombineSpec.Categorised(ls)
    && (forall u :: u in url2item <==> exists j | 0 <= j < |xs| :: xs[j].url == u)
    && (forall f | 0 <= f < |xs| && CombineSpec.FirstWithUrl(ls, f) ::
          xs[f].url in url2item && url2item[xs[f].url] == xs[f])
    && (forall u | u in url2item :: url2item[u].url == u)
    && (forall t | 0 <= t < |xs| && xs[t] in url2item.Values ::
          xs[t].url in CombineSpec.Combined(ls, |ls|) && cats[t] == CombineSpec.Combined(ls, |ls|)[xs[t].url])
    && (forall t | 0 <= t < |xs| && xs[t] !in url2item.Values :: cats[t] == ls[t].categories)
  }

  /** Once every item has been merged, the merge has its outcome. */
  lemma {:induction false} MergeComplete(xs: seq<Item<int>>, ls: seq<CombineSpec.Listing>,
                                         orig: map<Item<int>, CombineSpec.Listing>,
                                         url2item: map<string, Item<int>>, cats: seq<seq<int>>)
    requires MergedState(xs, ls, orig, |xs|, url2item, cats)
    ensures Merged(xs, ls, url2item, cats)
  {
    TraversalKeys(xs, ls, url2item);
    forall u | u in url2item
      ensures url2item[u].url == u
    {
      var f := StoredIsFirst(xs, ls, orig, |xs|, url2item, cats, u);
    }
    forall t | 0 <= t < |xs| && xs[t] in url2item.Values
      ensures xs[t].url in CombineSpec.Combined(ls, |ls|) && cats[t] == CombineSpec.Combined(ls, |ls|)[xs[t].url]
    {
      var v :| v in url2item && url2item[v] == xs[t];
      var f := StoredIsFirst(xs, ls, orig, |xs|, url2item, cats, v);
    }
  }

  /** The outer loop of the merge: every category's list, in order, into an empty map. */
  method CombineCategories(categoryItems: seq<seq<Item<int>>>, ghost xs: seq<Item<int>>,
                           ghost ls: seq<CombineSpec.Listing>, ghost orig: map<Item<int>, CombineSpec.Listing>)
    returns (url2item: map<string, Item<int>>)
    requires xs == Flatten(categoryItems)
    requires MergedUpTo(xs, ls, orig, 0, map[])
    modifies set x | x in xs
    ensures MergedUpTo(xs, ls, orig, |xs|, url2item)
  {
    url2item := map[];
    ghost var k := 0;
    var i := 0;
    while i < |categoryItems|
      invariant 0 <= i <= |categoryItems|
      invariant k == |Flatten(categoryItems[..i])| && k <= |xs|
      invariant MergedUpTo(xs, ls, orig, k, url2item)
    {
      var itemsForCategory := categoryItems[i];
      FlattenAt(categoryItems, i, xs, k);
      url2item, k := CombineCategory(xs, ls, orig, k, url2item, itemsForCategory);
      i := i + 1;
    }
    assert categoryItems[..i] == categoryItems;
  }

  /**
   * `flatMapCombineCategories`: walks the per-category lists in order with
   * a url-keyed map. The first item seen for a url is stored as it is; each
   * later item with that url appends its `categories[0]` to the stored
   * item's categories, in place. The result is the map (its values are what
   * the source returns). The stored items are the input objects themselves,
   * so the first item of each url is the one that changes; every other
   * input object is left as it was. The ghost results name the traversal
   * order and each item's url and categories before the merge.
   */
  method FlatMapCombineCategories(categoryItems: seq<seq<Item<int>>>)
    returns (url2item: map<string, Item<int>>, ghost xs: seq<Item<int>>, ghost ls: seq<CombineSpec.Listing>)
    requires forall x | x in Flatten(categoryItems) :: x.categories != []
    modifies set x | x in Flatten(categoryItems)
    ensures xs == Flatten(categoryItems) && ls == old(Listings(Flatten(categoryItems)))
    ensures Merged(xs, ls, url2item, CategoriesOf(xs))
  {
    xs := Flatten(categoryItems);
    ls := Listings(xs);
    ghost var orig := map x | x in xs :: CombineSpec.Listing(x.url, x.categories);
    MergeStart(xs, ls, orig);
    url2item := CombineCategories(categoryItems, xs, ls, orig);
    MergeComplete(xs, ls, orig, url2item, CategoriesOf(xs));
  }
}
