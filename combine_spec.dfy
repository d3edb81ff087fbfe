/**
 * The cross-category merge on values: what `flatMapCombineCategories`
 * computes, stated on the url and categories of each item in traversal
 * order, before anything is mutated. Everything is stated for the first
 * `n` items of a fixed traversal `ls`, which is what the merge loop has
 * seen after `n` steps.
 */
module CombineSpec {

  /** The part of an item the merge looks at: its url and its categories array. */
  datatype Listing = Listing(url: string, categories: seq<int>)

  /** Every item has a `categories[0]` to contribute. */
  predicate Categorised(ls: seq<Listing>)
  {
    forall i | 0 <= i < |ls| :: ls[i].categories != []
  }

  /**
   * The url-keyed map after the first `n` items: the first item with a url
   * puts its categories in; every later item with that url appends its
   * first category (list semantics: a repeated category is appended again).
   */
  function Combined(ls: seq<Listing>, n: nat): (m: map<string, seq<int>>)
    requires Categorised(ls) && n <= |ls|
    ensures forall u | u in m :: m[u] != []
  {
    if n == 0 then map[]
    else
      var m := Combined(ls, n - 1);
      var l := ls[n - 1];
      if l.url in m then m[l.url := m[l.url] + [l.categories[0]]]
      else m[l.url := l.categories]
  }

  /** The first category of each item in `ls[lo..hi]` that has url `u`, in order. */
  function HeadsBetween(ls: seq<Listing>, lo: nat, hi: nat, u: string): seq<int>
    requires Categorised(ls) && lo <= hi <= |ls|
    decreases hi
  {
    if hi == lo then []
    else HeadsBetween(ls, lo, hi - 1, u) + if ls[hi - 1].url == u then [ls[hi - 1].categories[0]] else []
  }

  /** After `n` items, a url is a key exactly when one of those items carries it. */
  lemma {:induction false} CombinedKeys(ls: seq<Listing>, n: nat, u: string)
    requires Categorised(ls) && n <= |ls|
    ensures u in Combined(ls, n) <==> exists j | 0 <= j < n :: ls[j].url == u
  {
    if n > 0 {
      CombinedKeys(ls, n - 1, u);
    }
  }

  /** `ls[f]` is the first item with its url. */
  predicate FirstWithUrl(ls: seq<Listing>, f: nat)
  {
    f < |ls| && forall j | 0 <= j < f :: ls[j].url != ls[f].url
  }

  /**
   * The merged categories of a url are the categories of the first item
   * with that url followed by the first category of every later one.
   */
  lemma {:induction false} CombinedAt(ls: seq<Listing>, n: nat, f: nat)
    requires Categorised(ls) && n <= |ls|
    requires FirstWithUrl(ls, f) && f < n
    ensures ls[f].url in Combined(ls, n)
    ensures Combined(ls, n)[ls[f].url] == ls[f].categories + HeadsBetween(ls, f + 1, n, ls[f].url)
  {
    var u := ls[f].url;
    if n == f + 1 {
      CombinedKeys(ls, f, u);
    } else {
      CombinedAt(ls, n - 1, f);
      var extra := if ls[n - 1].url == u then [ls[n - 1].categories[0]] else [];
      var first, heads := ls[f].categories, HeadsBetween(ls, f + 1, n - 1, u);
      assert Combined(ls, n)[u] == (first + heads) + extra;
      assert (first + heads) + extra == first + (heads + extra);
    }
  }

  /** The number of category entries over all urls of a merged map. */
  ghost function TotalEntries(m: map<string, seq<int>>): nat
    decreases |m|
  {
    if m == map[] then 0
    else
      var u :| u in m;
      assert |m - {u}| < |m| by {
        assert (m - {u}).Keys == m.Keys - {u};
      }
      |m[u]| + TotalEntries(m - {u})
  }

  /** The total can be taken apart at any url. */
  lemma {:induction false} TotalEntriesAt(m: map<string, seq<int>>, u: string)
    requires u in m
    ensures TotalEntries(m) == |m[u]| + TotalEntries(m - {u})
    decreases |m|
  {
    var v :| v in m && TotalEntries(m) == |m[v]| + TotalEntries(m - {v});
    if v != u {
      assert (m - {v}).Keys == m.Keys - {v};
      assert (m - {u}).Keys == m.Keys - {u};
      TotalEntriesAt(m - {v}, u);
      TotalEntriesAt(m - {u}, v);
      assert m - {v} - {u} == m - {u} - {v};
    }
  }

  /**
   * When every item comes with exactly one category (as every parsed item
   * does), the merged map holds as many category entries as there were items.
   */
  lemma {:induction false} CombinedTotal(ls: seq<Listing>, n: nat)
    requires forall i | 0 <= i < |ls| :: |ls[i].categories| == 1
    requires n <= |ls|
    ensures TotalEntries(Combined(ls, n)) == n
  {
    if n > 0 {
      CombinedTotal(ls, n - 1);
      var m := Combined(ls, n - 1);
      var m' := Combined(ls, n);
      var u := ls[n - 1].url;
      TotalEntriesAt(m', u);
      if u in m {
        TotalEntriesAt(m, u);
        assert m' - {u} == m - {u};
      } else {
        assert m' - {u} == m;
      }
    }
  }

  /** A url listed twice under the same category gets that category twice. */
  lemma RepeatedCategoryKept(u: string, c: int)
    ensures Combined([Listing(u, [c]), Listing(u, [c])], 2)[u] == [c, c]
  {
    var ls := [Listing(u, [c]), Listing(u, [c])];
    assert Combined(ls, 1) == map[u := [c]];
  }
}
