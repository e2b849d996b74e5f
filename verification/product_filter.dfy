/**
  The product filter page: keep the products matching the search term, the
  category and the price range; sort them by name, price or rating; compute the
  count statistics; show at most six and report how many more there are.
 */
module ProductFilter {
  import opened Base
  import Text

  /** Prices and ratings are integers here (ratings in tenths of a star). */
  datatype Product = Product(id: int, name: string, category: string, price: int, rating: int)

  /** The page's filter state: search term, category select, price range. */
  datatype Criteria = Criteria(searchTerm: string, category: string, minPrice: int, maxPrice: int)

  /** The initial state: empty term, all categories, prices 0 to 1000. */
  const DefaultCriteria: Criteria := Criteria("", "all", 0, 1000)

  /** The initial sort key. */
  const DefaultSortBy: string := "name"

  /** How many products the page renders. */
  const DisplayCap: nat := 6

  /** Case-insensitive substring test of the name. */
  predicate MatchesSearch(p: Product, term: string) {
    Text.Includes(Text.Lower(p.name), Text.Lower(term))
  }

  predicate MatchesCategory(p: Product, category: string) {
    category == "all" || p.category == category
  }

  predicate MatchesPrice(p: Product, minPrice: int, maxPrice: int) {
    p.price >= minPrice && p.price <= maxPrice
  }

  /** The filter callback. */
  predicate Keep(p: Product, c: Criteria) {
    MatchesSearch(p, c.searchTerm) && MatchesCategory(p, c.category) && MatchesPrice(p, c.minPrice, c.maxPrice)
  }

  /** `products.filter(...)`: a new list, in the original order, of exactly the
      products the callback keeps, each as many times as the input holds it. */
  function Filter(products: seq<Product>, c: Criteria): (r: seq<Product>)
    ensures IsSubseq(r, products)
    ensures forall p :: p in r <==> p in products && Keep(p, c)
    ensures forall p :: multiset(r)[p] == if Keep(p, c) then multiset(products)[p] else 0
    decreases |products|
  {
    if |products| == 0 then []
    else
      assert products == [products[0]] + products[1..];
      if Keep(products[0], c) then [products[0]] + Filter(products[1..], c)
    else Filter(products[1..], c)
  }

  /** The name test, stated without the scan: the lower-cased term occurs at
      some position of the lower-cased name. An empty term matches every name. */
  lemma SearchMeaning(p: Product, term: string)
    ensures MatchesSearch(p, term) <==> exists i: nat :: Text.OccursAt(Text.Lower(p.name), Text.Lower(term), i)
    ensures |term| == 0 ==> MatchesSearch(p, term)
  {
    Text.IncludesIff(Text.Lower(p.name), Text.Lower(term));
    if |term| == 0 {
      Text.EmptyIncluded(Text.Lower(p.name));
    }
  }

  /** The price range includes both of its ends. */
  lemma PriceRangeInclusive(p: Product, c: Criteria)
    requires c.minPrice <= c.maxPrice
    requires p.price == c.minPrice || p.price == c.maxPrice
    ensures MatchesPrice(p, c.minPrice, c.maxPrice)
  {
  }

  /** The price test alone, as a plain recursive filter. */
  function PriceOnly(products: seq<Product>, minPrice: int, maxPrice: int): seq<Product>
    decreases |products|
  {
    if |products| == 0 then []
    else
      (if MatchesPrice(products[0], minPrice, maxPrice) then [products[0]] else [])
      + PriceOnly(products[1..], minPrice, maxPrice)
  }

  /** With an empty term and category "all", the filter keeps exactly the
      products in the price range: the other two tests never reject. */
  lemma {:induction false} OpenFilterIsPriceFilter(products: seq<Product>, minPrice: int, maxPrice: int)
    ensures Filter(products, Criteria("", "all", minPrice, maxPrice)) == PriceOnly(products, minPrice, maxPrice)
    decreases |products|
  {
    if |products| > 0 {
      SearchMeaning(products[0], "");
      OpenFilterIsPriceFilter(products[1..], minPrice, maxPrice);
    }
  }

  /** The sort comparator: negative when `a` goes first. Unknown keys compare
      every pair as equal. */
  function Compare(a: Product, b: Product, sortBy: string): (r: int)
    ensures sortBy == "name" ==> (r == 0 <==> a.name == b.name)
  {
    Text.CompareZeroIffEqual(a.name, b.name);
    if sortBy == "name" then Text.Compare(a.name, b.name)
    else if sortBy == "price" then a.price - b.price
    else if sortBy == "rating" then b.rating - a.rating
    else 0
  }

  lemma CompareFlip(a: Product, b: Product, sortBy: string)
    ensures Compare(b, a, sortBy) == -Compare(a, b, sortBy)
  {
    if sortBy == "name" {
      Text.CompareFlip(a.name, b.name);
    }
  }

  lemma CompareTransitive(a: Product, b: Product, c: Product, sortBy: string)
    requires Compare(a, b, sortBy) <= 0 && Compare(b, c, sortBy) <= 0
    ensures Compare(a, c, sortBy) <= 0
  {
    if sortBy == "name" {
      Text.CompareTransitive(a.name, b.name, c.name);
    }
  }

  /** Neighbours are in comparator order. */
  ghost predicate Sorted(s: seq<Product>, sortBy: string) {
    forall i :: 0 <= i < |s| - 1 ==> Compare(s[i], s[i + 1], sortBy) <= 0
  }

  /** Insert `x` before the first element it does not come after. */
  function Insert(x: Product, ys: seq<Product>, sortBy: string): (r: seq<Product>)
    ensures multiset(r) == multiset(ys) + multiset{x}
    ensures |r| > 0 && (r[0] == x || (|ys| > 0 && r[0] == ys[0]))
    decreases |ys|
  {
    if |ys| == 0 || Compare(x, ys[0], sortBy) <= 0 then [x] + ys
    else
      assert ys == [ys[0]] + ys[1..];
      [ys[0]] + Insert(x, ys[1..], sortBy)
  }

  lemma SortedTail(ys: seq<Product>, sortBy: string)
    requires |ys| > 0 && Sorted(ys, sortBy)
    ensures Sorted(ys[1..], sortBy)
  {
    forall i | 0 <= i < |ys[1..]| - 1 ensures Compare(ys[1..][i], ys[1..][i + 1], sortBy) <= 0 {
      assert ys[1..][i] == ys[i + 1] && ys[1..][i + 1] == ys[i + 2];
    }
  }

  lemma {:induction false} InsertKeepsSorted(x: Product, ys: seq<Product>, sortBy: string)
    requires Sorted(ys, sortBy)
    ensures Sorted(Insert(x, ys, sortBy), sortBy)
    decreases |ys|
  {
    if |ys| > 0 && Compare(x, ys[0], sortBy) > 0 {
      CompareFlip(x, ys[0], sortBy);
      SortedTail(ys, sortBy);
      InsertKeepsSorted(x, ys[1..], sortBy);
      var rest := Insert(x, ys[1..], sortBy);
      var r := Insert(x, ys, sortBy);
      assert r == [ys[0]] + rest;
      forall i | 0 <= i < |r| - 1 ensures Compare(r[i], r[i + 1], sortBy) <= 0 {
        if i > 0 {
          assert r[i] == rest[i - 1] && r[i + 1] == rest[i];
        } else {
          assert r[1] == rest[0];
        }
      }
    }
  }

  /** `sortedProducts`: the filtered list in comparator order. */
  function Sort(s: seq<Product>, sortBy: string): (r: seq<Product>)
    ensures multiset(r) == multiset(s)
    ensures Sorted(r, sortBy)
    decreases |s|
  {
    if |s| == 0 then []
    else
      assert s == [s[0]] + s[1..];
      var rest := Sort(s[1..], sortBy);
      InsertKeepsSorted(s[0], rest, sortBy);
      Insert(s[0], rest, sortBy)
  }

  lemma {:induction false} SortedPair(s: seq<Product>, sortBy: string, i: nat, j: nat)
    requires Sorted(s, sortBy)
    requires i < j < |s|
    ensures Compare(s[i], s[j], sortBy) <= 0
    decreases j - i
  {
    if i + 1 < j {
      SortedPair(s, sortBy, i, j - 1);
      CompareTransitive(s[i], s[j - 1], s[j], sortBy);
    }
  }

  /** What the order means for each key, for every pair and not only
      neighbours: ascending price, descending rating, names in lexicographic
      order; and the list is a permutation of its input. */
  lemma SortMeaning(s: seq<Product>, sortBy: string)
    ensures multiset(Sort(s, sortBy)) == multiset(s)
    ensures var r := Sort(s, sortBy);
            sortBy == "price" ==> forall i, j :: 0 <= i < j < |r| ==> r[i].price <= r[j].price
    ensures var r := Sort(s, sortBy);
            sortBy == "rating" ==> forall i, j :: 0 <= i < j < |r| ==> r[i].rating >= r[j].rating
    ensures var r := Sort(s, sortBy);
            sortBy == "name" ==> forall i, j :: 0 <= i < j < |r| ==> Text.Compare(r[i].name, r[j].name) <= 0
  {
    var r := Sort(s, sortBy);
    forall i, j | 0 <= i < j < |r| ensures Compare(r[i], r[j], sortBy) <= 0 {
      SortedPair(r, sortBy, i, j);
    }
  }

  /** With a key the comparator does not know, every pair ties and the sort
      leaves the list as it is. */
  lemma {:induction false} UnknownKeyKeepsOrder(s: seq<Product>, sortBy: string)
    requires sortBy != "name" && sortBy != "price" && sortBy != "rating"
    ensures Sort(s, sortBy) == s
    decreases |s|
  {
    if |s| > 0 {
      UnknownKeyKeepsOrder(s[1..], sortBy);
      assert s == [s[0]] + s[1..];
    }
  }

  /** Some product of the list has category `c`. */
  ghost predicate HasCategory(s: seq<Product>, c: string) {
    exists i :: 0 <= i < |s| && s[i].category == c
  }

  lemma HasCategoryCons(s: seq<Product>, c: string)
    requires |s| > 0
    ensures HasCategory(s, c) <==> c == s[0].category || HasCategory(s[1..], c)
  {
    if HasCategory(s[1..], c) {
      var i :| 0 <= i < |s[1..]| && s[1..][i].category == c;
      assert s[i + 1].category == c;
    }
    if HasCategory(s, c) && c != s[0].category {
      var i :| 0 <= i < |s| && s[i].category == c;
      assert s[1..][i - 1].category == c;
    }
  }

  /** The distinct categories of a list. */
  function CategorySet(s: seq<Product>): (r: set<string>)
    ensures forall c :: c in r <==> HasCategory(s, c)
    decreases |s|
  {
    if |s| == 0 then {}
    else
      var rest := CategorySet(s[1..]);
      assert forall c :: HasCategory(s, c) <==> c == s[0].category || HasCategory(s[1..], c) by {
        forall c ensures HasCategory(s, c) <==> c == s[0].category || HasCategory(s[1..], c) {
          HasCategoryCons(s, c);
        }
      }
      {s[0].category} + rest
  }

  lemma {:induction false} CategoryCountBound(s: seq<Product>)
    ensures |CategorySet(s)| <= |s|
    ensures |s| > 0 ==> |CategorySet(s)| >= 1
    decreases |s|
  {
    if |s| > 0 {
      CategoryCountBound(s[1..]);
      assert s[0].category in CategorySet(s);
      assert CategorySet(s) == {s[0].category} + CategorySet(s[1..]);
    }
  }

  /** Reordering a list does not change which categories it contains. */
  lemma CategoriesOfPermutation(a: seq<Product>, b: seq<Product>)
    requires multiset(a) == multiset(b)
    ensures CategorySet(a) == CategorySet(b)
  {
    forall c | c in CategorySet(a) ensures c in CategorySet(b) {
      var i :| 0 <= i < |a| && a[i].category == c;
      assert a[i] in multiset(b);
      var j :| 0 <= j < |b| && b[j] == a[i];
    }
    forall c | c in CategorySet(b) ensures c in CategorySet(a) {
      var j :| 0 <= j < |b| && b[j].category == c;
      assert b[j] in multiset(a);
      var i :| 0 <= i < |a| && a[i] == b[j];
    }
  }

  /** `productStats` without the average price. */
  datatype Stats = Stats(total: nat, categories: nat)

  function StatsOf(s: seq<Product>): (r: Stats)
    ensures r.total == |s|
    ensures r.categories == |CategorySet(s)|
    ensures r.categories <= r.total
    ensures r.total > 0 ==> r.categories >= 1
  {
    CategoryCountBound(s);
    Stats(|s|, |CategorySet(s)|)
  }

  /** `sortedProducts.slice(0, 6)`. */
  function Shown(s: seq<Product>): (r: seq<Product>)
    ensures |r| <= DisplayCap
    ensures |r| == if |s| < DisplayCap then |s| else DisplayCap
    ensures r == s[..|r|]
  {
    if |s| <= DisplayCap then s else s[..DisplayCap]
  }

  /** The "... and N more products" line, present only past the cap. */
  function More(s: seq<Product>): (r: Option<nat>)
    ensures r.Some? <==> |s| > DisplayCap
    ensures r.Some? ==> r.value > 0 && |Shown(s)| + r.value == |s|
  {
    if |s| > DisplayCap then Some(|s| - DisplayCap) else None
  }

  /** What the page renders for a product list and its filter and sort state. */
  datatype View = View(stats: Stats, shown: seq<Product>, more: Option<nat>)

  function Render(products: seq<Product>, c: Criteria, sortBy: string): View {
    var sorted := Sort(Filter(products, c), sortBy);
    View(StatsOf(sorted), Shown(sorted), More(sorted))
  }

  /** The page as a whole: the statistics describe exactly the matching
      products, every shown product matches, and shown plus "more" account for
      every match. */
  lemma RenderMeaning(products: seq<Product>, c: Criteria, sortBy: string)
    ensures var v := Render(products, c, sortBy);
            && v.stats.total == |Filter(products, c)|
            && v.stats.categories == |CategorySet(Filter(products, c))|
            && (forall p :: p in v.shown ==> p in products && Keep(p, c))
            && |v.shown| + (if v.more.Some? then v.more.value else 0) == v.stats.total
  {
    var filtered := Filter(products, c);
    var sorted := Sort(filtered, sortBy);
    CategoriesOfPermutation(sorted, filtered);
    var v := Render(products, c, sortBy);
    forall p | p in v.shown ensures p in products && Keep(p, c) {
      assert p in sorted;
      assert p in multiset(filtered);
    }
  }

  /** The page as first rendered: every product priced 0 to 1000 is counted,
      the rest are not, and what is shown is in name order. */
  lemma InitialPage(products: seq<Product>)
    ensures var v := Render(products, DefaultCriteria, DefaultSortBy);
            && v.stats.total == |PriceOnly(products, 0, 1000)|
            && (forall p :: p in v.shown ==> p in products && 0 <= p.price <= 1000)
            && (forall i, j :: 0 <= i < j < |v.shown| ==> Text.Compare(v.shown[i].name, v.shown[j].name) <= 0)
  {
    var filtered := Filter(products, DefaultCriteria);
    var sorted := Sort(filtered, DefaultSortBy);
    OpenFilterIsPriceFilter(products, 0, 1000);
    SortMeaning(filtered, DefaultSortBy);
    var v := Render(products, DefaultCriteria, DefaultSortBy);
    forall p | p in v.shown ensures p in products && 0 <= p.price <= 1000 {
      assert p in sorted;
      assert p in multiset(filtered);
    }
  }
}
