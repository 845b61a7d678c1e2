/**
 * The service catalog of `src/data/services.ts` and its three queries.
 *
 * The queries are written over any catalog `cs`; `Services` is the one the
 * application ships, and the lemmas at the end are about it.
 */
module Catalog {
  import opened Options
  import opened Seqs

  /** A bookable service; the description and the picture are display text and are not kept. */
  datatype Service = Service(id: string, name: string, duration: int, price: int, category: string)

  /** The six services of the shop (durations in minutes, prices in dollars). */
  const Services: seq<Service> := [
    Service("1", "Hair Cut", 30, 35, "Hair"),
    Service("2", "Hair Coloring", 120, 120, "Hair"),
    Service("3", "Facial Treatment", 60, 85, "Skin"),
    Service("4", "Massage Therapy", 60, 90, "Wellness"),
    Service("5", "Manicure", 45, 40, "Nails"),
    Service("6", "Pedicure", 60, 50, "Nails")
  ]

  // ---------------------------------------------------------------------------
  // getServiceById (src/data/services.ts:60-62)
  // ---------------------------------------------------------------------------

  /** `find`: the first service with the id, if any. */
  function GetServiceById(cs: seq<Service>, id: string): (r: Option<Service>)
    ensures r.Some? ==> r.value in cs && r.value.id == id
    ensures r.None? <==> forall s :: s in cs ==> s.id != id
  {
    if cs == [] then None
    else if cs[0].id == id then Some(cs[0])
    else GetServiceById(cs[1..], id)
  }

  /** The service found is the first one carrying the id. */
  lemma {:induction false} GetServiceByIdFirst(cs: seq<Service>, id: string, i: int)
    requires 0 <= i < |cs| && cs[i].id == id
    requires forall j :: 0 <= j < i ==> cs[j].id != id
    ensures GetServiceById(cs, id) == Some(cs[i])
  {
    if i > 0 {
      GetServiceByIdFirst(cs[1..], id, i - 1);
    }
  }

  // ---------------------------------------------------------------------------
  // getServiceCategories (src/data/services.ts:64-67)
  // ---------------------------------------------------------------------------

  /**
   * `Array.from(new Set(categories))`: a `Set` keeps its elements in the
   * order of their first insertion, so each category is listed once, where
   * it first occurs.
   */
  function GetServiceCategories(cs: seq<Service>): seq<string>
    decreases |cs|
  {
    if cs == [] then []
    else
      var prev := GetServiceCategories(cs[..|cs| - 1]);
      var c := cs[|cs| - 1].category;
      if c in prev then prev else prev + [c]
  }

  /** Each category of the catalog is listed, exactly once, and nothing else is. */
  lemma {:induction false} CategoriesExactly(cs: seq<Service>)
    ensures Distinct(GetServiceCategories(cs))
    ensures forall c :: c in GetServiceCategories(cs) <==> exists k :: 0 <= k < |cs| && cs[k].category == c
    decreases |cs|
  {
    if cs != [] {
      var init := cs[..|cs| - 1];
      CategoriesExactly(init);
      assert forall k :: 0 <= k < |init| ==> init[k] == cs[k];
    }
  }

  /** No service before position `k` has the category of the one at `k`. */
  predicate FirstOfCategory(cs: seq<Service>, k: int)
    requires 0 <= k < |cs|
  {
    forall j :: 0 <= j < k ==> cs[j].category != cs[k].category
  }

  /** The categories of the first `n` services that open their category, in catalog order. */
  function FirstOccurrences(cs: seq<Service>, n: int): seq<string>
    requires 0 <= n <= |cs|
  {
    if n == 0 then []
    else FirstOccurrences(cs, n - 1) + (if FirstOfCategory(cs, n - 1) then [cs[n - 1].category] else [])
  }

  /** The categories are listed in the order in which they first occur in the catalog. */
  lemma {:induction false} CategoriesInFirstOccurrenceOrder(cs: seq<Service>)
    ensures GetServiceCategories(cs) == FirstOccurrences(cs, |cs|)
    decreases |cs|
  {
    if cs != [] {
      var n := |cs|;
      var init := cs[..n - 1];
      CategoriesInFirstOccurrenceOrder(init);
      CategoriesExactly(init);
      FirstOccurrencesOfPrefix(cs, n - 1);
      var c := cs[n - 1].category;
      if c in GetServiceCategories(init) {
        var k :| 0 <= k < |init| && init[k].category == c;
        assert cs[k].category == c;
        assert !FirstOfCategory(cs, n - 1);
      } else {
        assert FirstOfCategory(cs, n - 1) by {
          forall j | 0 <= j < n - 1
            ensures cs[j].category != c
          {
            assert init[j] == cs[j];
          }
        }
      }
    }
  }

  /** `FirstOccurrences` of a prefix depends only on the prefix. */
  lemma {:induction false} FirstOccurrencesOfPrefix(cs: seq<Service>, n: int)
    requires 0 <= n <= |cs|
    ensures FirstOccurrences(cs[..n], n) == FirstOccurrences(cs, n)
  {
    if n > 0 {
      FirstOccurrencesOfPrefix(cs, n - 1);
      FirstOccurrencesOfPrefixStep(cs, n);
    }
  }

  lemma {:induction false} FirstOccurrencesOfPrefixStep(cs: seq<Service>, n: int)
    requires 0 < n <= |cs|
    ensures FirstOccurrences(cs[..n], n - 1) == FirstOccurrences(cs[..n - 1], n - 1)
    decreases n
  {
    FirstOccurrencesPrefixes(cs[..n], cs[..n - 1], n - 1);
  }

  /** Two catalogs that agree on their first `n` services agree on `FirstOccurrences(_, n)`. */
  lemma {:induction false} FirstOccurrencesPrefixes(xs: seq<Service>, ys: seq<Service>, n: int)
    requires 0 <= n <= |xs| && n <= |ys|
    requires forall k :: 0 <= k < n ==> xs[k] == ys[k]
    ensures FirstOccurrences(xs, n) == FirstOccurrences(ys, n)
  {
    if n > 0 {
      FirstOccurrencesPrefixes(xs, ys, n - 1);
      assert FirstOfCategory(xs, n - 1) == FirstOfCategory(ys, n - 1);
    }
  }

  // ---------------------------------------------------------------------------
  // getServicesByCategory (src/data/services.ts:69-71)
  // ---------------------------------------------------------------------------

  /** `filter` on the category. */
  function GetServicesByCategory(cs: seq<Service>, category: string): (r: seq<Service>)
    ensures forall s :: s in r <==> s in cs && s.category == category
    ensures Subsequence(r, cs)
  {
    Filter(cs, (s: Service) => s.category == category)
  }

  /** Every listed category has at least one service. */
  lemma ListedCategoriesAreNonEmpty(cs: seq<Service>, category: string)
    requires category in GetServiceCategories(cs)
    ensures GetServicesByCategory(cs, category) != []
  {
    CategoriesExactly(cs);
    var k :| 0 <= k < |cs| && cs[k].category == category;
    assert cs[k] in GetServicesByCategory(cs, category);
  }

  // ---------------------------------------------------------------------------
  // The shipped catalog
  // ---------------------------------------------------------------------------

  /** Ids are distinct, and every duration is positive and below eight hours. */
  lemma CatalogWellFormed()
    ensures forall i, j :: 0 <= i < j < |Services| ==> Services[i].id != Services[j].id
    ensures forall s :: s in Services ==> 0 < s.duration < 480
  {
  }

  /** The category buttons read Hair, Skin, Wellness, Nails. */
  lemma CatalogCategories()
    ensures GetServiceCategories(Services) == ["Hair", "Skin", "Wellness", "Nails"]
  {
    CategoriesOfCatalog(Services, "Hair", "Skin", "Wellness", "Nails");
  }

  /** The categories of a catalog whose services fall in the categories of the shipped one. */
  lemma CategoriesOfCatalog(cs: seq<Service>, hair: string, skin: string, wellness: string, nails: string)
    requires |cs| == 6 && |hair| > 0 && |skin| > 0 && |wellness| > 0 && |nails| > 0
    requires hair[0] != skin[0] && hair[0] != wellness[0] && hair[0] != nails[0]
    requires skin[0] != wellness[0] && skin[0] != nails[0] && wellness[0] != nails[0]
    requires cs[0].category == hair && cs[1].category == hair && cs[2].category == skin
    requires cs[3].category == wellness && cs[4].category == nails && cs[5].category == nails
    ensures GetServiceCategories(cs) == [hair, skin, wellness, nails]
  {
    CategoriesInFirstOccurrenceOrder(cs);
    FirstOccurrencesOfCatalog(cs, hair, skin, wellness, nails);
  }

  lemma FirstOccurrencesOfCatalog(cs: seq<Service>, hair: string, skin: string, wellness: string, nails: string)
    requires |cs| == 6 && |hair| > 0 && |skin| > 0 && |wellness| > 0 && |nails| > 0
    requires hair[0] != skin[0] && hair[0] != wellness[0] && hair[0] != nails[0]
    requires skin[0] != wellness[0] && skin[0] != nails[0] && wellness[0] != nails[0]
    requires cs[0].category == hair && cs[1].category == hair && cs[2].category == skin
    requires cs[3].category == wellness && cs[4].category == nails && cs[5].category == nails
    ensures FirstOccurrences(cs, 6) == [hair, skin, wellness, nails]
  {
    assert !FirstOfCategory(cs, 1) && !FirstOfCategory(cs, 5);
    assert FirstOccurrences(cs, 1) == [hair];
    assert FirstOccurrences(cs, 2) == [hair];
    assert FirstOccurrences(cs, 3) == [hair, skin];
    assert FirstOccurrences(cs, 4) == [hair, skin, wellness];
    assert FirstOccurrences(cs, 5) == [hair, skin, wellness, nails];
  }
}
