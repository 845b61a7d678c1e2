/**
 * The service list of `src/pages/Services.tsx`: the category chosen from the
 * address or by the filter buttons, and the list of services it shows.
 * Route changes are not modelled; the category read from the address is
 * passed in.
 */
module ServicesView {
  import opened Options
  import opened Seqs
  import opened Catalog
  import opened Store

  /** The services shown for a selection: all of them for '', otherwise those of that category. */
  function FilterServices(selectedCategory: string): (r: seq<Service>)
    ensures selectedCategory == "" ==> r == Services
    ensures selectedCategory != "" ==> forall s :: s in r <==> s in Services && s.category == selectedCategory
    ensures Subsequence(r, Services)
  {
    if selectedCategory != "" then GetServicesByCategory(Services, selectedCategory)
    else
      SubsequenceOfItself(Services);
      Services
  }

  lemma {:induction false} SubsequenceOfItself<T>(xs: seq<T>)
    ensures Subsequence(xs, xs)
  {
    if xs != [] {
      SubsequenceOfItself(xs[1..]);
    }
  }

  /** A known category shows at least one service. */
  lemma KnownCategoryShowsServices(selectedCategory: string)
    requires selectedCategory in GetServiceCategories(Services)
    ensures FilterServices(selectedCategory) != []
  {
    CatalogCategories();
    ListedCategoriesAreNonEmpty(Services, selectedCategory);
  }

  class ServicesPage {
    var selectedCategory: string
    var filteredServices: seq<Service>

    /** The selection is '' (all services) or one of the listed categories. */
    predicate Valid()
      reads this
    {
      selectedCategory == "" || selectedCategory in GetServiceCategories(Services)
    }

    constructor ()
      ensures selectedCategory == "" && filteredServices == Services && Valid()
    {
      selectedCategory := "";
      filteredServices := Services;
    }

    /**
     * The address effect: a `category` parameter is adopted only when it is
     * non-empty and one of the listed categories; otherwise the selection
     * becomes ''.
     */
    method ApplyUrlCategory(category: Option<string>)
      modifies this
      ensures selectedCategory == if category.Some? && category.value != "" && category.value in GetServiceCategories(Services)
                                  then category.value else ""
      ensures Valid()
      ensures filteredServices == old(filteredServices)
    {
      if category.Some? && category.value != "" && category.value in GetServiceCategories(Services) {
        selectedCategory := category.value;
      } else {
        selectedCategory := "";
      }
    }

    /** The filter effect, run when the selection changes. */
    method ApplyCategoryFilter()
      modifies this
      ensures filteredServices == FilterServices(selectedCategory)
      ensures selectedCategory == old(selectedCategory)
      ensures Valid() ==> filteredServices != []
    {
      if selectedCategory != "" {
        filteredServices := GetServicesByCategory(Services, selectedCategory);
      } else {
        filteredServices := Services;
      }
      if selectedCategory != "" && Valid() {
        KnownCategoryShowsServices(selectedCategory);
      }
    }

    /**
     * `handleCategoryClick`: clicking the selected category clears the
     * selection, any other sets it.  The buttons pass '' or a listed
     * category, and then the selection stays valid.
     */
    method HandleCategoryClick(category: string)
      modifies this
      ensures selectedCategory == if old(selectedCategory) == category then "" else category
      ensures old(Valid()) && (category == "" || category in GetServiceCategories(Services)) ==> Valid()
      ensures filteredServices == old(filteredServices)
    {
      if selectedCategory == category {
        selectedCategory := "";
      } else {
        selectedCategory := category;
      }
    }

    /** `handleServiceSelect`: the chosen service becomes the store's selection (then the page moves to booking). */
    method HandleServiceSelect(store: AppointmentStore, service: Service)
      modifies store
      ensures store.selectedService == Some(service)
      ensures store.appointments == old(store.appointments) && store.selectedTimeSlot == old(store.selectedTimeSlot)
      ensures store.selectedDate == old(store.selectedDate) && store.CustomerDetails() == old(store.CustomerDetails())
    {
      store.SetSelectedService(Some(service));
    }
  }
}
