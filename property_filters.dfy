/** The filter bar above the property list: three selects whose values live
    both in local state and in the URL's query parameters. */
module PropertyFilters {
  import opened SearchParams

  const ListingTypeKey := "listingType"
  const CategoryIdKey := "categoryId"
  const LocationIdKey := "locationId"

  /** `searchParams.get(name) || ''`. */
  function InitialValue(params: Params, name: string): (value: string)
    ensures name in params ==> value == params[name]
    ensures name !in params ==> value == ""
  {
    if name in params && params[name] != "" then params[name] else ""
  }

  /** The query after a change of `name` to `value`: set when the value is
      non-empty, removed for the empty "All" choice, every other parameter
      (the page number included) kept. */
  function ChangedParams(params: Params, name: string, value: string): (updated: Params)
    ensures value != "" ==> name in updated && updated[name] == value
    ensures value == "" ==> name !in updated
    ensures updated.Keys - {name} == params.Keys - {name}
    ensures forall k :: k in params && k != name ==> k in updated && updated[k] == params[k]
  {
    if value != "" then params[name := value] else params - {name}
  }

  /** After navigating to the new URL, a freshly initialised filter reads
      back the chosen value. */
  lemma ChangeSurvivesNavigation(params: Params, name: string, value: string)
    ensures InitialValue(ChangedParams(params, name, value), name) == value
  {
  }

  /** Choosing "All" after any choice leaves the query as if the filter had
      never been set. */
  lemma ResetForgetsChoice(params: Params, name: string, value: string)
    ensures ChangedParams(ChangedParams(params, name, value), name, "") == params - {name}
  {
  }

  class FilterState {
    var listingType: string
    var categoryId: string
    var locationId: string

    /** Local state starts from the URL. */
    constructor (params: Params)
      ensures listingType == InitialValue(params, ListingTypeKey)
      ensures categoryId == InitialValue(params, CategoryIdKey)
      ensures locationId == InitialValue(params, LocationIdKey)
    {
      listingType := InitialValue(params, ListingTypeKey);
      categoryId := InitialValue(params, CategoryIdKey);
      locationId := InitialValue(params, LocationIdKey);
    }

    /** `handleFilterChange` for a select named `name`: updates the state
        that the name selects and answers with the navigation target. */
    method HandleFilterChange(params: Params, name: string, value: string) returns (target: Url)
      modifies this
      ensures listingType == if name == ListingTypeKey then value else old(listingType)
      ensures categoryId == if name == CategoryIdKey then value else old(categoryId)
      ensures locationId == if name == LocationIdKey then value else old(locationId)
      ensures target == Url(Home, ChangedParams(params, name, value))
    {
      if name == ListingTypeKey { listingType := value; }
      if name == CategoryIdKey { categoryId := value; }
      if name == LocationIdKey { locationId := value; }
      var currentParams := params;
      if value != "" {
        currentParams := currentParams[name := value];
      } else {
        currentParams := currentParams - {name};
      }
      target := Url(Home, currentParams);
    }
  }

  /** Changing one filter and reloading the page from the new URL shows the
      new value for that filter and the old values for the others. */
  method ChangeThenReload(params: Params, name: string, value: string)
    returns (listingType: string, categoryId: string, locationId: string)
    requires name == ListingTypeKey || name == CategoryIdKey || name == LocationIdKey
    ensures listingType == if name == ListingTypeKey then value else InitialValue(params, ListingTypeKey)
    ensures categoryId == if name == CategoryIdKey then value else InitialValue(params, CategoryIdKey)
    ensures locationId == if name == LocationIdKey then value else InitialValue(params, LocationIdKey)
  {
    var filters := new FilterState(params);
    var target := filters.HandleFilterChange(params, name, value);
    var reloaded := new FilterState(target.query);
    listingType, categoryId, locationId := reloaded.listingType, reloaded.categoryId, reloaded.locationId;
  }
}
