/** `CoffeeList.tsx`: the catalog page with one state record, a
    `debounceTimer` ref, the `categories` and `filteredCoffees` memos, and
    the three handlers. */
module CoffeeListTsx {
  import opened Wrappers
  import opened Catalog
  import opened Http
  import opened CatalogQuery
  import opened Debounce

  class CoffeeList {
    var coffees: seq<Coffee>
    var searchTerm: string
    var displayedSearchTerm: string
    var selectedCategory: string
    var isLoading: bool
    var sortBy: SortBy
    var sortDirection: Direction
    /** `debounceTimer.current`: when the pending timer fires, if any. */
    var debounceTimer: Option<nat>
    /** The logical clock. */
    var now: nat

    /** The debounce as the clock state machine sees it. The timer's callback
        reads `prevState.searchTerm` when it runs, so the term it commits is
        the raw term of that moment. */
    function DebounceState(): Clock
      reads this
    {
      Clock(now, searchTerm, displayedSearchTerm,
        if debounceTimer.Some? then Some(Timer(debounceTimer.value, searchTerm)) else None)
    }

    function QueryState(): Query
      reads this
    {
      Query(selectedCategory, sortBy, sortDirection)
    }

    predicate Valid()
      reads this
    {
      Debounce.Valid(DebounceState())
    }

    /** The initial state record, after the debounce effect's first run. */
    constructor()
      ensures coffees == [] && isLoading
      ensures QueryState() == Query("", NoSort, Asc)
      ensures DebounceState() == Mount()
      ensures Valid()
    {
      coffees := [];
      searchTerm := "";
      displayedSearchTerm := "";
      selectedCategory := "";
      isLoading := true;
      sortBy := NoSort;
      sortDirection := Asc;
      now := 0;
      debounceTimer := Some(QuietWindow);
    }

    /** `fetchCoffees`: an ok response's JSON becomes the catalog; a failed
        or non-ok response leaves it. Loading ends false either way. */
    method FinishLoad(reply: FetchReply<seq<Coffee>>)
      modifies this
      ensures !isLoading
      ensures coffees == (if reply.Answered? && reply.ok then reply.json else old(coffees))
      ensures QueryState() == old(QueryState()) && DebounceState() == old(DebounceState())
    {
      if reply.Answered? && reply.ok {
        coffees := reply.json;
      }
      isLoading := false;
    }

    /** `handleSearchChange`, then the effect on `[searchTerm]` when the term
        changed: clear the pending timer and schedule a new one. */
    method HandleSearchChange(value: string)
      requires Valid()
      modifies this
      ensures Valid()
      ensures DebounceState() == Type(old(DebounceState()), value)
      ensures QueryState() == old(QueryState()) && coffees == old(coffees) && isLoading == old(isLoading)
    {
      var previous := searchTerm;
      searchTerm := value;
      if value != previous {
        debounceTimer := None;
        debounceTimer := Some(now + QuietWindow);
      }
    }

    /** The clock reaches `t`; a due timer sets the displayed term to the
        state's raw term. */
    method Tick(t: nat)
      requires Valid() && now <= t
      modifies this
      ensures Valid()
      ensures DebounceState() == Advance(old(DebounceState()), t)
      ensures QueryState() == old(QueryState()) && coffees == old(coffees) && isLoading == old(isLoading)
    {
      if debounceTimer.Some? && debounceTimer.value <= t {
        displayedSearchTerm := searchTerm;
        debounceTimer := None;
      }
      now := t;
    }

    /** The effect's cleanup when the page goes away. */
    method Teardown()
      modifies this
      ensures DebounceState() == Unmount(old(DebounceState()))
      ensures QueryState() == old(QueryState()) && coffees == old(coffees)
    {
      debounceTimer := None;
    }

    /** `handleCategoryChange`; the search terms are left alone. */
    method HandleCategoryChange(value: string)
      modifies this
      ensures QueryState() == OnCategoryChange(old(QueryState()), value)
      ensures searchTerm == old(searchTerm) && displayedSearchTerm == old(displayedSearchTerm)
      ensures DebounceState() == old(DebounceState()) && coffees == old(coffees)
    {
      selectedCategory := value;
      sortBy := if value != "" then ByCategory else NoSort;
      sortDirection := Asc;
    }

    /** `toggleAlphabeticalSort`. */
    method ToggleAlphabeticalSort()
      modifies this
      ensures QueryState() == OnTitleToggle(old(QueryState()))
      ensures DebounceState() == old(DebounceState()) && coffees == old(coffees)
    {
      sortDirection := if sortBy == ByTitle && sortDirection == Asc then Desc else Asc;
      sortBy := ByTitle;
    }

    /** The `categories` memo. */
    function CategoryOptions(): (r: seq<string>)
      reads this
      ensures |r| >= 1 && r[0] == ""
      ensures forall x :: x in r[1..] <==> exists c :: c in coffees && c.category == x
      ensures NoDuplicates(r[1..])
    {
      Categories(coffees)
    }

    /** The `filteredCoffees` memo: the copy `[...result]` is sorted, so it is
        a value computed from the state, which it leaves unchanged. */
    function FilteredCoffees(): (r: seq<Coffee>)
      reads this
      ensures forall c :: c in r <==> c in coffees && Matches(c, displayedSearchTerm, selectedCategory)
      ensures multiset(r) == multiset(Filter(coffees, displayedSearchTerm, selectedCategory))
      ensures sortBy == NoSort ==> r == Filter(coffees, displayedSearchTerm, selectedCategory)
      ensures sortBy == ByTitle ==> Sorted(r, KeyOf(TitleField), sortDirection)
      ensures sortBy == ByCategory ==> Sorted(r, KeyOf(CategoryField), sortDirection)
    {
      var r := Derive(coffees, displayedSearchTerm, selectedCategory, sortBy, sortDirection);
      forall c ensures c in r <==> c in coffees && Matches(c, displayedSearchTerm, selectedCategory) {
        DeriveSelects(coffees, displayedSearchTerm, selectedCategory, sortBy, sortDirection, c);
      }
      r
    }
  }
}
