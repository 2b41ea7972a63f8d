/** `CoffeeList.jsx`: the catalog page written with one `useState` per
    field. Unlike the TypeScript variant it sorts the filtered array in
    place, keeps the favourites itself, and its title button computes the
    new direction from the values of the render it was created in. */
module CoffeeListJsx {
  import opened Wrappers
  import opened Catalog
  import opened Http
  import opened CatalogQuery
  import opened Debounce
  import opened Favorites
  import JsNumber

  /** `a.sort(cmp)` with the comparator of this file: an insertion sort that
      inserts each entry, from the last to the first, into the sorted part
      after it. */
  method SortInPlace<T>(a: array<T>, key: T -> string, d: Direction)
    modifies a
    ensures a[..] == Sort(old(a[..]), key, d)
  {
    ghost var input := a[..];
    var i := a.Length;
    while i > 0
      invariant 0 <= i <= a.Length
      invariant a[..i] == input[..i]
      invariant a[i..] == Sort(input[i..], key, d)
      decreases i
    {
      i := i - 1;
      assert input[i..][1..] == input[i + 1..];
      assert a[i] == input[i..][0];
      InsertInto(a, i, key, d);
    }
    assert input[0..] == input;
  }

  /** Inserts `a[i]` into the sorted part `a[i+1..]`, shifting each entry it
      compares after one place left. */
  method InsertInto<T>(a: array<T>, i: nat, key: T -> string, d: Direction)
    requires i < a.Length
    modifies a
    ensures a[..i] == old(a[..i])
    ensures a[i..] == Insert(old(a[i]), old(a[i + 1..]), key, d)
  {
    ghost var sorted := a[i + 1..];
    var x := a[i];
    var j := i;
    while j + 1 < a.Length && CompareJsx(x, a[j + 1], key, d) > 0
      invariant i <= j < a.Length
      invariant forall k | 0 <= k < i :: a[k] == old(a[k])
      invariant forall k | i <= k < j :: a[k] == sorted[k - i]
      invariant forall k | j < k < a.Length :: a[k] == sorted[k - i - 1]
      invariant forall k | 0 <= k < j - i :: Compare(x, sorted[k], key, d) > 0
      decreases a.Length - j
    {
      a[j] := a[j + 1];
      j := j + 1;
    }
    a[j] := x;
    InsertPosition(x, sorted, j - i, key, d);
    ghost var expected := sorted[..j - i] + [x] + sorted[j - i..];
    assert |a[i..]| == |expected|;
    forall k | 0 <= k < |expected| ensures a[i..][k] == expected[k] {
      if k < j - i {
        assert expected[k] == sorted[k];
      } else if k > j - i {
        assert expected[k] == sorted[k - 1];
      }
    }
    assert a[i..] == expected;
  }

  /** `x` lands at position `k`: after every entry it compares after, before
      the first one it does not. */
  lemma {:induction false} InsertPosition<T>(x: T, sorted: seq<T>, k: nat, key: T -> string, d: Direction)
    requires k <= |sorted|
    requires forall m | 0 <= m < k :: Compare(x, sorted[m], key, d) > 0
    requires k == |sorted| || Compare(x, sorted[k], key, d) <= 0
    ensures Insert(x, sorted, key, d) == sorted[..k] + [x] + sorted[k..]
  {
    if k > 0 {
      InsertPosition(x, sorted[1..], k - 1, key, d);
      assert sorted[1..][..k - 1] == sorted[1..k];
      assert sorted[1..][k - 1..] == sorted[k..];
      assert sorted[..k] == [sorted[0]] + sorted[1..k];
    }
  }

  /** The page's state hooks, its effect timer and the shared storage. */
  class CoffeeList {
    var coffees: seq<Coffee>
    var searchTerm: string
    var displayedSearchTerm: string
    var selectedCategory: string
    var isLoading: bool
    var sortBy: SortBy
    var sortDirection: Direction
    var favorites: seq<int>
    /** The timer of the debounce effect's latest run, with the term its
        closure captured. */
    var timer: Option<Timer>
    /** The logical clock. */
    var now: nat
    const storage: Storage

    /** The debounce as the clock state machine sees it. */
    function DebounceState(): Clock
      reads this
    {
      Clock(now, searchTerm, displayedSearchTerm, timer)
    }

    function QueryState(): Query
      reads this
    {
      Query(selectedCategory, sortBy, sortDirection)
    }

    predicate Valid()
      reads this
    {
      Debounce.Valid(DebounceState())
    }

    /** The first render: the favourites come from storage (or []), and the
        debounce effect has run once. */
    constructor(storage: Storage)
      ensures this.storage == storage
      ensures favorites == InitialFavorites(storage.favoriteCoffees)
      ensures coffees == [] && isLoading
      ensures QueryState() == Query("", NoSort, Asc)
      ensures DebounceState() == Mount()
      ensures Valid()
    {
      coffees := [];
      searchTerm := "";
      displayedSearchTerm := "";
      selectedCategory := "";
      isLoading := true;
      sortBy := NoSort;
      sortDirection := Asc;
      favorites := InitialFavorites(storage.favoriteCoffees);
      this.storage := storage;
      now := 0;
      timer := Some(Timer(QuietWindow, ""));
    }

    /** `getCoffees`: the response data becomes the catalog; either way the
        loading flag ends false. */
    method FinishLoad(reply: AxiosReply<seq<Coffee>>)
      modifies this
      ensures !isLoading
      ensures coffees == (if reply.Resolved? then reply.data else old(coffees))
      ensures QueryState() == old(QueryState()) && DebounceState() == old(DebounceState())
      ensures favorites == old(favorites)
    {
      if reply.Resolved? {
        coffees := reply.data;
      }
      isLoading := false;
    }

    /** The input's `onChange`, then the debounce effect when the term
        changed: clear the old timer, start one that commits this term. */
    method OnSearchInput(value: string)
      requires Valid()
      modifies this
      ensures Valid()
      ensures DebounceState() == Type(old(DebounceState()), value)
      ensures QueryState() == old(QueryState()) && coffees == old(coffees) && favorites == old(favorites)
    {
      var previous := searchTerm;
      searchTerm := value;
      if value != previous {
        timer := None;
        timer := Some(Timer(now + QuietWindow, searchTerm));
      }
    }

    /** The clock reaches `t`; a due timer commits the term it captured. */
    method Tick(t: nat)
      requires Valid() && now <= t
      modifies this
      ensures Valid()
      ensures DebounceState() == Advance(old(DebounceState()), t)
      ensures QueryState() == old(QueryState()) && coffees == old(coffees) && favorites == old(favorites)
    {
      if timer.Some? && timer.value.due <= t {
        displayedSearchTerm := timer.value.term;
        timer := None;
      }
      now := t;
    }

    /** The select's `onChange`: three setters in a row. */
    method OnCategorySelect(value: string)
      modifies this
      ensures QueryState() == OnCategoryChange(old(QueryState()), value)
      ensures DebounceState() == old(DebounceState()) && coffees == old(coffees) && favorites == old(favorites)
    {
      selectedCategory := value;
      sortBy := if value != "" then ByCategory else NoSort;
      sortDirection := Asc;
    }

    /** The title button's `onClick`. Both setters read the `sortBy` and
        `sortDirection` of the render the handler was created in, so the new
        direction is computed from the state before the click. */
    method OnTitleClick()
      modifies this
      ensures QueryState() == OnTitleToggle(old(QueryState()))
      ensures DebounceState() == old(DebounceState()) && coffees == old(coffees) && favorites == old(favorites)
    {
      var renderedSortBy, renderedDirection := sortBy, sortDirection;
      sortBy := ByTitle;
      sortDirection := if renderedSortBy == ByTitle && renderedDirection == Asc then Desc else Asc;
    }

    /** `handleToggleFavorite`: the new list goes to storage, then to state. */
    method HandleToggleFavorite(id: int)
      modifies this, storage
      ensures favorites == Toggle(old(favorites), id)
      ensures storage.favoriteCoffees == Some(favorites)
      ensures QueryState() == old(QueryState()) && DebounceState() == old(DebounceState()) && coffees == old(coffees)
    {
      var newFavorites := Toggle(favorites, id);
      storage.Save(newFavorites);
      favorites := newFavorites;
    }

    /** `filteredCoffees` as this file computes it: `filter` builds a fresh
        array, which `sort` then reorders in place; `coffees` is not touched. */
    method FilteredCoffees() returns (result: array<Coffee>)
      ensures fresh(result)
      ensures result[..] == Derive(coffees, displayedSearchTerm, selectedCategory, sortBy, sortDirection)
    {
      var matching := Filter(coffees, displayedSearchTerm, selectedCategory);
      result := new Coffee[|matching|](k requires 0 <= k < |matching| => matching[k]);
      assert result[..] == matching;
      if sortBy == ByTitle {
        SortInPlace(result, KeyOf(TitleField), sortDirection);
      } else if sortBy == ByCategory {
        SortInPlace(result, KeyOf(CategoryField), sortDirection);
      }
    }

    /** The card's heart: whether the entry's id is a favourite. */
    predicate IsFavorite(c: Coffee)
      reads this
    {
      c.id in favorites
    }

    /** The " • N in favorites" note: it counts the list's entries, so ids with
        no loaded coffee count too, and it is absent for an empty list. */
    function FavoritesNote(): (r: string)
      reads this
      ensures r == "" <==> favorites == []
      ensures favorites != [] ==> r == " \U{2022} " + JsNumber.NatToString(|favorites|) + " in favorites"
    {
      if |favorites| > 0 then " \U{2022} " + JsNumber.NatToString(|favorites|) + " in favorites" else ""
    }
  }
}
