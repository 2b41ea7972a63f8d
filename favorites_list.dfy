/** `FavoritesList.jsx`: the favourites page. It reads the stored list once
    on mount, loads the catalog, and shows the catalog entries whose id is a
    favourite. The request's outcome is an input to the step that settles it. */
module FavoritesList {
  import opened Wrappers
  import opened Catalog
  import opened Http
  import opened Favorites

  /** What the page shows: the spinner, the empty state, or the label and
      the cards. */
  datatype Screen = Loading | EmptyState | Grid(caption: string, cards: seq<Coffee>)

  class FavoritesPage {
    var favorites: seq<int>
    var coffees: seq<Coffee>
    var isLoading: bool
    const storage: Storage

    /** The first render: no favourites, no coffees, loading. */
    constructor(storage: Storage)
      ensures this.storage == storage
      ensures favorites == [] && coffees == [] && isLoading
    {
      this.storage := storage;
      favorites := [];
      coffees := [];
      isLoading := true;
    }

    /** The mount effect's first half: the stored list replaces the
        favourites only when something is stored. */
    method Mount()
      modifies this
      ensures storage.favoriteCoffees.Some? ==> favorites == storage.favoriteCoffees.value
      ensures storage.favoriteCoffees.None? ==> favorites == old(favorites)
      ensures coffees == old(coffees) && isLoading == old(isLoading)
    {
      if storage.favoriteCoffees.Some? {
        favorites := storage.favoriteCoffees.value;
      }
    }

    /** The mount effect's request settles: an ok answer gives the catalog,
        anything else keeps it; loading ends in `finally`. */
    method CoffeesFetched(reply: FetchReply<seq<Coffee>>)
      modifies this
      ensures !isLoading
      ensures reply.Answered? && reply.ok ==> coffees == reply.json
      ensures !(reply.Answered? && reply.ok) ==> coffees == old(coffees)
      ensures favorites == old(favorites)
    {
      if reply.Answered? && reply.ok {
        coffees := reply.json;
      }
      isLoading := false;
    }

    /** `handleToggleFavorite`: state first, then storage, with the same list. */
    method HandleToggleFavorite(id: int)
      modifies this, storage
      ensures favorites == Toggle(old(favorites), id)
      ensures storage.favoriteCoffees == Some(favorites)
      ensures coffees == old(coffees) && isLoading == old(isLoading)
    {
      var newFavorites := Toggle(favorites, id);
      favorites := newFavorites;
      storage.Save(newFavorites);
    }

    /** The render. */
    function View(): (s: Screen)
      reads this
      ensures s.Loading? <==> isLoading
      ensures s.EmptyState? <==> !isLoading && FavoriteView(coffees, favorites) == []
      ensures s.Grid? ==> s.cards == FavoriteView(coffees, favorites) && s.caption == ResultsLabel(|s.cards|)
    {
      var cards := FavoriteView(coffees, favorites);
      if isLoading then Loading
      else if cards == [] then EmptyState
      else Grid(ResultsLabel(|cards|), cards)
    }
  }

  /** A first visit with nothing stored and the catalog loaded shows the
      empty state. */
  method FirstVisitIsEmpty(catalog: seq<Coffee>) returns (s: Screen)
    ensures s == EmptyState
  {
    var storage := new Storage(None);
    var page := new FavoritesPage(storage);
    page.Mount();
    page.CoffeesFetched(Answered(true, catalog));
    s := page.View();
  }

  /** Marking a coffee of the catalog as the only favourite shows one card,
      labelled in the singular. */
  method OneFavoriteShowsOneCard(c: Coffee) returns (s: Screen)
    ensures s.Grid? && s.cards == [c]
    ensures |s.caption| > 0 && s.caption[|s.caption| - 1] != 's'
  {
    var storage := new Storage(None);
    var page := new FavoritesPage(storage);
    page.Mount();
    page.CoffeesFetched(Answered(true, [c]));
    page.HandleToggleFavorite(c.id);
    s := page.View();
    assert [c][0] == c;
    assert (c.id in [c.id]) == true;
    SelectCons(c, [], (x: Coffee) => x.id in [c.id]);
  }
}
