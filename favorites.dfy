/** The favourites list: a sequence of coffee ids kept in browser storage
    under "favoriteCoffees", the toggle shared by `useCoffeeLogic`,
    `CoffeeList.jsx` and `FavoritesList.jsx`, and the favourites view. */
module Favorites {
  import opened Wrappers
  import opened Catalog
  import JsNumber

  /** `favs.filter(favId => favId !== id)`. */
  function Without(favs: seq<int>, id: int): (r: seq<int>)
    ensures multiset(r) == multiset(favs)[id := 0]
    ensures IsSubsequence(r, favs)
  {
    if favs == [] then []
    else
      var rest := Without(favs[1..], id);
      assert favs == [favs[0]] + favs[1..];
      if favs[0] == id then
        SubsequenceSkip(rest, favs[1..], id);
        rest
      else
        assert ([favs[0]] + rest)[1..] == rest;
        [favs[0]] + rest
  }

  /** The new list of every toggle handler: drop every occurrence of a
      present id, append an absent one. */
  function Toggle(favs: seq<int>, id: int): (r: seq<int>)
    ensures id in r <==> id !in favs
    ensures forall x | x != id :: x in r <==> x in favs
    ensures id in favs ==> multiset(r) == multiset(favs)[id := 0] && IsSubsequence(r, favs)
    ensures id !in favs ==> r == favs + [id]
  {
    var r := if id in favs then Without(favs, id) else favs + [id];
    assert forall x :: x in r <==> x in multiset(r);
    r
  }

  lemma {:induction false} WithoutAbsent(favs: seq<int>, id: int)
    requires id !in favs
    ensures Without(favs, id) == favs
  {
    if favs != [] {
      WithoutAbsent(favs[1..], id);
      assert favs == [favs[0]] + favs[1..];
    }
  }

  lemma {:induction false} WithoutAppend(a: seq<int>, b: seq<int>, id: int)
    ensures Without(a + b, id) == Without(a, id) + Without(b, id)
  {
    if a == [] {
      assert a + b == b;
    } else {
      assert (a + b)[0] == a[0];
      assert (a + b)[1..] == a[1..] + b;
      WithoutAppend(a[1..], b, id);
    }
  }

  /** From a list without `id`, two toggles give back exactly that list. */
  lemma ToggleTwiceAbsent(favs: seq<int>, id: int)
    requires id !in favs
    ensures Toggle(Toggle(favs, id), id) == favs
  {
    WithoutAppend(favs, [id], id);
    WithoutAbsent(favs, id);
    assert Without([id], id) == [];
  }

  /** From a list with `id`, two toggles give the same ids with every copy of
      `id` dropped and one put at the end. */
  lemma ToggleTwicePresent(favs: seq<int>, id: int)
    requires id in favs
    ensures Toggle(Toggle(favs, id), id) == Without(favs, id) + [id]
    ensures forall x :: x in Toggle(Toggle(favs, id), id) <==> x in favs
  {
  }

  /** Toggling one id never changes the membership of another, so toggles
      of different ids commute as far as membership goes. */
  lemma ToggleCommutesOnMembership(favs: seq<int>, a: int, b: int, x: int)
    ensures x in Toggle(Toggle(favs, a), b) <==> x in Toggle(Toggle(favs, b), a)
  {
  }

  /** `favoriteCoffees`: the catalog entries whose id is a favourite. */
  function FavoriteView(catalog: seq<Coffee>, favs: seq<int>): (r: seq<Coffee>)
    ensures forall c :: c in r <==> c in catalog && c.id in favs
    ensures IsSubsequence(r, catalog)
  {
    SelectIsSubsequence(catalog, (c: Coffee) => c.id in favs);
    Select(catalog, (c: Coffee) => c.id in favs)
  }

  lemma {:induction false} SelectCongruent(s: seq<Coffee>, p: Coffee -> bool, q: Coffee -> bool)
    requires forall c | c in s :: p(c) == q(c)
    ensures Select(s, p) == Select(s, q)
  {
    if s != [] {
      SelectCongruent(s[1..], p, q);
    }
  }

  /** Only the set of ids matters: duplicates and order in the list change nothing. */
  lemma ViewDependsOnMembershipOnly(catalog: seq<Coffee>, f1: seq<int>, f2: seq<int>)
    requires forall x :: x in f1 <==> x in f2
    ensures FavoriteView(catalog, f1) == FavoriteView(catalog, f2)
  {
    SelectCongruent(catalog, (c: Coffee) => c.id in f1, (c: Coffee) => c.id in f2);
  }

  /** An id with no catalog entry adds nothing to the view. */
  lemma UnknownIdIgnored(catalog: seq<Coffee>, favs: seq<int>, id: int)
    requires forall c | c in catalog :: c.id != id
    ensures FavoriteView(catalog, favs + [id]) == FavoriteView(catalog, favs)
  {
    SelectCongruent(catalog, (c: Coffee) => c.id in favs + [id], (c: Coffee) => c.id in favs);
  }

  /** A repeated id yields its entry once: the view of `favs + [id]` with `id`
      already present is the view of `favs`. */
  lemma DuplicateIdIgnored(catalog: seq<Coffee>, favs: seq<int>, id: int)
    requires id in favs
    ensures FavoriteView(catalog, favs + [id]) == FavoriteView(catalog, favs)
  {
    ViewDependsOnMembershipOnly(catalog, favs + [id], favs);
  }

  lemma {:induction false} SelectBoth(s: seq<Coffee>, p: Coffee -> bool, q: Coffee -> bool, pq: Coffee -> bool)
    requires forall c | c in s :: pq(c) == (p(c) && q(c))
    ensures Select(s, pq) == Select(Select(s, p), q)
  {
    if s != [] {
      var h, t := s[0], s[1..];
      assert s == [h] + t;
      assert h in s;
      assert pq(h) == (p(h) && q(h));
      SelectBoth(t, p, q, pq);
      SelectCons(h, t, pq);
      SelectCons(h, t, p);
      if p(h) {
        SelectCons(h, Select(t, p), q);
        assert Select(s, p) == [h] + Select(t, p);
      } else {
        assert Select(s, p) == Select(t, p);
        assert Select(s, pq) == Select(t, pq);
      }
    }
  }

  /** Toggling a favourite off removes its entries from the view and keeps
      every other entry, in the same relative order. */
  lemma ToggleOffView(catalog: seq<Coffee>, favs: seq<int>, id: int)
    requires id in favs
    ensures FavoriteView(catalog, Toggle(favs, id)) == Select(FavoriteView(catalog, favs), (c: Coffee) => c.id != id)
  {
    var t := Toggle(favs, id);
    SelectBoth(catalog, (c: Coffee) => c.id in favs, (c: Coffee) => c.id != id, (c: Coffee) => c.id in t);
  }

  /** The empty state shows exactly when no favourite id has a catalog
      entry, whatever the length of the list. */
  lemma EmptyViewIffNoKnownId(catalog: seq<Coffee>, favs: seq<int>)
    ensures FavoriteView(catalog, favs) == [] <==> forall c | c in catalog :: c.id !in favs
  {
    var v := FavoriteView(catalog, favs);
    if v != [] {
      assert v[0] in v;
    }
  }

  /** The label "Showing N favorite coffee(s)": the count is printed after
      "Showing ", and the noun takes an "s" exactly when the count is not one. */
  function ResultsLabel(count: nat): (r: string)
    ensures |r| > 8 && r[..8] == "Showing "
    ensures JsNumber.DigitsValue(JsNumber.DigitPrefix(r[8..])) == count
    ensures r[|r| - 1] == 's' <==> count != 1
  {
    var digits := JsNumber.NatToString(count);
    var suffix := if count != 1 then "s" else "";
    var rest := " favorite coffee" + suffix;
    var r := "Showing " + (digits + rest);
    JsNumber.DigitPrefixStopsAtNonDigit(digits, rest);
    JsNumber.NatToStringValue(count);
    assert r[8..] == digits + rest;
    assert r[|r| - 1] == rest[|rest| - 1] == (if count != 1 then 's' else 'e');
    r
  }

  /** The browser's storage entry "favoriteCoffees", shared by every page:
      `None` while nothing has been stored, else the stored id list. */
  class Storage {
    var favoriteCoffees: Option<seq<int>>

    constructor(stored: Option<seq<int>>)
      ensures favoriteCoffees == stored
    {
      favoriteCoffees := stored;
    }

    /** `localStorage.setItem("favoriteCoffees", JSON.stringify(favs))`. */
    method Save(favs: seq<int>)
      modifies this
      ensures favoriteCoffees == Some(favs)
    {
      favoriteCoffees := Some(favs);
    }
  }

  /** `JSON.parse(localStorage.getItem("favoriteCoffees")) || []`: the stored
      list, or [] when nothing is stored. */
  function InitialFavorites(stored: Option<seq<int>>): (r: seq<int>)
    ensures stored.None? ==> r == []
    ensures stored.Some? ==> r == stored.value
  {
    stored.GetOr([])
  }
}
