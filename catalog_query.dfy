/** The catalog query pipeline shared by both CoffeeList components:
    filter by a case-insensitive title substring and an optional exact
    category, then optionally a stable sort by title or category, ascending
    or descending; the category list of the select box; and the transitions
    of the query state (selected category, sort key, sort direction). */
module CatalogQuery {
  import opened JsString
  import opened Catalog

  datatype SortBy = NoSort | ByTitle | ByCategory
  datatype SortField = TitleField | CategoryField
  datatype Direction = Asc | Desc

  function Key(c: Coffee, f: SortField): string
  {
    match f
    case TitleField => c.title
    case CategoryField => c.category
  }

  /** The sort key as a function value, `c => c.title` or `c => c.category`. */
  function KeyOf(f: SortField): Coffee -> string
  {
    c => Key(c, f)
  }

  // ---------------------------------------------------------------- filter

  /** The filter predicate: the lower-cased title contains the lower-cased
      term, and the category is the selected one unless none is selected. */
  predicate Matches(c: Coffee, term: string, category: string)
  {
    Includes(ToLower(c.title), ToLower(term)) && (category == "" || c.category == category)
  }

  /** `coffees.filter(c => Matches(c, term, category))`. */
  function Filter(s: seq<Coffee>, term: string, category: string): (r: seq<Coffee>)
    ensures forall c :: c in r <==> c in s && Matches(c, term, category)
    ensures |r| <= |s|
  {
    Select(s, c => Matches(c, term, category))
  }

  /** Filtering keeps catalog order: the filter of a concatenation is the
      concatenation of the filters. */
  lemma FilterAppend(a: seq<Coffee>, b: seq<Coffee>, term: string, category: string)
    ensures Filter(a + b, term, category) == Filter(a, term, category) + Filter(b, term, category)
  {
    SelectAppend(a, b, c => Matches(c, term, category));
  }

  /** The result leaves entries out but never reorders them. */
  lemma FilterIsSubsequence(s: seq<Coffee>, term: string, category: string)
    ensures IsSubsequence(Filter(s, term, category), s)
  {
    SelectIsSubsequence(s, c => Matches(c, term, category));
  }

  /** Entries that all match come through unchanged. */
  lemma FilterKeepsConforming(s: seq<Coffee>, term: string, category: string)
    requires forall c | c in s :: Matches(c, term, category)
    ensures Filter(s, term, category) == s
  {
    SelectKeepsConforming(s, c => Matches(c, term, category));
  }

  /** Filtering twice with the same query is filtering once. */
  lemma FilterIdempotent(s: seq<Coffee>, term: string, category: string)
    ensures Filter(Filter(s, term, category), term, category) == Filter(s, term, category)
  {
    FilterKeepsConforming(Filter(s, term, category), term, category);
  }

  /** An empty term and no category select the whole catalog. */
  lemma EmptyQuerySelectsAll(s: seq<Coffee>)
    ensures Filter(s, "", "") == s
  {
    forall c | c in s ensures Matches(c, "", "") {
      IncludesIffOccurs(ToLower(c.title), ToLower(""));
    }
    FilterKeepsConforming(s, "", "");
  }

  /** An entry is selected iff its lower-cased title has the lower-cased term
      at some position and, when a category is selected, it is that category. */
  lemma FilterSelects(s: seq<Coffee>, term: string, category: string, c: Coffee)
    ensures c in Filter(s, term, category) <==>
      c in s && Occurs(ToLower(c.title), ToLower(term)) && (category != "" ==> c.category == category)
  {
    IncludesIffOccurs(ToLower(c.title), ToLower(term));
  }

  // ------------------------------------------------------------ comparator

  /** The comparator of CoffeeList.tsx: `compare` ascending, `-compare`
      descending, where `compare = a.key.localeCompare(b.key)`. */
  function Compare<T>(a: T, b: T, key: T -> string, d: Direction): int
  {
    var c := LocaleCompare(key(a), key(b));
    if d == Asc then c else -c
  }

  /** The comparator of CoffeeList.jsx: `a.key.localeCompare(b.key)`
      ascending, `b.key.localeCompare(a.key)` descending. Because
      `localeCompare` is antisymmetric it is the .tsx comparator. */
  function CompareJsx<T>(a: T, b: T, key: T -> string, d: Direction): (r: int)
    ensures r == Compare(a, b, key, d)
  {
    LocaleCompareAntisymmetric(key(a), key(b));
    if d == Asc then LocaleCompare(key(a), key(b)) else LocaleCompare(key(b), key(a))
  }

  lemma CompareAntisymmetric<T>(a: T, b: T, key: T -> string, d: Direction)
    ensures Compare(b, a, key, d) == -Compare(a, b, key, d)
  {
    LocaleCompareAntisymmetric(key(a), key(b));
  }

  lemma CompareZero<T>(a: T, b: T, key: T -> string, d: Direction)
    ensures Compare(a, b, key, d) == 0 <==> key(a) == key(b)
  {
    LocaleCompareZero(key(a), key(b));
  }

  lemma CompareTransitive<T>(a: T, b: T, c: T, key: T -> string, d: Direction)
    requires Compare(a, b, key, d) <= 0 && Compare(b, c, key, d) <= 0
    ensures Compare(a, c, key, d) <= 0
  {
    if d == Asc {
      LocaleCompareTransitive(key(a), key(b), key(c));
    } else {
      LocaleCompareAntisymmetric(key(a), key(b));
      LocaleCompareAntisymmetric(key(b), key(c));
      LocaleCompareAntisymmetric(key(a), key(c));
      LocaleCompareTransitive(key(c), key(b), key(a));
    }
  }

  // ------------------------------------------------------------------ sort

  /** Ordered by the comparator: never a later entry that compares before an
      earlier one (non-decreasing keys ascending, non-increasing descending). */
  predicate Sorted<T>(s: seq<T>, key: T -> string, d: Direction)
  {
    forall i, j | 0 <= i < j < |s| :: Compare(s[i], s[j], key, d) <= 0
  }

  /** `h` compares before or equal to every entry of `t`. */
  ghost predicate AtMost<T>(h: T, t: seq<T>, key: T -> string, d: Direction)
  {
    forall e | e in t :: Compare(h, e, key, d) <= 0
  }

  lemma SortedCons<T>(h: T, t: seq<T>, key: T -> string, d: Direction)
    requires Sorted(t, key, d) && AtMost(h, t, key, d)
    ensures Sorted([h] + t, key, d)
  {
    var r := [h] + t;
    forall i, j | 0 <= i < j < |r| ensures Compare(r[i], r[j], key, d) <= 0 {
      assert r[j] == t[j - 1];
      if i == 0 {
        assert r[j] in t;
      } else {
        assert r[i] == t[i - 1];
      }
    }
  }

  lemma SortedTail<T>(t: seq<T>, key: T -> string, d: Direction)
    requires t != [] && Sorted(t, key, d)
    ensures Sorted(t[1..], key, d)
  {
    forall i, j | 0 <= i < j < |t[1..]| ensures Compare(t[1..][i], t[1..][j], key, d) <= 0 {
      assert t[1..][i] == t[i + 1] && t[1..][j] == t[j + 1];
    }
  }

  /** Places `x` before the first entry it does not compare after. */
  function Insert<T>(x: T, s: seq<T>, key: T -> string, d: Direction): (r: seq<T>)
    ensures |r| == |s| + 1
  {
    if s == [] then [x]
    else if Compare(x, s[0], key, d) <= 0 then [x] + s
    else [s[0]] + Insert(x, s[1..], key, d)
  }

  /** Insertion adds exactly `x`. */
  lemma {:induction false} InsertPermutes<T>(x: T, s: seq<T>, key: T -> string, d: Direction)
    ensures multiset(Insert(x, s, key, d)) == multiset(s) + multiset{x}
  {
    if s != [] && Compare(x, s[0], key, d) > 0 {
      InsertPermutes(x, s[1..], key, d);
      assert s == [s[0]] + s[1..];
    }
  }

  /** Insertion into a sorted list keeps it sorted. */
  lemma {:induction false} InsertSorted<T>(x: T, t: seq<T>, key: T -> string, d: Direction)
    requires Sorted(t, key, d)
    ensures Sorted(Insert(x, t, key, d), key, d)
  {
    if t == [] {
    } else if Compare(x, t[0], key, d) <= 0 {
      forall e | e in t ensures Compare(x, e, key, d) <= 0 {
        var k :| 0 <= k < |t| && t[k] == e;
        if k > 0 {
          CompareTransitive(x, t[0], t[k], key, d);
        }
      }
      SortedCons(x, t, key, d);
    } else {
      SortedTail(t, key, d);
      InsertSorted(x, t[1..], key, d);
      InsertPermutes(x, t[1..], key, d);
      var rest := Insert(x, t[1..], key, d);
      forall e | e in rest ensures Compare(t[0], e, key, d) <= 0 {
        assert e in multiset(rest);
        if e == x {
          CompareAntisymmetric(x, t[0], key, d);
        } else {
          assert e in multiset(t[1..]);
          var k :| 0 <= k < |t[1..]| && t[1..][k] == e;
          assert t[k + 1] == e;
        }
      }
      SortedCons(t[0], rest, key, d);
    }
  }

  /** The stable sort of both components (insertion of each entry, from the
      last to the first, into the sorted rest): `[...result].sort(cmp)` in
      the .tsx file, `filteredCoffees.sort(cmp)` in the .jsx file. */
  function Sort<T>(s: seq<T>, key: T -> string, d: Direction): (r: seq<T>)
    ensures multiset(r) == multiset(s)
    ensures Sorted(r, key, d)
  {
    if s == [] then []
    else
      var rest := Sort(s[1..], key, d);
      InsertSorted(s[0], rest, key, d);
      InsertPermutes(s[0], rest, key, d);
      assert s == [s[0]] + s[1..];
      Insert(s[0], rest, key, d)
  }

  /** The entries whose key is `k`, in order. */
  function WithKey<T>(s: seq<T>, key: T -> string, k: string): seq<T>
  {
    if s == [] then [] else (if key(s[0]) == k then [s[0]] else []) + WithKey(s[1..], key, k)
  }

  lemma WithKeyCons<T>(h: T, t: seq<T>, key: T -> string, k: string)
    ensures WithKey([h] + t, key, k) == (if key(h) == k then [h] else []) + WithKey(t, key, k)
  {
    assert ([h] + t)[0] == h;
    assert ([h] + t)[1..] == t;
  }

  lemma {:induction false} InsertStable<T>(x: T, t: seq<T>, key: T -> string, d: Direction, k: string)
    ensures WithKey(Insert(x, t, key, d), key, k) == (if key(x) == k then [x] else []) + WithKey(t, key, k)
  {
    if t == [] {
      WithKeyCons(x, [], key, k);
      assert [x] + [] == [x];
    } else if Compare(x, t[0], key, d) <= 0 {
      WithKeyCons(x, t, key, k);
    } else {
      var r := Insert(x, t[1..], key, d);
      var hx := if key(x) == k then [x] else [];
      var ht := if key(t[0]) == k then [t[0]] else [];
      var w := WithKey(t[1..], key, k);
      assert Insert(x, t, key, d) == [t[0]] + r;
      InsertStable(x, t[1..], key, d, k);
      WithKeyCons(t[0], r, key, k);
      assert WithKey(t, key, k) == ht + w;
      CompareZero(x, t[0], key, d);
      assert hx == [] || ht == [];
      SwapBesideEmpty(hx, ht, w);
    }
  }

  lemma SwapBesideEmpty<T>(a: seq<T>, b: seq<T>, w: seq<T>)
    requires a == [] || b == []
    ensures b + (a + w) == a + (b + w)
  {
    if a == [] {
      assert a + w == w;
      assert a + (b + w) == b + w;
    } else {
      assert b + (a + w) == a + w;
      assert b + w == w;
    }
  }

  /** Stability: entries with equal keys keep their relative order. */
  lemma {:induction false} SortStable<T>(s: seq<T>, key: T -> string, d: Direction, k: string)
    ensures WithKey(Sort(s, key, d), key, k) == WithKey(s, key, k)
  {
    if s != [] {
      SortStable(s[1..], key, d, k);
      InsertStable(s[0], Sort(s[1..], key, d), key, d, k);
    }
  }

  function Reverse<T>(s: seq<T>): (r: seq<T>)
    ensures |r| == |s|
    ensures forall i :: 0 <= i < |s| ==> r[i] == s[|s| - 1 - i]
  {
    if s == [] then [] else Reverse(s[1..]) + [s[0]]
  }

  lemma ReverseCons<T>(h: T, t: seq<T>)
    ensures Reverse([h] + t) == Reverse(t) + [h]
  {
    assert ([h] + t)[0] == h;
    assert ([h] + t)[1..] == t;
  }

  /** No two entries share a key. */
  predicate DistinctKeys<T>(s: seq<T>, key: T -> string)
  {
    forall i, j | 0 <= i < j < |s| :: key(s[i]) != key(s[j])
  }

  lemma {:induction false} InsertBeforeLast<T>(x: T, u: seq<T>, y: T, key: T -> string, d: Direction)
    requires Compare(x, y, key, d) <= 0
    ensures Insert(x, u + [y], key, d) == Insert(x, u, key, d) + [y]
  {
    var w := u + [y];
    if u == [] {
      assert w == [y];
    } else {
      assert w[0] == u[0];
      if Compare(x, u[0], key, d) <= 0 {
        assert Insert(x, w, key, d) == [x] + w;
        assert Insert(x, u, key, d) == [x] + u;
      } else {
        assert w[1..] == u[1..] + [y];
        InsertBeforeLast(x, u[1..], y, key, d);
        assert Insert(x, w, key, d) == [u[0]] + Insert(x, w[1..], key, d);
        assert Insert(x, u, key, d) == [u[0]] + Insert(x, u[1..], key, d);
      }
    }
  }

  lemma {:induction false} InsertAfterAll<T>(x: T, u: seq<T>, key: T -> string, d: Direction)
    requires forall e | e in u :: Compare(x, e, key, d) > 0
    ensures Insert(x, u, key, d) == u + [x]
  {
    if u != [] {
      InsertAfterAll(x, u[1..], key, d);
      assert u == [u[0]] + u[1..];
    }
  }

  /** Inserting descending into the reverse of an ascending list is
      reversing the ascending insertion, when `x`'s key is new. */
  lemma {:induction false} InsertReverse<T>(x: T, t: seq<T>, key: T -> string)
    requires Sorted(t, key, Asc)
    requires forall e | e in t :: key(e) != key(x)
    ensures Insert(x, Reverse(t), key, Desc) == Reverse(Insert(x, t, key, Asc))
  {
    if t == [] {
    } else if Compare(x, t[0], key, Asc) <= 0 {
      var rt := Reverse(t);
      forall e | e in rt ensures Compare(x, e, key, Desc) > 0 {
        var i :| 0 <= i < |rt| && rt[i] == e;
        var k := |t| - 1 - i;
        assert t[k] == e;
        if k > 0 {
          CompareTransitive(x, t[0], t[k], key, Asc);
        }
        CompareZero(x, e, key, Asc);
      }
      InsertAfterAll(x, rt, key, Desc);
      ReverseCons(x, t);
    } else {
      CompareZero(x, t[0], key, Asc);
      SortedTail(t, key, Asc);
      InsertReverse(x, t[1..], key);
      ReverseCons(t[0], t[1..]);
      assert [t[0]] + t[1..] == t;
      InsertBeforeLast(x, Reverse(t[1..]), t[0], key, Desc);
      ReverseCons(t[0], Insert(x, t[1..], key, Asc));
    }
  }

  /** With pairwise distinct keys, the descending order is exactly the
      ascending order reversed. */
  lemma {:induction false} SortDescIsReverseOfAsc<T>(s: seq<T>, key: T -> string)
    requires DistinctKeys(s, key)
    ensures Sort(s, key, Desc) == Reverse(Sort(s, key, Asc))
  {
    if s != [] {
      var asc := Sort(s[1..], key, Asc);
      assert DistinctKeys(s[1..], key) by {
        forall i, j | 0 <= i < j < |s[1..]| ensures key(s[1..][i]) != key(s[1..][j]) {
          assert s[1..][i] == s[i + 1] && s[1..][j] == s[j + 1];
        }
      }
      SortDescIsReverseOfAsc(s[1..], key);
      forall e | e in asc ensures key(e) != key(s[0]) {
        assert e in multiset(asc);
        assert e in multiset(s[1..]);
        var k :| 0 <= k < |s[1..]| && s[1..][k] == e;
        assert s[k + 1] == e;
      }
      InsertReverse(s[0], asc, key);
    }
  }

  // ---------------------------------------------------------------- derive

  /** `filteredCoffees`: filter, then sort by the chosen key and direction. */
  function Derive(coffees: seq<Coffee>, term: string, category: string, sortBy: SortBy, d: Direction): (r: seq<Coffee>)
    ensures multiset(r) == multiset(Filter(coffees, term, category))
    ensures sortBy == ByTitle ==> Sorted(r, KeyOf(TitleField), d)
    ensures sortBy == ByCategory ==> Sorted(r, KeyOf(CategoryField), d)
  {
    var filtered := Filter(coffees, term, category);
    match sortBy
    case NoSort => filtered
    case ByTitle => Sort(filtered, KeyOf(TitleField), d)
    case ByCategory => Sort(filtered, KeyOf(CategoryField), d)
  }

  /** The entries shown are the matching ones, whatever the sort. */
  lemma DeriveSelects(coffees: seq<Coffee>, term: string, category: string, sortBy: SortBy, d: Direction, c: Coffee)
    ensures c in Derive(coffees, term, category, sortBy, d) <==> c in coffees && Matches(c, term, category)
  {
    assert c in Derive(coffees, term, category, sortBy, d) <==> c in multiset(Derive(coffees, term, category, sortBy, d));
  }

  /** Unsorted, the view is the matching entries in catalog order. */
  lemma DeriveUnsortedKeepsCatalogOrder(coffees: seq<Coffee>, term: string, category: string, d: Direction)
    ensures Derive(coffees, term, category, NoSort, d) == Filter(coffees, term, category)
    ensures IsSubsequence(Derive(coffees, term, category, NoSort, d), coffees)
  {
    FilterIsSubsequence(coffees, term, category);
  }

  /** Sorted, entries with the same key keep their catalog order. */
  lemma DeriveStable(coffees: seq<Coffee>, term: string, category: string, f: SortField, d: Direction, k: string)
    ensures WithKey(Derive(coffees, term, category, if f == TitleField then ByTitle else ByCategory, d), KeyOf(f), k)
         == WithKey(Filter(coffees, term, category), KeyOf(f), k)
  {
    SortStable(Filter(coffees, term, category), KeyOf(f), d, k);
  }

  lemma {:induction false} SelectKeepsDistinctKeys(s: seq<Coffee>, key: Coffee -> string, keep: Coffee -> bool)
    requires DistinctKeys(s, key)
    ensures DistinctKeys(Select(s, keep), key)
  {
    if s != [] {
      SelectKeepsDistinctKeys(s[1..], key, keep);
      var rest := Select(s[1..], keep);
      if keep(s[0]) {
        var r := [s[0]] + rest;
        forall i, j | 0 <= i < j < |r| ensures key(r[i]) != key(r[j]) {
          if i == 0 {
            assert r[j] in rest;
            var k :| 0 <= k < |s[1..]| && s[1..][k] == r[j];
            assert s[k + 1] == r[j];
          }
        }
      }
    }
  }

  /** With distinct keys, descending is the reverse of ascending. */
  lemma DeriveDescIsReverseOfAsc(coffees: seq<Coffee>, term: string, category: string, f: SortField)
    requires DistinctKeys(coffees, KeyOf(f))
    ensures var sortBy := if f == TitleField then ByTitle else ByCategory;
      Derive(coffees, term, category, sortBy, Desc) == Reverse(Derive(coffees, term, category, sortBy, Asc))
  {
    SelectKeepsDistinctKeys(coffees, KeyOf(f), c => Matches(c, term, category));
    SortDescIsReverseOfAsc(Filter(coffees, term, category), KeyOf(f));
  }

  // ------------------------------------------------------------ categories

  /** `[...new Set(s)]`: each value once, in order of first occurrence. */
  function Distinct(s: seq<string>): (r: seq<string>)
    ensures forall x :: x in r <==> x in s
    ensures NoDuplicates(r)
  {
    if s == [] then []
    else
      var d := Distinct(s[..|s| - 1]);
      assert s == s[..|s| - 1] + [s[|s| - 1]];
      if s[|s| - 1] in d then d else d + [s[|s| - 1]]
  }

  /** Index of the first occurrence of `x` in `s`. */
  function FirstIndex(s: seq<string>, x: string): (r: nat)
    requires x in s
    ensures r < |s| && s[r] == x && x !in s[..r]
  {
    if s[0] == x then 0
    else
      assert s[1..][..FirstIndex(s[1..], x)] == s[1..1 + FirstIndex(s[1..], x)];
      1 + FirstIndex(s[1..], x)
  }

  /** The first occurrence is the position with no earlier occurrence. */
  lemma {:induction false} FirstIndexUnique(s: seq<string>, x: string, k: nat)
    requires k < |s| && s[k] == x && x !in s[..k]
    ensures FirstIndex(s, x) == k
  {
    if k > 0 {
      assert s[0] in s[..k];
      assert s[1..][..k - 1] == s[1..k];
      assert s[..k] == [s[0]] + s[1..k];
      FirstIndexUnique(s[1..], x, k - 1);
    }
  }

  lemma FirstIndexInPrefix(p: seq<string>, y: string, x: string)
    requires x in p
    ensures FirstIndex(p + [y], x) == FirstIndex(p, x)
  {
    var j := FirstIndex(p, x);
    assert (p + [y])[..j] == p[..j];
    FirstIndexUnique(p + [y], x, j);
  }

  /** The values come out in the order they first occur. */
  lemma {:induction false} DistinctFirstOccurrenceOrder(s: seq<string>, i: nat, j: nat)
    requires i < j < |Distinct(s)|
    ensures FirstIndex(s, Distinct(s)[i]) < FirstIndex(s, Distinct(s)[j])
    decreases |s|
  {
    var p, y := s[..|s| - 1], s[|s| - 1];
    var d := Distinct(p);
    assert s == p + [y];
    if j < |d| {
      DistinctFirstOccurrenceOrder(p, i, j);
      FirstIndexInPrefix(p, y, d[i]);
      FirstIndexInPrefix(p, y, d[j]);
    } else {
      assert Distinct(s) == d + [y];
      FirstIndexInPrefix(p, y, d[i]);
      assert s[..|p|] == p;
      FirstIndexUnique(s, y, |p|);
    }
  }

  /** `categories`: "" (all categories) followed by each category once. */
  function Categories(coffees: seq<Coffee>): (r: seq<string>)
    ensures |r| >= 1 && r[0] == ""
    ensures forall x :: x in r[1..] <==> exists c :: c in coffees && c.category == x
    ensures NoDuplicates(r[1..])
  {
    var column := seq(|coffees|, i requires 0 <= i < |coffees| => coffees[i].category);
    assert forall x :: x in column <==> exists c :: c in coffees && c.category == x by {
      forall x | x in column ensures exists c :: c in coffees && c.category == x {
        var i :| 0 <= i < |column| && column[i] == x;
        assert coffees[i] in coffees;
      }
      forall x | exists c :: c in coffees && c.category == x ensures x in column {
        var c :| c in coffees && c.category == x;
        var i :| 0 <= i < |coffees| && coffees[i] == c;
        assert column[i] == x;
      }
    }
    [""] + Distinct(column)
  }

  /** The category column of the catalog. */
  function CategoryColumn(coffees: seq<Coffee>): seq<string>
  {
    seq(|coffees|, i requires 0 <= i < |coffees| => coffees[i].category)
  }

  /** The categories after "" are the distinct categories in order of first appearance. */
  lemma CategoriesInFirstOccurrenceOrder(coffees: seq<Coffee>, i: nat, j: nat)
    requires 1 <= i < j < |Categories(coffees)|
    ensures FirstIndex(CategoryColumn(coffees), Categories(coffees)[i])
          < FirstIndex(CategoryColumn(coffees), Categories(coffees)[j])
  {
    assert Categories(coffees)[1..] == Distinct(CategoryColumn(coffees));
    DistinctFirstOccurrenceOrder(CategoryColumn(coffees), i - 1, j - 1);
  }

  // ----------------------------------------------------------- query state

  /** The part of the list state the select box and the sort button change. */
  datatype Query = Query(selectedCategory: string, sortBy: SortBy, direction: Direction)

  /** `handleCategoryChange` / the select's `onChange`. */
  function OnCategoryChange(q: Query, value: string): Query
  {
    Query(value, if value != "" then ByCategory else NoSort, Asc)
  }

  /** `toggleAlphabeticalSort` / the title button's `onClick`. */
  function OnTitleToggle(q: Query): Query
  {
    Query(q.selectedCategory, ByTitle,
      if q.sortBy == ByTitle && q.direction == Asc then Desc else Asc)
  }

  /** A category change couples the sort to the category: by category
      ascending when one is chosen, unsorted when it is cleared. */
  lemma CategoryChangeCouplesSort(q: Query, value: string)
    ensures OnCategoryChange(q, value).selectedCategory == value
    ensures OnCategoryChange(q, value).sortBy == ByCategory <==> value != ""
    ensures OnCategoryChange(q, value).sortBy == NoSort <==> value == ""
    ensures OnCategoryChange(q, value).direction == Asc
  {
  }

  /** The title toggle always sorts by title; it turns descending exactly
      from title/ascending; it leaves the category alone. */
  lemma TitleToggleFlips(q: Query)
    ensures OnTitleToggle(q).sortBy == ByTitle
    ensures OnTitleToggle(q).direction == Desc <==> q.sortBy == ByTitle && q.direction == Asc
    ensures OnTitleToggle(q).selectedCategory == q.selectedCategory
  {
  }

  /** Two toggles return to title/ascending from title/ascending, and
      reach title/descending from anywhere else. */
  lemma TitleToggleTwice(q: Query)
    ensures OnTitleToggle(OnTitleToggle(q)) ==
      if q.sortBy == ByTitle && q.direction == Asc then q else Query(q.selectedCategory, ByTitle, Desc)
  {
  }

  /** Choosing a category shows its entries in ascending category order;
      clearing it again gives back the unsorted view in catalog order. */
  lemma CategoryRoundTrip(coffees: seq<Coffee>, term: string, q: Query, value: string)
    requires value != ""
    ensures var q1 := OnCategoryChange(q, value);
      Sorted(Derive(coffees, term, q1.selectedCategory, q1.sortBy, q1.direction), KeyOf(CategoryField), Asc)
    ensures var q2 := OnCategoryChange(OnCategoryChange(q, value), "");
      Derive(coffees, term, q2.selectedCategory, q2.sortBy, q2.direction) == Filter(coffees, term, "")
  {
  }
}
