/** The catalog's two record shapes and a few sequence notions used throughout. */
module Catalog {
  import opened Wrappers
  import JsString
  import JsNumber

  /** A catalog entry as the TypeScript components type it. The price is a
      whole number of cents. */
  datatype Coffee = Coffee(
    id: int,
    title: string,
    category: string,
    origin: string,
    roastLevel: string,
    flavor: seq<string>,
    acidity: int,
    body: int,
    priceCents: nat,
    packaging: string,
    organic: bool,
    description: string,
    imageUrl: Option<string>)

  /** A coffee as the untyped JavaScript components see a parsed JSON
      object: any field may be missing (null or undefined). */
  datatype Record = Record(
    id: Option<int>,
    title: Option<string>,
    category: Option<string>,
    origin: Option<string>,
    roastLevel: Option<string>,
    flavor: Option<seq<string>>,
    acidity: Option<int>,
    body: Option<int>,
    priceCents: Option<nat>,
    packaging: Option<string>,
    organic: Option<bool>,
    description: Option<string>,
    imageUrl: Option<string>)

  /** An object that has none of a coffee's fields, such as the
      `{success: false, ...}` envelope read as if it were a coffee. */
  const NoFields: Record :=
    Record(None, None, None, None, None, None, None, None, None, None, None, None, None)

  /** `a` is `b` with some elements left out, in the same order. */
  predicate IsSubsequence<T(==)>(a: seq<T>, b: seq<T>)
    decreases |b|
  {
    if a == [] then true
    else if b == [] then false
    else if a[0] == b[0] then IsSubsequence(a[1..], b[1..])
    else IsSubsequence(a, b[1..])
  }

  predicate NoDuplicates<T(==)>(s: seq<T>)
  {
    forall i, j | 0 <= i < j < |s| :: s[i] != s[j]
  }

  /** `s.filter(keep)`. */
  function Select(s: seq<Coffee>, keep: Coffee -> bool): (r: seq<Coffee>)
    ensures forall c :: c in r <==> c in s && keep(c)
    ensures |r| <= |s|
  {
    if s == [] then []
    else
      assert s == [s[0]] + s[1..];
      (if keep(s[0]) then [s[0]] else []) + Select(s[1..], keep)
  }

  lemma SelectCons(h: Coffee, t: seq<Coffee>, keep: Coffee -> bool)
    ensures Select([h] + t, keep) == (if keep(h) then [h] else []) + Select(t, keep)
  {
    assert ([h] + t)[0] == h;
    assert ([h] + t)[1..] == t;
  }

  /** Selection works element by element. */
  lemma {:induction false} SelectAppend(a: seq<Coffee>, b: seq<Coffee>, keep: Coffee -> bool)
    ensures Select(a + b, keep) == Select(a, keep) + Select(b, keep)
  {
    if a == [] {
      assert a + b == b;
    } else {
      assert (a + b)[0] == a[0];
      assert (a + b)[1..] == a[1..] + b;
      SelectAppend(a[1..], b, keep);
    }
  }

  /** Selection leaves entries out but never reorders them. */
  lemma {:induction false} SelectIsSubsequence(s: seq<Coffee>, keep: Coffee -> bool)
    ensures IsSubsequence(Select(s, keep), s)
  {
    if s != [] {
      SelectIsSubsequence(s[1..], keep);
      if keep(s[0]) {
        assert ([s[0]] + Select(s[1..], keep))[1..] == Select(s[1..], keep);
      } else {
        assert Select(s, keep) == Select(s[1..], keep);
        SubsequenceSkip(Select(s[1..], keep), s[1..], s[0]);
        assert [s[0]] + s[1..] == s;
      }
    }
  }

  /** Putting an element in front of the longer sequence keeps a subsequence one. */
  lemma {:induction false} SubsequenceSkip<T>(a: seq<T>, b: seq<T>, x: T)
    requires IsSubsequence(a, b)
    ensures IsSubsequence(a, [x] + b)
    decreases |b|, 1
  {
    assert ([x] + b)[1..] == b;
    if a != [] && a[0] == x {
      SubsequenceDropHead(a, b);
    }
  }

  /** Leaving out the first element of the shorter sequence keeps a subsequence one. */
  lemma {:induction false} SubsequenceDropHead<T>(a: seq<T>, b: seq<T>)
    requires a != [] && IsSubsequence(a, b)
    ensures IsSubsequence(a[1..], b)
    decreases |b|, 0
  {
    if a[0] == b[0] {
      SubsequenceSkip(a[1..], b[1..], b[0]);
    } else {
      SubsequenceDropHead(a, b[1..]);
      SubsequenceSkip(a[1..], b[1..], b[0]);
    }
    assert [b[0]] + b[1..] == b;
  }

  /** Entries that all pass come through unchanged. */
  lemma {:induction false} SelectKeepsConforming(s: seq<Coffee>, keep: Coffee -> bool)
    requires forall c | c in s :: keep(c)
    ensures Select(s, keep) == s
  {
    if s != [] {
      SelectKeepsConforming(s[1..], keep);
      assert s == [s[0]] + s[1..];
    }
  }

  /** A flavour list as the detail page and the comparison table print it:
      the notes joined with ", ". Every note shows, and a single note shows
      alone. */
  function FlavorLine(flavor: seq<string>): (r: string)
    ensures flavor == [] ==> r == ""
    ensures |flavor| == 1 ==> r == flavor[0]
    ensures forall k :: 0 <= k < |flavor| ==> JsString.Occurs(r, flavor[k])
    ensures |flavor| >= 2 ==> JsString.Occurs(r, ", ")
  {
    forall k | 0 <= k < |flavor| ensures JsString.Occurs(JsString.Join(flavor, ", "), flavor[k]) {
      JsString.JoinContainsParts(flavor, ", ", k);
    }
    JsString.JoinShowsSeparator(flavor, ", ");
    JsString.Join(flavor, ", ")
  }

  /** Acidity and body as "n/10"; `parseFloat` reads n back from it. */
  function ScaleLine(n: int): (r: string)
    ensures JsNumber.ParseFloat(r) == Some(n as real)
    ensures |r| > 3 && r[|r| - 3..] == "/10"
  {
    JsNumber.ParseFloatOfRenderedInt(n, "/10");
    JsNumber.IntToString(n) + "/10"
  }
}
