/** The comparison table of `CoffeeComparsion.tsx`: the nine property
    descriptors, how each prints a coffee, and the verdict
    `getComparisonResult` gives one descriptor for two coffees. */
module Comparison {
  import opened Wrappers
  import opened Catalog
  import opened JsNumber
  import JsString

  /** The property a descriptor prints. */
  datatype Field =
    | CategoryField | OriginField | RoastField | FlavorField | AcidityField
    | BodyField | PriceField | PackagingField | OrganicField

  /** A row of the table: its caption, the property it prints and whether its
      printed values are compared as numbers. */
  datatype Descriptor = Descriptor(caption: string, field: Field, isNumeric: bool)

  /** `comparisonItems`, in table order. */
  const Items: seq<Descriptor> := [
    Descriptor("Category", CategoryField, false),
    Descriptor("Origin", OriginField, false),
    Descriptor("Roast Level", RoastField, false),
    Descriptor("Flavor Profile", FlavorField, false),
    Descriptor("Acidity", AcidityField, true),
    Descriptor("Body", BodyField, true),
    Descriptor("Price", PriceField, true),
    Descriptor("Packaging", PackagingField, false),
    Descriptor("Organic", OrganicField, false)
  ]

  /** `item.value(c)`: every descriptor prints a string. The text fields
      print themselves, the two levels print as "n/10" (which `parseFloat`
      reads back as n), and the price prints with a leading "$", which it
      cannot read. */
  function Display(c: Coffee, f: Field): (r: string)
    ensures f == CategoryField ==> r == c.category
    ensures f == OriginField ==> r == c.origin
    ensures f == RoastField ==> r == c.roastLevel
    ensures f == PackagingField ==> r == c.packaging
    ensures f == FlavorField ==> forall k :: 0 <= k < |c.flavor| ==> JsString.Occurs(r, c.flavor[k])
    ensures f == AcidityField ==> ParseFloat(r) == Some(c.acidity as real)
    ensures f == BodyField ==> ParseFloat(r) == Some(c.body as real)
    ensures f == PriceField ==> |r| > 0 && r[0] == '$' && ParseFloat(r).None?
    ensures f == OrganicField ==> (r == "Yes" <==> c.organic) && (r != "Yes" ==> r == "No")
  {
    var price := FormatUsd(c.priceCents);
    ParseFloatRejectsLeadingSymbol(price);
    match f
    case CategoryField => c.category
    case OriginField => c.origin
    case RoastField => c.roastLevel
    case FlavorField => FlavorLine(c.flavor)
    case AcidityField => ScaleLine(c.acidity)
    case BodyField => ScaleLine(c.body)
    case PriceField => price
    case PackagingField => c.packaging
    case OrganicField => if c.organic then "Yes" else "No"
  }

  /** The table has nine rows; exactly acidity, body and price are numeric. */
  lemma NumericItems()
    ensures |Items| == 9
    ensures forall i :: 0 <= i < |Items| ==>
      (Items[i].isNumeric <==> Items[i].field in {AcidityField, BodyField, PriceField})
    ensures Items[4].field == AcidityField && Items[5].field == BodyField && Items[6].field == PriceField
  {
  }

  /** The four outcomes, shown as 'higher', 'lower', 'equal', 'different'. */
  datatype Verdict = Higher | Lower | Equal | Different

  /** What swapping the two coffees does to a verdict. */
  function Mirror(v: Verdict): Verdict
  {
    match v
    case Higher => Lower
    case Lower => Higher
    case Equal => Equal
    case Different => Different
  }

  /** Both printed values of a numeric descriptor have a numeric prefix. */
  predicate ComparesAsNumbers(a: Coffee, b: Coffee, item: Descriptor)
  {
    item.isNumeric && ParseFloat(Display(a, item.field)).Some?
    && ParseFloat(Display(b, item.field)).Some?
  }

  /** `getComparisonResult(a, b, item)`: a numeric descriptor whose values
      both parse is decided by the numbers; every other case by whether the
      two printed strings are identical. */
  function Evaluate(a: Coffee, b: Coffee, item: Descriptor): (r: Verdict)
    ensures ComparesAsNumbers(a, b, item) ==>
      var x := ParseFloat(Display(a, item.field)).value;
      var y := ParseFloat(Display(b, item.field)).value;
      (r == Higher <==> x > y) && (r == Lower <==> x < y) && (r == Equal <==> x == y)
    ensures !ComparesAsNumbers(a, b, item) ==>
      r != Higher && r != Lower && (r == Equal <==> Display(a, item.field) == Display(b, item.field))
  {
    var valA := Display(a, item.field);
    var valB := Display(b, item.field);
    if item.isNumeric && ParseFloat(valA).Some? && ParseFloat(valB).Some? then
      var numA := ParseFloat(valA).value;
      var numB := ParseFloat(valB).value;
      if numA > numB then Higher else if numA < numB then Lower else Equal
    else if valA == valB then Equal
    else Different
  }

  /** Swapping the coffees mirrors the verdict. */
  lemma EvaluateSwap(a: Coffee, b: Coffee, item: Descriptor)
    ensures Evaluate(b, a, item) == Mirror(Evaluate(a, b, item))
  {
  }

  /** Acidity and body print as "n/10", so they compare by their integers. */
  lemma ScaleRowsCompareNumbers(a: Coffee, b: Coffee, item: Descriptor)
    requires item in Items && (item.field == AcidityField || item.field == BodyField)
    ensures var x := if item.field == AcidityField then a.acidity else a.body;
      var y := if item.field == AcidityField then b.acidity else b.body;
      Evaluate(a, b, item) == (if x > y then Higher else if x < y then Lower else Equal)
  {
    assert item.isNumeric by {
      NumericItems();
      var i :| 0 <= i < |Items| && Items[i] == item;
    }
    assert ComparesAsNumbers(a, b, item);
  }

  /** Acidity 6 against acidity 3 reads 'higher'. */
  lemma SixOverThreeIsHigher(a: Coffee, b: Coffee)
    requires a.acidity == 6 && b.acidity == 3
    ensures Evaluate(a, b, Items[4]) == Higher
  {
    ScaleRowsCompareNumbers(a, b, Items[4]);
  }

  /** The price prints with a leading "$", which `parseFloat` cannot read, so
      the price row only ever says 'equal' or 'different', by the printed
      strings. */
  lemma PriceComparesAsText(a: Coffee, b: Coffee)
    ensures Evaluate(a, b, Items[6]) == (if FormatUsd(a.priceCents) == FormatUsd(b.priceCents) then Equal else Different)
  {
    var item := Items[6];
    assert item.field == PriceField;
    var sa := FormatUsd(a.priceCents);
    assert Display(a, item.field) == sa;
    ParseFloatRejectsLeadingSymbol(sa);
    assert !ComparesAsNumbers(a, b, item);
  }

  /** `comparisonItems.map(item => getComparisonResult(a, b, item))`: one
      verdict per descriptor, in table order. */
  function Verdicts(a: Coffee, b: Coffee): (r: seq<Verdict>)
    ensures |r| == |Items|
    ensures forall i :: 0 <= i < |Items| ==> r[i] == Evaluate(a, b, Items[i])
  {
    seq(|Items|, i requires 0 <= i < |Items| => Evaluate(a, b, Items[i]))
  }

  /** Swapping the coffees mirrors every verdict of the table. */
  lemma VerdictsSwap(a: Coffee, b: Coffee)
    ensures forall i :: 0 <= i < |Items| ==> Verdicts(b, a)[i] == Mirror(Verdicts(a, b)[i])
  {
    forall i | 0 <= i < |Items| ensures Verdicts(b, a)[i] == Mirror(Verdicts(a, b)[i]) {
      EvaluateSwap(a, b, Items[i]);
    }
  }

  /** A coffee compared with itself is 'equal' on every row. */
  lemma SelfComparisonIsEqual(a: Coffee)
    ensures forall i :: 0 <= i < |Items| ==> Verdicts(a, a)[i] == Equal
  {
  }
}
