/** `CoffeeComparsion.jsx`: two selected ids, the coffee fetched for each,
    and how each field of a loosely shaped record is printed, with "-" as
    the placeholder. The lookup is `getCoffeeById`; its outcome is an input
    to the step that settles it. */
module ComparisonJsx {
  import opened Wrappers
  import opened Catalog
  import opened JsNumber
  import opened JsString

  /** `value || "-"`: a missing or empty string prints as "-". */
  function TextOrDash(s: Option<string>): (r: string)
    ensures r == "-" <==> s.None? || s.value == "" || s.value == "-"
    ensures r != "-" ==> s == Some(r)
  {
    if s.Some? && s.value != "" then s.value else "-"
  }

  /** `flavor ? flavor.join(", ") : "-"`: any array is truthy, so only a
      missing list prints as "-"; an empty one prints as "". */
  function FlavorOrDash(f: Option<seq<string>>): (r: string)
    ensures f.None? ==> r == "-"
    ensures f.Some? ==> r == FlavorLine(f.value)
    ensures f == Some([]) ==> r == ""
  {
    if f.Some? then FlavorLine(f.value) else "-"
  }

  /** `value ?? "-"`: only a missing number prints as "-"; 0 prints as "0". */
  function NumberOrDash(n: Option<int>): (r: string)
    ensures r == "-" <==> n.None?
    ensures n.Some? ==> ParseInt(r) == n
  {
    if n.Some? then
      ParseIntOfRenderedInt(n.value);
      IntToString(n.value)
    else "-"
  }

  /** `price != null ? "€ " + price.toFixed(2) : "-"`. */
  function PriceOrDash(p: Option<nat>): (r: string)
    ensures r == "-" <==> p.None?
    ensures p.Some? ==> |r| > 2 && r[..2] == "\U{20AC} " && r[2..] == Fixed2(p.value)
  {
    if p.Some? then "\U{20AC} " + Fixed2(p.value) else "-"
  }

  /** `organic ? "Sì" : "No"`: never the placeholder. */
  function OrganicLabel(o: Option<bool>): (r: string)
    ensures r == "S\U{00EC}" <==> o == Some(true)
    ensures r != "S\U{00EC}" ==> r == "No"
  {
    if o == Some(true) then "S\U{00EC}" else "No"
  }

  /** `||` and `??` part ways on falsy values that are present: an empty
      text field and a zero number are both present, yet only the text
      prints as the placeholder. */
  lemma PlaceholderRulesDiffer()
    ensures TextOrDash(Some("")) == TextOrDash(None) == "-"
    ensures NumberOrDash(Some(0)) == "0" != NumberOrDash(None)
    ensures OrganicLabel(Some(false)) == OrganicLabel(None) == "No"
  {
    assert IntToString(0) == NatToString(0) == [DigitChar(0)];
  }

  /** One row of the comparison body: heading, left value, right value. */
  datatype Line = Line(heading: string, left: string, right: string)

  /** The headings of the nine rows, in page order. */
  const Headings: seq<string> := ["Categoria", "Origine", "Tostatura", "Aromaticit\U{00E0}",
    "Acidit\U{00E0}", "Corpo", "Prezzo", "Confezione", "Biologico"]

  /** What row k prints for one record: each row applies its own field's
      placeholder rule. */
  function Cell(k: nat, r: Record): (v: string)
    requires k < 9
    ensures k == 0 ==> v == TextOrDash(r.category)
    ensures k == 1 ==> v == TextOrDash(r.origin)
    ensures k == 2 ==> v == TextOrDash(r.roastLevel)
    ensures k == 3 ==> v == FlavorOrDash(r.flavor)
    ensures k == 4 ==> v == NumberOrDash(r.acidity)
    ensures k == 5 ==> v == NumberOrDash(r.body)
    ensures k == 6 ==> v == PriceOrDash(r.priceCents)
    ensures k == 7 ==> v == TextOrDash(r.packaging)
    ensures k == 8 ==> v == OrganicLabel(r.organic)
  {
    if k == 0 then TextOrDash(r.category)
    else if k == 1 then TextOrDash(r.origin)
    else if k == 2 then TextOrDash(r.roastLevel)
    else if k == 3 then FlavorOrDash(r.flavor)
    else if k == 4 then NumberOrDash(r.acidity)
    else if k == 5 then NumberOrDash(r.body)
    else if k == 6 then PriceOrDash(r.priceCents)
    else if k == 7 then TextOrDash(r.packaging)
    else OrganicLabel(r.organic)
  }

  /** The nine rows of the body for records a and b, in page order: the
      heading, a's value and b's value. */
  function Lines(a: Record, b: Record): (r: seq<Line>)
    ensures |r| == |Headings|
    ensures forall k :: 0 <= k < |r| ==> r[k] == Line(Headings[k], Cell(k, a), Cell(k, b))
  {
    seq(|Headings|, k requires 0 <= k < |Headings| => Line(Headings[k], Cell(k, a), Cell(k, b)))
  }

  /** Each side of the body depends on its own record only: swapping the
      records swaps the two columns and keeps the headings. */
  lemma LinesSwap(a: Record, b: Record)
    ensures forall i :: 0 <= i < |Headings| ==>
      Lines(b, a)[i] == Line(Lines(a, b)[i].heading, Lines(a, b)[i].right, Lines(a, b)[i].left)
  {
  }

  /** An option of either selector: the printed id and the title. */
  datatype Choice = Choice(value: string, text: string)

  /** `coffees.map(coffee => <option value={coffee.id}>{coffee.title}</option>)`,
      after the "Seleziona" option whose value is "". */
  function Options(catalog: seq<Coffee>): (r: seq<Choice>)
    ensures |r| == |catalog| + 1 && r[0] == Choice("", "Seleziona")
    ensures forall i :: 0 <= i < |catalog| ==> r[i + 1] == Choice(IntToString(catalog[i].id), catalog[i].title)
  {
    [Choice("", "Seleziona")] + seq(|catalog|, i requires 0 <= i < |catalog| => Choice(IntToString(catalog[i].id), catalog[i].title))
  }

  /** Choosing a catalog entry looks up exactly its id. */
  lemma OptionLooksUpItsCoffee(catalog: seq<Coffee>, i: nat)
    requires i < |catalog|
    ensures Options(catalog)[i + 1].value != ""
    ensures ParseInt(Options(catalog)[i + 1].value) == Some(catalog[i].id)
  {
    ParseIntOfRenderedInt(catalog[i].id);
  }

  class ComparisonPage {
    var firstId: string
    var secondId: string
    var coffeeA: Option<Record>
    var coffeeB: Option<Record>

    constructor()
      ensures firstId == "" && secondId == "" && coffeeA.None? && coffeeB.None?
    {
      firstId := "";
      secondId := "";
      coffeeA := None;
      coffeeB := None;
    }

    /** A choice in the first selector and the effect it triggers: the empty
        choice clears coffeeA at once; any other asks for `parseInt(value)`
        (`None` is NaN) and leaves coffeeA until the answer comes. */
    method ChooseFirst(value: string) returns (lookup: Option<Option<int>>)
      modifies this
      ensures firstId == value
      ensures value == "" ==> lookup.None? && coffeeA.None?
      ensures value != "" ==> lookup == Some(ParseInt(value)) && coffeeA == old(coffeeA)
      ensures secondId == old(secondId) && coffeeB == old(coffeeB)
    {
      firstId := value;
      if value != "" {
        lookup := Some(ParseInt(value));
      } else {
        lookup := None;
        coffeeA := None;
      }
    }

    /** The same for the second selector and coffeeB. */
    method ChooseSecond(value: string) returns (lookup: Option<Option<int>>)
      modifies this
      ensures secondId == value
      ensures value == "" ==> lookup.None? && coffeeB.None?
      ensures value != "" ==> lookup == Some(ParseInt(value)) && coffeeB == old(coffeeB)
      ensures firstId == old(firstId) && coffeeA == old(coffeeA)
    {
      secondId := value;
      if value != "" {
        lookup := Some(ParseInt(value));
      } else {
        lookup := None;
        coffeeB := None;
      }
    }

    /** `.then(setCoffeeA)`: a found record is stored; a rejected lookup has
        no handler and changes nothing. No check that the selection is
        still the one asked for. */
    method FirstArrived(outcome: Result<Record, string>)
      modifies this
      ensures outcome.Ok? ==> coffeeA == Some(outcome.value)
      ensures outcome.Err? ==> coffeeA == old(coffeeA)
      ensures firstId == old(firstId) && secondId == old(secondId) && coffeeB == old(coffeeB)
    {
      if outcome.Ok? {
        coffeeA := Some(outcome.value);
      }
    }

    /** `.then(setCoffeeB)`. */
    method SecondArrived(outcome: Result<Record, string>)
      modifies this
      ensures outcome.Ok? ==> coffeeB == Some(outcome.value)
      ensures outcome.Err? ==> coffeeB == old(coffeeB)
      ensures firstId == old(firstId) && secondId == old(secondId) && coffeeA == old(coffeeA)
    {
      if outcome.Ok? {
        coffeeB := Some(outcome.value);
      }
    }

    /** The comparison body: present only when both coffees are set. */
    function Body(): (r: Option<seq<Line>>)
      reads this
      ensures r.Some? <==> coffeeA.Some? && coffeeB.Some?
      ensures r.Some? ==> r.value == Lines(coffeeA.value, coffeeB.value)
    {
      if coffeeA.Some? && coffeeB.Some? then Some(Lines(coffeeA.value, coffeeB.value)) else None
    }
  }

  /** Clearing either selector hides the body, whatever was loaded. */
  method ClearingHidesBody(page: ComparisonPage) returns (r: Option<seq<Line>>)
    modifies page
    ensures r.None?
  {
    var lookup := page.ChooseSecond("");
    r := page.Body();
  }
}
