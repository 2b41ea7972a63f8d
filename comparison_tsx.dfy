/** The state of `CoffeeComparsion.tsx`: the selector list, and for each of
    the two positions the coffee shown there, its loading flag and its error.
    A request's outcome is an input to the step that settles it. */
module ComparisonTsx {
  import opened Wrappers
  import opened Catalog
  import opened Http
  import opened JsNumber
  import opened Comparison

  datatype Position = First | Second

  function Other(p: Position): Position
  {
    if p == First then Second else First
  }

  /** One position: the entry (`None` is null; a body whose unwrapping was
      undefined is stored as `Undefined`), its loading flag and its error. */
  datatype Slot = Slot(entry: Option<Unwrapped<Coffee>>, loading: bool, error: Option<string>)

  /** An entry is truthy unless it is null or undefined. */
  predicate Shown(entry: Option<Unwrapped<Coffee>>)
  {
    entry.Some? && !entry.value.Undefined?
  }

  /** An option of the selectors: `{id, title}`. */
  datatype Choice = Choice(id: int, title: string)

  /** `data.map(c => ({id: c.id, title: c.title}))`. */
  function Choices(list: seq<Coffee>): (r: seq<Choice>)
    ensures |r| == |list|
    ensures forall i :: 0 <= i < |list| ==> r[i].id == list[i].id && r[i].title == list[i].title
  {
    seq(|list|, i requires 0 <= i < |list| => Choice(list[i].id, list[i].title))
  }

  /** `id ? parseInt(id) : null`, kept only when truthy: the empty option,
      text without leading digits (NaN) and 0 start no request. */
  function RequestedId(value: string): (r: Option<int>)
    ensures r.Some? ==> value != "" && r.value != 0 && ParseInt(value) == Some(r.value)
    ensures r.None? ==> value == "" || ParseInt(value).None? || ParseInt(value) == Some(0)
  {
    if value == "" then None
    else match ParseInt(value)
      case None => None
      case Some(n) => if n != 0 then Some(n) else None
  }

  /** An option's value is its id printed; choosing it requests that id,
      except that a coffee with id 0 can never be chosen. */
  lemma ChoosingAnOptionRequestsItsId(c: Choice)
    ensures RequestedId(IntToString(c.id)) == (if c.id != 0 then Some(c.id) else None)
  {
    ParseIntOfRenderedInt(c.id);
  }

  /** What the comparison section shows: nothing until both entries are
      truthy; the table of verdicts when both are coffees; a stored
      unsuccessful envelope has no flavour list, and printing it throws. */
  datatype Table = NoTable | Rows(first: Coffee, second: Coffee, verdicts: seq<Verdict>) | RenderError

  /** The error `fetchCoffee` records for a reply. */
  function FetchError(reply: FetchReply<Body<Coffee>>): (r: Option<string>)
    ensures reply.Answered? && reply.ok <==> r.None?
    ensures reply.Answered? && !reply.ok ==> r == Some("Coffee not found")
    ensures reply.Failed? ==> r == Some(reply.message)
  {
    match reply
    case Answered(ok, _) => if ok then None else Some("Coffee not found")
    case Failed(m) => Some(m)
  }

  class ComparisonPage {
    var first: Slot
    var second: Slot
    var allCoffees: seq<Choice>
    var loadingAll: bool

    function SlotAt(p: Position): Slot
      reads this
    {
      if p == First then first else second
    }

    /** Both entries null, the list loading, no errors. */
    constructor()
      ensures first == Slot(None, false, None) && second == Slot(None, false, None)
      ensures allCoffees == [] && loadingAll
    {
      first := Slot(None, false, None);
      second := Slot(None, false, None);
      allCoffees := [];
      loadingAll := true;
    }

    /** The mount effect: the list on an ok answer, nothing otherwise, and
        `loading.all` off in `finally`. */
    method LoadAll(reply: FetchReply<seq<Coffee>>)
      modifies this
      ensures !loadingAll
      ensures reply.Answered? && reply.ok ==> allCoffees == Choices(reply.json)
      ensures !(reply.Answered? && reply.ok) ==> allCoffees == old(allCoffees)
      ensures first == old(first) && second == old(second)
    {
      if reply.Answered? && reply.ok {
        allCoffees := Choices(reply.json);
      }
      loadingAll := false;
    }

    /** Replaces one position, leaves the other. */
    method SetSlot(p: Position, s: Slot)
      modifies this
      ensures SlotAt(p) == s && SlotAt(Other(p)) == old(SlotAt(Other(p)))
      ensures allCoffees == old(allCoffees) && loadingAll == old(loadingAll)
    {
      if p == First { first := s; } else { second := s; }
    }

    /** `handleSelect(p, value)`: the entry at p becomes null; for a truthy
        id the request starts, with loading on and the error cleared. The
        id requested is returned; the other position is untouched. */
    method HandleSelect(p: Position, value: string) returns (request: Option<int>)
      modifies this
      ensures request == RequestedId(value)
      ensures SlotAt(p).entry.None?
      ensures request.Some? ==> SlotAt(p).loading && SlotAt(p).error.None?
      ensures request.None? ==> SlotAt(p).loading == old(SlotAt(p).loading) && SlotAt(p).error == old(SlotAt(p).error)
      ensures SlotAt(Other(p)) == old(SlotAt(Other(p)))
      ensures allCoffees == old(allCoffees) && loadingAll == old(loadingAll)
    {
      request := RequestedId(value);
      var s := SlotAt(p);
      s := s.(entry := None);
      if request.Some? {
        s := s.(loading := true, error := None);
      }
      SetSlot(p, s);
    }

    /** The rest of `fetchCoffee` once its request settles: an ok answer
        stores the unwrapped body at p, anything else records the error;
        loading at p ends. Nothing checks that p still asks for this coffee,
        so the request that settles last wins. */
    method FetchSettle(p: Position, reply: FetchReply<Body<Coffee>>)
      modifies this
      ensures !SlotAt(p).loading
      ensures SlotAt(p).error == (if FetchError(reply).Some? then FetchError(reply) else old(SlotAt(p).error))
      ensures reply.Answered? && reply.ok ==> SlotAt(p).entry == Some(Unwrap(reply.json))
      ensures !(reply.Answered? && reply.ok) ==> SlotAt(p).entry == old(SlotAt(p).entry)
      ensures SlotAt(Other(p)) == old(SlotAt(Other(p)))
      ensures allCoffees == old(allCoffees) && loadingAll == old(loadingAll)
    {
      var s := SlotAt(p);
      match reply {
        case Answered(ok, json) =>
          if ok {
            s := s.(entry := Some(Unwrap(json)));
          } else {
            s := s.(error := Some("Coffee not found"));
          }
        case Failed(m) =>
          s := s.(error := Some(m));
      }
      s := s.(loading := false);
      SetSlot(p, s);
    }

    /** `resetComparison`: both entries null; loading and errors stay. */
    method Reset()
      modifies this
      ensures first == old(first).(entry := None) && second == old(second).(entry := None)
      ensures allCoffees == old(allCoffees) && loadingAll == old(loadingAll)
    {
      first := first.(entry := None);
      second := second.(entry := None);
    }

    /** The Reset button is enabled while some entry is truthy. */
    predicate CanReset()
      reads this
    {
      Shown(first.entry) || Shown(second.entry)
    }

    /** The comparison section. */
    function View(): (t: Table)
      reads this
      ensures t.NoTable? <==> !(Shown(first.entry) && Shown(second.entry))
      ensures t.Rows? <==> first.entry.Some? && first.entry.value.Found?
                           && second.entry.Some? && second.entry.value.Found?
      ensures t.Rows? ==> t.first == first.entry.value.value && t.second == second.entry.value.value
      ensures t.Rows? ==> |t.verdicts| == |Items|
      ensures t.Rows? ==> forall i :: 0 <= i < |Items| ==>
        t.verdicts[i] == Evaluate(t.first, t.second, Items[i])
    {
      if !(Shown(first.entry) && Shown(second.entry)) then NoTable
      else if first.entry.value.Found? && second.entry.value.Found? then
        var a := first.entry.value.value;
        var b := second.entry.value.value;
        Rows(a, b, Verdicts(a, b))
      else RenderError
    }
  }

  /** After a reset there is nothing to compare, whatever was loading. */
  method ResetHidesTable(page: ComparisonPage) returns (t: Table)
    modifies page
    ensures t == NoTable
    ensures !page.CanReset()
  {
    page.Reset();
    t := page.View();
  }

  /** Selecting the same coffee in both positions and loading it gives a
      table that says 'equal' on every row. A coffee with id 0 starts no
      request, so nothing is loaded and there is no table. */
  method CompareWithItself(c: Coffee) returns (t: Table)
    ensures c.id != 0 ==> t.Rows? && |t.verdicts| == |Items|
    ensures c.id != 0 ==> forall i :: 0 <= i < |Items| ==> t.verdicts[i] == Equal
    ensures c.id == 0 ==> t == NoTable
  {
    var page := new ComparisonPage();
    var v := IntToString(c.id);
    ChoosingAnOptionRequestsItsId(Choice(c.id, c.title));
    var r1 := page.HandleSelect(First, v);
    var r2 := page.HandleSelect(Second, v);
    if r1.Some? {
      page.FetchSettle(First, Answered(true, Bare(c)));
    }
    if r2.Some? {
      page.FetchSettle(Second, Answered(true, Bare(c)));
    }
    t := page.View();
    SelfComparisonIsEqual(c);
  }
}
