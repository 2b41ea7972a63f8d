/** `CoffeeDetail.jsx`: one coffee's page. Each load clears the error and
    shows the spinner, unwraps the reply, insists on a truthy id, and maps
    a failure to a message; the `finally` step always ends the loading. */
module CoffeeDetail {
  import opened Wrappers
  import opened Catalog
  import opened Http
  import JsString
  import JsNumber

  /** The error thrown for a record without a usable id; no response. */
  const InvalidData: Thrown := Thrown(None, "Invalid coffee data")

  /** `coffeeData?.id` is truthy: present and not 0. */
  predicate HasTruthyId(u: Unwrapped<Record>)
  {
    u.Found? && u.value.id.Some? && u.value.id.value != 0
  }

  /** The `try` block: the request's error, or the unwrapped record when its
      id is truthy, else the "Invalid coffee data" error. */
  function TryLoad(reply: AxiosReply<Body<Record>>): (r: Result<Record, Thrown>)
    ensures reply.Rejected? ==> r == Err(reply.error)
    ensures reply.Resolved? ==> (r.Ok? <==> HasTruthyId(Unwrap(reply.data)))
    ensures reply.Resolved? && r.Ok? ==> r.value == Unwrap(reply.data).value
    ensures reply.Resolved? && r.Err? ==> r.error == InvalidData
  {
    match reply
    case Rejected(e) => Err(e)
    case Resolved(data) =>
      var u := Unwrap(data);
      if HasTruthyId(u) then Ok(u.value) else Err(InvalidData)
  }

  /** The `catch` block: "Coffee not found" for a 404, else the error's
      message, else "Failed to load coffee". */
  function DetailErrorMessage(e: Thrown): (r: string)
    ensures r != ""
    ensures IsNotFound(e) ==> r == "Coffee not found"
    ensures !IsNotFound(e) && e.message != "" ==> r == e.message
    ensures !IsNotFound(e) && e.message == "" ==> r == "Failed to load coffee"
  {
    if IsNotFound(e) then "Coffee not found"
    else if e.message != "" then e.message
    else "Failed to load coffee"
  }

  /** A record without an id, with id 0, an unsuccessful envelope or a
      missing payload are all rejected with "Invalid coffee data". */
  lemma InvalidRecordsRejected(record: Record)
    requires record.id.None? || record.id == Some(0)
    ensures TryLoad(Resolved(Bare(record))) == Err(InvalidData)
    ensures TryLoad(Resolved(Envelope(true, Some(record)))) == Err(InvalidData)
    ensures TryLoad(Resolved(Envelope(true, None))) == Err(InvalidData)
    ensures TryLoad(Resolved(Envelope(false, Some(record)))) == Err(InvalidData)
    ensures DetailErrorMessage(InvalidData) == "Invalid coffee data"
  {
  }

  /** What the page renders. */
  datatype Screen = Spinner | ErrorAlert(heading: string, text: string) | Details(coffee: Record)

  class DetailPage {
    var coffee: Option<Record>
    var loading: bool
    var error: Option<string>

    constructor()
      ensures coffee.None? && loading && error.None?
    {
      coffee := None;
      loading := true;
      error := None;
    }

    /** The start of `getCoffee`: `setLoading(true)`, `setError(null)`. */
    method BeginLoad()
      modifies this
      ensures loading && error.None? && coffee == old(coffee)
    {
      loading := true;
      error := None;
    }

    /** The rest of `getCoffee` once the request settles: the record or the
        message, then `finally` ends the loading. A failure leaves the
        previous coffee in place. */
    method Settle(reply: AxiosReply<Body<Record>>)
      modifies this
      ensures !loading
      ensures TryLoad(reply).Ok? ==> coffee == Some(TryLoad(reply).value) && error == old(error)
      ensures TryLoad(reply).Err? ==>
        error == Some(DetailErrorMessage(TryLoad(reply).error)) && coffee == old(coffee)
    {
      match TryLoad(reply) {
        case Ok(record) =>
          coffee := Some(record);
        case Err(e) =>
          error := Some(DetailErrorMessage(e));
      }
      loading := false;
    }

    /** The render: the spinner while loading, then the error alert when
        there is an error or no coffee, else the details. */
    function View(): (s: Screen)
      reads this
      ensures loading <==> s.Spinner?
      ensures s.ErrorAlert? <==> !loading && (Truthy(error) || coffee.None?)
      ensures s.ErrorAlert? ==> (s.heading == "Error" <==> Truthy(error))
      ensures s.ErrorAlert? && !Truthy(error) ==>
        s.heading == "Coffee Not Found" && s.text == "This coffee is not available"
      ensures s.ErrorAlert? && Truthy(error) ==> s.text == error.value
      ensures s.Details? ==> coffee == Some(s.coffee)
    {
      if loading then Spinner
      else if Truthy(error) || coffee.None? then
        ErrorAlert(if Truthy(error) then "Error" else "Coffee Not Found",
                   if Truthy(error) then error.value else "This coffee is not available")
      else Details(coffee.value)
    }
  }

  /** A full load from a fresh page ends on the details exactly when the
      reply carries a record with a truthy id, and on an alert headed
      "Error" otherwise. */
  method LoadFresh(reply: AxiosReply<Body<Record>>) returns (s: Screen)
    ensures s.Details? <==> TryLoad(reply).Ok?
    ensures s.Details? ==> s.coffee == TryLoad(reply).value
    ensures s.ErrorAlert? <==> TryLoad(reply).Err?
    ensures s.ErrorAlert? ==> s.heading == "Error" && s.text == DetailErrorMessage(TryLoad(reply).error)
  {
    var page := new DetailPage();
    page.BeginLoad();
    page.Settle(reply);
    s := page.View();
  }
}
