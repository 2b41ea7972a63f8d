/** The `useCoffeeLogic` hook: the catalog load, the favourites toggle and
    `getCoffeeById`, with its error-message mapping. */
module CoffeeLogic {
  import opened Wrappers
  import opened Catalog
  import opened Http
  import opened Favorites

  /** The message a failed catalog load shows: the server's message when it
      sent a non-empty one, else "Error loading coffees". */
  function ListErrorMessage(e: Thrown): (r: string)
    ensures r != ""
    ensures Truthy(ServerMessage(e)) ==> r == ServerMessage(e).value
    ensures !Truthy(ServerMessage(e)) ==> r == "Error loading coffees"
  {
    var m := ServerMessage(e);
    if Truthy(m) then m.value else "Error loading coffees"
  }

  /** The error `getCoffeeById` re-throws: "Coffee not found" for a 404,
      else the server's non-empty message, else "Error loading coffee". */
  function RecordErrorMessage(e: Thrown): (r: string)
    ensures r != ""
    ensures IsNotFound(e) ==> r == "Coffee not found"
    ensures !IsNotFound(e) && Truthy(ServerMessage(e)) ==> r == ServerMessage(e).value
    ensures !IsNotFound(e) && !Truthy(ServerMessage(e)) ==> r == "Error loading coffee"
  {
    if IsNotFound(e) then "Coffee not found"
    else
      var m := ServerMessage(e);
      if Truthy(m) then m.value else "Error loading coffee"
  }

  /** The error the `try` block throws itself when the record is missing;
      it carries no `response`. */
  const LocalNotFound: Thrown := Thrown(None, "Coffee not found")

  /** The `try` block of `getCoffeeById`: the request's error, or the
      unwrapped record, which must be truthy. An unsuccessful envelope is
      an object, hence truthy, and comes back as it is. */
  function TryRecord(reply: AxiosReply<Body<Record>>): (r: Result<Record, Thrown>)
    ensures reply.Rejected? ==> r == Err(reply.error)
    ensures reply.Resolved? && Unwrap(reply.data) == Undefined ==> r == Err(LocalNotFound)
  {
    match reply
    case Rejected(e) => Err(e)
    case Resolved(data) =>
      match Unwrap(data)
      case Found(record) => Ok(record)
      case WholeEnvelope => Ok(NoFields)
      case Undefined => Err(LocalNotFound)
  }

  /** `getCoffeeById`: the record, or the re-mapped error message. */
  function GetCoffeeById(reply: AxiosReply<Body<Record>>): (r: Result<Record, string>)
    ensures r.Err? <==> TryRecord(reply).Err?
    ensures r.Err? ==> r.error == RecordErrorMessage(TryRecord(reply).error)
    ensures r.Ok? ==> r.value == TryRecord(reply).value
  {
    match TryRecord(reply)
    case Ok(record) => Ok(record)
    case Err(e) => Err(RecordErrorMessage(e))
  }

  /** A 404 from the server reads "Coffee not found". */
  lemma NotFoundStatusMessage(e: Thrown)
    requires IsNotFound(e)
    ensures GetCoffeeById(Rejected(e)) == Err("Coffee not found")
  {
  }

  /** The locally thrown "Coffee not found" is caught by the same `catch`;
      it has no response, so it surfaces as the generic message. */
  lemma MissingRecordSurfacesAsGeneric()
    ensures GetCoffeeById(Resolved(Envelope(true, None))) == Err("Error loading coffee")
    ensures GetCoffeeById(Resolved(Envelope(true, None))) != Err(LocalNotFound.message)
  {
  }

  /** The payload of a successful envelope is returned unchanged; other
      replies that resolve return the body itself. */
  lemma ResolvedRecords(record: Record, success: bool)
    ensures GetCoffeeById(Resolved(Envelope(true, Some(record)))) == Ok(record)
    ensures GetCoffeeById(Resolved(Bare(record))) == Ok(record)
    ensures GetCoffeeById(Resolved(Envelope(false, Some(record)))) == Ok(NoFields)
  {
  }

  /** The hook's state: what it returns to its callers. */
  class CoffeeStore {
    /** `coffees`: normally a list; an unsuccessful envelope is stored whole. */
    var coffees: Unwrapped<seq<Coffee>>
    var favorites: seq<int>
    var loading: bool
    var error: Option<string>
    const storage: Storage

    /** The initial state: favourites from storage, or [] when none. */
    constructor(storage: Storage)
      ensures this.storage == storage
      ensures favorites == InitialFavorites(storage.favoriteCoffees)
      ensures coffees == Found([]) && loading && error.None?
    {
      this.storage := storage;
      coffees := Found([]);
      favorites := InitialFavorites(storage.favoriteCoffees);
      loading := true;
      error := None;
    }

    /** `fetchCoffees`: loading on, then the unwrapped list or the error
      message, then loading off in `finally`. */
    method FetchCoffees(reply: AxiosReply<Body<seq<Coffee>>>)
      modifies this
      ensures !loading
      ensures reply.Resolved? ==> coffees == Unwrap(reply.data) && error == old(error)
      ensures reply.Rejected? ==> error == Some(ListErrorMessage(reply.error)) && coffees == old(coffees)
      ensures favorites == old(favorites)
    {
      loading := true;
      match reply {
        case Resolved(data) =>
          coffees := Unwrap(data);
        case Rejected(e) =>
          error := Some(ListErrorMessage(e));
      }
      loading := false;
    }

    /** `toggleFavorite`: storage first, then state, with the same list. */
    method ToggleFavorite(id: int)
      modifies this, storage
      ensures favorites == Toggle(old(favorites), id)
      ensures storage.favoriteCoffees == Some(favorites)
      ensures coffees == old(coffees) && loading == old(loading) && error == old(error)
    {
      var newFavorites := Toggle(favorites, id);
      storage.Save(newFavorites);
      favorites := newFavorites;
    }
  }
}
