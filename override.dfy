/** The manual-override store (`override_store`): the override the user has
    set on the charger, `{}` when there is none. */
module Override {
  import opened Wrappers
  import opened Json
  import opened Http

  const NoOverride: Json := Obj([])

  /** The override a successful download leaves: none for "No manual
      override", the response otherwise. */
  function Downloaded(response: Json): (r: Json)
    ensures HasMessage(response, "No manual override") ==> r == NoOverride
    ensures !HasMessage(response, "No manual override") ==> r == response
  {
    if HasMessage(response, "No manual override") then NoOverride else response
  }

  /** "No manual override" is a success and leaves an empty override. */
  lemma NoOverrideEmpties()
    ensures !Failed(MessageResponse("No manual override"))
    ensures Downloaded(MessageResponse("No manual override")) == NoOverride
    ensures Keys(NoOverride.members) == {}
  {
    MessageOutcome("No manual override");
  }

  class OverrideStore {
    var current: Json

    constructor ()
      ensures current == Null
    {
      current := Null;
    }

    method Set(value: Json)
      modifies this
      ensures current == value
    {
      current := value;
    }

    /** `download()`: `GET /override`. */
    method Download(response: Json) returns (ok: bool, req: Request)
      modifies this
      ensures req == Request(GET, "/override", None)
      ensures ok <==> !Failed(response)
      ensures ok ==> current == Downloaded(response)
      ensures !ok ==> current == old(current)
    {
      req := Request(GET, "/override", None);
      ok := !Failed(response);
      if ok {
        current := Downloaded(response);
      }
    }

    /** `upload(data)`: `POST /override`; on success the uploaded override is
        held. */
    method Upload(data: Json, response: Json) returns (ok: bool, req: Request)
      modifies this
      ensures req == Request(POST, "/override", Some(data))
      ensures ok <==> !Failed(response)
      ensures ok ==> current == data
      ensures !ok ==> current == old(current)
    {
      req := Request(POST, "/override", Some(data));
      ok := !Failed(response);
      if ok {
        current := data;
      }
    }

    /** `toggle()`: `PATCH /override` without a body; the held value is not
        touched. */
    method Toggle(response: Json) returns (ok: bool, req: Request)
      ensures req == Request(PATCH, "/override", None)
      ensures ok <==> !Failed(response)
    {
      req := Request(PATCH, "/override", None);
      ok := !Failed(response);
    }
  }
}
