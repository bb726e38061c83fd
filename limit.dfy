/** The charge-limit store (`limit_store`). It holds one limit record
    `{type, value, auto_release}`; "no limit" is the record of type "none". */
module Limit {
  import opened Wrappers
  import opened Json
  import opened Http

  /** `{type: "none", value: 0, auto_release: true}` */
  const DefaultLimit: Json :=
    Obj([Member("type", Str("none")), Member("value", Num(0)), Member("auto_release", Bool(true))])

  lemma DefaultLimitFields()
    ensures Get(DefaultLimit, "type") == Some(Str("none"))
    ensures Get(DefaultLimit, "value") == Some(Num(0))
    ensures Get(DefaultLimit, "auto_release") == Some(Bool(true))
    ensures !Failed(DefaultLimit)
  {
  }

  /** The record a successful download leaves: the default for "no limit",
      the response otherwise. */
  function Downloaded(response: Json): (r: Json)
    ensures HasMessage(response, "no limit") ==> r == DefaultLimit
    ensures !HasMessage(response, "no limit") ==> r == response
  {
    if HasMessage(response, "no limit") then DefaultLimit else response
  }

  /** A "no limit" reply is a success, and it leaves the default record. */
  lemma NoLimitResets()
    ensures !Failed(MessageResponse("no limit"))
    ensures Downloaded(MessageResponse("no limit")) == DefaultLimit
  {
    MessageOutcome("no limit");
  }

  class LimitStore {
    var limit: Json

    constructor ()
      ensures limit == DefaultLimit
    {
      limit := DefaultLimit;
    }

    method Set(value: Json)
      modifies this
      ensures limit == value
    {
      limit := value;
    }

    /** `download()`: `GET /limit`. */
    method Download(response: Json) returns (ok: bool, req: Request)
      modifies this
      ensures req == Request(GET, "/limit", None)
      ensures ok <==> !Failed(response)
      ensures ok ==> limit == Downloaded(response)
      ensures !ok ==> limit == old(limit)
    {
      req := Request(GET, "/limit", None);
      ok := !Failed(response);
      if ok {
        limit := Downloaded(response);
      }
    }

    /** `upload(data)`: `POST /limit` with the record as body. */
    method Upload(data: Json, response: Json) returns (ok: bool, req: Request)
      ensures req == Request(POST, "/limit", Some(data))
      ensures ok <==> !Failed(response)
    {
      req := Request(POST, "/limit", Some(data));
      ok := !Failed(response);
    }

    /** `remove()`: `DELETE /limit`; on success the default record is held. */
    method Remove(response: Json) returns (ok: bool, req: Request)
      modifies this
      ensures req == Request(DELETE, "/limit", None)
      ensures ok <==> !Failed(response)
      ensures ok ==> limit == DefaultLimit
      ensures !ok ==> limit == old(limit)
    {
      req := Request(DELETE, "/limit", None);
      ok := !Failed(response);
      if ok {
        limit := DefaultLimit;
      }
    }

    /** `reset()`: back to the default record, whatever was held. */
    method Reset() returns (ok: bool)
      modifies this
      ensures ok && limit == DefaultLimit
    {
      limit := DefaultLimit;
      ok := true;
    }
  }
}
