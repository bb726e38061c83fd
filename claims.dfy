/** The claims store (`claims_store`): the list of claims the control
    sources hold on the charger, each naming its source in `client`. */
module Claims {
  import opened Wrappers
  import opened Json
  import opened Http
  import Registry
  import Utils

  /** The client id a claim names, when it names one. */
  function ClientOf(claim: Json): Option<Json>
  {
    Get(claim, "client")
  }

  /** `getClaim(id)` on a claim list: the first claim of client `id`. */
  function ClaimOf(claims: seq<Json>, id: int): (r: Option<Json>)
    ensures r.None? <==> forall i :: 0 <= i < |claims| ==> ClientOf(claims[i]) != Some(Num(id))
    ensures r.Some? ==> exists i :: 0 <= i < |claims| && claims[i] == r.value
                          && ClientOf(r.value) == Some(Num(id))
                          && forall j :: 0 <= j < i ==> ClientOf(claims[j]) != Some(Num(id))
  {
    var i := Utils.FirstIndexOfKey(claims, ClientOf, Some(Num(id)));
    if i < |claims| then Some(claims[i]) else None
  }

  /** A claim whose client appears once is found whole. */
  lemma ClaimOfUnique(claims: seq<Json>, i: nat)
    requires i < |claims| && ClientOf(claims[i]).Some? && ClientOf(claims[i]).value.Num?
    requires forall j :: 0 <= j < |claims| && j != i ==> ClientOf(claims[j]) != ClientOf(claims[i])
    ensures ClaimOf(claims, ClientOf(claims[i]).value.n) == Some(claims[i])
  {
    var id := ClientOf(claims[i]).value.n;
    var r := ClaimOf(claims, id);
    var k :| 0 <= k < |claims| && claims[k] == r.value && ClientOf(r.value) == Some(Num(id))
             && forall j :: 0 <= j < k ==> ClientOf(claims[j]) != Some(Num(id));
    assert k == i;
  }

  /** The client a release targets: the given one, else the manual source. */
  function ReleaseTarget(client: Option<nat>): (id: nat)
    ensures client.None? ==> id == Registry.Manual.id
    ensures client.Some? ==> id == client.value
  {
    match client
    case Some(c) => c
    case None => Registry.Manual.id
  }

  /** The manual source's claim lives at "/claims/65537". */
  lemma ManualReleasePath()
    ensures ItemPath("/claims", Registry.Manual.id) == "/claims/65537"
  {
    assert Text.NatToString(6) == "6";
    assert Text.NatToString(65) == "65";
    assert Text.NatToString(655) == "655";
    assert Text.NatToString(6553) == "6553";
    assert Text.NatToString(65537) == "65537";
  }

  class ClaimsStore {
    /** The held claims; an unset store (`undefined`) holds none. */
    var claims: seq<Json>

    constructor ()
      ensures claims == []
    {
      claims := [];
    }

    method Set(value: seq<Json>)
      modifies this
      ensures claims == value
    {
      claims := value;
    }

    /** `download()`: `GET /claims`; on success the list is held as sent. */
    method Download(response: Json) returns (ok: bool, req: Request)
      modifies this
      ensures req == Request(GET, "/claims", None)
      ensures ok <==> !Failed(response) && response.Arr?
      ensures ok ==> claims == response.items
      ensures !ok ==> claims == old(claims)
    {
      req := Request(GET, "/claims", None);
      ok := !Failed(response) && response.Arr?;
      if ok {
        claims := response.items;
      }
    }

    /** `upload(data, client)`: `POST /claims/<client>`. */
    method Upload(data: Json, client: nat, response: Json) returns (ok: bool, req: Request)
      ensures req == Request(POST, ItemPath("/claims", client), Some(data))
      ensures ok <==> !Failed(response)
    {
      req := Request(POST, ItemPath("/claims", client), Some(data));
      ok := !Failed(response);
    }

    /** `release(client)`: `DELETE /claims/<client>`, the manual source
        (65537) when no client is given. */
    method Release(client: Option<nat>, response: Json) returns (ok: bool, req: Request)
      ensures req == Request(DELETE, ItemPath("/claims", ReleaseTarget(client)), None)
      ensures client.None? ==> req.path == "/claims/65537"
      ensures ok <==> !Failed(response)
    {
      req := Request(DELETE, ItemPath("/claims", ReleaseTarget(client)), None);
      ok := !Failed(response);
      if client.None? {
        ManualReleasePath();
      }
    }

    /** `getClaim(client)`: the held claim of that client. */
    function GetClaim(client: int): (r: Option<Json>)
      reads this
      ensures r.Some? ==> r.value in claims && ClientOf(r.value) == Some(Num(client))
      ensures r.None? <==> forall i :: 0 <= i < |claims| ==> ClientOf(claims[i]) != Some(Num(client))
    {
      ClaimOf(claims, client)
    }
  }
}
