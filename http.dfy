/** The boundary to the device API. A store call issues one `Request` and
    receives one decoded response; the transport itself (`httpAPI`) is not
    modelled, so every store operation takes the response as an input. */
module Http {
  import opened Wrappers
  import opened Json
  import opened Text

  datatype Verb = GET | POST | PATCH | DELETE

  /** One API call. `body` is the value the store serialises with
      `JSON.stringify`; the serialisation itself is not modelled. */
  datatype Request = Request(verb: Verb, path: string, body: Option<Json>)

  /** The response is an object whose `msg` is `text`. */
  predicate HasMessage(response: Json, text: string)
  {
    Get(response, "msg") == Some(Str(text))
  }

  /** The classifier every store applies: a call failed when the response is
      missing (`null`/`undefined`), the bare string "error", or an object whose
      `msg` is "error". Every other response is a success. */
  predicate Failed(response: Json)
  {
    response == Null || response == Str("error") || HasMessage(response, "error")
  }

  /** The message-only responses the device sends on success. */
  const SuccessMessages: set<string> := {"done", "no change", "Updated", "no limit", "No manual override"}

  function MessageResponse(text: string): Json
  {
    Obj([Member("msg", Str(text))])
  }

  /** A message-only response fails exactly when its message is "error", so
      every success message the device sends is a success. */
  lemma MessageOutcome(text: string)
    ensures Failed(MessageResponse(text)) <==> text == "error"
    ensures text in SuccessMessages ==> !Failed(MessageResponse(text))
  {
  }

  /** A list payload is never a failure, nor is an object without `msg`. */
  lemma PayloadSucceeds(response: Json)
    requires response.Arr? || (response.Obj? && "msg" !in Keys(response.members))
    ensures !Failed(response)
  {
  }

  /** The path of one item of a collection: `base + "/" + id`. */
  function ItemPath(base: string, id: nat): string
  {
    base + "/" + NatToString(id)
  }

  /** An item path starts with the collection path and its last segment reads
      back as the id, so distinct ids address distinct items. */
  lemma ItemPathAddresses(base: string, id: nat)
    ensures StartsWith(ItemPath(base, id), base + "/")
    ensures var tail := ItemPath(base, id)[|base| + 1..];
            AllDigits(tail) && DigitsValue(tail) == id
  {
    var p := ItemPath(base, id);
    assert p[|base| + 1..] == NatToString(id);
    assert p[..|base| + 1] == base + "/";
    NatToStringRoundTrip(id);
  }

  lemma ItemPathInjective(base: string, a: nat, b: nat)
    requires ItemPath(base, a) == ItemPath(base, b)
    ensures a == b
  {
    ItemPathAddresses(base, a);
    ItemPathAddresses(base, b);
  }
}
