/** The timer schedule store (`schedule_store`). The device reports event
    times as "HH:MM:SS"; the store keeps them as "HH:MM", the form the time
    inputs edit. */
module Schedule {
  import opened Wrappers
  import opened Json
  import opened Http

  /** A device clock "HH:MM:SS". */
  predicate IsClock(t: string)
  {
    |t| == 8 && t[2] == ':' && t[5] == ':'
  }

  /** Drops the seconds of a device clock; any other text is kept. */
  function TrimTime(t: string): (r: string)
    ensures IsClock(t) ==> r == t[..5] && |r| == 5 && r[2] == ':'
    ensures !IsClock(t) ==> r == t
  {
    if IsClock(t) then t[..5] else t
  }

  /** One event with its `time` trimmed; events without a string `time` are
      kept as they are. */
  function TrimEvent(e: Json): Json
  {
    match Get(e, "time")
    case Some(Str(t)) => if IsClock(t) then Put(e, "time", Str(TrimTime(t))) else e
    case _ => e
  }

  /** Trimming rewrites `time` and nothing else: every other field, and the
      member order, stay as they were. */
  lemma TrimEventFields(e: Json)
    ensures forall k :: k != "time" ==> Get(TrimEvent(e), k) == Get(e, k)
    ensures Get(e, "time").Some? && Get(e, "time").value.Str? && IsClock(Get(e, "time").value.s) ==>
              Get(TrimEvent(e), "time") == Some(Str(Get(e, "time").value.s[..5]))
    ensures e.Obj? ==> TrimEvent(e).Obj? && |TrimEvent(e).members| == |e.members|
  {
    if e.Obj? {
      match Get(e, "time")
      case Some(Str(t)) =>
        if IsClock(t) {
          assert "time" in Keys(e.members);
        }
      case _ =>
    }
  }

  /** Trimming twice is trimming once. */
  lemma TrimEventIdempotent(e: Json)
    ensures TrimEvent(TrimEvent(e)) == TrimEvent(e)
  {
    match Get(e, "time")
    case Some(Str(t)) =>
      if IsClock(t) {
        assert !IsClock(TrimTime(t));
      }
    case _ =>
  }

  function TrimAll(events: seq<Json>): (r: seq<Json>)
    ensures |r| == |events|
    ensures forall i :: 0 <= i < |events| ==> r[i] == TrimEvent(events[i])
  {
    if events == [] then [] else [TrimEvent(events[0])] + TrimAll(events[1..])
  }

  /** Trimming a whole list keeps its length and order and is idempotent. */
  lemma TrimAllIdempotent(events: seq<Json>)
    ensures TrimAll(TrimAll(events)) == TrimAll(events)
  {
    forall i | 0 <= i < |events| ensures TrimEvent(TrimEvent(events[i])) == TrimEvent(events[i]) {
      TrimEventIdempotent(events[i]);
    }
  }

  class ScheduleStore {
    var events: seq<Json>

    constructor ()
      ensures events == []
    {
      events := [];
    }

    method Set(value: seq<Json>)
      modifies this
      ensures events == value
    {
      events := value;
    }

    /** `download()`: `GET /schedule`; on success the list is held with its
        times trimmed. */
    method Download(response: Json) returns (ok: bool, req: Request)
      modifies this
      ensures req == Request(GET, "/schedule", None)
      ensures ok <==> !Failed(response) && response.Arr?
      ensures ok ==> events == TrimAll(response.items)
      ensures !ok ==> events == old(events)
    {
      req := Request(GET, "/schedule", None);
      ok := !Failed(response) && response.Arr?;
      if ok {
        events := TrimAll(response.items);
      }
    }

    /** `upload(data)`: `POST /schedule` with the event as body. */
    method Upload(data: Json, response: Json) returns (ok: bool, req: Request)
      ensures req == Request(POST, "/schedule", Some(data))
      ensures ok <==> !Failed(response)
    {
      req := Request(POST, "/schedule", Some(data));
      ok := !Failed(response);
    }

    /** `remove(id)`: `DELETE /schedule/<id>`. */
    method Remove(id: nat, response: Json) returns (ok: bool, req: Request)
      ensures req == Request(DELETE, ItemPath("/schedule", id), None)
      ensures ok <==> !Failed(response)
    {
      req := Request(DELETE, ItemPath("/schedule", id), None);
      ok := !Failed(response);
    }
  }
}
