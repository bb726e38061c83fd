/** The control-source registry (`EvseClients`): the fixed table of the
    sources that may claim the charger, each with a numeric client id and a
    priority weight. */
module Registry {
  import opened Wrappers

  datatype Client = Client(name: string, id: nat, priority: nat)

  const Manual := Client("manual", 65537, 1000)
  const Divert := Client("divert", 65538, 50)
  const Boost := Client("boost", 65539, 200)
  const Timer := Client("timer", 65540, 100)
  const Limit := Client("limit", 65542, 1100)
  const Error := Client("error", 65543, 10000)
  const Ohm := Client("ohm", 65544, 500)
  const Ocpp := Client("ocpp", 65545, 1050)
  const Rfid := Client("rfid", 65546, 1030)
  const Mqtt := Client("mqtt", 65547, 500)
  const Shaper := Client("shaper", 65548, 5000)

  /** The table in declaration order. */
  const Clients: seq<Client> := [Manual, Divert, Boost, Timer, Limit, Error, Ohm, Ocpp, Rfid, Mqtt, Shaper]

  function Names(table: seq<Client>): (names: seq<string>)
    ensures |names| == |table|
    ensures forall i :: 0 <= i < |table| ==> names[i] == table[i].name
  {
    if table == [] then [] else [table[0].name] + Names(table[1..])
  }

  predicate DistinctIds(table: seq<Client>)
  {
    forall i, j :: 0 <= i < j < |table| ==> table[i].id != table[j].id
  }

  /** Eleven sources, in the order the registry declares them. */
  lemma RegistryShape()
    ensures |Clients| == 11
    ensures Names(Clients) == ["manual", "divert", "boost", "timer", "limit",
                               "error", "ohm", "ocpp", "rfid", "mqtt", "shaper"]
  {
  }

  /** No two sources share a client id, although two may share a priority. */
  lemma RegistryIdsDistinct()
    ensures DistinctIds(Clients)
    ensures Ohm.priority == Mqtt.priority && Ohm.id != Mqtt.id
  {
  }

  /** The first source in `table` with client id `id`. */
  function LookupById(table: seq<Client>, id: int): (r: Option<Client>)
    ensures r.Some? ==> r.value in table && r.value.id == id
    ensures r.None? <==> forall i :: 0 <= i < |table| ==> table[i].id != id
  {
    if table == [] then None
    else if table[0].id == id then Some(table[0])
    else LookupById(table[1..], id)
  }

  /** With distinct ids, looking up a source's id finds that very source. */
  lemma {:induction false} LookupRegistered(table: seq<Client>, i: nat)
    requires DistinctIds(table) && i < |table|
    ensures LookupById(table, table[i].id) == Some(table[i])
  {
    if i > 0 {
      assert table[0].id != table[i].id;
      LookupRegistered(table[1..], i - 1);
    }
  }

  /** The highest priority in a non-empty table. */
  function MaxPriority(table: seq<Client>): (m: nat)
    requires table != []
    ensures forall i :: 0 <= i < |table| ==> table[i].priority <= m
    ensures exists i :: 0 <= i < |table| && table[i].priority == m
  {
    if |table| == 1 then table[0].priority
    else
      var rest := MaxPriority(table[1..]);
      if table[0].priority >= rest then table[0].priority else rest
  }

  /** The lowest priority in a non-empty table. */
  function MinPriority(table: seq<Client>): (m: nat)
    requires table != []
    ensures forall i :: 0 <= i < |table| ==> m <= table[i].priority
    ensures exists i :: 0 <= i < |table| && table[i].priority == m
  {
    if |table| == 1 then table[0].priority
    else
      var rest := MinPriority(table[1..]);
      if table[0].priority <= rest then table[0].priority else rest
  }

  /** A priority that bounds the whole table is its maximum. */
  lemma MaxPriorityIs(table: seq<Client>, k: nat)
    requires k < |table|
    requires forall i :: 0 <= i < |table| ==> table[i].priority <= table[k].priority
    ensures MaxPriority(table) == table[k].priority
  {
  }

  /** A priority that bounds the whole table from below is its minimum. */
  lemma MinPriorityIs(table: seq<Client>, k: nat)
    requires k < |table|
    requires forall i :: 0 <= i < |table| ==> table[k].priority <= table[i].priority
    ensures MinPriority(table) == table[k].priority
  {
  }

  /** The error source outranks every other source. */
  lemma ErrorHasHighestPriority()
    ensures MaxPriority(Clients) == Error.priority
    ensures forall i :: 0 <= i < |Clients| && Clients[i] != Error ==> Clients[i].priority < Error.priority
  {
    assert Clients[5] == Error;
    MaxPriorityIs(Clients, 5);
  }

  /** The divert (solar-following) source ranks below every other source. */
  lemma DivertHasLowestPriority()
    ensures MinPriority(Clients) == Divert.priority
    ensures forall i :: 0 <= i < |Clients| && Clients[i] != Divert ==> Divert.priority < Clients[i].priority
  {
    assert Clients[1] == Divert;
    MinPriorityIs(Clients, 1);
  }
}
