/** The device configuration store (`config_store`). Every value it holds
    carries two fields derived from the `firmware` string: `firmware_is_eu`
    (European builds end in ".EU" or ".T2") and `max_current_firmware`
    (32 A for European builds, 80 A otherwise). They are recomputed whenever
    the held value changes. */
module Config {
  import opened Wrappers
  import opened Text
  import opened Json
  import opened Http

  const EuKey := "firmware_is_eu"
  const MaxCurrentKey := "max_current_firmware"

  /** The `firmware` string of a config; "" when there is none. */
  function FirmwareOf(config: Json): string
  {
    match Get(config, "firmware")
    case Some(Str(f)) => f
    case _ => ""
  }

  predicate IsEuFirmware(firmware: string)
  {
    EndsWith(firmware, ".EU") || EndsWith(firmware, ".T2")
  }

  function MaxCurrentFirmware(firmware: string): (amps: int)
    ensures amps == 32 || amps == 80
    ensures amps == 32 <==> IsEuFirmware(firmware)
  {
    if IsEuFirmware(firmware) then 32 else 80
  }

  /** The derived fields agree with the firmware. */
  predicate Consistent(config: Json)
  {
    config.Obj? ==>
      && Get(config, EuKey) == Some(Bool(IsEuFirmware(FirmwareOf(config))))
      && Get(config, MaxCurrentKey) == Some(Num(MaxCurrentFirmware(FirmwareOf(config))))
  }

  /** A config with its derived fields (re)computed; a value that is not an
      object (an unset store) is kept as it is. */
  function WithDerived(config: Json): (r: Json)
    ensures Consistent(r)
    ensures config.Obj? <==> r.Obj?
    ensures !config.Obj? ==> r == config
    ensures FirmwareOf(r) == FirmwareOf(config)
    ensures forall k :: k != EuKey && k != MaxCurrentKey ==> Get(r, k) == Get(config, k)
  {
    if config.Obj? then
      var firmware := FirmwareOf(config);
      Put(Put(config, EuKey, Bool(IsEuFirmware(firmware))), MaxCurrentKey, Num(MaxCurrentFirmware(firmware)))
    else config
  }

  /** Recomputing consistent fields changes nothing, so deriving twice is
      deriving once. */
  lemma WithDerivedIdempotent(config: Json)
    ensures WithDerived(WithDerived(config)) == WithDerived(config)
  {
    var c := WithDerived(config);
    if c.Obj? {
      var firmware := FirmwareOf(c);
      PutUnchanged(c, EuKey, Bool(IsEuFirmware(firmware)));
      PutUnchanged(c, MaxCurrentKey, Num(MaxCurrentFirmware(firmware)));
    }
  }

  /** The three firmware builds the device ships. */
  lemma FirmwareExamples()
    ensures IsEuFirmware("v5.1.0.EU") && MaxCurrentFirmware("v5.1.0.EU") == 32
    ensures IsEuFirmware("v5.1.0.T2") && MaxCurrentFirmware("v5.1.0.T2") == 32
    ensures !IsEuFirmware("v5.1.0") && MaxCurrentFirmware("v5.1.0") == 80
  {
    assert "v5.1.0.EU"[6..] == ".EU";
    assert "v5.1.0.T2"[6..] == ".T2";
    assert "v5.1.0"[3..] != ".EU" && "v5.1.0"[3..] != ".T2" by {
      assert "v5.1.0"[3..][0] == '1';
    }
  }

  /** The held config after saving `key: value`. */
  function SaveParamResult(config: Json, key: string, value: Json): Json
  {
    WithDerived(Put(config, key, value))
  }

  /** Saving a parameter sets it, keeps every other stored field, and keeps
      the derived fields consistent. */
  lemma SaveParamEffect(config: Json, key: string, value: Json)
    requires key != EuKey && key != MaxCurrentKey
    ensures Get(SaveParamResult(config, key, value), key) == Some(value)
    ensures forall k :: k != key && k != EuKey && k != MaxCurrentKey ==>
              Get(SaveParamResult(config, key, value), k) == Get(config, k)
    ensures Consistent(SaveParamResult(config, key, value))
  {
  }

  class ConfigStore {
    var config: Json

    predicate Valid()
      reads this
    {
      Consistent(config)
    }

    constructor ()
      ensures Valid() && config == Null
    {
      config := Null;
    }

    /** `set(value)`: stores the value with its derived fields. */
    method Set(value: Json)
      modifies this
      ensures Valid() && config == WithDerived(value)
    {
      config := WithDerived(value);
    }

    /** `update(fn)`: stores `fn` of the held value, with derived fields. */
    method Update(f: Json -> Json)
      modifies this
      ensures Valid() && config == WithDerived(f(old(config)))
    {
      config := WithDerived(f(config));
    }

    /** `download()`: `GET /config`; on success the response is held. */
    method Download(response: Json) returns (ok: bool, req: Request)
      requires Valid()
      modifies this
      ensures Valid()
      ensures req == Request(GET, "/config", None)
      ensures ok <==> !Failed(response)
      ensures ok ==> config == WithDerived(response)
      ensures !ok ==> config == old(config)
    {
      req := Request(GET, "/config", None);
      ok := !Failed(response);
      if ok {
        config := WithDerived(response);
      }
    }

    /** `upload(data)`: `POST /config`; "no change" is a success too. The
        held value is not touched. */
    method Upload(data: Json, response: Json) returns (ok: bool, req: Request)
      ensures req == Request(POST, "/config", Some(data))
      ensures ok <==> !Failed(response)
    {
      req := Request(POST, "/config", Some(data));
      ok := !Failed(response);
    }

    /** `saveParam(key, value)`: posts `{key: value}` alone and, on success,
        writes it into the held config. */
    method SaveParam(key: string, value: Json, response: Json) returns (ok: bool, req: Request)
      requires Valid()
      modifies this
      ensures Valid()
      ensures req == Request(POST, "/config", Some(Obj([Member(key, value)])))
      ensures ok <==> !Failed(response)
      ensures ok ==> config == SaveParamResult(old(config), key, value)
      ensures !ok ==> config == old(config)
    {
      req := Request(POST, "/config", Some(Obj([Member(key, value)])));
      ok := !Failed(response);
      if ok {
        config := SaveParamResult(config, key, value);
      }
    }
  }
}
