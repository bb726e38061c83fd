# OpenEVSE web UI core, in Dafny

This is a model of the logic core of the OpenEVSE charger's web interface. It covers four parts:

- **Utility functions:**
  - clock formatting (`sec2time`, `s2mns`);
  - firmware version comparison (`compareVersion`);
  - order-preserving de-duplication (`dedup`, `removeDuplicateObjects`);
  - naming a control source from its client id (`clientid2name`);
  - the layout breakpoint (`getBreakpoint`);
  - timezone strings (`getTZ`, `createTzObj`);
  - the password-marker and required-field rules of `validateFormData`.
- **The control-source registry** (`EvseClients`): eleven sources, each with a client id and a priority.
- **The pausable serial queue** (`serialQueue`). While paused it refuses new tasks; otherwise it runs each task and hands back its result.
- **The stores** for history, schedule, config, limit, claims and override. Each store holds one value, issues one API request per operation, and changes its value according to the response.

Module by module:

| module | file | models |
|---|---|---|
| `Text` | text.dfy | Decimal numerals, zero padding, prefixes and suffixes, and one-character splitting. Also the lexicographic order on strings, which is what JavaScript's `<` gives on the ASCII timestamps compared here. |
| `Json` | json.dfy | Decoded JSON values. An object is a list of members in a fixed order. `Null` stands for both `null` and `undefined`. |
| `Http` | http.dfy | The request a store issues. The response classifier. Item paths. |
| `Registry` | registry.dfy | The `EvseClients` table. |
| `Utils` | utils.dfy | The utility functions. |
| `Queue` | queue.dfy | `serialQueue` as a class with an `isPaused` field. |
| `History`, `Schedule`, `Config`, `Limit`, `Claims`, `Override` | one file each | One store each. Every store is a class whose field is the held value. |

The transport is not modelled. Every store method takes the decoded response as an input and returns two things:

- `ok`, whether the store reports success;
- the `Request` it issues: verb, path and body.

A response counts as a failure when it is missing (`null`/`undefined`), the string `"error"`, or an object whose `msg` is `"error"`. Every other response is a success (`Http.Failed`). This includes the messages `"done"`, `"no change"`, `"Updated"`, `"no limit"` and `"No manual override"`.

Three choices the visible behaviour leaves open:

- The list stores (history, schedule, claims) treat a successful response that is not a list as a failure.
- On failure, every store keeps the value it held.
- A store that is unset (`undefined`) is modelled in one of two ways:
  - the list stores hold the empty list;
  - config and override hold `Null`.

## Model

| member | source | states |
|---|---|---|
| Utils.Sec2TimeRoundTrip | src/lib/__tests__/utils.test.js:104-136 | The clock for `n` seconds, as hours, minutes and seconds, reads back as exactly `n` seconds. |
| Utils.Sec2TimeWidth | src/lib/__tests__/utils.test.js:104-136 | The clock has eight characters below 100 hours and never fewer. |
| Utils.Sec2TimeExamples | src/lib/__tests__/utils.test.js:104-136 | 125 s shows "00:02:05", 3661 s shows "01:01:01" and 36000 s shows "10:00:00". A missing input shows "00:00:00", the same as 0. |
| Utils.S2mnsAgreesWithSec2Time | src/lib/__tests__/utils.test.js:307-317 | `s2mns` and `sec2time` give the same clock for every number of seconds. |
| Utils.CompareVersion | src/lib/__tests__/utils.test.js:262-292 | The result is -1, 0 or 1. It is 0 when either argument is not a string. It is 0 when `old` lacks the "v" prefix. |
| Utils.CompareVersionOrder | src/lib/__tests__/utils.test.js:262-277 | For "v" versions: swapping the arguments negates the result. 0 means the same numeric components. "Newer" is transitive. |
| Utils.FirstDifferenceDecides | src/lib/__tests__/utils.test.js:262-272 | At the first component where two versions differ, the larger component makes its version newer (1) and the other older (-1). |
| Utils.VersionPartsRoundTrip | src/lib/__tests__/utils.test.js:262-277 | A version written as numerals joined by "." reads back as exactly those components, with or without a leading "v". |
| Utils.CompareVersionStrings | src/lib/__tests__/utils.test.js:262-292 | For written-out versions, with `old` carrying the "v" and `last` with or without one, `compareVersion` is the component order. |
| Utils.VersionNewer110 | src/lib/__tests__/utils.test.js:264 | "1.1.0" against "v1.0.0" gives 1. |
| Utils.VersionNewer200 | src/lib/__tests__/utils.test.js:265 | "2.0.0" against "v1.9.9" gives 1. |
| Utils.VersionNewer101 | src/lib/__tests__/utils.test.js:266 | "v1.0.1" against "v1.0.0" gives 1. |
| Utils.VersionOlder100 | src/lib/__tests__/utils.test.js:270 | "1.0.0" against "v1.1.0" gives -1. |
| Utils.VersionOlderMajor | src/lib/__tests__/utils.test.js:271 | "v1.0.0" against "v2.0.0" gives -1. |
| Utils.VersionEqualV | src/lib/__tests__/utils.test.js:275 | "v1.0.0" against "v1.0.0" gives 0. |
| Utils.VersionEqualBare | src/lib/__tests__/utils.test.js:276 | "1.2.3" against "v1.2.3" gives 0. |
| Utils.VersionLongerNewer | src/lib/__tests__/utils.test.js:290 | "v1.0.0.1" against "v1.0.0" gives 1. |
| Utils.VersionShorterOlder | src/lib/__tests__/utils.test.js:291 | "v1.0" against "v1.0.0" gives -1. |
| Utils.CompareVersionExamples | src/lib/__tests__/utils.test.js:262-292 | All nine tested comparisons of strings give the tested results: 1 for newer, -1 for older, 0 for equal. |
| Utils.CompareVersionIgnoresLeadingV | src/lib/__tests__/utils.test.js:262-277 | A leading "v" on `last` does not change the result. |
| Utils.LongerVersionIsNewer | src/lib/__tests__/utils.test.js:289-292 | When one version's components extend the other's, the longer version is newer and the shorter one older. |
| Utils.KeepFirstByCorrect | src/lib/__tests__/utils.test.js:319-381 | The keep-first filter returns elements with distinct keys. It loses no key of the input. Each kept element is the first of the input with its key, and the kept elements follow the input's order. |
| Utils.DedupCorrect | src/lib/__tests__/utils.test.js:319-344 | `dedup` has no duplicates and holds exactly the input's elements, in order of first occurrence. |
| Utils.DedupOfDistinct | src/lib/__tests__/utils.test.js:333-340 | A list without duplicates, the empty list included, comes back unchanged. |
| Utils.RemoveDuplicateObjectsCorrect | src/lib/__tests__/utils.test.js:346-381 | The kept objects have distinct values of the field, are drawn from the input and keep its order. The first object for each value is kept, so an object with a unique value is never dropped. |
| Utils.ClientIdToNameCorrect | src/lib/__tests__/utils.test.js:383-402 | Each registered id maps to its source's name. An id no source has maps to "null". |
| Utils.BreakpointMonotone | src/lib/__tests__/utils.test.js:473-513 | A wider window never gets a smaller layout. |
| Utils.BreakpointExamples | src/lib/__tests__/utils.test.js:473-513 | Widths 400 and 410 give "mobilemini", 411 and 500 "mobile", 641 and 1000 "tablet", 1281 and 1440 "desktop". |
| Utils.GetTZ | src/lib/__tests__/utils.test.js:422-437 | A missing setting (`null` or `undefined`) or an empty one gives "UTC". Any other setting gives a prefix of itself without "\|". |
| Utils.GetTZCorrect | src/lib/__tests__/utils.test.js:422-437 | A non-empty setting gives its text before the first "\|", or the whole text when it has no "\|". |
| Utils.CreateTzObjAppend | src/lib/__tests__/utils.test.js:439-471 | The entries for two zone lists in sequence are the entries for the first followed by those for the second, so the output keeps the input order. |
| Utils.CreateTzObjSingle | src/lib/__tests__/utils.test.js:439-471 | One "Etc/" zone gives no entry. Any other zone gives exactly `{name, value: name + "\|" + abbr}`. |
| Utils.CreateTzObjExample | src/lib/__tests__/utils.test.js:440-456 | The tested table gives two entries, America/New_York then Europe/London, each with its abbreviation. The Etc/GMT zone is dropped. |
| Utils.GetTZOfOption | src/lib/__tests__/utils.test.js:422-471 | Reading an entry's value back with `getTZ` gives the zone's name. |
| Utils.CreateTzObjCorrect | src/lib/__tests__/utils.test.js:439-471 | An entry `{name, value: name + "\|" + abbr}` is offered exactly when the zone is in the input and outside "Etc/". The output is no longer than the input. |
| Utils.SubmittedValuesCorrect | src/lib/__tests__/utils.test.js:515-552 | A key/value pair is submitted exactly when a field with that key holds that value and is not a password still showing the marker. |
| Utils.ValidateFormDataPasses | src/lib/__tests__/utils.test.js:515-552 | A form passes when required fields are not checked, or when every required field holds a value. |
| Utils.BlankRequiredFails | src/lib/__tests__/utils.test.js:554-561 | Emptying any required field makes a checked form fail. The empty value is still submitted under its key. |
| Utils.ValidateFormDataExamples | src/lib/__tests__/utils.test.js:515-561 | The tested forms: "field1" submits "test"; a password showing the marker is left out; "realpassword" is submitted; an empty required username fails. |
| Utils.ValidateFormDataPassword | src/lib/__tests__/utils.test.js:536-552 | For the one password field under a key, its value is submitted exactly when it is not the marker. |
| Registry.RegistryShape | src/lib/__tests__/vars.test.js:5-11 | There are eleven sources, named in the registry's order. |
| Registry.RegistryIdsDistinct | src/lib/__tests__/vars.test.js:13-45 | The client ids are pairwise distinct. Priorities may tie: ohm and mqtt. |
| Registry.LookupById | src/lib/__tests__/vars.test.js:19-31 | The lookup finds a source with that id, and finds none only when no source has it. |
| Registry.LookupRegistered | src/lib/__tests__/vars.test.js:13-31 | With distinct ids, looking up a source's id finds that very source. |
| Registry.MaxPriority | src/lib/__tests__/vars.test.js:47-50 | The result bounds every priority in the table and is attained. |
| Registry.MinPriority | src/lib/__tests__/vars.test.js:52-55 | The result is below or equal to every priority in the table and is attained. |
| Registry.ErrorHasHighestPriority | src/lib/__tests__/vars.test.js:47-50 | The error source has the maximum priority, strictly above every other source. |
| Registry.DivertHasLowestPriority | src/lib/__tests__/vars.test.js:52-55 | The divert source has the minimum priority, strictly below every other source. |
| Http.MessageOutcome | src/lib/stores/__tests__/config.test.js:59-78 | A message-only response fails exactly when its message is "error". Every success message is a success. |
| Http.PayloadSucceeds | src/lib/stores/__tests__/claims.test.js:33-46 | A list payload, or an object without `msg`, is never a failure. |
| Http.ItemPathAddresses | src/lib/stores/__tests__/history.test.js:39-41 | An item path starts with the collection path and "/", and its last segment reads back as the id. |
| Http.ItemPathInjective | src/lib/stores/__tests__/schedule.test.js:66-71 | Distinct ids give distinct item paths. |
| Queue.SerialQueue.constructor | src/lib/__tests__/queue.test.js:67-70 | A fresh queue is not paused and has run nothing. |
| Queue.SerialQueue.Pause | src/lib/__tests__/queue.test.js:72-76 | Afterwards the queue is paused. No task runs. |
| Queue.SerialQueue.Resume | src/lib/__tests__/queue.test.js:78-84 | Afterwards the queue is not paused. No task runs. |
| Queue.SerialQueue.Add | src/lib/__tests__/queue.test.js:34-49 | When paused: refuses (`false`) without running the task. Otherwise: runs the task once and returns its result. The pause flag is never changed. |
| Queue.RunWhenFresh | src/lib/__tests__/queue.test.js:34-40 | A task added to a fresh queue runs and its result is returned. |
| Queue.PauseThenResume | src/lib/__tests__/queue.test.js:51-65 | Pause, add, resume, add: the first add is refused, the second returns its task's result, and exactly one task has run. |
| History.SortNewestFirstCorrect | src/lib/stores/__tests__/history.test.js:64-68 | The sort yields a permutation of its input, ordered newest `time` first. |
| History.MergeLogsCorrect | src/lib/stores/__tests__/history.test.js:47-68 | The merged list is newest first and has no duplicates. It holds exactly the entries that were held or downloaded. |
| History.MergeIntoEmpty | src/lib/stores/__tests__/history.test.js:32-45 | Into an empty store, a page without duplicates arrives whole. |
| History.MergeAgainKeeps | src/lib/stores/__tests__/history.test.js:47-65 | Downloading a page again leaves the same entries. |
| History.MergeRepeatedPage | src/lib/stores/__tests__/history.test.js:47-68 | Holding an older entry and receiving a newer one plus the older again leaves [newer, older]. |
| History.TimestampOrder | src/lib/stores/__tests__/history.test.js:66-68 | "2024-01-01T08:00:00Z" sorts before "2024-01-02T10:00:00Z". |
| History.HistoryStore.constructor | src/lib/stores/__tests__/history.test.js:20-23 | An unset store holds no entries. |
| History.HistoryStore.Set | src/lib/stores/__tests__/history.test.js:47-53 | The store holds the given entries. |
| History.HistoryStore.Download | src/lib/stores/__tests__/history.test.js:32-81 | Issues `GET /logs/<index>`. Succeeds exactly on a list response, which is merged into the held entries. On failure the entries are kept. |
| Schedule.TrimTime | src/lib/stores/__tests__/schedule.test.js:29-44 | "HH:MM:SS" becomes its "HH:MM" prefix. Any other text is kept. |
| Schedule.TrimEventFields | src/lib/stores/__tests__/schedule.test.js:29-44 | An "HH:MM:SS" `time` becomes its first five characters. Every other field and the field count are unchanged. |
| Schedule.TrimEventIdempotent | src/lib/stores/__tests__/schedule.test.js:29-44 | Trimming an event twice is trimming it once. |
| Schedule.TrimAll | src/lib/stores/__tests__/schedule.test.js:29-44 | The list keeps its length and order, and each event is trimmed. |
| Schedule.TrimAllIdempotent | src/lib/stores/__tests__/schedule.test.js:29-44 | Trimming a list twice is trimming it once. |
| Schedule.ScheduleStore.constructor | src/lib/stores/__tests__/schedule.test.js:24-27 | A fresh store holds the empty list. |
| Schedule.ScheduleStore.Set | src/lib/stores/__tests__/schedule.test.js:24-27 | The store holds the given list. |
| Schedule.ScheduleStore.Download | src/lib/stores/__tests__/schedule.test.js:29-50 | Issues `GET /schedule`. Succeeds exactly on a list response, held with times trimmed. On failure the list is kept. |
| Schedule.ScheduleStore.Upload | src/lib/stores/__tests__/schedule.test.js:52-64 | Issues `POST /schedule` with the event as body. Succeeds exactly when the response is not a failure. |
| Schedule.ScheduleStore.Remove | src/lib/stores/__tests__/schedule.test.js:66-77 | Issues `DELETE /schedule/<id>`. Succeeds exactly when the response is not a failure. |
| Config.MaxCurrentFirmware | src/lib/stores/__tests__/config.test.js:80-108 | 32 for European firmware (".EU" or ".T2"), 80 otherwise. |
| Config.FirmwareExamples | src/lib/stores/__tests__/config.test.js:80-108 | "v5.1.0.EU" and "v5.1.0.T2" are European at 32 A. "v5.1.0" is not, at 80 A. |
| Config.WithDerived | src/lib/stores/__tests__/config.test.js:110-123 | The derived fields agree with the firmware. Every other field is unchanged. A non-object is kept as it is. |
| Config.WithDerivedIdempotent | src/lib/stores/__tests__/config.test.js:110-123 | Deriving twice is deriving once. |
| Config.SaveParamEffect | src/lib/stores/__tests__/config.test.js:125-135 | After saving `key: value`, the key holds the value, every other stored field is kept, and the derived fields stay consistent. |
| Config.ConfigStore.constructor | src/lib/stores/__tests__/config.test.js:13-16 | An unset store holds `Null` and is consistent. |
| Config.ConfigStore.Set | src/lib/stores/__tests__/config.test.js:110-115 | The store holds the value with its derived fields, and stays consistent. |
| Config.ConfigStore.Update | src/lib/stores/__tests__/config.test.js:117-123 | The store holds the function of the old value, with its derived fields. |
| Config.ConfigStore.Download | src/lib/stores/__tests__/config.test.js:34-57 | Issues `GET /config`. On success the response is held with its derived fields. On failure the config is kept. |
| Config.ConfigStore.Upload | src/lib/stores/__tests__/config.test.js:59-78 | Issues `POST /config` with the data as body. "done" and "no change" succeed; "error" fails. |
| Config.ConfigStore.SaveParam | src/lib/stores/__tests__/config.test.js:125-143 | Posts `{key: value}` alone. On success the key is written into the held config. On failure the config is kept. |
| Limit.DefaultLimitFields | src/lib/stores/__tests__/limit.test.js:25-30 | The default record has type "none", value 0 and auto_release true. |
| Limit.Downloaded | src/lib/stores/__tests__/limit.test.js:32-53 | "no limit" gives the default record. Any other response is held as sent. |
| Limit.NoLimitResets | src/lib/stores/__tests__/limit.test.js:45-53 | "no limit" is a success and leaves the default record. |
| Limit.LimitStore.constructor | src/lib/stores/__tests__/limit.test.js:25-30 | A fresh store holds the default record. |
| Limit.LimitStore.Set | src/lib/stores/__tests__/limit.test.js:91-93 | The store holds the given record. |
| Limit.LimitStore.Download | src/lib/stores/__tests__/limit.test.js:32-59 | Issues `GET /limit`. On success holds the downloaded record. On failure keeps the record. |
| Limit.LimitStore.Upload | src/lib/stores/__tests__/limit.test.js:61-73 | Issues `POST /limit` with the record as body. Succeeds exactly when the response is not a failure. |
| Limit.LimitStore.Remove | src/lib/stores/__tests__/limit.test.js:75-89 | Issues `DELETE /limit`. On success the default record is held. On failure the record is kept. |
| Limit.LimitStore.Reset | src/lib/stores/__tests__/limit.test.js:91-100 | Returns true and holds the default record, whatever was held. |
| Claims.ClaimOf | src/lib/stores/__tests__/claims.test.js:82-91 | Finds the first claim whose `client` is the id, or none exactly when no claim has it. |
| Claims.ClaimOfUnique | src/lib/stores/__tests__/claims.test.js:82-91 | A claim whose client appears once is found whole. |
| Claims.ReleaseTarget | src/lib/stores/__tests__/claims.test.js:68-80 | The given client, else the manual source. |
| Claims.ManualReleasePath | src/lib/stores/__tests__/claims.test.js:68-73 | The manual source's claim path is "/claims/65537". |
| Claims.ClaimsStore.constructor | src/lib/stores/__tests__/claims.test.js:19-22 | An unset store holds no claims. |
| Claims.ClaimsStore.Set | src/lib/stores/__tests__/claims.test.js:82-88 | The store holds the given claims. |
| Claims.ClaimsStore.Download | src/lib/stores/__tests__/claims.test.js:33-52 | Issues `GET /claims`. Succeeds exactly on a list response, held as sent. On failure the list is kept. |
| Claims.ClaimsStore.Upload | src/lib/stores/__tests__/claims.test.js:54-66 | Issues `POST /claims/<client>` with the data as body. Succeeds exactly when the response is not a failure. |
| Claims.ClaimsStore.Release | src/lib/stores/__tests__/claims.test.js:68-80 | Issues `DELETE /claims/<client>`, which is "/claims/65537" without a client. Succeeds exactly when the response is not a failure. |
| Claims.ClaimsStore.GetClaim | src/lib/stores/__tests__/claims.test.js:82-91 | Returns a held claim of that client, or none exactly when no held claim names it. |
| Override.Downloaded | src/lib/stores/__tests__/override.test.js:34-54 | "No manual override" gives `{}`. Any other response is held as sent. |
| Override.NoOverrideEmpties | src/lib/stores/__tests__/override.test.js:46-54 | "No manual override" is a success and leaves an object with no fields. |
| Override.OverrideStore.constructor | src/lib/stores/__tests__/override.test.js:20-23 | An unset store holds `Null`. |
| Override.OverrideStore.Set | src/lib/stores/__tests__/override.test.js:20-23 | The store holds the given value. |
| Override.OverrideStore.Download | src/lib/stores/__tests__/override.test.js:34-60 | Issues `GET /override`. On success holds the downloaded override. On failure keeps it. |
| Override.OverrideStore.Upload | src/lib/stores/__tests__/override.test.js:62-71 | Issues `POST /override` with the data as body. On success the uploaded override is held. |
| Override.OverrideStore.Toggle | src/lib/stores/__tests__/override.test.js:73-84 | Issues `PATCH /override` without a body. "Updated" succeeds and "error" fails. |

## Left out

- The implementations of `utils.js`, `vars.js`, `queue.js` and `stores/*.js` are not part of this model. It follows the behaviour their tests assert.
- Undetermined choices:
  - The breakpoint boundaries at 640/641 and 1280/1281, and the `compareVersion` reading of a non-numeric component as 0, are the simplest rules consistent with the asserted points. Other boundaries would agree with them too.
  - The history merge order (held entries, then the page) is another such choice.
  - `sec2time` at 100 hours or more: the hours field grows past two digits. The largest tested input is 36000 s.
  - `TrimTime` keeps a `time` that is not of the form "HH:MM:SS" as it is. The tests only use "HH:MM:SS" times.
  - Where the tests do not say whether a store keeps its value on a failed call, or updates it after `upload`/`remove` on schedule, claims, limit and config, the model keeps the value.
  - `override_store.upload` on success replaces the held override with the uploaded data. The test starts from an unset store, so it cannot tell a replacement from a merge into the held object.
- Transport and timing: the `httpAPI` transport, promises and async ordering, Svelte subscriptions and listeners, and `JSON.stringify` of request bodies. Bodies are kept as values, not text.
- Floating-point helpers, which take JavaScript numbers: `round`, `temp_round`, `miles2km`, `isFloat`, `isInteger`. Numbers in `Json` are integers only.
- `JSONTryParse`, a wrapper over the built-in JSON parser.
- UI lookups: `type2icon`, and the translation and alert side effects of `validateFormData`.
- `claims_store.removeClaimProp`, `override_store.clear` and `override_store.removeProp`: the tests only check that they exist.
- Surrounding context with no rule beyond field assignment or a plain call: the portal relocation, the UI-state, status and certificate stores, and the test configuration.
- Json.Json: JavaScript lists integer-like object keys first, in ascending order, and `JSON.stringify` drops members whose value is `undefined`. The model keeps members in the order given and does not tell `undefined` from `null`.
- Text.Less: JavaScript compares strings by UTF-16 code unit, the model by character. The two orders differ only on text beyond the Basic Multilingual Plane, which the compared timestamps never contain.
- Utils.Sec2Time: negative seconds are not modelled; the input is a `nat`.
- History.SortNewestFirst: the order among entries with the same `time` is not stated, only that the result is newest first and a permutation.
- Queue.SerialQueue.Add: a task runs to completion inside the call. The batching queue's serial ordering of pending promises is not modelled.
