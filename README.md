# VISCA camera library: range limits and polling, in Dafny

This project models two small stateful parts of a C# VISCA camera-control
library and proves properties of them. Both parts come in two builds that
declare the same classes with different behaviour, and each build is its own
module here.

- **The range-limit registry (`ViscaRangeDictionary`).** It maps property
  names to `Limits` entries. Each entry holds low and high bounds, a message,
  and an optional label.
  - A lookup tries the name itself first, then the name with a `"Limits"`
    suffix, and otherwise fails with key-not-found.
  - `getInt` and `getByte` reshape an entry into typed range limits.
  - The `Add` overloads insert or overwrite entries in place.
  - `PropertyRangeDictionary` (the property-dictionary build) rejects byte
    bounds outside [0, 255].
  - `CameraRangeDictionary` (the camera build) truncates them with C#'s
    unchecked `(byte)` cast.
  - `RangeDictionaryVariants` proves where the two builds agree and where
    they part ways.
- **Polling on `ViscaCamera`.** The camera holds a `PollEnabled` flag, a
  `PollTime` that reprograms the poll timer only when it changes, and a
  collection of inquiries that `Poll` hands to the protocol processor.
  - `PropertyDictCamera` keeps an editable poll list. The list starts as a
    copy of the camera's inquiry table and is changed by `PollListNew`,
    `PollListAdd` and `PollListAddRange`.
  - `ListCamera` gathers the non-null inquiries into a fixed list once. As
    the source does, its `Poll` then submits every slot of the inquiry table
    and never reads that list.

Shared modules:

- `ViscaTypes`: C#'s `byte` and `int`, nullable references (`Option`), the
  exceptions as an `Error` datatype, `Result` and `Outcome`.
- `LimitsRegistry`: the `Limits` entry and its `Label`, the lookup rule,
  the entry `Add(name, value)` stores, and the reflection loop.
- `ViscaProtocol`: inquiries as opaque values. The processor is an
  append-only `enqueued` log. `ValuesOf` and `PresentOf` are the multisets
  of a dictionary's values and of its non-null values.

The state-changing operations are class methods with `modifies` frames.
Each method is proved against a pure function of the old state:

- `AddAll` for the additions over a member list;
- `PollAdd` and `PollAddRange` for poll-list edits;
- `ValuesOf` and `PresentOf` for what `Poll` and the list build's
  constructor gather.

Lemmas then state what those functions mean:

- a round trip from store to lookup;
- the outcome and the untouched keys of a sequence of additions;
- the poll list after a range of additions, idempotence included.

Two behaviours of the source are kept as written:

- In the camera build, `getByte` fails with the same "not valid for 'int'"
  message as `getInt` (`Camera/ViscaRangeDictionary.cs:84`). The model
  returns `NotValidForInt` there.
- In the list build, `_pollCommands` is filled but never read in
  `Camera/ViscaDictCamera.cs`; `Poll` submits `InquiriesByPropertyName`, null slots included
  (`Camera/ViscaDictCamera.cs:67-71,105-112`).

## Model

| member | source | states |
|---|---|---|
| `LimitsRegistry.Limits.Label` | ViscaLibrary/Camera/PropertyDictionary/ViscaRangeDictionary.cs:62-65 | The label when one was given, and otherwise the property name the entry was created with |
| `LimitsRegistry.LookupLabel` | ViscaLibrary/Camera/PropertyDictionary/ViscaRangeDictionary.cs:50-65 | In a dictionary whose entries carry their own key, a found entry without a label is labelled with the key it was found under: the name, or the name with the "Limits" suffix |
| `LimitsRegistry.Lookup` | ViscaLibrary/Camera/PropertyDictionary/ViscaRangeDictionary.cs:90-105 | A lookup succeeds exactly when the name or the name with "Limits" is a key, returns an entry of the dictionary, and otherwise fails with key-not-found for that name |
| `LimitsRegistry.IntRangeOf` | ViscaLibrary/Camera/PropertyDictionary/ViscaRangeDictionary.cs:113-124 | Succeeds exactly when the lookup succeeds and the range-limits constructor accepts the bounds, and then copies low, high and message. Every failure, key-not-found included, becomes the 'int' error; both builds' `getInt` return it |
| `LimitsRegistry.StoreThenLookup` | ViscaLibrary/Camera/PropertyDictionary/ViscaRangeDictionary.cs:197-200 | Looking up a name right after storing an entry under it returns that entry |
| `LimitsRegistry.StoreKeepsOtherLookups` | ViscaLibrary/Camera/PropertyDictionary/ViscaRangeDictionary.cs:93-100 | Storing under a name leaves the lookup of every other name unchanged, except the name whose suffixed form it is |
| `LimitsRegistry.StoreSuffixedAnswersBase` | ViscaLibrary/Camera/PropertyDictionary/ViscaRangeDictionary.cs:97-100 | Storing under "XLimits" makes the lookup of an unregistered "X" return the new entry |
| `LimitsRegistry.Stored` | ViscaLibrary/Camera/PropertyDictionary/ViscaRangeDictionary.cs:177-187 | Byte and int range limits become an entry with the same bounds and message, no label, and the given name as label; any other value is rejected |
| `LimitsRegistry.AddAllOutcome` | ViscaLibrary/Camera/PropertyDictionary/ViscaRangeDictionary.cs:156-169 | Adding a sequence of reflected members succeeds exactly when none has an unsupported value, and otherwise fails with the name of the first that does |
| `LimitsRegistry.AddAllKeepsOthers` | ViscaLibrary/Camera/PropertyDictionary/ViscaRangeDictionary.cs:160-168 | A key that no added member carries keeps its entry, or stays absent |
| `LimitsRegistry.AddAllKeepsEntriesNamed` | ViscaLibrary/Camera/PropertyDictionary/ViscaRangeDictionary.cs:199 | Additions keep every entry stored under the name it was created with |
| `LimitsRegistry.AddAllStopsAtUnsupported` | ViscaLibrary/Camera/PropertyDictionary/ViscaRangeDictionary.cs:160-168 | The dictionary left by the additions is the one left by the members before the first unsupported one; the throw ends the loop |
| `LimitsRegistry.AddAllStores` | ViscaLibrary/Camera/PropertyDictionary/ViscaRangeDictionary.cs:153-169 | A member before the first unsupported one, and the last of those with its name, leaves exactly its `Add(name, value)` entry under its name |
| `LimitsRegistry.AddAllNamesPresent` | ViscaLibrary/Camera/PropertyDictionary/ViscaRangeDictionary.cs:153-169 | Every member before the first unsupported one leaves an entry under its name, created with that name, with no label of its own, so labelled with that name |
| `LimitsRegistry.AddAllPassRegistersAll` | ViscaLibrary/Camera/PropertyDictionary/ViscaRangeDictionary.cs:153-169 | When the additions succeed, every member's name is a key, labelled with that name |
| `LimitsRegistry.AddAllAppend` | ViscaLibrary/Camera/PropertyDictionary/ViscaRangeDictionary.cs:206-233 | The fields loop followed by the properties loop, which runs only when the first did not throw, equals one loop over fields then properties |
| `PropertyRangeDictionary.ViscaRangeDictionary.constructor` | ViscaLibrary/Camera/PropertyDictionary/ViscaRangeDictionary.cs:19 | The dictionary starts empty |
| `PropertyRangeDictionary.ViscaRangeDictionary.Get` | ViscaLibrary/Camera/PropertyDictionary/ViscaRangeDictionary.cs:90-105 | The exact-name entry when present, even if the suffixed one is present too. Otherwise the "Limits"-suffixed entry. Otherwise key-not-found |
| `PropertyRangeDictionary.ViscaRangeDictionary.Item` | ViscaLibrary/Camera/PropertyDictionary/ViscaRangeDictionary.cs:76-82 | The indexer answers exactly as `get`, and fails exactly when neither key is present |
| `PropertyRangeDictionary.ViscaRangeDictionary.GetInt` | ViscaLibrary/Camera/PropertyDictionary/ViscaRangeDictionary.cs:113-124 | Succeeds exactly when the lookup succeeds and the range-limits constructor accepts the bounds, and then copies low, high and message. Every failure, key-not-found included, becomes the 'int' error |
| `PropertyRangeDictionary.ViscaRangeDictionary.GetByte` | ViscaLibrary/Camera/PropertyDictionary/ViscaRangeDictionary.cs:132-148 | Succeeds exactly when the lookup succeeds, both bounds lie in [0, 255] and the constructor accepts them, and then returns the same low, high and message. Every failure becomes the byte error |
| `PropertyRangeDictionary.ViscaRangeDictionary.Add` | ViscaLibrary/Camera/PropertyDictionary/ViscaRangeDictionary.cs:197-200 | The dictionary becomes the old one with `name` set to an entry of exactly the given fields, inserted or overwritten. `get(name)` then returns it, and the entries-named invariant is kept |
| `PropertyRangeDictionary.ViscaRangeDictionary.AddValue` | ViscaLibrary/Camera/PropertyDictionary/ViscaRangeDictionary.cs:177-187 | Byte or int limits are stored under `name`, and `get(name)` then has label `name`. Any other value fails with unsupported-type and leaves the dictionary unchanged |
| `PropertyRangeDictionary.ViscaRangeDictionary.AddMembers` | ViscaLibrary/Camera/PropertyDictionary/ViscaRangeDictionary.cs:156-169 | The new dictionary and outcome are those of `AddAll` over the reflected static fields, in order |
| `PropertyRangeDictionary.ViscaRangeDictionary.AddObject` | ViscaLibrary/Camera/PropertyDictionary/ViscaRangeDictionary.cs:206-233 | The new dictionary and outcome are those of `AddAll` over the instance fields followed by the instance properties |
| `CameraRangeDictionary.ViscaRangeDictionary.constructor` | ViscaLibrary/Camera/ViscaRangeDictionary.cs:12 | The dictionary starts empty |
| `CameraRangeDictionary.ViscaRangeDictionary.Get` | ViscaLibrary/Camera/ViscaRangeDictionary.cs:46-61 | The exact-name entry first, then the "Limits"-suffixed entry, otherwise key-not-found |
| `CameraRangeDictionary.ViscaRangeDictionary.Item` | ViscaLibrary/Camera/ViscaRangeDictionary.cs:39-45 | The indexer answers exactly as `get` |
| `CameraRangeDictionary.ViscaRangeDictionary.GetInt` | ViscaLibrary/Camera/ViscaRangeDictionary.cs:63-74 | Returns the entry's low, high and message unchanged when the lookup succeeds and the constructor accepts them, and otherwise the 'int' error |
| `CameraRangeDictionary.ViscaRangeDictionary.GetByte` | ViscaLibrary/Camera/ViscaRangeDictionary.cs:75-86 | No range check. The bounds returned are congruent to the entry's modulo 256, and the message is the same. Fails only when the lookup fails or the constructor rejects the cast bounds |
| `CameraRangeDictionary.ViscaRangeDictionary.Add` | ViscaLibrary/Camera/ViscaRangeDictionary.cs:117-120 | Inserts or overwrites only key `name`, with exactly the given fields. Nothing else in the dictionary changes |
| `CameraRangeDictionary.ViscaRangeDictionary.AddValue` | ViscaLibrary/Camera/ViscaRangeDictionary.cs:105-115 | Accepts only byte or int limits, and stores them with no label. Rejects everything else and leaves the dictionary unchanged |
| `CameraRangeDictionary.ViscaRangeDictionary.AddMembers` | ViscaLibrary/Camera/ViscaRangeDictionary.cs:90-103 | The new dictionary and outcome are those of `AddAll` over the reflected static fields |
| `CameraRangeDictionary.ViscaRangeDictionary.AddObject` | ViscaLibrary/Camera/ViscaRangeDictionary.cs:121-148 | The new dictionary and outcome are those of `AddAll` over the instance fields followed by the instance properties |
| `ViscaTypes.ToByte` | ViscaLibrary/Camera/ViscaRangeDictionary.cs:80 | The unchecked byte cast gives the byte congruent to the value modulo 256, and leaves values in [0, 255] unchanged |
| `RangeDictionaryVariants.GetAndGetIntAgree` | ViscaLibrary/Camera/ViscaRangeDictionary.cs:46-74 | On the same dictionary both builds give the same `get` and `getInt` answers |
| `RangeDictionaryVariants.GetByteAgreesWhenChecked` | ViscaLibrary/Camera/ViscaRangeDictionary.cs:75-86 | Whenever the checking build returns byte limits, the truncating build returns the very same ones |
| `RangeDictionaryVariants.GetByteDivergesOutOfRange` | ViscaLibrary/Camera/PropertyDictionary/ViscaRangeDictionary.cs:137-141 | For an entry with a bound outside [0, 255], the checking build fails. The truncating build returns the bounds modulo 256 whenever the constructor accepts them |
| `RangeDictionaryVariants.ZoomUpTo256` | ViscaLibrary/Camera/ViscaRangeDictionary.cs:80 | Limits 0..256 are refused by the checking build, and come back as 0..0 from the truncating build |
| `ViscaProtocol.ViscaProtocolProcessor.EnqueueCommand` | ViscaLibrary/Camera/PropertyDictionary/ViscaDictCamera.cs:86 | Submitting a command appends it to the processor's log |
| `ViscaProtocol.ValuesOfSize` | ViscaLibrary/Camera/PropertyDictionary/ViscaDictCamera.cs:85-86 | A dictionary has exactly one value per key, so a poll submits one inquiry per poll-list entry |
| `ViscaProtocol.PresentOfCountsValues` | ViscaLibrary/Camera/ViscaDictCamera.cs:67-71 | Each inquiry occurs among the non-null values as often as its reference occurs among all the values |
| `PropertyDictCamera.PollAddIdempotent` | ViscaLibrary/Camera/PropertyDictionary/ViscaDictCamera.cs:94-97 | Adding the same name twice leaves the poll list and outcome as adding it once |
| `PropertyDictCamera.PollAddRangeResult` | ViscaLibrary/Camera/PropertyDictionary/ViscaDictCamera.cs:98-104 | Adding a range adds each name, with its inquiry, up to the first name that is not registered. The outcome is key-not-found for that name, and the additions before it stay |
| `PropertyDictCamera.PollAddRangeIdempotent` | ViscaLibrary/Camera/PropertyDictionary/ViscaDictCamera.cs:98-104 | Adding the same range a second time changes neither the poll list nor the outcome |
| `PropertyDictCamera.ViscaCamera.constructor` | ViscaLibrary/Camera/PropertyDictionary/ViscaDictCamera.cs:29-46 | The poll list holds the same key/value pairs as the inquiry table, as a separate value. Polling is off, and poll time and timer period are `Timeout.Infinite` |
| `PropertyDictCamera.ViscaCamera.SetPollEnabled` | ViscaLibrary/Camera/PropertyDictionary/ViscaDictCamera.cs:54 | The flag takes the given value and nothing else changes |
| `PropertyDictCamera.ViscaCamera.SetPollTime` | ViscaLibrary/Camera/PropertyDictionary/ViscaDictCamera.cs:56-75 | The poll time becomes the value. A different value of at least `Timeout.Infinite` reprograms the timer with it. A different value below that is still stored, but `Timer.Change` throws for it and the timer keeps its old period. The timer's period is always one `Timer.Change` accepts, and equals the poll time whenever the poll time is one too |
| `PropertyDictCamera.ViscaCamera.Poll` | ViscaLibrary/Camera/PropertyDictionary/ViscaDictCamera.cs:81-88 | When enabled, the log is extended by exactly the multiset of the poll list's values. When disabled, the log is unchanged. Nothing already logged changes |
| `PropertyDictCamera.ViscaCamera.PollListNew` | ViscaLibrary/Camera/PropertyDictionary/ViscaDictCamera.cs:90-93 | The poll list is empty, and the inquiry table is untouched |
| `PropertyDictCamera.ViscaCamera.PollListAdd` | ViscaLibrary/Camera/PropertyDictionary/ViscaDictCamera.cs:94-97 | Succeeds exactly when the name is registered, and then maps it to its inquiry. Otherwise fails with key-not-found and leaves the poll list unchanged |
| `PropertyDictCamera.ViscaCamera.PollListAddRange` | ViscaLibrary/Camera/PropertyDictionary/ViscaDictCamera.cs:98-104 | The new poll list and outcome are those of `PollListAdd` on each name in order, stopping at the first failure |
| `ListCamera.ViscaCamera.constructor` | ViscaLibrary/Camera/ViscaDictCamera.cs:52-72 | The poll commands are exactly the non-null values of the inquiry table, as a multiset. Polling is off, and poll time and timer period are `Timeout.Infinite` |
| `ListCamera.GatherPollCommands` | ViscaLibrary/Camera/ViscaDictCamera.cs:67-71 | The gathered list holds exactly the non-null values of the inquiry table, each as often as it occurs, as a multiset |
| `ListCamera.ViscaCamera.SetPollEnabled` | ViscaLibrary/Camera/ViscaDictCamera.cs:79 | The flag takes the given value and nothing else changes |
| `ListCamera.ViscaCamera.SetPollTime` | ViscaLibrary/Camera/ViscaDictCamera.cs:81-100 | The poll time becomes the value. A different value of at least `Timeout.Infinite` reprograms the timer with it. A different value below that is still stored, but `Timer.Change` throws for it and the timer keeps its old period |
| `ListCamera.ViscaCamera.Poll` | ViscaLibrary/Camera/ViscaDictCamera.cs:105-112 | When enabled, the log is extended by exactly the multiset of all values of the inquiry table, nulls included, whatever the poll commands are. When disabled, nothing is submitted |
| `ListCamera.PollCoversPollCommands` | ViscaLibrary/Camera/ViscaDictCamera.cs:105-112 | Each poll command is submitted by a poll as often as it is in the list, so a poll covers the poll commands. Beyond them it submits only the nulls |

## Left out

- The protocol engine is not part of this model: `ViscaProtocolProcessor`, framing, sockets and the command queue. The processor appears only as the log that `EnqueueCommand` appends to.
- Timers (`Timer`/`CTimer`) are operating-system plumbing. Only the period last given to the poll timer and the number of reprogrammings are kept, as ghost state. A timer firing `Poll` is not modelled, nor is the Crestron `CTimer.Reset` build (`SSHARP`), whose handling of negative periods is not part of this model.
- The constructor of `ViscaRangeLimits<T>` is not part of this model. Whether it accepts a low bound, high bound and message is a parameter (`RangeLimitsCtor`) of `GetInt` and `GetByte`.
- Reflection in `Add(Type)` and `Add(object)` is not modelled. The fields and properties reflection would find are given explicitly as a sequence of (name, value) members. The "Replacing" console messages are left out.
- The chained constructors are not part of this model. In the property-dictionary build, `ViscaCamera(id)` registers the inquiries and fills `limitsByPropertyName` (ViscaLibrary/Camera/PropertyDictionary/ViscaCommandsDict.cs:47-60). In the list build, the constructor chains to `ViscaCamera(id, parameters)`, which is defined in none of the files modelled here, so what it does is unknown. The inquiry table either one builds is a parameter of the modelled constructor. The `id` and `parameters` arguments, the `_id` field, `limitsByPropertyName` and the `_visca` wiring beyond the processor reference are left out.
- `ToString`, `Connect`, `Dispose` and the `EventArgs` classes are formatting and plumbing. ViscaLibrary/Camera/PropertyDictionary/ViscaCommandsDict.cs, ViscaLibrary/ViscaWB.cs and ViscaLibrary/Camera/ViscaCamera.Gain.cs are not part of this model.
- Null names and null name arrays are not modelled: the exceptions .NET would throw for them are absent. A null `Message` throws nothing in the source, since `Limits` just stores it, but it cannot be represented here: strings are always present values.
- The inquiry table and the dictionaries are C# reference objects that other code could share and mutate. The model treats them as values held in public fields, so aliasing is not captured.
- PropertyDictCamera.ViscaCamera.Poll: states what is submitted as a multiset, not in order, because .NET `Dictionary` enumeration order is unspecified.
- ListCamera.ViscaCamera.Poll: states what is submitted as a multiset, not in order, for the same reason.
- ListCamera.ViscaCamera.constructor: states the poll commands as a multiset, not their order, for the same reason.
- ListCamera.GatherPollCommands: states the gathered list as a multiset, not its order, for the same reason.
