/** The range-limit registry of the camera build: the same map from property
    name to `Limits`, except that its `GetByte` truncates the bounds to a
    byte instead of checking them. */
module CameraRangeDictionary {
  import opened ViscaTypes
  import opened LimitsRegistry

  class ViscaRangeDictionary {
    /** The public dictionary from property name to its limits. */
    var dict: map<string, Limits>

    /** Every entry is stored under the name it was created with. The
        dictionary is a public field, so this holds only while nothing but
        the `Add` methods writes to it. */
    ghost predicate Valid()
      reads this
    {
      EntriesNamed(dict)
    }

    constructor ()
      ensures dict == map[] && Valid()
    {
      dict := map[];
    }

    /** `get`: the entry stored under `name`, else the one stored under
        `name + "Limits"`, else key-not-found. */
    function Get(name: string): (r: Result<Limits>)
      reads this
      ensures name in dict ==> r == Ok(dict[name])
      ensures name !in dict && name + LimitsSuffix in dict ==> r == Ok(dict[name + LimitsSuffix])
      ensures name !in dict && name + LimitsSuffix !in dict ==> r == Err(KeyNotFound(name))
    {
      Lookup(dict, name)
    }

    /** The indexer `this[name]`: the same answer as `get`, failure included. */
    function Item(name: string): (r: Result<Limits>)
      reads this
      ensures r == Get(name)
      ensures r.Err? <==> name !in dict && name + LimitsSuffix !in dict
    {
      Get(name)
    }

    /** `getInt`: the entry's bounds and message as int range limits. It
        fails, always with the 'int' message, when the lookup fails or the
        range-limits constructor rejects the bounds. */
    function GetInt(name: string, rangeLimits: RangeLimitsCtor): (r: Result<RangeLimits<int32>>)
      reads this
      ensures r.Ok? <==> (Get(name).Ok? &&
        rangeLimits(Get(name).value.low as int, Get(name).value.high as int, Get(name).value.message))
      ensures r.Ok? ==> r.value == RangeLimits(Get(name).value.low, Get(name).value.high, Get(name).value.message)
      ensures r.Err? ==> r.error == NotValidForInt(name)
    {
      IntRangeOf(dict, name, rangeLimits)
    }

    /** `getByte`: the entry's bounds cast to bytes, which keeps their low
        eight bits and checks nothing, with the entry's message. It fails
        only when the lookup fails or the range-limits constructor rejects
        the cast bounds, and then with the 'int' message, as `getInt` does. */
    function GetByte(name: string, rangeLimits: RangeLimitsCtor): (r: Result<RangeLimits<byte>>)
      reads this
      ensures r.Ok? <==> (Get(name).Ok? &&
        rangeLimits(ToByte(Get(name).value.low) as int, ToByte(Get(name).value.high) as int, Get(name).value.message))
      ensures r.Ok? ==>
        && (r.value.low as int - Get(name).value.low as int) % 256 == 0
        && (r.value.high as int - Get(name).value.high as int) % 256 == 0
        && r.value.message == Get(name).value.message
      ensures r.Err? ==> r.error == NotValidForInt(name)
    {
      match Get(name)
      case Err(_) => Err(NotValidForInt(name))
      case Ok(l) =>
        var low, high := ToByte(l.low), ToByte(l.high);
        if rangeLimits(low as int, high as int, l.message) then Ok(RangeLimits(low, high, l.message))
        else Err(NotValidForInt(name))
    }

    /** `Add(name, low, high, message, caption)`: inserts or overwrites the
        entry under `name`; every other key keeps its entry. */
    method Add(name: string, low: int32, high: int32, message: string, caption: Option<string>)
      modifies this
      ensures dict == old(dict)[name := Limits(name, low, high, message, caption)]
      ensures Get(name) == Ok(Limits(name, low, high, message, caption))
      ensures old(Valid()) ==> Valid()
    {
      dict := dict[name := Limits(name, low, high, message, caption)];
    }

    /** `Add(name, value)`: byte and int range limits are stored with their
        bounds and message and no label, so their label is `name`; any other
        value throws and leaves the dictionary as it was. */
    method AddValue(name: string, value: LimitsValue) returns (r: Outcome)
      modifies this
      ensures r.Pass? <==> !value.Unsupported?
      ensures r.Pass? ==> dict == old(dict)[name := Stored(name, value).value]
      ensures r.Pass? ==> Get(name).Ok? && Get(name).value.Label() == name
      ensures r.Fail? ==> r.error == UnsupportedType(name) && dict == old(dict)
      ensures old(Valid()) ==> Valid()
    {
      match value
      case ByteLimits(b) =>
        Add(name, b.low as int32, b.high as int32, b.message, None);
        r := Pass;
      case IntLimits(i) =>
        Add(name, i.low, i.high, i.message, None);
        r := Pass;
      case Unsupported =>
        r := Fail(UnsupportedType(name));
    }

    /** `Add(Type)`: `Add(name, value)` for each public static field, in the
        order reflection lists them; the first unsupported value throws and
        the fields added before it stay. */
    method AddMembers(members: seq<Member>) returns (r: Outcome)
      modifies this
      ensures Added(dict, r) == AddAll(old(dict), members)
      ensures old(Valid()) ==> Valid()
    {
      if Valid() {
        AddAllKeepsEntriesNamed(dict, members);
      }
      var i := 0;
      while i < |members|
        invariant 0 <= i <= |members|
        invariant AddAll(dict, members[i..]) == AddAll(old(dict), members)
      {
        assert members[i..][0] == members[i] && members[i..][1..] == members[i + 1..];
        r := AddValue(members[i].name, members[i].value);
        if r.Fail? {
          return;
        }
        i := i + 1;
      }
      r := Pass;
    }

    /** `Add(object)`: the additions over the public instance fields, then,
        if none threw, over the public instance properties. */
    method AddObject(fields: seq<Member>, properties: seq<Member>) returns (r: Outcome)
      modifies this
      ensures Added(dict, r) == AddAll(old(dict), fields + properties)
      ensures old(Valid()) ==> Valid()
    {
      AddAllAppend(dict, fields, properties);
      r := AddMembers(fields);
      if r.Pass? {
        r := AddMembers(properties);
      }
    }
  }
}
