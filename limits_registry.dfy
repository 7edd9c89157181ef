/** What both builds of `ViscaRangeDictionary` share: the `Limits` entry,
    the lookup rule with its "Limits" suffix fallback, the entry that
    `Add(name, value)` stores, and the loop the reflection overloads run. */
module LimitsRegistry {
  import opened ViscaTypes

  /** One entry of the dictionary (the nested class `Limits`): the bounds and
      message of a camera property, the name it was created under and an
      optional label. */
  datatype Limits = Limits(propertyName: string, low: int32, high: int32, message: string, givenLabel: Option<string>)
  {
    /** The label, or the property name when no label was given. */
    function Label(): (r: string)
      ensures givenLabel.Some? ==> r == givenLabel.value
      ensures givenLabel.None? ==> r == propertyName
    {
      if givenLabel.Some? then givenLabel.value else propertyName
    }
  }

  /** `IViscaRangeLimits<T>`: the typed bounds and message of one property. */
  datatype RangeLimits<T> = RangeLimits(low: T, high: T, message: string)

  /** The object handed to `Add(name, value)`. */
  datatype LimitsValue =
    | ByteLimits(byteLimits: RangeLimits<byte>)
    | IntLimits(intLimits: RangeLimits<int32>)
    | Unsupported  // any other object, null included

  /** A public field or property found by reflection: its name and its value. */
  datatype Member = Member(name: string, value: LimitsValue)

  /** Whether the constructor of `ViscaRangeLimits<T>`, which is not part of
      this model, accepts the low bound, high bound and message it is given.
      Every operation that calls that constructor takes it as a parameter. */
  type RangeLimitsCtor = (int, int, string) -> bool

  /** The suffix tried when a name has no entry of its own. */
  const LimitsSuffix: string := "Limits"

  /** Every entry is stored under the name it was created with; `Add` keeps
      this, and it is what makes `Label` fall back to the key. */
  ghost predicate EntriesNamed(dict: map<string, Limits>)
  {
    forall k :: k in dict ==> dict[k].propertyName == k
  }

  /** The lookup rule of `get`: the exact name first, then the name with the
      "Limits" suffix, otherwise key-not-found. */
  function Lookup(dict: map<string, Limits>, name: string): (r: Result<Limits>)
    ensures r.Ok? <==> name in dict || name + LimitsSuffix in dict
    ensures r.Ok? ==> r.value in dict.Values
    ensures r.Err? ==> r.error == KeyNotFound(name)
  {
    if name in dict then Ok(dict[name])
    else if name + LimitsSuffix in dict then Ok(dict[name + LimitsSuffix])
    else Err(KeyNotFound(name))
  }

  /** The reshape both builds of `getInt` perform: the found entry's bounds
      and message as int range limits. Every failure, of the lookup or of
      the range-limits constructor, becomes the 'int' error. */
  function IntRangeOf(dict: map<string, Limits>, name: string, rangeLimits: RangeLimitsCtor): (r: Result<RangeLimits<int32>>)
    ensures r.Ok? <==> (Lookup(dict, name).Ok? &&
      rangeLimits(Lookup(dict, name).value.low as int, Lookup(dict, name).value.high as int, Lookup(dict, name).value.message))
    ensures r.Ok? ==> r.value == RangeLimits(Lookup(dict, name).value.low, Lookup(dict, name).value.high, Lookup(dict, name).value.message)
    ensures r.Err? ==> r.error == NotValidForInt(name)
  {
    match Lookup(dict, name)
    case Err(_) => Err(NotValidForInt(name))
    case Ok(l) =>
      if rangeLimits(l.low as int, l.high as int, l.message) then Ok(RangeLimits(l.low, l.high, l.message))
      else Err(NotValidForInt(name))
  }

  /** Storing an entry under a name and looking that name up gives the entry back. */
  lemma StoreThenLookup(dict: map<string, Limits>, name: string, l: Limits)
    ensures Lookup(dict[name := l], name) == Ok(l)
  {
  }

  /** Storing under `name` changes the lookup of no other name, except the
      one `name` is the suffixed form of. */
  lemma StoreKeepsOtherLookups(dict: map<string, Limits>, name: string, l: Limits, other: string)
    requires other != name && other + LimitsSuffix != name
    ensures Lookup(dict[name := l], other) == Lookup(dict, other)
  {
  }

  /** That exception is real: storing under "XLimits" makes the lookup of an
      unregistered "X" find the new entry. */
  lemma StoreSuffixedAnswersBase(dict: map<string, Limits>, base: string, l: Limits)
    requires base !in dict
    ensures Lookup(dict[base + LimitsSuffix := l], base) == Ok(l)
  {
    assert base != base + LimitsSuffix by {
      assert |base + LimitsSuffix| == |base| + 6;
    }
  }

  /** In a dictionary whose entries carry their own key, the label of a
      found entry without a label of its own is the key it was found under:
      the name itself, or the name with the suffix. */
  lemma LookupLabel(dict: map<string, Limits>, name: string)
    requires EntriesNamed(dict)
    requires Lookup(dict, name).Ok? && Lookup(dict, name).value.givenLabel.None?
    ensures Lookup(dict, name).value.Label() == if name in dict then name else name + LimitsSuffix
  {
  }

  /** The entry `Add(name, value)` stores: byte and int range limits keep
      their bounds and message, get no label, and are named `name`; any
      other value is rejected. */
  function Stored(name: string, value: LimitsValue): (r: Option<Limits>)
    ensures r.None? <==> value.Unsupported?
    ensures r.Some? ==> r.value.propertyName == name && r.value.givenLabel.None? && r.value.Label() == name
    ensures value.ByteLimits? ==>
      && r.Some?
      && r.value.low as int == value.byteLimits.low as int
      && r.value.high as int == value.byteLimits.high as int
      && r.value.message == value.byteLimits.message
    ensures value.IntLimits? ==>
      && r.Some?
      && r.value.low == value.intLimits.low
      && r.value.high == value.intLimits.high
      && r.value.message == value.intLimits.message
  {
    match value
    case ByteLimits(b) => Some(Limits(name, b.low as int32, b.high as int32, b.message, None))
    case IntLimits(i) => Some(Limits(name, i.low, i.high, i.message, None))
    case Unsupported => None
  }

  /** The state and outcome of a sequence of additions. */
  datatype Added = Added(dict: map<string, Limits>, outcome: Outcome)

  /** `Add(name, value)` for each member in order; the first unsupported
      value throws, and what was added before it stays. */
  function AddAll(dict: map<string, Limits>, members: seq<Member>): Added
    decreases |members|
  {
    if members == [] then Added(dict, Pass)
    else match Stored(members[0].name, members[0].value)
      case None => Added(dict, Fail(UnsupportedType(members[0].name)))
      case Some(l) => AddAll(dict[members[0].name := l], members[1..])
  }

  /** The index of the first unsupported member, or the number of members. */
  function FirstUnsupported(members: seq<Member>): (i: nat)
    ensures i <= |members|
    ensures forall j :: 0 <= j < i ==> !members[j].value.Unsupported?
    ensures i < |members| ==> members[i].value.Unsupported?
  {
    if members == [] || members[0].value.Unsupported? then 0
    else 1 + FirstUnsupported(members[1..])
  }

  /** The additions succeed exactly when no member is unsupported, and
      otherwise fail naming the first unsupported member. */
  lemma {:induction false} AddAllOutcome(dict: map<string, Limits>, members: seq<Member>)
    ensures var i := FirstUnsupported(members);
      AddAll(dict, members).outcome == if i == |members| then Pass else Fail(UnsupportedType(members[i].name))
    decreases |members|
  {
    if members != [] && !members[0].value.Unsupported? {
      AddAllOutcome(dict[members[0].name := Stored(members[0].name, members[0].value).value], members[1..]);
    }
  }

  /** A name that no member carries keeps its entry, or its absence. */
  lemma {:induction false} AddAllKeepsOthers(dict: map<string, Limits>, members: seq<Member>, k: string)
    requires forall j :: 0 <= j < |members| ==> members[j].name != k
    ensures k in AddAll(dict, members).dict <==> k in dict
    ensures k in dict ==> AddAll(dict, members).dict[k] == dict[k]
    decreases |members|
  {
    if members != [] && !members[0].value.Unsupported? {
      AddAllKeepsOthers(dict[members[0].name := Stored(members[0].name, members[0].value).value], members[1..], k);
    }
  }

  /** Additions keep every entry stored under its own name. */
  lemma {:induction false} AddAllKeepsEntriesNamed(dict: map<string, Limits>, members: seq<Member>)
    requires EntriesNamed(dict)
    ensures EntriesNamed(AddAll(dict, members).dict)
    decreases |members|
  {
    if members != [] && !members[0].value.Unsupported? {
      AddAllKeepsEntriesNamed(dict[members[0].name := Stored(members[0].name, members[0].value).value], members[1..]);
    }
  }

  /** The additions stop at the first unsupported member: what they leave
      in the dictionary is what the members before it leave. */
  lemma {:induction false} AddAllStopsAtUnsupported(dict: map<string, Limits>, members: seq<Member>)
    ensures AddAll(dict, members).dict == AddAll(dict, members[..FirstUnsupported(members)]).dict
    decreases |members|
  {
    var i := FirstUnsupported(members);
    if members != [] && !members[0].value.Unsupported? {
      var after := dict[members[0].name := Stored(members[0].name, members[0].value).value];
      AddAllStopsAtUnsupported(after, members[1..]);
      assert members[..i][0] == members[0];
      assert members[..i][1..] == members[1..][..i - 1];
    } else {
      assert members[..i] == [];
    }
  }

  /** A member added before the first unsupported one, and not added again
      under its name before that one, leaves its entry under its name. */
  lemma {:induction false} AddAllStores(dict: map<string, Limits>, members: seq<Member>, j: nat)
    requires j < FirstUnsupported(members)
    requires forall k :: j < k < FirstUnsupported(members) ==> members[k].name != members[j].name
    ensures members[j].name in AddAll(dict, members).dict
    ensures AddAll(dict, members).dict[members[j].name] == Stored(members[j].name, members[j].value).value
    decreases |members|
  {
    var i := FirstUnsupported(members);
    var n := members[0].name;
    var after := dict[n := Stored(n, members[0].value).value];
    var tail := members[1..];
    assert FirstUnsupported(tail) == i - 1;
    if j == 0 {
      AddAllStopsAtUnsupported(after, tail);
      var added := tail[..i - 1];
      assert forall k :: 0 <= k < |added| ==> added[k] == members[k + 1];
      AddAllKeepsOthers(after, added, n);
    } else {
      AddAllStores(after, tail, j - 1);
    }
  }

  /** Every member added before the first unsupported one leaves an entry
      under its name that carries that name and no label of its own. */
  lemma {:induction false} AddAllNamesPresent(dict: map<string, Limits>, members: seq<Member>, j: nat)
    requires j < FirstUnsupported(members)
    ensures var d, n := AddAll(dict, members).dict, members[j].name;
      && n in d
      && d[n].propertyName == n
      && d[n].givenLabel.None?
      && d[n].Label() == n
    decreases FirstUnsupported(members) - j
  {
    var i := FirstUnsupported(members);
    if k: nat :| j < k < i && members[k].name == members[j].name {
      AddAllNamesPresent(dict, members, k);
    } else {
      AddAllStores(dict, members, j);
    }
  }

  /** Additions that succeed leave every member's name in the dictionary,
      labelled with that name. */
  lemma AddAllPassRegistersAll(dict: map<string, Limits>, members: seq<Member>)
    requires AddAll(dict, members).outcome.Pass?
    ensures forall j :: 0 <= j < |members| ==>
      members[j].name in AddAll(dict, members).dict && AddAll(dict, members).dict[members[j].name].Label() == members[j].name
  {
    AddAllOutcome(dict, members);
    forall j | 0 <= j < |members|
      ensures members[j].name in AddAll(dict, members).dict && AddAll(dict, members).dict[members[j].name].Label() == members[j].name
    {
      AddAllNamesPresent(dict, members, j);
    }
  }

  /** Running the additions over `a` and then, if they all succeeded, over
      `b` is the same as running them over `a + b`: the fields loop followed
      by the properties loop of `Add(object)` is one loop over both. */
  lemma {:induction false} AddAllAppend(dict: map<string, Limits>, a: seq<Member>, b: seq<Member>)
    ensures AddAll(dict, a + b) ==
      if AddAll(dict, a).outcome.Pass? then AddAll(AddAll(dict, a).dict, b) else AddAll(dict, a)
    decreases |a|
  {
    if a != [] {
      assert (a + b)[0] == a[0];
      assert (a + b)[1..] == a[1..] + b;
      if !a[0].value.Unsupported? {
        AddAllAppend(dict[a[0].name := Stored(a[0].name, a[0].value).value], a[1..], b);
      }
    } else {
      assert a + b == b;
    }
  }
}
