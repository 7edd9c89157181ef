/** The polling state of `ViscaCamera` in the property-dictionary build: an
    editable poll list keyed by property name, copied at construction from
    the camera's inquiry table. */
module PropertyDictCamera {
  import opened ViscaTypes
  import opened ViscaProtocol

  /** The poll list after an edit, and whether the edit threw. */
  datatype Edited = Edited(pollList: InquiryTable, outcome: Outcome)

  /** `PollListAdd(name)`: the poll list maps `name` to the camera's inquiry
      for it; looking up an unregistered name throws before anything is
      written. */
  function PollAdd(pollList: InquiryTable, inquiries: InquiryTable, name: string): Edited
  {
    if name in inquiries then Edited(pollList[name := inquiries[name]], Pass)
    else Edited(pollList, Fail(KeyNotFound(name)))
  }

  /** `PollListAddRange(names)`: `PollListAdd` on each name in order; the
      first unregistered name throws and the names added before it stay. */
  function PollAddRange(pollList: InquiryTable, inquiries: InquiryTable, names: seq<string>): Edited
    decreases |names|
  {
    if names == [] then Edited(pollList, Pass)
    else
      var e := PollAdd(pollList, inquiries, names[0]);
      if e.outcome.Fail? then e else PollAddRange(e.pollList, inquiries, names[1..])
  }

  /** The entries of the inquiry table for the given names. */
  function Registered(inquiries: InquiryTable, names: seq<string>): (r: InquiryTable)
    ensures forall n :: n in r <==> n in inquiries && n in names
    ensures forall n :: n in r ==> r[n] == inquiries[n]
  {
    map n | n in inquiries && n in names :: inquiries[n]
  }

  /** The index of the first name with no inquiry, or the number of names. */
  function FirstMissing(inquiries: InquiryTable, names: seq<string>): (i: nat)
    ensures i <= |names|
    ensures forall j :: 0 <= j < i ==> names[j] in inquiries
    ensures i < |names| ==> names[i] !in inquiries
  {
    if names == [] || names[0] !in inquiries then 0
    else 1 + FirstMissing(inquiries, names[1..])
  }

  /** Adding a registered name twice is the same as adding it once. */
  lemma PollAddIdempotent(pollList: InquiryTable, inquiries: InquiryTable, name: string)
    ensures PollAdd(PollAdd(pollList, inquiries, name).pollList, inquiries, name) == PollAdd(pollList, inquiries, name)
  {
  }

  /** Registering one more name adds exactly its entry. */
  lemma RegisteredCons(inquiries: InquiryTable, n: string, names: seq<string>)
    requires n in inquiries
    ensures Registered(inquiries, [n] + names) == Registered(inquiries, names)[n := inquiries[n]]
  {
    var a, b := Registered(inquiries, [n] + names), Registered(inquiries, names)[n := inquiries[n]];
    forall m ensures m in a <==> m in b {
      assert m in [n] + names <==> m == n || m in names;
    }
  }

  /** Writing an entry and then merging a table that agrees on it is merging
      the table with the entry written into it. */
  lemma WriteThenMerge(pollList: InquiryTable, r: InquiryTable, n: string, v: Option<Inquiry>)
    requires n in r ==> r[n] == v
    ensures pollList[n := v] + r == pollList + r[n := v]
  {
  }

  /** What adding a range does, all at once: every name up to the first
      unregistered one is added with its inquiry, and the outcome is the
      key-not-found of that name, if there is one. */
  lemma {:induction false} PollAddRangeResult(pollList: InquiryTable, inquiries: InquiryTable, names: seq<string>)
    ensures var i := FirstMissing(inquiries, names);
      PollAddRange(pollList, inquiries, names) ==
        Edited(pollList + Registered(inquiries, names[..i]),
               if i == |names| then Pass else Fail(KeyNotFound(names[i])))
    decreases |names|
  {
    var i := FirstMissing(inquiries, names);
    if names == [] || names[0] !in inquiries {
      assert i == 0 && names[..i] == [];
      assert Registered(inquiries, []) == map[];
      assert pollList + map[] == pollList;
    } else {
      var n, tail := names[0], names[1..];
      var after := pollList[n := inquiries[n]];
      assert PollAddRange(pollList, inquiries, names) == PollAddRange(after, inquiries, tail);
      PollAddRangeResult(after, inquiries, tail);
      var i' := FirstMissing(inquiries, tail);
      assert i == i' + 1;
      assert names[..i] == [n] + tail[..i'];
      assert i' < |tail| ==> tail[i'] == names[i];
      RegisteredCons(inquiries, n, tail[..i']);
      WriteThenMerge(pollList, Registered(inquiries, tail[..i']), n, inquiries[n]);
    }
  }

  /** Adding the same range twice leaves the poll list as adding it once. */
  lemma PollAddRangeIdempotent(pollList: InquiryTable, inquiries: InquiryTable, names: seq<string>)
    ensures var once := PollAddRange(pollList, inquiries, names);
      PollAddRange(once.pollList, inquiries, names) == once
  {
    var i := FirstMissing(inquiries, names);
    PollAddRangeResult(pollList, inquiries, names);
    var once := PollAddRange(pollList, inquiries, names);
    PollAddRangeResult(once.pollList, inquiries, names);
    var r := Registered(inquiries, names[..i]);
    assert once.pollList + r == pollList + r + r;
    assert pollList + r + r == pollList + r;
  }

  class ViscaCamera {
    /** The protocol processor the camera submits inquiries to. */
    const visca: ViscaProtocolProcessor
    /** The inquiry of each property, as registered by the camera's other
        constructor; a slot may hold null. */
    var inquiriesByPropertyName: InquiryTable
    /** The inquiries `Poll` submits. */
    var pollList: InquiryTable
    var pollEnabled: bool
    var pollTime: int32
    /** The period last given to the poll timer, and how often it was reprogrammed. */
    ghost var timerPeriod: int32
    ghost var timerChanges: nat

    /** The poll timer only ever holds a period `Timer.Change` accepts, and
        it runs with the period `PollTime` reports unless the last new poll
        time was one the timer refused. */
    ghost predicate Valid()
      reads this
    {
      && Infinite <= timerPeriod
      && (Infinite <= pollTime ==> timerPeriod == pollTime)
    }

    /** The poll list starts as an independent copy of the inquiry table; the
        timer is created stopped and polling is off. */
    constructor (visca: ViscaProtocolProcessor, inquiries: InquiryTable)
      ensures this.visca == visca
      ensures inquiriesByPropertyName == inquiries && pollList == inquiries
      ensures !pollEnabled && pollTime == Infinite
      ensures timerPeriod == Infinite && timerChanges == 0
      ensures Valid()
    {
      this.visca := visca;
      inquiriesByPropertyName := inquiries;
      pollList := inquiries;
      pollEnabled := false;
      pollTime := Infinite;
      timerPeriod := Infinite;
      timerChanges := 0;
    }

    /** The `PollEnabled` setter: a plain flag. */
    method SetPollEnabled(enabled: bool)
      modifies this`pollEnabled
      ensures pollEnabled == enabled
    {
      pollEnabled := enabled;
    }

    /** The `PollTime` setter: a new value is stored first and then given
        to the timer as its period; `Timer.Change` throws for a negative
        period other than infinite, and the timer keeps its old one. The
        current value changes nothing. */
    method SetPollTime(value: int32) returns (r: Outcome)
      requires Valid()
      modifies this`pollTime, this`timerPeriod, this`timerChanges
      ensures Valid() && pollTime == value
      ensures r == if old(pollTime) != value && value < Infinite then Fail(PeriodOutOfRange(value)) else Pass
      ensures timerPeriod == if old(pollTime) != value && Infinite <= value then value else old(timerPeriod)
      ensures timerChanges == if old(pollTime) != value && Infinite <= value then old(timerChanges) + 1 else old(timerChanges)
    {
      r := Pass;
      if pollTime != value {
        pollTime := value;
        if pollTime < Infinite {
          return Fail(PeriodOutOfRange(pollTime));
        }
        timerPeriod := pollTime;
        timerChanges := timerChanges + 1;
      }
    }

    /** `Poll`: when polling is on, every inquiry of the poll list is
        submitted once, in no particular order; otherwise nothing is. */
    method Poll()
      modifies visca
      ensures |old(visca.enqueued)| <= |visca.enqueued|
      ensures visca.enqueued[..|old(visca.enqueued)|] == old(visca.enqueued)
      ensures multiset(visca.enqueued[|old(visca.enqueued)|..]) == if pollEnabled then ValuesOf(pollList) else multiset{}
    {
      if pollEnabled {
        var rest := pollList;
        ghost var all, added: seq<Option<Inquiry>> := ValuesOf(rest), [];
        while rest != map[]
          invariant visca.enqueued == old(visca.enqueued) + added
          invariant multiset(added) + ValuesOf(rest) == all
          decreases |rest|
        {
          var k :| k in rest;
          TakeValue(added, rest, k);
          visca.EnqueueCommand(rest[k]);
          AppendToLog(old(visca.enqueued), added, rest[k]);
          added, rest := added + [rest[k]], rest - {k};
        }
        assert visca.enqueued[|old(visca.enqueued)|..] == added;
      }
    }

    /** `PollListNew`: the poll list is emptied. */
    method PollListNew()
      modifies this`pollList
      ensures pollList == map[]
    {
      pollList := map[];
    }

    /** `PollListAdd(name)`. */
    method PollListAdd(name: string) returns (r: Outcome)
      modifies this`pollList
      ensures Edited(pollList, r) == PollAdd(old(pollList), inquiriesByPropertyName, name)
      ensures r.Pass? <==> name in inquiriesByPropertyName
    {
      if name !in inquiriesByPropertyName {
        return Fail(KeyNotFound(name));
      }
      pollList := pollList[name := inquiriesByPropertyName[name]];
      r := Pass;
    }

    /** `PollListAddRange(names)`: `PollListAdd` on each name in turn. */
    method PollListAddRange(names: seq<string>) returns (r: Outcome)
      modifies this`pollList
      ensures Edited(pollList, r) == PollAddRange(old(pollList), inquiriesByPropertyName, names)
    {
      var i := 0;
      while i < |names|
        invariant 0 <= i <= |names|
        invariant PollAddRange(pollList, inquiriesByPropertyName, names[i..]) ==
                  PollAddRange(old(pollList), inquiriesByPropertyName, names)
      {
        assert names[i..][0] == names[i] && names[i..][1..] == names[i + 1..];
        r := PollListAdd(names[i]);
        if r.Fail? {
          return;
        }
        i := i + 1;
      }
      r := Pass;
    }
  }
}
