/** The polling state of `ViscaCamera` in the camera build: a fixed list of
    poll commands built once from the inquiry table, and a `Poll` that
    submits the inquiry table itself. */
module ListCamera {
  import opened ViscaTypes
  import opened ViscaProtocol

  class ViscaCamera {
    /** The protocol processor the camera submits inquiries to. */
    const visca: ViscaProtocolProcessor
    /** The inquiry of each property, as registered by the camera's other
        constructor; a slot may hold null. */
    var inquiriesByPropertyName: InquiryTable
    /** `_pollCommands`: the non-null inquiries, gathered once. */
    const pollCommands: seq<Inquiry>
    var pollEnabled: bool
    var pollTime: int32
    /** The period last given to the poll timer, and how often it was reprogrammed. */
    ghost var timerPeriod: int32
    ghost var timerChanges: nat

    /** The poll timer only ever holds a period `Timer.Change` accepts, and
        it runs with the period `PollTime` reports unless the last new poll
        time was one the timer refused. */
    ghost predicate Valid()
      reads this
    {
      && Infinite <= timerPeriod
      && (Infinite <= pollTime ==> timerPeriod == pollTime)
    }

    /** The constructor gathers every non-null inquiry of the table into the
        poll commands, in the table's enumeration order; the timer is
        created stopped and polling is off. The `id` and `parameters`
        arguments only reach the chained constructor, which is not
        modelled; the table it builds is given here as `inquiries`. */
    constructor (visca: ViscaProtocolProcessor, inquiries: InquiryTable)
      ensures this.visca == visca && inquiriesByPropertyName == inquiries
      ensures multiset(pollCommands) == PresentOf(inquiries)
      ensures !pollEnabled && pollTime == Infinite
      ensures timerPeriod == Infinite && timerChanges == 0
      ensures Valid()
    {
      var commands := GatherPollCommands(inquiries);
      this.visca := visca;
      inquiriesByPropertyName := inquiries;
      pollCommands := commands;
      pollEnabled := false;
      pollTime := Infinite;
      timerPeriod := Infinite;
      timerChanges := 0;
    }

    /** The `PollEnabled` setter: a plain flag, read only by `Poll`. */
    method SetPollEnabled(enabled: bool)
      modifies this`pollEnabled
      ensures pollEnabled == enabled
    {
      pollEnabled := enabled;
    }

    /** The `PollTime` setter: a new value is stored first and then given
        to the timer as its period; `Timer.Change` throws for a negative
        period other than infinite, and the timer keeps its old one. The
        current value changes nothing. */
    method SetPollTime(value: int32) returns (r: Outcome)
      requires Valid()
      modifies this`pollTime, this`timerPeriod, this`timerChanges
      ensures Valid() && pollTime == value
      ensures r == if old(pollTime) != value && value < Infinite then Fail(PeriodOutOfRange(value)) else Pass
      ensures timerPeriod == if old(pollTime) != value && Infinite <= value then value else old(timerPeriod)
      ensures timerChanges == if old(pollTime) != value && Infinite <= value then old(timerChanges) + 1 else old(timerChanges)
    {
      r := Pass;
      if pollTime != value {
        pollTime := value;
        if pollTime < Infinite {
          return Fail(PeriodOutOfRange(pollTime));
        }
        timerPeriod := pollTime;
        timerChanges := timerChanges + 1;
      }
    }

    /** `Poll`: when polling is on, every slot of the inquiry table is
        submitted once, null slots included and the poll commands unused, in
        no particular order; otherwise nothing is. */
    method Poll()
      modifies visca
      ensures |old(visca.enqueued)| <= |visca.enqueued|
      ensures visca.enqueued[..|old(visca.enqueued)|] == old(visca.enqueued)
      ensures multiset(visca.enqueued[|old(visca.enqueued)|..]) ==
        if pollEnabled then ValuesOf(inquiriesByPropertyName) else multiset{}
    {
      if pollEnabled {
        var rest := inquiriesByPropertyName;
        ghost var all, added: seq<Option<Inquiry>> := ValuesOf(rest), [];
        while rest != map[]
          invariant visca.enqueued == old(visca.enqueued) + added
          invariant multiset(added) + ValuesOf(rest) == all
          decreases |rest|
        {
          var k :| k in rest;
          TakeValue(added, rest, k);
          visca.EnqueueCommand(rest[k]);
          AppendToLog(old(visca.enqueued), added, rest[k]);
          added, rest := added + [rest[k]], rest - {k};
        }
        assert visca.enqueued[|old(visca.enqueued)|..] == added;
      }
    }
  }

  /** The loop of the constructor: every non-null inquiry of the table is
      appended to the poll commands once, in the table's enumeration order. */
  method GatherPollCommands(inquiries: InquiryTable) returns (commands: seq<Inquiry>)
    ensures multiset(commands) == PresentOf(inquiries)
  {
    commands := [];
    var rest := inquiries;
    while rest != map[]
      invariant multiset(commands) + PresentOf(rest) == PresentOf(inquiries)
      decreases |rest|
    {
      var k :| k in rest;
      TakePresent(commands, rest, k);
      if rest[k].Some? {
        commands := commands + [rest[k].value];
      }
      rest := rest - {k};
    }
  }

  /** Every poll command is among what `Poll` submits, as often as it is in
      the list: a poll submits the poll commands and, besides them, one null
      for each null slot of the table. */
  lemma PollCoversPollCommands(camera: ViscaCamera, x: Inquiry)
    requires multiset(camera.pollCommands) == PresentOf(camera.inquiriesByPropertyName)
    ensures multiset(camera.pollCommands)[x] == ValuesOf(camera.inquiriesByPropertyName)[Some(x)]
  {
    PresentOfCountsValues(camera.inquiriesByPropertyName, x);
  }
}
