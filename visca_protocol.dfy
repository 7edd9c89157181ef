/** What the camera classes see of the protocol engine: inquiries as opaque
    values, and a processor that accepts them through `EnqueueCommand`. */
module ViscaProtocol {
  import opened ViscaTypes

  /** A `ViscaInquiry` object, known here only by its identity. */
  datatype Inquiry = Inquiry(id: nat)

  /** A slot of an inquiry dictionary: the reference it holds may be null. */
  type InquiryTable = map<string, Option<Inquiry>>

  /** `Timeout.Infinite`: the period that keeps a timer from firing. */
  const Infinite: int32 := -1

  /** The protocol processor, seen only as the append-only log of what was
      handed to `EnqueueCommand`; framing, sockets and the queue behind it
      are not part of this model. */
  class ViscaProtocolProcessor {
    ghost var enqueued: seq<Option<Inquiry>>

    constructor ()
      ensures enqueued == []
    {
      enqueued := [];
    }

    method EnqueueCommand(command: Option<Inquiry>)
      modifies this
      ensures enqueued == old(enqueued) + [command]
    {
      enqueued := enqueued + [command];
    }
  }

  /** The values of a dictionary, one per key, in no particular order. */
  ghost function ValuesOf(m: InquiryTable): multiset<Option<Inquiry>>
    decreases |m|
  {
    if m == map[] then multiset{}
    else
      var k := AnyKey(m);
      RemoveOneKey(m, k);
      multiset{m[k]} + ValuesOf(m - {k})
  }

  /** Some key of a non-empty dictionary. */
  ghost function AnyKey(m: InquiryTable): (k: string)
    requires m != map[]
    ensures k in m
  {
    var k :| k in m; k
  }

  /** The inquiry a slot holds, if it is not null. */
  function Present(slot: Option<Inquiry>): (r: multiset<Inquiry>)
    ensures |r| <= 1
  {
    if slot.Some? then multiset{slot.value} else multiset{}
  }

  /** The non-null values of a dictionary, one per key holding one. */
  ghost function PresentOf(m: InquiryTable): multiset<Inquiry>
    decreases |m|
  {
    if m == map[] then multiset{}
    else
      var k := AnyKey(m);
      RemoveOneKey(m, k);
      Present(m[k]) + PresentOf(m - {k})
  }

  /** Removing a key from a dictionary removes exactly one entry. */
  lemma RemoveOneKey(m: InquiryTable, k: string)
    requires k in m
    ensures |m - {k}| == |m| - 1
  {
    assert (m - {k}).Keys == m.Keys - {k};
  }

  /** Taking any one key out of a dictionary takes its value out of `ValuesOf`,
      whichever key the definition happened to pick first. */
  lemma {:induction false} ValuesOfRemove(m: InquiryTable, k: string)
    requires k in m
    ensures ValuesOf(m) == multiset{m[k]} + ValuesOf(m - {k})
    decreases |m|
  {
    var j := AnyKey(m);
    if j != k {
      var mj, mk := m - {j}, m - {k};
      RemoveOneKey(m, j);
      RemoveOneKey(m, k);
      assert k in mj && mj[k] == m[k];
      assert j in mk && mk[j] == m[j];
      ValuesOfRemove(mj, k);
      ValuesOfRemove(mk, j);
      assert (mj - {k}).Keys == (mk - {j}).Keys;
      assert mj - {k} == mk - {j};
      var rest := ValuesOf(mj - {k});
      assert ValuesOf(m) == multiset{m[j]} + ValuesOf(mj);
      assert ValuesOf(mj) == multiset{m[k]} + rest;
      assert ValuesOf(mk) == multiset{m[j]} + rest;
    }
  }

  /** Taking any one key out of a dictionary takes its value, if non-null,
      out of `PresentOf`. */
  lemma {:induction false} PresentOfRemove(m: InquiryTable, k: string)
    requires k in m
    ensures PresentOf(m) == Present(m[k]) + PresentOf(m - {k})
    decreases |m|
  {
    var j := AnyKey(m);
    if j != k {
      var mj, mk := m - {j}, m - {k};
      RemoveOneKey(m, j);
      RemoveOneKey(m, k);
      assert k in mj && mj[k] == m[k];
      assert j in mk && mk[j] == m[j];
      PresentOfRemove(mj, k);
      PresentOfRemove(mk, j);
      assert (mj - {k}).Keys == (mk - {j}).Keys;
      assert mj - {k} == mk - {j};
      var rest := PresentOf(mj - {k});
      assert PresentOf(m) == Present(m[j]) + PresentOf(mj);
      assert PresentOf(mj) == Present(m[k]) + rest;
      assert PresentOf(mk) == Present(m[j]) + rest;
    }
  }

  /** Appending to a log that extends another extends it by one more. The
      step is plain associativity, stated once here so that the enqueue
      loops do not have to rediscover it. */
  lemma AppendToLog(log: seq<Option<Inquiry>>, added: seq<Option<Inquiry>>, command: Option<Inquiry>)
    ensures log + added + [command] == log + (added + [command])
  {
  }

  /** One step of enumerating a dictionary's values: moving the value of a
      key from the dictionary to the end of what was taken so far keeps
      their union, and shrinks the dictionary. */
  lemma TakeValue(taken: seq<Option<Inquiry>>, rest: InquiryTable, k: string)
    requires k in rest
    ensures multiset(taken + [rest[k]]) + ValuesOf(rest - {k}) == multiset(taken) + ValuesOf(rest)
    ensures |rest - {k}| < |rest|
  {
    ValuesOfRemove(rest, k);
    RemoveOneKey(rest, k);
  }

  /** One step of gathering a dictionary's non-null values: appending the
      value of a key, if it is not null, to what was gathered so far and
      taking the key out keeps their union, and shrinks the dictionary. */
  lemma TakePresent(taken: seq<Inquiry>, rest: InquiryTable, k: string)
    requires k in rest
    ensures multiset(taken + if rest[k].Some? then [rest[k].value] else []) + PresentOf(rest - {k})
            == multiset(taken) + PresentOf(rest)
    ensures |rest - {k}| < |rest|
  {
    PresentOfRemove(rest, k);
    RemoveOneKey(rest, k);
  }

  /** A dictionary has one value per key. */
  lemma {:induction false} ValuesOfSize(m: InquiryTable)
    ensures |ValuesOf(m)| == |m|
    decreases |m|
  {
    if m != map[] {
      var k := AnyKey(m);
      RemoveOneKey(m, k);
      ValuesOfSize(m - {k});
    }
  }

  /** Each non-null inquiry occurs in `PresentOf` as often as its reference
      occurs among all the values: enqueueing every value of a dictionary
      enqueues every one of its non-null inquiries, and the nulls besides. */
  lemma {:induction false} PresentOfCountsValues(m: InquiryTable, x: Inquiry)
    ensures PresentOf(m)[x] == ValuesOf(m)[Some(x)]
    decreases |m|
  {
    if m != map[] {
      var k := AnyKey(m);
      RemoveOneKey(m, k);
      PresentOfCountsValues(m - {k}, x);
      assert PresentOf(m)[x] == Present(m[k])[x] + PresentOf(m - {k})[x];
      assert ValuesOf(m)[Some(x)] == multiset{m[k]}[Some(x)] + ValuesOf(m - {k})[Some(x)];
    }
  }
}
