/** The producer: per-partition buffers, sequence counters, and a transaction of its own to
    keep. What the network answers is a parameter of each call; a ghost trace records what the
    producer did, and `Valid` says how the fields follow from it. */
module Producer {
  import opened Wrappers
  import opened Records
  import opened Order
  import opened ProducerRules

  type Batches = map<Partition, PendingBatch>

  /** The range a stamp reserves. */
  function Range(config: Config, batches: Batches, left: set<Partition>, k: Partition): nat {
    if k in left && config.idempotent then Min(|BufferAt(batches, k).records|, I32_MAX) else 0
  }

  /** Counters hold what was acknowledged, and what is stamped in `left` and still on its way. */
  ghost predicate Counted(sequences: map<Partition, int>, t: Trace, config: Config, batches: Batches, left: set<Partition>) {
    forall k :: SequenceAt(sequences, k) == Wrap32(AckedOf(t, k) + Range(config, batches, left, k))
  }

  predicate Weighed(pending: Batches) {
    forall k :: k in pending ==> pending[k].records != [] && pending[k].estimatedBytes == EstimatedBytes(pending[k].records)
  }

  /** The state machine, the announced partitions and the identity are the trace's. */
  predicate Tracking(config: Config, t: Trace, state: TransactionState, announced: set<Partition>, identity: Option<Identity>) {
    && state == StateOf(t, Start(config)) && Lawful(t, config)
    && (IdentityOf(t).Some? ==> identity == IdentityOf(t))
    && (state.Disabled? <==> config.transactionalId.None?)
    && (!state.Disabled? ==> announced == AnnouncedOf(t))
  }

  predicate Following(config: Config, t: Trace, state: TransactionState, announced: set<Partition>, identity: Option<Identity>) {
    Tracking(config, t, state, announced, identity) && (state.Open? ==> AllDelivered(t))
  }

  /** A transactional producer has an id exactly once it has claimed one. */
  predicate Identified(config: Config, state: TransactionState, identity: Option<Identity>) {
    && (state.Uninitialized? ==> identity.None?)
    && (!state.Uninitialized? && !state.Disabled? ==> identity.Some? && config.acks == ACKS_ALL)
  }

  /** What is still in a partition's hands: drained and not yet answered for, or buffered. */
  function InHand(drained: Batches, left: set<Partition>, pending: Batches, k: Partition): seq<Record> {
    if k in left then BufferAt(drained, k).records else BufferAt(pending, k).records
  }

  ghost predicate AllThere(t: Trace, drained: Batches, left: set<Partition>, pending: Batches) {
    forall k :: OwedOf(t, k) == FlushedOf(t, k) + InHand(drained, left, pending, k)
  }

  /** The stamp a batch for `k` has to carry. */
  predicate RightStamp(t: Trace, k: Partition, stamp: Option<BatchStamp>, config: Config, identity: Option<Identity>, state: TransactionState) {
    if config.idempotent then
      identity.Some? &&
      stamp == Some(BatchStamp(identity.value.id, identity.value.epoch, Wrap32(AckedOf(t, k)), !state.Disabled?))
    else stamp == None
  }

  // ---- one more event -----------------------------------------------------------------

  lemma AckedAfter(t: Trace, e: Event, k: Partition)
    requires e.Delivered?
    ensures AckedOf(t + [e], k) == AckedOf(t, k) + if k == e.key && e.stamp.Some? && e.ok then |e.records| else 0
  {
    Snoc(t, e);
  }

  /** An acknowledged batch turns its reserved range into acknowledged records. */
  lemma AckMovesCounter(sequences: map<Partition, int>, t: Trace, config: Config, batches: Batches, left: set<Partition>, e: Event)
    requires e.Delivered? && e.ok && Counted(sequences, t, config, batches, left)
    requires e.stamp.Some? == config.idempotent && e.key in left && e.records == BufferAt(batches, e.key).records && |e.records| <= I32_MAX
    ensures Counted(sequences, t + [e], config, batches, left - {e.key})
  {
    forall k ensures SequenceAt(sequences, k) == Wrap32(AckedOf(t + [e], k) + Range(config, batches, left - {e.key}, k)) {
      AckedAfter(t, e, k);
      assert SequenceAt(sequences, k) == Wrap32(AckedOf(t, k) + Range(config, batches, left, k));
    }
  }

  /** A failed one hands its range back. */
  lemma FailureMovesCounter(sequences: map<Partition, int>, t: Trace, config: Config, batches: Batches, left: set<Partition>, e: Event)
    requires e.Delivered? && !e.ok && Counted(sequences, t, config, batches, left)
    ensures config.idempotent ==> Counted(sequences[e.key := Wrap32(AckedOf(t, e.key))], t + [e], config, batches, left - {e.key})
    ensures !config.idempotent ==> Counted(sequences, t + [e], config, batches, left - {e.key})
  {
    var after := if config.idempotent then sequences[e.key := Wrap32(AckedOf(t, e.key))] else sequences;
    forall k ensures SequenceAt(after, k) == Wrap32(AckedOf(t + [e], k) + Range(config, batches, left - {e.key}, k)) {
      AckedAfter(t, e, k);
      assert SequenceAt(sequences, k) == Wrap32(AckedOf(t, k) + Range(config, batches, left, k));
    }
  }

  lemma StampReserves(sequences: map<Partition, int>, t: Trace, config: Config, batches: Batches, left: set<Partition>, key: Partition)
    requires Counted(sequences, t, config, batches, left) && key !in left && config.idempotent
    ensures var n := Min(|BufferAt(batches, key).records|, I32_MAX);
            Counted(sequences[key := Wrap32(SequenceAt(sequences, key) + n)], t, config, batches, left + {key})
    ensures SequenceAt(sequences, key) == Wrap32(AckedOf(t, key))
  {
    WrapAdds(AckedOf(t, key), Min(|BufferAt(batches, key).records|, I32_MAX));
  }

  lemma Continues(config: Config, t: Trace, state: TransactionState, announced: set<Partition>, identity: Option<Identity>, e: Event)
    requires Tracking(config, t, state, announced, identity) && Allowed(t, config, e)
    requires e.Delivered? || Following(config, t, state, announced, identity)
    requires e.Delivered? && e.stamp.Some? ==> identity == Some(Identity(e.stamp.value.producerId, e.stamp.value.producerEpoch))
    ensures e.Enqueued? || e.Cleared? ==> Following(config, t + [e], state, announced, identity)
    ensures e.Delivered? || e.OffsetsSent? ==> Tracking(config, t + [e], state, announced, identity)
    ensures e.Delivered? || e.OffsetsSent? ==> AllDelivered(t + [e]) == (e.ok && AllDelivered(t))
    ensures e.Announced? ==> Following(config, t + [e], state, announced + e.keys, identity)
    ensures e.Ended? && e.ok ==> Following(config, t + [e], Ready, {}, identity)
    ensures e.Ended? && !e.ok ==> Tracking(config, t + [e], state, announced, identity)
    ensures e.Claimed? ==> Following(config, t + [e], Ready, {}, Some(e.identity))
    ensures e.Began? ==> Following(config, t + [e], Open, announced, identity)
  {
    Snoc(t, e);
  }

  /** A failure that poisons makes the state follow again, whatever was delivered before. */
  lemma PoisonFollows(config: Config, t: Trace, state: TransactionState, announced: set<Partition>, identity: Option<Identity>, error: ClientError)
    requires Tracking(config, t, state, announced, identity)
    requires state.Disabled? || state.Open? || state.Abortable? || state.Fenced?
    ensures Following(config, t + [Poisoned(error)], AfterFailure(state, error), announced, identity)
  {
    Snoc(t, Poisoned(error));
  }

  /** Events that hand over, deliver or drop no buffered record. */
  predicate Quiet(e: Event) {
    !e.Enqueued? && !e.Cleared? && (e.Delivered? ==> !e.buffered || !e.ok)
  }

  lemma QuietKeepsRecords(t: Trace, e: Event, drained: Batches, left: set<Partition>, pending: Batches)
    requires Quiet(e) && AllThere(t, drained, left, pending)
    ensures AllThere(t + [e], drained, left, pending)
  {
    Snoc(t, e);
  }

  lemma OneMore<T>(todo: set<T>, done: set<T>, x: T)
    requires todo !! done && x in todo
    ensures (todo - {x}) !! (done + {x})
    ensures (todo - {x}) + (done + {x}) == todo + done
  {
  }

  lemma Drain(t: Trace, t': Trace, batches: Batches)
    requires SameRecords(t, t') && AllThere(t, map[], {}, batches)
    ensures AllThere(t', batches, batches.Keys, map[])
  {
    forall k ensures OwedOf(t', k) == FlushedOf(t', k) + InHand(batches, batches.Keys, map[], k) {
      assert OwedOf(t, k) == FlushedOf(t, k) + InHand(map[], {}, batches, k);
    }
  }

  lemma SameKeepsRecords(t: Trace, t': Trace, pending: Batches)
    requires SameRecords(t, t') && AllThere(t, map[], {}, pending)
    ensures AllThere(t', map[], {}, pending)
  {
    forall k ensures OwedOf(t', k) == FlushedOf(t', k) + InHand(map[], {}, pending, k) {
      assert OwedOf(t, k) == FlushedOf(t, k) + InHand(map[], {}, pending, k);
    }
  }

  lemma SameKeepsCounters(sequences: map<Partition, int>, t: Trace, t': Trace, config: Config, batches: Batches)
    requires SameRecords(t, t') && Counted(sequences, t, config, map[], {})
    ensures Counted(sequences, t', config, batches, {})
  {
    forall k ensures SequenceAt(sequences, k) == Wrap32(AckedOf(t', k) + Range(config, batches, {}, k)) {
      assert SequenceAt(sequences, k) == Wrap32(AckedOf(t, k) + Range(config, map[], {}, k));
    }
  }

  lemma EmptyRange(sequences: map<Partition, int>, t: Trace, config: Config, batches: Batches, key: Partition)
    requires Counted(sequences, t, config, batches, {key} - {key})
    ensures Counted(sequences, t, config, map[], {})
  {
  }

  lemma NothingLeft(sequences: map<Partition, int>, t: Trace, config: Config, batches: Batches, pending: Batches, whole: bool)
    requires Counted(sequences, t, config, batches, {}) && (whole ==> AllThere(t, batches, {}, pending))
    ensures Counted(sequences, t, config, map[], {}) && (whole ==> AllThere(t, map[], {}, pending))
  {
    forall k | whole ensures OwedOf(t, k) == FlushedOf(t, k) + InHand(map[], {}, pending, k) {
      assert OwedOf(t, k) == FlushedOf(t, k) + InHand(batches, {}, pending, k);
    }
  }

  /** Keeping one buffer out of several loses records; out of one, none. */
  lemma OneSurvives(t: Trace, t': Trace, batches: Batches, key: Partition)
    requires SameRecords(t, t') && AllThere(t, map[], {}, batches) && Weighed(batches) && key in batches
    ensures AllThere(t', map[], {}, map[key := batches[key]]) <==> |batches| <= 1
  {
    var kept := map[key := batches[key]];
    var others := batches.Keys - {key};
    assert |others| == |batches.Keys| - 1;
    if others == {} {
      assert batches == kept by {
        forall k | k in batches ensures k == key {
          assert k !in others;
        }
      }
      SameKeepsRecords(t, t', batches);
    } else {
      var lost := HasMember(others);
      assert OwedOf(t, lost) == FlushedOf(t, lost) + InHand(map[], {}, batches, lost);
      assert |InHand(map[], {}, batches, lost)| > 0;
      assert InHand(map[], {}, kept, lost) == [];
      assert OwedOf(t', lost) != FlushedOf(t', lost) + InHand(map[], {}, kept, lost);
    }
  }

  ghost predicate PutBack(pending: Batches, before: Batches, batches: Batches, done: set<Partition>) {
    && pending.Keys == before.Keys + done
    && (forall k :: k in before ==> k in pending && pending[k] == before[k])
    && (forall k :: k in done ==> k in pending && k in batches && pending[k] == batches[k])
  }

  lemma PutBackMore(pending: Batches, before: Batches, batches: Batches, done: set<Partition>, key: Partition)
    requires PutBack(pending, before, batches, done) && key in batches && key !in done && key !in before
    ensures key !in pending && PutBack(pending[key := batches[key]], before, batches, done + {key})
  {
  }

  function Only(batches: Batches, keys: set<Partition>): Batches {
    map k | k in keys && k in batches :: batches[k]
  }

  /** From `t` to `t'`, exactly `records` left the buffer of `key`. */
  ghost predicate Left(t: Trace, t': Trace, key: Partition, records: seq<Record>) {
    && t <= t' && EndsOf(t') == EndsOf(t)
    && forall k :: OwedOf(t', k) == OwedOf(t, k) && FlushedOf(t', k) == FlushedOf(t, k) + if k == key then records else []
  }

  /** The last thing that happened was that the broker took `records` for `key`. */
  predicate JustSent(t: Trace, key: Partition, records: seq<Record>, buffered: bool) {
    t != [] &&
    var e := t[|t| - 1];
    e.Delivered? && e.key == key && e.records == records && e.buffered == buffered && e.ok
  }

  lemma AttemptLeaves(t: Trace, e: Event)
    requires e.Delivered?
    ensures Left(t, t + [e], e.key, if e.buffered && e.ok then e.records else [])
  {
    Snoc(t, e);
  }

  lemma LeftThen(t: Trace, t': Trace, t'': Trace, key: Partition)
    requires Left(t, t', key, []) && SameRecords(t', t'') && t' <= t'' && EndsOf(t'') == EndsOf(t')
    ensures Left(t, t'', key, [])
  {
    forall k ensures OwedOf(t'', k) == OwedOf(t, k) && FlushedOf(t'', k) == FlushedOf(t, k) + [] {
      assert OwedOf(t'', k) == OwedOf(t', k) && FlushedOf(t'', k) == FlushedOf(t', k);
    }
  }

  lemma LeftNothing(t: Trace, t': Trace, key: Partition)
    requires SameRecords(t, t') && t <= t' && EndsOf(t') == EndsOf(t)
    ensures Left(t, t', key, [])
  {
  }

  lemma LeftFrom(t: Trace, t': Trace, t'': Trace, key: Partition, records: seq<Record>)
    requires SameRecords(t, t') && t <= t' && EndsOf(t') == EndsOf(t) && Left(t', t'', key, records)
    ensures Left(t, t'', key, records)
  {
    forall k
      ensures OwedOf(t'', k) == OwedOf(t, k)
      ensures FlushedOf(t'', k) == FlushedOf(t, k) + if k == key then records else []
    {
      assert OwedOf(t'', k) == OwedOf(t', k);
    }
  }

  function WithRecord(slot: PendingBatch, record: Record): PendingBatch {
    PendingBatch(slot.records + [record], slot.estimatedBytes + EstimateRecordSize(record))
  }

  lemma StaysWeighed(pending: Batches, key: Partition, record: Record)
    requires Weighed(pending)
    ensures Weighed(pending[key := WithRecord(BufferAt(pending, key), record)])
  {
    EstimateSnoc(BufferAt(pending, key).records, record);
  }

  /** The caller handed over exactly `record`, for `key`. */
  ghost predicate HandedOver(t: Trace, t': Trace, key: Partition, record: Record) {
    && t <= t' && EndsOf(t') == EndsOf(t)
    && forall k :: OwedOf(t', k) == OwedOf(t, k) + if k == key then [record] else []
  }

  lemma EnqueuedOne(t: Trace, key: Partition, record: Record)
    ensures HandedOver(t, t + [Enqueued(key, record)], key, record)
  {
    Snoc(t, Enqueued(key, record));
  }

  lemma EnqueuedThen(t: Trace, t': Trace, t'': Trace, key: Partition, record: Record, records: seq<Record>)
    requires HandedOver(t, t', key, record) && Left(t', t'', key, records)
    ensures HandedOver(t, t'', key, record)
  {
    forall k ensures OwedOf(t'', k) == OwedOf(t, k) + if k == key then [record] else [] {
      assert OwedOf(t'', k) == OwedOf(t', k);
    }
  }

  lemma EnqueueKeeps(config: Config, t: Trace, state: TransactionState, announced: set<Partition>, identity: Option<Identity>, sequences: map<Partition, int>,
                     pending: Batches, key: Partition, record: Record, grown: PendingBatch)
    requires Following(config, t, state, announced, identity) && Counted(sequences, t, config, map[], {})
    requires grown.records == BufferAt(pending, key).records + [record]
    ensures Following(config, t + [Enqueued(key, record)], state, announced, identity)
    ensures Counted(sequences, t + [Enqueued(key, record)], config, map[], {})
    ensures AllThere(t, map[], {}, pending) ==> AllThere(t + [Enqueued(key, record)], map[], {}, pending[key := grown])
  {
    var e := Enqueued(key, record);
    Snoc(t, e);
    Continues(config, t, state, announced, identity, e);
    forall k | AllThere(t, map[], {}, pending)
      ensures OwedOf(t + [e], k) == FlushedOf(t + [e], k) + InHand(map[], {}, pending[key := grown], k)
    {
      assert OwedOf(t, k) == FlushedOf(t, k) + InHand(map[], {}, pending, k);
      assert FlushedOf(t, k) + (BufferAt(pending, k).records + [record]) == FlushedOf(t, k) + BufferAt(pending, k).records + [record];
    }
  }

  /** Removing what was delivered from the buffer balances the ledger. */
  lemma LeftKeepsRecords(t: Trace, t': Trace, key: Partition, records: seq<Record>, pending: Batches, pending': Batches)
    requires Left(t, t', key, records) && AllThere(t, map[], {}, pending)
    requires forall k :: BufferAt(pending, k).records == (if k == key then records else []) + BufferAt(pending', k).records
    ensures AllThere(t', map[], {}, pending')
  {
    forall k ensures OwedOf(t', k) == FlushedOf(t', k) + InHand(map[], {}, pending', k) {
      assert OwedOf(t, k) == FlushedOf(t, k) + InHand(map[], {}, pending, k);
      assert FlushedOf(t, k) + ((if k == key then records else []) + BufferAt(pending', k).records)
          == (FlushedOf(t, k) + if k == key then records else []) + BufferAt(pending', k).records;
    }
  }

  /** What becomes of one batch once its partition is claimed. */
  function ClaimedOutcome(config: Config, state: TransactionState, identity: Option<Identity>,
                          key: Partition, records: seq<Record>, answers: Answers): Result<int, ClientError> {
    var refusal := StampFailure(config, state, identity, answers.identity);
    if refusal.Some? then Err(refusal.value) else DeliveryOf(records, answers.delivery(key))
  }

  /** What becomes of one batch sent on its own. */
  function SingleOutcome(config: Config, state: TransactionState, announced: set<Partition>, identity: Option<Identity>,
                         key: Partition, records: seq<Record>, answers: Answers): Result<int, ClientError> {
    var claim := ClaimAnswer(state, announced, {key}, answers.claim);
    if claim.Err? then Err(claim.error) else ClaimedOutcome(config, state, identity, key, records, answers)
  }

  /** A flush drops buffers when several are drained and the first stamp is refused. */
  predicate LosesBuffers(config: Config, pending: Batches, state: TransactionState, identity: Option<Identity>, answers: Answers) {
    |pending| > 1 && state.Disabled? && StampFailure(config, state, identity, answers.identity).Some?
  }

  // ---- what a flush must end with -----------------------------------------------------

  function Outcome(batches: Batches, answers: Answers, k: Partition): Result<int, ClientError>
    requires k in batches
  {
    DeliveryOf(batches[k].records, answers.delivery(k))
  }

  /** Exactly the failed batches among `done` are buffered again, as they were. */
  ghost predicate Returned(pending: Batches, batches: Batches, answers: Answers, done: set<Partition>)
    requires done <= batches.Keys
  {
    && (forall k :: k in pending <==> k in done && Outcome(batches, answers, k).Err?)
    && (forall k :: k in pending ==> k in batches && pending[k] == batches[k])
  }

  /** The failure to report among `done`: that of the lowest key. */
  ghost predicate Lowest(failure: Option<(Partition, ClientError)>, batches: Batches, answers: Answers, done: set<Partition>)
    requires done <= batches.Keys
  {
    && (failure.None? ==> forall k :: k in done ==> Outcome(batches, answers, k).Ok?)
    && (failure.Some? ==>
          && failure.value.0 in done && Outcome(batches, answers, failure.value.0) == Err(failure.value.1)
          && forall k :: k in done && Outcome(batches, answers, k).Err? ==> k == failure.value.0 || KeyBefore(failure.value.0, k))
  }

  /** The deliveries among `done`, in key order. */
  ghost predicate Reported(ds: seq<Delivery>, batches: Batches, answers: Answers, done: set<Partition>)
    requires done <= batches.Keys
  {
    && SortedByKey(ds)
    && forall d :: Listed(ds, d) <==>
                   d.key in done && Outcome(batches, answers, d.key) == Ok(d.baseOffset) && d.records == |batches[d.key].records|
  }

  /** Whether a flush of `pending` will succeed: its partitions are claimed, its batches stamped,
      and every one of them delivered. */
  ghost predicate FlushSucceeds(config: Config, pending: Batches, state: TransactionState, announced: set<Partition>, identity: Option<Identity>,
                                answers: Answers) {
    pending == map[] ||
    (&& ClaimAnswer(state, announced, pending.Keys, answers.claim).Ok?
     && StampFailure(config, state, identity, answers.identity).None?
     && forall k :: k in pending ==> Outcome(pending, answers, k).Ok?)
  }

  lemma ReturnedMore(pending: Batches, batches: Batches, answers: Answers, done: set<Partition>, key: Partition)
    requires done <= batches.Keys && key in batches && key !in done && Returned(pending, batches, answers, done)
    ensures key !in pending
    ensures Returned(if Outcome(batches, answers, key).Err? then pending[key := batches[key]] else pending, batches, answers, done + {key})
  {
  }

  lemma ReturnedWeighed(pending: Batches, batches: Batches, answers: Answers, done: set<Partition>)
    requires done <= batches.Keys && Weighed(batches) && Returned(pending, batches, answers, done)
    ensures Weighed(pending)
  {
  }

  lemma LowestMore(failure: Option<(Partition, ClientError)>, batches: Batches, answers: Answers, done: set<Partition>, key: Partition)
    requires done <= batches.Keys && key in batches && key !in done && Lowest(failure, batches, answers, done)
    ensures var o := Outcome(batches, answers, key);
            Lowest(if o.Err? && (failure.None? || KeyBefore(key, failure.value.0)) then Some((key, o.error)) else failure, batches, answers, done + {key})
  {
    if failure.Some? {
      KeyBeforeIsTotal(key, failure.value.0);
      forall k | k in done && Outcome(batches, answers, k).Err? && KeyBefore(key, failure.value.0) ensures KeyBefore(key, k) {
        if k != failure.value.0 {
          KeyBeforeIsTransitive(key, failure.value.0, k);
        }
      }
    }
  }

  lemma ReportedMore(ds: seq<Delivery>, batches: Batches, answers: Answers, done: set<Partition>, key: Partition)
    requires done <= batches.Keys && key in batches && key !in done && Reported(ds, batches, answers, done)
    ensures var o := Outcome(batches, answers, key);
            Reported(if o.Ok? then Insert(ds, Delivery(key, o.value, |batches[key].records|)) else ds, batches, answers, done + {key})
  {
    forall i | 0 <= i < |ds| ensures ds[i].key != key {
      assert Listed(ds, ds[i]);
    }
    var o := Outcome(batches, answers, key);
    if o.Ok? {
      InsertSorts(ds, Delivery(key, o.value, |batches[key].records|));
    }
  }

  /** Batches of `left` are stamped for the trace as it stands. */
  ghost predicate StampedFor(config: Config, state: TransactionState, t: Trace, stamps: map<Partition, Option<BatchStamp>>, left: set<Partition>,
                             identity: Option<Identity>) {
    forall k :: k in left ==> k in stamps && RightStamp(t, k, stamps[k], config, identity, state)
  }

  lemma StampedForLess(config: Config, state: TransactionState, t: Trace, stamps: map<Partition, Option<BatchStamp>>, left: set<Partition>,
                       identity: Option<Identity>, e: Event)
    requires e.Delivered? && StampedFor(config, state, t, stamps, left, identity)
    ensures StampedFor(config, state, t + [e], stamps, left - {e.key}, identity)
  {
    Snoc(t, e);
  }

  ghost predicate SameRecords(t: Trace, t': Trace) {
    forall k :: AckedOf(t', k) == AckedOf(t, k) && FlushedOf(t', k) == FlushedOf(t, k) && OwedOf(t', k) == OwedOf(t, k)
  }

  /** The trace went on, and nothing was handed over or thrown away. */
  ghost predicate Extended(t: Trace, t': Trace) {
    t <= t' && forall k :: OwedOf(t', k) == OwedOf(t, k)
  }

  /** ... nor was the coordinator asked to end the transaction. */
  ghost predicate Grown(t: Trace, t': Trace) {
    Extended(t, t') && EndsOf(t') == EndsOf(t)
  }

  lemma GrownBy(t: Trace, e: Event)
    requires !e.Enqueued? && !e.Cleared?
    ensures Extended(t, t + [e]) && (!e.Ended? ==> Grown(t, t + [e]))
  {
    Snoc(t, e);
  }

  lemma GrownOn(a: Trace, b: Trace, c: Trace)
    requires Grown(a, b) && Grown(b, c)
    ensures Grown(a, c)
  {
    ExtendedOn(a, b, c);
  }

  lemma ExtendedOn(a: Trace, b: Trace, c: Trace)
    requires Extended(a, b) && Extended(b, c)
    ensures Extended(a, c)
  {
    forall k ensures OwedOf(c, k) == OwedOf(a, k) {
      assert OwedOf(c, k) == OwedOf(b, k);
    }
  }

  lemma BookkeepingKeepsRecords(t: Trace, e: Event)
    requires e.Began? || e.Announced? || e.OffsetsSent? || e.Poisoned? || e.Ended?
    ensures SameRecords(t, t + [e])
  {
    Snoc(t, e);
  }

  lemma DeliveryKeepsRecords(t: Trace, e: Event, drained: Batches, left: set<Partition>, pending: Batches)
    requires e.Delivered? && e.buffered && AllThere(t, drained, left, pending)
    requires e.key in left && e.key in drained && e.records == drained[e.key].records && left !! pending.Keys
    ensures e.ok ==> AllThere(t + [e], drained, left - {e.key}, pending)
    ensures !e.ok ==> AllThere(t + [e], drained, left - {e.key}, pending[e.key := drained[e.key]])
  {
    Snoc(t, e);
    forall k | !e.ok
      ensures OwedOf(t + [e], k) == FlushedOf(t + [e], k) + InHand(drained, left - {e.key}, pending[e.key := drained[e.key]], k)
    {
      assert OwedOf(t, k) == FlushedOf(t, k) + InHand(drained, left, pending, k);
    }
  }

  class Producer {
    const config: Config
    var pending: Batches
    var identity: Option<Identity>
    var sequences: map<Partition, int>
    var txnState: TransactionState
    var txnPartitions: set<Partition>
    ghost var trace: Trace

    /** Everything but the counters: true also while stamped batches are on their way. */
    ghost predicate Sound()
      reads this
    {
      && Following(config, trace, txnState, txnPartitions, identity)
      && Identified(config, txnState, identity)
      && (identity.None? ==> sequences == map[])
      && Weighed(pending)
    }

    /** Between calls each counter equals the records acknowledged under this identity. */
    ghost predicate Valid()
      reads this
    {
      Sound() && Counted(sequences, trace, config, map[], {})
    }

    /** Per partition: delivered records, then buffered ones, are those handed over. */
    ghost predicate Conserved()
      reads this
    {
      AllThere(trace, map[], {}, pending)
    }

    constructor (config: Config)
      ensures Valid() && Conserved()
      ensures this.config == config && pending == map[] && trace == []
    {
      this.config := config;
      pending := map[];
      identity := None;
      sequences := map[];
      txnState := if config.transactionalId.Some? then Uninitialized else Disabled;
      txnPartitions := {};
      trace := [];
    }

    method Poison(e: ClientError)
      requires Tracking(config, trace, txnState, txnPartitions, identity)
      requires txnState.Disabled? || txnState.Open? || txnState.Abortable? || txnState.Fenced?
      modifies `txnState, `trace
      ensures txnState == AfterFailure(old(txnState), e) && trace == old(trace) + [Poisoned(e)]
      ensures Following(config, trace, txnState, txnPartitions, identity) && SameRecords(old(trace), trace)
    {
      PoisonFollows(config, trace, txnState, txnPartitions, identity, e);
      BookkeepingKeepsRecords(trace, Poisoned(e));
      txnState := AfterFailure(txnState, e);
      trace := trace + [Poisoned(e)];
    }

    /** The end of a call whose delivery failed. */
    method Fail(e: ClientError)
      requires Tracking(config, trace, txnState, txnPartitions, identity) && Identified(config, txnState, identity)
      requires (identity.None? ==> sequences == map[]) && Weighed(pending) && Counted(sequences, trace, config, map[], {})
      requires txnState.Disabled? || txnState.Open? || txnState.Abortable? || txnState.Fenced?
      modifies `txnState, `trace
      ensures Valid() && SameRecords(old(trace), trace) && Grown(old(trace), trace)
      ensures txnState == AfterFailure(old(txnState), e) && (old(Conserved()) ==> Conserved())
    {
      GrownBy(trace, Poisoned(e));
      Poison(e);
      SameKeepsCounters(sequences, old(trace), trace, config, map[]);
      if old(Conserved()) {
        SameKeepsRecords(old(trace), trace, pending);
      }
    }

    // ---- the calls that move the state machine ----------------------------------------

    method InitTransactions(answer: Result<Identity, ClientError>) returns (r: Result<(), ClientError>)
      requires Valid()
      modifies `identity, `sequences, `txnState, `txnPartitions, `trace
      ensures Valid() && (old(Conserved()) ==> Conserved())
      ensures r.Ok? <==> old(txnState).Uninitialized? && config.acks == ACKS_ALL && answer.Ok?
      ensures r.Ok? ==> txnState == Ready && identity == Some(answer.value) && sequences == map[]
      ensures r.Ok? ==> trace == old(trace) + [Claimed(answer.value)]
      ensures r.Err? ==> txnState == old(txnState) && identity == old(identity) && sequences == old(sequences) && trace == old(trace)
    {
      if config.transactionalId.None? || !txnState.Uninitialized? {
        return Err(TransactionError);
      }
      var _ :- CheckIdempotentAcks(config.acks);
      var id :- answer;
      Continues(config, trace, txnState, txnPartitions, identity, Claimed(id));
      if Conserved() {
        QuietKeepsRecords(trace, Claimed(id), map[], {}, pending);
      }
      Snoc(trace, Claimed(id));
      identity := Some(id);
      sequences := map[];
      txnPartitions := {};
      txnState := Ready;
      trace := trace + [Claimed(answer.value)];
      r := Ok(());
    }

    method BeginTransaction() returns (r: Result<(), ClientError>)
      requires Valid()
      modifies `txnState, `trace
      ensures Valid() && (old(Conserved()) ==> Conserved())
      ensures r.Ok? <==> old(txnState).Ready?
      ensures txnState == (if r.Ok? then Open else old(txnState))
      ensures trace == (if r.Ok? then old(trace) + [Began] else old(trace))
    {
      var s :- AfterBegin(txnState);
      Continues(config, trace, txnState, txnPartitions, identity, Began);
      BookkeepingKeepsRecords(trace, Began);
      txnState := s;
      trace := trace + [Began];
      r := Ok(());
    }

    /** Announce to the coordinator those of `keys` the transaction has not claimed yet. */
    method ClaimPartitions(keys: set<Partition>, answer: Result<(), ClientError>) returns (r: Result<(), ClientError>)
      requires Sound()
      modifies `txnState, `txnPartitions, `trace
      ensures Sound() && Grown(old(trace), trace) && SameRecords(old(trace), trace)
      ensures r == ClaimAnswer(old(txnState), old(txnPartitions), keys, answer)
      ensures r.Ok? ==> txnState == old(txnState) && (txnState.Disabled? || (txnState.Open? && keys <= AnnouncedOf(trace)))
      ensures txnPartitions == if r.Ok? && txnState.Open? then old(txnPartitions) + keys else old(txnPartitions)
      ensures r.Err? ==> trace == old(trace) || trace == old(trace) + [Poisoned(r.error)]
      ensures r.Err? ==> txnState == if old(txnState).Open? then AfterFailure(Open, r.error) else old(txnState)
    {
      if txnState.Disabled? {
        return Ok(());
      }
      var _ :- RequireProducible(txnState);
      if keys <= txnPartitions {
        return Ok(());
      }
      var unannounced := keys - txnPartitions;
      if answer.Err? {
        Poison(answer.error);
        return answer;
      }
      Continues(config, trace, txnState, txnPartitions, identity, Announced(unannounced));
      BookkeepingKeepsRecords(trace, Announced(unannounced));
      txnPartitions := txnPartitions + unannounced;
      trace := trace + [Announced(unannounced)];
      r := answer;
    }

    method EndTransaction(committed: bool, answer: Result<(), ClientError>) returns (r: Result<(), ClientError>)
      requires Valid()
      requires txnState.Open? || (!committed && txnState.Abortable?)
      modifies `txnState, `txnPartitions, `trace
      ensures Valid() && SameRecords(old(trace), trace) && Extended(old(trace), trace)
      ensures r == answer && EndsOf(trace) == EndsOf(old(trace)) + [Ended(committed, r.Ok?)]
      ensures r.Ok? ==> txnState == Ready && txnPartitions == {} && trace == old(trace) + [Ended(committed, true)]
      ensures r.Err? ==> txnState == AfterFailure(old(txnState), r.error) && trace == old(trace) + [Ended(committed, false), Poisoned(r.error)]
    {
      var e := Ended(committed, answer.Ok?);
      Continues(config, trace, txnState, txnPartitions, identity, e);
      BookkeepingKeepsRecords(trace, e);
      GrownBy(trace, e);
      Snoc(trace, e);
      trace := trace + [e];
      if answer.Err? {
        Snoc(trace, Poisoned(answer.error));
        Poison(answer.error);
        return answer;
      }
      txnPartitions := {};
      txnState := Ready;
      r := answer;
    }

    /** Throw the transaction away, and what is still buffered with it. */
    method AbortTransaction(answer: Result<(), ClientError>) returns (r: Result<(), ClientError>)
      requires Valid()
      modifies `pending, `txnState, `txnPartitions, `trace
      ensures Valid()
      ensures old(txnState).Open? || old(txnState).Abortable? ==>
                && r == answer && pending == map[] && Conserved()
                && txnState == (if r.Ok? then Ready else AfterFailure(old(txnState), r.error))
      ensures !old(txnState).Open? && !old(txnState).Abortable? ==>
                r.Err? && pending == old(pending) && txnState == old(txnState) && trace == old(trace)
      ensures sequences == old(sequences)
      ensures old(trace) <= trace && forall k :: FlushedOf(trace, k) == FlushedOf(old(trace), k)
      ensures old(txnState).Open? || old(txnState).Abortable? ==>
                trace == old(trace) + [Cleared] + [Ended(false, r.Ok?)] + if r.Ok? then [] else [Poisoned(r.error)]
    {
      if !txnState.Open? && !txnState.Abortable? {
        return Err(TransactionError);
      }
      ClearBuffers();
      ghost var cleared := trace;
      r := EndTransaction(false, answer);
      SameKeepsRecords(cleared, trace, pending);
    }

    /** What is still buffered is owed no more. */
    method ClearBuffers()
      requires Valid()
      modifies `pending, `trace
      ensures Valid() && pending == map[] && Conserved() && trace == old(trace) + [Cleared]
      ensures forall k :: FlushedOf(trace, k) == FlushedOf(old(trace), k)
    {
      Continues(config, trace, txnState, txnPartitions, identity, Cleared);
      Snoc(trace, Cleared);
      pending := map[];
      trace := trace + [Cleared];
    }

    /** Commit consumed positions as part of the transaction. */
    method SendOffsetsToTransaction(answer: Result<(), ClientError>) returns (r: Result<(), ClientError>)
      requires Valid()
      modifies `txnState, `trace
      ensures Valid() && (old(Conserved()) ==> Conserved())
      ensures r == if old(txnState).Open? then answer else Err(TransactionError)
      ensures txnState == if old(txnState).Open? && answer.Err? then AfterFailure(Open, answer.error) else old(txnState)
      ensures trace == if !old(txnState).Open? then old(trace)
                       else old(trace) + [OffsetsSent(answer.Ok?)] + if answer.Ok? then [] else [Poisoned(answer.error)]
    {
      var _ :- RequireOpen(txnState);
      var e := OffsetsSent(answer.Ok?);
      Continues(config, trace, txnState, txnPartitions, identity, e);
      BookkeepingKeepsRecords(trace, e);
      trace := trace + [e];
      if answer.Err? {
        Poison(answer.error);
        return answer;
      }
      r := answer;
    }

    // ---- stamps -----------------------------------------------------------------------

    /** Reserve the next sequence range of one partition. */
    method NextStamp(id: Identity, key: Partition, records: nat, transactional: bool) returns (stamp: BatchStamp)
      modifies `sequences
      ensures stamp == BatchStamp(id.id, id.epoch, SequenceAt(old(sequences), key), transactional)
      ensures sequences == old(sequences)[key := Wrap32(SequenceAt(old(sequences), key) + Min(records, I32_MAX))]
    {
      var baseSequence := if key in sequences then sequences[key] else 0;
      var count := if records <= I32_MAX then records else I32_MAX;
      sequences := sequences[key := Wrap32(baseSequence + count)];
      stamp := BatchStamp(id.id, id.epoch, baseSequence, transactional);
    }

    /** Have an identity to stamp with, asking for one when there is none. */
    method TakeIdentity(answer: Result<Identity, ClientError>) returns (r: Result<Identity, ClientError>)
      requires config.idempotent
      modifies `identity
      ensures r.Err? <==> StampFailure(config, txnState, old(identity), answer).Some?
      ensures r.Err? ==> r.error == StampFailure(config, txnState, old(identity), answer).value && identity == old(identity)
      ensures r.Ok? ==> identity == Some(r.value) && (old(identity).Some? ==> identity == old(identity))
    {
      var _ :- CheckIdempotentAcks(config.acks);
      if identity.None? {
        var _ :- RequireProducible(txnState);
        var id :- answer;
        identity := Some(id);
      }
      r := Ok(identity.value);
    }

    method StampBatch(key: Partition, records: nat, answer: Result<Identity, ClientError>, ghost batches: Batches, ghost done: set<Partition>)
      returns (r: Result<Option<BatchStamp>, ClientError>)
      requires identity.None? ==> sequences == map[]
      requires Counted(sequences, trace, config, batches, done) && key !in done && records == |BufferAt(batches, key).records|
      modifies `identity, `sequences
      ensures identity.None? ==> sequences == map[]
      ensures r.Err? <==> StampFailure(config, txnState, old(identity), answer).Some?
      ensures r.Err? ==> r.error == StampFailure(config, txnState, old(identity), answer).value && sequences == old(sequences) && identity == old(identity)
      ensures r.Ok? ==> RightStamp(trace, key, r.value, config, identity, txnState)
      ensures old(identity).Some? || !config.idempotent ==> identity == old(identity)
      ensures r.Ok? ==> Counted(sequences, trace, config, batches, done + {key})
    {
      if !config.idempotent {
        return Ok(None);
      }
      var id :- TakeIdentity(answer);
      StampReserves(sequences, trace, config, batches, done, key);
      var stamp := NextStamp(id, key, records, !txnState.Disabled?);
      r := Ok(Some(stamp));
    }

    /** The partition's records are the batch's and then those already there, and the byte
        estimate stays their sum. */
    method Restore(key: Partition, batch: PendingBatch)
      requires Weighed(pending) && batch.records != [] && batch.estimatedBytes == EstimatedBytes(batch.records)
      modifies `pending
      ensures Weighed(pending)
      ensures pending.Keys == old(pending).Keys + {key}
      ensures pending[key].records == batch.records + BufferAt(old(pending), key).records
      ensures forall k :: k in old(pending) && k != key ==> pending[k] == old(pending)[k]
      ensures key !in old(pending) ==> pending == old(pending)[key := batch]
    {
      var slot := BufferAt(pending, key);
      EstimateConcat(batch.records, slot.records);
      assert key !in pending ==> batch.records + slot.records == batch.records;
      pending := pending[key := PendingBatch(batch.records + slot.records, slot.estimatedBytes + batch.estimatedBytes)];
    }

    // ---- deliveries -------------------------------------------------------------------

    /** Stamp every drained batch before any is sent. Only the first stamp can fail: it takes
        the identity, after which none does. */
    method StampAll(batches: Batches, answer: Result<Identity, ClientError>)
      returns (stamps: map<Partition, Option<BatchStamp>>, failure: Option<(Partition, ClientError)>)
      requires identity.None? ==> sequences == map[]
      requires Counted(sequences, trace, config, batches, {})
      modifies `identity, `sequences
      ensures (old(identity).Some? ==> identity == old(identity)) && (identity.None? ==> sequences == map[])
      ensures failure.Some? <==> batches != map[] && StampFailure(config, txnState, old(identity), answer).Some?
      ensures failure.Some? ==>
                && failure.value.0 in batches && StampFailure(config, txnState, old(identity), answer) == Some(failure.value.1)
                && sequences == old(sequences) && identity == old(identity) && stamps == map[]
      ensures failure.None? ==> StampedFor(config, txnState, trace, stamps, batches.Keys, identity)
      ensures failure.None? ==> Counted(sequences, trace, config, batches, batches.Keys)
    {
      var todo, done := batches.Keys, {};
      stamps, failure := map[], None;
      while todo != {}
        invariant todo !! done && todo + done == batches.Keys
        invariant (old(identity).Some? ==> identity == old(identity)) && (identity.None? ==> sequences == map[])
        invariant done == {} ==> sequences == old(sequences) && identity == old(identity) && stamps == map[]
        invariant done != {} ==> StampFailure(config, txnState, old(identity), answer).None? && (config.idempotent ==> identity.Some?)
        invariant StampedFor(config, txnState, trace, stamps, done, identity)
        invariant Counted(sequences, trace, config, batches, done)
      {
        var key := Pick(todo);
        var stamp := StampBatch(key, |batches[key].records|, answer, batches, done);
        if stamp.Err? {
          return stamps, Some((key, stamp.error));
        }
        OneMore(todo, done, key);
        stamps := stamps[key := stamp.value];
        todo, done := todo - {key}, done + {key};
      }
    }

    /** One delivery, and the sequence range handed back when it fails. */
    method Attempt(key: Partition, records: seq<Record>, stamp: Option<BatchStamp>, ghost buffered: bool,
                   answer: Result<int, ClientError>, ghost batches: Batches, ghost left: set<Partition>)
      returns (outcome: Result<int, ClientError>)
      requires Tracking(config, trace, txnState, txnPartitions, identity) && (txnState.Disabled? || (txnState.Open? && key in txnPartitions))
      requires RightStamp(trace, key, stamp, config, identity, txnState) && (identity.None? ==> sequences == map[])
      requires Counted(sequences, trace, config, batches, left) && key in left && records == BufferAt(batches, key).records
      modifies `sequences, `trace
      ensures outcome == DeliveryOf(records, answer)
      ensures trace == old(trace) + [Delivered(key, stamp, records, buffered, outcome.Ok?)]
      ensures Tracking(config, trace, txnState, txnPartitions, identity) && AllDelivered(trace) == (outcome.Ok? && AllDelivered(old(trace)))
      ensures Counted(sequences, trace, config, batches, left - {key}) && (identity.None? ==> sequences == map[])
    {
      outcome := DeliveryOf(records, answer);
      ghost var e := Delivered(key, stamp, records, buffered, outcome.Ok?);
      Continues(config, trace, txnState, txnPartitions, identity, e);
      if outcome.Ok? {
        AckMovesCounter(sequences, trace, config, batches, left, e);
      } else {
        FailureMovesCounter(sequences, trace, config, batches, left, e);
        if stamp.Some? {
          sequences := sequences[key := stamp.value.baseSequence];
        }
      }
      trace := trace + [e];
    }

    /** In the middle of a flush: `done` of the drained batches are answered for, `left` are not. */
    ghost predicate Underway(batches: Batches, stamps: map<Partition, Option<BatchStamp>>, answers: Answers,
                             left: set<Partition>, done: set<Partition>, whole: bool)
      reads this
    {
      && left !! done && left + done == batches.Keys && Weighed(batches)
      && Tracking(config, trace, txnState, txnPartitions, identity) && (identity.None? ==> sequences == map[])
      && (txnState.Disabled? || (txnState.Open? && batches.Keys <= txnPartitions))
      && StampedFor(config, txnState, trace, stamps, left, identity)
      && Counted(sequences, trace, config, batches, left)
      && (whole ==> AllThere(trace, batches, left, pending))
      && Returned(pending, batches, answers, done)
    }

    /** Deliver one stamped batch; buffer it again when that fails. */
    method DeliverOne(key: Partition, batches: Batches, stamps: map<Partition, Option<BatchStamp>>, answers: Answers,
                      ghost left: set<Partition>, ghost done: set<Partition>, ghost whole: bool)
      returns (outcome: Result<int, ClientError>)
      requires key in left && Underway(batches, stamps, answers, left, done, whole)
      modifies `pending, `sequences, `trace
      ensures outcome == Outcome(batches, answers, key)
      ensures Underway(batches, stamps, answers, left - {key}, done + {key}, whole)
      ensures pending == map[] ==> old(pending) == map[] && AllDelivered(trace) == AllDelivered(old(trace))
      ensures Grown(old(trace), trace)
    {
      outcome := Attempt(key, batches[key].records, stamps[key], true, answers.delivery(key), batches, left);
      ghost var e := Delivered(key, stamps[key], batches[key].records, true, outcome.Ok?);
      GrownBy(old(trace), e);
      StampedForLess(config, txnState, old(trace), stamps, left, identity, e);
      if whole {
        DeliveryKeepsRecords(old(trace), e, batches, left, pending);
      }
      ReturnedMore(pending, batches, answers, done, key);
      OneMore(left, done, key);
      if outcome.Err? {
        ReturnedWeighed(pending, batches, answers, done);
        Restore(key, batches[key]);
      }
    }

    /** Deliver every stamped batch; buffer again those that failed. */
    method DeliverAll(batches: Batches, stamps: map<Partition, Option<BatchStamp>>, answers: Answers, ghost whole: bool)
      requires pending == map[] && Underway(batches, stamps, answers, batches.Keys, {}, whole)
      modifies `pending, `sequences, `trace
      ensures Underway(batches, stamps, answers, {}, batches.Keys, whole)
      ensures AllDelivered(old(trace)) && pending == map[] ==> AllDelivered(trace)
      ensures Grown(old(trace), trace)
    {
      var left, done := batches.Keys, {};
      ghost var start := trace;
      while left != {}
        invariant Underway(batches, stamps, answers, left, done, whole)
        invariant AllDelivered(start) && pending == map[] ==> AllDelivered(trace)
        invariant Grown(start, trace)
      {
        var key := Pick(left);
        ghost var before := trace;
        var _ := DeliverOne(key, batches, stamps, answers, left, done, whole);
        GrownOn(start, before, trace);
        left, done := left - {key}, done + {key};
      }
    }

    /** Put undelivered batches back. */
    method RestoreAll(batches: Batches)
      requires Weighed(pending) && Weighed(batches) && pending.Keys !! batches.Keys
      modifies `pending
      ensures pending == old(pending) + batches
    {
      ghost var before := pending;
      var left, done := batches.Keys, {};
      while left != {}
        invariant left !! done && left + done == batches.Keys
        invariant Weighed(pending) && PutBack(pending, before, batches, done)
      {
        var key := Pick(left);
        OneMore(left, done, key);
        PutBackMore(pending, before, batches, done, key);
        Restore(key, batches[key]);
        left, done := left - {key}, done + {key};
      }
    }

    /** Deliver the stamped batches and report: all the deliveries, or the lowest failure. */
    method SendStamped(batches: Batches, stamps: map<Partition, Option<BatchStamp>>, answers: Answers, ghost whole: bool)
      returns (r: Result<seq<Delivery>, ClientError>)
      requires Sound() && pending == map[] && Weighed(batches)
      requires txnState.Disabled? || (txnState.Open? && batches.Keys <= txnPartitions)
      requires StampedFor(config, txnState, trace, stamps, batches.Keys, identity)
      requires Counted(sequences, trace, config, batches, batches.Keys)
      requires whole ==> AllThere(trace, batches, batches.Keys, map[])
      modifies `pending, `sequences, `txnState, `trace
      ensures Valid() && (whole ==> Conserved()) && Grown(old(trace), trace)
      ensures Returned(pending, batches, answers, batches.Keys)
      ensures r.Ok? ==> pending == map[] && Reported(r.value, batches, answers, batches.Keys)
      ensures r.Err? ==> exists k :: Lowest(Some((k, r.error)), batches, answers, batches.Keys)
      ensures txnState == if r.Err? then AfterFailure(old(txnState), r.error) else old(txnState)
    {
      DeliverAll(batches, stamps, answers, whole);
      NothingLeft(sequences, trace, config, batches, pending, whole);
      ReturnedWeighed(pending, batches, answers, batches.Keys);
      var deliveries, failure := Collect(batches, answers);
      if failure.Some? {
        ghost var before := trace;
        Fail(failure.value.1);
        GrownOn(old(trace), before, trace);
        assert failure == Some((failure.value.0, failure.value.1));
        return Err(failure.value.1);
      }
      r := Ok(deliveries);
    }

    /** The batch whose stamp was refused goes back, and those stamped before it, which is none. */
    method PutBackStamped(batches: Batches, key: Partition, stamps: map<Partition, Option<BatchStamp>>)
      requires pending == map[] && Weighed(batches) && key in batches && stamps == map[]
      modifies `pending
      ensures pending == map[key := batches[key]] && Weighed(pending)
    {
      Restore(key, batches[key]);
      RestoreAll(Only(batches, stamps.Keys));
    }

    /** Stamp and deliver what a flush drained. A refused stamp keeps one buffer. */
    method StampAndSend(batches: Batches, answers: Answers, ghost whole: bool) returns (r: Result<seq<Delivery>, ClientError>)
      requires Valid() && pending == map[] && Weighed(batches) && batches != map[]
      requires txnState.Disabled? || (txnState.Open? && batches.Keys <= txnPartitions)
      requires whole ==> AllThere(trace, map[], {}, batches)
      modifies `pending, `identity, `sequences, `txnState, `trace
      ensures Valid() && Grown(old(trace), trace)
      ensures var refusal := StampFailure(config, old(txnState), old(identity), answers.identity);
              if refusal.Some? then
                && r == Err(refusal.value) && old(txnState).Disabled? && txnState == Disabled
                && (exists k :: k in batches && pending == map[k := batches[k]])
                && (whole ==> (Conserved() <==> |batches| <= 1))
              else
                && Returned(pending, batches, answers, batches.Keys)
                && (r.Ok? ==> pending == map[] && Reported(r.value, batches, answers, batches.Keys))
                && (r.Err? ==> exists k :: Lowest(Some((k, r.error)), batches, answers, batches.Keys))
                && txnState == (if r.Err? then AfterFailure(old(txnState), r.error) else old(txnState))
                && (whole ==> Conserved())
    {
      SameKeepsCounters(sequences, trace, trace, config, batches);
      var stamps, refused := StampAll(batches, answers.identity);
      if refused.Some? {
        var key := refused.value.0;
        PutBackStamped(batches, key, stamps);
        if whole {
          OneSurvives(trace, trace, batches, key);
        }
        return Err(refused.value.1);
      }
      if whole {
        Drain(trace, trace, batches);
      }
      r := SendStamped(batches, stamps, answers, whole);
    }

    /** Announce the partitions of what was drained; that moves no record and no counter. */
    method ClaimDrained(batches: Batches, answer: Result<(), ClientError>, ghost whole: bool) returns (r: Result<(), ClientError>)
      requires Valid() && (whole ==> AllThere(trace, map[], {}, batches))
      modifies `txnState, `txnPartitions, `trace
      ensures Valid() && Grown(old(trace), trace) && (whole ==> AllThere(trace, map[], {}, batches))
      ensures r == ClaimAnswer(old(txnState), old(txnPartitions), batches.Keys, answer)
      ensures r.Ok? ==> txnState == old(txnState) && (txnState.Disabled? || (txnState.Open? && batches.Keys <= txnPartitions))
      ensures r.Err? ==> txnState == if old(txnState).Open? then AfterFailure(Open, r.error) else old(txnState)
    {
      r := ClaimPartitions(batches.Keys, answer);
      if whole {
        SameKeepsRecords(old(trace), trace, batches);
      }
      SameKeepsCounters(sequences, old(trace), trace, config, map[]);
    }

    /** The rest of a flush, once the buffers are drained. */
    method FlushDrained(batches: Batches, answers: Answers, ghost whole: bool) returns (r: Result<seq<Delivery>, ClientError>)
      requires Valid() && pending == map[] && Weighed(batches) && batches != map[]
      requires whole ==> AllThere(trace, map[], {}, batches)
      modifies this
      ensures Valid() && Grown(old(trace), trace)
      ensures var claim := ClaimAnswer(old(txnState), old(txnPartitions), batches.Keys, answers.claim);
              var refusal := StampFailure(config, old(txnState), old(identity), answers.identity);
              && (claim.Err? ==> r == Err(claim.error) && pending == batches)
              && (claim.Ok? && refusal.Some? ==> r == Err(refusal.value) && exists k :: k in batches && pending == map[k := batches[k]])
              && (claim.Ok? && refusal.None? ==>
                    && Returned(pending, batches, answers, batches.Keys)
                    && (r.Ok? ==> pending == map[] && Reported(r.value, batches, answers, batches.Keys))
                    && (r.Err? ==> exists k :: Lowest(Some((k, r.error)), batches, answers, batches.Keys)))
      ensures txnState == if r.Err? && old(txnState).Open? then AfterFailure(Open, r.error) else old(txnState)
      ensures whole ==> (Conserved() <==> !LosesBuffers(config, batches, old(txnState), old(identity), answers))
    {
      var claim := ClaimDrained(batches, answers.claim, whole);
      if claim.Err? {
        RestoreAll(batches);
        return Err(claim.error);
      }
      ghost var claimed := trace;
      r := StampAndSend(batches, answers, whole);
      GrownOn(old(trace), claimed, trace);
    }

    /** Which partitions failed, what the journal records, and when no record is lost. */
    method Flush(answers: Answers) returns (r: Result<seq<Delivery>, ClientError>)
      requires Valid()
      modifies this
      ensures Valid() && Grown(old(trace), trace)
      ensures old(pending) == map[] ==> r == Ok([]) && pending == map[] && trace == old(trace)
      ensures var claim := ClaimAnswer(old(txnState), old(txnPartitions), old(pending).Keys, answers.claim);
              var refusal := StampFailure(config, old(txnState), old(identity), answers.identity);
              old(pending) != map[] ==>
                && (claim.Err? ==> r == Err(claim.error) && pending == old(pending))
                && (claim.Ok? && refusal.Some? ==>
                      r == Err(refusal.value) && exists k :: k in old(pending) && pending == map[k := old(pending)[k]])
                && (claim.Ok? && refusal.None? ==>
                      && Returned(pending, old(pending), answers, old(pending).Keys)
                      && (r.Ok? ==> pending == map[] && Reported(r.value, old(pending), answers, old(pending).Keys))
                      && (r.Err? ==> exists k :: Lowest(Some((k, r.error)), old(pending), answers, old(pending).Keys)))
      ensures txnState == if r.Err? && old(txnState).Open? then AfterFailure(Open, r.error) else old(txnState)
      ensures old(Conserved()) ==> (Conserved() <==> !LosesBuffers(config, old(pending), old(txnState), old(identity), answers))
      ensures r.Ok? <==> FlushSucceeds(config, old(pending), old(txnState), old(txnPartitions), old(identity), answers)
    {
      var batches := pending;
      if batches == map[] {
        return Ok([]);
      }
      ghost var whole := AllThere(trace, map[], {}, batches);
      pending := map[];
      r := FlushDrained(batches, answers, whole);
    }

    // ---- one batch at a time ----------------------------------------------------------

    /** Deliver one stamped batch; a failed delivery poisons the transaction. */
    method AttemptAlone(key: Partition, records: seq<Record>, stamp: Option<BatchStamp>, ghost buffered: bool, answers: Answers)
      returns (r: Result<int, ClientError>)
      requires Sound() && (txnState.Disabled? || (txnState.Open? && key in txnPartitions))
      requires RightStamp(trace, key, stamp, config, identity, txnState)
      requires Counted(sequences, trace, config, map[key := PendingBatch(records, 0)], {key})
      modifies `sequences, `txnState, `trace
      ensures Valid()
      ensures r == DeliveryOf(records, answers.delivery(key))
      ensures txnState == if r.Err? then AfterFailure(old(txnState), r.error) else old(txnState)
      ensures Left(old(trace), trace, key, if buffered && r.Ok? then records else [])
      ensures AckedOf(trace, key) == AckedOf(old(trace), key) + if r.Ok? && config.idempotent then |records| else 0
      ensures r.Ok? ==> JustSent(trace, key, records, buffered)
    {
      ghost var batch := map[key := PendingBatch(records, 0)];
      r := Attempt(key, records, stamp, buffered, answers.delivery(key), batch, {key});
      ghost var attempted := trace;
      AttemptLeaves(old(trace), Delivered(key, stamp, records, buffered, r.Ok?));
      AckedAfter(old(trace), Delivered(key, stamp, records, buffered, r.Ok?), key);
      EmptyRange(sequences, attempted, config, batch, key);
      if r.Err? {
        Fail(r.error);
        LeftThen(old(trace), attempted, trace, key);
      }
    }

    /** Stamp a batch that goes on its own. */
    method StampAlone(key: Partition, records: seq<Record>, answer: Result<Identity, ClientError>)
      returns (r: Result<Option<BatchStamp>, ClientError>)
      requires Valid() && (txnState.Disabled? || txnState.Open?)
      modifies `identity, `sequences
      ensures Sound()
      ensures r.Err? <==> StampFailure(config, txnState, old(identity), answer).Some?
      ensures r.Err? ==> r.error == StampFailure(config, txnState, old(identity), answer).value && Valid()
      ensures r.Ok? ==> RightStamp(trace, key, r.value, config, identity, txnState)
      ensures r.Ok? ==> Counted(sequences, trace, config, map[key := PendingBatch(records, 0)], {key})
    {
      ghost var batch := map[key := PendingBatch(records, 0)];
      SameKeepsCounters(sequences, trace, trace, config, batch);
      r := StampBatch(key, |records|, answer, batch, {});
      assert {} + {key} == {key};
    }

    /** Stamp and deliver one batch whose partition is claimed. */
    method StampAndAttempt(key: Partition, records: seq<Record>, ghost buffered: bool, answers: Answers) returns (r: Result<int, ClientError>)
      requires Valid() && (txnState.Disabled? || (txnState.Open? && key in txnPartitions))
      modifies `identity, `sequences, `txnState, `trace
      ensures Valid()
      ensures r == ClaimedOutcome(config, old(txnState), old(identity), key, records, answers)
      ensures txnState == if r.Err? then AfterFailure(old(txnState), r.error) else old(txnState)
      ensures Left(old(trace), trace, key, if buffered && r.Ok? then records else [])
      ensures AckedOf(trace, key) == AckedOf(old(trace), key) + if r.Ok? && config.idempotent then |records| else 0
      ensures r.Ok? ==> JustSent(trace, key, records, buffered)
    {
      var stamp := StampAlone(key, records, answers.identity);
      if stamp.Err? {
        LeftNothing(trace, trace, key);
        return Err(stamp.error);
      }
      r := AttemptAlone(key, records, stamp.value, buffered, answers);
    }

    /** Announce, stamp and deliver one batch. */
    method SendOne(key: Partition, records: seq<Record>, ghost buffered: bool, answers: Answers) returns (r: Result<int, ClientError>)
      requires Valid()
      modifies `identity, `sequences, `txnState, `txnPartitions, `trace
      ensures Valid()
      ensures r == SingleOutcome(config, old(txnState), old(txnPartitions), old(identity), key, records, answers)
      ensures txnState == if r.Err? && old(txnState).Open? then AfterFailure(Open, r.error) else old(txnState)
      ensures Left(old(trace), trace, key, if buffered && r.Ok? then records else [])
      ensures AckedOf(trace, key) == AckedOf(old(trace), key) + if r.Ok? && config.idempotent then |records| else 0
      ensures r.Ok? ==> JustSent(trace, key, records, buffered)
    {
      var claim := ClaimPartitions({key}, answers.claim);
      ghost var claimed := trace;
      SameKeepsCounters(sequences, old(trace), claimed, config, map[]);
      if claim.Err? {
        LeftNothing(old(trace), claimed, key);
        return Err(claim.error);
      }
      r := StampAndAttempt(key, records, buffered, answers);
      LeftFrom(old(trace), claimed, trace, key, if buffered && r.Ok? then records else []);
    }

    /** Deliver one partition's buffer; any failure leaves the buffer as it was. */
    method FlushPartition(key: Partition, answers: Answers) returns (r: Result<Delivery, ClientError>)
      requires Valid() && key in pending
      modifies this
      ensures Valid() && (old(Conserved()) ==> Conserved())
      ensures var outcome := SingleOutcome(config, old(txnState), old(txnPartitions), old(identity), key, old(pending)[key].records, answers);
              r == if outcome.Ok? then Ok(Delivery(key, outcome.value, |old(pending)[key].records|)) else Err(outcome.error)
      ensures pending == if r.Ok? then old(pending) - {key} else old(pending)
      ensures Left(old(trace), trace, key, if r.Ok? then old(pending)[key].records else [])
      ensures AckedOf(trace, key) == AckedOf(old(trace), key) + if r.Ok? && config.idempotent then |old(pending)[key].records| else 0
      ensures r.Ok? ==> JustSent(trace, key, old(pending)[key].records, true)
      ensures txnState == if r.Err? && old(txnState).Open? then AfterFailure(Open, r.error) else old(txnState)
    {
      var batch := pending[key];
      pending := pending - {key};
      var outcome := SendOne(key, batch.records, true, answers);
      if outcome.Err? {
        Restore(key, batch);
        assert pending == old(pending);
      }
      if old(Conserved()) {
        LeftKeepsRecords(old(trace), trace, key, if outcome.Ok? then batch.records else [], old(pending), pending);
      }
      if outcome.Err? {
        return Err(outcome.error);
      }
      r := Ok(Delivery(key, outcome.value, |batch.records|));
    }

    method Buffer(key: Partition, record: Record)
      requires Valid()
      modifies `pending, `trace
      ensures Valid() && (old(Conserved()) ==> Conserved()) && key in pending
      ensures pending[key].records == BufferAt(old(pending), key).records + [record]
      ensures pending[key].estimatedBytes == EstimatedBytes(pending[key].records)
      ensures pending == old(pending)[key := pending[key]] && HandedOver(old(trace), trace, key, record)
    {
      var grown := WithRecord(BufferAt(pending, key), record);
      StaysWeighed(pending, key, record);
      EnqueueKeeps(config, trace, txnState, txnPartitions, identity, sequences, pending, key, record, grown);
      EnqueuedOne(trace, key, record);
      pending := pending[key := grown];
      trace := trace + [Enqueued(key, record)];
    }

    /** Buffer one record; a buffer that has grown past the limit is delivered at once. */
    method Enqueue(key: Partition, record: Record, answers: Answers) returns (r: Result<Option<Delivery>, ClientError>)
      requires Valid()
      modifies this
      ensures Valid() && (old(Conserved()) ==> Conserved())
      ensures var records := BufferAt(old(pending), key).records + [record];
              var outcome := SingleOutcome(config, old(txnState), old(txnPartitions), old(identity), key, records, answers);
              var due := EstimatedBytes(records) >= config.batchMaxBytes;
              && r == (if !due then Ok(None)
                       else if outcome.Ok? then Ok(Some(Delivery(key, outcome.value, |records|))) else Err(outcome.error))
              && BufferAt(pending, key).records == (if due && outcome.Ok? then [] else records)
      ensures forall k :: k != key ==> BufferAt(pending, k) == BufferAt(old(pending), k)
      ensures r == Ok(None) ==> key in pending && pending == old(pending)[key := pending[key]]
      ensures HandedOver(old(trace), trace, key, record)
      ensures txnState == if r.Err? && old(txnState).Open? then AfterFailure(Open, r.error) else old(txnState)
    {
      Buffer(key, record);
      if pending[key].estimatedBytes >= config.batchMaxBytes {
        ghost var buffered := trace;
        ghost var records := pending[key].records;
        var d := FlushPartition(key, answers);
        EnqueuedThen(old(trace), buffered, trace, key, record, if d.Ok? then records else []);
        if d.Err? {
          return Err(d.error);
        }
        return Ok(Some(d.value));
      }
      r := Ok(None);
    }

    /** Send `records` as one batch, past the buffer. */
    method Produce(key: Partition, records: seq<Record>, answers: Answers) returns (r: Result<int, ClientError>)
      requires Valid()
      modifies `identity, `sequences, `txnState, `txnPartitions, `trace
      ensures Valid() && (old(Conserved()) ==> Conserved())
      ensures r == SingleOutcome(config, old(txnState), old(txnPartitions), old(identity), key, records, answers)
      ensures txnState == if r.Err? && old(txnState).Open? then AfterFailure(Open, r.error) else old(txnState)
      ensures Left(old(trace), trace, key, [])
      ensures AckedOf(trace, key) == AckedOf(old(trace), key) + if r.Ok? && config.idempotent then |records| else 0
      ensures r.Ok? ==> JustSent(trace, key, records, false)
    {
      r := SendOne(key, records, false, answers);
      if old(Conserved()) {
        LeftKeepsRecords(old(trace), trace, key, [], pending, pending);
      }
    }

    // ---- committing -------------------------------------------------------------------

    /** Flush, then ask for the commit; a failed flush is not followed by any request to end. */
    method CommitTransaction(answers: Answers) returns (r: Result<(), ClientError>)
      requires Valid()
      modifies this
      ensures Valid() && (old(Conserved()) ==> Conserved())
      ensures !old(txnState).Open? ==> r.Err? && txnState == old(txnState) && trace == old(trace) && pending == old(pending)
      ensures r.Ok? ==> old(txnState).Open? && txnState == Ready && pending == map[] && txnPartitions == {}
      ensures old(txnState).Open? && r.Err? ==> txnState == AfterFailure(Open, r.error)
      ensures Extended(old(trace), trace)
      ensures r.Ok? ==> trace != [] && trace[|trace| - 1] == Ended(true, true)
      ensures var flushes := FlushSucceeds(config, old(pending), old(txnState), old(txnPartitions), old(identity), answers);
              old(txnState).Open? ==>
                && EndsOf(trace) == EndsOf(old(trace)) + (if flushes then [Ended(true, r.Ok?)] else [])
                && (flushes ==> r == answers.end) && (!flushes ==> r.Err?)
    {
      var _ :- RequireOpen(txnState);
      var flushed := Flush(answers);
      ghost var before := trace;
      if flushed.Err? {
        Fail(flushed.error);
        GrownOn(old(trace), before, trace);
        return Err(flushed.error);
      }
      r := EndTransaction(true, answers.end);
      ExtendedOn(old(trace), before, trace);
      if old(Conserved()) {
        SameKeepsRecords(before, trace, pending);
      }
    }
  }

  /** Sort the outcomes of a flush into deliveries in key order and the failure to report. */
  method Collect(batches: Batches, answers: Answers)
    returns (deliveries: seq<Delivery>, failure: Option<(Partition, ClientError)>)
    ensures Lowest(failure, batches, answers, batches.Keys)
    ensures Reported(deliveries, batches, answers, batches.Keys)
  {
    var left, done := batches.Keys, {};
    deliveries, failure := [], None;
    while left != {}
      invariant left !! done && left + done == batches.Keys
      invariant Lowest(failure, batches, answers, done)
      invariant Reported(deliveries, batches, answers, done)
    {
      var key := Pick(left);
      LowestMore(failure, batches, answers, done, key);
      ReportedMore(deliveries, batches, answers, done, key);
      OneMore(left, done, key);
      var outcome := Outcome(batches, answers, key);
      if outcome.Ok? {
        deliveries := Insert(deliveries, Delivery(key, outcome.value, |batches[key].records|));
      } else if failure.None? || KeyBefore(key, failure.value.0) {
        failure := Some((key, outcome.error));
      }
      left, done := left - {key}, done + {key};
    }
  }

  method EnqueueSmall(p: Producer, key: Partition, record: Record, answers: Answers)
    requires p.Valid() && p.Conserved() && EstimatedBytes(BufferAt(p.pending, key).records + [record]) < p.config.batchMaxBytes
    modifies p
    ensures p.Valid() && p.Conserved() && p.txnState == old(p.txnState)
    ensures p.pending.Keys == old(p.pending).Keys + {key}
  {
    var r := p.Enqueue(key, record, answers);
    assert r == Ok(None);
  }

  /** An idempotent producer misconfigured with `acks = 1` refuses to stamp: of two buffers a
      flush then keeps one, and the record in the other is gone. */
  method RefusedFlushLosesARecord(record: Record, answers: Answers) returns (p: Producer)
    ensures p.Valid() && !p.Conserved() && |p.pending| == 1
  {
    p := new Producer(Config(1, true, None, 1 + EstimateRecordSize(record)));
    EstimateSnoc([], record);
    assert [] + [record] == [record];
    EnqueueSmall(p, ("t", 0), record, answers);
    EnqueueSmall(p, ("t", 1), record, answers);
    assert p.pending.Keys == {("t", 0), ("t", 1)};
    var _ := p.Flush(answers);
  }
}
