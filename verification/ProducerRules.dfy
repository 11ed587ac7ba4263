/** The producer's rules: its transaction state machine, what its buffers weigh, and the trace
    of what a producer did, from which everything it must keep can be read off. */
module ProducerRules {
  import opened Wrappers
  import opened Records
  import opened Order
  import Broker

  type Partition = Broker.Partition

  // ---- errors and states --------------------------------------------------------------

  datatype ClientErrorCode =
    | Fencing              // PRODUCER_FENCED
    | StaleEpoch           // INVALID_PRODUCER_EPOCH
    | IdNotAuthorized      // TRANSACTIONAL_ID_AUTHORIZATION_FAILED
    | OtherCode(code: int)

  datatype ClientError =
    | BrokerError(code: ClientErrorCode)
    | TransactionError
    | ConfigError
    | ProtocolViolation
    | ConnectionFailed

  datatype TransactionState = Disabled | Uninitialized | Ready | Open | Abortable | Fenced

  /** The transactional id belongs to someone else now. */
  predicate IsFencing(e: ClientError) {
    e.BrokerError? && !e.code.OtherCode?
  }

  function AfterBegin(state: TransactionState): Result<TransactionState, ClientError> {
    if state.Ready? then Ok(Open) else Err(TransactionError)
  }

  function RequireOpen(state: TransactionState): Result<(), ClientError> {
    if state.Open? then Ok(()) else Err(TransactionError)
  }

  function RequireProducible(state: TransactionState): Result<(), ClientError> {
    if state.Disabled? then Ok(()) else RequireOpen(state)
  }

  function AfterFailure(state: TransactionState, e: ClientError): TransactionState {
    if state.Disabled? then Disabled
    else if IsFencing(e) then Fenced
    else if state.Open? then Abortable
    else state
  }

  const ACKS_ALL := -1

  function CheckIdempotentAcks(acks: int): Result<(), ClientError> {
    if acks == ACKS_ALL then Ok(()) else Err(ConfigError)
  }

  // ---- buffers and stamps -------------------------------------------------------------

  function LengthOf(b: Option<Bytes>): nat {
    if b.Some? then |b.value| else 0
  }

  function HeadersSize(hs: seq<RecordHeader>): nat {
    if hs == [] then 0
    else HeadersSize(hs[..|hs| - 1]) + |hs[|hs| - 1].key| + LengthOf(hs[|hs| - 1].value) + 8
  }

  function EstimateRecordSize(r: Record): nat {
    LengthOf(r.key) + LengthOf(r.value) + HeadersSize(r.headers) + 24
  }

  function EstimatedBytes(rs: seq<Record>): nat {
    if rs == [] then 0 else EstimatedBytes(rs[..|rs| - 1]) + EstimateRecordSize(rs[|rs| - 1])
  }

  lemma {:induction false} EstimateConcat(a: seq<Record>, b: seq<Record>)
    ensures EstimatedBytes(a + b) == EstimatedBytes(a) + EstimatedBytes(b)
  {
    if b == [] {
      assert a + b == a;
    } else {
      assert (a + b)[..|a + b| - 1] == a + b[..|b| - 1];
      EstimateConcat(a, b[..|b| - 1]);
    }
  }

  lemma EstimateSnoc(rs: seq<Record>, r: Record)
    ensures EstimatedBytes(rs + [r]) == EstimatedBytes(rs) + EstimateRecordSize(r)
  {
    assert (rs + [r])[..|rs + [r]| - 1] == rs;
  }

  datatype PendingBatch = PendingBatch(records: seq<Record>, estimatedBytes: nat)

  const NO_BATCH := PendingBatch([], 0)

  datatype Identity = Identity(id: int, epoch: int)

  datatype BatchStamp = BatchStamp(producerId: int, producerEpoch: int, baseSequence: int, transactional: bool)

  datatype Config = Config(acks: int, idempotent: bool, transactionalId: Option<string>, batchMaxBytes: nat)

  /** What the network answers during one call: to the coordinator's requests, and to each
      partition's delivery once its attempts are over. */
  datatype Answers = Answers(
    claim: Result<(), ClientError>,
    identity: Result<Identity, ClientError>,
    delivery: Partition -> Result<int, ClientError>,
    offsets: Result<(), ClientError>,
    end: Result<(), ClientError>)

  /** An empty or oversized record set fails before anything is sent. */
  function DeliveryOf(records: seq<Record>, answer: Result<int, ClientError>): Result<int, ClientError> {
    if records == [] || |records| > I32_MAX then Err(ProtocolViolation) else answer
  }

  // ---- the trace of a producer's life -------------------------------------------------

  datatype Event =
    | Enqueued(key: Partition, record: Record)
    | Cleared
    | Claimed(identity: Identity)
    | Began
    | Announced(keys: set<Partition>)
    | Delivered(key: Partition, stamp: Option<BatchStamp>, records: seq<Record>, buffered: bool, ok: bool)
    | OffsetsSent(ok: bool)
    | Poisoned(error: ClientError)
    | Ended(committed: bool, ok: bool)

  type Trace = seq<Event>

  /** The requests to end a transaction, as they were made. */
  function EndsOf(t: Trace): seq<Event> {
    if t == [] then []
    else EndsOf(t[..|t| - 1]) + if t[|t| - 1].Ended? then [t[|t| - 1]] else []
  }

  /** Where the trace leaves the transaction state machine. */
  function StateOf(t: Trace, start: TransactionState): TransactionState {
    if t == [] then start
    else
      var s := StateOf(t[..|t| - 1], start);
      match t[|t| - 1]
      case Claimed(_) => Ready
      case Began => Open
      case Poisoned(e) => AfterFailure(s, e)
      case Ended(_, ok) => if ok then Ready else s
      case _ => s
  }

  /** Partitions the coordinator has acknowledged for the current transaction. */
  function AnnouncedOf(t: Trace): set<Partition> {
    if t == [] then {}
    else
      var before := AnnouncedOf(t[..|t| - 1]);
      match t[|t| - 1]
      case Announced(keys) => before + keys
      case Ended(_, ok) => if ok then {} else before
      case Claimed(_) => {}
      case _ => before
  }

  /** Nothing sent since the transaction began has failed. */
  predicate AllDelivered(t: Trace) {
    t != [] &&
    match t[|t| - 1]
    case Began => true
    case Delivered(_, _, _, _, ok) => ok && AllDelivered(t[..|t| - 1])
    case OffsetsSent(ok) => ok && AllDelivered(t[..|t| - 1])
    case _ => AllDelivered(t[..|t| - 1])
  }

  /** Records acknowledged on a partition under stamps of the current identity. */
  function AckedOf(t: Trace, k: Partition): nat {
    if t == [] then 0
    else
      var before := AckedOf(t[..|t| - 1], k);
      match t[|t| - 1]
      case Claimed(_) => 0
      case Delivered(key, stamp, records, _, ok) => if key == k && stamp.Some? && ok then before + |records| else before
      case _ => before
  }

  /** The identity a producer has claimed, or stamped its batches with. */
  function IdentityOf(t: Trace): Option<Identity> {
    if t == [] then None
    else
      match t[|t| - 1]
      case Claimed(identity) => Some(identity)
      case Delivered(_, stamp, _, _, _) =>
        if stamp.Some? then Some(Identity(stamp.value.producerId, stamp.value.producerEpoch)) else IdentityOf(t[..|t| - 1])
      case _ => IdentityOf(t[..|t| - 1])
  }

  function Start(config: Config): TransactionState {
    if config.transactionalId.Some? then Uninitialized else Disabled
  }

  /** A batch's stamp after `t`: none without idempotence; else the producer's one identity, the
      number of records acknowledged so far, and whether it is inside a transaction. */
  predicate StampFits(t: Trace, config: Config, key: Partition, stamp: Option<BatchStamp>) {
    && (stamp.Some? <==> config.idempotent)
    && (stamp.Some? ==>
          && stamp.value.transactional == config.transactionalId.Some?
          && stamp.value.baseSequence == Wrap32(AckedOf(t, key))
          && (IdentityOf(t).Some? ==> IdentityOf(t).value == Identity(stamp.value.producerId, stamp.value.producerEpoch)))
  }

  /** Records delivered out of a partition's buffer, in order. */
  function FlushedOf(t: Trace, k: Partition): seq<Record> {
    if t == [] then []
    else
      var before := FlushedOf(t[..|t| - 1], k);
      match t[|t| - 1]
      case Delivered(key, _, records, buffered, ok) => if key == k && buffered && ok then before + records else before
      case _ => before
  }

  /** Records the caller handed over for a partition, apart from those an abort threw away. */
  function OwedOf(t: Trace, k: Partition): seq<Record> {
    if t == [] then []
    else
      var before := OwedOf(t[..|t| - 1], k);
      match t[|t| - 1]
      case Enqueued(key, record) => if key == k then before + [record] else before
      case Cleared => FlushedOf(t[..|t| - 1], k)
      case _ => before
  }

  /** What a producer may do next. A batch goes out only outside transactions or inside an open
      one, then only to a partition announced for it, and with a fitting stamp; a commit is
      asked for only when nothing since the beginning failed. */
  predicate Allowed(t: Trace, config: Config, e: Event) {
    var s := StateOf(t, Start(config));
    match e
    case Claimed(_) => s.Uninitialized?
    case Began => s.Ready?
    case Announced(_) => s.Open?
    case OffsetsSent(_) => s.Open?
    case Delivered(key, stamp, _, _, _) => (s.Disabled? || (s.Open? && key in AnnouncedOf(t))) && StampFits(t, config, key, stamp)
    case Ended(committed, _) => if committed then s.Open? && AllDelivered(t) else s.Open? || s.Abortable?
    case Poisoned(_) => s.Disabled? || s.Open? || s.Abortable? || s.Fenced?
    case _ => true
  }

  predicate Lawful(t: Trace, config: Config) {
    t == [] || (Lawful(t[..|t| - 1], config) && Allowed(t[..|t| - 1], config, t[|t| - 1]))
  }

  lemma Snoc(t: Trace, e: Event)
    ensures (t + [e])[..|t + [e]| - 1] == t
  {
  }

  // ---- ledgers ------------------------------------------------------------------------

  function BufferAt(m: map<Partition, PendingBatch>, key: Partition): PendingBatch {
    if key in m then m[key] else NO_BATCH
  }

  function SequenceAt(m: map<Partition, int>, key: Partition): int {
    if key in m then m[key] else 0
  }

  lemma WrapAdds(a: nat, n: nat)
    ensures Wrap32(Wrap32(a) + n) == Wrap32(a + n)
  {
  }

  // ---- what a call will meet ----------------------------------------------------------

  /** The outcome of announcing `keys`. */
  function ClaimAnswer(state: TransactionState, announced: set<Partition>, keys: set<Partition>,
                       answer: Result<(), ClientError>): Result<(), ClientError> {
    if state.Disabled? then Ok(())
    else if RequireProducible(state).Err? then RequireProducible(state)
    else if keys <= announced then Ok(())
    else answer
  }

  /** Why a batch cannot be stamped, if it cannot. */
  function StampFailure(config: Config, state: TransactionState, identity: Option<Identity>,
                        answer: Result<Identity, ClientError>): Option<ClientError> {
    if !config.idempotent then None
    else if CheckIdempotentAcks(config.acks).Err? then Some(CheckIdempotentAcks(config.acks).error)
    else if identity.Some? then None
    else if RequireProducible(state).Err? then Some(RequireProducible(state).error)
    else if answer.Err? then Some(answer.error)
    else None
  }

  // ---- deliveries ---------------------------------------------------------------------

  datatype Delivery = Delivery(key: Partition, baseOffset: int, records: nat)

  predicate SortedByKey(ds: seq<Delivery>) {
    forall i, j :: 0 <= i < j < |ds| ==> KeyBefore(ds[i].key, ds[j].key)
  }

  function Insert(ds: seq<Delivery>, d: Delivery): (r: seq<Delivery>)
    ensures |r| == |ds| + 1
  {
    if ds == [] || KeyBefore(ds[|ds| - 1].key, d.key) then ds + [d]
    else Insert(ds[..|ds| - 1], d) + [ds[|ds| - 1]]
  }

  predicate Listed(ds: seq<Delivery>, d: Delivery) {
    exists i :: 0 <= i < |ds| && ds[i] == d
  }

  lemma {:induction false} InsertSorts(ds: seq<Delivery>, d: Delivery)
    requires SortedByKey(ds) && forall i :: 0 <= i < |ds| ==> ds[i].key != d.key
    ensures SortedByKey(Insert(ds, d))
    ensures forall x :: Listed(Insert(ds, d), x) <==> Listed(ds, x) || x == d
  {
    if ds == [] || KeyBefore(ds[|ds| - 1].key, d.key) {
      var r := Insert(ds, d);
      assert r[|ds|] == d;
      forall i | 0 <= i < |ds| ensures KeyBefore(ds[i].key, d.key) {
        if i < |ds| - 1 {
          KeyBeforeIsTransitive(ds[i].key, ds[|ds| - 1].key, d.key);
        }
      }
      forall x | Listed(ds, x) ensures Listed(r, x) {
        var i :| 0 <= i < |ds| && ds[i] == x;
        assert r[i] == x;
      }
    } else {
      var init, last := ds[..|ds| - 1], ds[|ds| - 1];
      KeyBeforeIsTotal(last.key, d.key);
      InsertSorts(init, d);
      var rest := Insert(init, d);
      var r := rest + [last];
      forall i | 0 <= i < |rest| ensures KeyBefore(rest[i].key, last.key) {
        assert Listed(rest, rest[i]);
        if rest[i] != d {
          var j :| 0 <= j < |init| && init[j] == rest[i];
        }
      }
      assert forall x :: Listed(ds, x) <==> Listed(init, x) || x == last by {
        forall x | Listed(init, x) ensures Listed(ds, x) {
          var i :| 0 <= i < |init| && init[i] == x;
          assert ds[i] == x;
        }
        assert ds[|init|] == last;
      }
      forall x | Listed(rest, x) ensures Listed(r, x) {
        var i :| 0 <= i < |rest| && rest[i] == x;
        assert r[i] == x;
      }
      assert r[|rest|] == last;
    }
  }

  // ---- what lawful traces are worth ---------------------------------------------------

  lemma {:induction false} LawfulAt(t: Trace, config: Config, i: nat)
    requires Lawful(t, config) && i < |t|
    ensures Lawful(t[..i], config) && Allowed(t[..i], config, t[i])
  {
    if i < |t| - 1 {
      LawfulAt(t[..|t| - 1], config, i);
      assert t[..|t| - 1][..i] == t[..i];
    }
  }

  /** A fenced producer stays fenced, and never sends, begins or ends anything again. */
  lemma {:induction false} FencedIsForever(t: Trace, config: Config, i: nat)
    requires Lawful(t, config) && i <= |t| && StateOf(t[..i], Start(config)).Fenced?
    ensures StateOf(t, Start(config)).Fenced?
    ensures forall j :: i <= j < |t| ==> !t[j].Delivered? && !t[j].Announced? && !t[j].Began? && !t[j].Ended? && !t[j].OffsetsSent?
    decreases |t|
  {
    if i == |t| {
      assert t[..i] == t;
    } else {
      var init := t[..|t| - 1];
      assert init[..i] == t[..i];
      FencedIsForever(init, config, i);
    }
  }

  /** Of all failures exactly three answers of a broker fence a transactional producer; any other
      leaves an open transaction to be aborted, and nothing changes a fenced one. */
  lemma FencesIff(state: TransactionState, e: ClientError)
    requires state.Open? || state.Abortable?
    ensures AfterFailure(state, e) == Fenced <==>
            e == BrokerError(Fencing) || e == BrokerError(StaleEpoch) || e == BrokerError(IdNotAuthorized)
    ensures AfterFailure(state, e) != Fenced ==> AfterFailure(state, e) == Abortable
    ensures AfterFailure(Fenced, e) == Fenced
  {
  }

  /** A failed transaction is left only by an acknowledged abort, or by fencing. */
  lemma {:induction false} FailureEndsByAbort(t: Trace, config: Config, i: nat)
    requires Lawful(t, config) && i <= |t| && StateOf(t[..i], Start(config)).Abortable?
    ensures StateOf(t, Start(config)).Abortable? || StateOf(t, Start(config)).Fenced? || exists j :: i <= j < |t| && t[j] == Ended(false, true)
    decreases |t|
  {
    if i == |t| {
      assert t[..i] == t;
    } else {
      var init := t[..|t| - 1];
      assert init[..i] == t[..i];
      FailureEndsByAbort(init, config, i);
      if StateOf(init, Start(config)).Fenced? {
        FencedIsForever(t, config, |init|);
      } else if j :| i <= j < |init| && init[j] == Ended(false, true) {
        assert t[j] == Ended(false, true);
      }
    }
  }

  /** Nothing sent after entry `j` failed. */
  predicate NoFailureSince(t: Trace, j: nat) {
    forall k :: j <= k < |t| ==> (t[k].Delivered? ==> t[k].ok) && (t[k].OffsetsSent? ==> t[k].ok)
  }

  lemma {:induction false} SinceTheBeginning(t: Trace) returns (j: nat)
    requires AllDelivered(t)
    ensures j < |t| && t[j].Began? && NoFailureSince(t, j)
  {
    var init := t[..|t| - 1];
    if t[|t| - 1].Began? {
      j := |t| - 1;
    } else {
      j := SinceTheBeginning(init);
      assert init[j] == t[j];
      assert forall k :: j <= k < |init| ==> init[k] == t[k];
    }
  }

  /** A commit is asked for only when everything sent since the transaction began succeeded. */
  lemma CommitFollowsSuccess(t: Trace, config: Config, i: nat) returns (j: nat)
    requires Lawful(t, config) && i < |t| && t[i].Ended? && t[i].committed
    ensures j < i && t[j].Began? && NoFailureSince(t[..i], j)
  {
    LawfulAt(t, config, i);
    j := SinceTheBeginning(t[..i]);
  }

  lemma {:induction false} AnnouncedEarlier(t: Trace, key: Partition) returns (j: nat)
    requires key in AnnouncedOf(t)
    ensures j < |t| && t[j].Announced? && key in t[j].keys
    ensures forall k :: j < k < |t| ==> !t[k].Claimed? && !(t[k].Ended? && t[k].ok)
  {
    var last := |t| - 1;
    if t[last].Announced? && key in t[last].keys {
      j := last;
    } else {
      j := AnnouncedEarlier(t[..last], key);
      assert forall k :: j <= k < last ==> t[..last][k] == t[k];
    }
  }

  /** A batch inside a transaction goes only to a partition the coordinator acknowledged for
      that same transaction: no transaction ended in between. */
  lemma AnnouncedBeforeDelivered(t: Trace, config: Config, i: nat) returns (j: nat)
    requires Lawful(t, config) && i < |t| && t[i].Delivered? && !StateOf(t[..i], Start(config)).Disabled?
    ensures j < i && t[j].Announced? && t[i].key in t[j].keys
    ensures forall k :: j < k < i ==> !t[k].Claimed? && !(t[k].Ended? && t[k].ok)
  {
    LawfulAt(t, config, i);
    j := AnnouncedEarlier(t[..i], t[i].key);
  }

  /** Stamped and acknowledged on `key`. */
  predicate Advances(e: Event, key: Partition) {
    e.Claimed? || (e.Delivered? && e.key == key && e.stamp.Some? && e.ok)
  }

  lemma {:induction false} AckedStays(t: Trace, i: nat, key: Partition)
    requires i <= |t| && forall k :: i <= k < |t| ==> !Advances(t[k], key)
    ensures AckedOf(t, key) == AckedOf(t[..i], key)
    decreases |t|
  {
    if i == |t| {
      assert t[..i] == t;
    } else {
      assert t[..|t| - 1][..i] == t[..i];
      AckedStays(t[..|t| - 1], i, key);
    }
  }

  /** Between two stamped attempts on one partition with no other acknowledged in between, the
      second carries the same sequence if the first failed, and the next one if it did not. */
  lemma SequencesLeaveNoGap(t: Trace, config: Config, i: nat, j: nat)
    requires Lawful(t, config) && i < j < |t| && t[i].Delivered? && t[j].Delivered? && t[i].key == t[j].key
    requires t[i].stamp.Some? && t[j].stamp.Some? && forall k :: i < k < j ==> !Advances(t[k], t[i].key)
    ensures t[j].stamp.value.baseSequence == Wrap32(t[i].stamp.value.baseSequence + if t[i].ok then |t[i].records| else 0)
  {
    LawfulAt(t, config, i);
    LawfulAt(t, config, j);
    var key := t[i].key;
    assert t[..j][..i + 1] == t[..i + 1];
    assert t[..i + 1][..i] == t[..i];
    AckedStays(t[..j], i + 1, key);
    WrapAdds(AckedOf(t[..i], key), if t[i].ok then |t[i].records| else 0);
  }

  lemma {:induction false} IdentityStays(t: Trace, config: Config, i: nat)
    requires Lawful(t, config) && i <= |t| && IdentityOf(t[..i]).Some?
    requires forall k :: i <= k < |t| ==> !t[k].Claimed?
    ensures IdentityOf(t) == IdentityOf(t[..i])
    decreases |t|
  {
    if i == |t| {
      assert t[..i] == t;
    } else {
      assert t[..|t| - 1][..i] == t[..i];
      IdentityStays(t[..|t| - 1], config, i);
    }
  }

  /** Two stamps with no claim between them carry the same producer id and epoch. */
  lemma OneIdentity(t: Trace, config: Config, i: nat, j: nat)
    requires Lawful(t, config) && i < j < |t| && t[i].Delivered? && t[j].Delivered? && t[i].stamp.Some? && t[j].stamp.Some?
    requires forall k :: i < k < j ==> !t[k].Claimed?
    ensures t[i].stamp.value.producerId == t[j].stamp.value.producerId
    ensures t[i].stamp.value.producerEpoch == t[j].stamp.value.producerEpoch
  {
    LawfulAt(t, config, j);
    assert t[..j][..i + 1] == t[..i + 1];
    assert IdentityOf(t[..i + 1]) == Some(Identity(t[i].stamp.value.producerId, t[i].stamp.value.producerEpoch));
    IdentityStays(t[..j], config, i + 1);
  }
}
