/** The reference broker with no fault injected: partition logs, producer deduplication,
    fencing, and transactions. Each handler runs under the one cluster lock, so each is one
    atomic step; it is specified by a function from the state before it to the state after
    it, and the method of `ClusterState` that performs it in place is proved against it. */
module Broker {
  import opened Wrappers
  import opened Records

  /** A topic name and a partition index. */
  type Partition = (string, int)

  /** (group, topic, partition), and (offset, metadata). */
  type OffsetKey = (string, string, int)
  type OffsetValue = (int, Option<string>)

  datatype ErrorCode =
    | NONE
    | UNKNOWN_TOPIC_ID
    | NOT_LEADER_OR_FOLLOWER
    | PRODUCER_FENCED
    | OUT_OF_ORDER_SEQUENCE_NUMBER
    | INVALID_PRODUCER_ID_MAPPING

  datatype LastBatch = LastBatch(baseSequence: int, nextSequence: int, baseOffset: int)

  datatype AbortedRun = AbortedRun(producerId: int, firstOffset: int)

  /** `stored` stands for the log's bytes: the batches as they were produced. Transaction
      markers take an offset but are not stored. */
  datatype PartitionLog = PartitionLog(
    stored: seq<RecordBatch>,
    nextOffset: int,
    open: map<int, int>,
    aborted: seq<AbortedRun>,
    lastBatch: map<int, LastBatch>)

  const EMPTY_LOG := PartitionLog([], 0, map[], [], map[])

  datatype TxnState = TxnState(
    producerId: int,
    epoch: int,
    partitions: set<Partition>,
    pending: map<OffsetKey, OffsetValue>)

  datatype State = State(
    logs: map<Partition, PartitionLog>,
    committed: map<OffsetKey, OffsetValue>,
    txns: map<string, TxnState>,
    nextProducerId: int)
  {
    /** Total: a partition without a log is one whose log is empty. */
    function LogAt(key: Partition): PartitionLog {
      if key in logs then logs[key] else EMPTY_LOG
    }
  }

  // ---- the last stable offset ---------------------------------------------------------

  ghost predicate IsLeast(m: int, s: set<int>) {
    m in s && forall x :: x in s ==> m <= x
  }

  /** A finite nonempty set of integers has a least element. */
  lemma LeastExists(s: set<int>) returns (m: int)
    requires s != {}
    ensures IsLeast(m, s)
    decreases |s|
  {
    m := HasMember(s);
    if s != {m} {
      var rest := s - {m};
      assert s == rest + {m};
      var least := LeastExists(rest);
      m := Min(m, least);
    }
  }

  /** The first offset of an unfinished transaction, or the end of the log. */
  ghost predicate IsLastStableOffset(log: PartitionLog, offset: int) {
    if log.open == map[] then offset == log.nextOffset else IsLeast(offset, log.open.Values)
  }

  method LastStableOffset(log: PartitionLog) returns (offset: int)
    ensures IsLastStableOffset(log, offset)
  {
    var rest := log.open.Values;
    assert forall pid :: pid in log.open ==> log.open[pid] in log.open.Values;
    if rest == {} {
      return log.nextOffset;
    }
    offset := Pick(rest);
    rest := rest - {offset};
    while rest != {}
      invariant rest < log.open.Values && offset in log.open.Values
      invariant forall x :: x in log.open.Values && x !in rest ==> offset <= x
    {
      var x := Pick(rest);
      rest := rest - {x};
      offset := Min(offset, x);
    }
  }

  // ---- produce ------------------------------------------------------------------------

  /** One partition of a produce request. `topic` is `None` when a topic id does not resolve. */
  datatype Write = Write(topic: Option<string>, index: int, batches: seq<RecordBatch>)

  datatype Answer = Answer(error: ErrorCode, baseOffset: int)

  /** Whether the leader refuses this write because a newer epoch has been issued. */
  function FencedAtTheLeader(txns: map<string, TxnState>, txnId: Option<string>, batches: seq<RecordBatch>): Option<ErrorCode> {
    if batches == [] || txnId.None? || txnId.value !in txns then None
    else if batches[0].producerEpoch < txns[txnId.value].epoch then Some(PRODUCER_FENCED)
    else None
  }

  /** Whether the first batch carries a producer id and a sequence at all. */
  predicate Stamped(batches: seq<RecordBatch>) {
    batches != [] && batches[0].producerId >= 0 && batches[0].baseSequence >= 0
  }

  /** A gap in the producer's sequence is refused. */
  function StampedVerdict(log: PartitionLog, batches: seq<RecordBatch>): Option<ErrorCode> {
    if !Stamped(batches) || batches[0].producerId !in log.lastBatch then None
    else
      var known := log.lastBatch[batches[0].producerId];
      if batches[0].baseSequence == known.baseSequence || batches[0].baseSequence == known.nextSequence then None
      else Some(OUT_OF_ORDER_SEQUENCE_NUMBER)
  }

  /** Where a repeat of the producer's last batch landed the first time. */
  function DuplicateOf(log: PartitionLog, batches: seq<RecordBatch>): Option<int> {
    if !Stamped(batches) || batches[0].producerId !in log.lastBatch then None
    else
      var known := log.lastBatch[batches[0].producerId];
      if batches[0].baseSequence == known.baseSequence then Some(known.baseOffset) else None
  }

  /** The offsets a record set takes up. */
  function SpanOf(batches: seq<RecordBatch>): int {
    if batches == [] then 0 else SpanOf(batches[..|batches| - 1]) + batches[|batches| - 1].Span()
  }

  /** A count as an `i32`, saturating above. */
  function Clamp32(n: int): int {
    if -I32_MAX - 1 <= n <= I32_MAX then n else I32_MAX
  }

  /** The log after a record set has been accepted: it joins the transaction the request
      names, announced or not, and becomes the producer's last batch. */
  function Appended(log: PartitionLog, txnId: Option<string>, batches: seq<RecordBatch>): PartitionLog {
    var pid := if batches == [] then -1 else batches[0].producerId;
    log.(stored := log.stored + batches,
         nextOffset := log.nextOffset + SpanOf(batches),
         open := if txnId.Some? && pid >= 0 && pid !in log.open then log.open[pid := log.nextOffset] else log.open,
         lastBatch := if Stamped(batches)
                      then log.lastBatch[pid := LastBatch(batches[0].baseSequence,
                                                          Wrap32(batches[0].baseSequence + Clamp32(SpanOf(batches))),
                                                          log.nextOffset)]
                      else log.lastBatch)
  }

  /** What the handler decides about one partition's write. */
  datatype Ruling = Refused(code: ErrorCode) | Repeated(offset: int) | Accepted(offset: int)

  /** The refusals that come before the partition's log is looked up. */
  function Unroutable(leads: set<string>, w: Write): Option<ErrorCode> {
    if w.topic.None? then Some(UNKNOWN_TOPIC_ID)
    else if w.topic.value !in leads then Some(NOT_LEADER_OR_FOLLOWER)
    else None
  }

  function Rule(txns: map<string, TxnState>, log: PartitionLog, txnId: Option<string>, batches: seq<RecordBatch>): Ruling {
    var fenced := FencedAtTheLeader(txns, txnId, batches);
    if fenced.Some? then Refused(fenced.value) else
    var verdict := StampedVerdict(log, batches);
    if verdict.Some? then Refused(verdict.value) else
    var known := DuplicateOf(log, batches);
    if known.Some? then Repeated(known.value) else Accepted(log.nextOffset)
  }

  function AnswerTo(r: Ruling): Answer {
    match r
    case Refused(code) => Answer(code, -1)
    case Repeated(offset) => Answer(NONE, offset)
    case Accepted(offset) => Answer(NONE, offset)
  }

  function RuleWrite(s: State, txnId: Option<string>, leads: set<string>, w: Write): Ruling {
    if Unroutable(leads, w).Some? then Refused(Unroutable(leads, w).value)
    else Rule(s.txns, s.LogAt((w.topic.value, w.index)), txnId, w.batches)
  }

  /** One partition's write. Looking the log up creates it, even for a write then refused. */
  function ProduceOne(s: State, txnId: Option<string>, leads: set<string>, w: Write): State {
    if Unroutable(leads, w).Some? then s
    else
      var key := (w.topic.value, w.index);
      var log := s.LogAt(key);
      var log' := if Rule(s.txns, log, txnId, w.batches).Accepted? then Appended(log, txnId, w.batches) else log;
      s.(logs := s.logs[key := log'])
  }

  /** The whole request, partition by partition, in the order it lists them. */
  function ProduceAll(s: State, txnId: Option<string>, leads: set<string>, ws: seq<Write>): (State, seq<Answer>) {
    if ws == [] then (s, [])
    else
      var (s', answers) := ProduceAll(s, txnId, leads, ws[..|ws| - 1]);
      var last := ws[|ws| - 1];
      (ProduceOne(s', txnId, leads, last), answers + [AnswerTo(RuleWrite(s', txnId, leads, last))])
  }

  // ---- transactions -------------------------------------------------------------------

  function TxnEpochCheck(txns: map<string, TxnState>, id: string, epoch: int): ErrorCode {
    if id !in txns then INVALID_PRODUCER_ID_MAPPING
    else if epoch == txns[id].epoch then NONE
    else PRODUCER_FENCED
  }

  /** Claim a transactional id (or, with none, a plain producer id). The epoch is an `i16`. */
  function InitProducer(s: State, id: Option<string>): (State, int, int) {
    if id.None? then
      (s.(nextProducerId := s.nextProducerId + 1), s.nextProducerId + 1, 0)
    else
      var nextId := s.nextProducerId + 1;
      var txn := if id.value in s.txns then s.txns[id.value] else TxnState(nextId, -1, {}, map[]);
      var txn' := txn.(epoch := Wrap16(txn.epoch + 1), partitions := {});
      (s.(txns := s.txns[id.value := txn'],
          nextProducerId := if txn.producerId == nextId then nextId else s.nextProducerId),
       txn'.producerId, txn'.epoch)
  }

  function Elements(partitions: seq<Partition>): set<Partition> {
    set p | p in partitions
  }

  function AddPartitions(s: State, id: string, epoch: int, partitions: seq<Partition>): State {
    if TxnEpochCheck(s.txns, id, epoch) != NONE then s
    else
      var txn := s.txns[id];
      s.(txns := s.txns[id := txn.(partitions := txn.partitions + Elements(partitions))])
  }

  /** `base` overwritten by each entry of `offsets` in turn. */
  function Overwrite(base: map<OffsetKey, OffsetValue>, offsets: seq<(OffsetKey, OffsetValue)>): map<OffsetKey, OffsetValue> {
    if offsets == [] then base
    else
      var last := offsets[|offsets| - 1];
      Overwrite(base, offsets[..|offsets| - 1])[last.0 := last.1]
  }

  /** Of several entries for a key the last one stands. */
  lemma {:induction false} LastEntryStands(base: map<OffsetKey, OffsetValue>, offsets: seq<(OffsetKey, OffsetValue)>, i: nat)
    requires i < |offsets| && forall j :: i < j < |offsets| ==> offsets[j].0 != offsets[i].0
    ensures offsets[i].0 in Overwrite(base, offsets) && Overwrite(base, offsets)[offsets[i].0] == offsets[i].1
    decreases |offsets|
  {
    if i < |offsets| - 1 {
      var init := offsets[..|offsets| - 1];
      assert init[i] == offsets[i] && forall j :: 0 <= j < |init| ==> init[j] == offsets[j];
      LastEntryStands(base, init, i);
    }
  }

  /** A key without an entry is as it was. */
  lemma {:induction false} NoEntryNoChange(base: map<OffsetKey, OffsetValue>, offsets: seq<(OffsetKey, OffsetValue)>, key: OffsetKey)
    requires forall i :: 0 <= i < |offsets| ==> offsets[i].0 != key
    ensures var after := Overwrite(base, offsets); (key in after <==> key in base) && (key in base ==> after[key] == base[key])
  {
    if offsets != [] {
      NoEntryNoChange(base, offsets[..|offsets| - 1], key);
    }
  }

  /** The last offset written for a key wins; none is visible before the transaction ends. */
  function HoldOffsets(s: State, id: string, epoch: int, offsets: seq<(OffsetKey, OffsetValue)>): State {
    if TxnEpochCheck(s.txns, id, epoch) != NONE then s
    else
      var txn := s.txns[id];
      s.(txns := s.txns[id := txn.(pending := Overwrite(txn.pending, offsets))])
  }

  /** One partition at the end of producer `pid`'s transaction: the marker takes an offset. */
  function Ended(log: PartitionLog, pid: int, committed: bool): PartitionLog {
    if pid !in log.open then log
    else
      log.(open := log.open - {pid},
           nextOffset := log.nextOffset + 1,
           aborted := if committed then log.aborted else log.aborted + [AbortedRun(pid, log.open[pid])])
  }

  function EndAll(logs: map<Partition, PartitionLog>, pid: int, committed: bool): (r: map<Partition, PartitionLog>) {
    map key | key in logs :: Ended(logs[key], pid, committed)
  }

  function EndTxn(s: State, id: string, epoch: int, committed: bool): State {
    if TxnEpochCheck(s.txns, id, epoch) != NONE then s
    else
      var txn := s.txns[id];
      s.(logs := EndAll(s.logs, txn.producerId, committed),
         committed := if committed then s.committed + txn.pending else s.committed,
         txns := s.txns[id := txn.(pending := map[], partitions := {})])
  }

  // ---- the broker's shared state, updated in place ------------------------------------

  /** Append an accepted record set to a partition's log. */
  method Append(log: PartitionLog, txnId: Option<string>, batches: seq<RecordBatch>) returns (log': PartitionLog)
    ensures log' == Appended(log, txnId, batches)
  {
    var appended := 0;
    var i := 0;
    while i < |batches|
      invariant 0 <= i <= |batches| && appended == SpanOf(batches[..i])
    {
      assert batches[..i + 1][..i] == batches[..i];
      appended := appended + batches[i].Span();
      i := i + 1;
    }
    assert batches[..|batches|] == batches;
    var base := log.nextOffset;
    log' := log;
    if txnId.Some? {
      var pid := if batches == [] then -1 else batches[0].producerId;
      if pid >= 0 && pid !in log.open {
        log' := log'.(open := log.open[pid := base]);
      }
    }
    log' := log'.(stored := log.stored + batches, nextOffset := log.nextOffset + appended);
    if Stamped(batches) {
      var first := batches[0];
      var next := Wrap32(first.baseSequence + Clamp32(appended));
      log' := log'.(lastBatch := log.lastBatch[first.producerId := LastBatch(first.baseSequence, next, base)]);
    }
  }

  class ClusterState {
    var logs: map<Partition, PartitionLog>
    var committed: map<OffsetKey, OffsetValue>
    var txns: map<string, TxnState>
    var nextProducerId: int

    ghost function View(): State
      reads this
    {
      State(logs, committed, txns, nextProducerId)
    }

    constructor ()
      ensures View() == State(map[], map[], map[], 0)
    {
      logs, committed, txns, nextProducerId := map[], map[], map[], 0;
    }

    method ProduceExchange(txnId: Option<string>, leads: set<string>, ws: seq<Write>) returns (answers: seq<Answer>)
      modifies this
      ensures (View(), answers) == ProduceAll(old(View()), txnId, leads, ws)
    {
      // Taken before the logs change; a produce never changes a transaction.
      var snapshot := txns;
      answers := [];
      var i := 0;
      while i < |ws|
        invariant 0 <= i <= |ws| && txns == snapshot
        invariant (View(), answers) == ProduceAll(old(View()), txnId, leads, ws[..i])
      {
        assert ws[..i + 1][..i] == ws[..i];
        var answer := ProducePartition(snapshot, txnId, leads, ws[i]);
        answers := answers + [answer];
        i := i + 1;
      }
      assert ws[..|ws|] == ws;
    }

    method ProducePartition(snapshot: map<string, TxnState>, txnId: Option<string>, leads: set<string>, w: Write) returns (answer: Answer)
      requires snapshot == txns
      modifies this
      ensures View() == ProduceOne(old(View()), txnId, leads, w)
      ensures answer == AnswerTo(RuleWrite(old(View()), txnId, leads, w))
    {
      if w.topic.None? {
        return Answer(UNKNOWN_TOPIC_ID, -1);
      }
      if w.topic.value !in leads {
        return Answer(NOT_LEADER_OR_FOLLOWER, -1);
      }
      var key := (w.topic.value, w.index);
      if key !in logs {
        logs := logs[key := EMPTY_LOG];
      }
      var log := logs[key];
      var fenced := FencedAtTheLeader(snapshot, txnId, w.batches);
      if fenced.Some? {
        return Answer(fenced.value, -1);
      }
      var verdict := StampedVerdict(log, w.batches);
      if verdict.Some? {
        return Answer(verdict.value, -1);
      }
      var known := DuplicateOf(log, w.batches);
      if known.Some? {
        return Answer(NONE, known.value);
      }
      var appended := Append(log, txnId, w.batches);
      logs := logs[key := appended];
      return Answer(NONE, log.nextOffset);
    }

    method InitProducerIdExchange(id: Option<string>) returns (producerId: int, epoch: int)
      modifies this
      ensures (View(), producerId, epoch) == InitProducer(old(View()), id)
    {
      if id.None? {
        nextProducerId := nextProducerId + 1;
        return nextProducerId, 0;
      }
      var nextId := nextProducerId + 1;
      var txn := if id.value in txns then txns[id.value] else TxnState(nextId, -1, {}, map[]);
      if txn.producerId == nextId {
        nextProducerId := nextId;
      }
      txn := txn.(epoch := Wrap16(txn.epoch + 1));
      txn := txn.(partitions := {});
      txns := txns[id.value := txn];
      return txn.producerId, txn.epoch;
    }

    method AddPartitionsToTxnExchange(id: string, epoch: int, partitions: seq<Partition>) returns (code: ErrorCode)
      modifies this
      ensures View() == AddPartitions(old(View()), id, epoch, partitions)
      ensures code == TxnEpochCheck(old(txns), id, epoch)
    {
      code := TxnEpochCheck(txns, id, epoch);
      if code == NONE {
        assert old(txns)[id] == old(txns)[id].(partitions := old(txns)[id].partitions + Elements(partitions[..0]));
        var i := 0;
        while i < |partitions|
          invariant 0 <= i <= |partitions| && id in txns
          invariant View() == AddPartitions(old(View()), id, epoch, partitions[..i])
        {
          assert partitions[..i + 1] == partitions[..i] + [partitions[i]];
          assert txns[id].partitions + {partitions[i]} == old(txns)[id].partitions + Elements(partitions[..i + 1]);
          txns := txns[id := txns[id].(partitions := txns[id].partitions + {partitions[i]})];
          i := i + 1;
        }
        assert partitions[..|partitions|] == partitions;
      }
    }

    method TxnOffsetCommitExchange(id: string, epoch: int, offsets: seq<(OffsetKey, OffsetValue)>) returns (code: ErrorCode)
      modifies this
      ensures View() == HoldOffsets(old(View()), id, epoch, offsets)
      ensures code == TxnEpochCheck(old(txns), id, epoch)
    {
      code := TxnEpochCheck(txns, id, epoch);
      if code == NONE {
        var i := 0;
        while i < |offsets|
          invariant 0 <= i <= |offsets| && id in txns
          invariant View() == HoldOffsets(old(View()), id, epoch, offsets[..i])
        {
          assert offsets[..i + 1][..i] == offsets[..i];
          txns := txns[id := txns[id].(pending := txns[id].pending[offsets[i].0 := offsets[i].1])];
          i := i + 1;
        }
        assert offsets[..|offsets|] == offsets;
      }
    }

    method EndTxnExchange(id: string, epoch: int, commit: bool) returns (code: ErrorCode)
      modifies this
      ensures View() == EndTxn(old(View()), id, epoch, commit)
      ensures code == TxnEpochCheck(old(txns), id, epoch)
    {
      code := TxnEpochCheck(txns, id, epoch);
      if code != NONE {
        return;
      }
      var pid := txns[id].producerId;
      // Every partition the producer wrote to, not only the announced ones.
      var touched := set key | key in logs && pid in logs[key].open;
      MarkPartitions(touched, pid, commit);
      var pending := txns[id].pending;
      txns := txns[id := txns[id].(pending := map[])];
      if commit {
        Publish(pending);
      }
      txns := txns[id := txns[id].(partitions := {})];
    }

    method MarkPartitions(touched: set<Partition>, pid: int, commit: bool)
      requires touched == set key | key in logs && pid in logs[key].open
      modifies this`logs
      ensures logs == EndAll(old(logs), pid, commit)
    {
      var rest := touched;
      while rest != {}
        invariant rest <= touched && logs.Keys == old(logs).Keys
        invariant forall key :: key in logs && key !in rest ==> logs[key] == Ended(old(logs)[key], pid, commit)
        invariant forall key :: key in rest ==> logs[key] == old(logs)[key]
      {
        var key :| key in rest;
        rest := rest - {key};
        var log := logs[key];
        var firstOffset := log.open[pid];
        log := log.(open := log.open - {pid});
        log := log.(nextOffset := log.nextOffset + 1);
        if !commit {
          log := log.(aborted := log.aborted + [AbortedRun(pid, firstOffset)]);
        }
        logs := logs[key := log];
      }
    }

    method Publish(pending: map<OffsetKey, OffsetValue>)
      modifies this`committed
      ensures committed == old(committed) + pending
    {
      var rest := pending.Keys;
      while rest != {}
        invariant rest <= pending.Keys
        invariant committed == old(committed) + (pending - rest)
      {
        var key :| key in rest;
        rest := rest - {key};
        committed := committed[key := pending[key]];
      }
      assert pending - {} == pending;
    }
  }
}
