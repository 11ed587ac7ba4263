/** One transactional id, several producers in turn: what the broker still knows of the sequences
    of the producer before, and what becomes of the first batch of the next. */
module Sessions {
  import opened Wrappers
  import opened Records
  import opened Broker
  import opened TxnLog
  import opened Transactions
  import opened Atomicity
  import opened Delivery
  import opened StoredReads

  // ---- what a partition knows of a producer -------------------------------------------

  /** The write is accepted into `key` with a stamp of `pid`. */
  predicate Takes(s: State, txnId: Option<string>, leads: set<string>, x: Write, key: Partition, pid: int) {
    && RuleWrite(s, txnId, leads, x).Accepted? && x.topic.Some? && key == (x.topic.value, x.index)
    && Stamped(x.batches) && x.batches[0].producerId == pid
  }

  predicate SomeTaken(w: World, txnId: Option<string>, leads: set<string>, xs: seq<Write>, key: Partition, pid: int) {
    xs != [] &&
    (SomeTaken(w, txnId, leads, xs[..|xs| - 1], key, pid)
     || Takes(WriteAll(w, txnId, leads, xs[..|xs| - 1]).s, txnId, leads, xs[|xs| - 1], key, pid))
  }

  /** Some stamped batch of `pid` was accepted into `key` during the run. */
  predicate EverTook(rs: seq<Request>, key: Partition, pid: int) {
    rs != [] &&
    (EverTook(rs[..|rs| - 1], key, pid)
     || (var r := rs[|rs| - 1];
         r.Produce? && SomeTaken(Run(GENESIS, rs[..|rs| - 1]), r.txnId, r.leads, r.writes, key, pid)))
  }

  lemma WriteKnows(w: World, txnId: Option<string>, leads: set<string>, x: Write, key: Partition, pid: int)
    ensures pid in WriteOne(w, txnId, leads, x).s.LogAt(key).lastBatch <==>
            pid in w.s.LogAt(key).lastBatch || Takes(w.s, txnId, leads, x, key, pid)
  {
  }

  lemma {:induction false} WritesKnow(w: World, txnId: Option<string>, leads: set<string>, xs: seq<Write>, key: Partition, pid: int)
    ensures pid in WriteAll(w, txnId, leads, xs).s.LogAt(key).lastBatch <==>
            pid in w.s.LogAt(key).lastBatch || SomeTaken(w, txnId, leads, xs, key, pid)
  {
    if xs != [] {
      WritesKnow(w, txnId, leads, xs[..|xs| - 1], key, pid);
      WriteKnows(WriteAll(w, txnId, leads, xs[..|xs| - 1]), txnId, leads, xs[|xs| - 1], key, pid);
    }
  }

  lemma FinishForgetsNothing(w: World, id: string, epoch: int, committed: bool, key: Partition)
    ensures Finish(w, id, epoch, committed).s.LogAt(key).lastBatch == w.s.LogAt(key).lastBatch
  {
  }

  /** A partition knows a producer if and only if it ever accepted a stamped batch of it: nothing
      makes it forget, neither the end of a transaction nor a new claim of its id. */
  lemma {:induction false} KnownIffEverTook(rs: seq<Request>, key: Partition, pid: int)
    ensures pid in Run(GENESIS, rs).s.LogAt(key).lastBatch <==> EverTook(rs, key, pid)
  {
    if rs != [] {
      var w, r := Run(GENESIS, rs[..|rs| - 1]), rs[|rs| - 1];
      KnownIffEverTook(rs[..|rs| - 1], key, pid);
      if r.Produce? {
        WritesKnow(w, r.txnId, r.leads, r.writes, key, pid);
      } else if r.EndTransaction? {
        FinishForgetsNothing(w, r.txn, r.epoch, r.committed, key);
      }
    }
  }

  // ---- the first batch of the next session --------------------------------------------

  /** A batch as the new holder of an id sends it first: its own producer id and epoch, and the
      sequence begun again at zero. */
  predicate IsFirst(s: State, id: string, b: RecordBatch) {
    id in s.txns && b.producerId == s.txns[id].producerId >= 0 && b.producerEpoch == s.txns[id].epoch && b.baseSequence == 0
  }

  /** The new holder's first batch is accepted if and only if the partition would take its
      sequence zero for what is due; if the last batch it knows began at zero too, the batch is
      answered as that one; and otherwise it is a gap. */
  lemma FirstBatchIff(s: State, id: string, log: PartitionLog, b: RecordBatch)
    requires IsFirst(s, id, b)
    ensures var ruling := Rule(s.txns, log, Some(id), [b]);
            && (ruling == Accepted(log.nextOffset) <==> Welcomes(log, b.producerId))
            && (ruling.Repeated? <==> TakesForRepeat(log, b.producerId))
            && (ruling == Refused(OUT_OF_ORDER_SEQUENCE_NUMBER) <==> IsGap(log, b.producerId))
  {
  }

  /** Over every run: after a claim the new holder's first batch in a partition is accepted if no
      stamped batch of the id's producers ever was there; and if one was, only when the last of
      them ended just short of sequence zero. */
  lemma NextSessionIff(rs: seq<Request>, id: string, key: Partition, b: RecordBatch)
    requires id in Run(GENESIS, rs).s.txns
    requires IsFirst(Step(Run(GENESIS, rs), InitProducerId(Some(id))).s, id, b)
    ensures var w := Run(GENESIS, rs);
            var s := Step(w, InitProducerId(Some(id))).s;
            var log, pid := w.s.LogAt(key), w.s.txns[id].producerId;
            && s.LogAt(key) == log && b.producerId == pid
            && (EverTook(rs, key, pid) <==> pid in log.lastBatch)
            && (Rule(s.txns, s.LogAt(key), Some(id), [b]).Accepted? <==>
                  !EverTook(rs, key, pid) || (log.lastBatch[pid].nextSequence == 0 && log.lastBatch[pid].baseSequence != 0))
            && (Rule(s.txns, s.LogAt(key), Some(id), [b]).Repeated? <==>
                  EverTook(rs, key, pid) && log.lastBatch[pid].baseSequence == 0)
  {
    var s := Step(Run(GENESIS, rs), InitProducerId(Some(id))).s;
    KnownIffEverTook(rs, key, b.producerId);
    FirstBatchIff(s, id, s.LogAt(key), b);
  }

  // ---- a run --------------------------------------------------------------------------

  lemma ClaimedAgain(rs: seq<Request>, log: PartitionLog, h: History)
    requires Stands(rs, log, h)
    ensures var w := Run(GENESIS, rs + [InitProducerId(Some("b"))]);
            && HonestRun(GENESIS, rs + [InitProducerId(Some("b"))]) && w.s.LogAt(HERE) == log
            && "b" in w.s.txns && w.s.txns["b"].producerId == 1 && w.s.txns["b"].epoch == 1
            && w.s.txns["b"].pending == Run(GENESIS, rs).s.txns["b"].pending
  {
    RunSnoc(rs, InitProducerId(Some("b")));
  }

  /** The log of one batch, committed. */
  lemma CommittedOnce(x: BatchRecords) returns (rs: seq<Request>, log: PartitionLog, h: History)
    ensures Stands(rs, log, h)
    ensures log == PartitionLog([Fresh(1, 1, 0, x)], 2, map[], [], map[1 := LastBatch(0, 1, 0)])
    ensures Run(GENESIS, rs).s.txns["b"].pending == map[]
  {
    var a := Fresh(1, 1, 0, x);
    Claimed();
    rs := [InitProducerId(Some("b"))];
    var t := Wrote(rs, EMPTY_LOG, [], Some("b"), a);
    log, h := Appended(EMPTY_LOG, Some("b"), [a]), [] + [Data(0, a, t)];
    assert log.stored == [a] && log.nextOffset == 1 && log.open == map[1 := 0];
    rs := rs + [Writes(Some("b"), a)];
    FinishedIt(rs, log, h, true);
    RunSnoc(rs, EndTransaction("b", 0, true));
    log, h := Ended(log, 1, true), Marked(log, h, 1, true);
    rs := rs + [EndTransaction("b", 0, true)];
  }

  /** A producer commits one batch and is replaced, with nothing left open. Its successor's
      first batch, whatever it holds, is answered with offset 0 as a success, and not stored. */
  lemma NextSessionIsLost(x: BatchRecords, y: BatchRecords) returns (rs: seq<Request>)
    ensures HonestRun(GENESIS, rs)
    ensures var s := Run(GENESIS, rs).s;
            var b := Fresh(1, 1, 0, y).(producerEpoch := 1);
            && IsFirst(s, "b", b) && s.LogAt(HERE).open == map[] && s.txns["b"].pending == map[]
            && Rule(s.txns, s.LogAt(HERE), Some("b"), [b]) == Repeated(0)
            && AnswerTo(Repeated(0)).error == NONE
            && ProduceOne(s, Some("b"), {"t"}, Write(Some("t"), 0, [b])).LogAt(HERE) == s.LogAt(HERE)
  {
    var log, h;
    rs, log, h := CommittedOnce(x);
    ClaimedAgain(rs, log, h);
    rs := rs + [InitProducerId(Some("b"))];
    var s := Run(GENESIS, rs).s;
    FirstBatchIff(s, "b", s.LogAt(HERE), Fresh(1, 1, 0, y).(producerEpoch := 1));
  }
}
