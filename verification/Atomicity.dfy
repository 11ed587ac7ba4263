/** What the transactional broker promises, over whole runs: transactions are all or nothing,
    the stable horizon only advances over decided records, and fencing is permanent. */
module Atomicity {
  import opened Wrappers
  import opened Records
  import opened Broker
  import opened TxnLog
  import opened Transactions

  // ---- all or nothing -----------------------------------------------------------------

  /** After any honest run, in every partition, a transactional batch is committed, aborted
      or undecided exactly as its transaction is; and the committed offsets are exactly those
      held back by committed transactions, applied in the order the transactions ended. */
  lemma AllOrNothing(rs: seq<Request>, key: Partition, i: nat)
    requires HonestRun(GENESIS, rs)
    requires i < |Run(GENESIS, rs).HistAt(key)|
    requires Run(GENESIS, rs).HistAt(key)[i].Data? && Run(GENESIS, rs).HistAt(key)[i].batch.transactional
    ensures var w := Run(GENESIS, rs);
            var e := w.HistAt(key)[i];
            && Verdict(w.HistAt(key), i) == Decision(w.ends, e.batch.producerId, e.txn)
            && w.s.committed == Published(w.ends, w.held, w.order)
  {
    GenesisInv();
    RunInv(GENESIS, rs);
    var w := Run(GENESIS, rs);
    assert Kept(w.ends, w.s.LogAt(key), w.HistAt(key));
  }

  /** Two batches of one transaction share their fate, whichever partitions they are in. */
  lemma OneFate(w: World, key: Partition, i: nat, key': Partition, i': nat)
    requires Inv(w)
    requires i < |w.HistAt(key)| && i' < |w.HistAt(key')|
    requires var e, e' := w.HistAt(key)[i], w.HistAt(key')[i'];
      && e.Data? && e'.Data? && e.batch.transactional && e'.batch.transactional
      && e.batch.producerId == e'.batch.producerId && e.txn == e'.txn
    ensures Verdict(w.HistAt(key), i) == Verdict(w.HistAt(key'), i')
  {
    assert Kept(w.ends, w.s.LogAt(key), w.HistAt(key));
    assert Kept(w.ends, w.s.LogAt(key'), w.HistAt(key'));
  }

  /** An accepted EndTxn gives one verdict to everything its producer had undecided, in every
      partition, announced or not; it leaves every other verdict alone, publishes the held
      offsets if and only if it commits, and leaves nothing of the producer open or held. */
  lemma EndTxnDecidesEverything(w: World, id: string, epoch: int, committed: bool, key: Partition, i: nat)
    requires Kept(w.ends, w.s.LogAt(key), w.HistAt(key)) && TxnEpochCheck(w.s.txns, id, epoch) == NONE
    requires i < |w.HistAt(key)| && w.HistAt(key)[i].Data? && w.HistAt(key)[i].batch.transactional
    ensures var w' := Finish(w, id, epoch, committed);
            var h, h' := w.HistAt(key), w'.HistAt(key);
            var pid := w.s.txns[id].producerId;
            && h <= h'
            && Verdict(h', i) == (if Verdict(h, i).None? && h[i].batch.producerId == pid then Some(committed) else Verdict(h, i))
            && w'.s.committed == (if committed then w.s.committed + w.s.txns[id].pending else w.s.committed)
            && w'.s.txns[id].pending == map[]
            && pid !in w'.s.LogAt(key).open
  {
    FinishAt(w, id, epoch, committed, key);
    MarkedVerdict(w.ends, Finish(w, id, epoch, committed).ends, w.s.LogAt(key), w.HistAt(key), w.s.txns[id].producerId, committed, i);
  }

  /** A second EndTxn under the same epoch is accepted whatever it asks for, and decides nothing.
      So when the answer to a commit is lost and its producer, told that the transaction failed,
      aborts it, the abort is acknowledged and every record stays committed. */
  lemma SecondEndTxnDecidesNothing(w: World, id: string, epoch: int, first: bool, second: bool, key: Partition, i: nat)
    requires Inv(w) && TxnEpochCheck(w.s.txns, id, epoch) == NONE
    requires i < |w.HistAt(key)| && w.HistAt(key)[i].Data? && w.HistAt(key)[i].batch.transactional
    ensures var w1 := Finish(w, id, epoch, first);
            var w2 := Finish(w1, id, epoch, second);
            && TxnEpochCheck(w1.s.txns, id, epoch) == NONE
            && w1.HistAt(key) <= w2.HistAt(key) && i < |w1.HistAt(key)|
            && Verdict(w2.HistAt(key), i) == Verdict(w1.HistAt(key), i)
            && w2.s.committed == w1.s.committed
  {
    EndedIsKept(w, id, epoch, first, key);
    EndTxnDecidesEverything(w, id, epoch, first, key, i);
    EndTxnDecidesEverything(Finish(w, id, epoch, first), id, epoch, second, key, i);
  }

  /** The fate of each transactional batch so far is the same in both histories. */
  ghost predicate SameFates(h: History, h': History) {
    |h| <= |h'| &&
    forall i :: 0 <= i < |h| && h[i].Data? && h[i].batch.transactional ==> h'[i] == h[i] && Verdict(h', i) == Verdict(h, i)
  }

  /** An accepted EndTxn decides nothing and lets go of nothing, as an acknowledged abort may, if
      and only if its producer had nothing open in any partition and held nothing back. */
  lemma EndTxnDoesNothingIffIdle(w: World, id: string, epoch: int, committed: bool)
    requires Inv(w) && TxnEpochCheck(w.s.txns, id, epoch) == NONE
    ensures var w' := Finish(w, id, epoch, committed);
            (forall key: Partition :: SameFates(w.HistAt(key), w'.HistAt(key))) && w'.s.txns[id].pending == w.s.txns[id].pending
            <==> (forall key: Partition :: w.s.txns[id].producerId !in w.s.LogAt(key).open) && w.s.txns[id].pending == map[]
  {
    var w' := Finish(w, id, epoch, committed);
    forall key: Partition ensures SameFates(w.HistAt(key), w'.HistAt(key)) <==> w.s.txns[id].producerId !in w.s.LogAt(key).open {
      assert Kept(w.ends, w.s.LogAt(key), w.HistAt(key));
      EndTxnDecidesNothingAtIff(w, id, epoch, committed, key);
    }
  }

  lemma EndTxnDecidesNothingAtIff(w: World, id: string, epoch: int, committed: bool, key: Partition)
    requires Kept(w.ends, w.s.LogAt(key), w.HistAt(key)) && TxnEpochCheck(w.s.txns, id, epoch) == NONE
    ensures SameFates(w.HistAt(key), Finish(w, id, epoch, committed).HistAt(key))
            <==> w.s.txns[id].producerId !in w.s.LogAt(key).open
  {
    var h, h' := w.HistAt(key), Finish(w, id, epoch, committed).HistAt(key);
    var pid := w.s.txns[id].producerId;
    FinishAt(w, id, epoch, committed, key);
    forall i | 0 <= i < |h| && h[i].Data? && h[i].batch.transactional
      ensures h <= h' && Verdict(h', i) == (if Verdict(h, i).None? && h[i].batch.producerId == pid then Some(committed) else Verdict(h, i))
    {
      EndTxnDecidesEverything(w, id, epoch, committed, key, i);
    }
    OpenIsExact(h, pid);
  }

  lemma EndedIsKept(w: World, id: string, epoch: int, committed: bool, key: Partition)
    requires Inv(w) && TxnEpochCheck(w.s.txns, id, epoch) == NONE
    ensures var w' := Finish(w, id, epoch, committed);
            && Kept(w.ends, w.s.LogAt(key), w.HistAt(key)) && Kept(w'.ends, w'.s.LogAt(key), w'.HistAt(key))
            && TxnEpochCheck(w'.s.txns, id, epoch) == NONE
            && w'.s.txns[id].producerId == w.s.txns[id].producerId
  {
    FinishInv(w, id, epoch, committed);
  }

  // ---- the horizon over a run ---------------------------------------------------------

  lemma {:induction false} HistoryGrowsByWrites(w: World, txnId: Option<string>, leads: set<string>, xs: seq<Write>, key: Partition)
    ensures w.HistAt(key) <= WriteAll(w, txnId, leads, xs).HistAt(key)
  {
    if xs != [] {
      var x := xs[|xs| - 1];
      var w1 := WriteAll(w, txnId, leads, xs[..|xs| - 1]);
      HistoryGrowsByWrites(w, txnId, leads, xs[..|xs| - 1], key);
      var txn := if x.batches == [] then 0 else |EndsOf(w1.ends, x.batches[0].producerId)|;
      LayOutDecidesNothing(w1.HistAt(key), x.batches, txn, 0, 0);
    }
  }

  /** Histories only grow. */
  lemma {:induction false} HistoryGrows(w: World, rs: seq<Request>, key: Partition)
    ensures w.HistAt(key) <= Run(w, rs).HistAt(key)
  {
    if rs != [] {
      var r := rs[|rs| - 1];
      HistoryGrows(w, rs[..|rs| - 1], key);
      if r.Produce? {
        HistoryGrowsByWrites(Run(w, rs[..|rs| - 1]), r.txnId, r.leads, r.writes, key);
      }
    }
  }

  /** However the broker runs on, in every partition the last stable offset never moves back
      and never passes the end, everything transactional below it is decided, and no verdict
      already given changes. */
  lemma StableHorizon(w: World, rs: seq<Request>, key: Partition, horizon: int, horizon': int)
    requires Inv(w) && HonestRun(w, rs)
    requires IsLastStableOffset(w.s.LogAt(key), horizon)
    requires IsLastStableOffset(Run(w, rs).s.LogAt(key), horizon')
    ensures var h, h' := w.HistAt(key), Run(w, rs).HistAt(key);
            && h <= h'
            && horizon <= horizon' <= Run(w, rs).s.LogAt(key).nextOffset
            && (forall i :: 0 <= i < |h'| && h'[i].base < horizon' && h'[i].Data? && h'[i].batch.transactional ==> Verdict(h', i).Some?)
            && (forall i :: 0 <= i < |h| && h[i].Data? && Verdict(h, i).Some? ==> Verdict(h', i) == Verdict(h, i))
  {
    var w' := Run(w, rs);
    var h, h' := w.HistAt(key), w'.HistAt(key);
    RunInv(w, rs);
    HistoryGrows(w, rs, key);
    assert Kept(w.ends, w.s.LogAt(key), h) && Kept(w'.ends, w'.s.LogAt(key), h');
    HorizonAdvances(w.s.LogAt(key), h, horizon, w'.s.LogAt(key), h', horizon');
  }

  lemma HorizonAdvances(log: PartitionLog, h: History, horizon: int, log': PartitionLog, h': History, horizon': int)
    requires Summarizes(log, h) && IsLastStableOffset(log, horizon)
    requires Summarizes(log', h') && IsLastStableOffset(log', horizon') && h <= h'
    ensures horizon <= horizon' <= log'.nextOffset
    ensures forall i :: 0 <= i < |h'| && h'[i].base < horizon' && h'[i].Data? && h'[i].batch.transactional ==> Verdict(h', i).Some?
    ensures forall i :: 0 <= i < |h| && h[i].Data? && Verdict(h, i).Some? ==> Verdict(h', i) == Verdict(h, i)
  {
    var more := h'[|h|..];
    assert h + more == h';
    HorizonNeverRecedes(log, h, horizon, log', more, horizon');
    HorizonIsDecided(log', h', horizon');
    forall i | 0 <= i < |h| && h[i].Data? && Verdict(h, i).Some? ensures Verdict(h', i) == Verdict(h, i) {
      VerdictIsFinal(h, more, i);
    }
  }

  // ---- fencing ------------------------------------------------------------------------

  /** Claiming an id raises its epoch if and only if the epoch is not already the largest an
      `i16` holds; there it wraps, and an older producer's epoch is current again. */
  lemma ClaimRaisesEpoch(s: State, id: string)
    requires id in s.txns && -I16_MAX - 1 <= s.txns[id].epoch <= I16_MAX
    ensures InitProducer(s, Some(id)).2 > s.txns[id].epoch <==> s.txns[id].epoch < I16_MAX
    ensures InitProducer(s, Some(id)).0.txns[id].epoch == InitProducer(s, Some(id)).2
  {
  }

  /** No claim in the run wraps an epoch. */
  predicate NoEpochWrap(w: World, rs: seq<Request>) {
    rs == [] ||
    (var w1 := Run(w, rs[..|rs| - 1]);
     var r := rs[|rs| - 1];
     && NoEpochWrap(w, rs[..|rs| - 1])
     && (r.InitProducerId? && r.id.Some? && r.id.value in w1.s.txns ==> -1 <= w1.s.txns[r.id.value].epoch < I16_MAX))
  }

  lemma {:induction false} WritesKeepTxns(w: World, txnId: Option<string>, leads: set<string>, xs: seq<Write>)
    ensures WriteAll(w, txnId, leads, xs).s.txns == w.s.txns
    ensures WriteAll(w, txnId, leads, xs).s.nextProducerId == w.s.nextProducerId
    ensures WriteAll(w, txnId, leads, xs).s.committed == w.s.committed
  {
    if xs != [] {
      WritesKeepTxns(w, txnId, leads, xs[..|xs| - 1]);
    }
  }

  lemma OnlyClaimsMoveTheEpoch(w: World, r: Request, id: string)
    requires id in w.s.txns
    ensures var txns := Step(w, r).s.txns;
            && id in txns && txns[id].producerId == w.s.txns[id].producerId
            && txns[id].epoch == if r == InitProducerId(Some(id)) then Wrap16(w.s.txns[id].epoch + 1) else w.s.txns[id].epoch
  {
    if r.Produce? {
      WritesKeepTxns(w, r.txnId, r.leads, r.writes);
    }
  }

  /** An id keeps its producer id for good, and its epoch never falls. */
  lemma {:induction false} EpochNeverFalls(w: World, rs: seq<Request>, id: string)
    requires id in w.s.txns && NoEpochWrap(w, rs)
    ensures id in Run(w, rs).s.txns
    ensures Run(w, rs).s.txns[id].producerId == w.s.txns[id].producerId
    ensures Run(w, rs).s.txns[id].epoch >= w.s.txns[id].epoch
  {
    if rs != [] {
      EpochNeverFalls(w, rs[..|rs| - 1], id);
      OnlyClaimsMoveTheEpoch(Run(w, rs[..|rs| - 1]), rs[|rs| - 1], id);
    }
  }

  /** `r` is a request made in the name of `id` by the producer holding `epoch`. */
  predicate CarriesEpoch(r: Request, id: string, epoch: int) {
    match r
    case Produce(txnId, _, writes) =>
      txnId == Some(id) && forall i :: 0 <= i < |writes| ==> writes[i].batches != [] && writes[i].batches[0].producerEpoch == epoch
    case InitProducerId(_) => false
    case AddPartitionsToTxn(txn, e, _) => txn == id && e == epoch
    case TxnOffsetCommit(txn, e, _) => txn == id && e == epoch
    case EndTransaction(txn, e, _) => txn == id && e == epoch
  }

  /** Nothing a client or another producer can observe differs. */
  ghost predicate SameToEveryone(w: World, w': World) {
    && (forall key: Partition :: w'.s.LogAt(key) == w.s.LogAt(key) && w'.HistAt(key) == w.HistAt(key))
    && w'.s.txns == w.s.txns && w'.s.committed == w.s.committed
    && w'.ends == w.ends && w'.held == w.held && w'.order == w.order
  }

  lemma {:induction false} FencedWritesDoNothing(w: World, id: string, leads: set<string>, xs: seq<Write>)
    requires id in w.s.txns
    requires forall i :: 0 <= i < |xs| ==> xs[i].batches != [] && xs[i].batches[0].producerEpoch < w.s.txns[id].epoch
    ensures SameToEveryone(w, WriteAll(w, Some(id), leads, xs))
    ensures |ProduceAll(w.s, Some(id), leads, xs).1| == |xs|
    ensures forall i :: 0 <= i < |xs| ==> ProduceAll(w.s, Some(id), leads, xs).1[i].error != NONE
  {
    if xs != [] {
      FencedWritesDoNothing(w, id, leads, xs[..|xs| - 1]);
      WritesAreTheBrokers(w, Some(id), leads, xs[..|xs| - 1]);
    }
  }

  /** Once a newer epoch of `id` has been issued, whatever happens next, no request carrying
      an older one appends to a log, joins a transaction, holds back an offset, or ends a
      transaction. */
  lemma FencingIsPermanent(w: World, id: string, epoch: int, rs: seq<Request>, r: Request)
    requires id in w.s.txns && epoch < w.s.txns[id].epoch
    requires NoEpochWrap(w, rs) && CarriesEpoch(r, id, epoch)
    ensures SameToEveryone(Run(w, rs), Step(Run(w, rs), r))
  {
    EpochNeverFalls(w, rs, id);
    if r.Produce? {
      FencedWritesDoNothing(Run(w, rs), id, r.leads, r.writes);
    }
  }

  // ---- fencing, wrap and all ----------------------------------------------------------

  /** How often `id` is claimed in the run. */
  function Claims(rs: seq<Request>, id: string): nat {
    if rs == [] then 0 else Claims(rs[..|rs| - 1], id) + if rs[|rs| - 1] == InitProducerId(Some(id)) then 1 else 0
  }

  lemma WrapStep(n: int)
    ensures Wrap16(Wrap16(n) + 1) == Wrap16(n + 1)
  {
  }

  /** The epoch counts claims, in sixteen bits. */
  lemma {:induction false} EpochCountsClaims(w: World, rs: seq<Request>, id: string)
    requires id in w.s.txns && -I16_MAX - 1 <= w.s.txns[id].epoch <= I16_MAX
    ensures id in Run(w, rs).s.txns
    ensures Run(w, rs).s.txns[id].epoch == Wrap16(w.s.txns[id].epoch + Claims(rs, id))
  {
    if rs != [] {
      EpochCountsClaims(w, rs[..|rs| - 1], id);
      WrapStep(w.s.txns[id].epoch + Claims(rs[..|rs| - 1], id));
      OnlyClaimsMoveTheEpoch(Run(w, rs[..|rs| - 1]), rs[|rs| - 1], id);
    }
  }

  /** Where `k` steps round the sixteen-bit circle lead from `e`. */
  lemma WrapAround(e: int, k: nat)
    requires -I16_MAX - 1 <= e <= I16_MAX
    ensures Wrap16(e + k) > e <==> 0 < k % 0x1_0000 <= I16_MAX - e
    ensures Wrap16(e + k) == e <==> k % 0x1_0000 == 0
  {
    var turns, rest := k / 0x1_0000, k % 0x1_0000;
    assert Wrap16(e + k) == Wrap16(e + rest) by {
      assert e + k + 0x8000 == (e + rest + 0x8000) + turns * 0x1_0000;
      assert (e + k + 0x8000) % 0x1_0000 == (e + rest + 0x8000) % 0x1_0000;
    }
  }

  /** Over every run: after `k` further claims of its id, a producer's write under that id is
      fenced if and only if the claims, modulo 2^16, have carried the epoch above its own and not
      yet round to below it; its other requests pass if and only if `k` is a multiple of 2^16. */
  lemma FencingIsExact(w: World, rs: seq<Request>, id: string, log: PartitionLog, batches: seq<RecordBatch>)
    requires id in w.s.txns && -I16_MAX - 1 <= w.s.txns[id].epoch <= I16_MAX
    requires batches != [] && batches[0].producerEpoch == w.s.txns[id].epoch
    ensures var txns, e, k := Run(w, rs).s.txns, w.s.txns[id].epoch, Claims(rs, id);
            && (Rule(txns, log, Some(id), batches) == Refused(PRODUCER_FENCED) <==> 0 < k % 0x1_0000 <= I16_MAX - e)
            && (TxnEpochCheck(txns, id, e) == NONE <==> k % 0x1_0000 == 0)
  {
    EpochCountsClaims(w, rs, id);
    WrapAround(w.s.txns[id].epoch, Claims(rs, id));
  }

  /** Right after the wrap a superseded producer is not fenced: what it writes is treated as if
      nobody had claimed its id, and accepted where it would have been. */
  lemma WrapUnfencesTheOld(w: World, id: string, log: PartitionLog, batches: seq<RecordBatch>)
    requires id in w.s.txns && w.s.txns[id].epoch == I16_MAX
    requires batches != [] && batches[0].producerEpoch == I16_MAX
    ensures Rule(Step(w, InitProducerId(Some(id))).s.txns, log, Some(id), batches) == Rule(w.s.txns, log, Some(id), batches)
    ensures !Stamped(batches) ==> Rule(Step(w, InitProducerId(Some(id))).s.txns, log, Some(id), batches) == Accepted(log.nextOffset)
  {
    FencingIsExact(w, [InitProducerId(Some(id))], id, log, batches);
  }

  function Reclaimed(id: string, n: nat): seq<Request> {
    if n == 0 then [] else Reclaimed(id, n - 1) + [InitProducerId(Some(id))]
  }

  lemma {:induction false} ReclaimedCounts(id: string, n: nat)
    ensures Claims(Reclaimed(id, n), id) == n && HonestRun(GENESIS, Reclaimed(id, n))
    ensures n > 0 ==>
      id in Run(GENESIS, Reclaimed(id, n)).s.txns && Run(GENESIS, Reclaimed(id, n)).s.txns[id].epoch == Wrap16(n - 1)
  {
    if n > 0 {
      var rs := Reclaimed(id, n);
      assert rs[..|rs| - 1] == Reclaimed(id, n - 1);
      ReclaimedCounts(id, n - 1);
      WrapStep(n - 2);
    }
  }

  /** And the wrap is reached: by claiming an id 2^15 times. */
  lemma WrapIsReached(id: string) returns (rs: seq<Request>)
    ensures HonestRun(GENESIS, rs) && id in Run(GENESIS, rs).s.txns && Run(GENESIS, rs).s.txns[id].epoch == I16_MAX
  {
    rs := Reclaimed(id, 0x8000);
    ReclaimedCounts(id, 0x8000);
  }

  /** Only the first batch of a set is looked at, and only under a transactional id: without one,
      or behind a first batch that is current, an old epoch is never noticed. */
  lemma OnlyFirstBatchesAreFenced(txns: map<string, TxnState>, txns': map<string, TxnState>, log: PartitionLog, id: Option<string>,
                                  first: RecordBatch, rest: seq<RecordBatch>)
    ensures Rule(txns, log, None, [first] + rest) == Rule(txns', log, None, [first] + rest)
    ensures Rule(txns, log, id, [first] + rest) == Rule(txns, log, id, [first])
  {
  }

  /** `pid` has been handed out, and not to a transactional id. */
  ghost predicate Unshared(s: State, pid: int) {
    0 <= pid <= s.nextProducerId && forall id :: id in s.txns ==> s.txns[id].producerId != pid
  }

  lemma UnsharedStep(w: World, r: Request, pid: int)
    requires Unshared(w.s, pid)
    ensures Unshared(Step(w, r).s, pid)
  {
    if r.Produce? {
      WritesKeepTxns(w, r.txnId, r.leads, r.writes);
    }
  }

  /** A producer id handed out without a transactional id belongs to no transactional id,
      then or later. */
  lemma {:induction false} PlainIdIsUnshared(w: World, rs: seq<Request>)
    requires IdsDistinct(w.s)
    ensures Unshared(Run(w.(s := InitProducer(w.s, None).0), rs).s, InitProducer(w.s, None).1)
  {
    if rs != [] {
      PlainIdIsUnshared(w, rs[..|rs| - 1]);
      UnsharedStep(Run(w.(s := InitProducer(w.s, None).0), rs[..|rs| - 1]), rs[|rs| - 1], InitProducer(w.s, None).1);
    }
  }

  /** No two transactional ids ever share a producer id. */
  lemma NoIdIsShared(rs: seq<Request>, a: string, b: string)
    requires HonestRun(GENESIS, rs) && a != b
    requires a in Run(GENESIS, rs).s.txns && b in Run(GENESIS, rs).s.txns
    ensures Run(GENESIS, rs).s.txns[a].producerId != Run(GENESIS, rs).s.txns[b].producerId
  {
    GenesisInv();
    RunInv(GENESIS, rs);
  }

  // ---- what a takeover does not do ----------------------------------------------------

  /** Nobody ends a transaction of `id` in the run. */
  predicate NoEndOf(rs: seq<Request>, id: string) {
    rs == [] || (NoEndOf(rs[..|rs| - 1], id) && !(rs[|rs| - 1].EndTransaction? && rs[|rs| - 1].txn == id))
  }

  /** Once `id` has been claimed again and `rs` has happened. */
  function Successor(w: World, id: string, rs: seq<Request>): World {
    Run(Step(w, InitProducerId(Some(id))), rs)
  }

  /** ... and then the new holder's first commit. */
  function FirstCommit(w: World, id: string, rs: seq<Request>): World {
    var t := Successor(w, id, rs);
    if id in t.s.txns then Step(t, EndTransaction(id, t.s.txns[id].epoch, true)) else t
  }

  lemma EndsStay(w: World, r: Request, id: string)
    requires Inv(w) && id in w.s.txns && !(r.EndTransaction? && r.txn == id)
    ensures EndsOf(Step(w, r).ends, w.s.txns[id].producerId) == EndsOf(w.ends, w.s.txns[id].producerId)
  {
    if r.Produce? {
      WritesKeepEnds(w, r.txnId, r.leads, r.writes);
    }
  }

  lemma {:induction false} WritesKeepEnds(w: World, txnId: Option<string>, leads: set<string>, xs: seq<Write>)
    ensures WriteAll(w, txnId, leads, xs).ends == w.ends
  {
    if xs != [] {
      WritesKeepEnds(w, txnId, leads, xs[..|xs| - 1]);
    }
  }

  /** Without an EndTxn of its id, a producer finishes no transaction. */
  lemma {:induction false} NothingEnds(w: World, rs: seq<Request>, id: string)
    requires Inv(w) && HonestRun(w, rs) && id in w.s.txns && NoEndOf(rs, id)
    ensures var t := Run(w, rs); var pid := w.s.txns[id].producerId;
            id in t.s.txns && t.s.txns[id].producerId == pid && EndsOf(t.ends, pid) == EndsOf(w.ends, pid)
  {
    if rs != [] {
      var before := Run(w, rs[..|rs| - 1]);
      NothingEnds(w, rs[..|rs| - 1], id);
      RunInv(w, rs[..|rs| - 1]);
      OnlyClaimsMoveTheEpoch(before, rs[|rs| - 1], id);
      EndsStay(before, rs[|rs| - 1], id);
    }
  }

  lemma StaysUndecided(w: World, rs: seq<Request>, id: string, key: Partition, i: nat)
    requires Inv(w) && HonestRun(w, rs) && id in w.s.txns && NoEndOf(rs, id)
    requires i < |w.HistAt(key)| && Undecided(w.HistAt(key), i, w.s.txns[id].producerId)
    ensures var t := Run(w, rs);
            w.HistAt(key) <= t.HistAt(key) && Undecided(t.HistAt(key), i, w.s.txns[id].producerId)
  {
    var t := Run(w, rs);
    NothingEnds(w, rs, id);
    HistoryGrows(w, rs, key);
    RunInv(w, rs);
    assert Kept(w.ends, w.s.LogAt(key), w.HistAt(key)) && Kept(t.ends, t.s.LogAt(key), t.HistAt(key));
  }

  /** A claim changes no history, and keeps the invariant. */
  lemma ClaimKeeps(w: World, id: string)
    requires Inv(w) && id in w.s.txns
    ensures var w1 := Step(w, InitProducerId(Some(id)));
            && Inv(w1) && w1.hist == w.hist && w1.s.logs == w.s.logs && w1.s.committed == w.s.committed
            && id in w1.s.txns && w1.s.txns[id].producerId == w.s.txns[id].producerId && w1.s.txns[id].pending == w.s.txns[id].pending
  {
    InitInv(w, Some(id));
  }

  lemma SuccessorInv(w: World, id: string, rs: seq<Request>)
    requires Inv(w) && id in w.s.txns && HonestRun(Step(w, InitProducerId(Some(id))), rs) && NoEndOf(rs, id)
    ensures var t := Successor(w, id, rs); Inv(t) && id in t.s.txns && t.s.txns[id].producerId == w.s.txns[id].producerId
  {
    var w1 := Step(w, InitProducerId(Some(id)));
    ClaimKeeps(w, id);
    NothingEnds(w1, rs, id);
    RunInv(w1, rs);
  }

  lemma SuccessorGrows(w: World, id: string, rs: seq<Request>, key: Partition)
    ensures w.HistAt(key) <= Successor(w, id, rs).HistAt(key)
  {
    var w1 := Step(w, InitProducerId(Some(id)));
    assert w1.HistAt(key) == w.HistAt(key);
    HistoryGrows(w1, rs, key);
  }

  lemma KeptAt(w: World, key: Partition)
    requires Inv(w)
    ensures Kept(w.ends, w.s.LogAt(key), w.HistAt(key))
  {
  }

  /** The new holder's world, as far as one partition goes. */
  lemma SuccessorAt(w: World, id: string, rs: seq<Request>, key: Partition)
    requires Inv(w) && id in w.s.txns && HonestRun(Step(w, InitProducerId(Some(id))), rs) && NoEndOf(rs, id)
    ensures var t := Successor(w, id, rs);
            && id in t.s.txns && t.s.txns[id].producerId == w.s.txns[id].producerId
            && Kept(t.ends, t.s.LogAt(key), t.HistAt(key)) && w.HistAt(key) <= t.HistAt(key)
            && FirstCommit(w, id, rs) == Finish(t, id, t.s.txns[id].epoch, true)
  {
    SuccessorInv(w, id, rs);
    KeptAt(Successor(w, id, rs), key);
    SuccessorGrows(w, id, rs, key);
  }

  lemma LeftUndecided(w: World, id: string, rs: seq<Request>, key: Partition, i: nat)
    requires Inv(w) && id in w.s.txns && HonestRun(Step(w, InitProducerId(Some(id))), rs) && NoEndOf(rs, id)
    requires i < |w.HistAt(key)| && Undecided(w.HistAt(key), i, w.s.txns[id].producerId)
    ensures var h := Successor(w, id, rs).HistAt(key); i < |h| && Undecided(h, i, w.s.txns[id].producerId)
  {
    ClaimKeeps(w, id);
    assert Step(w, InitProducerId(Some(id))).HistAt(key) == w.HistAt(key);
    StaysUndecided(Step(w, InitProducerId(Some(id))), rs, id, key, i);
  }

  /** Claiming an id is meant to end what the predecessor left open. The predecessor's open
      batches stay open instead, whatever happens, until the new holder's first commit commits
      them. */
  lemma SuccessorCommitsLeftovers(w: World, id: string, rs: seq<Request>, key: Partition, i: nat)
    requires Inv(w) && id in w.s.txns && HonestRun(Step(w, InitProducerId(Some(id))), rs) && NoEndOf(rs, id)
    requires i < |w.HistAt(key)| && Undecided(w.HistAt(key), i, w.s.txns[id].producerId)
    ensures w.HistAt(key) <= FirstCommit(w, id, rs).HistAt(key)
    ensures Verdict(FirstCommit(w, id, rs).HistAt(key), i) == Some(true)
  {
    var t := Successor(w, id, rs);
    SuccessorAt(w, id, rs, key);
    LeftUndecided(w, id, rs, key, i);
    EndTxnDecidesEverything(t, id, t.s.txns[id].epoch, true, key, i);
  }

  /** None of what the predecessor left undecided in `h` is committed in `h'`. */
  ghost predicate CommitsNoneOf(h: History, h': History, pid: int) {
    |h| <= |h'| &&
    forall i :: 0 <= i < |h| && Undecided(h, i, pid) ==> h'[i] == h[i] && Verdict(h', i) != Some(true)
  }

  lemma HistoryOnlyGrows(w: World, id: string, rs: seq<Request>, key: Partition)
    requires Inv(w) && id in w.s.txns && HonestRun(Step(w, InitProducerId(Some(id))), rs) && NoEndOf(rs, id)
    ensures w.HistAt(key) <= FirstCommit(w, id, rs).HistAt(key)
  {
    var t := Successor(w, id, rs);
    SuccessorAt(w, id, rs, key);
    FinishAt(t, id, t.s.txns[id].epoch, true, key);
  }

  /** In one partition a takeover leaves the predecessor's work undone if and only if none of it
      was open there. */
  lemma PartitionIsCleanIffIdle(w: World, id: string, rs: seq<Request>, key: Partition)
    requires Inv(w) && id in w.s.txns && HonestRun(Step(w, InitProducerId(Some(id))), rs) && NoEndOf(rs, id)
    ensures var pid := w.s.txns[id].producerId;
            pid !in w.s.LogAt(key).open <==> CommitsNoneOf(w.HistAt(key), FirstCommit(w, id, rs).HistAt(key), pid)
  {
    var pid := w.s.txns[id].producerId;
    var h, h' := w.HistAt(key), FirstCommit(w, id, rs).HistAt(key);
    assert Kept(w.ends, w.s.LogAt(key), h);
    OpenIsExact(h, pid);
    if pid in w.s.LogAt(key).open {
      var i :| 0 <= i < |h| && Undecided(h, i, pid);
      SuccessorCommitsLeftovers(w, id, rs, key, i);
      assert !CommitsNoneOf(h, h', pid);
    } else {
      HistoryOnlyGrows(w, id, rs, key);
      assert CommitsNoneOf(h, h', pid);
    }
  }

  /** The offsets held back under `id` during the run, the last one for a key winning. */
  function HeldDuring(w: World, rs: seq<Request>, id: string): map<OffsetKey, OffsetValue> {
    if rs == [] then map[]
    else
      var before := HeldDuring(w, rs[..|rs| - 1], id);
      var r := rs[|rs| - 1];
      if r.TxnOffsetCommit? && r.txn == id && TxnEpochCheck(Run(w, rs[..|rs| - 1]).s.txns, id, r.epoch) == NONE
      then Overwrite(before, r.offsets) else before
  }

  lemma {:induction false} OverwriteSum(a: map<OffsetKey, OffsetValue>, b: map<OffsetKey, OffsetValue>, offsets: seq<(OffsetKey, OffsetValue)>)
    ensures Overwrite(a + b, offsets) == a + Overwrite(b, offsets)
  {
    if offsets != [] {
      OverwriteSum(a, b, offsets[..|offsets| - 1]);
    }
  }

  lemma PendingStep(w: World, r: Request, id: string)
    requires id in w.s.txns && !(r.EndTransaction? && r.txn == id)
    ensures var txns := Step(w, r).s.txns;
            id in txns && txns[id].pending ==
              if r.TxnOffsetCommit? && r.txn == id && TxnEpochCheck(w.s.txns, id, r.epoch) == NONE
              then Overwrite(w.s.txns[id].pending, r.offsets) else w.s.txns[id].pending
  {
    if r.Produce? {
      WritesKeepTxns(w, r.txnId, r.leads, r.writes);
    }
  }

  /** What is held at the end is what was held before, overwritten by what came since. */
  lemma {:induction false} PendingGrows(w: World, rs: seq<Request>, id: string)
    requires id in w.s.txns && NoEndOf(rs, id)
    ensures id in Run(w, rs).s.txns
    ensures Run(w, rs).s.txns[id].pending == w.s.txns[id].pending + HeldDuring(w, rs, id)
  {
    if rs != [] {
      var r := rs[|rs| - 1];
      PendingGrows(w, rs[..|rs| - 1], id);
      PendingStep(Run(w, rs[..|rs| - 1]), r, id);
      if r.TxnOffsetCommit? {
        OverwriteSum(w.s.txns[id].pending, HeldDuring(w, rs[..|rs| - 1], id), r.offsets);
      }
    }
  }

  /** Every held offset is held anew by the new holder, or is committed already with that value. */
  predicate AddsNothing(pending: map<OffsetKey, OffsetValue>, own: map<OffsetKey, OffsetValue>, committed: map<OffsetKey, OffsetValue>) {
    forall k :: k in pending && k !in own ==> k in committed && committed[k] == pending[k]
  }

  lemma SumsAgreeIff(committed: map<OffsetKey, OffsetValue>, pending: map<OffsetKey, OffsetValue>, own: map<OffsetKey, OffsetValue>)
    ensures committed + (pending + own) == committed + own <==> AddsNothing(pending, own, committed)
  {
    var with, without := committed + (pending + own), committed + own;
    if with == without {
      forall k | k in pending && k !in own ensures k in committed && committed[k] == pending[k] {
        assert k in with && with[k] == pending[k];
      }
    }
  }

  /** The predecessor's held offsets stay too, and the new holder's first commit publishes them
      under its own: that differs from publishing its own if and only if one of them is new. */
  lemma OffsetsAreCleanIff(w: World, id: string, rs: seq<Request>)
    requires id in w.s.txns && NoEndOf(rs, id)
    ensures var w1 := Step(w, InitProducerId(Some(id)));
            var before, own, pending := Run(w1, rs).s.committed, HeldDuring(w1, rs, id), w.s.txns[id].pending;
            && FirstCommit(w, id, rs).s.committed == before + (pending + own)
            && (FirstCommit(w, id, rs).s.committed == before + own <==> AddsNothing(pending, own, before))
  {
    var w1 := Step(w, InitProducerId(Some(id)));
    PendingGrows(w1, rs, id);
    SumsAgreeIff(Run(w1, rs).s.committed, w.s.txns[id].pending, HeldDuring(w1, rs, id));
  }

  /** So a takeover keeps out all the predecessor left behind, in every partition and among the
      offsets, if and only if the predecessor had nothing open anywhere and held nothing new;
      whatever happens between the claim and the new holder's first commit. */
  lemma TakeoverIsCleanIffIdle(w: World, id: string, rs: seq<Request>)
    requires Inv(w) && id in w.s.txns && HonestRun(Step(w, InitProducerId(Some(id))), rs) && NoEndOf(rs, id)
    ensures var pid := w.s.txns[id].producerId;
            var t, w' := Successor(w, id, rs), FirstCommit(w, id, rs);
            var own := HeldDuring(Step(w, InitProducerId(Some(id))), rs, id);
            (forall key: Partition :: pid !in w.s.LogAt(key).open) && AddsNothing(w.s.txns[id].pending, own, t.s.committed)
            <==> (forall key: Partition :: CommitsNoneOf(w.HistAt(key), w'.HistAt(key), pid)) && w'.s.committed == t.s.committed + own
  {
    var pid := w.s.txns[id].producerId;
    var w' := FirstCommit(w, id, rs);
    forall key: Partition ensures pid !in w.s.LogAt(key).open <==> CommitsNoneOf(w.HistAt(key), w'.HistAt(key), pid) {
      PartitionIsCleanIffIdle(w, id, rs, key);
    }
    OffsetsAreCleanIff(w, id, rs);
  }
}
