/** Whole runs of the broker, one handler at a time, beside a record of everything that has
    happened. The invariant ties the broker's state to that record; the theorems say that a
    transaction is all or nothing and that a fenced producer stays fenced. */
module Transactions {
  import opened Wrappers
  import opened Records
  import opened Broker
  import opened TxnLog

  /** An offset held back by the `txn`-th transaction of a producer. */
  datatype Held = Held(pid: int, txn: nat, key: OffsetKey, value: OffsetValue)

  /** The broker, and what the broker does not keep: each partition's history, how each
      producer's transactions ended, the order they ended in, and every offset held back. */
  datatype World = World(
    s: State,
    hist: map<Partition, History>,
    ends: Ends,
    order: seq<(int, nat)>,
    held: seq<Held>)
  {
    function HistAt(key: Partition): History {
      if key in hist then hist[key] else []
    }
  }

  /** How each producer's finished transactions ended, oldest first. */
  type Ends = map<int, seq<bool>>

  function EndsOf(ends: Ends, pid: int): seq<bool> {
    if pid in ends then ends[pid] else []
  }

  /** How the `txn`-th transaction of `pid` ended, if it has. */
  function Decision(ends: Ends, pid: int, txn: nat): Option<bool> {
    if txn < |EndsOf(ends, pid)| then Some(EndsOf(ends, pid)[txn]) else None
  }

  const GENESIS := World(State(map[], map[], map[], 0), map[], map[], [], [])

  datatype Request =
    | Produce(txnId: Option<string>, leads: set<string>, writes: seq<Write>)
    | InitProducerId(id: Option<string>)
    | AddPartitionsToTxn(txn: string, epoch: int, partitions: seq<Partition>)
    | TxnOffsetCommit(txn: string, epoch: int, offsets: seq<(OffsetKey, OffsetValue)>)
    | EndTransaction(txn: string, epoch: int, committed: bool)

  // ---- steps --------------------------------------------------------------------------

  function WriteOne(w: World, txnId: Option<string>, leads: set<string>, x: Write): World {
    if Unroutable(leads, x).Some? then w
    else
      var key := (x.topic.value, x.index);
      var h := w.HistAt(key);
      var txn := if x.batches == [] then 0 else |EndsOf(w.ends, x.batches[0].producerId)|;
      w.(s := ProduceOne(w.s, txnId, leads, x),
         hist := w.hist[key := if RuleWrite(w.s, txnId, leads, x).Accepted? then LayOut(h, x.batches, txn) else h])
  }

  function WriteAll(w: World, txnId: Option<string>, leads: set<string>, xs: seq<Write>): World {
    if xs == [] then w
    else WriteOne(WriteAll(w, txnId, leads, xs[..|xs| - 1]), txnId, leads, xs[|xs| - 1])
  }

  function Tag(pid: int, txn: nat, offsets: seq<(OffsetKey, OffsetValue)>): seq<Held> {
    seq(|offsets|, i requires 0 <= i < |offsets| => Held(pid, txn, offsets[i].0, offsets[i].1))
  }

  /** The marker a finished transaction leaves in a partition it had open. */
  function Marked(log: PartitionLog, h: History, pid: int, committed: bool): History {
    if pid in log.open then h + [Marker(log.nextOffset, pid, committed)] else h
  }

  function Finish(w: World, id: string, epoch: int, committed: bool): World {
    if TxnEpochCheck(w.s.txns, id, epoch) != NONE then w
    else
      var pid := w.s.txns[id].producerId;
      World(EndTxn(w.s, id, epoch, committed),
            map key | key in w.hist :: Marked(w.s.LogAt(key), w.hist[key], pid, committed),
            w.ends[pid := EndsOf(w.ends, pid) + [committed]],
            w.order + [(pid, |EndsOf(w.ends, pid)|)],
            w.held)
  }

  function Hold(w: World, id: string, epoch: int, offsets: seq<(OffsetKey, OffsetValue)>): World {
    if TxnEpochCheck(w.s.txns, id, epoch) != NONE then w
    else
      var pid := w.s.txns[id].producerId;
      w.(s := HoldOffsets(w.s, id, epoch, offsets), held := w.held + Tag(pid, |EndsOf(w.ends, pid)|, offsets))
  }

  function Step(w: World, r: Request): World {
    match r
    case Produce(txnId, leads, writes) => WriteAll(w, txnId, leads, writes)
    case InitProducerId(id) => w.(s := InitProducer(w.s, id).0)
    case AddPartitionsToTxn(id, epoch, partitions) => w.(s := AddPartitions(w.s, id, epoch, partitions))
    case TxnOffsetCommit(id, epoch, offsets) => Hold(w, id, epoch, offsets)
    case EndTransaction(id, epoch, committed) => Finish(w, id, epoch, committed)
  }

  /** What the batches of an honest produce request may be: those of a transactional id carry
      the producer id issued for it; those without one are not transactional. */
  predicate Honest(w: World, r: Request) {
    r.Produce? ==>
      && (r.txnId.Some? ==> r.txnId.value in w.s.txns)
      && forall i :: 0 <= i < |r.writes| ==> Uniform(r.writes[i].batches, Owner(w.s.txns, r.txnId))
  }

  function Owner(txns: map<string, TxnState>, id: Option<string>): Option<int> {
    if id.Some? && id.value in txns then Some(txns[id.value].producerId) else None
  }

  function Run(w: World, rs: seq<Request>): World {
    if rs == [] then w else Step(Run(w, rs[..|rs| - 1]), rs[|rs| - 1])
  }

  predicate HonestRun(w: World, rs: seq<Request>) {
    rs == [] || (HonestRun(w, rs[..|rs| - 1]) && Honest(Run(w, rs[..|rs| - 1]), rs[|rs| - 1]))
  }

  /** The steps beside the history are the broker's own. */
  lemma {:induction false} StepIsTheBrokers(w: World, r: Request)
    ensures Step(w, r).s == match r
      case Produce(txnId, leads, writes) => ProduceAll(w.s, txnId, leads, writes).0
      case InitProducerId(id) => InitProducer(w.s, id).0
      case AddPartitionsToTxn(id, epoch, partitions) => AddPartitions(w.s, id, epoch, partitions)
      case TxnOffsetCommit(id, epoch, offsets) => HoldOffsets(w.s, id, epoch, offsets)
      case EndTransaction(id, epoch, committed) => EndTxn(w.s, id, epoch, committed)
  {
    if r.Produce? {
      WritesAreTheBrokers(w, r.txnId, r.leads, r.writes);
    }
  }

  lemma {:induction false} WritesAreTheBrokers(w: World, txnId: Option<string>, leads: set<string>, xs: seq<Write>)
    ensures WriteAll(w, txnId, leads, xs).s == ProduceAll(w.s, txnId, leads, xs).0
  {
    if xs != [] {
      WritesAreTheBrokers(w, txnId, leads, xs[..|xs| - 1]);
    }
  }

  // ---- the invariant ------------------------------------------------------------------

  /** Producer ids were issued, and no two transactional ids share one. */
  ghost predicate IdsDistinct(s: State) {
    && s.nextProducerId >= 0
    && (forall id :: id in s.txns ==> 0 < s.txns[id].producerId <= s.nextProducerId)
    && (forall a, b :: a in s.txns && b in s.txns && s.txns[a].producerId == s.txns[b].producerId ==> a == b)
  }

  /** Every transactional batch of the history has the verdict its transaction was given. */
  ghost predicate Faithful(ends: Ends, h: History) {
    && (forall i :: 0 <= i < |h| && h[i].Marker? ==> 0 < h[i].pid)
    && (forall i :: 0 <= i < |h| && h[i].Data? ==> !h[i].batch.control)
    && forall i :: 0 <= i < |h| && h[i].Data? && h[i].batch.transactional ==>
      && 0 < h[i].batch.producerId
      && h[i].txn <= |EndsOf(ends, h[i].batch.producerId)|
      && Verdict(h, i) == Decision(ends, h[i].batch.producerId, h[i].txn)
  }

  ghost predicate Kept(ends: Ends, log: PartitionLog, h: History) {
    Summarizes(log, h) && Faithful(ends, h)
  }

  ghost predicate LogsInv(w: World) {
    forall key: Partition :: Kept(w.ends, w.s.LogAt(key), w.HistAt(key))
  }

  /** The offsets the `txn`-th transaction of `pid` holds back, the last one for a key winning. */
  function HeldBy(held: seq<Held>, pid: int, txn: nat): map<OffsetKey, OffsetValue> {
    if held == [] then map[]
    else
      var h := held[|held| - 1];
      var before := HeldBy(held[..|held| - 1], pid, txn);
      if h.pid == pid && h.txn == txn then before[h.key := h.value] else before
  }

  /** The committed offsets: each committed transaction's, in the order they ended. */
  function Published(ends: Ends, held: seq<Held>, order: seq<(int, nat)>): map<OffsetKey, OffsetValue> {
    if order == [] then map[]
    else
      var (pid, txn) := order[|order| - 1];
      var before := Published(ends, held, order[..|order| - 1]);
      if Decision(ends, pid, txn) == Some(true) then before + HeldBy(held, pid, txn) else before
  }

  ghost predicate OffsetsInv(w: World) {
    && (forall i :: 0 <= i < |w.held| ==> w.held[i].txn <= |EndsOf(w.ends, w.held[i].pid)|)
    && (forall i :: 0 <= i < |w.order| ==> w.order[i].1 < |EndsOf(w.ends, w.order[i].0)|)
    && (forall id :: id in w.s.txns ==>
          var pid := w.s.txns[id].producerId;
          w.s.txns[id].pending == HeldBy(w.held, pid, |EndsOf(w.ends, pid)|))
    && w.s.committed == Published(w.ends, w.held, w.order)
  }

  /** Only issued producer ids have finished transactions or held offsets back. */
  ghost predicate Issued(w: World) {
    && (forall pid :: pid in w.ends ==> pid <= w.s.nextProducerId)
    && (forall i :: 0 <= i < |w.held| ==> w.held[i].pid <= w.s.nextProducerId)
  }

  ghost predicate Inv(w: World) {
    IdsDistinct(w.s) && LogsInv(w) && OffsetsInv(w) && Issued(w)
  }

  // ---- every step keeps the invariant -------------------------------------------------

  lemma GenesisInv()
    ensures Inv(GENESIS)
  {
  }

  /** An accepted record set keeps its partition's summary exact. */
  lemma AcceptedIsSummarized(s: State, id: Option<string>, log: PartitionLog, h: History, batches: seq<RecordBatch>, txn: nat)
    requires IdsDistinct(s) && Summarizes(log, h)
    requires id.Some? ==> id.value in s.txns
    requires Uniform(batches, Owner(s.txns, id))
    ensures Summarizes(Appended(log, id, batches), LayOut(h, batches, txn))
  {
    AppendEntries(h, batches, txn, Owner(s.txns, id));
    assert batches != [] ==> Belongs(batches[0], Owner(s.txns, id));
  }

  /** It gives no verdict, and its batches belong to the transaction its producer has open. */
  lemma AcceptedIsFaithful(ends: Ends, owner: Option<int>, h: History, batches: seq<RecordBatch>, txn: nat)
    requires Faithful(ends, h) && Uniform(batches, owner)
    requires batches != [] ==> txn == |EndsOf(ends, batches[0].producerId)|
    requires owner.Some? ==> 0 < owner.value
    ensures Faithful(ends, LayOut(h, batches, txn))
  {
    var h' := LayOut(h, batches, txn);
    LayOutDecidesNothing(h, batches, txn, 0, 0);
    forall i | 0 <= i < |h'| && h'[i].Data? ensures !h'[i].batch.control {
      assert i >= |h| ==> Belongs(batches[i - |h|], owner);
    }
    forall i | 0 <= i < |h'| && h'[i].Data? && h'[i].batch.transactional
      ensures 0 < h'[i].batch.producerId
      ensures h'[i].txn <= |EndsOf(ends, h'[i].batch.producerId)|
      ensures Verdict(h', i) == Decision(ends, h'[i].batch.producerId, h'[i].txn)
    {
      LayOutDecidesNothing(h, batches, txn, i + 1, h'[i].batch.producerId);
      if i < |h| {
        assert h'[i] == h[i];
      } else {
        assert Belongs(batches[i - |h|], owner) && Belongs(batches[0], owner);
      }
    }
  }

  lemma WriteOneKeeps(w: World, txnId: Option<string>, leads: set<string>, x: Write, k: Partition)
    requires IdsDistinct(w.s) && Kept(w.ends, w.s.LogAt(k), w.HistAt(k))
    requires txnId.Some? ==> txnId.value in w.s.txns
    requires Uniform(x.batches, Owner(w.s.txns, txnId))
    ensures var w' := WriteOne(w, txnId, leads, x); Kept(w'.ends, w'.s.LogAt(k), w'.HistAt(k))
  {
    var w' := WriteOne(w, txnId, leads, x);
    if Unroutable(leads, x).None? && k == (x.topic.value, x.index) && RuleWrite(w.s, txnId, leads, x).Accepted? {
      var txn := if x.batches == [] then 0 else |EndsOf(w.ends, x.batches[0].producerId)|;
      AcceptedIsSummarized(w.s, txnId, w.s.LogAt(k), w.HistAt(k), x.batches, txn);
      AcceptedIsFaithful(w.ends, Owner(w.s.txns, txnId), w.HistAt(k), x.batches, txn);
      assert w'.s.LogAt(k) == Appended(w.s.LogAt(k), txnId, x.batches);
      assert w'.HistAt(k) == LayOut(w.HistAt(k), x.batches, txn);
    } else {
      assert w'.s.LogAt(k) == w.s.LogAt(k) && w'.HistAt(k) == w.HistAt(k);
    }
  }

  lemma WriteOneInv(w: World, txnId: Option<string>, leads: set<string>, x: Write)
    requires Inv(w) && (txnId.Some? ==> txnId.value in w.s.txns)
    requires Uniform(x.batches, Owner(w.s.txns, txnId))
    ensures Inv(WriteOne(w, txnId, leads, x))
  {
    var w' := WriteOne(w, txnId, leads, x);
    forall k: Partition ensures Kept(w'.ends, w'.s.LogAt(k), w'.HistAt(k)) {
      WriteOneKeeps(w, txnId, leads, x, k);
    }
  }

  lemma LogsUnchanged(w: World, w': World)
    requires LogsInv(w) && w'.s.logs == w.s.logs && w'.hist == w.hist && w'.ends == w.ends
    ensures LogsInv(w')
  {
    forall k: Partition ensures Kept(w'.ends, w'.s.LogAt(k), w'.HistAt(k)) {
      assert Kept(w.ends, w.s.LogAt(k), w.HistAt(k));
    }
  }

  lemma {:induction false} WriteAllInv(w: World, txnId: Option<string>, leads: set<string>, xs: seq<Write>)
    requires Inv(w) && (txnId.Some? ==> txnId.value in w.s.txns)
    requires forall i :: 0 <= i < |xs| ==> Uniform(xs[i].batches, Owner(w.s.txns, txnId))
    ensures Inv(WriteAll(w, txnId, leads, xs)) && WriteAll(w, txnId, leads, xs).s.txns == w.s.txns
  {
    if xs != [] {
      WriteAllInv(w, txnId, leads, xs[..|xs| - 1]);
      WriteOneInv(WriteAll(w, txnId, leads, xs[..|xs| - 1]), txnId, leads, xs[|xs| - 1]);
    }
  }

  lemma {:induction false} NeverHeld(held: seq<Held>, pid: int, txn: nat)
    requires forall i :: 0 <= i < |held| ==> held[i].pid != pid || held[i].txn != txn
    ensures HeldBy(held, pid, txn) == map[]
  {
    if held != [] {
      NeverHeld(held[..|held| - 1], pid, txn);
    }
  }

  lemma InitInv(w: World, id: Option<string>)
    requires Inv(w)
    ensures Inv(w.(s := InitProducer(w.s, id).0))
  {
    var w' := w.(s := InitProducer(w.s, id).0);
    LogsUnchanged(w, w');
    NeverHeld(w.held, w.s.nextProducerId + 1, 0);
  }

  lemma AddPartitionsInv(w: World, id: string, epoch: int, partitions: seq<Partition>)
    requires Inv(w)
    ensures Inv(w.(s := AddPartitions(w.s, id, epoch, partitions)))
  {
    var w' := w.(s := AddPartitions(w.s, id, epoch, partitions));
    LogsUnchanged(w, w');
  }

  /** Tagging `offsets` for one transaction adds them to what it holds and to nothing else. */
  lemma {:induction false} HoldMore(held: seq<Held>, pid: int, txn: nat, offsets: seq<(OffsetKey, OffsetValue)>, p: int, t: nat)
    ensures HeldBy(held + Tag(pid, txn, offsets), p, t) ==
            if p == pid && t == txn then Overwrite(HeldBy(held, p, t), offsets) else HeldBy(held, p, t)
  {
    var all := held + Tag(pid, txn, offsets);
    if offsets == [] {
      assert all == held;
    } else {
      var init, last := offsets[..|offsets| - 1], offsets[|offsets| - 1];
      HoldMore(held, pid, txn, init, p, t);
      assert all[..|all| - 1] == held + Tag(pid, txn, init);
      assert all[|all| - 1] == Held(pid, txn, last.0, last.1);
    }
  }

  /** Offsets held by a transaction still open do not touch what has been published. */
  lemma {:induction false} PublishedIgnoresOpen(ends: Ends, held: seq<Held>, ends': Ends, held': seq<Held>, order: seq<(int, nat)>)
    requires forall i :: 0 <= i < |order| ==> order[i].1 < |EndsOf(ends, order[i].0)|
    requires forall p: int, t: nat :: t < |EndsOf(ends, p)| ==>
      Decision(ends', p, t) == Decision(ends, p, t) && HeldBy(held', p, t) == HeldBy(held, p, t)
    ensures Published(ends', held', order) == Published(ends, held, order)
  {
    if order != [] {
      PublishedIgnoresOpen(ends, held, ends', held', order[..|order| - 1]);
      var last := order[|order| - 1];
      assert last.1 < |EndsOf(ends, last.0)|;
      assert Decision(ends', last.0, last.1) == Decision(ends, last.0, last.1);
    }
  }

  lemma HoldKeepsOffsets(w: World, id: string, epoch: int, offsets: seq<(OffsetKey, OffsetValue)>)
    requires IdsDistinct(w.s) && OffsetsInv(w)
    requires TxnEpochCheck(w.s.txns, id, epoch) == NONE
    ensures OffsetsInv(Hold(w, id, epoch, offsets))
  {
    var w' := Hold(w, id, epoch, offsets);
    var pid := w.s.txns[id].producerId;
    var n := |EndsOf(w.ends, pid)|;
    forall p: int, t: nat ensures HeldBy(w'.held, p, t) ==
        if p == pid && t == n then Overwrite(HeldBy(w.held, p, t), offsets) else HeldBy(w.held, p, t)
    {
      HoldMore(w.held, pid, n, offsets, p, t);
    }
    PublishedIgnoresOpen(w.ends, w.held, w'.ends, w'.held, w.order);
  }

  lemma HoldInv(w: World, id: string, epoch: int, offsets: seq<(OffsetKey, OffsetValue)>)
    requires Inv(w)
    ensures Inv(Hold(w, id, epoch, offsets))
  {
    if TxnEpochCheck(w.s.txns, id, epoch) == NONE {
      LogsUnchanged(w, Hold(w, id, epoch, offsets));
      HoldKeepsOffsets(w, id, epoch, offsets);
    }
  }

  /** `w'` follows `w` by one more finished transaction of `pid`. */
  ghost predicate OneMoreEnd(ends: Ends, ends': Ends, pid: int, committed: bool) {
    forall p :: EndsOf(ends', p) == if p == pid then EndsOf(ends, p) + [committed] else EndsOf(ends, p)
  }

  /** The end of a transaction gives its verdict to every batch the transaction wrote here. */
  lemma MarkedVerdict(ends: Ends, ends': Ends, log: PartitionLog, h: History, pid: int, committed: bool, i: nat)
    requires Kept(ends, log, h) && OneMoreEnd(ends, ends', pid, committed)
    requires i < |h| && h[i].Data? && h[i].batch.transactional
    ensures h <= Marked(log, h, pid, committed) && Marked(log, h, pid, committed)[i] == h[i]
    ensures Verdict(Marked(log, h, pid, committed), i) ==
            if Verdict(h, i).None? && h[i].batch.producerId == pid then Some(committed) else Verdict(h, i)
    ensures Verdict(Marked(log, h, pid, committed), i) == Decision(ends', h[i].batch.producerId, h[i].txn)
  {
    var p := h[i].batch.producerId;
    assert Verdict(h, i) == Decision(ends, p, h[i].txn);
    NextEndSnoc(h, Marker(log.nextOffset, pid, committed), i + 1, p);
    OpenIsExact(h, pid);
    assert p == pid && Verdict(h, i).None? ==> Undecided(h, i, pid);
  }

  lemma MarkedInv(ends: Ends, ends': Ends, log: PartitionLog, h: History, pid: int, committed: bool)
    requires Kept(ends, log, h) && OneMoreEnd(ends, ends', pid, committed) && 0 < pid
    ensures Kept(ends', Ended(log, pid, committed), Marked(log, h, pid, committed))
  {
    var h' := Marked(log, h, pid, committed);
    if pid in log.open {
      Snoc(h, Marker(log.nextOffset, pid, committed));
    }
    forall i | 0 <= i < |h'| && h'[i].Data? && h'[i].batch.transactional
      ensures 0 < h'[i].batch.producerId
      ensures h'[i].txn <= |EndsOf(ends', h'[i].batch.producerId)|
      ensures Verdict(h', i) == Decision(ends', h'[i].batch.producerId, h'[i].txn)
    {
      MarkedVerdict(ends, ends', log, h, pid, committed, i);
    }
  }

  /** What an accepted EndTxn does to any one partition, written to or not. */
  lemma FinishAt(w: World, id: string, epoch: int, committed: bool, k: Partition)
    requires TxnEpochCheck(w.s.txns, id, epoch) == NONE && Kept(w.ends, w.s.LogAt(k), w.HistAt(k))
    ensures var w' := Finish(w, id, epoch, committed);
            var pid := w.s.txns[id].producerId;
            && w'.s.LogAt(k) == Ended(w.s.LogAt(k), pid, committed)
            && w'.HistAt(k) == Marked(w.s.LogAt(k), w.HistAt(k), pid, committed)
            && OneMoreEnd(w.ends, w'.ends, pid, committed)
  {
  }

  lemma FinishKeeps(w: World, id: string, epoch: int, committed: bool, k: Partition)
    requires IdsDistinct(w.s)
    requires TxnEpochCheck(w.s.txns, id, epoch) == NONE && Kept(w.ends, w.s.LogAt(k), w.HistAt(k))
    ensures var w' := Finish(w, id, epoch, committed); Kept(w'.ends, w'.s.LogAt(k), w'.HistAt(k))
  {
    var w' := Finish(w, id, epoch, committed);
    FinishAt(w, id, epoch, committed, k);
    MarkedInv(w.ends, w'.ends, w.s.LogAt(k), w.HistAt(k), w.s.txns[id].producerId, committed);
  }

  lemma FinishKeepsHeld(w: World, id: string, epoch: int, committed: bool)
    requires IdsDistinct(w.s) && OffsetsInv(w)
    requires TxnEpochCheck(w.s.txns, id, epoch) == NONE
    ensures var w' := Finish(w, id, epoch, committed);
      forall id :: id in w'.s.txns ==>
        var pid := w'.s.txns[id].producerId;
        w'.s.txns[id].pending == HeldBy(w'.held, pid, |EndsOf(w'.ends, pid)|)
  {
    var pid := w.s.txns[id].producerId;
    NeverHeld(w.held, pid, |EndsOf(w.ends, pid)| + 1);
  }

  lemma FinishKeepsPublished(w: World, id: string, epoch: int, committed: bool)
    requires IdsDistinct(w.s) && OffsetsInv(w)
    requires TxnEpochCheck(w.s.txns, id, epoch) == NONE
    ensures var w' := Finish(w, id, epoch, committed); w'.s.committed == Published(w'.ends, w'.held, w'.order)
  {
    var w' := Finish(w, id, epoch, committed);
    PublishedIgnoresOpen(w.ends, w.held, w'.ends, w'.held, w.order);
    assert w'.order[..|w'.order| - 1] == w.order;
  }

  lemma FinishOffsets(w: World, id: string, epoch: int, committed: bool)
    requires IdsDistinct(w.s) && OffsetsInv(w)
    requires TxnEpochCheck(w.s.txns, id, epoch) == NONE
    ensures OffsetsInv(Finish(w, id, epoch, committed))
  {
    FinishKeepsHeld(w, id, epoch, committed);
    FinishKeepsPublished(w, id, epoch, committed);
  }

  lemma FinishInv(w: World, id: string, epoch: int, committed: bool)
    requires Inv(w)
    ensures Inv(Finish(w, id, epoch, committed))
  {
    var w' := Finish(w, id, epoch, committed);
    if TxnEpochCheck(w.s.txns, id, epoch) == NONE {
      forall k: Partition ensures Kept(w'.ends, w'.s.LogAt(k), w'.HistAt(k)) {
        FinishKeeps(w, id, epoch, committed, k);
      }
      FinishOffsets(w, id, epoch, committed);
    }
  }

  lemma StepInv(w: World, r: Request)
    requires Inv(w) && Honest(w, r)
    ensures Inv(Step(w, r))
  {
    match r
    case Produce(txnId, leads, writes) => WriteAllInv(w, txnId, leads, writes);
    case InitProducerId(id) => InitInv(w, id);
    case AddPartitionsToTxn(id, epoch, partitions) => AddPartitionsInv(w, id, epoch, partitions);
    case TxnOffsetCommit(id, epoch, offsets) => HoldInv(w, id, epoch, offsets);
    case EndTransaction(id, epoch, committed) => FinishInv(w, id, epoch, committed);
  }

  lemma {:induction false} RunInv(w: World, rs: seq<Request>)
    requires Inv(w) && HonestRun(w, rs)
    ensures Inv(Run(w, rs))
  {
    if rs != [] {
      RunInv(w, rs[..|rs| - 1]);
      StepInv(Run(w, rs[..|rs| - 1]), rs[|rs| - 1]);
    }
  }
}
