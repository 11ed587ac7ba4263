/** What the broker answers, over whole runs: who is given which producer id and epoch, what a
    transactional request is refused with, which partitions a transaction has announced, and
    which answer of a produce request belongs to which of its writes. */
module Identities {
  import opened Wrappers
  import opened Records
  import opened Broker
  import opened TxnLog
  import opened Transactions
  import opened Atomicity

  // ---- claims -------------------------------------------------------------------------

  /** The producer id and epoch the `i`-th request, a claim, is answered with. */
  function AnswerAt(rs: seq<Request>, i: nat): (int, int)
    requires i < |rs| && rs[i].InitProducerId?
  {
    var r := InitProducer(Run(GENESIS, rs[..i]).s, rs[i].id);
    (r.1, r.2)
  }

  predicate IsClaim(rs: seq<Request>, i: nat, id: string) {
    i < |rs| && rs[i] == InitProducerId(Some(id))
  }

  /** What a claim is answered is what the broker keeps under the id from then on. */
  lemma ClaimAnswersWhatIsKept(s: State, id: string)
    ensures var (s', producerId, epoch) := InitProducer(s, Some(id));
            && id in s'.txns && producerId == s'.txns[id].producerId && epoch == s'.txns[id].epoch
            && (id in s.txns ==> producerId == s.txns[id].producerId && epoch == Wrap16(s.txns[id].epoch + 1))
            && (id !in s.txns ==> producerId > s.nextProducerId && epoch == 0)
            && s.nextProducerId <= s'.nextProducerId
  {
  }

  /** Ids are handed out below the counter. */
  predicate Counted(s: State) {
    forall id :: id in s.txns ==> s.txns[id].producerId <= s.nextProducerId
  }

  lemma StepCounts(w: World, r: Request)
    requires Counted(w.s)
    ensures Counted(Step(w, r).s) && w.s.nextProducerId <= Step(w, r).s.nextProducerId
  {
    if r.Produce? {
      WritesKeepTxns(w, r.txnId, r.leads, r.writes);
    }
  }

  lemma {:induction false} RunCounts(rs: seq<Request>)
    ensures Counted(Run(GENESIS, rs).s)
  {
    if rs != [] {
      RunCounts(rs[..|rs| - 1]);
      StepCounts(Run(GENESIS, rs[..|rs| - 1]), rs[|rs| - 1]);
    }
  }

  lemma {:induction false} CounterGrows(rs: seq<Request>, i: nat)
    requires i <= |rs|
    ensures Run(GENESIS, rs[..i]).s.nextProducerId <= Run(GENESIS, rs).s.nextProducerId
    decreases |rs|
  {
    if i == |rs| {
      assert rs[..i] == rs;
    } else {
      var init := rs[..|rs| - 1];
      assert init[..i] == rs[..i];
      CounterGrows(init, i);
      RunCounts(init);
      StepCounts(Run(GENESIS, init), rs[|rs| - 1]);
    }
  }

  lemma RunStep(rs: seq<Request>, i: nat)
    requires i < |rs|
    ensures Run(GENESIS, rs[..i + 1]) == Step(Run(GENESIS, rs[..i]), rs[i])
  {
    assert rs[..i + 1][..i] == rs[..i];
  }

  /** No id is handed out above the counter. */
  lemma AnsweredBelow(rs: seq<Request>, i: nat)
    requires i < |rs| && rs[i].InitProducerId?
    ensures AnswerAt(rs, i).0 <= Run(GENESIS, rs).s.nextProducerId
  {
    RunStep(rs, i);
    RunCounts(rs[..i]);
    CounterGrows(rs, i + 1);
  }

  lemma OnlyClaimsName(w: World, r: Request, id: string)
    ensures id in Step(w, r).s.txns <==> id in w.s.txns || r == InitProducerId(Some(id))
  {
    if r.Produce? {
      WritesKeepTxns(w, r.txnId, r.leads, r.writes);
    }
  }

  /** An id is known once it has been claimed, and its epoch counts the claims before the last. */
  lemma {:induction false} ClaimedIff(rs: seq<Request>, id: string)
    ensures id in Run(GENESIS, rs).s.txns <==> Claims(rs, id) > 0
    ensures Claims(rs, id) > 0 ==> Run(GENESIS, rs).s.txns[id].epoch == Wrap16(Claims(rs, id) - 1)
  {
    if rs != [] {
      var w, r := Run(GENESIS, rs[..|rs| - 1]), rs[|rs| - 1];
      ClaimedIff(rs[..|rs| - 1], id);
      OnlyClaimsName(w, r, id);
      if id in w.s.txns {
        OnlyClaimsMoveTheEpoch(w, r, id);
        WrapStep(Claims(rs[..|rs| - 1], id) - 1);
      }
    }
  }

  /** Once claimed, an id keeps its producer id. */
  lemma {:induction false} KeptSince(rs: seq<Request>, i: nat, id: string)
    requires IsClaim(rs, i, id)
    ensures id in Run(GENESIS, rs).s.txns && Run(GENESIS, rs).s.txns[id].producerId == AnswerAt(rs, i).0
    decreases |rs|
  {
    var init := rs[..|rs| - 1];
    if i == |init| {
      assert rs[..i] == init;
    } else {
      assert init[..i] == rs[..i];
      KeptSince(init, i, id);
      OnlyClaimsMoveTheEpoch(Run(GENESIS, init), rs[|rs| - 1], id);
    }
  }

  /** Over every run: every claim of an id is answered with the same producer id, which is what the
      broker holds under it, and with one epoch more than the claim before, beginning at zero, in
      sixteen bits. */
  lemma ClaimsAreAnsweredAlike(rs: seq<Request>, i: nat, j: nat, id: string)
    requires i <= j && IsClaim(rs, i, id) && IsClaim(rs, j, id)
    ensures id in Run(GENESIS, rs).s.txns
    ensures AnswerAt(rs, i).0 == AnswerAt(rs, j).0 == Run(GENESIS, rs).s.txns[id].producerId
    ensures AnswerAt(rs, j).1 == Wrap16(Claims(rs[..j], id))
  {
    KeptSince(rs, i, id);
    KeptSince(rs, j, id);
    ClaimedIff(rs[..j], id);
    if Claims(rs[..j], id) > 0 {
      WrapStep(Claims(rs[..j], id) - 1);
    }
  }

  /** The first claim of an id, and every claim without one, is answered with a producer id above
      all those handed out before, and epoch zero. */
  lemma NewIdsAreNew(rs: seq<Request>, i: nat, j: nat)
    requires i < j < |rs| && rs[i].InitProducerId? && rs[j].InitProducerId?
    requires rs[j].id.Some? ==> Claims(rs[..j], rs[j].id.value) == 0
    ensures AnswerAt(rs, i).0 < AnswerAt(rs, j).0 && AnswerAt(rs, j).1 == 0
  {
    assert rs[..j][..i] == rs[..i];
    AnsweredBelow(rs[..j], i);
    if rs[j].id.Some? {
      ClaimedIff(rs[..j], rs[j].id.value);
    }
  }

  // ---- refusals -----------------------------------------------------------------------

  /** Over every run: a transactional request is refused as unmapped if and only if its id was
      never claimed, passes if and only if it carries the epoch of the last claim, and is refused
      as fenced otherwise. */
  lemma EpochCheckIff(rs: seq<Request>, id: string, epoch: int)
    ensures var code := TxnEpochCheck(Run(GENESIS, rs).s.txns, id, epoch);
            && (code == INVALID_PRODUCER_ID_MAPPING <==> Claims(rs, id) == 0)
            && (code == NONE <==> Claims(rs, id) > 0 && epoch == Wrap16(Claims(rs, id) - 1))
            && (code == PRODUCER_FENCED <==> Claims(rs, id) > 0 && epoch != Wrap16(Claims(rs, id) - 1))
  {
    ClaimedIff(rs, id);
  }

  // ---- announced partitions -----------------------------------------------------------

  /** The request makes a transaction of `id` forget its announced partitions. */
  predicate Forgets(rs: seq<Request>, k: nat, id: string)
    requires k < |rs|
  {
    rs[k] == InitProducerId(Some(id))
    || (rs[k].EndTransaction? && rs[k].txn == id && TxnEpochCheck(Run(GENESIS, rs[..k]).s.txns, id, rs[k].epoch) == NONE)
  }

  predicate Announces(rs: seq<Request>, k: nat, id: string, p: Partition)
    requires k < |rs|
  {
    rs[k].AddPartitionsToTxn? && rs[k].txn == id && p in rs[k].partitions
    && TxnEpochCheck(Run(GENESIS, rs[..k]).s.txns, id, rs[k].epoch) == NONE
  }

  ghost predicate AnnouncedSince(rs: seq<Request>, id: string, p: Partition) {
    exists i :: 0 <= i < |rs| && Announces(rs, i, id, p) && forall k :: i < k < |rs| ==> !Forgets(rs, k, id)
  }

  lemma PartitionsStep(w: World, r: Request, id: string, p: Partition)
    requires id in w.s.txns
    ensures var ok := TxnEpochCheck(w.s.txns, id, if r.AddPartitionsToTxn? || r.EndTransaction? then r.epoch else 0) == NONE;
            id in Step(w, r).s.txns && (p in Step(w, r).s.txns[id].partitions <==>
              if r == InitProducerId(Some(id)) || (r.EndTransaction? && r.txn == id && ok) then false
              else p in w.s.txns[id].partitions || (r.AddPartitionsToTxn? && r.txn == id && ok && p in r.partitions))
  {
    if r.Produce? {
      WritesKeepTxns(w, r.txnId, r.leads, r.writes);
    }
  }

  lemma SamePast(rs: seq<Request>, k: nat, id: string, p: Partition)
    requires k < |rs| - 1
    ensures Announces(rs, k, id, p) <==> Announces(rs[..|rs| - 1], k, id, p)
    ensures Forgets(rs, k, id) <==> Forgets(rs[..|rs| - 1], k, id)
  {
    assert rs[..|rs| - 1][..k] == rs[..k];
  }

  lemma AnnouncedStays(rs: seq<Request>, id: string, p: Partition)
    requires rs != [] && AnnouncedSince(rs[..|rs| - 1], id, p) && !Forgets(rs, |rs| - 1, id)
    ensures AnnouncedSince(rs, id, p)
  {
    var init := rs[..|rs| - 1];
    var i :| 0 <= i < |init| && Announces(init, i, id, p) && forall k :: i < k < |init| ==> !Forgets(init, k, id);
    SamePast(rs, i, id, p);
    forall k | i < k < |rs| ensures !Forgets(rs, k, id) {
      if k < |rs| - 1 {
        SamePast(rs, k, id, p);
      }
    }
  }

  lemma AnnouncedWas(rs: seq<Request>, id: string, p: Partition)
    requires rs != [] && AnnouncedSince(rs, id, p) && !Announces(rs, |rs| - 1, id, p)
    ensures AnnouncedSince(rs[..|rs| - 1], id, p) && !Forgets(rs, |rs| - 1, id)
  {
    var init := rs[..|rs| - 1];
    var i :| 0 <= i < |rs| && Announces(rs, i, id, p) && forall k :: i < k < |rs| ==> !Forgets(rs, k, id);
    SamePast(rs, i, id, p);
    forall k | i < k < |init| ensures !Forgets(init, k, id) {
      SamePast(rs, k, id, p);
    }
  }

  lemma AnnouncedStep(rs: seq<Request>, id: string, p: Partition)
    requires rs != []
    ensures var n := |rs| - 1;
            AnnouncedSince(rs, id, p) <==> Announces(rs, n, id, p) || (AnnouncedSince(rs[..n], id, p) && !Forgets(rs, n, id))
  {
    var n := |rs| - 1;
    if AnnouncedSince(rs[..n], id, p) && !Forgets(rs, n, id) {
      AnnouncedStays(rs, id, p);
    }
    if AnnouncedSince(rs, id, p) && !Announces(rs, n, id, p) {
      AnnouncedWas(rs, id, p);
    }
  }

  /** Over every run: a partition is announced for an id exactly when an accepted request listed it
      and neither a claim of the id nor an accepted EndTxn came after. */
  lemma {:induction false} AnnouncedIff(rs: seq<Request>, id: string, p: Partition)
    ensures id in Run(GENESIS, rs).s.txns && p in Run(GENESIS, rs).s.txns[id].partitions <==> AnnouncedSince(rs, id, p)
  {
    if rs != [] {
      var n := |rs| - 1;
      var w := Run(GENESIS, rs[..n]);
      AnnouncedIff(rs[..n], id, p);
      AnnouncedStep(rs, id, p);
      OnlyClaimsName(w, rs[n], id);
      if id in w.s.txns {
        PartitionsStep(w, rs[n], id, p);
      }
    }
  }

  // ---- the answers of a produce request -----------------------------------------------

  lemma {:induction false} AnswersBefore(s: State, txnId: Option<string>, leads: set<string>, ws: seq<Write>, i: nat)
    requires i < |ws|
    ensures |ProduceAll(s, txnId, leads, ws).1| == |ws|
    ensures ProduceAll(s, txnId, leads, ws).1[i] == AnswerTo(RuleWrite(ProduceAll(s, txnId, leads, ws[..i]).0, txnId, leads, ws[i]))
    decreases |ws|
  {
    var init := ws[..|ws| - 1];
    if i < |init| {
      AnswersBefore(s, txnId, leads, init, i);
      assert init[..i] == ws[..i];
    } else {
      AnswerCount(s, txnId, leads, init);
    }
  }

  lemma {:induction false} AnswerCount(s: State, txnId: Option<string>, leads: set<string>, ws: seq<Write>)
    ensures |ProduceAll(s, txnId, leads, ws).1| == |ws|
  {
    if ws != [] {
      AnswerCount(s, txnId, leads, ws[..|ws| - 1]);
    }
  }

  /** The first batch carries the sequence of the last one the log knows of its producer. */
  predicate Repeats(log: PartitionLog, batches: seq<RecordBatch>) {
    && Stamped(batches) && batches[0].producerId in log.lastBatch
    && log.lastBatch[batches[0].producerId].baseSequence == batches[0].baseSequence
  }

  /** One write and what it is answered: an unresolved topic, a partition led elsewhere, a refusal
      that changes nothing, the offset of the batch it repeats, or the offset from which on its
      batches were appended, behind everything the log held. */
  predicate AnswersWrite(s: State, s': State, leads: set<string>, x: Write, a: Answer) {
    if x.topic.None? then a == Answer(UNKNOWN_TOPIC_ID, -1) && s' == s
    else if x.topic.value !in leads then a == Answer(NOT_LEADER_OR_FOLLOWER, -1) && s' == s
    else
      var key := (x.topic.value, x.index);
      var before, after := s.LogAt(key), s'.LogAt(key);
      if a.error != NONE then
        (a.error == PRODUCER_FENCED || a.error == OUT_OF_ORDER_SEQUENCE_NUMBER) && a.baseOffset == -1 && after == before
      else if Repeats(before, x.batches) then
        a.baseOffset == before.lastBatch[x.batches[0].producerId].baseOffset && after == before
      else
        && a.baseOffset == before.nextOffset && after.stored == before.stored + x.batches
        && after.nextOffset == before.nextOffset + SpanOf(x.batches)
  }

  /** Over every request: as many answers as writes, each about the write in its place. */
  lemma EachWriteIsAnswered(s: State, txnId: Option<string>, leads: set<string>, ws: seq<Write>, i: nat)
    requires i < |ws|
    ensures var answers := ProduceAll(s, txnId, leads, ws).1;
            |answers| == |ws|
            && AnswersWrite(ProduceAll(s, txnId, leads, ws[..i]).0, ProduceAll(s, txnId, leads, ws[..i + 1]).0, leads, ws[i], answers[i])
  {
    AnswersBefore(s, txnId, leads, ws, i);
    assert ws[..i + 1][..i] == ws[..i];
    var before := ProduceAll(s, txnId, leads, ws[..i]).0;
    OneWriteIsAnswered(before, txnId, leads, ws[i]);
  }

  lemma OneWriteIsAnswered(s: State, txnId: Option<string>, leads: set<string>, x: Write)
    ensures AnswersWrite(s, ProduceOne(s, txnId, leads, x), leads, x, AnswerTo(RuleWrite(s, txnId, leads, x)))
  {
  }
}
