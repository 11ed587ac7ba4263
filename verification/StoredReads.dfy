/** The reference broker's own answer to a fetch: its log as it was produced. No batch in it was
    given its offset, and no marker follows a transaction; what the reader's filter makes of that
    is worked out here, batch by batch. */
module StoredReads {
  import opened Wrappers
  import opened Records
  import opened Broker
  import opened TxnLog
  import opened Transactions
  import opened Consumer
  import opened ReadCommitted
  import opened Reading

  // ---- the filter over stored batches -------------------------------------------------

  /** The state of a fresh filter once it has seen the first `i` stored batches. */
  function FilterBefore(log: PartitionLog, i: nat): Filter
    requires i <= |log.stored|
  {
    FilterAfter(NewFilter(true, Some(log.aborted)), log.stored[..i])
  }

  /** Whether the answer shows its reader the `i`-th stored batch. */
  predicate Shows(log: PartitionLog, i: nat)
    requires i < |log.stored|
  {
    Judge(FilterBefore(log, i), log.stored[i]).1
  }

  /** The runs that have come into force once `batches` were seen. */
  function InForceAfter(runs: set<AbortedRun>, batches: seq<RecordBatch>): set<AbortedRun> {
    if batches == [] then {}
    else
      var last := batches[|batches| - 1];
      InForceAfter(runs, batches[..|batches| - 1]) + if last.producerId >= 0 then Due(runs, last.LastOffset()) else {}
  }

  predicate NoControl(batches: seq<RecordBatch>) {
    batches == [] || (!batches[|batches| - 1].control && NoControl(batches[..|batches| - 1]))
  }

  lemma DueStep(runs: set<AbortedRun>, before: set<AbortedRun>, last: int)
    requires before <= runs
    ensures Due(runs - before, last) + before == Due(runs, last) + before
    ensures runs - before - Due(runs - before, last) == runs - (before + Due(runs, last))
    ensures Producers(before) + Producers(Due(runs - before, last)) == Producers(before + Due(runs, last))
  {
    var all := before + Due(runs, last);
    forall p | p in Producers(all) ensures p in Producers(before) + Producers(Due(runs - before, last)) {
      var r :| r in all && r.producerId == p;
      assert r in before || r in Due(runs - before, last);
    }
    forall p | p in Producers(before) + Producers(Due(runs - before, last)) ensures p in Producers(all) {
      var r :| r in before + Due(runs - before, last) && r.producerId == p;
      assert r in all;
    }
  }

  /** Without markers nothing is ever taken out of the filter's hold. */
  lemma {:induction false} StoredFilterIs(list: seq<AbortedRun>, batches: seq<RecordBatch>)
    requires NoControl(batches)
    ensures var f := FilterAfter(NewFilter(true, Some(list)), batches);
            var reached := InForceAfter(Members(list), batches);
            && f.readCommitted && Sorted(f.aborted) && reached <= Members(list)
            && Members(f.aborted) == Members(list) - reached
            && f.disowned == Producers(reached)
  {
    if batches == [] {
      FreshFilter(list);
    } else {
      var init, last := batches[..|batches| - 1], batches[|batches| - 1];
      StoredFilterIs(list, init);
      if last.producerId >= 0 {
        EnforceIsExact(FilterAfter(NewFilter(true, Some(list)), init), last.LastOffset());
        DueStep(Members(list), InForceAfter(Members(list), init), last.LastOffset());
      }
    }
  }

  /** An aborted run of the batch's producer begins no later than the last offset some batch up
      to this one claims; and that offset is the one it was produced with. */
  ghost predicate Reached(aborted: seq<AbortedRun>, stored: seq<RecordBatch>, i: nat)
    requires i < |stored|
  {
    exists r, j :: r in Members(aborted) && r.producerId == stored[i].producerId && Covers(stored, i, j, r.firstOffset)
  }

  predicate Covers(stored: seq<RecordBatch>, i: nat, j: int, offset: int)
    requires i < |stored|
  {
    0 <= j <= i && stored[j].producerId >= 0 && offset <= stored[j].LastOffset()
  }

  lemma {:induction false} InForceIff(runs: set<AbortedRun>, stored: seq<RecordBatch>, i: nat, r: AbortedRun)
    requires i < |stored|
    ensures r in InForceAfter(runs, stored[..i + 1]) <==> r in runs && exists j :: Covers(stored, i, j, r.firstOffset)
  {
    var upTo := stored[..i + 1];
    assert upTo[..|upTo| - 1] == stored[..i];
    if i > 0 {
      InForceIff(runs, stored, i - 1, r);
      if r in InForceAfter(runs, stored[..i]) {
        var j :| Covers(stored, i - 1, j, r.firstOffset);
        assert Covers(stored, i, j, r.firstOffset);
      }
    }
    if r in Due(runs, stored[i].LastOffset()) && stored[i].producerId >= 0 {
      assert Covers(stored, i, i, r.firstOffset);
    }
    if r in runs && exists j :: Covers(stored, i, j, r.firstOffset) {
      var j :| Covers(stored, i, j, r.firstOffset);
      assert j < i ==> Covers(stored, i - 1, j, r.firstOffset);
    }
  }

  lemma {:induction false} NoControlBefore(batches: seq<RecordBatch>, i: nat)
    requires NoControl(batches) && i < |batches|
    ensures NoControl(batches[..i]) && NoControl(batches[..i + 1]) && !batches[i].control
  {
    var init := batches[..|batches| - 1];
    if i < |init| {
      NoControlBefore(init, i);
      assert init[..i] == batches[..i] && init[..i + 1] == batches[..i + 1];
    } else {
      assert batches[..i + 1] == batches;
    }
  }

  /** The answer shows a stored batch if and only if it is outside any transaction, or no aborted
      run of its producer has been reached. */
  lemma ShowsIff(log: PartitionLog, i: nat)
    requires NoControl(log.stored) && i < |log.stored|
    ensures Shows(log, i) <==> !log.stored[i].transactional || !Reached(log.aborted, log.stored, i)
  {
    var runs, b := Members(log.aborted), log.stored[i];
    NoControlBefore(log.stored, i);
    StoredFilterIs(log.aborted, log.stored[..i]);
    StoredFilterIs(log.aborted, log.stored[..i + 1]);
    assert log.stored[..i + 1][..i] == log.stored[..i];
    forall r ensures r in InForceAfter(runs, log.stored[..i + 1]) <==> r in runs && exists j :: Covers(log.stored, i, j, r.firstOffset) {
      InForceIff(runs, log.stored, i, r);
    }
    assert b.producerId in Producers(InForceAfter(runs, log.stored[..i + 1])) <==> Reached(log.aborted, log.stored, i);
  }

  // ---- against the verdicts -----------------------------------------------------------

  /** Where the batch of entry `i` is stored. */
  function StoredAt(h: History, i: nat): nat
    requires i <= |h|
  {
    |DataOf(h[..i])|
  }

  lemma StoredNext(h: History, i: nat)
    requires i < |h|
    ensures StoredAt(h, i + 1) == StoredAt(h, i) + if h[i].Data? then 1 else 0
    ensures StoredAt(h, 0) == 0
  {
    assert h[..i + 1][..i] == h[..i];
  }

  lemma {:induction false} StoredThere(h: History, i: nat)
    requires i < |h| && h[i].Data?
    ensures StoredAt(h, i) < |DataOf(h)| && DataOf(h)[StoredAt(h, i)] == h[i].batch
  {
    var init := h[..|h| - 1];
    if i < |init| {
      StoredThere(init, i);
      assert init[..i] == h[..i];
    }
  }

  /** Every stored batch is some entry's. */
  lemma {:induction false} EntryOf(h: History, k: nat) returns (i: nat)
    requires k < |DataOf(h)|
    ensures i < |h| && h[i].Data? && StoredAt(h, i) == k
  {
    var init := h[..|h| - 1];
    if k < |DataOf(init)| {
      i := EntryOf(init, k);
      assert init[..i] == h[..i];
    } else {
      i := |init|;
    }
  }

  lemma {:induction false} HonestIsNoControl(h: History)
    requires forall i :: 0 <= i < |h| && h[i].Data? ==> !h[i].batch.control
    ensures NoControl(DataOf(h))
  {
    if h != [] {
      var init, e := h[..|h| - 1], h[|h| - 1];
      HonestIsNoControl(init);
      if e.Data? {
        assert DataOf(h)[..|DataOf(h)| - 1] == DataOf(init);
      } else {
        assert DataOf(h) == DataOf(init);
      }
    }
  }

  /** Whether the broker's answer shows its reader the batch of entry `i`. */
  predicate AnswerShows(log: PartitionLog, h: History, i: nat)
    requires i <= |h|
  {
    StoredAt(h, i) < |log.stored| && Shows(log, StoredAt(h, i))
  }

  ghost predicate AnswerReaches(log: PartitionLog, h: History, i: nat)
    requires i <= |h|
  {
    StoredAt(h, i) < |log.stored| && Reached(log.aborted, log.stored, StoredAt(h, i))
  }

  lemma AnswerShowsIff(log: PartitionLog, h: History, i: nat)
    requires Summarizes(log, h) && WellFormed(h) && i < |h| && h[i].Data?
    ensures AnswerShows(log, h, i) <==> !h[i].batch.transactional || !AnswerReaches(log, h, i)
  {
    HonestIsNoControl(h);
    StoredThere(h, i);
    ShowsIff(log, StoredAt(h, i));
  }

  /** There is no stored batch beside the entries': the answer shows one if and only if it shows
      the batch of the entry it is. */
  lemma EveryStoredIsAnEntry(log: PartitionLog, h: History, k: nat) returns (i: nat)
    requires Summarizes(log, h) && k < |log.stored|
    ensures i < |h| && h[i].Data? && h[i].batch == log.stored[k]
    ensures Shows(log, k) <==> AnswerShows(log, h, i)
  {
    i := EntryOf(h, k);
    StoredThere(h, i);
  }

  /** The answer shows nothing but committed batches if and only if every batch of a transaction
      that has not committed is reached; it hides none of those if and only if no batch of one
      that has is. */
  lemma StoredAnswerIsExactIff(log: PartitionLog, h: History)
    requires Summarizes(log, h) && WellFormed(h)
    ensures (forall i :: 0 <= i < |h| && h[i].Data? && AnswerShows(log, h, i) ==> Visible(h, i)) <==>
            (forall i :: 0 <= i < |h| && h[i].Data? && h[i].batch.transactional && Verdict(h, i) != Some(true) ==> AnswerReaches(log, h, i))
    ensures (forall i :: 0 <= i < |h| && Visible(h, i) ==> AnswerShows(log, h, i)) <==>
            (forall i :: 0 <= i < |h| && h[i].Data? && h[i].batch.transactional && Verdict(h, i) == Some(true) ==> !AnswerReaches(log, h, i))
  {
    forall i | 0 <= i < |h| && h[i].Data?
      ensures AnswerShows(log, h, i) <==> !h[i].batch.transactional || !AnswerReaches(log, h, i)
    {
      AnswerShowsIff(log, h, i);
    }
  }

  /** An aborted batch has its run in the list. */
  lemma UnabortedIsNotRefused(h: History, i: nat)
    requires Tiled(h) && i < |h| && h[i].Data? && h[i].batch.transactional && AbortedOf(h) == []
    ensures Verdict(h, i) != Some(false)
  {
    if Verdict(h, i) == Some(false) {
      var p := h[i].batch.producerId;
      AbortedIsInForce(h, i);
      var m :| InForce(h, i, p, m, h[i].Next() - 1);
      AbortedIsExact(h, p, OpenOf(h[..m])[p]);
      assert EndsRun(h, m, p, OpenOf(h[..m])[p]);
    }
  }

  lemma UnabortedShowsAll(log: PartitionLog, h: History, i: nat)
    requires Summarizes(log, h) && WellFormed(h) && log.aborted == [] && i < |h| && h[i].Data?
    ensures AnswerShows(log, h, i)
    ensures !Visible(h, i) <==> Undecided(h, i, h[i].batch.producerId)
  {
    AnswerShowsIff(log, h, i);
    if h[i].batch.transactional {
      UnabortedIsNotRefused(h, i);
    }
    SurfacedOrVisible(h, i);
  }

  /** While nothing was ever aborted the filter hides nothing, so the answer is safe if and only
      if no transaction is open. */
  lemma UnabortedIsSafeIffIdle(log: PartitionLog, h: History)
    requires Summarizes(log, h) && WellFormed(h) && log.aborted == []
    ensures (forall i :: 0 <= i < |h| && h[i].Data? && AnswerShows(log, h, i) ==> Visible(h, i)) <==> log.open == map[]
  {
    if log.open == map[] {
      forall i | 0 <= i < |h| && h[i].Data? ensures Visible(h, i) {
        UnabortedShowsAll(log, h, i);
        OpenIsExact(h, h[i].batch.producerId);
      }
    } else {
      var pid := HasMember(log.open.Keys);
      OpenIsExact(h, pid);
      var i :| 0 <= i < |h| && Undecided(h, i, pid);
      UnabortedShowsAll(log, h, i);
    }
  }

  // ---- two runs -----------------------------------------------------------------------

  const HERE: Partition := ("t", 0)

  /** A batch as its producer encodes it, with a base offset of zero. */
  function Fresh(span: int, pid: int, sequence: int, records: BatchRecords): RecordBatch {
    RecordBatch(0, span - 1, 0, pid, if pid >= 0 then 0 else -1, sequence, pid >= 0, false, records)
  }

  function Writes(id: Option<string>, b: RecordBatch): Request {
    Produce(id, {"t"}, [Write(Some("t"), 0, [b])])
  }

  lemma WritesIts(w: World, id: Option<string>, b: RecordBatch)
    requires Rule(w.s.txns, w.s.LogAt(HERE), id, [b]).Accepted?
    ensures var w' := Step(w, Writes(id, b));
            && w'.s.LogAt(HERE) == Appended(w.s.LogAt(HERE), id, [b])
            && w'.HistAt(HERE) == w.HistAt(HERE) + [Data(EndOf(w.HistAt(HERE)), b, |EndsOf(w.ends, b.producerId)|)]
            && w'.s.txns == w.s.txns
            && SpanOf([b]) == b.Span()
  {
    var x := Write(Some("t"), 0, [b]);
    var txn := |EndsOf(w.ends, b.producerId)|;
    assert [x][..0] == [] && [b][..0] == [];
    assert LayOut(w.HistAt(HERE), [b], txn) == LayOut(w.HistAt(HERE), [], txn) + [Data(EndOf(w.HistAt(HERE)), b, txn)];
    assert WriteAll(w, id, {"t"}, [x]) == WriteOne(w, id, {"t"}, x);
  }

  lemma RunSnoc(rs: seq<Request>, r: Request)
    ensures Run(GENESIS, rs + [r]) == Step(Run(GENESIS, rs), r)
    ensures HonestRun(GENESIS, rs + [r]) <==> HonestRun(GENESIS, rs) && Honest(Run(GENESIS, rs), r)
  {
    assert (rs + [r])[..|rs|] == rs;
  }

  /** The world of `rs` as far as the partition and the id "b" go. */
  ghost predicate Stands(rs: seq<Request>, log: PartitionLog, h: History) {
    var w := Run(GENESIS, rs);
    && HonestRun(GENESIS, rs) && w.s.LogAt(HERE) == log && w.HistAt(HERE) == h
    && "b" in w.s.txns && w.s.txns["b"].producerId == 1 && w.s.txns["b"].epoch == 0
  }

  lemma Claimed()
    ensures Stands([InitProducerId(Some("b"))], EMPTY_LOG, [])
  {
    RunSnoc([], InitProducerId(Some("b")));
    assert [] + [InitProducerId(Some("b"))] == [InitProducerId(Some("b"))];
  }

  lemma Wrote(rs: seq<Request>, log: PartitionLog, h: History, id: Option<string>, b: RecordBatch) returns (txn: nat)
    requires Stands(rs, log, h) && (id.None? || id == Some("b")) && Belongs(b, if id.None? then None else Some(1))
    requires b.producerEpoch >= 0 || id.None?
    requires Stamped([b]) ==> b.producerId !in log.lastBatch || log.lastBatch[b.producerId].nextSequence == b.baseSequence != log.lastBatch[b.producerId].baseSequence
    ensures Stands(rs + [Writes(id, b)], Appended(log, id, [b]), h + [Data(EndOf(h), b, txn)])
    ensures SpanOf([b]) == b.Span()
  {
    var w := Run(GENESIS, rs);
    RunSnoc(rs, Writes(id, b));
    txn := |EndsOf(w.ends, b.producerId)|;
    WritesIts(w, id, b);
  }

  lemma FinishedIt(rs: seq<Request>, log: PartitionLog, h: History, committed: bool)
    requires Stands(rs, log, h)
    ensures Stands(rs + [EndTransaction("b", 0, committed)], Ended(log, 1, committed), Marked(log, h, 1, committed))
  {
    var w := Run(GENESIS, rs);
    RunSnoc(rs, EndTransaction("b", 0, committed));
    KeptHere(rs);
    FinishAt(w, "b", 0, committed, HERE);
    IdsStay(w, "b", 0, committed);
  }

  lemma IdsStay(w: World, id: string, epoch: int, committed: bool)
    requires id in w.s.txns
    ensures var txns := Finish(w, id, epoch, committed).s.txns;
            id in txns && txns[id].producerId == w.s.txns[id].producerId && txns[id].epoch == w.s.txns[id].epoch
  {
  }

  lemma KeptHere(rs: seq<Request>)
    requires HonestRun(GENESIS, rs)
    ensures var w := Run(GENESIS, rs); Kept(w.ends, w.s.LogAt(HERE), w.HistAt(HERE))
  {
    GenesisInv();
    RunInv(GENESIS, rs);
  }

  lemma OnlyMember(r: AbortedRun)
    ensures Members([r]) == {r}
  {
    assert [r][1..] == [];
  }

  /** A second stored batch, of a producer whose only aborted run begins at `first`. */
  lemma SecondIsShownIff(log: PartitionLog, a: RecordBatch, b: RecordBatch, first: int)
    requires log.stored == [a, b] && NoControl(log.stored) && b.transactional && b.producerId >= 0
    requires log.aborted == [AbortedRun(b.producerId, first)]
    ensures Shows(log, 1) <==> !(first <= b.LastOffset() || (a.producerId >= 0 && first <= a.LastOffset()))
  {
    OnlyMember(AbortedRun(b.producerId, first));
    ShowsIff(log, 1);
    if first <= b.LastOffset() {
      assert AbortedRun(b.producerId, first) in Members(log.aborted) && Covers(log.stored, 1, 1, first);
    }
    if a.producerId >= 0 && first <= a.LastOffset() {
      assert AbortedRun(b.producerId, first) in Members(log.aborted) && Covers(log.stored, 1, 0, first);
    }
  }

  /** The log and the history of an aborted batch behind ten plain records. */
  lemma Ten(x: BatchRecords, y: BatchRecords) returns (rs: seq<Request>, log: PartitionLog, h: History)
    ensures Stands(rs, log, h)
    ensures log.stored == [Fresh(10, -1, -1, x), Fresh(1, 1, 0, y)]
    ensures log.aborted == [AbortedRun(1, 10)] && log.open == map[]
    ensures |h| == 3 && h[0].Data? && h[1].Data? && h[1].batch == log.stored[1] && h[2] == Marker(11, 1, false)
  {
    var a, b := Fresh(10, -1, -1, x), Fresh(1, 1, 0, y);
    Claimed();
    rs := [InitProducerId(Some("b"))];
    var t := Wrote(rs, EMPTY_LOG, [], None, a);
    log, h := Appended(EMPTY_LOG, None, [a]), [] + [Data(0, a, t)];
    assert log == PartitionLog([a], 10, map[], [], map[]);
    rs := rs + [Writes(None, a)];
    var u := Wrote(rs, log, h, Some("b"), b);
    log, h := Appended(log, Some("b"), [b]), h + [Data(EndOf(h), b, u)];
    assert log.stored == [a, b] && log.nextOffset == 11 && log.open == map[1 := 10] && log.aborted == [];
    rs := rs + [Writes(Some("b"), b)];
    FinishedIt(rs, log, h, false);
    log, h := Ended(log, 1, false), Marked(log, h, 1, false);
    rs := rs + [EndTransaction("b", 0, false)];
  }

  /** Nothing is open, and yet an aborted batch is shown: its run is listed as beginning at offset
      10, which no stored batch's last offset comes up to. */
  lemma AbortedIsShown(x: BatchRecords, y: BatchRecords) returns (rs: seq<Request>)
    ensures HonestRun(GENESIS, rs)
    ensures var log, h := Run(GENESIS, rs).s.LogAt(HERE), Run(GENESIS, rs).HistAt(HERE);
            && log.open == map[] && |h| == 3 && h[1].Data? && Verdict(h, 1) == Some(false)
            && AnswerShows(log, h, 1)
  {
    var log, h;
    rs, log, h := Ten(x, y);
    StoredNext(h, 0);
    SecondIsShownIff(log, log.stored[0], log.stored[1], 10);
  }

  /** The log and the history of a committed batch behind an aborted one of the same producer. */
  lemma Two(x: BatchRecords, y: BatchRecords) returns (rs: seq<Request>, log: PartitionLog, h: History)
    ensures Stands(rs, log, h)
    ensures log.stored == [Fresh(1, 1, 0, x), Fresh(1, 1, 1, y)]
    ensures log.aborted == [AbortedRun(1, 0)] && log.open == map[]
    ensures |h| == 4 && h[0].Data? && h[1] == Marker(1, 1, false) && h[2].Data? && h[2].batch == log.stored[1] && h[3] == Marker(3, 1, true)
  {
    var a, b := Fresh(1, 1, 0, x), Fresh(1, 1, 1, y);
    rs, log, h := One(x);
    var u := Wrote(rs, log, h, Some("b"), b);
    log, h := Appended(log, Some("b"), [b]), h + [Data(EndOf(h), b, u)];
    assert log.stored == [a, b] && log.nextOffset == 3 && log.open == map[1 := 2] && log.aborted == [AbortedRun(1, 0)];
    rs := rs + [Writes(Some("b"), b)];
    FinishedIt(rs, log, h, true);
    log, h := Ended(log, 1, true), Marked(log, h, 1, true);
    rs := rs + [EndTransaction("b", 0, true)];
  }

  lemma One(x: BatchRecords) returns (rs: seq<Request>, log: PartitionLog, h: History)
    ensures Stands(rs, log, h)
    ensures log == PartitionLog([Fresh(1, 1, 0, x)], 2, map[], [AbortedRun(1, 0)], map[1 := LastBatch(0, 1, 0)])
    ensures |h| == 2 && h[0].Data? && h[1] == Marker(1, 1, false)
  {
    var a := Fresh(1, 1, 0, x);
    Claimed();
    rs := [InitProducerId(Some("b"))];
    var t := Wrote(rs, EMPTY_LOG, [], Some("b"), a);
    log, h := Appended(EMPTY_LOG, Some("b"), [a]), [] + [Data(0, a, t)];
    assert log.stored == [a] && log.nextOffset == 1 && log.open == map[1 := 0];
    rs := rs + [Writes(Some("b"), a)];
    FinishedIt(rs, log, h, false);
    log, h := Ended(log, 1, false), Marked(log, h, 1, false);
    rs := rs + [EndTransaction("b", 0, false)];
  }

  /** And a committed batch may be hidden: with no marker stored, a producer that aborted once
      stays disowned. */
  lemma CommittedIsHidden(x: BatchRecords, y: BatchRecords) returns (rs: seq<Request>)
    ensures HonestRun(GENESIS, rs)
    ensures var log, h := Run(GENESIS, rs).s.LogAt(HERE), Run(GENESIS, rs).HistAt(HERE);
            && log.open == map[] && |h| == 4 && Visible(h, 2)
            && !AnswerShows(log, h, 2)
  {
    var log, h;
    rs, log, h := Two(x, y);
    StoredNext(h, 0);
    StoredNext(h, 1);
    SecondIsShownIff(log, log.stored[0], log.stored[1], 0);
  }
}
