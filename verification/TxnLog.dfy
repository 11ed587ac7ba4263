/** What a partition has been through: its record batches and transaction markers in offset
    order. The broker keeps only a summary of this (the open map and the aborted list); this
    module derives the summary, and every record's fate, from the history itself. */
module TxnLog {
  import opened Wrappers
  import opened Records
  import opened Broker

  /** A batch at the offset it was given, tagged with how many transactions its producer had
      finished before it; or the marker that finished one. */
  datatype Entry =
    | Data(base: int, batch: RecordBatch, txn: nat)
    | Marker(base: int, pid: int, committed: bool)
  {
    function Next(): int {
      if Data? then base + batch.Span() else base + 1
    }

    /** A batch written inside a transaction of `producer`. */
    predicate InTxnOf(producer: int) {
      Data? && batch.transactional && batch.producerId == producer
    }
  }

  type History = seq<Entry>

  function EndOf(h: History): int {
    if h == [] then 0 else h[|h| - 1].Next()
  }

  /** The entries take up offsets 0, 1, 2, ... without gap or overlap. */
  predicate Tiled(h: History) {
    h == [] || (Tiled(h[..|h| - 1]) && h[|h| - 1].base == EndOf(h[..|h| - 1]) < EndOf(h))
  }

  // ---- verdicts -----------------------------------------------------------------------

  /** How the next transaction of `pid` to finish at or after entry `j` ended. */
  function NextEnd(h: History, j: nat, pid: int): Option<bool>
    requires j <= |h|
    decreases |h| - j
  {
    if j == |h| then None
    else if h[j].Marker? && h[j].pid == pid then Some(h[j].committed)
    else NextEnd(h, j + 1, pid)
  }

  /** Whether the transaction that wrote entry `i` committed, once that is decided. */
  function Verdict(h: History, i: nat): Option<bool>
    requires i < |h| && h[i].Data?
  {
    NextEnd(h, i + 1, h[i].batch.producerId)
  }

  predicate Undecided(h: History, i: nat, pid: int)
    requires i < |h|
  {
    h[i].InTxnOf(pid) && NextEnd(h, i + 1, pid).None?
  }

  lemma {:induction false} NextEndSnoc(h: History, e: Entry, j: nat, pid: int)
    requires j <= |h|
    ensures NextEnd(h + [e], j, pid) ==
            if NextEnd(h, j, pid).Some? then NextEnd(h, j, pid)
            else if e.Marker? && e.pid == pid then Some(e.committed) else None
    decreases |h| - j
  {
    if j < |h| {
      assert (h + [e])[j] == h[j];
      NextEndSnoc(h, e, j + 1, pid);
    } else {
      assert (h + [e])[j] == e;
      assert NextEnd(h + [e], j + 1, pid) == None;
    }
  }

  /** A verdict once given never changes, whatever the partition goes through afterwards. */
  lemma {:induction false} VerdictIsFinal(h: History, more: History, i: nat)
    requires i < |h| && h[i].Data? && Verdict(h, i).Some?
    ensures Verdict(h + more, i) == Verdict(h, i)
    decreases |more|
  {
    if more == [] {
      assert h + more == h;
    } else {
      var init := more[..|more| - 1];
      VerdictIsFinal(h, init, i);
      NextEndSnoc(h + init, more[|more| - 1], i + 1, h[i].batch.producerId);
      assert h + more == (h + init) + [more[|more| - 1]];
    }
  }

  // ---- the broker's summary, derived from the history ---------------------------------

  function OpenAfter(open: map<int, int>, e: Entry): map<int, int> {
    match e
    case Data(base, batch, _) =>
      if batch.transactional && batch.producerId !in open then open[batch.producerId := base] else open
    case Marker(_, pid, _) => open - {pid}
  }

  /** The summary's open map, folded from the history; `OpenIsExact` says what it means. */
  function OpenOf(h: History): map<int, int> {
    if h == [] then map[] else OpenAfter(OpenOf(h[..|h| - 1]), h[|h| - 1])
  }

  /** The run a marker disowns, if it is an abort of an open transaction. */
  function Disowned(open: map<int, int>, e: Entry): seq<AbortedRun> {
    if e.Marker? && !e.committed && e.pid in open then [AbortedRun(e.pid, open[e.pid])] else []
  }

  /** Aborted transactions in the order they finished. */
  function AbortedOf(h: History): seq<AbortedRun> {
    if h == [] then []
    else AbortedOf(h[..|h| - 1]) + Disowned(OpenOf(h[..|h| - 1]), h[|h| - 1])
  }

  /** The batches of the history as they were produced. */
  function DataOf(h: History): seq<RecordBatch> {
    if h == [] then []
    else
      var last := h[|h| - 1];
      DataOf(h[..|h| - 1]) + if last.Data? then [last.batch] else []
  }

  /** Entry `i` is the first of `pid`'s still undecided ones. */
  ghost predicate FirstUndecided(h: History, pid: int, i: int) {
    0 <= i < |h| && Undecided(h, i, pid) && forall j :: 0 <= j < i ==> !Undecided(h, j, pid)
  }

  /** The open map is exact: it names precisely the producers with undecided batches here,
      each with the offset of its first undecided batch. */
  lemma {:induction false} OpenIsExact(h: History, pid: int)
    ensures pid in OpenOf(h) <==> exists i :: 0 <= i < |h| && Undecided(h, i, pid)
    ensures pid in OpenOf(h) ==> exists i :: FirstUndecided(h, pid, i) && OpenOf(h)[pid] == h[i].base
  {
    if h != [] {
      var init, e := h[..|h| - 1], h[|h| - 1];
      assert h == init + [e];
      OpenIsExact(init, pid);
      forall j | 0 <= j < |init|
        ensures Undecided(h, j, pid) <==> Undecided(init, j, pid) && !(e.Marker? && e.pid == pid)
      {
        NextEndSnoc(init, e, j + 1, pid);
      }
      if pid in OpenOf(h) {
        if pid in OpenOf(init) {
          var i :| FirstUndecided(init, pid, i) && OpenOf(init)[pid] == init[i].base;
          assert FirstUndecided(h, pid, i) && OpenOf(h)[pid] == h[i].base;
        } else {
          assert FirstUndecided(h, pid, |init|);
        }
      }
    }
  }

  // ---- appending ----------------------------------------------------------------------

  /** The history once a produced record set is laid out after it. */
  function LayOut(h: History, batches: seq<RecordBatch>, txn: nat): History {
    if batches == [] then h
    else
      var h1 := LayOut(h, batches[..|batches| - 1], txn);
      h1 + [Data(EndOf(h1), batches[|batches| - 1], txn)]
  }

  /** A data batch of `producer`'s transaction, or of no transaction at all. */
  predicate Belongs(b: RecordBatch, producer: Option<int>) {
    && b.Span() > 0 && !b.control
    && (if producer.Some? then b.transactional && b.producerId == producer.value else !b.transactional)
  }

  predicate Uniform(batches: seq<RecordBatch>, producer: Option<int>) {
    forall i :: 0 <= i < |batches| ==> Belongs(batches[i], producer)
  }

  /** The open map once a record set of `producer`'s transaction lands at `base`. */
  function OpenWith(open: map<int, int>, base: int, batches: seq<RecordBatch>, producer: Option<int>): map<int, int> {
    if producer.Some? && batches != [] && producer.value !in open then open[producer.value := base] else open
  }

  /** `h'` is `h` with a record set of `producer`'s transaction (or of none) appended. */
  ghost predicate Extended(h: History, h': History, batches: seq<RecordBatch>, producer: Option<int>) {
    && Tiled(h')
    && EndOf(h') == EndOf(h) + SpanOf(batches)
    && DataOf(h') == DataOf(h) + batches
    && AbortedOf(h') == AbortedOf(h)
    && OpenOf(h') == OpenWith(OpenOf(h), EndOf(h), batches, producer)
  }

  lemma ExtendByOne(h: History, h1: History, init: seq<RecordBatch>, b: RecordBatch, txn: nat, producer: Option<int>)
    requires Extended(h, h1, init, producer) && Belongs(b, producer)
    ensures Extended(h, h1 + [Data(EndOf(h1), b, txn)], init + [b], producer)
  {
    var e := Data(EndOf(h1), b, txn);
    assert SpanOf(init + [b]) == SpanOf(init) + b.Span() by {
      assert (init + [b])[..|init|] == init;
    }
    Snoc(h1, e);
    assert DataOf(h1 + [e]) == DataOf(h) + (init + [b]);
  }

  /** How a produced record set changes the derived summary. */
  lemma {:induction false} AppendEntries(h: History, batches: seq<RecordBatch>, txn: nat, producer: Option<int>)
    requires Tiled(h) && Uniform(batches, producer)
    ensures Extended(h, LayOut(h, batches, txn), batches, producer)
  {
    if batches == [] {
      assert DataOf(h) + [] == DataOf(h);
    } else {
      var init, b := batches[..|batches| - 1], batches[|batches| - 1];
      AppendEntries(h, init, txn, producer);
      ExtendByOne(h, LayOut(h, init, txn), init, b, txn, producer);
      assert batches == init + [b];
    }
  }

  lemma Snoc(h: History, e: Entry)
    requires Tiled(h) && e.base == EndOf(h) < e.Next()
    ensures Tiled(h + [e]) && EndOf(h + [e]) == e.Next()
    ensures OpenOf(h + [e]) == OpenAfter(OpenOf(h), e)
    ensures AbortedOf(h + [e]) == AbortedOf(h) + Disowned(OpenOf(h), e)
    ensures DataOf(h + [e]) == DataOf(h) + if e.Data? then [e.batch] else []
  {
    assert (h + [e])[..|h|] == h;
  }

  /** Laying a record set out adds its batches to the history and decides nothing. */
  lemma {:induction false} LayOutDecidesNothing(h: History, batches: seq<RecordBatch>, txn: nat, j: nat, pid: int)
    requires j <= |h| + |batches|
    ensures var h' := LayOut(h, batches, txn);
            && |h'| == |h| + |batches| && h <= h'
            && (forall i :: |h| <= i < |h'| ==> h'[i].Data? && h'[i].batch == batches[i - |h|] && h'[i].txn == txn)
            && NextEnd(h', j, pid) == if j <= |h| then NextEnd(h, j, pid) else None
  {
    if batches != [] {
      var init := batches[..|batches| - 1];
      var h1 := LayOut(h, init, txn);
      LayOutDecidesNothing(h, init, txn, if j <= |h| + |init| then j else |h|, pid);
      if j <= |h1| {
        NextEndSnoc(h1, Data(EndOf(h1), batches[|batches| - 1], txn), j, pid);
      }
    }
  }

  /** Entries are in offset order, each taking up at least one offset. */
  lemma {:induction false} TiledInOrder(h: History, i: nat, j: nat)
    requires Tiled(h) && i <= j < |h|
    ensures h[i].base < h[i].Next() && 0 <= h[i].base
    ensures i < j ==> h[i].Next() <= h[j].base
    decreases |h|
  {
    var init := h[..|h| - 1];
    if j < |init| {
      TiledInOrder(init, i, j);
    } else if i < j {
      TiledInOrder(init, i, j - 1);
    } else if init != [] {
      TiledInOrder(init, |init| - 1, |init| - 1);
    }
  }

  // ---- the stable horizon -------------------------------------------------------------

  /** `log` is the broker's summary of the history `h`. */
  ghost predicate Summarizes(log: PartitionLog, h: History) {
    && Tiled(h)
    && log.stored == DataOf(h)
    && log.nextOffset == EndOf(h)
    && log.open == OpenOf(h)
    && log.aborted == AbortedOf(h)
  }

  lemma UndecidedIsAbove(log: PartitionLog, h: History, horizon: int, i: nat)
    requires Summarizes(log, h) && IsLastStableOffset(log, horizon)
    requires i < |h| && h[i].Data? && Undecided(h, i, h[i].batch.producerId)
    ensures horizon <= h[i].base
  {
    var pid := h[i].batch.producerId;
    OpenIsExact(h, pid);
    var f :| FirstUndecided(h, pid, f) && OpenOf(h)[pid] == h[f].base;
    TiledInOrder(h, f, i);
    assert log.open[pid] in log.open.Values;
  }

  /** The last stable offset never passes the end of the log, and every transactional batch
      below it is decided; the offset itself, when short of the end, is an undecided one. */
  lemma HorizonIsDecided(log: PartitionLog, h: History, horizon: int)
    requires Summarizes(log, h) && IsLastStableOffset(log, horizon)
    ensures horizon <= log.nextOffset
    ensures forall i :: 0 <= i < |h| && h[i].base < horizon && h[i].Data? && h[i].batch.transactional ==> Verdict(h, i).Some?
    ensures horizon < log.nextOffset ==>
      exists i :: 0 <= i < |h| && h[i].base == horizon && h[i].Data? && h[i].batch.transactional && Verdict(h, i).None?
  {
    forall i | 0 <= i < |h| && h[i].base < horizon && h[i].Data? && h[i].batch.transactional ensures Verdict(h, i).Some? {
      if Verdict(h, i).None? {
        UndecidedIsAbove(log, h, horizon, i);
      }
    }
    if log.open != map[] {
      var pid := KeyOf(log.open, horizon);
      OpenIsExact(h, pid);
      var f :| FirstUndecided(h, pid, f) && OpenOf(h)[pid] == h[f].base;
      TiledInOrder(h, f, |h| - 1);
      TiledInOrder(h, |h| - 1, |h| - 1);
      assert h[f].base == horizon && Verdict(h, f).None?;
    }
  }

  /** The last stable offset never moves back while a partition's history grows. */
  lemma HorizonNeverRecedes(log: PartitionLog, h: History, horizon: int, log': PartitionLog, more: History, horizon': int)
    requires Summarizes(log, h) && IsLastStableOffset(log, horizon)
    requires Summarizes(log', h + more) && IsLastStableOffset(log', horizon')
    ensures horizon <= horizon'
  {
    HorizonIsDecided(log, h, horizon);
    HorizonIsDecided(log', h + more, horizon');
    EndNeverRecedes(h, more);
    if horizon' < log'.nextOffset {
      var i :| 0 <= i < |h + more| && (h + more)[i].base == horizon' && (h + more)[i].Data?
               && (h + more)[i].batch.transactional && Verdict(h + more, i).None?;
      if i >= |h| {
        NewBasesAreLater(h, more, i);
      } else if Verdict(h, i).Some? {
        VerdictIsFinal(h, more, i);
      }
    }
  }

  lemma NewBasesAreLater(h: History, more: History, i: nat)
    requires Tiled(h + more) && |h| <= i < |h + more|
    ensures EndOf(h) <= (h + more)[i].base
  {
    TiledInOrder(h + more, i, i);
    if h != [] {
      assert (h + more)[|h| - 1] == h[|h| - 1];
      TiledInOrder(h + more, |h| - 1, i);
    }
  }

  lemma EndNeverRecedes(h: History, more: History)
    requires Tiled(h + more)
    ensures EndOf(h) <= EndOf(h + more)
  {
    if more == [] {
      assert h + more == h;
    } else {
      NewBasesAreLater(h, more, |h + more| - 1);
    }
  }
}
