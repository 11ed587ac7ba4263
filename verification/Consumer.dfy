/** The consumer's fetch path: which batches a fetch surfaces, the bounds on what one
    response may materialize, and the loop that turns batches into records. */
module Consumer {
  import opened Wrappers
  import opened Records
  import opened Broker

  // ---- the batch filter ---------------------------------------------------------------

  /** `aborted` is kept sorted by first offset; `disowned` holds the producers of runs taken off
      its front whose marker has not been seen. */
  datatype Filter = Filter(aborted: seq<AbortedRun>, disowned: set<int>, readCommitted: bool)

  /** A control record's key is a version and then a big-endian marker type; type 0, both its
      bytes zero, is an abort. */
  predicate IsAbortMarker(batch: RecordBatch) {
    && batch.records.Plain?
    && batch.records.records != []
    && var key := batch.records.records[0].key;
    && key.Some?
    && |key.value| >= 4
    && key.value[2] == 0 && key.value[3] == 0
  }

  /** `sort_by_key` on the first offset: stable, so an equal key already ahead stays ahead. */
  function Insert(r: AbortedRun, rs: seq<AbortedRun>): seq<AbortedRun> {
    if rs == [] || r.firstOffset <= rs[0].firstOffset then [r] + rs else [rs[0]] + Insert(r, rs[1..])
  }

  function Sort(rs: seq<AbortedRun>): seq<AbortedRun> {
    if rs == [] then [] else Insert(rs[0], Sort(rs[1..]))
  }

  predicate Sorted(rs: seq<AbortedRun>) {
    |rs| <= 1 || (rs[0].firstOffset <= rs[1].firstOffset && Sorted(rs[1..]))
  }

  function Members(rs: seq<AbortedRun>): set<AbortedRun> {
    if rs == [] then {} else {rs[0]} + Members(rs[1..])
  }

  lemma {:induction false} InsertSorts(r: AbortedRun, rs: seq<AbortedRun>)
    requires Sorted(rs)
    ensures Sorted(Insert(r, rs)) && Members(Insert(r, rs)) == {r} + Members(rs)
  {
    var out := Insert(r, rs);
    if rs != [] && r.firstOffset > rs[0].firstOffset {
      InsertSorts(r, rs[1..]);
      assert out[1..] == Insert(r, rs[1..]);
    } else {
      assert out[1..] == rs;
    }
  }

  lemma {:induction false} SortSorts(rs: seq<AbortedRun>)
    ensures Sorted(Sort(rs)) && Members(Sort(rs)) == Members(rs)
  {
    if rs != [] {
      SortSorts(rs[1..]);
      InsertSorts(rs[0], Sort(rs[1..]));
    }
  }

  lemma {:induction false} HeadIsLeast(rs: seq<AbortedRun>, r: AbortedRun)
    requires Sorted(rs) && r in Members(rs)
    ensures rs[0].firstOffset <= r.firstOffset
  {
    if r != rs[0] {
      HeadIsLeast(rs[1..], r);
    }
  }

  function NewFilter(readCommitted: bool, list: Option<seq<AbortedRun>>): Filter {
    Filter(if readCommitted && list.Some? then Sort(list.value) else [], {}, readCommitted)
  }

  /** Every run that starts at or before `last` comes into force. */
  function Enforce(f: Filter, last: int): Filter
    decreases |f.aborted|
  {
    if f.aborted == [] || f.aborted[0].firstOffset > last then f
    else Enforce(f.(aborted := f.aborted[1..], disowned := f.disowned + {f.aborted[0].producerId}), last)
  }

  function Due(runs: set<AbortedRun>, last: int): set<AbortedRun> {
    set r | r in runs && r.firstOffset <= last
  }

  function Producers(runs: set<AbortedRun>): set<int> {
    set r | r in runs :: r.producerId
  }

  /** Because the list is sorted, taking runs off its front takes off exactly those due. */
  lemma {:induction false} EnforceIsExact(f: Filter, last: int)
    requires Sorted(f.aborted)
    ensures var g := Enforce(f, last);
            && Sorted(g.aborted) && g.readCommitted == f.readCommitted
            && Members(g.aborted) == Members(f.aborted) - Due(Members(f.aborted), last)
            && g.disowned == f.disowned + Producers(Due(Members(f.aborted), last))
    decreases |f.aborted|
  {
    if f.aborted != [] {
      var head := f.aborted[0];
      if head.firstOffset > last {
        forall r | r in Members(f.aborted) ensures r.firstOffset > last {
          HeadIsLeast(f.aborted, r);
        }
      } else {
        var rest := f.aborted[1..];
        EnforceIsExact(f.(aborted := rest, disowned := f.disowned + {head.producerId}), last);
        assert Due(Members(f.aborted), last) == {head} + Due(Members(rest), last);
        assert Producers({head} + Due(Members(rest), last)) == {head.producerId} + Producers(Due(Members(rest), last));
      }
    }
  }

  /** The filter after `batch`, and whether the batch is surfaced. */
  function Judge(f: Filter, batch: RecordBatch): (Filter, bool) {
    var g := if f.readCommitted && batch.producerId >= 0 then Enforce(f, batch.LastOffset()) else f;
    if batch.control then
      (if g.readCommitted && IsAbortMarker(batch) then g.(disowned := g.disowned - {batch.producerId}) else g, false)
    else
      (g, !(g.readCommitted && batch.transactional && batch.producerId in g.disowned))
  }

  class BatchFilter {
    var aborted: seq<AbortedRun>
    var disowned: set<int>
    const readCommitted: bool

    ghost function View(): Filter
      reads this
    {
      Filter(aborted, disowned, readCommitted)
    }

    constructor (readCommitted: bool, list: Option<seq<AbortedRun>>)
      ensures View() == NewFilter(readCommitted, list)
    {
      this.readCommitted := readCommitted;
      aborted := if readCommitted && list.Some? then Sort(list.value) else [];
      disowned := {};
    }

    method Keeps(batch: RecordBatch) returns (keep: bool)
      modifies this
      ensures (View(), keep) == Judge(old(View()), batch)
    {
      if readCommitted && batch.producerId >= 0 {
        var last := batch.baseOffset + batch.lastOffsetDelta;
        while aborted != [] && aborted[0].firstOffset <= last
          invariant Enforce(View(), last) == Enforce(old(View()), last)
          decreases |aborted|
        {
          disowned := disowned + {aborted[0].producerId};
          aborted := aborted[1..];
        }
      }
      if batch.control {
        if readCommitted && IsAbortMarker(batch) {
          disowned := disowned - {batch.producerId};
        }
        return false;
      }
      return !(readCommitted && batch.transactional && batch.producerId in disowned);
    }
  }

  // ---- what one response may materialize ----------------------------------------------

  datatype FetchError = ProtocolViolation

  const MIN_RECORD_WIRE_LEN := 7
  const MAX_FETCH_DECOMPRESSED := 64 * 1024 * 1024

  /** Records and decompressed bytes the response may still spend. */
  datatype Allowance = Allowance(recordsLeft: nat, decompressedLeft: nat)

  class FetchBudget {
    var recordsLeft: nat
    var decompressedLeft: nat

    ghost function View(): Allowance
      reads this
    {
      Allowance(recordsLeft, decompressedLeft)
    }

    constructor (records: nat, decompressed: nat)
      ensures View() == Allowance(records, decompressed)
    {
      recordsLeft, decompressedLeft := records, decompressed;
    }

    /** Refuses rather than truncates: a refused claim spends nothing. */
    method ClaimRecords(count: nat) returns (ok: bool)
      modifies this`recordsLeft
      ensures ok <==> count <= old(recordsLeft)
      ensures recordsLeft == if ok then old(recordsLeft) - count else old(recordsLeft)
    {
      if count > recordsLeft {
        return false;
      }
      recordsLeft := recordsLeft - count;
      return true;
    }

    method ClaimDecompressed(len: nat) returns (ok: bool)
      modifies this`decompressedLeft
      ensures ok <==> len <= old(decompressedLeft)
      ensures decompressedLeft == if ok then old(decompressedLeft) - len else old(decompressedLeft)
    {
      if len > decompressedLeft {
        return false;
      }
      decompressedLeft := decompressedLeft - len;
      return true;
    }
  }

  /** What a codec makes of a payload: its decompressed size and the records those bytes
      decode to, or a failure of either. */
  datatype Opened = Unreadable | Readable(size: nat, records: seq<Record>)

  type Codec = Bytes -> Opened

  // ---- the batch loop -----------------------------------------------------------------

  datatype ConsumedRecord = ConsumedRecord(offset: int, timestamp: int, key: Option<Bytes>, value: Option<Bytes>, headers: seq<RecordHeader>)

  function Materialize(batch: RecordBatch, r: Record): ConsumedRecord {
    ConsumedRecord(batch.baseOffset + r.offsetDelta, batch.baseTimestamp + r.timestampDelta, r.key, r.value, r.headers)
  }

  /** A batch's records at absolute positions, leaving out those before `minOffset`. */
  function Push(batch: RecordBatch, rs: seq<Record>, minOffset: int): seq<ConsumedRecord> {
    if rs == [] then []
    else
      var c := Materialize(batch, rs[|rs| - 1]);
      Push(batch, rs[..|rs| - 1], minOffset) + if c.offset < minOffset then [] else [c]
  }

  /** The records of a batch, once its claims are known to be good. */
  function Contents(codec: Codec, batch: RecordBatch): seq<Record> {
    match batch.records
    case Plain(records) => records
    case Compressed(_, payload) => if codec(payload).Readable? then codec(payload).records else []
  }

  /** Charging a batch to the response: the declared count of a compressed batch is checked
      against its decompressed length before it is charged, and must then be exact. */
  function Charge(a: Allowance, codec: Codec, batch: RecordBatch): Result<Allowance, FetchError> {
    match batch.records
    case Plain(records) =>
      if |records| > a.recordsLeft then Err(ProtocolViolation)
      else Ok(a.(recordsLeft := a.recordsLeft - |records|))
    case Compressed(count, payload) =>
      var contents := codec(payload);
      if count < 0 || contents.Unreadable? || contents.size > a.decompressedLeft
         || count > contents.size / MIN_RECORD_WIRE_LEN || count > a.recordsLeft || count != |contents.records|
      then Err(ProtocolViolation)
      else Ok(Allowance(a.recordsLeft - count, a.decompressedLeft - contents.size))
  }

  /** How far a fetch has got: the filter, the allowance, the records, the next position. */
  datatype Progress = Progress(filter: Filter, left: Allowance, records: seq<ConsumedRecord>, next: int)

  function ReadBatch(p: Progress, codec: Codec, batch: RecordBatch, offset: int): Result<Progress, FetchError> {
    var (filter, keep) := Judge(p.filter, batch);
    var next := Max(p.next, batch.LastOffset() + 1);
    if !keep then Ok(p.(filter := filter, next := next))
    else
      var left :- Charge(p.left, codec, batch);
      Ok(Progress(filter, left, p.records + Push(batch, Contents(codec, batch), offset), next))
  }

  function ReadBatches(start: Progress, codec: Codec, batches: seq<RecordBatch>, offset: int): Result<Progress, FetchError> {
    if batches == [] then Ok(start)
    else
      var p :- ReadBatches(start, codec, batches[..|batches| - 1], offset);
      ReadBatch(p, codec, batches[|batches| - 1], offset)
  }

  function Fetch(readCommitted: bool, list: Option<seq<AbortedRun>>, maxRecords: nat, codec: Codec, batches: seq<RecordBatch>, offset: int): Result<Progress, FetchError> {
    ReadBatches(Progress(NewFilter(readCommitted, list), Allowance(maxRecords, MAX_FETCH_DECOMPRESSED), [], offset), codec, batches, offset)
  }

  method FetchOnce(readCommitted: bool, list: Option<seq<AbortedRun>>, maxRecords: nat, codec: Codec, batches: seq<RecordBatch>, offset: int)
    returns (result: Result<(seq<ConsumedRecord>, int), FetchError>)
    ensures var r := Fetch(readCommitted, list, maxRecords, codec, batches, offset);
      result == if r.Ok? then Ok((r.value.records, r.value.next)) else Err(r.error)
  {
    var records := [];
    var budget := new FetchBudget(maxRecords, MAX_FETCH_DECOMPRESSED);
    var filter := new BatchFilter(readCommitted, list);
    var next := offset;
    ghost var start := Progress(filter.View(), budget.View(), [], offset);
    var i := 0;
    while i < |batches|
      invariant 0 <= i <= |batches|
      invariant ReadBatches(start, codec, batches[..i], offset) == Ok(Progress(filter.View(), budget.View(), records, next))
      invariant fresh(budget) && fresh(filter)
    {
      assert batches[..i + 1][..i] == batches[..i];
      var step := ReadInto(filter, budget, records, next, codec, batches[i], offset);
      if step.Err? {
        FailureIsFinal(start, codec, batches, i + 1, offset);
        return Err(step.error);
      }
      records, next := step.value.0, step.value.1;
      i := i + 1;
    }
    assert batches[..|batches|] == batches;
    return Ok((records, next));
  }

  /** One turn of the loop. */
  method ReadInto(filter: BatchFilter, budget: FetchBudget, records: seq<ConsumedRecord>, next: int, codec: Codec, batch: RecordBatch, offset: int)
    returns (result: Result<(seq<ConsumedRecord>, int), FetchError>)
    modifies filter, budget
    ensures var r := ReadBatch(old(Progress(filter.View(), budget.View(), records, next)), codec, batch, offset);
      if r.Ok? then r == Ok(Progress(filter.View(), budget.View(), r.value.records, r.value.next)) && result == Ok((r.value.records, r.value.next))
      else result == Err(r.error)
  {
    var next' := Max(next, batch.baseOffset + batch.lastOffsetDelta + 1);
    var keep := filter.Keeps(batch);
    if !keep {
      return Ok((records, next'));
    }
    var more := ReadContents(budget, codec, batch, offset);
    if more.Err? {
      assert more.error.ProtocolViolation?;
      return Err(more.error);
    }
    return Ok((records + more.value, next'));
  }

  lemma {:induction false} FailureIsFinal(start: Progress, codec: Codec, batches: seq<RecordBatch>, i: nat, offset: int)
    requires i <= |batches| && ReadBatches(start, codec, batches[..i], offset).Err?
    ensures ReadBatches(start, codec, batches, offset) == ReadBatches(start, codec, batches[..i], offset)
    decreases |batches|
  {
    if i == |batches| {
      assert batches[..i] == batches;
    } else {
      assert batches[..|batches| - 1][..i] == batches[..i];
      FailureIsFinal(start, codec, batches[..|batches| - 1], i, offset);
    }
  }

  method ReadContents(budget: FetchBudget, codec: Codec, batch: RecordBatch, offset: int)
    returns (result: Result<seq<ConsumedRecord>, FetchError>)
    modifies budget
    ensures Charge(old(budget.View()), codec, batch).Ok? ==>
      && result == Ok(Push(batch, Contents(codec, batch), offset))
      && budget.View() == Charge(old(budget.View()), codec, batch).value
    ensures Charge(old(budget.View()), codec, batch).Err? ==> result.Err?
  {
    match batch.records
    case Plain(records) =>
      var ok := budget.ClaimRecords(|records|);
      if !ok {
        return Err(ProtocolViolation);
      }
      var out := PushRecords(batch, records, offset);
      return Ok(out);
    case Compressed(count, payload) =>
      if count < 0 {
        return Err(ProtocolViolation);
      }
      var contents := codec(payload);
      if contents.Unreadable? {
        return Err(ProtocolViolation);
      }
      var fits := budget.ClaimDecompressed(contents.size);
      if !fits || count > contents.size / MIN_RECORD_WIRE_LEN {
        return Err(ProtocolViolation);
      }
      var ok := budget.ClaimRecords(count);
      if !ok || count != |contents.records| {
        return Err(ProtocolViolation);
      }
      var out := PushRecords(batch, contents.records, offset);
      return Ok(out);
  }

  method PushRecords(batch: RecordBatch, rs: seq<Record>, minOffset: int) returns (out: seq<ConsumedRecord>)
    ensures out == Push(batch, rs, minOffset)
  {
    out := [];
    var i := 0;
    while i < |rs|
      invariant 0 <= i <= |rs| && out == Push(batch, rs[..i], minOffset)
    {
      assert rs[..i + 1][..i] == rs[..i];
      var absolute := batch.baseOffset + rs[i].offsetDelta;
      if absolute >= minOffset {
        out := out + [Materialize(batch, rs[i])];
      }
      i := i + 1;
    }
    assert rs[..|rs|] == rs;
  }

  // ---- the bound ----------------------------------------------------------------------

  lemma {:induction false} PushIsNoLonger(batch: RecordBatch, rs: seq<Record>, minOffset: int)
    ensures |Push(batch, rs, minOffset)| <= |rs|
  {
    if rs != [] {
      PushIsNoLonger(batch, rs[..|rs| - 1], minOffset);
    }
  }

  /** Decompressed bytes of the compressed batches of a response that the filter keeps. */
  function Decompressed(f: Filter, codec: Codec, batches: seq<RecordBatch>): nat {
    if batches == [] then 0
    else
      var init, batch := batches[..|batches| - 1], batches[|batches| - 1];
      Decompressed(f, codec, init)
      + if Judge(FilterAfter(f, init), batch).1 && batch.records.Compressed? && codec(batch.records.payload).Readable?
        then codec(batch.records.payload).size else 0
  }

  function FilterAfter(f: Filter, batches: seq<RecordBatch>): Filter {
    if batches == [] then f else Judge(FilterAfter(f, batches[..|batches| - 1]), batches[|batches| - 1]).0
  }

  /** However a response is cut into batches, a fetch that succeeds has materialized at most
      its allowance of records from at most its allowance of decompressed bytes. */
  lemma {:induction false} FetchIsBounded(start: Progress, codec: Codec, batches: seq<RecordBatch>, offset: int)
    requires ReadBatches(start, codec, batches, offset).Ok?
    ensures var p := ReadBatches(start, codec, batches, offset).value;
            && |p.records| - |start.records| <= start.left.recordsLeft - p.left.recordsLeft
            && Decompressed(start.filter, codec, batches) == start.left.decompressedLeft - p.left.decompressedLeft
            && p.filter == FilterAfter(start.filter, batches)
  {
    if batches != [] {
      FetchIsBounded(start, codec, batches[..|batches| - 1], offset);
      var batch := batches[|batches| - 1];
      PushIsNoLonger(batch, Contents(codec, batch), offset);
    }
  }

  // ---- when a fetch succeeds ----------------------------------------------------------

  /** The batches of a response that the filter keeps. */
  function KeptOf(f: Filter, batches: seq<RecordBatch>): seq<RecordBatch> {
    if batches == [] then []
    else
      var init, batch := batches[..|batches| - 1], batches[|batches| - 1];
      KeptOf(f, init) + if Judge(FilterAfter(f, init), batch).1 then [batch] else []
  }

  /** A compressed batch opens, holds exactly the records it declares, and is no smaller than
      that many records can be. */
  predicate IsAsDeclared(codec: Codec, batch: RecordBatch) {
    match batch.records
    case Plain(_) => true
    case Compressed(count, payload) =>
      codec(payload).Readable? && count == |codec(payload).records| && 7 * count <= codec(payload).size
  }

  function CountOf(codec: Codec, batches: seq<RecordBatch>): nat {
    if batches == [] then 0 else CountOf(codec, batches[..|batches| - 1]) + |Contents(codec, batches[|batches| - 1])|
  }

  predicate AllAsDeclared(codec: Codec, batches: seq<RecordBatch>) {
    forall i :: 0 <= i < |batches| ==> IsAsDeclared(codec, batches[i])
  }

  /** One batch is charged its records and its decompressed bytes, or it is refused. */
  lemma ChargedIff(a: Allowance, codec: Codec, batch: RecordBatch)
    ensures var size := if batch.records.Compressed? && codec(batch.records.payload).Readable? then codec(batch.records.payload).size else 0;
            var count := |Contents(codec, batch)|;
            && (Charge(a, codec, batch).Ok? <==> IsAsDeclared(codec, batch) && count <= a.recordsLeft && size <= a.decompressedLeft)
            && (Charge(a, codec, batch).Ok? ==> Charge(a, codec, batch).value == Allowance(a.recordsLeft - count, a.decompressedLeft - size))
  {
  }

  /** A fetch succeeds if and only if every compressed batch that the filter keeps is what it
      declares, and all that is kept fits the allowance; and then exactly that is charged. */
  lemma {:induction false} FetchSucceedsIff(start: Progress, codec: Codec, batches: seq<RecordBatch>, offset: int)
    ensures var kept := KeptOf(start.filter, batches);
            var r := ReadBatches(start, codec, batches, offset);
            && (r.Ok? <==> AllAsDeclared(codec, kept) && CountOf(codec, kept) <= start.left.recordsLeft
                           && Decompressed(start.filter, codec, batches) <= start.left.decompressedLeft)
            && (r.Ok? ==> r.value.left == Allowance(start.left.recordsLeft - CountOf(codec, kept),
                                                    start.left.decompressedLeft - Decompressed(start.filter, codec, batches)))
  {
    if batches != [] {
      var init, batch := batches[..|batches| - 1], batches[|batches| - 1];
      var kept, all := KeptOf(start.filter, init), KeptOf(start.filter, batches);
      FetchSucceedsIff(start, codec, init, offset);
      assert all != kept ==> all[..|kept|] == kept && all[|kept|] == batch;
      assert forall i :: 0 <= i < |kept| ==> all[i] == kept[i];
      var before := ReadBatches(start, codec, init, offset);
      if before.Ok? {
        FetchIsBounded(start, codec, init, offset);
        ChargedIff(before.value.left, codec, batch);
      }
    }
  }
}
