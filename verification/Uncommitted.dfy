/** A `read_uncommitted` reader, the client's default: its filter hides control batches and nothing
    else, and following the next position it is given every record, once and in order. And what
    becomes of a record on its way, for either reader. */
module Uncommitted {
  import opened Wrappers
  import opened Records
  import opened TxnLog
  import opened Consumer
  import opened ReadCommitted
  import opened Reading
  import Broker
  import Delivery

  // ---- the filter ---------------------------------------------------------------------

  lemma {:induction false} StaysUncommitted(list: Option<seq<Broker.AbortedRun>>, before: seq<RecordBatch>)
    ensures !FilterAfter(NewFilter(false, list), before).readCommitted
  {
    if before != [] {
      StaysUncommitted(list, before[..|before| - 1]);
    }
  }

  /** Whatever list came along and whatever it was asked before, the filter of a
      `read_uncommitted` reader keeps exactly the batches that are not control batches. */
  lemma KeepsAllButControl(list: Option<seq<Broker.AbortedRun>>, before: seq<RecordBatch>, batch: RecordBatch)
    ensures Judge(FilterAfter(NewFilter(false, list), before), batch).1 <==> !batch.control
  {
    StaysUncommitted(list, before);
  }

  /** A marker is read by the two bytes of its type; its version, and what follows, do not matter. */
  lemma MarkerTypeDecides(batch: RecordBatch, version: (byte, byte), kind: (byte, byte), more: Bytes, r: Record, rest: seq<Record>)
    requires r.key == Some([version.0, version.1, kind.0, kind.1] + more) && batch.records == Plain([r] + rest)
    ensures IsAbortMarker(batch) <==> kind == (0, 0)
  {
    var key := [version.0, version.1, kind.0, kind.1] + more;
    assert key[2] == kind.0 && key[3] == kind.1;
  }

  // ---- reading everything -------------------------------------------------------------

  /** The records of the data batches of `h[..n]`, from `start` on. */
  function AllRecords(codec: Codec, h: History, n: nat, start: int): seq<ConsumedRecord>
    requires n <= |h|
  {
    if n == 0 then []
    else
      AllRecords(codec, h, n - 1, start)
      + if h[n - 1].Data? then Push(Wire(h[n - 1]), Contents(codec, Wire(h[n - 1])), start) else []
  }

  /** A response to a `read_uncommitted` fetch at `offset`; no list comes with it. */
  predicate AnswersAny(h: History, offset: int, a: nat, b: nat) {
    && a <= b <= |h|
    && (a > 0 ==> h[a - 1].Next() <= offset)
    && (a < |h| ==> offset < h[a].Next())
  }

  function ReadAny(codec: Codec, h: History, maxRecords: nat, start: int, rs: seq<(nat, nat)>): Result<(seq<ConsumedRecord>, int), FetchError>
    requires forall i :: 0 <= i < |rs| ==> rs[i].0 <= rs[i].1 <= |h|
  {
    if rs == [] then Ok(([], start))
    else
      var (records, offset) :- ReadAny(codec, h, maxRecords, start, rs[..|rs| - 1]);
      var (a, b) := rs[|rs| - 1];
      var p :- Fetch(false, None, maxRecords, codec, Wires(h, a, b), offset);
      Ok((records + p.records, p.next))
  }

  predicate AllAnswerAny(codec: Codec, h: History, maxRecords: nat, start: int, rs: seq<(nat, nat)>)
    requires forall i :: 0 <= i < |rs| ==> rs[i].0 <= rs[i].1 <= |h|
  {
    rs == [] ||
    (var before := ReadAny(codec, h, maxRecords, start, rs[..|rs| - 1]);
     && AllAnswerAny(codec, h, maxRecords, start, rs[..|rs| - 1])
     && (before.Ok? ==> AnswersAny(h, before.value.1, rs[|rs| - 1].0, rs[|rs| - 1].1)))
  }

  // ---- the same history, outside transactions -----------------------------------------

  function Unmarked(e: Entry): Entry {
    if e.Data? then e.(batch := e.batch.(transactional := false)) else e
  }

  function Unmark(h: History): (u: History)
    ensures |u| == |h| && forall i :: 0 <= i < |h| ==> u[i] == Unmarked(h[i])
  {
    if h == [] then [] else Unmark(h[..|h| - 1]) + [Unmarked(h[|h| - 1])]
  }

  lemma {:induction false} UnmarkedIsTiled(h: History)
    requires Tiled(h)
    ensures Tiled(Unmark(h)) && EndOf(Unmark(h)) == EndOf(h)
  {
    if h != [] {
      UnmarkedIsTiled(h[..|h| - 1]);
      assert Unmark(h)[..|h| - 1] == Unmark(h[..|h| - 1]);
    }
  }

  lemma {:induction false} UnmarkedIsInOrder(codec: Codec, h: History)
    requires RecordsInOrder(codec, h)
    ensures RecordsInOrder(codec, Unmark(h))
  {
    if h != [] {
      UnmarkedIsInOrder(codec, h[..|h| - 1]);
      assert Unmark(h)[..|h| - 1] == Unmark(h[..|h| - 1]);
    }
  }

  lemma {:induction false} NothingOpens(h: History)
    ensures OpenOf(Unmark(h)) == map[]
  {
    if h != [] {
      NothingOpens(h[..|h| - 1]);
      assert Unmark(h)[..|h| - 1] == Unmark(h[..|h| - 1]);
    }
  }

  lemma UnmarkedTake(h: History, m: nat)
    requires m <= |h|
    ensures Unmark(h)[..m] == Unmark(h[..m])
  {
  }

  lemma NothingAccompanies(h: History, a: nat, b: nat)
    requires a <= b <= |h|
    ensures Accompanies(Unmark(h), a, b, [])
  {
    var u := Unmark(h);
    forall m, pid, first ensures !EndsRun(u, m, pid, first) {
      if 0 <= m < |u| {
        UnmarkedTake(h, m);
        NothingOpens(h[..m]);
      }
    }
  }

  lemma {:induction false} SameRecordsIn(codec: Codec, h: History, n: nat, start: int)
    requires n <= |h|
    ensures RecordsIn(codec, Unmark(h), 0, n, start) == AllRecords(codec, h, n, start)
  {
    if n > 0 {
      SameRecordsIn(codec, h, n - 1, start);
      if h[n - 1].Data? {
        PushUnmarked(codec, h[n - 1], start);
      }
    }
  }

  lemma PushUnmarked(codec: Codec, e: Entry, start: int)
    requires e.Data?
    ensures Push(Wire(Unmarked(e)), Contents(codec, Wire(Unmarked(e))), start) == Push(Wire(e), Contents(codec, Wire(e)), start)
  {
    SamePush(Wire(Unmarked(e)), Wire(e), Contents(codec, Wire(e)), start);
  }

  lemma {:induction false} SamePush(x: RecordBatch, y: RecordBatch, rs: seq<Record>, start: int)
    requires x.baseOffset == y.baseOffset && x.baseTimestamp == y.baseTimestamp
    ensures Push(x, rs, start) == Push(y, rs, start)
  {
    if rs != [] {
      SamePush(x, y, rs[..|rs| - 1], start);
    }
  }

  /** Of two progresses, all but the filter. */
  predicate Alike(p: Progress, q: Progress) {
    p.left == q.left && p.records == q.records && p.next == q.next
  }

  lemma OneBatchAlike(p: Progress, q: Progress, codec: Codec, e: Entry, offset: int)
    requires Alike(p, q) && !p.filter.readCommitted
    requires q.filter.readCommitted && q.filter.aborted == [] && q.filter.disowned == {}
    requires e.Data? ==> !e.batch.control
    ensures var r, s := ReadBatch(p, codec, Wire(e), offset), ReadBatch(q, codec, Wire(Unmarked(e)), offset);
            if r.Err? then s == Err(r.error)
            else
              && s.Ok? && Alike(r.value, s.value) && !r.value.filter.readCommitted
              && s.value.filter.readCommitted && s.value.filter.aborted == [] && s.value.filter.disowned == {}
  {
    if e.Data? {
      PushUnmarked(codec, e, offset);
    }
  }

  /** A fetch without the isolation level reads what one with it reads outside transactions. */
  lemma {:induction false} FetchesAlike(codec: Codec, h: History, a: nat, b: nat, maxRecords: nat, offset: int)
    requires WellFormed(h) && a <= b <= |h|
    ensures var r := Fetch(false, None, maxRecords, codec, Wires(h, a, b), offset);
            var s := Fetch(true, Some([]), maxRecords, codec, Wires(Unmark(h), a, b), offset);
            if r.Err? then s == Err(r.error)
            else
              && s.Ok? && Alike(r.value, s.value) && !r.value.filter.readCommitted
              && s.value.filter.readCommitted && s.value.filter.aborted == [] && s.value.filter.disowned == {}
    decreases b
  {
    if a < b {
      FetchesAlike(codec, h, a, b - 1, maxRecords, offset);
      WiresSnoc(h, a, b);
      WiresSnoc(Unmark(h), a, b);
      var r := Fetch(false, None, maxRecords, codec, Wires(h, a, b - 1), offset);
      var s := Fetch(true, Some([]), maxRecords, codec, Wires(Unmark(h), a, b - 1), offset);
      if r.Ok? {
        OneBatchAlike(r.value, s.value, codec, h[b - 1], offset);
      }
    }
  }

  lemma WiresSnoc(h: History, a: nat, b: nat)
    requires a < b <= |h|
    ensures var w := Wires(h, a, b); w != [] && w[..|w| - 1] == Wires(h, a, b - 1) && w[|w| - 1] == Wire(h[b - 1])
  {
  }

  function Listed(rs: seq<(nat, nat)>): (r: seq<Response>)
    ensures |r| == |rs| && forall i :: 0 <= i < |rs| ==> r[i] == Response(rs[i].0, rs[i].1, [])
  {
    if rs == [] then [] else Listed(rs[..|rs| - 1]) + [Response(rs[|rs| - 1].0, rs[|rs| - 1].1, [])]
  }

  lemma {:induction false} ReadsAlike(codec: Codec, h: History, maxRecords: nat, start: int, rs: seq<(nat, nat)>)
    requires WellFormed(h) && forall i :: 0 <= i < |rs| ==> rs[i].0 <= rs[i].1 <= |h|
    requires AllAnswerAny(codec, h, maxRecords, start, rs)
    ensures ReadAny(codec, h, maxRecords, start, rs) == ReadOn(codec, Unmark(h), maxRecords, start, Listed(rs))
    ensures AllAnswer(codec, Unmark(h), maxRecords, start, Listed(rs))
  {
    if rs != [] {
      var init := rs[..|rs| - 1];
      var (a, b) := rs[|rs| - 1];
      ReadsAlike(codec, h, maxRecords, start, init);
      assert Listed(rs)[..|rs| - 1] == Listed(init);
      var before := ReadAny(codec, h, maxRecords, start, init);
      if before.Ok? {
        FetchesAlike(codec, h, a, b, maxRecords, before.value.1);
        NothingAccompanies(h, a, b);
      }
    }
  }

  /** The records are in order up to where the reader stands. */
  lemma AscendingTo(codec: Codec, u: History, n: nat, start: int, offset: int)
    requires Tiled(u) && RecordsInOrder(codec, u) && At(u, start, offset, n)
    ensures Ascending(RecordsIn(codec, u, 0, n, start), start, offset)
  {
    RecordsAscend(codec, u, 0, n, start);
    if n > 0 {
      assert u[..n][n - 1] == u[n - 1];
      AscendingHigher(RecordsIn(codec, u, 0, n, start), start, u[n - 1].Next(), offset);
    }
  }

  lemma AtUnmarked(h: History, start: int, offset: int, n: nat)
    requires At(Unmark(h), start, offset, n)
    ensures At(h, start, offset, n)
  {
    UnmarkedTake(h, n);
    if n > 0 {
      assert h[..n][n - 1] == h[n - 1] && Unmark(h)[..n][n - 1] == Unmark(h)[n - 1];
    }
  }

  /** Reading a history outside transactions, said of what was read. */
  lemma UnmarkedRead(codec: Codec, u: History, maxRecords: nat, start: int, rs: seq<Response>, records: seq<ConsumedRecord>, offset: int)
    returns (n: nat)
    requires Tiled(u) && WellFormed(u) && RecordsInOrder(codec, u) && 0 <= start
    requires forall i :: 0 <= i < |rs| ==> rs[i].a <= rs[i].b <= |u|
    requires AllAnswer(codec, u, maxRecords, start, rs) && ReadOn(codec, u, maxRecords, start, rs) == Ok((records, offset))
    ensures At(u, start, offset, n) && records == RecordsIn(codec, u, 0, n, start) && Ascending(records, start, offset)
  {
    n := ReadingIsExact(codec, u, maxRecords, start, rs);
    AscendingTo(codec, u, n, start, offset);
  }

  /** Reading without the isolation level is exact: following the next position, however the
      broker cuts the log into responses, a reader that began at `start` has after any number of
      fetches every record of every data batch from `start` to where it stands, committed, aborted
      or undecided, each once and in order. */
  lemma UncommittedReadsAreExact(codec: Codec, h: History, maxRecords: nat, start: int, rs: seq<(nat, nat)>) returns (n: nat)
    requires Tiled(h) && WellFormed(h) && RecordsInOrder(codec, h) && 0 <= start
    requires forall i :: 0 <= i < |rs| ==> rs[i].0 <= rs[i].1 <= |h|
    requires AllAnswerAny(codec, h, maxRecords, start, rs)
    requires ReadAny(codec, h, maxRecords, start, rs).Ok?
    ensures var (records, offset) := ReadAny(codec, h, maxRecords, start, rs).value;
            At(h, start, offset, n) && records == AllRecords(codec, h, n, start) && Ascending(records, start, offset)
  {
    var (records, offset) := ReadAny(codec, h, maxRecords, start, rs).value;
    UnmarkedIsTiled(h);
    UnmarkedIsInOrder(codec, h);
    ReadsAlike(codec, h, maxRecords, start, rs);
    n := UnmarkedRead(codec, Unmark(h), maxRecords, start, Listed(rs), records, offset);
    SameRecordsIn(codec, h, n, start);
    AtUnmarked(h, start, offset, n);
  }

  // ---- one record on its way ----------------------------------------------------------

  /** The consumer's record is the producer's: its place and time in the batch made absolute, and
      its key, value and headers as they were. */
  predicate Carried(batch: RecordBatch, r: Record, c: ConsumedRecord) {
    && c.offset == batch.baseOffset + r.offsetDelta && c.timestamp == batch.baseTimestamp + r.timestampDelta
    && c.key == r.key && c.value == r.value && c.headers == r.headers
  }

  /** Read from its first offset on, a batch gives all its records. */
  lemma {:induction false} PushCarries(batch: RecordBatch, rs: seq<Record>, start: int)
    requires forall i :: 0 <= i < |rs| ==> start <= batch.baseOffset + rs[i].offsetDelta
    ensures |Push(batch, rs, start)| == |rs| && forall i :: 0 <= i < |rs| ==> Carried(batch, rs[i], Push(batch, rs, start)[i])
  {
    if rs != [] {
      PushCarries(batch, rs[..|rs| - 1], start);
    }
  }

  lemma {:induction false} PositionedAt(rs: seq<Record>, i: nat)
    requires i < |rs|
    ensures |Delivery.Positioned(rs)| == |rs| && Delivery.Positioned(rs)[i] == rs[i].(offsetDelta := i)
  {
    if i < |rs| - 1 {
      PositionedAt(rs[..|rs| - 1], i);
    } else if i > 0 {
      PositionedAt(rs[..|rs| - 1], i - 1);
    }
  }

  /** From the caller of one client to the caller of the other: the records a producer encodes as
      one batch, wherever the broker puts it, are read back in their order at consecutive offsets
      from there, stamped with the time of encoding. */
  lemma EncodedReadsBack(codec: Codec, rs: seq<Record>, stamp: Delivery.Stamp, now: int, packing: Delivery.Packing, base: int)
    requires rs != []
    requires packing.Some? ==> exists size :: codec(packing.value(Delivery.Positioned(rs))) == Readable(size, Delivery.Positioned(rs))
    ensures var b := Delivery.Encode(rs, stamp, now, packing).(baseOffset := base);
            var out := Push(b, Contents(codec, b), base);
            |out| == |rs| && forall i :: 0 <= i < |rs| ==>
              out[i] == ConsumedRecord(base + i, now + rs[i].timestampDelta, rs[i].key, rs[i].value, rs[i].headers)
  {
    var b := Delivery.Encode(rs, stamp, now, packing).(baseOffset := base);
    var positioned := Delivery.Positioned(rs);
    assert Contents(codec, b) == positioned;
    PositionedAt(rs, 0);
    forall i | 0 <= i < |rs| ensures positioned[i] == rs[i].(offsetDelta := i) {
      PositionedAt(rs, i);
    }
    PushCarries(b, positioned, base);
  }
}
