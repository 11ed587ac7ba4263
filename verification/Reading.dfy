/** Reading a partition: from the broker's log, through fetches, to the caller's records. */
module Reading {
  import opened Wrappers
  import opened Records
  import opened Broker
  import opened TxnLog
  import opened Transactions
  import opened Consumer
  import opened ReadCommitted

  /** Data of no transaction, or of a transaction whose next marker is a commit. */
  predicate Visible(h: History, i: nat)
    requires i < |h|
  {
    h[i].Data? && (h[i].batch.transactional ==> Verdict(h, i) == Some(true))
  }

  // ---- the broker's own aborted list --------------------------------------------------

  lemma {:induction false} MembersConcat(a: seq<AbortedRun>, b: seq<AbortedRun>)
    ensures Members(a + b) == Members(a) + Members(b)
  {
    if a == [] {
      assert a + b == b;
    } else {
      assert (a + b)[1..] == a[1..] + b;
      MembersConcat(a[1..], b);
    }
  }

  /** The broker lists exactly the aborted transactions, whatever order they finished in. */
  lemma {:induction false} AbortedIsExact(h: History, pid: int, first: int)
    ensures AbortedRun(pid, first) in Members(AbortedOf(h)) <==> exists m :: EndsRun(h, m, pid, first)
  {
    if h != [] {
      var init := h[..|h| - 1];
      var last := |init|;
      AbortedIsExact(init, pid, first);
      MembersConcat(AbortedOf(init), Disowned(OpenOf(init), h[last]));
      forall m | 0 <= m < last ensures EndsRun(h, m, pid, first) <==> EndsRun(init, m, pid, first) {
        assert init[..m] == h[..m];
      }
      if EndsRun(h, last, pid, first) {
        assert Disowned(OpenOf(init), h[last]) == [AbortedRun(pid, first)];
      }
      if AbortedRun(pid, first) in Members(AbortedOf(h)) {
        if m :| EndsRun(init, m, pid, first) {
          assert EndsRun(h, m, pid, first);
        } else {
          assert EndsRun(h, last, pid, first);
        }
      }
    }
  }

  lemma BrokerListAccompanies(h: History)
    ensures Accompanies(h, 0, |h|, AbortedOf(h))
  {
    forall r | r in Members(AbortedOf(h)) ensures exists m :: 0 <= m && EndsRun(h, m, r.producerId, r.firstOffset) {
      AbortedIsExact(h, r.producerId, r.firstOffset);
    }
    forall m, pid, first | EndsRun(h, m, pid, first) ensures AbortedRun(pid, first) in Members(AbortedOf(h)) {
      AbortedIsExact(h, pid, first);
    }
  }

  /** Surfaced but not visible means undecided. */
  lemma SurfacedOrVisible(h: History, i: nat)
    requires i < |h| && h[i].Data?
    ensures Surfaces(h, i) && !Visible(h, i) <==> Undecided(h, i, h[i].batch.producerId)
  {
    if Verdict(h, i).Some? && Verdict(h, i).value {
      assert Verdict(h, i) == Some(true);
    }
  }

  lemma IdleShowsCommitted(log: PartitionLog, h: History, i: nat)
    requires Summarizes(log, h) && WellFormed(h) && log.open == map[]
    requires i < |h| && Judge(FilterAt(h, 0, i, log.aborted), Wire(h[i])).1
    ensures Visible(h, i)
  {
    BrokerListAccompanies(h);
    FilterIsExact(h, 0, |h|, i, log.aborted);
    SurfacedOrVisible(h, i);
    OpenIsExact(h, h[i].batch.producerId);
  }

  lemma OpenShowsUndecided(log: PartitionLog, h: History, pid: int) returns (i: nat)
    requires Summarizes(log, h) && WellFormed(h) && pid in log.open
    ensures i < |h| && Judge(FilterAt(h, 0, i, log.aborted), Wire(h[i])).1 && !Visible(h, i)
  {
    OpenIsExact(h, pid);
    var j :| 0 <= j < |h| && Undecided(h, j, pid);
    i := j;
    SurfacedOrVisible(h, i);
    BrokerListAccompanies(h);
    FilterIsExact(h, 0, |h|, i, log.aborted);
  }

  /** Why responses have to end below the last stable offset: a reader given a whole partition,
      every batch at its offset and every marker in place, is shown only committed records if
      and only if no transaction is open. */
  lemma UncutAnswerIsSafeIffIdle(log: PartitionLog, h: History)
    requires Summarizes(log, h) && WellFormed(h)
    ensures log.open == map[] <==>
            forall i :: 0 <= i < |h| && Judge(FilterAt(h, 0, i, log.aborted), Wire(h[i])).1 ==> Visible(h, i)
  {
    if log.open == map[] {
      forall i | 0 <= i < |h| && Judge(FilterAt(h, 0, i, log.aborted), Wire(h[i])).1 ensures Visible(h, i) {
        IdleShowsCommitted(log, h, i);
      }
    } else {
      var pid := HasMember(log.open.Keys);
      var i := OpenShowsUndecided(log, h, pid);
    }
  }

  // ---- one fetch ----------------------------------------------------------------------

  function More(codec: Codec, h: History, i: nat, start: int): seq<ConsumedRecord>
    requires i < |h|
  {
    if Surfaces(h, i) then Push(Wire(h[i]), Contents(codec, Wire(h[i])), start) else []
  }

  /** The records of the batches `a..b` that should be surfaced, from `start` on. */
  function RecordsIn(codec: Codec, h: History, a: nat, b: nat, start: int): seq<ConsumedRecord>
    requires a <= b <= |h|
  {
    if a == b then []
    else
      RecordsIn(codec, h, a, b - 1, start) + More(codec, h, b - 1, start)
  }

  /** Where a fetch of entries `a..b` leaves the reader. */
  function After(h: History, a: nat, b: nat, offset: int): int
    requires a <= b <= |h|
  {
    if a == b then offset else Max(After(h, a, b - 1, offset), h[b - 1].Next())
  }

  lemma FetchSnoc(codec: Codec, h: History, a: nat, i: nat, list: seq<AbortedRun>, maxRecords: nat, offset: int)
    requires a < i <= |h|
    ensures var before := Fetch(true, Some(list), maxRecords, codec, Wires(h, a, i - 1), offset);
            Fetch(true, Some(list), maxRecords, codec, Wires(h, a, i), offset) ==
            if before.Err? then Err(before.error) else ReadBatch(before.value, codec, Wire(h[i - 1]), offset)
  {
    WiresLength(h, a, i);
    assert Wires(h, a, i)[..|Wires(h, a, i)| - 1] == Wires(h, a, i - 1);
  }

  lemma FilterSnoc(h: History, a: nat, i: nat, list: seq<AbortedRun>)
    requires a < i <= |h|
    ensures FilterAt(h, a, i, list) == Judge(FilterAt(h, a, i - 1, list), Wire(h[i - 1])).0
  {
    WiresLength(h, a, i);
    assert Wires(h, a, i)[..|Wires(h, a, i)| - 1] == Wires(h, a, i - 1);
  }

  lemma BatchIsExact(p: Progress, codec: Codec, h: History, i: nat, offset: int)
    requires i < |h| && (Judge(p.filter, Wire(h[i])).1 <==> Surfaces(h, i)) && ReadBatch(p, codec, Wire(h[i]), offset).Ok?
    ensures var q := ReadBatch(p, codec, Wire(h[i]), offset).value;
            && q.filter == Judge(p.filter, Wire(h[i])).0
            && q.records == p.records + More(codec, h, i, offset)
            && q.next == Max(p.next, h[i].Next())
  {
  }

  /** A fetch that succeeds returns exactly the records the verdicts allow. */
  lemma {:induction false} FetchIsExact(codec: Codec, h: History, a: nat, b: nat, i: nat, list: seq<AbortedRun>, maxRecords: nat, offset: int)
    requires Tiled(h) && WellFormed(h) && a <= i <= b <= |h| && Accompanies(h, a, b, list)
    requires Fetch(true, Some(list), maxRecords, codec, Wires(h, a, i), offset).Ok?
    ensures var p := Fetch(true, Some(list), maxRecords, codec, Wires(h, a, i), offset).value;
            && p.filter == FilterAt(h, a, i, list)
            && p.records == RecordsIn(codec, h, a, i, offset)
            && p.next == After(h, a, i, offset)
    decreases i
  {
    if i > a {
      FetchSnoc(codec, h, a, i, list, maxRecords, offset);
      FetchIsExact(codec, h, a, b, i - 1, list, maxRecords, offset);
      FilterIsExact(h, a, b, i - 1, list);
      FilterSnoc(h, a, i, list);
      BatchIsExact(Fetch(true, Some(list), maxRecords, codec, Wires(h, a, i - 1), offset).value, codec, h, i - 1, offset);
    }
  }

  // ---- fetch after fetch --------------------------------------------------------------

  /** One response: entries `a..b` and the aborted list that came with them. */
  datatype Response = Response(a: nat, b: nat, list: seq<AbortedRun>)

  /** A response answers a fetch at `offset`: it begins with the batch that holds the offset
      (which may begin before it), ends wherever the broker cut it, and may be empty. */
  ghost predicate Answers(h: History, offset: int, r: Response) {
    && r.a <= r.b <= |h|
    && (r.a > 0 ==> h[r.a - 1].Next() <= offset)
    && (r.a < |h| ==> offset < h[r.a].Next())
    && Accompanies(h, r.a, r.b, r.list)
  }

  /** Following `next` from fetch to fetch. */
  function ReadOn(codec: Codec, h: History, maxRecords: nat, start: int, rs: seq<Response>): Result<(seq<ConsumedRecord>, int), FetchError>
    requires forall i :: 0 <= i < |rs| ==> rs[i].a <= rs[i].b <= |h|
  {
    if rs == [] then Ok(([], start))
    else
      var (records, offset) :- ReadOn(codec, h, maxRecords, start, rs[..|rs| - 1]);
      var r := rs[|rs| - 1];
      var p :- Fetch(true, Some(r.list), maxRecords, codec, Wires(h, r.a, r.b), offset);
      Ok((records + p.records, p.next))
  }

  ghost predicate AllAnswer(codec: Codec, h: History, maxRecords: nat, start: int, rs: seq<Response>)
    requires forall i :: 0 <= i < |rs| ==> rs[i].a <= rs[i].b <= |h|
  {
    rs == [] ||
    (var before := ReadOn(codec, h, maxRecords, start, rs[..|rs| - 1]);
     && AllAnswer(codec, h, maxRecords, start, rs[..|rs| - 1])
     && (before.Ok? ==> Answers(h, before.value.1, rs[|rs| - 1])))
  }

  /** Record offsets lie within their batch, in ascending order. */
  predicate InBatch(batch: RecordBatch, rs: seq<Record>) {
    && (forall i :: 0 <= i < |rs| ==> 0 <= rs[i].offsetDelta <= batch.lastOffsetDelta)
    && (forall i, j :: 0 <= i < j < |rs| ==> rs[i].offsetDelta < rs[j].offsetDelta)
  }

  predicate RecordsInOrder(codec: Codec, h: History) {
    h == [] ||
    (var last := h[|h| - 1];
     (last.Data? ==> InBatch(Wire(last), Contents(codec, Wire(last)))) && RecordsInOrder(codec, h[..|h| - 1]))
  }

  lemma {:induction false} InOrderAt(codec: Codec, h: History, i: nat)
    requires RecordsInOrder(codec, h) && i < |h| && h[i].Data?
    ensures InBatch(Wire(h[i]), Contents(codec, Wire(h[i])))
  {
    if i < |h| - 1 {
      InOrderAt(codec, h[..|h| - 1], i);
    }
  }

  /** How far a reader at `offset` that began at `start` has got: everything in `h[..n]`. */
  predicate At(h: History, start: int, offset: int, n: nat) {
    n <= |h| && offset == Max(start, EndOf(h[..n]))
  }

  lemma {:induction false} PushFrom(batch: RecordBatch, rs: seq<Record>, x: int, y: int)
    requires forall i :: 0 <= i < |rs| ==> (batch.baseOffset + rs[i].offsetDelta < x <==> batch.baseOffset + rs[i].offsetDelta < y)
    ensures Push(batch, rs, x) == Push(batch, rs, y)
  {
    if rs != [] {
      PushFrom(batch, rs[..|rs| - 1], x, y);
    }
  }

  lemma {:induction false} PushNothing(batch: RecordBatch, rs: seq<Record>, x: int)
    requires forall i :: 0 <= i < |rs| ==> batch.baseOffset + rs[i].offsetDelta < x
    ensures Push(batch, rs, x) == []
  {
    if rs != [] {
      PushNothing(batch, rs[..|rs| - 1], x);
    }
  }

  lemma EndedBatchGivesNothing(codec: Codec, h: History, i: nat, start: int)
    requires RecordsInOrder(codec, h) && i < |h| && h[i].Data? && h[i].Next() <= start
    ensures Push(Wire(h[i]), Contents(codec, Wire(h[i])), start) == []
  {
    InOrderAt(codec, h, i);
    PushNothing(Wire(h[i]), Contents(codec, Wire(h[i])), start);
  }

  lemma LaterBatchGivesAll(codec: Codec, h: History, i: nat, end: int, start: int)
    requires RecordsInOrder(codec, h) && i < |h| && h[i].Data? && end <= h[i].base
    ensures Push(Wire(h[i]), Contents(codec, Wire(h[i])), Max(start, end)) == Push(Wire(h[i]), Contents(codec, Wire(h[i])), start)
  {
    InOrderAt(codec, h, i);
    PushFrom(Wire(h[i]), Contents(codec, Wire(h[i])), Max(start, end), start);
  }

  /** Batches that end at or before `start` contribute nothing. */
  lemma {:induction false} NothingBefore(codec: Codec, h: History, n: nat, a: nat, start: int)
    requires Tiled(h) && RecordsInOrder(codec, h) && n <= a <= |h|
    requires a > 0 ==> h[a - 1].Next() <= start
    ensures RecordsIn(codec, h, n, a, start) == []
    decreases a
  {
    if n < a {
      if a - 1 > 0 {
        LaterEnds(h, a - 2, a - 1);
      }
      NothingBefore(codec, h, n, a - 1, start);
      if h[a - 1].Data? {
        EndedBatchGivesNothing(codec, h, a - 1, start);
      }
    }
  }

  lemma EndIsNotAfter(h: History, n: nat, i: nat)
    requires Tiled(h) && n <= i < |h|
    ensures EndOf(h[..n]) <= h[i].base
  {
    if n > 0 {
      TiledInOrder(h, n - 1, i);
      assert h[..n][n - 1] == h[n - 1];
    } else {
      TiledInOrder(h, i, i);
    }
  }

  lemma SameSnoc(codec: Codec, h: History, a: nat, b: nat, x: int, y: int)
    requires a < b <= |h|
    requires RecordsIn(codec, h, a, b - 1, x) == RecordsIn(codec, h, a, b - 1, y)
    requires More(codec, h, b - 1, x) == More(codec, h, b - 1, y)
    ensures RecordsIn(codec, h, a, b, x) == RecordsIn(codec, h, a, b, y)
  {
  }

  /** Past `end`, starting at `start` or at `end` is the same. */
  lemma {:induction false} SameStart(codec: Codec, h: History, a: nat, b: nat, end: int, start: int)
    requires Tiled(h) && RecordsInOrder(codec, h) && a <= b <= |h| && (a < b ==> end <= h[a].base)
    ensures RecordsIn(codec, h, a, b, Max(start, end)) == RecordsIn(codec, h, a, b, start)
    decreases b
  {
    if a < b {
      SameStart(codec, h, a, b - 1, end, start);
      if a < b - 1 {
        Follows(h, b - 1);
        TiledInOrder(h, a, b - 1);
      }
      SameMore(codec, h, b - 1, end, start);
      SameSnoc(codec, h, a, b, Max(start, end), start);
    }
  }

  lemma SameMore(codec: Codec, h: History, i: nat, end: int, start: int)
    requires RecordsInOrder(codec, h) && i < |h| && end <= h[i].base
    ensures More(codec, h, i, Max(start, end)) == More(codec, h, i, start)
  {
    if h[i].Data? {
      LaterBatchGivesAll(codec, h, i, end, start);
    }
  }

  lemma {:induction false} RecordsSplit(codec: Codec, h: History, a: nat, b: nat, c: nat, start: int)
    requires a <= b <= c <= |h|
    ensures RecordsIn(codec, h, a, c, start) == RecordsIn(codec, h, a, b, start) + RecordsIn(codec, h, b, c, start)
    decreases c
  {
    if b < c {
      RecordsSplit(codec, h, a, b, c - 1, start);
    }
  }

  lemma {:induction false} AfterIsEnd(h: History, a: nat, b: nat, offset: int)
    requires Tiled(h) && a < b <= |h| && offset < h[a].Next()
    ensures After(h, a, b, offset) == h[b - 1].Next()
    decreases b
  {
    if a < b - 1 {
      AfterIsEnd(h, a, b - 1, offset);
      TiledInOrder(h, b - 2, b - 1);
      TiledInOrder(h, b - 1, b - 1);
    }
  }

  lemma NextPosition(h: History, start: int, offset: int, n: nat, r: Response)
    requires Tiled(h) && At(h, start, offset, n) && Answers(h, offset, r) && r.a < r.b
    ensures n <= r.b && At(h, start, After(h, r.a, r.b, offset), r.b)
  {
    if n > 0 {
      assert h[..n][n - 1] == h[n - 1];
      if r.a < n {
        LaterEnds(h, r.a, n - 1);
      }
    }
    AfterIsEnd(h, r.a, r.b, offset);
    assert h[..r.b][r.b - 1] == h[r.b - 1];
    LaterEnds(h, r.a, r.b - 1);
  }

  /** The reader's position lies in the first batch of the answer, or before it. */
  lemma AnswerIsNext(h: History, start: int, offset: int, n: nat, r: Response)
    requires Tiled(h) && At(h, start, offset, n) && Answers(h, offset, r) && r.a < r.b
    ensures n <= r.a
  {
    if r.a < n {
      assert h[..n][n - 1] == h[n - 1];
      LaterEnds(h, r.a, n - 1);
    }
  }

  lemma NextRecords(codec: Codec, h: History, start: int, offset: int, n: nat, r: Response)
    requires Tiled(h) && RecordsInOrder(codec, h)
    requires At(h, start, offset, n) && Answers(h, offset, r) && n <= r.a < r.b
    ensures RecordsIn(codec, h, 0, r.b, start) == RecordsIn(codec, h, 0, n, start) + RecordsIn(codec, h, r.a, r.b, offset)
  {
    RecordsSplit(codec, h, 0, n, r.b, start);
    TailRecords(codec, h, start, n, r.a, r.b);
  }

  /** What is left from entry `n` on begins with entry `a`. */
  lemma TailRecords(codec: Codec, h: History, start: int, n: nat, a: nat, b: nat)
    requires Tiled(h) && RecordsInOrder(codec, h) && n <= a < b <= |h|
    requires a > 0 ==> h[a - 1].Next() <= Max(start, EndOf(h[..n]))
    ensures RecordsIn(codec, h, n, b, start) == RecordsIn(codec, h, a, b, Max(start, EndOf(h[..n])))
  {
    var end := EndOf(h[..n]);
    GapIsEmpty(codec, h, n, a, start);
    EndIsNotAfter(h, n, a);
    SameStart(codec, h, a, b, end, start);
    RecordsSplit(codec, h, n, a, b, start);
    Glue(RecordsIn(codec, h, n, b, start), RecordsIn(codec, h, n, a, start), RecordsIn(codec, h, a, b, start));
  }

  lemma Glue<T>(whole: seq<T>, gap: seq<T>, b: seq<T>)
    requires whole == gap + b && gap == []
    ensures whole == b
  {
  }

  /** What lies between the reader's position and the first batch of the answer gives nothing. */
  lemma GapIsEmpty(codec: Codec, h: History, n: nat, a: nat, start: int)
    requires Tiled(h) && RecordsInOrder(codec, h) && n <= a <= |h|
    requires a > 0 ==> h[a - 1].Next() <= Max(start, EndOf(h[..n]))
    ensures RecordsIn(codec, h, n, a, start) == []
  {
    if n < a {
      EndIsNotAfter(h, n, n);
    }
    SameStart(codec, h, n, a, EndOf(h[..n]), start);
    NothingBefore(codec, h, n, a, Max(start, EndOf(h[..n])));
  }

  /** One response moves the reader on without a gap. */
  lemma NextFetch(codec: Codec, h: History, start: int, offset: int, n: nat, r: Response) returns (n': nat)
    requires Tiled(h) && RecordsInOrder(codec, h)
    requires At(h, start, offset, n) && Answers(h, offset, r)
    ensures At(h, start, After(h, r.a, r.b, offset), n') && (n' == n || n' == r.b)
    ensures RecordsIn(codec, h, 0, n', start) == RecordsIn(codec, h, 0, n, start) + RecordsIn(codec, h, r.a, r.b, offset)
  {
    if r.a == r.b {
      n' := n;
    } else {
      n' := r.b;
      AnswerIsNext(h, start, offset, n, r);
      NextPosition(h, start, offset, n, r);
      NextRecords(codec, h, start, offset, n, r);
    }
  }

  lemma LaterEnds(h: History, i: nat, j: nat)
    requires Tiled(h) && i <= j < |h|
    ensures h[i].Next() <= h[j].Next()
  {
    TiledInOrder(h, i, j);
    TiledInOrder(h, j, j);
  }

  /** Reading is exact. Following the next position from fetch to fetch, however the broker
      cuts the log into responses, a reader that began at `start` has after any number of
      fetches exactly the records that should be surfaced from `start` to where it stands. */
  lemma {:induction false} ReadingIsExact(codec: Codec, h: History, maxRecords: nat, start: int, rs: seq<Response>) returns (n: nat)
    requires Tiled(h) && WellFormed(h) && RecordsInOrder(codec, h) && 0 <= start
    requires forall i :: 0 <= i < |rs| ==> rs[i].a <= rs[i].b <= |h|
    requires AllAnswer(codec, h, maxRecords, start, rs)
    requires ReadOn(codec, h, maxRecords, start, rs).Ok?
    ensures var (records, offset) := ReadOn(codec, h, maxRecords, start, rs).value;
            At(h, start, offset, n) && records == RecordsIn(codec, h, 0, n, start)
    ensures n == 0 || exists i :: 0 <= i < |rs| && n == rs[i].b
  {
    if rs == [] {
      n := 0;
    } else {
      var r := rs[|rs| - 1];
      n := ReadingIsExact(codec, h, maxRecords, start, rs[..|rs| - 1]);
      var (records, offset) := ReadOn(codec, h, maxRecords, start, rs[..|rs| - 1]).value;
      FetchIsExact(codec, h, r.a, r.b, r.b, r.list, maxRecords, offset);
      n := NextFetch(codec, h, start, offset, n, r);
    }
  }

  // ---- no record twice ----------------------------------------------------------------

  /** Strictly ascending offsets, at least `low` and below `high`. */
  predicate Ascending(cs: seq<ConsumedRecord>, low: int, high: int) {
    cs == [] ||
    (var last := cs[|cs| - 1].offset;
     low <= last < high && Ascending(cs[..|cs| - 1], low, last))
  }

  lemma AscendingSnoc(cs: seq<ConsumedRecord>, c: ConsumedRecord, low: int, high: int)
    requires Ascending(cs, low, c.offset) && low <= c.offset < high
    ensures Ascending(cs + [c], low, high)
  {
    assert (cs + [c])[..|cs + [c]| - 1] == cs;
  }

  lemma AscendingHigher(cs: seq<ConsumedRecord>, low: int, mid: int, high: int)
    requires Ascending(cs, low, mid) && mid <= high
    ensures Ascending(cs, low, high)
  {
  }

  lemma {:induction false} PushAscends(batch: RecordBatch, rs: seq<Record>, start: int, high: int)
    requires InBatch(batch, rs)
    requires rs != [] ==> batch.baseOffset + rs[|rs| - 1].offsetDelta < high
    ensures Ascending(Push(batch, rs, start), Max(start, batch.baseOffset), high)
  {
    if rs != [] {
      var last := Materialize(batch, rs[|rs| - 1]);
      var before := Push(batch, rs[..|rs| - 1], start);
      PushAscends(batch, rs[..|rs| - 1], start, last.offset);
      if last.offset < start {
        assert Push(batch, rs, start) == before;
        AscendingHigher(before, Max(start, batch.baseOffset), last.offset, high);
      } else {
        AscendingSnoc(before, last, Max(start, batch.baseOffset), high);
      }
    }
  }

  lemma {:induction false} AscendingConcat(a: seq<ConsumedRecord>, b: seq<ConsumedRecord>, low: int, mid: int, mid': int, high: int)
    requires Ascending(a, low, mid) && Ascending(b, mid', high)
    requires a != [] ==> mid <= mid' && mid <= high
    requires low <= mid'
    ensures Ascending(a + b, low, high)
  {
    if b == [] {
      assert a + b == a;
    } else {
      var init, last := b[..|b| - 1], b[|b| - 1];
      AscendingConcat(a, init, low, mid, mid', last.offset);
      AscendingSnoc(a + init, last, low, high);
      ConcatSnoc(a, b);
    }
  }

  lemma ConcatSnoc<T>(a: seq<T>, b: seq<T>)
    requires b != []
    ensures a + b == a + b[..|b| - 1] + [b[|b| - 1]]
  {
  }

  lemma MoreAscends(codec: Codec, h: History, i: nat, start: int)
    requires Tiled(h) && RecordsInOrder(codec, h) && i < |h|
    ensures Ascending(More(codec, h, i, start), Max(start, h[i].base), h[i].Next())
    ensures h[i].base < h[i].Next()
  {
    TiledInOrder(h, i, i);
    if h[i].Data? {
      InOrderAt(codec, h, i);
      PushAscends(Wire(h[i]), Contents(codec, Wire(h[i])), start, h[i].Next());
    }
  }

  /** The records a reader is given are in strictly ascending offset order, none before its
      start, so none is given twice. */
  lemma {:induction false} RecordsAscend(codec: Codec, h: History, a: nat, b: nat, start: int)
    requires Tiled(h) && RecordsInOrder(codec, h) && a <= b <= |h|
    ensures Ascending(RecordsIn(codec, h, a, b, start), start, if a < b then h[b - 1].Next() else start)
    decreases b
  {
    if a < b {
      RecordsAscend(codec, h, a, b - 1, start);
      MoreAscends(codec, h, b - 1, start);
      if a < b - 1 {
        Follows(h, b - 1);
        ExtendRecords(codec, h, a, b, start, h[b - 2].Next());
      } else {
        ExtendRecords(codec, h, a, b, start, start);
      }
    }
  }

  lemma ExtendRecords(codec: Codec, h: History, a: nat, b: nat, start: int, mid: int)
    requires a < b <= |h| && Ascending(RecordsIn(codec, h, a, b - 1, start), start, mid)
    requires Ascending(More(codec, h, b - 1, start), Max(start, h[b - 1].base), h[b - 1].Next())
    requires a < b - 1 ==> mid <= h[b - 1].base < h[b - 1].Next()
    ensures Ascending(RecordsIn(codec, h, a, b, start), start, h[b - 1].Next())
  {
    AscendingConcat(RecordsIn(codec, h, a, b - 1, start), More(codec, h, b - 1, start), start, mid, Max(start, h[b - 1].base), h[b - 1].Next());
  }

  lemma Follows(h: History, i: nat)
    requires Tiled(h) && 0 < i < |h|
    ensures h[i - 1].Next() <= h[i].base < h[i].Next()
  {
    TiledInOrder(h, i - 1, i);
    TiledInOrder(h, i, i);
  }

  // ---- broker to reader ---------------------------------------------------------------

  /** The records of committed transactions and of none, from `start` on, in `h[..n]`. */
  function CommittedRecords(codec: Codec, h: History, n: nat, start: int): seq<ConsumedRecord>
    requires n <= |h|
  {
    if n == 0 then []
    else
      CommittedRecords(codec, h, n - 1, start)
      + if Visible(h, n - 1) then Push(Wire(h[n - 1]), Contents(codec, Wire(h[n - 1])), start) else []
  }

  lemma ShownIsCommitted(codec: Codec, log: PartitionLog, h: History, horizon: int, i: nat, start: int)
    requires Summarizes(log, h) && IsLastStableOffset(log, horizon) && i < |h| && h[i].base < horizon
    ensures More(codec, h, i, start) == if Visible(h, i) then Push(Wire(h[i]), Contents(codec, Wire(h[i])), start) else []
  {
    HorizonIsDecided(log, h, horizon);
    if h[i].Data? {
      SurfacedOrVisible(h, i);
    }
  }

  lemma {:induction false} BelowTheHorizon(codec: Codec, log: PartitionLog, h: History, horizon: int, n: nat, start: int)
    requires Summarizes(log, h) && IsLastStableOffset(log, horizon)
    requires n <= |h| && (n > 0 ==> h[n - 1].base < horizon)
    ensures RecordsIn(codec, h, 0, n, start) == CommittedRecords(codec, h, n, start)
    decreases n
  {
    if n > 0 {
      if n > 1 {
        Follows(h, n - 1);
        TiledInOrder(h, n - 2, n - 2);
      }
      BelowTheHorizon(codec, log, h, horizon, n - 1, start);
      ShownIsCommitted(codec, log, h, horizon, n - 1, start);
    }
  }

  /** Every response ends below the horizon. */
  predicate EndBelow(h: History, rs: seq<Response>, horizon: int) {
    forall i :: 0 <= i < |rs| ==> rs[i].a <= rs[i].b <= |h| && (rs[i].b > 0 ==> h[rs[i].b - 1].base < horizon)
  }

  lemma CommittedUpTo(log: PartitionLog, h: History, horizon: int, codec: Codec, start: int, n: nat, offset: int)
    requires Summarizes(log, h) && RecordsInOrder(codec, h)
    requires IsLastStableOffset(log, horizon)
    requires At(h, start, offset, n) && (n > 0 ==> h[n - 1].base < horizon)
    ensures RecordsIn(codec, h, 0, n, start) == CommittedRecords(codec, h, n, start)
    ensures Ascending(RecordsIn(codec, h, 0, n, start), start, offset)
  {
    if n > 0 {
      assert h[..n][n - 1] == h[n - 1];
    }
    BelowTheHorizon(codec, log, h, horizon, n, start);
    RecordsAscend(codec, h, 0, n, start);
  }

  lemma EndsBelow(h: History, rs: seq<Response>, horizon: int, n: nat)
    requires EndBelow(h, rs, horizon) && (n == 0 || exists i :: 0 <= i < |rs| && n == rs[i].b)
    ensures n <= |h| && (n > 0 ==> h[n - 1].base < horizon)
  {
  }

  lemma HistoryIsSound(requests: seq<Request>, key: Partition)
    requires HonestRun(GENESIS, requests)
    ensures var w := Run(GENESIS, requests); Summarizes(w.s.LogAt(key), w.HistAt(key)) && WellFormed(w.HistAt(key))
  {
    var w := Run(GENESIS, requests);
    GenesisInv();
    RunInv(GENESIS, requests);
    assert Kept(w.ends, w.s.LogAt(key), w.HistAt(key));
  }

  /** After any honest run of the broker, a `read_committed` reader whose fetches are answered
      below the last stable offset has been given exactly the records of committed
      transactions and of none, each once and in order, from its start to where it stands. */
  lemma CommittedReadsAreExact(requests: seq<Request>, key: Partition, horizon: int, codec: Codec, maxRecords: nat, start: int, rs: seq<Response>) returns (n: nat)
    requires HonestRun(GENESIS, requests) && 0 <= start
    requires IsLastStableOffset(Run(GENESIS, requests).s.LogAt(key), horizon)
    requires RecordsInOrder(codec, Run(GENESIS, requests).HistAt(key))
    requires EndBelow(Run(GENESIS, requests).HistAt(key), rs, horizon)
    requires AllAnswer(codec, Run(GENESIS, requests).HistAt(key), maxRecords, start, rs)
    requires ReadOn(codec, Run(GENESIS, requests).HistAt(key), maxRecords, start, rs).Ok?
    ensures var h := Run(GENESIS, requests).HistAt(key);
            var (records, offset) := ReadOn(codec, h, maxRecords, start, rs).value;
            && At(h, start, offset, n)
            && records == CommittedRecords(codec, h, n, start)
            && Ascending(records, start, offset)
  {
    HistoryIsSound(requests, key);
    var h := Run(GENESIS, requests).HistAt(key);
    n := ReadingIsExact(codec, h, maxRecords, start, rs);
    EndsBelow(h, rs, horizon, n);
    CommittedUpTo(Run(GENESIS, requests).s.LogAt(key), h, horizon, codec, start, n, ReadOn(codec, h, maxRecords, start, rs).value.1);
  }
}
