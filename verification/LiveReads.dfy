/** Reading while the broker runs on: every fetch is answered from the partition as it stands at
    that moment, cut at the last stable offset of that moment, with the aborted list of that
    moment; and still the reader ends with what the final history calls committed. */
module LiveReads {
  import opened Wrappers
  import opened Records
  import opened Broker
  import opened TxnLog
  import opened Transactions
  import opened Atomicity
  import opened Consumer
  import opened ReadCommitted
  import opened Reading

  // ---- a run, cut at a moment ---------------------------------------------------------

  lemma {:induction false} RunSplit(w: World, rs: seq<Request>, t: nat)
    requires t <= |rs|
    ensures Run(w, rs) == Run(Run(w, rs[..t]), rs[t..])
    ensures HonestRun(w, rs) ==> HonestRun(w, rs[..t]) && HonestRun(Run(w, rs[..t]), rs[t..])
    decreases |rs|
  {
    if t == |rs| {
      assert rs[..t] == rs && rs[t..] == [];
    } else {
      var init := rs[..|rs| - 1];
      RunSplit(w, init, t);
      assert init[..t] == rs[..t] && rs[t..][..|rs[t..]| - 1] == init[t..];
    }
  }

  /** The world after the first `t` requests. */
  function WorldAt(requests: seq<Request>, t: nat): World
    requires t <= |requests|
  {
    Run(GENESIS, requests[..t])
  }

  /** What later requests cannot take back: the history, and how far it is decided. */
  lemma MomentIsPrefix(requests: seq<Request>, t: nat, key: Partition, horizon: int, horizon': int)
    requires HonestRun(GENESIS, requests) && t <= |requests|
    requires IsLastStableOffset(WorldAt(requests, t).s.LogAt(key), horizon)
    requires IsLastStableOffset(Run(GENESIS, requests).s.LogAt(key), horizon')
    ensures WorldAt(requests, t).HistAt(key) <= Run(GENESIS, requests).HistAt(key)
    ensures horizon <= horizon'
    ensures Summarizes(WorldAt(requests, t).s.LogAt(key), WorldAt(requests, t).HistAt(key))
  {
    RunSplit(GENESIS, requests, t);
    HistoryIsSound(requests[..t], key);
    GenesisInv();
    RunInv(GENESIS, requests[..t]);
    StableHorizon(WorldAt(requests, t), requests[t..], key, horizon, horizon');
  }

  lemma HorizonExists(log: PartitionLog) returns (horizon: int)
    ensures IsLastStableOffset(log, horizon)
  {
    if log.open == map[] {
      horizon := log.nextOffset;
    } else {
      var pid := HasMember(log.open.Keys);
      assert log.open[pid] in log.open.Values;
      horizon := LeastExists(log.open.Values);
    }
  }

  // ---- an answer given early ----------------------------------------------------------

  /** The answer of one moment, of which `h` is the history and `log` the summary. */
  ghost predicate AnsweredFrom(log: PartitionLog, h: History, offset: int, r: Response) {
    && Answers(h, offset, r)
    // beyond the end of the log the answer is an error
    && offset <= EndOf(h)
    && CutAtTheHorizon(log, h, r.b)
  }

  ghost predicate CutAtTheHorizon(log: PartitionLog, h: History, b: nat)
    requires b <= |h|
  {
    exists horizon :: IsLastStableOffset(log, horizon) && (b > 0 ==> h[b - 1].base < horizon)
  }

  lemma EndsRunLater(h: History, h': History, m: int, pid: int, first: int)
    requires h <= h'
    ensures EndsRun(h, m, pid, first) <==> m < |h| && EndsRun(h', m, pid, first)
  {
    if 0 <= m < |h| {
      assert h[..m] == h'[..m];
    }
  }

  lemma {:induction false} NoMarkerInPrefix(h: History, n: nat, j: nat, pid: int)
    requires j <= n <= |h| && NextEnd(h, j, pid).None?
    ensures NextEnd(h[..n], j, pid).None?
    decreases n - j
  {
    if j < n {
      NoMarkerInPrefix(h, n, j + 1, pid);
    }
  }

  /** A run that begins below the horizon of the moment has its marker by then. */
  lemma RunEndsByThen(log: PartitionLog, h: History, h': History, horizon: int, b: nat, m: int, pid: int, first: int)
    requires Summarizes(log, h) && IsLastStableOffset(log, horizon) && h <= h' && Tiled(h')
    requires b <= |h| && (b > 0 ==> h[b - 1].base < horizon)
    requires EndsRun(h', m, pid, first) && first < EndOf(h[..b])
    ensures m < |h|
  {
    var f := OpenSince(h', m, pid);
    TiledInOrder(h', f, f);
    if b <= f {
      assert h[..b][b - 1] == h'[b - 1];
      TiledInOrder(h', b - 1, f);
    }
    TiledInOrder(h', f, b - 1);
    HorizonIsDecided(log, h, horizon);
    assert h[f] == h'[f] && Verdict(h, f).Some?;
    if |h| <= m {
      assert h == h'[..m][..|h|];
      NoMarkerInPrefix(h'[..m], |h|, f + 1, pid);
    }
  }

  /** What accompanied the entries then is what must accompany them still. */
  lemma StillAccompanies(log: PartitionLog, h: History, h': History, a: nat, b: nat, list: seq<AbortedRun>)
    requires Summarizes(log, h) && h <= h' && Tiled(h') && a <= b <= |h|
    requires CutAtTheHorizon(log, h, b) && Accompanies(h, a, b, list)
    ensures Accompanies(h', a, b, list)
  {
    var horizon :| IsLastStableOffset(log, horizon) && (b > 0 ==> h[b - 1].base < horizon);
    assert h'[..b] == h[..b];
    forall r | r in Members(list) ensures exists m :: a <= m && EndsRun(h', m, r.producerId, r.firstOffset) {
      var m :| a <= m && EndsRun(h, m, r.producerId, r.firstOffset);
      EndsRunLater(h, h', m, r.producerId, r.firstOffset);
    }
    forall m, pid, first | a <= m && EndsRun(h', m, pid, first) && first < EndOf(h'[..b])
      ensures AbortedRun(pid, first) in Members(list)
    {
      RunEndsByThen(log, h, h', horizon, b, m, pid, first);
      EndsRunLater(h, h', m, pid, first);
    }
  }

  lemma StillAnswers(log: PartitionLog, h: History, h': History, offset: int, r: Response)
    requires Summarizes(log, h) && h <= h' && Tiled(h') && AnsweredFrom(log, h, offset, r)
    ensures Answers(h', offset, r)
  {
    StillAccompanies(log, h, h', r.a, r.b, r.list);
    if r.a == |h| < |h'| {
      TiledInOrder(h', r.a, r.a);
      if r.a > 0 {
        TiledInOrder(h', r.a - 1, r.a);
      }
    }
  }

  lemma {:induction false} SameWires(h: History, h': History, a: nat, b: nat)
    requires h <= h' && a <= b <= |h|
    ensures Wires(h, a, b) == Wires(h', a, b)
    decreases b
  {
    if a < b {
      SameWires(h, h', a, b - 1);
    }
  }

  // ---- fetch after fetch, moment after moment -----------------------------------------

  /** A response, and how many requests the broker had handled when it gave it. */
  datatype Fetched = Fetched(when: nat, response: Response)

  predicate Possible(requests: seq<Request>, key: Partition, f: Fetched) {
    f.when <= |requests| && f.response.a <= f.response.b <= |WorldAt(requests, f.when).HistAt(key)|
  }

  predicate AllPossible(requests: seq<Request>, key: Partition, fs: seq<Fetched>) {
    forall i :: 0 <= i < |fs| ==> Possible(requests, key, fs[i])
  }

  /** What a reader has and where it stands, each fetch read from the log of its own moment. */
  function ReadLive(codec: Codec, requests: seq<Request>, key: Partition, maxRecords: nat, start: int, fs: seq<Fetched>): Result<(seq<ConsumedRecord>, int), FetchError>
    requires AllPossible(requests, key, fs)
  {
    if fs == [] then Ok(([], start))
    else
      var (records, offset) :- ReadLive(codec, requests, key, maxRecords, start, fs[..|fs| - 1]);
      var f := fs[|fs| - 1];
      var p :- Fetch(true, Some(f.response.list), maxRecords, codec,
                     Wires(WorldAt(requests, f.when).HistAt(key), f.response.a, f.response.b), offset);
      Ok((records + p.records, p.next))
  }

  /** Each fetch is answered as its own moment requires. */
  ghost predicate AnsweredLive(codec: Codec, requests: seq<Request>, key: Partition, maxRecords: nat, start: int, fs: seq<Fetched>)
    requires AllPossible(requests, key, fs)
  {
    fs == [] ||
    (var before := ReadLive(codec, requests, key, maxRecords, start, fs[..|fs| - 1]);
     var f := fs[|fs| - 1];
     var w := WorldAt(requests, f.when);
     && AnsweredLive(codec, requests, key, maxRecords, start, fs[..|fs| - 1])
     && (before.Ok? ==> AnsweredFrom(w.s.LogAt(key), w.HistAt(key), before.value.1, f.response)))
  }

  function Responses(fs: seq<Fetched>): (rs: seq<Response>)
    ensures |rs| == |fs| && forall i :: 0 <= i < |fs| ==> rs[i] == fs[i].response
  {
    if fs == [] then [] else Responses(fs[..|fs| - 1]) + [fs[|fs| - 1].response]
  }

  lemma FitsLater(requests: seq<Request>, key: Partition, fs: seq<Fetched>, i: nat)
    requires HonestRun(GENESIS, requests) && AllPossible(requests, key, fs) && i < |fs|
    ensures WorldAt(requests, fs[i].when).HistAt(key) <= Run(GENESIS, requests).HistAt(key)
    ensures fs[i].response.b <= |Run(GENESIS, requests).HistAt(key)|
  {
    RunSplit(GENESIS, requests, fs[i].when);
    HistoryGrows(WorldAt(requests, fs[i].when), requests[fs[i].when..], key);
  }

  lemma AllFitLater(requests: seq<Request>, key: Partition, fs: seq<Fetched>)
    requires HonestRun(GENESIS, requests) && AllPossible(requests, key, fs)
    ensures forall i :: 0 <= i < |fs| ==> Responses(fs)[i].a <= Responses(fs)[i].b <= |Run(GENESIS, requests).HistAt(key)|
  {
    forall i | 0 <= i < |fs| ensures Responses(fs)[i].a <= Responses(fs)[i].b <= |Run(GENESIS, requests).HistAt(key)| {
      FitsLater(requests, key, fs, i);
    }
  }

  /** One more fetch reads the same from its own moment's history and from the final one. */
  lemma OneMoreFetch(codec: Codec, requests: seq<Request>, key: Partition, maxRecords: nat, start: int, fs: seq<Fetched>, h: History, rs: seq<Response>)
    requires fs != [] && AllPossible(requests, key, fs)
    requires |rs| == |fs| && rs[|rs| - 1] == fs[|fs| - 1].response && forall i :: 0 <= i < |rs| ==> rs[i].a <= rs[i].b <= |h|
    requires WorldAt(requests, fs[|fs| - 1].when).HistAt(key) <= h
    requires ReadLive(codec, requests, key, maxRecords, start, fs[..|fs| - 1]) == ReadOn(codec, h, maxRecords, start, rs[..|rs| - 1])
    ensures ReadLive(codec, requests, key, maxRecords, start, fs) == ReadOn(codec, h, maxRecords, start, rs)
  {
    var f := fs[|fs| - 1];
    SameWires(WorldAt(requests, f.when).HistAt(key), h, f.response.a, f.response.b);
  }

  /** Reading live is reading the final history in the same pieces. */
  lemma {:induction false} LiveIsLate(codec: Codec, requests: seq<Request>, key: Partition, maxRecords: nat, start: int, fs: seq<Fetched>)
    requires HonestRun(GENESIS, requests) && AllPossible(requests, key, fs)
    requires AnsweredLive(codec, requests, key, maxRecords, start, fs)
    ensures forall i :: 0 <= i < |fs| ==> Responses(fs)[i].a <= Responses(fs)[i].b <= |Run(GENESIS, requests).HistAt(key)|
    ensures var h := Run(GENESIS, requests).HistAt(key);
            && ReadLive(codec, requests, key, maxRecords, start, fs) == ReadOn(codec, h, maxRecords, start, Responses(fs))
            && AllAnswer(codec, h, maxRecords, start, Responses(fs))
  {
    AllFitLater(requests, key, fs);
    if fs != [] {
      var h, init, f := Run(GENESIS, requests).HistAt(key), fs[..|fs| - 1], fs[|fs| - 1];
      LiveIsLate(codec, requests, key, maxRecords, start, init);
      assert Responses(fs)[..|fs| - 1] == Responses(init);
      FitsLater(requests, key, fs, |fs| - 1);
      OneMoreFetch(codec, requests, key, maxRecords, start, fs, h, Responses(fs));
      var before := ReadLive(codec, requests, key, maxRecords, start, init);
      if before.Ok? {
        AnswersLater(requests, key, f, before.value.1);
      }
    }
  }

  lemma AnswersLater(requests: seq<Request>, key: Partition, f: Fetched, offset: int)
    requires HonestRun(GENESIS, requests) && Possible(requests, key, f)
    requires var w := WorldAt(requests, f.when); AnsweredFrom(w.s.LogAt(key), w.HistAt(key), offset, f.response)
    ensures Answers(Run(GENESIS, requests).HistAt(key), offset, f.response)
  {
    var w := WorldAt(requests, f.when);
    RunSplit(GENESIS, requests, f.when);
    HistoryGrows(w, requests[f.when..], key);
    HistoryIsSound(requests[..f.when], key);
    HistoryIsSound(requests, key);
    StillAnswers(w.s.LogAt(key), w.HistAt(key), Run(GENESIS, requests).HistAt(key), offset, f.response);
  }

  /** The response ends below the last stable offset of its moment. */
  ghost predicate Cut(requests: seq<Request>, key: Partition, f: Fetched)
    requires Possible(requests, key, f)
  {
    CutAtTheHorizon(WorldAt(requests, f.when).s.LogAt(key), WorldAt(requests, f.when).HistAt(key), f.response.b)
  }

  /** ... and so below the final one. */
  lemma CutStaysBelow(requests: seq<Request>, key: Partition, f: Fetched, horizon: int)
    requires HonestRun(GENESIS, requests) && Possible(requests, key, f) && Cut(requests, key, f)
    requires IsLastStableOffset(Run(GENESIS, requests).s.LogAt(key), horizon)
    ensures EndBelow(Run(GENESIS, requests).HistAt(key), [f.response], horizon)
  {
    var w := WorldAt(requests, f.when);
    var early :| IsLastStableOffset(w.s.LogAt(key), early) && (f.response.b > 0 ==> w.HistAt(key)[f.response.b - 1].base < early);
    MomentIsPrefix(requests, f.when, key, early, horizon);
  }

  lemma {:induction false} AllStayBelow(requests: seq<Request>, key: Partition, fs: seq<Fetched>, horizon: int)
    requires HonestRun(GENESIS, requests) && AllPossible(requests, key, fs)
    requires forall i :: 0 <= i < |fs| ==> Cut(requests, key, fs[i])
    requires IsLastStableOffset(Run(GENESIS, requests).s.LogAt(key), horizon)
    ensures EndBelow(Run(GENESIS, requests).HistAt(key), Responses(fs), horizon)
  {
    if fs != [] {
      AllStayBelow(requests, key, fs[..|fs| - 1], horizon);
      CutStaysBelow(requests, key, fs[|fs| - 1], horizon);
      BelowConcat(Run(GENESIS, requests).HistAt(key), Responses(fs[..|fs| - 1]), [fs[|fs| - 1].response], horizon);
    }
  }

  lemma BelowConcat(h: History, a: seq<Response>, b: seq<Response>, horizon: int)
    requires EndBelow(h, a, horizon) && EndBelow(h, b, horizon)
    ensures EndBelow(h, a + b, horizon)
  {
  }

  lemma {:induction false} LiveIsCut(codec: Codec, requests: seq<Request>, key: Partition, maxRecords: nat, start: int, fs: seq<Fetched>, i: nat)
    requires AllPossible(requests, key, fs) && i < |fs|
    requires AnsweredLive(codec, requests, key, maxRecords, start, fs)
    requires ReadLive(codec, requests, key, maxRecords, start, fs).Ok?
    ensures Cut(requests, key, fs[i])
  {
    if i < |fs| - 1 {
      LiveIsCut(codec, requests, key, maxRecords, start, fs[..|fs| - 1], i);
    }
  }

  /** A `read_committed` reader may follow the log while the broker works on it. Whatever moment
      each of its fetches is answered at, what it has been given is exactly the records of
      transactions committed in the final history and of none, each once and in order, from its
      start to where it stands. */
  lemma LiveReadsAreExact(requests: seq<Request>, key: Partition, codec: Codec, maxRecords: nat, start: int, fs: seq<Fetched>) returns (n: nat)
    requires HonestRun(GENESIS, requests) && 0 <= start
    requires AllPossible(requests, key, fs)
    requires AnsweredLive(codec, requests, key, maxRecords, start, fs)
    requires RecordsInOrder(codec, Run(GENESIS, requests).HistAt(key))
    requires ReadLive(codec, requests, key, maxRecords, start, fs).Ok?
    ensures var h := Run(GENESIS, requests).HistAt(key);
            var (records, offset) := ReadLive(codec, requests, key, maxRecords, start, fs).value;
            && At(h, start, offset, n)
            && records == CommittedRecords(codec, h, n, start)
            && Ascending(records, start, offset)
  {
    var horizon := HorizonExists(Run(GENESIS, requests).s.LogAt(key));
    LiveIsLate(codec, requests, key, maxRecords, start, fs);
    forall i | 0 <= i < |fs| ensures Cut(requests, key, fs[i]) {
      LiveIsCut(codec, requests, key, maxRecords, start, fs, i);
    }
    AllStayBelow(requests, key, fs, horizon);
    n := CommittedReadsAreExact(requests, key, horizon, codec, maxRecords, start, Responses(fs));
  }
}
