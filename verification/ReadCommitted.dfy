/** What a `read_committed` consumer sees of a partition: the batch filter agrees with the
    transactions' verdicts, and reading from fetch to fetch neither skips nor repeats. */
module ReadCommitted {
  import opened Wrappers
  import opened Records
  import opened Broker
  import opened TxnLog
  import opened Consumer

  // ---- what a fetch returns -----------------------------------------------------------

  /** The key of a control record: a version, then 0 for abort and 1 for commit. */
  function MarkerKey(committed: bool): Bytes {
    [0, 0, 0, if committed then 1 else 0]
  }

  /** An entry as a fetch carries it. */
  function Wire(e: Entry): RecordBatch {
    match e
    case Data(base, batch, _) => batch.(baseOffset := base)
    case Marker(base, pid, committed) =>
      RecordBatch(base, 0, 0, pid, 0, -1, true, true, Plain([Record(0, 0, Some(MarkerKey(committed)), None, [])]))
  }

  function Wires(h: History, a: nat, b: nat): seq<RecordBatch>
    requires a <= b <= |h|
  {
    if a == b then [] else Wires(h, a, b - 1) + [Wire(h[b - 1])]
  }

  /** Whether the entry carries a producer id, and so moves the filter along. */
  predicate Acts(e: Entry) {
    if e.Data? then e.batch.producerId >= 0 else e.pid >= 0
  }

  /** Data batches are not control batches, and transactional ones have a producer. */
  predicate WellFormed(h: History) {
    forall i :: 0 <= i < |h| ==>
      match h[i]
      case Data(_, batch, _) => !batch.control && (batch.transactional ==> batch.producerId >= 0)
      case Marker(_, pid, _) => pid >= 0
  }

  /** Entry `m` is an abort marker that ends a transaction of `pid`. */
  predicate Aborts(h: History, m: int, pid: int) {
    0 <= m < |h| && h[m].Marker? && h[m].pid == pid && !h[m].committed && pid in OpenOf(h[..m])
  }

  /** ... and that transaction began at `first`. */
  predicate EndsRun(h: History, m: int, pid: int, first: int) {
    Aborts(h, m, pid) && OpenOf(h[..m])[pid] == first
  }

  ghost predicate OnlyAhead(h: History, a: nat, list: seq<AbortedRun>) {
    forall r :: r in Members(list) ==> exists m :: a <= m && EndsRun(h, m, r.producerId, r.firstOffset)
  }

  ghost predicate AllBegun(h: History, a: nat, b: nat, list: seq<AbortedRun>)
    requires a <= b <= |h|
  {
    forall m, pid, first :: a <= m && EndsRun(h, m, pid, first) && first < EndOf(h[..b]) ==> AbortedRun(pid, first) in Members(list)
  }

  /** `list` is what must accompany entries `a..b`: only aborted transactions whose marker is
      not before the range, and all of those that begin before the range ends; in any order. */
  ghost predicate Accompanies(h: History, a: nat, b: nat, list: seq<AbortedRun>)
    requires a <= b <= |h|
  {
    OnlyAhead(h, a, list) && AllBegun(h, a, b, list)
  }

  /** Whether the filter should surface entry `i`: data, and not of an aborted transaction. */
  predicate Surfaces(h: History, i: nat)
    requires i < |h|
  {
    h[i].Data? && (h[i].batch.transactional ==> Verdict(h, i) != Some(false))
  }

  // ---- markers and verdicts -----------------------------------------------------------

  /** A verdict comes from the producer's next marker. */
  lemma {:induction false} MarkerOf(h: History, j: nat, pid: int) returns (m: nat)
    requires j <= |h| && NextEnd(h, j, pid).Some?
    ensures j <= m < |h| && h[m].Marker? && h[m].pid == pid
    ensures NextEnd(h, j, pid) == Some(h[m].committed) && NextEnd(h[..m], j, pid).None?
    decreases |h|
  {
    var n := |h| - 1;
    assert h == h[..n] + [h[n]];
    NextEndSnoc(h[..n], h[n], j, pid);
    if NextEnd(h[..n], j, pid).Some? {
      m := MarkerOf(h[..n], j, pid);
      assert h[..n][..m] == h[..m];
    } else {
      m := n;
    }
  }

  lemma MarkerDecides(h: History, j: nat, m: nat, pid: int)
    requires j <= m < |h| && h[m].Marker? && h[m].pid == pid && NextEnd(h[..m], j, pid).None?
    ensures NextEnd(h, j, pid) == Some(h[m].committed)
  {
    NextEndSnoc(h[..m], h[m], j, pid);
    assert h[..m + 1] == h[..m] + [h[m]];
    Extend(h[..m + 1], h[m + 1..], j, pid);
    assert h == h[..m + 1] + h[m + 1..];
  }

  lemma {:induction false} Extend(h: History, more: History, j: nat, pid: int)
    requires j <= |h| && NextEnd(h, j, pid).Some?
    ensures NextEnd(h + more, j, pid) == NextEnd(h, j, pid)
    decreases |more|
  {
    if more == [] {
      assert h + more == h;
    } else {
      Extend(h, more[..|more| - 1], j, pid);
      NextEndSnoc(h + more[..|more| - 1], more[|more| - 1], j, pid);
      assert h + more == (h + more[..|more| - 1]) + [more[|more| - 1]];
    }
  }

  /** With no marker of `pid` from `j` on there is none from any later point on. */
  lemma {:induction false} NoLaterMarker(h: History, j: nat, k: nat, pid: int)
    requires j <= k <= |h| && NextEnd(h, j, pid).None?
    ensures NextEnd(h, k, pid).None?
    ensures k < |h| ==> !(h[k].Marker? && h[k].pid == pid)
    decreases k
  {
    if j < k {
      NoLaterMarker(h, j, k - 1, pid);
    }
  }

  /** Where an open transaction began. */
  lemma OpenSince(h: History, m: nat, pid: int) returns (f: nat)
    requires Tiled(h) && m <= |h| && pid in OpenOf(h[..m])
    ensures f < m && h[f].InTxnOf(pid) && h[f].base == OpenOf(h[..m])[pid]
    ensures NextEnd(h[..m], f + 1, pid).None?
    ensures forall i :: 0 <= i < f ==> !Undecided(h[..m], i, pid)
  {
    OpenIsExact(h[..m], pid);
    var g :| FirstUndecided(h[..m], pid, g) && OpenOf(h[..m])[pid] == h[..m][g].base;
    f := g;
  }

  // ---- the filter's state -------------------------------------------------------------

  /** A transaction of `pid` that began at or before `t` is ended by an abort at `m`, not yet
      reached at `i`. */
  predicate InForce(h: History, i: nat, pid: int, m: int, t: int) {
    i <= m && Aborts(h, m, pid) && OpenOf(h[..m])[pid] <= t
  }

  ghost predicate SomeInForce(h: History, i: nat, pid: int, t: int) {
    exists m :: InForce(h, i, pid, m, t)
  }

  /** The filter having seen entries `a..i`, the last offset it acted on being `t`. */
  ghost predicate Tracks(h: History, a: nat, i: nat, list: seq<AbortedRun>, f: Filter, t: int)
    requires a <= i <= |h|
  {
    && f.readCommitted && Sorted(f.aborted)
    && -1 <= t < EndOf(h[..i])
    && (forall k :: a <= k < i && Acts(h[k]) ==> h[k].Next() <= t + 1)
    && Members(f.aborted) == Members(list) - Due(Members(list), t)
    && (forall p :: p in f.disowned <==> SomeInForce(h, i, p, t))
  }

  /** A run listed but not yet due when entry `i` is reached is still to be ended. */
  lemma ListedRunIsAhead(h: History, a: nat, i: nat, list: seq<AbortedRun>, t: int, r: AbortedRun) returns (m: int)
    requires Tiled(h) && WellFormed(h) && a <= i < |h| && OnlyAhead(h, a, list)
    requires forall k :: a <= k < i && Acts(h[k]) ==> h[k].Next() <= t + 1
    requires r in Members(list) && t < r.firstOffset
    ensures i <= m && EndsRun(h, m, r.producerId, r.firstOffset)
  {
    m :| a <= m && EndsRun(h, m, r.producerId, r.firstOffset);
    var g := OpenSince(h, m, r.producerId);
    TiledInOrder(h, g, m);
    assert h[m].Marker? && Acts(h[m]);
    TiledInOrder(h, m, m);
  }

  lemma NewlyDisowned(f: Filter, last: int, p: int) returns (r: AbortedRun)
    requires Sorted(f.aborted) && p in Enforce(f, last).disowned && p !in f.disowned
    ensures r in Members(f.aborted) && r.firstOffset <= last && r.producerId == p
  {
    EnforceIsExact(f, last);
    r :| r in Due(Members(f.aborted), last) && r.producerId == p;
  }

  /** Enforcing the list up to the end of entry `i` disowns only producers with an aborted
      transaction in force there, and all of those. */
  lemma DisownedIsInForce(h: History, a: nat, i: nat, list: seq<AbortedRun>, f: Filter, t: int, p: int)
    requires Tiled(h) && WellFormed(h) && a <= i < |h|
    requires OnlyAhead(h, a, list) && Tracks(h, a, i, list, f, t)
    requires p in Enforce(f, h[i].Next() - 1).disowned
    ensures SomeInForce(h, i, p, h[i].Next() - 1)
  {
    TEndsBefore(h, i);
    if p in f.disowned {
      var m :| InForce(h, i, p, m, t);
      assert InForce(h, i, p, m, h[i].Next() - 1);
    } else {
      var r := NewlyDisowned(f, h[i].Next() - 1, p);
      var m := ListedRunIsAhead(h, a, i, list, t, r);
      assert InForce(h, i, p, m, h[i].Next() - 1);
    }
  }

  lemma InForceIsListed(h: History, a: nat, b: nat, i: nat, list: seq<AbortedRun>, p: int, m: int)
    requires Tiled(h) && a <= i < b <= |h| && AllBegun(h, a, b, list)
    requires InForce(h, i, p, m, h[i].Next() - 1)
    ensures AbortedRun(p, OpenOf(h[..m])[p]) in Members(list)
  {
    TiledInOrder(h, i, b - 1);
    TiledInOrder(h, b - 1, b - 1);
    assert h[..b][b - 1] == h[b - 1];
    assert EndsRun(h, m, p, OpenOf(h[..m])[p]);
  }

  lemma InForceIsDisowned(h: History, a: nat, i: nat, list: seq<AbortedRun>, f: Filter, t: int, p: int, m: int)
    requires a <= i < |h| && Tracks(h, a, i, list, f, t)
    requires InForce(h, i, p, m, h[i].Next() - 1)
    requires AbortedRun(p, OpenOf(h[..m])[p]) in Members(list)
    ensures p in Enforce(f, h[i].Next() - 1).disowned
  {
    var last := h[i].Next() - 1;
    EnforceIsExact(f, last);
    var r := AbortedRun(p, OpenOf(h[..m])[p]);
    if r.firstOffset <= t {
      assert InForce(h, i, p, m, t);
    } else {
      assert r in Due(Members(f.aborted), last);
    }
  }

  lemma TEndsBefore(h: History, i: nat)
    requires Tiled(h) && i < |h|
    ensures EndOf(h[..i]) <= h[i].base < h[i].Next()
  {
    TiledInOrder(h, i, i);
    if i > 0 {
      TiledInOrder(h, i - 1, i);
    }
  }

  lemma AbortedIsInForce(h: History, i: nat)
    requires Tiled(h) && i < |h| && h[i].Data? && h[i].batch.transactional && Verdict(h, i) == Some(false)
    ensures SomeInForce(h, i, h[i].batch.producerId, h[i].Next() - 1)
  {
    var p := h[i].batch.producerId;
    var m := MarkerOf(h, i + 1, p);
    assert Undecided(h[..m], i, p);
    OpenIsExact(h[..m], p);
    var f := OpenSince(h, m, p);
    assert f <= i;
    TiledInOrder(h, i, i);
    TiledInOrder(h, f, i);
    assert InForce(h, i, p, m, h[i].Next() - 1);
  }

  lemma InForceIsAborted(h: History, i: nat, m: int)
    requires Tiled(h) && i < |h| && h[i].Data? && InForce(h, i, h[i].batch.producerId, m, h[i].Next() - 1)
    ensures Verdict(h, i) == Some(false)
  {
    var p := h[i].batch.producerId;
    var f := OpenSince(h, m, p);
    if f > i {
      TiledInOrder(h, i, f);
    }
    NoLaterMarker(h[..m], f + 1, i + 1, p);
    MarkerDecides(h, i + 1, m, p);
  }

  /** Past entry `i` the same transactions are in force, but for one that `i` itself ends. */
  lemma InForcePast(h: History, i: nat, p: int)
    requires Tiled(h) && i < |h|
    ensures SomeInForce(h, i + 1, p, h[i].Next() - 1) <==>
            SomeInForce(h, i, p, h[i].Next() - 1) && !(h[i].Marker? && !h[i].committed && h[i].pid == p)
  {
    var last := h[i].Next() - 1;
    if SomeInForce(h, i, p, last) && !(h[i].Marker? && !h[i].committed && h[i].pid == p) {
      var m :| InForce(h, i, p, m, last);
      assert InForce(h, i + 1, p, m, last);
    }
    if SomeInForce(h, i + 1, p, last) {
      var m :| InForce(h, i + 1, p, m, last);
      assert InForce(h, i, p, m, last);
      if h[i].Marker? && h[i].pid == p {
        var f := OpenSince(h, m, p);
        if f < i {
          NoLaterMarker(h[..m], f + 1, i, p);
        } else {
          TiledInOrder(h, i, f);
        }
      }
    }
  }

  // ---- one entry through the filter ---------------------------------------------------

  /** What the filter does with an entry, said of the entry itself. */
  function JudgeEntry(f: Filter, e: Entry): (Filter, bool) {
    var g := if Acts(e) then Enforce(f, e.Next() - 1) else f;
    match e
    case Data(_, batch, _) => (g, !(batch.transactional && batch.producerId in g.disowned))
    case Marker(_, pid, committed) => (if committed then g else g.(disowned := g.disowned - {pid}), false)
  }

  /** The filter reads a marker for what it is. */
  lemma MarkerReads(base: int, pid: int, committed: bool)
    ensures IsAbortMarker(Wire(Marker(base, pid, committed))) <==> !committed
  {
    var key := MarkerKey(committed);
    assert key[2] == 0 && key[3] == if committed then 1 else 0;
  }

  lemma {:induction false} EnforceKeepsLevel(f: Filter, last: int)
    ensures Enforce(f, last).readCommitted == f.readCommitted
    decreases |f.aborted|
  {
    if f.aborted != [] && f.aborted[0].firstOffset <= last {
      EnforceKeepsLevel(f.(aborted := f.aborted[1..], disowned := f.disowned + {f.aborted[0].producerId}), last);
    }
  }

  lemma JudgeReads(f: Filter, e: Entry)
    requires f.readCommitted
    requires if e.Data? then !e.batch.control else e.pid >= 0
    ensures Judge(f, Wire(e)) == JudgeEntry(f, e)
  {
    EnforceKeepsLevel(f, e.Next() - 1);
    if e.Marker? {
      MarkerReads(e.base, e.pid, e.committed);
    }
  }

  lemma EnforcedIsInForce(h: History, a: nat, b: nat, i: nat, list: seq<AbortedRun>, f: Filter, t: int, p: int)
    requires Tiled(h) && WellFormed(h) && a <= i < b <= |h|
    requires Accompanies(h, a, b, list) && Tracks(h, a, i, list, f, t)
    ensures p in Enforce(f, h[i].Next() - 1).disowned <==> SomeInForce(h, i, p, h[i].Next() - 1)
  {
    if p in Enforce(f, h[i].Next() - 1).disowned {
      DisownedIsInForce(h, a, i, list, f, t, p);
    }
    if SomeInForce(h, i, p, h[i].Next() - 1) {
      var m :| InForce(h, i, p, m, h[i].Next() - 1);
      InForceIsListed(h, a, b, i, list, p, m);
      InForceIsDisowned(h, a, i, list, f, t, p, m);
    }
  }

  lemma EnforcedMembers(f: Filter, list: set<AbortedRun>, t: int, last: int)
    requires t <= last && Sorted(f.aborted) && Members(f.aborted) == list - Due(list, t)
    ensures Sorted(Enforce(f, last).aborted) && Members(Enforce(f, last).aborted) == list - Due(list, last)
  {
    EnforceIsExact(f, last);
    assert (list - Due(list, t)) - Due(list - Due(list, t), last) == list - Due(list, last);
  }

  lemma DisownedAfter(h: History, a: nat, b: nat, i: nat, list: seq<AbortedRun>, f: Filter, t: int, p: int)
    requires Tiled(h) && WellFormed(h) && a <= i < b <= |h|
    requires Accompanies(h, a, b, list) && Tracks(h, a, i, list, f, t)
    requires Acts(h[i])
    ensures p in JudgeEntry(f, h[i]).0.disowned <==> SomeInForce(h, i + 1, p, h[i].Next() - 1)
  {
    EnforcedIsInForce(h, a, b, i, list, f, t, p);
    InForcePast(h, i, p);
  }

  lemma ActsBefore(h: History, a: nat, i: nat)
    requires Tiled(h) && a <= i < |h|
    ensures forall k :: a <= k < i + 1 && Acts(h[k]) ==> h[k].Next() <= h[i].Next()
  {
    forall k | a <= k < i ensures h[k].Next() <= h[i].Next() {
      TiledInOrder(h, k, i);
      TiledInOrder(h, i, i);
    }
  }

  lemma DisownedIsInForceAfter(h: History, a: nat, b: nat, i: nat, list: seq<AbortedRun>, f: Filter, t: int)
    requires Tiled(h) && WellFormed(h) && a <= i < b <= |h|
    requires Accompanies(h, a, b, list) && Tracks(h, a, i, list, f, t)
    requires Acts(h[i])
    ensures forall p :: p in JudgeEntry(f, h[i]).0.disowned <==> SomeInForce(h, i + 1, p, h[i].Next() - 1)
  {
    forall p ensures p in JudgeEntry(f, h[i]).0.disowned <==> SomeInForce(h, i + 1, p, h[i].Next() - 1) {
      DisownedAfter(h, a, b, i, list, f, t, p);
    }
  }

  lemma AbortedAfter(f: Filter, e: Entry, list: set<AbortedRun>, t: int)
    requires f.readCommitted && Acts(e) && t <= e.Next() - 1 && Sorted(f.aborted) && Members(f.aborted) == list - Due(list, t)
    ensures var g := JudgeEntry(f, e).0;
            g.readCommitted && Sorted(g.aborted) && Members(g.aborted) == list - Due(list, e.Next() - 1)
  {
    EnforcedMembers(f, list, t, e.Next() - 1);
    EnforceKeepsLevel(f, e.Next() - 1);
  }

  lemma ActingTracks(h: History, a: nat, b: nat, i: nat, list: seq<AbortedRun>, f: Filter, t: int)
    requires Tiled(h) && WellFormed(h) && a <= i < b <= |h|
    requires Accompanies(h, a, b, list) && Tracks(h, a, i, list, f, t)
    requires Acts(h[i])
    ensures Tracks(h, a, i + 1, list, JudgeEntry(f, h[i]).0, h[i].Next() - 1)
  {
    TEndsBefore(h, i);
    ActsBefore(h, a, i);
    AbortedAfter(f, h[i], Members(list), t);
    DisownedIsInForceAfter(h, a, b, i, list, f, t);
    assert h[..i + 1][i] == h[i];
  }

  lemma PassiveTracks(h: History, a: nat, i: nat, list: seq<AbortedRun>, f: Filter, t: int)
    requires Tiled(h) && a <= i < |h| && Tracks(h, a, i, list, f, t)
    requires h[i].Data? && !Acts(h[i])
    ensures Tracks(h, a, i + 1, list, JudgeEntry(f, h[i]).0, t)
  {
    TEndsBefore(h, i);
    assert h[..i + 1][i] == h[i];
    forall p ensures SomeInForce(h, i, p, t) <==> SomeInForce(h, i + 1, p, t) {
      if SomeInForce(h, i, p, t) {
        var m :| InForce(h, i, p, m, t);
        assert InForce(h, i + 1, p, m, t);
      }
      if SomeInForce(h, i + 1, p, t) {
        var m :| InForce(h, i + 1, p, m, t);
        assert InForce(h, i, p, m, t);
      }
    }
  }

  lemma JudgedExactly(h: History, a: nat, b: nat, i: nat, list: seq<AbortedRun>, f: Filter, t: int)
    requires Tiled(h) && WellFormed(h) && a <= i < b <= |h|
    requires Accompanies(h, a, b, list) && Tracks(h, a, i, list, f, t)
    ensures JudgeEntry(f, h[i]).1 == Surfaces(h, i)
  {
    if h[i].Data? && h[i].batch.transactional {
      var p := h[i].batch.producerId;
      EnforcedIsInForce(h, a, b, i, list, f, t, p);
      if Verdict(h, i) == Some(false) {
        AbortedIsInForce(h, i);
      } else if SomeInForce(h, i, p, h[i].Next() - 1) {
        var m :| InForce(h, i, p, m, h[i].Next() - 1);
        InForceIsAborted(h, i, m);
      }
    }
  }

  lemma NoneInForce(h: History, a: nat)
    requires Tiled(h)
    ensures forall p :: !SomeInForce(h, a, p, -1)
  {
    forall p, m ensures !InForce(h, a, p, m, -1) {
      if Aborts(h, m, p) {
        var f := OpenSince(h, m, p);
        TiledInOrder(h, f, f);
      }
    }
  }

  lemma ListedFromZero(h: History, a: nat, list: seq<AbortedRun>)
    requires Tiled(h) && OnlyAhead(h, a, list)
    ensures Due(Members(list), -1) == {}
  {
    forall r | r in Members(list) ensures 0 <= r.firstOffset {
      var m :| a <= m && EndsRun(h, m, r.producerId, r.firstOffset);
      var f := OpenSince(h, m, r.producerId);
      TiledInOrder(h, f, f);
    }
  }

  lemma FilterStarts(h: History, a: nat, list: seq<AbortedRun>)
    requires Tiled(h) && a <= |h| && OnlyAhead(h, a, list)
    ensures Tracks(h, a, a, list, NewFilter(true, Some(list)), -1)
  {
    FreshFilter(list);
    ListedFromZero(h, a, list);
    EndIsNotNegative(h, a);
    NoneInForce(h, a);
  }

  lemma FreshFilter(list: seq<AbortedRun>)
    ensures var f := NewFilter(true, Some(list));
            f.readCommitted && Sorted(f.aborted) && Members(f.aborted) == Members(list) && f.disowned == {}
  {
    SortSorts(list);
  }

  lemma EndIsNotNegative(h: History, a: nat)
    requires Tiled(h) && a <= |h|
    ensures -1 < EndOf(h[..a])
  {
    if a > 0 {
      TiledInOrder(h, a - 1, a - 1);
      assert h[..a][a - 1] == h[a - 1];
    }
  }

  /** The state of a fresh filter after entries `a..i`. */
  function FilterAt(h: History, a: nat, i: nat, list: seq<AbortedRun>): Filter
    requires a <= i <= |h|
  {
    FilterAfter(NewFilter(true, Some(list)), Wires(h, a, i))
  }

  lemma FilterAtNext(h: History, a: nat, i: nat, list: seq<AbortedRun>)
    requires a <= i < |h|
    requires FilterAt(h, a, i, list).readCommitted
    requires if h[i].Data? then !h[i].batch.control else h[i].pid >= 0
    ensures FilterAt(h, a, i + 1, list) == JudgeEntry(FilterAt(h, a, i, list), h[i]).0
  {
    assert Wires(h, a, i + 1)[..i - a] == Wires(h, a, i) by {
      WiresLength(h, a, i);
    }
    WiresLength(h, a, i);
    JudgeReads(FilterAt(h, a, i, list), h[i]);
  }

  lemma {:induction false} WiresLength(h: History, a: nat, b: nat)
    requires a <= b <= |h|
    ensures |Wires(h, a, b)| == b - a
    decreases b
  {
    if a < b {
      WiresLength(h, a, b - 1);
    }
  }

  lemma EntryTracks(h: History, a: nat, b: nat, i: nat, list: seq<AbortedRun>, f: Filter, t: int) returns (t': int)
    requires Tiled(h) && WellFormed(h) && a <= i < b <= |h|
    requires Accompanies(h, a, b, list) && Tracks(h, a, i, list, f, t)
    ensures Tracks(h, a, i + 1, list, JudgeEntry(f, h[i]).0, t')
  {
    if Acts(h[i]) {
      ActingTracks(h, a, b, i, list, f, t);
      t' := h[i].Next() - 1;
    } else {
      PassiveTracks(h, a, i, list, f, t);
      t' := t;
    }
  }

  ghost predicate Tracked(h: History, a: nat, i: nat, list: seq<AbortedRun>)
    requires a <= i <= |h|
  {
    exists t :: Tracks(h, a, i, list, FilterAt(h, a, i, list), t)
  }

  lemma TrackedNext(h: History, a: nat, b: nat, i: nat, list: seq<AbortedRun>)
    requires Tiled(h) && WellFormed(h) && a <= i < b <= |h| && Accompanies(h, a, b, list)
    requires Tracked(h, a, i, list)
    ensures Tracked(h, a, i + 1, list)
  {
    var f := FilterAt(h, a, i, list);
    var t :| Tracks(h, a, i, list, f, t);
    FilterAtNext(h, a, i, list);
    var t' := EntryTracks(h, a, b, i, list, f, t);
  }

  lemma {:induction false} FilterTracks(h: History, a: nat, b: nat, i: nat, list: seq<AbortedRun>)
    requires Tiled(h) && WellFormed(h) && a <= i <= b <= |h| && Accompanies(h, a, b, list)
    ensures Tracked(h, a, i, list)
    decreases i
  {
    if i == a {
      FilterStarts(h, a, list);
      assert FilterAt(h, a, a, list) == NewFilter(true, Some(list));
    } else {
      FilterTracks(h, a, b, i - 1, list);
      TrackedNext(h, a, b, i - 1, list);
    }
  }

  /** The filter is exact. For every history with any interleaving of producers, every range
      of it a fetch may return, and every order of the aborted list, one pass over the range
      surfaces a batch if and only if it is data and not of an aborted transaction. */
  lemma FilterIsExact(h: History, a: nat, b: nat, i: nat, list: seq<AbortedRun>)
    requires Tiled(h) && WellFormed(h) && a <= i < b <= |h| && Accompanies(h, a, b, list)
    ensures Judge(FilterAt(h, a, i, list), Wire(h[i])).1 <==> Surfaces(h, i)
  {
    FilterTracks(h, a, b, i, list);
    var t :| Tracks(h, a, i, list, FilterAt(h, a, i, list), t);
    JudgeReads(FilterAt(h, a, i, list), h[i]);
    JudgedExactly(h, a, b, i, list, FilterAt(h, a, i, list), t);
  }
}
