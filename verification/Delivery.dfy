/** One idempotent producer delivering to one partition over a network that may lose,
    duplicate, delay and reorder requests and lose acknowledgements. */
module Delivery {
  import opened Wrappers
  import opened Records
  import opened Broker

  // ---- stamping and encoding ----------------------------------------------------------

  datatype Stamp = Stamp(producerId: int, producerEpoch: int, baseSequence: int, transactional: bool)

  /** Records of a batch, each at its position. */
  function Positioned(records: seq<Record>): seq<Record> {
    if records == [] then []
    else Positioned(records[..|records| - 1]) + [records[|records| - 1].(offsetDelta := |records| - 1)]
  }

  /** Compressed records from plain ones, for a producer configured to compress. */
  type Packing = Option<seq<Record> -> Bytes>

  /** One stamped batch, anchored at the time it is encoded; an empty one is never sent. */
  function Encode(records: seq<Record>, stamp: Stamp, now: int, packing: Packing): RecordBatch
    requires records != []
  {
    var body := if packing.None? then Plain(Positioned(records)) else Compressed(Clamp32(|records|), packing.value(Positioned(records)));
    RecordBatch(0, Clamp32(|records| - 1), now, stamp.producerId, stamp.producerEpoch, stamp.baseSequence,
                stamp.transactional, false, body)
  }

  // ---- client, network and broker -----------------------------------------------------

  /** What the producer sets out to deliver here: a list of record lists, each delivered as
      one batch, and a failed one tried again unchanged. */
  datatype Plan = Plan(producerId: int, epoch: int, transactional: bool, packing: Packing, lists: seq<seq<Record>>) {
    /** How many records come before the `k`-th list. */
    function SeqOf(k: nat): nat
      requires k <= |lists|
    {
      if k == 0 then 0 else SeqOf(k - 1) + |lists[k - 1]|
    }

    predicate Valid() {
      producerId >= 0 && forall k :: 0 <= k < |lists| ==> 0 < |lists[k]| <= I32_MAX
    }

    /** Every list begins before the 32-bit counter wraps. */
    predicate InRange() {
      forall k :: 0 <= k < |lists| ==> SeqOf(k) <= I32_MAX
    }

    /** The batch of the `k`-th list: it begins at the count of the records before it, in 32 bits. */
    function BatchOf(k: nat, now: int): RecordBatch
      requires k < |lists| && lists[k] != []
    {
      Encode(lists[k], Stamp(producerId, epoch, Wrap32(SeqOf(k)), transactional), now, packing)
    }
  }

  /** A produce request for the `k`-th list, as encoded at `now`. */
  datatype Message = Message(k: nat, now: int)

  /** `at` gives the offset of each stored batch, of which `since` were there when the session
      began; `current` is the list being delivered and
      `reserved` its base sequence once stamped; `next` is the producer's sequence counter;
      `acked` the offsets `deliver` has returned, list by list. */
  datatype Net = Net(
    log: PartitionLog,
    at: seq<int>,
    since: nat,
    current: nat,
    reserved: Option<int>,
    next: int,
    sent: set<Message>,
    replies: set<(Message, Answer)>,
    acked: seq<int>)

  datatype Event =
    | Reserve
    | Send(now: int)
    | Arrive(m: Message, txns: map<string, TxnState>, txnId: Option<string>)
    | Acknowledge(m: Message, offset: int)
    | GiveUp
    | Other(b: RecordBatch, txnId: Option<string>)
    | OtherEnds(pid: int, committed: bool)

  predicate Enabled(p: Plan, n: Net, e: Event)
    requires p.Valid()
  {
    match e
    // a stamp is reserved before the first attempt
    case Reserve => n.current < |p.lists| && n.reserved.None?
    // an attempt, first or repeated, puts a request on the wire
    case Send(now) => n.current < |p.lists| && n.reserved.Some?
    // any request ever sent reaches the broker, once more or for the first time
    case Arrive(m, _, _) => m in n.sent && m.k < |p.lists|
    // a successful answer to a request for the list now being delivered
    case Acknowledge(m, offset) => n.reserved.Some? && m.k == n.current && (m, Answer(NONE, offset)) in n.replies
    // attempts run out, or a fatal error: the sequence is handed back
    case GiveUp => n.reserved.Some?
    // other producers write here, and finish their transactions
    case Other(b, _) => b.producerId != p.producerId && b.Span() > 0
    case OtherEnds(pid, _) => true
  }

  function Arrived(p: Plan, n: Net, m: Message, txns: map<string, TxnState>, txnId: Option<string>): Net
    requires p.Valid() && m.k < |p.lists|
  {
    var b := p.BatchOf(m.k, m.now);
    var ruling := Rule(txns, n.log, txnId, [b]);
    var n' := n.(replies := n.replies + {(m, AnswerTo(ruling))});
    if ruling.Accepted? then n'.(log := Appended(n.log, txnId, [b]), at := n.at + [n.log.nextOffset]) else n'
  }

  function Next(p: Plan, n: Net, e: Event): Net
    requires p.Valid() && Enabled(p, n, e)
  {
    match e
    case Reserve => n.(reserved := Some(n.next), next := Wrap32(n.next + Clamp32(|p.lists[n.current]|)))
    case Send(now) => n.(sent := n.sent + {Message(n.current, now)})
    case Arrive(m, txns, txnId) => Arrived(p, n, m, txns, txnId)
    case Acknowledge(m, offset) => n.(current := n.current + 1, reserved := None, acked := n.acked + [offset])
    case GiveUp => n.(reserved := None, next := n.reserved.value)
    case Other(b, txnId) => n.(log := Appended(n.log, txnId, [b]), at := n.at + [n.log.nextOffset])
    case OtherEnds(pid, committed) => n.(log := Ended(n.log, pid, committed))
  }

  /** Nothing sent in this session; the partition may hold anything, the producer's own batches of
      earlier sessions included. */
  predicate Start(p: Plan, n: Net) {
    && n.current == 0 && n.reserved.None? && n.next == 0 && n.sent == {} && n.replies == {} && n.acked == []
    && |n.at| == |n.log.stored| == n.since
  }

  /** The broker takes the producer's sequence 0 for what is due: it knows no batch of it, or one
      that ended just short of 0. */
  predicate Welcomes(log: PartitionLog, pid: int) {
    pid in log.lastBatch ==> log.lastBatch[pid].nextSequence == 0 && log.lastBatch[pid].baseSequence != 0
  }

  /** It takes it for the batch it had last. */
  predicate TakesForRepeat(log: PartitionLog, pid: int) {
    pid in log.lastBatch && log.lastBatch[pid].baseSequence == 0
  }

  function Play(p: Plan, n: Net, es: seq<Event>): Option<Net>
    requires p.Valid()
  {
    if es == [] then Some(n)
    else
      var before := Play(p, n, es[..|es| - 1]);
      if before.None? || !Enabled(p, before.value, es[|es| - 1]) then None
      else Some(Next(p, before.value, es[|es| - 1]))
  }

  // ---- the invariant ------------------------------------------------------------------

  /** The positions in the log, from `since` on, of this producer's batches. */
  function Mine(stored: seq<RecordBatch>, pid: int, since: nat): seq<nat> {
    if |stored| <= since then []
    else
      var i := |stored| - 1;
      Mine(stored[..i], pid, since) + if stored[i].producerId == pid then [i] else []
  }

  lemma {:induction false} MineAreMine(stored: seq<RecordBatch>, pid: int, since: nat)
    ensures forall j :: 0 <= j < |Mine(stored, pid, since)| ==>
      since <= Mine(stored, pid, since)[j] < |stored| && stored[Mine(stored, pid, since)[j]].producerId == pid
    ensures forall i :: since <= i < |stored| && stored[i].producerId == pid ==>
      exists j :: 0 <= j < |Mine(stored, pid, since)| && Mine(stored, pid, since)[j] == i
  {
    if |stored| > since {
      var last := |stored| - 1;
      MineAreMine(stored[..last], pid, since);
      forall i | since <= i < |stored| && stored[i].producerId == pid
        ensures exists j :: 0 <= j < |Mine(stored, pid, since)| && Mine(stored, pid, since)[j] == i
      {
        if i < last {
          assert stored[..last][i] == stored[i];
          var j :| 0 <= j < |Mine(stored[..last], pid, since)| && Mine(stored[..last], pid, since)[j] == i;
          assert Mine(stored, pid, since)[j] == i;
        } else {
          assert Mine(stored, pid, since)[|Mine(stored, pid, since)| - 1] == i;
        }
      }
    }
  }

  /** The `j`-th of this producer's batches in the log is its `j`-th list, sent in some attempt. */
  predicate IsCopy(p: Plan, b: RecordBatch, k: nat)
    requires p.Valid()
  {
    k < |p.lists| && b == p.BatchOf(k, b.baseTimestamp)
  }

  /** `mine` are the places of the first lists, in order. */
  predicate AreCopies(p: Plan, stored: seq<RecordBatch>, mine: seq<nat>)
    requires p.Valid()
  {
    forall j :: 0 <= j < |mine| ==> mine[j] < |stored| && IsCopy(p, stored[mine[j]], j)
  }

  lemma OneMoreCopy(p: Plan, stored: seq<RecordBatch>, mine: seq<nat>, b: RecordBatch)
    requires p.Valid() && AreCopies(p, stored, mine)
    ensures AreCopies(p, stored + [b], mine)
    ensures IsCopy(p, b, |mine|) ==> AreCopies(p, stored + [b], mine + [|stored|])
  {
  }

  /** `current` lists have been acknowledged; the log holds them, and perhaps the next one. */
  ghost predicate LogInv(p: Plan, log: PartitionLog, at: seq<int>, since: nat, current: nat)
    requires p.Valid()
  {
    var mine := Mine(log.stored, p.producerId, since);
    && since <= |at| == |log.stored|
    && current <= |mine| <= current + 1 && |mine| <= |p.lists|
    && AreCopies(p, log.stored, mine)
    && (if mine == [] then Welcomes(log, p.producerId)
        else
          && p.producerId in log.lastBatch
          && log.lastBatch[p.producerId] == LastBatch(p.SeqOf(|mine| - 1), Wrap32(p.SeqOf(|mine|)), at[mine[|mine| - 1]]))
  }

  ghost predicate ClientInv(p: Plan, current: nat, reserved: Option<int>, next: int, sent: set<Message>)
    requires p.Valid()
  {
    && current <= |p.lists|
    && (reserved.Some? ==>
          current < |p.lists| && reserved.value == Wrap32(p.SeqOf(current)) && next == Wrap32(p.SeqOf(current + 1)))
    && (reserved.None? ==> next == Wrap32(p.SeqOf(current)))
    && (forall m :: m in sent ==> m.k <= current && m.k < |p.lists|)
  }

  /** Success is only ever answered with the offset of the list asked about. */
  ghost predicate AckInv(mine: seq<nat>, at: seq<int>, current: nat, replies: set<(Message, Answer)>, acked: seq<int>) {
    && (forall j :: 0 <= j < |mine| ==> mine[j] < |at|)
    && (forall m, a :: (m, a) in replies && a.error == NONE ==> m.k < |mine| && a.baseOffset == at[mine[m.k]])
    && |acked| == current && current <= |mine|
    && (forall j :: 0 <= j < current ==> acked[j] == at[mine[j]])
  }

  ghost predicate Inv(p: Plan, n: Net)
    requires p.Valid()
  {
    && LogInv(p, n.log, n.at, n.since, n.current)
    && ClientInv(p, n.current, n.reserved, n.next, n.sent)
    && AckInv(Mine(n.log.stored, p.producerId, n.since), n.at, n.current, n.replies, n.acked)
  }

  // ---- every event keeps it -----------------------------------------------------------

  lemma {:induction false} SeqGrows(p: Plan, i: nat, j: nat)
    requires p.Valid() && i <= j <= |p.lists|
    ensures p.SeqOf(i) + (j - i) <= p.SeqOf(j)
    decreases j
  {
    if i < j {
      SeqGrows(p, i, j - 1);
      assert p.lists[j - 1] != [];
    }
  }

  lemma WrapAdds(n: int, k: int)
    ensures Wrap32(Wrap32(n) + k) == Wrap32(n + k)
  {
  }

  /** Reserving for a list moves the counter to where the next one begins. */
  lemma SeqStep(p: Plan, k: nat)
    requires p.Valid() && k < |p.lists|
    ensures Clamp32(|p.lists[k]|) == |p.lists[k]| > 0 && p.SeqOf(k + 1) == p.SeqOf(k) + |p.lists[k]|
    ensures Wrap32(Wrap32(p.SeqOf(k)) + Clamp32(|p.lists[k]|)) == Wrap32(p.SeqOf(k + 1))
  {
    WrapAdds(p.SeqOf(k), |p.lists[k]|);
  }

  lemma MineSnoc(stored: seq<RecordBatch>, b: RecordBatch, pid: int, since: nat)
    requires since <= |stored|
    ensures Mine(stored + [b], pid, since) == Mine(stored, pid, since) + if b.producerId == pid then [|stored|] else []
  {
    assert (stored + [b])[..|stored|] == stored;
  }

  /** What the broker rules on the `k`-th list is decided by how many lists it has taken. */
  lemma RulingOf(p: Plan, n: Net, m: Message, txns: map<string, TxnState>, txnId: Option<string>)
    requires p.Valid() && p.InRange() && LogInv(p, n.log, n.at, n.since, n.current) && m.k <= n.current && m.k < |p.lists|
    ensures var mine := Mine(n.log.stored, p.producerId, n.since);
            match Rule(txns, n.log, txnId, [p.BatchOf(m.k, m.now)])
            case Refused(_) => true
            case Repeated(offset) => m.k == |mine| - 1 && offset == n.at[mine[m.k]]
            case Accepted(offset) => m.k == |mine| && offset == n.log.nextOffset
  {
    SequenceTells(p, m.k, |Mine(n.log.stored, p.producerId, n.since)|);
  }

  /** Sequences tell lists apart: the last list taken, the one due, and older ones. */
  lemma SequenceTells(p: Plan, k: nat, taken: nat)
    requires p.Valid() && p.InRange() && k <= taken <= |p.lists| && k < |p.lists|
    ensures Wrap32(p.SeqOf(k)) == p.SeqOf(k)
    ensures k < taken ==> p.SeqOf(k) != Wrap32(p.SeqOf(taken))
    ensures k == taken > 0 ==> p.SeqOf(k) == Wrap32(p.SeqOf(taken)) && p.SeqOf(k) != p.SeqOf(taken - 1)
    ensures k + 1 < taken ==> p.SeqOf(k) != p.SeqOf(taken - 1)
  {
    SeqGrows(p, k, taken);
    if taken > 0 {
      SeqStep(p, taken - 1);
      assert p.SeqOf(taken - 1) <= I32_MAX;
      if k < taken {
        SeqGrows(p, k, taken - 1);
      }
    }
  }

  lemma AppendedOwn(p: Plan, log: PartitionLog, k: nat, now: int, txnId: Option<string>)
    requires p.Valid() && k < |p.lists| && p.SeqOf(k) <= I32_MAX
    ensures var b := p.BatchOf(k, now);
            var log' := Appended(log, txnId, [b]);
            && log'.stored == log.stored + [b] && b.producerId == p.producerId
            && b == p.BatchOf(k, b.baseTimestamp)
            && p.producerId in log'.lastBatch
            && log'.lastBatch[p.producerId] == LastBatch(p.SeqOf(k), Wrap32(p.SeqOf(k + 1)), log.nextOffset)
  {
    SeqStep(p, k);
    var b := p.BatchOf(k, now);
    assert SpanOf([b]) == |p.lists[k]| by {
      assert [b][..0] == [];
    }
  }

  lemma AcceptKeepsLog(p: Plan, n: Net, m: Message, txnId: Option<string>)
    requires p.Valid() && p.InRange() && LogInv(p, n.log, n.at, n.since, n.current)
    requires m.k == |Mine(n.log.stored, p.producerId, n.since)| && m.k <= n.current && m.k < |p.lists|
    ensures LogInv(p, Appended(n.log, txnId, [p.BatchOf(m.k, m.now)]), n.at + [n.log.nextOffset], n.since, n.current)
  {
    AppendedOwn(p, n.log, m.k, m.now, txnId);
    MineSnoc(n.log.stored, p.BatchOf(m.k, m.now), p.producerId, n.since);
    OneMoreCopy(p, n.log.stored, Mine(n.log.stored, p.producerId, n.since), p.BatchOf(m.k, m.now));
  }

  lemma AnsweredMore(mine: seq<nat>, at: seq<int>, current: nat, replies: set<(Message, Answer)>, acked: seq<int>, m: Message, a: Answer)
    requires AckInv(mine, at, current, replies, acked)
    requires a.error == NONE ==> m.k < |mine| && a.baseOffset == at[mine[m.k]]
    ensures AckInv(mine, at, current, replies + {(m, a)}, acked)
  {
  }

  lemma StoredMore(mine: seq<nat>, at: seq<int>, current: nat, replies: set<(Message, Answer)>, acked: seq<int>, offset: int)
    requires AckInv(mine, at, current, replies, acked)
    ensures AckInv(mine + [|at|], at + [offset], current, replies, acked)
  {
  }

  lemma AcceptInv(p: Plan, n: Net, m: Message, txnId: Option<string>)
    requires p.Valid() && p.InRange() && Inv(p, n) && m in n.sent
    requires m.k == |Mine(n.log.stored, p.producerId, n.since)|
    ensures Inv(p, n.(replies := n.replies + {(m, Answer(NONE, n.log.nextOffset))},
                      log := Appended(n.log, txnId, [p.BatchOf(m.k, m.now)]),
                      at := n.at + [n.log.nextOffset]))
  {
    var mine := Mine(n.log.stored, p.producerId, n.since);
    AcceptKeepsLog(p, n, m, txnId);
    MineSnoc(n.log.stored, p.BatchOf(m.k, m.now), p.producerId, n.since);
    StoredMore(mine, n.at, n.current, n.replies, n.acked, n.log.nextOffset);
    AnsweredMore(mine + [|n.at|], n.at + [n.log.nextOffset], n.current, n.replies, n.acked, m, Answer(NONE, n.log.nextOffset));
  }

  lemma ArriveInv(p: Plan, n: Net, m: Message, txns: map<string, TxnState>, txnId: Option<string>)
    requires p.Valid() && p.InRange() && Inv(p, n) && m in n.sent
    ensures Inv(p, Arrived(p, n, m, txns, txnId))
  {
    var ruling := Rule(txns, n.log, txnId, [p.BatchOf(m.k, m.now)]);
    RulingOf(p, n, m, txns, txnId);
    if ruling.Accepted? {
      AcceptInv(p, n, m, txnId);
    } else {
      AnsweredMore(Mine(n.log.stored, p.producerId, n.since), n.at, n.current, n.replies, n.acked, m, AnswerTo(ruling));
    }
  }

  lemma OtherInv(p: Plan, n: Net, b: RecordBatch, txnId: Option<string>)
    requires p.Valid() && Inv(p, n) && b.producerId != p.producerId
    ensures Inv(p, n.(log := Appended(n.log, txnId, [b]), at := n.at + [n.log.nextOffset]))
  {
    MineSnoc(n.log.stored, b, p.producerId, n.since);
    OneMoreCopy(p, n.log.stored, Mine(n.log.stored, p.producerId, n.since), b);
  }

  lemma StartInv(p: Plan, n: Net)
    requires p.Valid() && Start(p, n) && Welcomes(n.log, p.producerId)
    ensures Inv(p, n)
  {
  }

  lemma ReserveInv(p: Plan, n: Net)
    requires p.Valid() && Inv(p, n) && Enabled(p, n, Reserve)
    ensures Inv(p, Next(p, n, Reserve))
  {
    SeqStep(p, n.current);
  }

  lemma SendInv(p: Plan, n: Net, now: int)
    requires p.Valid() && Inv(p, n) && Enabled(p, n, Send(now))
    ensures Inv(p, Next(p, n, Send(now)))
  {
  }

  lemma GiveUpInv(p: Plan, n: Net)
    requires p.Valid() && Inv(p, n) && Enabled(p, n, GiveUp)
    ensures Inv(p, Next(p, n, GiveUp))
  {
  }

  /** What the invariant reads of a log: its batches and what it remembers of each producer. */
  lemma SameLogInv(p: Plan, log: PartitionLog, log': PartitionLog, at: seq<int>, since: nat, current: nat)
    requires p.Valid() && LogInv(p, log, at, since, current)
    requires log'.stored == log.stored && log'.lastBatch == log.lastBatch
    ensures LogInv(p, log', at, since, current)
  {
  }

  lemma OtherEndsInv(p: Plan, n: Net, pid: int, committed: bool)
    requires p.Valid() && Inv(p, n)
    ensures Inv(p, n.(log := Ended(n.log, pid, committed)))
  {
    var log := Ended(n.log, pid, committed);
    SameLogInv(p, n.log, log, n.at, n.since, n.current);
  }

  lemma AcknowledgeInv(p: Plan, n: Net, m: Message, offset: int)
    requires p.Valid() && Inv(p, n) && Enabled(p, n, Acknowledge(m, offset))
    ensures Inv(p, Next(p, n, Acknowledge(m, offset)))
  {
    var t := Next(p, n, Acknowledge(m, offset));
    AcknowledgedMore(Mine(n.log.stored, p.producerId, n.since), n.at, n.current, n.replies, n.acked, m, offset);
    assert LogInv(p, t.log, t.at, t.since, t.current);
    assert ClientInv(p, t.current, t.reserved, t.next, t.sent);
  }

  lemma AcknowledgedMore(mine: seq<nat>, at: seq<int>, current: nat, replies: set<(Message, Answer)>, acked: seq<int>, m: Message, offset: int)
    requires AckInv(mine, at, current, replies, acked)
    requires m.k == current && (m, Answer(NONE, offset)) in replies
    ensures current < |mine| && AckInv(mine, at, current + 1, replies, acked + [offset])
  {
  }

  lemma NextInv(p: Plan, n: Net, e: Event)
    requires p.Valid() && p.InRange() && Inv(p, n) && Enabled(p, n, e)
    ensures Inv(p, Next(p, n, e))
  {
    match e
    case Reserve => ReserveInv(p, n);
    case Send(now) => SendInv(p, n, now);
    case Arrive(m, txns, txnId) => ArriveInv(p, n, m, txns, txnId);
    case Acknowledge(m, offset) => AcknowledgeInv(p, n, m, offset);
    case GiveUp => GiveUpInv(p, n);
    case Other(b, txnId) => OtherInv(p, n, b, txnId);
    case OtherEnds(pid, committed) => OtherEndsInv(p, n, pid, committed);
  }

  lemma {:induction false} PlayInv(p: Plan, n: Net, es: seq<Event>)
    requires p.Valid() && p.InRange() && Start(p, n) && Welcomes(n.log, p.producerId) && Play(p, n, es).Some?
    ensures Inv(p, Play(p, n, es).value) && Play(p, n, es).value.since == n.since
  {
    if es == [] {
      StartInv(p, n);
    } else {
      PlayInv(p, n, es[..|es| - 1]);
      NextInv(p, Play(p, n, es[..|es| - 1]).value, es[|es| - 1]);
    }
  }

  // ---- exactly once -------------------------------------------------------------------

  /** The log holds the `k`-th list, delivered in this session, at stored position `i`. */
  predicate HeldAt(p: Plan, n: Net, k: nat, i: int)
    requires p.Valid()
  {
    n.since <= i < |n.log.stored| && n.log.stored[i].producerId == p.producerId && IsCopy(p, n.log.stored[i], k)
  }

  lemma DistinctLists(p: Plan, b: RecordBatch, j: nat, k: nat)
    requires p.Valid() && p.InRange() && IsCopy(p, b, j) && IsCopy(p, b, k)
    ensures j == k
  {
    if j < k {
      SeqGrows(p, j, k);
    } else if k < j {
      SeqGrows(p, k, j);
    }
  }

  lemma {:induction false} MineBelow(stored: seq<RecordBatch>, pid: int, since: nat)
    ensures forall j :: 0 <= j < |Mine(stored, pid, since)| ==> Mine(stored, pid, since)[j] < |stored|
  {
    if |stored| > since {
      MineBelow(stored[..|stored| - 1], pid, since);
    }
  }

  lemma {:induction false} MineAscend(stored: seq<RecordBatch>, pid: int, since: nat)
    ensures forall i, j :: 0 <= i < j < |Mine(stored, pid, since)| ==> Mine(stored, pid, since)[i] < Mine(stored, pid, since)[j]
  {
    if |stored| > since {
      var mine, before := Mine(stored, pid, since), Mine(stored[..|stored| - 1], pid, since);
      MineAscend(stored[..|stored| - 1], pid, since);
      MineBelow(stored[..|stored| - 1], pid, since);
      assert mine == before || mine == before + [|stored| - 1];
      forall i, j | 0 <= i < j < |mine| ensures mine[i] < mine[j] {
        assert mine[i] == before[i] < |stored| - 1;
        if j < |before| {
          assert mine[j] == before[j];
        }
      }
    }
  }

  /** Whatever the network does, the partition holds this session's lists in order, each at
      most once, and nothing else this session sent. */
  lemma LogIsTheListsInOrder(p: Plan, n: Net, es: seq<Event>)
    requires p.Valid() && p.InRange() && Start(p, n) && Welcomes(n.log, p.producerId) && Play(p, n, es).Some?
    ensures var n' := Play(p, n, es).value;
            var mine := Mine(n'.log.stored, p.producerId, n.since);
            && (forall j :: 0 <= j < |mine| ==> HeldAt(p, n', j, mine[j]))
            && (forall i :: n.since <= i < |n'.log.stored| && n'.log.stored[i].producerId == p.producerId ==> i in mine)
            && (forall i, j :: 0 <= i < j < |mine| ==> mine[i] < mine[j])
            && |n'.acked| <= |mine| <= |n'.acked| + 1
  {
    PlayInv(p, n, es);
    var n' := Play(p, n, es).value;
    MineAreMine(n'.log.stored, p.producerId, n.since);
    MineAscend(n'.log.stored, p.producerId, n.since);
  }

  /** A `deliver` that returned an offset has its list in the log at that offset, and nowhere
      else; and the producer's sequence counter is the number of records acknowledged, or is
      reserved from there. */
  lemma AcknowledgedExactlyOnce(p: Plan, n: Net, es: seq<Event>, k: nat) returns (i: int)
    requires p.Valid() && p.InRange() && Start(p, n) && Welcomes(n.log, p.producerId) && Play(p, n, es).Some?
    requires k < |Play(p, n, es).value.acked|
    ensures var n' := Play(p, n, es).value;
            && HeldAt(p, n', k, i) && i < |n'.at| && n'.at[i] == n'.acked[k]
            && (forall i' :: HeldAt(p, n', k, i') ==> i' == i)
            && |n'.acked| <= |p.lists|
            && (if n'.reserved.Some? then n'.reserved.value else n'.next) == Wrap32(p.SeqOf(|n'.acked|))
  {
    PlayInv(p, n, es);
    i := HeldOnce(p, Play(p, n, es).value, k);
  }

  lemma HeldOnce(p: Plan, n: Net, k: nat) returns (i: int)
    requires p.Valid() && p.InRange() && LogInv(p, n.log, n.at, n.since, n.current)
    requires k < |Mine(n.log.stored, p.producerId, n.since)|
    ensures HeldAt(p, n, k, i) && forall i' :: HeldAt(p, n, k, i') ==> i' == i
    ensures i == Mine(n.log.stored, p.producerId, n.since)[k]
  {
    var mine := Mine(n.log.stored, p.producerId, n.since);
    MineAreMine(n.log.stored, p.producerId, n.since);
    i := mine[k];
    forall i' | HeldAt(p, n, k, i') ensures i' == i {
      var j :| 0 <= j < |mine| && mine[j] == i';
      DistinctLists(p, n.log.stored[i'], j, k);
    }
  }

  // ---- when exactly -------------------------------------------------------------------

  /** Every list acknowledged is in the log once since the session began, where it was said to be. */
  ghost predicate ExactlyOnce(p: Plan, n: Net)
    requires p.Valid()
  {
    forall k: nat :: k < |n.acked| ==> IsHeldOnce(p, n, k, n.acked[k])
  }

  ghost predicate IsHeldOnce(p: Plan, n: Net, k: nat, offset: int)
    requires p.Valid()
  {
    exists i :: HeldAt(p, n, k, i) && i < |n.at| && n.at[i] == offset && forall i' :: HeldAt(p, n, k, i') ==> i' == i
  }

  /** The first list of a session is not welcome, and not taken for a repeat either. */
  predicate IsGap(log: PartitionLog, pid: int) {
    pid in log.lastBatch && log.lastBatch[pid].baseSequence != 0 && log.lastBatch[pid].nextSequence != 0
  }

  lemma PlaySnoc(p: Plan, n: Net, es: seq<Event>, e: Event)
    requires p.Valid() && Play(p, n, es).Some? && Enabled(p, Play(p, n, es).value, e)
    ensures Play(p, n, es + [e]) == Some(Next(p, Play(p, n, es).value, e))
  {
    assert (es + [e])[..|es + [e]| - 1] == es;
  }

  /** A session that begins with a gap never gets anything in, nor anything acknowledged. */
  lemma {:induction false} GapIsForever(p: Plan, n: Net, es: seq<Event>)
    requires p.Valid() && Start(p, n) && IsGap(n.log, p.producerId) && Play(p, n, es).Some?
    ensures var n' := Play(p, n, es).value;
            && n'.acked == [] && n'.current == 0 && IsGap(n'.log, p.producerId)
            && (forall m :: m in n'.sent ==> m.k == 0)
            && forall m, a :: (m, a) in n'.replies ==> a.error != NONE
  {
    if es != [] {
      GapIsForever(p, n, es[..|es| - 1]);
    }
  }

  /** A session whose first batch is taken for a repeat has it acknowledged and not stored. */
  lemma RepeatIsNeverStored(p: Plan, n: Net) returns (es: seq<Event>)
    requires p.Valid() && Start(p, n) && TakesForRepeat(n.log, p.producerId) && p.lists != []
    ensures Play(p, n, es).Some? && !ExactlyOnce(p, Play(p, n, es).value)
    ensures Play(p, n, es).value.log == n.log && Play(p, n, es).value.acked == [n.log.lastBatch[p.producerId].baseOffset]
  {
    var m := Message(0, 0);
    var offset := n.log.lastBatch[p.producerId].baseOffset;
    assert Play(p, n, []) == Some(n);
    PlaySnoc(p, n, [], Reserve);
    PlaySnoc(p, n, [] + [Reserve], Send(0));
    var sent := [] + [Reserve] + [Send(0)];
    assert Rule(map[], n.log, None, [p.BatchOf(0, 0)]) == Repeated(offset);
    PlaySnoc(p, n, sent, Arrive(m, map[], None));
    PlaySnoc(p, n, sent + [Arrive(m, map[], None)], Acknowledge(m, offset));
    es := sent + [Arrive(m, map[], None)] + [Acknowledge(m, offset)];
    var u := Play(p, n, es).value;
    assert |u.acked| == 1 && u.acked[0] == offset && u.since == |u.log.stored|;
    assert !IsHeldOnce(p, u, 0, u.acked[0]);
  }

  /** After `j` lists delivered one by one without a fault. */
  ghost predicate Smooth(p: Plan, n: Net, j: nat)
    requires p.Valid()
  {
    && j <= |p.lists| && n.current == j == |n.acked| && n.reserved.None? && n.next == Wrap32(p.SeqOf(j))
    && n.since <= |n.log.stored| == |n.at|
    && (if j == 0 then Welcomes(n.log, p.producerId)
        else
          && p.producerId in n.log.lastBatch
          && n.log.lastBatch[p.producerId].baseSequence == p.SeqOf(j - 1)
          && n.log.lastBatch[p.producerId].nextSequence == Wrap32(p.SeqOf(j)))
  }

  lemma Attempted(p: Plan, n: Net, es: seq<Event>, j: nat) returns (es': seq<Event>)
    requires p.Valid() && Play(p, n, es).Some? && Smooth(p, Play(p, n, es).value, j) && j < |p.lists|
    ensures Play(p, n, es').Some?
    ensures var s, t := Play(p, n, es).value, Play(p, n, es').value;
            t == s.(reserved := Some(s.next), next := Wrap32(p.SeqOf(j + 1)), sent := s.sent + {Message(j, 0)})
  {
    SeqStep(p, j);
    PlaySnoc(p, n, es, Reserve);
    PlaySnoc(p, n, es + [Reserve], Send(0));
    es' := es + [Reserve] + [Send(0)];
  }

  lemma SmoothNext(p: Plan, n: Net, es: seq<Event>, j: nat) returns (es': seq<Event>)
    requires p.Valid() && Play(p, n, es).Some? && Smooth(p, Play(p, n, es).value, j) && j < |p.lists| && p.SeqOf(j) <= I32_MAX
    ensures Play(p, n, es').Some? && Smooth(p, Play(p, n, es').value, j + 1)
  {
    var m := Message(j, 0);
    es' := Attempted(p, n, es, j);
    var t := Play(p, n, es').value;
    if j > 0 {
      SeqStep(p, j - 1);
    }
    assert Rule(map[], t.log, None, [p.BatchOf(j, 0)]) == Accepted(t.log.nextOffset);
    AppendedOwn(p, t.log, j, 0, None);
    PlaySnoc(p, n, es', Arrive(m, map[], None));
    es' := es' + [Arrive(m, map[], None)];
    PlaySnoc(p, n, es', Acknowledge(m, t.log.nextOffset));
    es' := es' + [Acknowledge(m, t.log.nextOffset)];
  }

  lemma {:induction false} SmoothRun(p: Plan, n: Net, j: nat) returns (es: seq<Event>)
    requires p.Valid() && Start(p, n) && Welcomes(n.log, p.producerId) && j <= |p.lists|
    requires forall k :: 0 <= k < j ==> p.SeqOf(k) <= I32_MAX
    ensures Play(p, n, es).Some? && Smooth(p, Play(p, n, es).value, j)
    decreases j
  {
    if j == 0 {
      es := [];
    } else {
      es := SmoothRun(p, n, j - 1);
      es := SmoothNext(p, n, es, j - 1);
    }
  }

  lemma NegativeIsAccepted(log: PartitionLog, b: RecordBatch)
    requires b.baseSequence < 0
    ensures Rule(map[], log, None, [b]) == Accepted(log.nextOffset)
    ensures Appended(log, None, [b]).stored == log.stored + [b]
  {
    assert !Stamped([b]);
  }

  /** A list whose sequence is negative is stored by every copy of it that arrives. */
  lemma NegativeIsStored(p: Plan, n: Net, es: seq<Event>, m: Message, s: Net, b: RecordBatch)
    requires p.Valid() && Play(p, n, es) == Some(s) && m in s.sent && m.k < |p.lists|
    requires b == p.BatchOf(m.k, m.now) && b.baseSequence < 0
    ensures var log := Appended(s.log, None, [b]);
            Play(p, n, es + [Arrive(m, map[], None)])
            == Some(s.(log := log, at := s.at + [s.log.nextOffset], replies := s.replies + {(m, Answer(NONE, s.log.nextOffset))}))
  {
    PlaySnoc(p, n, es, Arrive(m, map[], None));
    NegativeIsAccepted(s.log, b);
  }

  /** Two copies of such a list arrive, one behind the other. */
  lemma StoredTwice(p: Plan, n: Net, es: seq<Event>, m: Message, t: Net) returns (es': seq<Event>)
    requires p.Valid() && Play(p, n, es) == Some(t) && m in t.sent && m.k < |p.lists| && p.BatchOf(m.k, m.now).baseSequence < 0
    ensures Play(p, n, es').Some?
    ensures var s, b := Play(p, n, es').value, p.BatchOf(m.k, m.now);
            && s.log.stored == t.log.stored + [b] + [b] && (m, Answer(NONE, t.log.nextOffset)) in s.replies
            && s.current == t.current && s.reserved == t.reserved && s.acked == t.acked && s.since == t.since
  {
    var b := p.BatchOf(m.k, m.now);
    NegativeIsStored(p, n, es, m, t, b);
    NegativeIsAccepted(t.log, b);
    var once := es + [Arrive(m, map[], None)];
    var s := Play(p, n, once).value;
    NegativeIsStored(p, n, once, m, s, b);
    NegativeIsAccepted(s.log, b);
    es' := once + [Arrive(m, map[], None)];
  }

  /** A list that begins past the wrap carries a negative sequence: no copy of it is recognized,
      and every one that arrives is stored. */
  lemma WrappedIsStoredTwice(p: Plan, n: Net, k: nat) returns (es: seq<Event>)
    requires p.Valid() && Start(p, n) && Welcomes(n.log, p.producerId) && k < |p.lists|
    requires I32_MAX < p.SeqOf(k) && forall j :: 0 <= j < k ==> p.SeqOf(j) <= I32_MAX
    ensures Play(p, n, es).Some? && !ExactlyOnce(p, Play(p, n, es).value)
  {
    var m := Message(k, 0);
    NegativeBatch(p, k);
    es := SmoothRun(p, n, k);
    es := Attempted(p, n, es, k);
    var t := Play(p, n, es).value;
    es := StoredTwice(p, n, es, m, t);
    var s := Play(p, n, es).value;
    PlaySnoc(p, n, es, Acknowledge(m, t.log.nextOffset));
    es := es + [Acknowledge(m, t.log.nextOffset)];
    HeldTwice(p, Play(p, n, es).value, k, |t.log.stored|);
  }

  lemma NegativeBatch(p: Plan, k: nat)
    requires p.Valid() && k < |p.lists| && I32_MAX < p.SeqOf(k) && forall j :: 0 <= j < k ==> p.SeqOf(j) <= I32_MAX
    ensures p.BatchOf(k, 0).baseSequence < 0
  {
    SeqStep(p, k - 1);
  }

  lemma HeldTwice(p: Plan, n: Net, k: nat, i: nat)
    requires p.Valid() && k < |n.acked| && HeldAt(p, n, k, i) && HeldAt(p, n, k, i + 1)
    ensures !ExactlyOnce(p, n)
  {
    assert !IsHeldOnce(p, n, k, n.acked[k]);
  }

  lemma FirstWrapped(p: Plan) returns (k: nat)
    requires p.Valid() && !p.InRange()
    ensures k < |p.lists| && I32_MAX < p.SeqOf(k) && forall j :: 0 <= j < k ==> p.SeqOf(j) <= I32_MAX
  {
    var some :| 0 <= some < |p.lists| && p.SeqOf(some) > I32_MAX;
    k := 0;
    while p.SeqOf(k) <= I32_MAX
      invariant k <= some && forall j :: 0 <= j < k ==> p.SeqOf(j) <= I32_MAX
      decreases some - k
    {
      k := k + 1;
    }
  }

  lemma PlayIsExactlyOnce(p: Plan, n: Net, es: seq<Event>)
    requires p.Valid() && Start(p, n) && Play(p, n, es).Some?
    requires IsGap(n.log, p.producerId) || (Welcomes(n.log, p.producerId) && p.InRange())
    ensures ExactlyOnce(p, Play(p, n, es).value)
  {
    if IsGap(n.log, p.producerId) {
      GapIsForever(p, n, es);
    } else {
      var n' := Play(p, n, es).value;
      forall k: nat | k < |n'.acked| ensures IsHeldOnce(p, n', k, n'.acked[k]) {
        var i := AcknowledgedExactlyOnce(p, n, es, k);
      }
    }
  }

  /** Delivery is exactly once under every schedule of the network if and only if the broker does
      not take the session's sequence 0 for a repeat, and, where it accepts it, no list begins
      past the wrap of the sequence. Where it sees a gap, nothing is delivered at all. */
  lemma ExactlyOnceIff(p: Plan, n: Net)
    requires p.Valid() && Start(p, n) && p.lists != []
    ensures (forall es :: Play(p, n, es).Some? ==> ExactlyOnce(p, Play(p, n, es).value)) <==>
            !TakesForRepeat(n.log, p.producerId) && (Welcomes(n.log, p.producerId) ==> p.InRange())
  {
    if TakesForRepeat(n.log, p.producerId) {
      var es := RepeatIsNeverStored(p, n);
    } else if Welcomes(n.log, p.producerId) && !p.InRange() {
      var k := FirstWrapped(p);
      var es := WrappedIsStoredTwice(p, n, k);
    } else {
      forall es | Play(p, n, es).Some? ensures ExactlyOnce(p, Play(p, n, es).value) {
        PlayIsExactlyOnce(p, n, es);
      }
    }
  }

  /** The counter of a producer that has delivered `count` records is negative for the second half
      of every 2^32. */
  lemma CounterIsNegativeIff(count: nat)
    ensures Wrap32(count) < 0 <==> count % 0x1_0000_0000 >= 0x8000_0000
  {
  }

  /** A batch that was accepted is recognized when it comes again if and only if its sequence is
      not negative; if it is, the batch is accepted again. */
  lemma RepeatIsRecognizedIff(txns: map<string, TxnState>, log: PartitionLog, txnId: Option<string>, b: RecordBatch)
    requires b.producerId >= 0 && Rule(txns, log, txnId, [b]).Accepted?
    ensures var again := Rule(txns, Appended(log, txnId, [b]), txnId, [b]);
            && (again == Repeated(log.nextOffset) <==> b.baseSequence >= 0)
            && (again.Accepted? <==> b.baseSequence < 0)
  {
  }

  // ---- why a failed list must be tried again unchanged --------------------------------

  /** A batch with the sequence of the producer's last one is answered as if it were that
      one, whatever it holds: the answer is success, and nothing is appended. */
  lemma MergedRetryIsLost()
    ensures var r1 := Record(0, 0, None, Some([1]), []);
            var r2 := Record(0, 0, None, Some([2]), []);
            var stamp := Stamp(7, 0, 0, false);
            var log := Appended(EMPTY_LOG, None, [Encode([r1], stamp, 0, None)]);
            var ruling := Rule(map[], log, None, [Encode([r1, r2], stamp, 1, None)]);
            && ruling == Repeated(0)
            && AnswerTo(ruling).error == NONE
            && |log.stored| == 1 && |log.stored[0].records.records| == 1
  {
    var r1 := Record(0, 0, None, Some([1]), []);
    var b := Encode([r1], Stamp(7, 0, 0, false), 0, None);
    assert SpanOf([b]) == 1 by {
      assert [b][..0] == [];
    }
    assert Positioned([r1]) == [r1.(offsetDelta := 0)] by {
      assert [r1][..0] == [];
    }
  }

  /** So a successful answer means the batch's own records, compressed or not, are in the log at
      the answered offset, if and only if the broker knew no batch of the producer at that
      sequence, or knew this one. */
  lemma SuccessMeansStoredIff(txns: map<string, TxnState>, log: PartitionLog, at: seq<int>, txnId: Option<string>, b: RecordBatch, last: nat)
    requires |at| == |log.stored| && Stamped([b])
    // `last` is where the producer's last batch is stored, if it has one
    requires b.producerId in log.lastBatch ==>
      && last < |log.stored| && log.lastBatch[b.producerId].baseOffset == at[last]
      && forall i :: 0 <= i < |at| && at[i] == at[last] ==> i == last
    requires AnswerTo(Rule(txns, log, txnId, [b])).error == NONE
    ensures var ruling := Rule(txns, log, txnId, [b]);
            var log' := if ruling.Accepted? then Appended(log, txnId, [b]) else log;
            var at' := if ruling.Accepted? then at + [log.nextOffset] else at;
            (exists i :: 0 <= i < |at'| && at'[i] == AnswerTo(ruling).baseOffset && log'.stored[i].records == b.records)
            <==> (b.producerId in log.lastBatch && b.baseSequence == log.lastBatch[b.producerId].baseSequence ==>
                    log.stored[last].records == b.records)
  {
    var ruling := Rule(txns, log, txnId, [b]);
    if ruling.Accepted? {
      var at' := at + [log.nextOffset];
      assert at'[|at|] == log.nextOffset && Appended(log, txnId, [b]).stored[|at|] == b;
    }
  }
}
