/** One pipelined connection, as interleaved steps: callers, who may be cancelled or time out at
    any suspension point, a reader, and a `fail_all` that is three steps and not one. Each request
    is named by its correlation id, which is never reused. */
module Connection {
  import opened Wrappers
  import opened Frame

  /** A response frame as the reader takes it off the socket. */
  datatype Incoming = Incoming(id: int, headerOk: bool, body: Bytes)

  datatype Reply = Response(frame: Incoming) | BadHeader | ConnectionClosed

  datatype Reason = WriteFailed | Cancelled | TimedOut

  datatype Outcome = Refused | Ended(why: Reason) | Replied(reply: Reply)

  /** How far an agent is through `fail_all`: mark closed, take the table, answer what it took. */
  datatype Failing = ToClose | ToTake | ToSend(taken: set<int>)

  /** Where a request is. `Breaking` is dropped mid-write with the writer still locked, `Leaving`
      about to drop its table entry, `Closing` timed out and failing the others. */
  datatype Phase =
    | Fresh
    | Checked
    | Registered
    | Writing(n: nat)
    | Awaiting
    | Breaking(n: nat, fail: Failing, why: Reason)
    | Leaving(why: Reason)
    | Closing(fail: Failing)
    | Done(outcome: Outcome)

  datatype Reader = Reading | Holding(frame: Incoming) | ReaderFailing(fail: Failing) | Stopped

  datatype Agent = TheReader | Caller(id: int)

  /** Who holds the only sender of a request's reply. */
  datatype Place = Nowhere | InTable | WithReader | WithFailer(agent: Agent) | Spent

  datatype Socket = Intact | Abandoned | Broken

  datatype Conn = Conn(
    closed: bool,
    table: set<int>,
    writer: Option<int>,
    reader: Reader,
    phases: map<int, Phase>,
    log: seq<(int, Reply)>,
    wire: Bytes,
    whole: seq<int>,
    socket: Socket,
    place: map<int, Place>)

  const FRESH := Conn(false, {}, None, Reading, map[], [], [], [], Intact, map[])

  datatype Action =
    | Check(id: int)
    | Register(id: int)
    | Lock(id: int)
    | Write(id: int, k: nat)
    | WriteError(id: int)
    | GiveUp(id: int, timedOut: bool)
    | Receive(id: int, i: nat)
    | Step(id: int, target: int)
    | Arrive(frame: Incoming)
    | ReadError
    | ReaderStep(target: int)

  function PhaseOf(phases: map<int, Phase>, id: int): Phase {
    if id in phases then phases[id] else Fresh
  }

  function PlaceOf(place: map<int, Place>, id: int): Place {
    if id in place then place[id] else Nowhere
  }

  predicate Finished(fail: Failing) {
    fail.ToSend? && fail.taken == {}
  }

  /** What an agent did not itself hold it takes over whole. */
  function Moved(place: map<int, Place>, table: set<int>, agent: Agent): map<int, Place> {
    map id | id in place :: if id in table then WithFailer(agent) else place[id]
  }

  /** One step of `fail_all`. */
  function FailStep(s: Conn, agent: Agent, fail: Failing, target: int): (Conn, Failing) {
    match fail
    case ToClose => (s.(closed := true), ToTake)
    case ToTake => (s.(table := {}, place := Moved(s.place, s.table, agent)), ToSend(s.table))
    case ToSend(taken) =>
      if target in taken then
        (s.(log := s.log + [(target, ConnectionClosed)], place := s.place[target := Spent]), ToSend(taken - {target}))
      else (s, fail)
  }

  function Drop(s: Conn, id: int): Conn {
    s.(table := s.table - {id}, place := if id in s.table then s.place[id := Spent] else s.place)
  }

  function SetPhase(s: Conn, id: int, p: Phase): Conn {
    s.(phases := s.phases[id := p])
  }

  /** One step of the connection. A step that is not enabled changes nothing. */
  function Do(payload: int -> Bytes, s: Conn, a: Action): Conn {
    match a
    case Check(id) =>
      if PhaseOf(s.phases, id).Fresh? then SetPhase(s, id, if s.closed then Done(Refused) else Checked) else s
    case Register(id) =>
      if PhaseOf(s.phases, id).Checked? then
        SetPhase(s.(table := s.table + {id}, place := s.place[id := InTable]), id, Registered)
      else s
    case Lock(id) =>
      if PhaseOf(s.phases, id).Registered? && s.writer.None? then SetPhase(s.(writer := Some(id)), id, Writing(0)) else s
    case Write(id, k) => DoWrite(payload, s, id, k)
    case WriteError(id) =>
      if PhaseOf(s.phases, id).Writing? then SetPhase(Unlock(s, PhaseOf(s.phases, id).n, Broken), id, Leaving(WriteFailed)) else s
    case GiveUp(id, timedOut) => DoGiveUp(s, id, if timedOut then TimedOut else Cancelled)
    case Receive(id, i) =>
      if PhaseOf(s.phases, id).Awaiting? && i < |s.log| && s.log[i].0 == id then SetPhase(s, id, Done(Replied(s.log[i].1))) else s
    case Step(id, target) => DoStep(s, id, target)
    case Arrive(frame) =>
      if !s.reader.Reading? then s
      else if frame.id in s.table then
        s.(table := s.table - {frame.id}, place := s.place[frame.id := WithReader], reader := Holding(frame))
      else s.(reader := ReaderFailing(ToClose))
    case ReadError => if s.reader.Reading? then s.(reader := ReaderFailing(ToClose)) else s
    case ReaderStep(target) => DoReaderStep(s, target)
  }

  /** The writer is released; a frame that was begun and not finished is left on the wire. */
  function Unlock(s: Conn, n: nat, how: Socket): Conn {
    s.(writer := None, socket := if n > 0 && s.socket.Intact? then how else s.socket)
  }

  function DoWrite(payload: int -> Bytes, s: Conn, id: int, k: nat): Conn {
    var p := PhaseOf(s.phases, id);
    var framed := Framed(payload(id));
    if !p.Writing? || p.n + k > |framed| then s
    else
      var t := s.(wire := s.wire + if p.n <= |framed| then framed[p.n..p.n + k] else []);
      if p.n + k < |framed| then SetPhase(t, id, Writing(p.n + k))
      else SetPhase(t.(writer := None, whole := t.whole + [id]), id, Awaiting)
  }

  /** A caller goes away, or runs out of time, at a suspension point. */
  function DoGiveUp(s: Conn, id: int, why: Reason): Conn {
    match PhaseOf(s.phases, id)
    case Registered => SetPhase(s, id, Leaving(why))
    case Awaiting => SetPhase(s, id, Leaving(why))
    case Writing(n) => SetPhase(s, id, Breaking(n, ToClose, why))
    case _ => s
  }

  /** The guards of a request that ended early, one step at a time. */
  function DoStep(s: Conn, id: int, target: int): Conn {
    match PhaseOf(s.phases, id)
    case Breaking(n, fail, why) =>
      if Finished(fail) then SetPhase(Unlock(s, n, Abandoned), id, Leaving(why))
      else
        var (t, next) := FailStep(s, Caller(id), fail, target);
        SetPhase(t, id, Breaking(n, next, why))
    case Leaving(why) => SetPhase(Drop(s, id), id, if why.TimedOut? then Closing(ToClose) else Done(Ended(why)))
    case Closing(fail) =>
      if Finished(fail) then SetPhase(s, id, Done(Ended(TimedOut)))
      else
        var (t, next) := FailStep(s, Caller(id), fail, target);
        SetPhase(t, id, Closing(next))
    case _ => s
  }

  function DoReaderStep(s: Conn, target: int): Conn {
    match s.reader
    case Holding(frame) =>
      s.(log := s.log + [(frame.id, if frame.headerOk then Response(frame) else BadHeader)],
         place := s.place[frame.id := Spent], reader := Reading)
    case ReaderFailing(fail) =>
      if Finished(fail) then s.(reader := Stopped)
      else
        var (t, next) := FailStep(s, TheReader, fail, target);
        t.(reader := ReaderFailing(next))
    case _ => s
  }

  function Run(payload: int -> Bytes, s: Conn, actions: seq<Action>): Conn {
    if actions == [] then s else Do(payload, Run(payload, s, actions[..|actions| - 1]), actions[|actions| - 1])
  }

  // ---- what every step keeps ----------------------------------------------------------

  predicate Live(p: Phase) {
    p.Registered? || p.Writing? || p.Awaiting? || p.Breaking? || p.Leaving?
  }

  predicate NotBegun(p: Phase) {
    p.Fresh? || p.Checked? || p == Done(Refused)
  }

  predicate HasLock(p: Phase) {
    p.Writing? || p.Breaking?
  }

  function TakenBy(phases: map<int, Phase>, reader: Reader, a: Agent): set<int> {
    match a
    case TheReader => if reader.ReaderFailing? && reader.fail.ToSend? then reader.fail.taken else {}
    case Caller(id) =>
      var p := PhaseOf(phases, id);
      if (p.Breaking? || p.Closing?) && p.fail.ToSend? then p.fail.taken else {}
  }

  /** The table is where the table's senders are. */
  ghost predicate Tabled(table: set<int>, place: map<int, Place>) {
    forall id :: id in table <==> PlaceOf(place, id) == InTable
  }

  ghost predicate Held(reader: Reader, place: map<int, Place>) {
    reader.Holding? ==> PlaceOf(place, reader.frame.id) == WithReader
  }

  ghost predicate Takers(phases: map<int, Phase>, reader: Reader, place: map<int, Place>) {
    forall a, id :: id in TakenBy(phases, reader, a) ==> PlaceOf(place, id) == WithFailer(a)
  }

  /** One reply at most, and a response only to the request it names. */
  ghost predicate Logged(log: seq<(int, Reply)>, place: map<int, Place>) {
    && (forall i :: 0 <= i < |log| ==> PlaceOf(place, log[i].0) == Spent)
    && (forall i, j :: 0 <= i < j < |log| ==> log[i].0 != log[j].0)
    && (forall i :: 0 <= i < |log| && log[i].1.Response? ==> log[i].1.frame.id == log[i].0)
  }

  ghost predicate Alive(phases: map<int, Phase>, place: map<int, Place>) {
    && (forall id :: PlaceOf(place, id) == InTable ==> Live(PhaseOf(phases, id)))
    && (forall id :: NotBegun(PhaseOf(phases, id)) ==> PlaceOf(place, id) == Nowhere)
  }

  ghost predicate Heard(phases: map<int, Phase>, log: seq<(int, Reply)>) {
    forall id :: PhaseOf(phases, id).Done? && PhaseOf(phases, id).outcome.Replied? ==>
      exists i :: 0 <= i < |log| && log[i] == (id, PhaseOf(phases, id).outcome.reply)
  }

  ghost predicate Locked(phases: map<int, Phase>, writer: Option<int>) {
    forall id :: writer == Some(id) <==> HasLock(PhaseOf(phases, id))
  }

  /** What the holder of the writer has put on the wire so far. */
  function Partial(payload: int -> Bytes, phases: map<int, Phase>, writer: Option<int>): Bytes {
    if writer.None? || !HasLock(PhaseOf(phases, writer.value)) then []
    else
      var framed := Framed(payload(writer.value));
      framed[..Min(PhaseOf(phases, writer.value).n, |framed|)]
  }

  function Payloads(payload: int -> Bytes, ids: seq<int>): seq<Bytes> {
    if ids == [] then [] else Payloads(payload, ids[..|ids| - 1]) + [payload(ids[|ids| - 1])]
  }

  /** While intact the wire carries whole frames and the one being written. */
  predicate Wired(payload: int -> Bytes, socket: Socket, wire: Bytes, whole: seq<int>, phases: map<int, Phase>, writer: Option<int>) {
    socket.Intact? ==> wire == Stream(Payloads(payload, whole)) + Partial(payload, phases, writer)
  }

  /** An abandoned frame has always closed the connection first. */
  ghost predicate Guarded(closed: bool, socket: Socket, phases: map<int, Phase>) {
    && (socket.Abandoned? ==> closed)
    && (forall id :: PhaseOf(phases, id).Breaking? && !PhaseOf(phases, id).fail.ToClose? ==> closed)
  }

  ghost predicate Inv(payload: int -> Bytes, s: Conn) {
    && Tabled(s.table, s.place)
    && Held(s.reader, s.place)
    && Takers(s.phases, s.reader, s.place)
    && Logged(s.log, s.place)
    && Alive(s.phases, s.place)
    && Heard(s.phases, s.log)
    && Locked(s.phases, s.writer)
    && Wired(payload, s.socket, s.wire, s.whole, s.phases, s.writer)
    && Guarded(s.closed, s.socket, s.phases)
  }

  // ---- phases that change nothing else ------------------------------------------------

  /** A request that moves between phases in which it takes no one's senders. */
  lemma PhaseMoves(phases: map<int, Phase>, reader: Reader, place: map<int, Place>, id: int, p: Phase)
    requires Takers(phases, reader, place)
    requires (p.Breaking? || p.Closing?) ==> !p.fail.ToSend? || p.fail.taken == {}
    ensures Takers(phases[id := p], reader, place)
  {
    forall a, x | x in TakenBy(phases[id := p], reader, a) ensures PlaceOf(place, x) == WithFailer(a) {
      assert x in TakenBy(phases, reader, a);
    }
  }

  lemma StillHeard(phases: map<int, Phase>, log: seq<(int, Reply)>, id: int, p: Phase)
    requires Heard(phases, log) && (p.Done? && p.outcome.Replied? ==> exists i :: 0 <= i < |log| && log[i] == (id, p.outcome.reply))
    ensures Heard(phases[id := p], log)
  {
    var phases' := phases[id := p];
    forall x | PhaseOf(phases', x).Done? && PhaseOf(phases', x).outcome.Replied?
      ensures exists i :: 0 <= i < |log| && log[i] == (x, PhaseOf(phases', x).outcome.reply)
    {
      assert x != id ==> PhaseOf(phases, x) == PhaseOf(phases', x);
    }
  }

  lemma LogMoves(phases: map<int, Phase>, log: seq<(int, Reply)>, place: map<int, Place>, id: int, reply: Reply)
    requires Heard(phases, log) && Logged(log, place) && PlaceOf(place, id) != Spent && (reply.Response? ==> reply.frame.id == id)
    ensures Heard(phases, log + [(id, reply)]) && Logged(log + [(id, reply)], place[id := Spent])
  {
    var more := log + [(id, reply)];
    forall x | PhaseOf(phases, x).Done? && PhaseOf(phases, x).outcome.Replied?
      ensures exists i :: 0 <= i < |more| && more[i] == (x, PhaseOf(phases, x).outcome.reply)
    {
      var i :| 0 <= i < |log| && log[i] == (x, PhaseOf(phases, x).outcome.reply);
      assert more[i] == log[i];
    }
  }

  lemma CheckInv(payload: int -> Bytes, s: Conn, id: int)
    requires Inv(payload, s)
    ensures Inv(payload, Do(payload, s, Check(id)))
  {
    if PhaseOf(s.phases, id).Fresh? {
      var p := if s.closed then Done(Refused) else Checked;
      PhaseMoves(s.phases, s.reader, s.place, id, p);
      StillHeard(s.phases, s.log, id, p);
    }
  }

  lemma RegisterInv(payload: int -> Bytes, s: Conn, id: int)
    requires Inv(payload, s)
    ensures Inv(payload, Do(payload, s, Register(id)))
  {
    if PhaseOf(s.phases, id).Checked? {
      assert PlaceOf(s.place, id) == Nowhere;
      PhaseMoves(s.phases, s.reader, s.place, id, Registered);
      StillHeard(s.phases, s.log, id, Registered);
    }
  }

  lemma LockInv(payload: int -> Bytes, s: Conn, id: int)
    requires Inv(payload, s)
    ensures Inv(payload, Do(payload, s, Lock(id)))
  {
    if PhaseOf(s.phases, id).Registered? && s.writer.None? {
      PhaseMoves(s.phases, s.reader, s.place, id, Writing(0));
      StillHeard(s.phases, s.log, id, Writing(0));
    }
  }

  lemma WriteMore(payload: int -> Bytes, s: Conn, id: int, k: nat)
    requires Inv(payload, s) && PhaseOf(s.phases, id).Writing? && PhaseOf(s.phases, id).n + k < |Framed(payload(id))|
    ensures Inv(payload, DoWrite(payload, s, id, k))
  {
    var n := PhaseOf(s.phases, id).n;
    PhaseMoves(s.phases, s.reader, s.place, id, Writing(n + k));
    StillHeard(s.phases, s.log, id, Writing(n + k));
    MoreOnTheWire(payload, s, id, k);
  }

  lemma MoreOnTheWire(payload: int -> Bytes, s: Conn, id: int, k: nat)
    requires Locked(s.phases, s.writer) && Wired(payload, s.socket, s.wire, s.whole, s.phases, s.writer)
    requires PhaseOf(s.phases, id).Writing? && PhaseOf(s.phases, id).n + k < |Framed(payload(id))|
    ensures var t := DoWrite(payload, s, id, k); Wired(payload, t.socket, t.wire, t.whole, t.phases, t.writer)
    ensures Locked(DoWrite(payload, s, id, k).phases, s.writer)
  {
    assert s.writer == Some(id);
    WireGrows(payload, s.whole, id, PhaseOf(s.phases, id).n, k);
  }

  lemma WriteLast(payload: int -> Bytes, s: Conn, id: int, k: nat)
    requires Inv(payload, s) && PhaseOf(s.phases, id).Writing? && PhaseOf(s.phases, id).n + k == |Framed(payload(id))|
    ensures Inv(payload, DoWrite(payload, s, id, k))
  {
    PhaseMoves(s.phases, s.reader, s.place, id, Awaiting);
    StillHeard(s.phases, s.log, id, Awaiting);
    assert s.writer == Some(id);
    WireGrows(payload, s.whole, id, PhaseOf(s.phases, id).n, k);
  }

  lemma WriteInv(payload: int -> Bytes, s: Conn, id: int, k: nat)
    requires Inv(payload, s)
    ensures Inv(payload, Do(payload, s, Write(id, k)))
  {
    var p := PhaseOf(s.phases, id);
    if p.Writing? && p.n + k < |Framed(payload(id))| {
      WriteMore(payload, s, id, k);
    } else if p.Writing? && p.n + k == |Framed(payload(id))| {
      WriteLast(payload, s, id, k);
    }
  }

  lemma WireGrows(payload: int -> Bytes, whole: seq<int>, id: int, n: nat, k: nat)
    requires n + k <= |Framed(payload(id))|
    ensures var framed := Framed(payload(id)); var before := Stream(Payloads(payload, whole));
            && before + framed[..n] + framed[n..n + k] == before + framed[..n + k]
            && (n + k == |framed| ==> before + framed[..n + k] == Stream(Payloads(payload, whole + [id])) + [])
  {
    var framed := Framed(payload(id));
    assert framed[..n] + framed[n..n + k] == framed[..n + k];
    assert (whole + [id])[..|whole|] == whole;
    var ps := Payloads(payload, whole + [id]);
    assert ps[..|ps| - 1] == Payloads(payload, whole);
    assert n + k == |framed| ==> framed[..n + k] == framed;
  }

  lemma WriteErrorInv(payload: int -> Bytes, s: Conn, id: int)
    requires Inv(payload, s)
    ensures Inv(payload, Do(payload, s, WriteError(id)))
  {
    if PhaseOf(s.phases, id).Writing? {
      PhaseMoves(s.phases, s.reader, s.place, id, Leaving(WriteFailed));
      StillHeard(s.phases, s.log, id, Leaving(WriteFailed));
      assert s.writer == Some(id);
    }
  }

  lemma LeaveInv(payload: int -> Bytes, s: Conn, id: int, why: Reason)
    requires Inv(payload, s) && (PhaseOf(s.phases, id).Registered? || PhaseOf(s.phases, id).Awaiting?)
    ensures Inv(payload, SetPhase(s, id, Leaving(why)))
  {
    PhaseMoves(s.phases, s.reader, s.place, id, Leaving(why));
    StillHeard(s.phases, s.log, id, Leaving(why));
  }

  lemma BreakInv(payload: int -> Bytes, s: Conn, id: int, why: Reason)
    requires Inv(payload, s) && PhaseOf(s.phases, id).Writing?
    ensures Inv(payload, SetPhase(s, id, Breaking(PhaseOf(s.phases, id).n, ToClose, why)))
  {
    var p := Breaking(PhaseOf(s.phases, id).n, ToClose, why);
    PhaseMoves(s.phases, s.reader, s.place, id, p);
    StillHeard(s.phases, s.log, id, p);
  }

  lemma GiveUpInv(payload: int -> Bytes, s: Conn, id: int, timedOut: bool)
    requires Inv(payload, s)
    ensures Inv(payload, Do(payload, s, GiveUp(id, timedOut)))
  {
    var why := if timedOut then TimedOut else Cancelled;
    var p := PhaseOf(s.phases, id);
    if p.Writing? {
      BreakInv(payload, s, id, why);
    } else if p.Registered? || p.Awaiting? {
      LeaveInv(payload, s, id, why);
    }
  }

  lemma ReceiveInv(payload: int -> Bytes, s: Conn, id: int, i: nat)
    requires Inv(payload, s)
    ensures Inv(payload, Do(payload, s, Receive(id, i)))
  {
    if PhaseOf(s.phases, id).Awaiting? && i < |s.log| && s.log[i].0 == id {
      var p := Done(Replied(s.log[i].1));
      assert s.log[i] == (id, s.log[i].1);
      PhaseMoves(s.phases, s.reader, s.place, id, p);
      StillHeard(s.phases, s.log, id, p);
    }
  }

  lemma ArriveInv(payload: int -> Bytes, s: Conn, frame: Incoming)
    requires Inv(payload, s)
    ensures Inv(payload, Do(payload, s, Arrive(frame)))
  {
  }

  // ---- failing everything -------------------------------------------------------------

  function TakenSoFar(fail: Failing): set<int> {
    if fail.ToSend? then fail.taken else {}
  }

  lemma FailKeepsSenders(s: Conn, agent: Agent, fail: Failing, target: int)
    requires Tabled(s.table, s.place) && Held(s.reader, s.place) && Alive(s.phases, s.place)
    requires forall id :: id in TakenSoFar(fail) ==> PlaceOf(s.place, id) == WithFailer(agent)
    ensures var t := FailStep(s, agent, fail, target).0;
            Tabled(t.table, t.place) && Held(s.reader, t.place) && Alive(s.phases, t.place)
  {
  }

  lemma FailKeepsLog(s: Conn, agent: Agent, fail: Failing, target: int)
    requires Tabled(s.table, s.place) && Logged(s.log, s.place) && Heard(s.phases, s.log)
    requires forall id :: id in TakenSoFar(fail) ==> PlaceOf(s.place, id) == WithFailer(agent)
    ensures var t := FailStep(s, agent, fail, target).0;
            Logged(t.log, t.place) && Heard(s.phases, t.log)
  {
    if fail.ToSend? && target in fail.taken {
      LogMoves(s.phases, s.log, s.place, target, ConnectionClosed);
    }
  }

  lemma FailKeepsTakers(s: Conn, agent: Agent, fail: Failing, target: int, phases: map<int, Phase>, reader: Reader)
    requires Tabled(s.table, s.place) && Takers(s.phases, s.reader, s.place)
    requires TakenBy(s.phases, s.reader, agent) == TakenSoFar(fail)
    requires forall x :: x in TakenSoFar(fail) ==> PlaceOf(s.place, x) == WithFailer(agent)
    requires TakenBy(phases, reader, agent) == TakenSoFar(FailStep(s, agent, fail, target).1)
    requires forall a :: a != agent ==> TakenBy(phases, reader, a) == TakenBy(s.phases, s.reader, a)
    ensures Takers(phases, reader, FailStep(s, agent, fail, target).0.place)
  {
    var place := FailStep(s, agent, fail, target).0.place;
    forall a, id | id in TakenBy(phases, reader, a) ensures PlaceOf(place, id) == WithFailer(a) {
      if a != agent {
        assert id in TakenBy(s.phases, s.reader, a);
        OtherTakers(s, agent, fail, target, a, id);
      } else if fail.ToSend? {
        assert id in TakenBy(s.phases, s.reader, agent);
      } else if fail.ToTake? {
        assert id in s.table;
        assert PlaceOf(s.place, id) == InTable && id in s.place;
      }
    }
  }

  lemma OtherTakers(s: Conn, agent: Agent, fail: Failing, target: int, a: Agent, id: int)
    requires Tabled(s.table, s.place) && a != agent && PlaceOf(s.place, id) == WithFailer(a)
    requires forall x :: x in TakenSoFar(fail) ==> PlaceOf(s.place, x) == WithFailer(agent)
    ensures PlaceOf(FailStep(s, agent, fail, target).0.place, id) == WithFailer(a)
  {
    assert id in s.place && id !in s.table;
  }

  lemma CallerFails(payload: int -> Bytes, s: Conn, id: int, target: int, fail: Failing, p: Phase)
    requires Inv(payload, s)
    requires var q := PhaseOf(s.phases, id); (q.Breaking? || q.Closing?) && q.fail == fail && !Finished(fail)
    requires var q := PhaseOf(s.phases, id); var next := FailStep(s, Caller(id), fail, target).1;
             p == if q.Breaking? then Breaking(q.n, next, q.why) else Closing(next)
    ensures Inv(payload, SetPhase(FailStep(s, Caller(id), fail, target).0, id, p))
  {
    var t := FailStep(s, Caller(id), fail, target).0;
    assert forall x :: x in TakenSoFar(fail) ==> x in TakenBy(s.phases, s.reader, Caller(id));
    FailKeepsSenders(s, Caller(id), fail, target);
    FailKeepsLog(s, Caller(id), fail, target);
    FailKeepsTakers(s, Caller(id), fail, target, s.phases[id := p], s.reader);
    StillHeard(s.phases, t.log, id, p);
    CallerMoves(payload, s, id, p, t.closed);
    assert t.place == s.place || fail.ToTake? || fail.ToSend?;
    PhaseStaysAlive(s.phases, t.place, id, p);
  }

  /** A caller that stays in its phase of failing keeps the lock and the wire as they are. */
  lemma CallerMoves(payload: int -> Bytes, s: Conn, id: int, p: Phase, closed: bool)
    requires Inv(payload, s) && (s.closed ==> closed)
    requires var q := PhaseOf(s.phases, id);
             (q.Closing? && p.Closing?) || (q.Breaking? && p.Breaking? && p.n == q.n && (!p.fail.ToClose? ==> closed))
    ensures Locked(s.phases[id := p], s.writer)
    ensures Wired(payload, s.socket, s.wire, s.whole, s.phases[id := p], s.writer)
    ensures Guarded(closed, s.socket, s.phases[id := p])
  {
  }

  lemma PhaseStaysAlive(phases: map<int, Phase>, place: map<int, Place>, id: int, p: Phase)
    requires Alive(phases, place)
    requires var q := PhaseOf(phases, id); (q.Breaking? && p.Breaking?) || (q.Closing? && p.Closing?)
    ensures Alive(phases[id := p], place)
  {
  }

  lemma BreakingEnds(payload: int -> Bytes, s: Conn, id: int)
    requires Inv(payload, s) && PhaseOf(s.phases, id).Breaking? && Finished(PhaseOf(s.phases, id).fail)
    ensures var q := PhaseOf(s.phases, id);
            Inv(payload, SetPhase(Unlock(s, q.n, Abandoned), id, Leaving(q.why)))
  {
    var q := PhaseOf(s.phases, id);
    PhaseMoves(s.phases, s.reader, s.place, id, Leaving(q.why));
    StillHeard(s.phases, s.log, id, Leaving(q.why));
    assert s.writer == Some(id);
  }

  lemma DropKeepsSenders(s: Conn, id: int, p: Phase)
    requires Tabled(s.table, s.place) && Held(s.reader, s.place) && Alive(s.phases, s.place) && Logged(s.log, s.place)
    requires Takers(s.phases, s.reader, s.place) && PhaseOf(s.phases, id).Leaving? && !NotBegun(p)
    requires (p.Breaking? || p.Closing?) ==> p.fail.ToClose?
    ensures var t := Drop(s, id);
            && Tabled(t.table, t.place) && Held(t.reader, t.place) && Alive(s.phases[id := p], t.place) && Logged(t.log, t.place)
            && Takers(s.phases[id := p], t.reader, t.place)
  {
    var t := Drop(s, id);
    PhaseMoves(s.phases, s.reader, s.place, id, p);
    forall a, x | x in TakenBy(s.phases[id := p], t.reader, a) ensures PlaceOf(t.place, x) == WithFailer(a) {
      assert PlaceOf(s.place, x) == WithFailer(a);
    }
  }

  lemma LeavingEnds(payload: int -> Bytes, s: Conn, id: int)
    requires Inv(payload, s) && PhaseOf(s.phases, id).Leaving?
    ensures Inv(payload, DoStep(s, id, 0))
  {
    var why := PhaseOf(s.phases, id).why;
    var p := if why.TimedOut? then Closing(ToClose) else Done(Ended(why));
    DropKeepsSenders(s, id, p);
    StillHeard(s.phases, s.log, id, p);
  }

  lemma ClosingEnds(payload: int -> Bytes, s: Conn, id: int)
    requires Inv(payload, s) && PhaseOf(s.phases, id).Closing? && Finished(PhaseOf(s.phases, id).fail)
    ensures Inv(payload, SetPhase(s, id, Done(Ended(TimedOut))))
  {
    PhaseMoves(s.phases, s.reader, s.place, id, Done(Ended(TimedOut)));
    StillHeard(s.phases, s.log, id, Done(Ended(TimedOut)));
  }

  lemma StepInv(payload: int -> Bytes, s: Conn, id: int, target: int)
    requires Inv(payload, s)
    ensures Inv(payload, DoStep(s, id, target))
  {
    var q := PhaseOf(s.phases, id);
    match q
    case Breaking(n, fail, why) =>
      if Finished(fail) {
        BreakingEnds(payload, s, id);
      } else {
        CallerFails(payload, s, id, target, fail, Breaking(n, FailStep(s, Caller(id), fail, target).1, why));
      }
    case Leaving(_) => LeavingEnds(payload, s, id);
    case Closing(fail) =>
      if Finished(fail) {
        ClosingEnds(payload, s, id);
      } else {
        CallerFails(payload, s, id, target, fail, Closing(FailStep(s, Caller(id), fail, target).1));
      }
    case _ =>
  }

  lemma ReaderFails(payload: int -> Bytes, s: Conn, fail: Failing, target: int)
    requires Inv(payload, s) && s.reader == ReaderFailing(fail) && !Finished(fail)
    ensures Inv(payload, DoReaderStep(s, target))
  {
    var (t, next) := FailStep(s, TheReader, fail, target);
    assert forall x :: x in TakenSoFar(fail) ==> x in TakenBy(s.phases, s.reader, TheReader);
    FailKeepsSenders(s, TheReader, fail, target);
    FailKeepsLog(s, TheReader, fail, target);
    FailKeepsTakers(s, TheReader, fail, target, s.phases, ReaderFailing(next));
  }

  lemma ReaderAnswers(payload: int -> Bytes, s: Conn)
    requires Inv(payload, s) && s.reader.Holding?
    ensures Inv(payload, DoReaderStep(s, 0))
  {
    var frame := s.reader.frame;
    var reply := if frame.headerOk then Response(frame) else BadHeader;
    LogMoves(s.phases, s.log, s.place, frame.id, reply);
    forall a, x | x in TakenBy(s.phases, Reading, a) ensures PlaceOf(s.place[frame.id := Spent], x) == WithFailer(a) {
      assert x in TakenBy(s.phases, s.reader, a);
      assert PlaceOf(s.place, x) == WithFailer(a);
    }
  }

  lemma ReaderStepInv(payload: int -> Bytes, s: Conn, target: int)
    requires Inv(payload, s)
    ensures Inv(payload, DoReaderStep(s, target))
  {
    if s.reader.Holding? {
      ReaderAnswers(payload, s);
    } else if s.reader.ReaderFailing? {
      if Finished(s.reader.fail) {
        forall a, x | x in TakenBy(s.phases, Stopped, a) ensures PlaceOf(s.place, x) == WithFailer(a) {
          assert x in TakenBy(s.phases, s.reader, a);
        }
      } else {
        ReaderFails(payload, s, s.reader.fail, target);
      }
    }
  }

  lemma DoInv(payload: int -> Bytes, s: Conn, a: Action)
    requires Inv(payload, s)
    ensures Inv(payload, Do(payload, s, a))
  {
    match a
    case Check(id) => CheckInv(payload, s, id);
    case Register(id) => RegisterInv(payload, s, id);
    case Lock(id) => LockInv(payload, s, id);
    case Write(id, k) => WriteInv(payload, s, id, k);
    case WriteError(id) => WriteErrorInv(payload, s, id);
    case GiveUp(id, timedOut) => GiveUpInv(payload, s, id, timedOut);
    case Receive(id, i) => ReceiveInv(payload, s, id, i);
    case Step(id, target) => StepInv(payload, s, id, target);
    case Arrive(frame) => ArriveInv(payload, s, frame);
    case ReadError =>
    case ReaderStep(target) => ReaderStepInv(payload, s, target);
  }

  /** Every interleaving of every length keeps the invariant. */
  lemma {:induction false} RunInv(payload: int -> Bytes, actions: seq<Action>)
    ensures Inv(payload, Run(payload, FRESH, actions))
  {
    if actions == [] {
      assert Stream(Payloads(payload, [])) + [] == [];
    } else {
      RunInv(payload, actions[..|actions| - 1]);
      DoInv(payload, Run(payload, FRESH, actions[..|actions| - 1]), actions[|actions| - 1]);
    }
  }

  // ---- what it means ------------------------------------------------------------------

  /** Under every interleaving a request gets at most one reply, and one that ended with a
      reply was sent that very reply; a response is the frame carrying the request's own id. */
  lemma RepliesAreRight(payload: int -> Bytes, actions: seq<Action>, id: int)
    ensures var s := Run(payload, FRESH, actions);
            && (forall i, j :: 0 <= i < j < |s.log| ==> s.log[i].0 != s.log[j].0)
            && (PhaseOf(s.phases, id).Done? && PhaseOf(s.phases, id).outcome.Replied? ==>
                  var reply := PhaseOf(s.phases, id).outcome.reply;
                  && (exists i :: 0 <= i < |s.log| && s.log[i] == (id, reply))
                  && (reply.Response? ==> reply.frame.id == id))
  {
    RunInv(payload, actions);
  }

  /** The table holds only requests that are still waiting or about to clean up. */
  lemma TableHoldsLiveRequests(payload: int -> Bytes, actions: seq<Action>, id: int)
    requires id in Run(payload, FRESH, actions).table
    ensures Live(PhaseOf(Run(payload, FRESH, actions).phases, id))
  {
    RunInv(payload, actions);
  }

  /** Until a frame is cut short, the peer can split everything on the wire, up to the frame
      being written, into exactly the requests that were written, in that order. */
  lemma WireCarriesWholeFrames(payload: int -> Bytes, actions: seq<Action>, maxLen: nat)
    requires forall id :: |payload(id)| <= maxLen && |payload(id)| <= I32_MAX
    requires Run(payload, FRESH, actions).socket.Intact?
    ensures var s := Run(payload, FRESH, actions);
            var partial := Partial(payload, s.phases, s.writer);
            && s.wire == Stream(Payloads(payload, s.whole)) + partial
            && Drain(s.wire, maxLen) == (Payloads(payload, s.whole) + Drain(partial, maxLen).0, Drain(partial, maxLen).1)
  {
    RunInv(payload, actions);
    var s := Run(payload, FRESH, actions);
    PayloadsFit(payload, s.whole, maxLen);
    FramesComeBack(Payloads(payload, s.whole), maxLen, Partial(payload, s.phases, s.writer));
  }

  lemma {:induction false} PayloadsFit(payload: int -> Bytes, ids: seq<int>, maxLen: nat)
    requires forall id :: |payload(id)| <= maxLen && |payload(id)| <= I32_MAX
    ensures forall i :: 0 <= i < |Payloads(payload, ids)| ==> |Payloads(payload, ids)[i]| <= maxLen && |Payloads(payload, ids)[i]| <= I32_MAX
  {
    if ids != [] {
      PayloadsFit(payload, ids[..|ids| - 1], maxLen);
    }
  }

  /** A request whose closed-check comes after `fail_all` marked the connection is refused: it
      never enters the table and never writes, whatever follows. */
  lemma LateRequestsAreRefused(payload: int -> Bytes, before: seq<Action>, after: seq<Action>, id: int)
    requires Run(payload, FRESH, before).closed && PhaseOf(Run(payload, FRESH, before).phases, id).Fresh?
    ensures var t := Run(payload, Run(payload, FRESH, before), [Check(id)] + after);
            PhaseOf(t.phases, id) == Done(Refused) && id !in t.table
  {
    var s := Run(payload, FRESH, before);
    RunSplit(payload, s, [Check(id)], after);
    var u := Do(payload, s, Check(id));
    assert [Check(id)][..0] == [];
    assert Run(payload, s, [Check(id)]) == u;
    OverForever(payload, u, after, id);
    RunInv(payload, before);
    CheckInv(payload, s, id);
    RunKeepsInv(payload, u, after);
  }

  lemma {:induction false} OverForever(payload: int -> Bytes, s: Conn, actions: seq<Action>, id: int)
    requires PhaseOf(s.phases, id).Done?
    ensures PhaseOf(Run(payload, s, actions).phases, id) == PhaseOf(s.phases, id)
  {
    if actions != [] {
      OverForever(payload, s, actions[..|actions| - 1], id);
      DoneIsDone(payload, Run(payload, s, actions[..|actions| - 1]), actions[|actions| - 1], id);
    }
  }

  /** No step moves a request that is over. */
  lemma DoneIsDone(payload: int -> Bytes, s: Conn, a: Action, id: int)
    requires PhaseOf(s.phases, id).Done?
    ensures PhaseOf(Do(payload, s, a).phases, id) == PhaseOf(s.phases, id)
  {
    match a
    case Step(x, target) => StepsElsewhere(s, x, target, id);
    case ReaderStep(target) => ReaderMovesNoOne(s, target);
    case _ =>
  }

  lemma ReaderMovesNoOne(s: Conn, target: int)
    ensures DoReaderStep(s, target).phases == s.phases
  {
  }

  lemma StepsElsewhere(s: Conn, x: int, target: int, id: int)
    requires x != id || PhaseOf(s.phases, id).Done?
    ensures PhaseOf(DoStep(s, x, target).phases, id) == PhaseOf(s.phases, id)
  {
  }

  lemma {:induction false} RunKeepsInv(payload: int -> Bytes, s: Conn, actions: seq<Action>)
    requires Inv(payload, s)
    ensures Inv(payload, Run(payload, s, actions))
  {
    if actions != [] {
      RunKeepsInv(payload, s, actions[..|actions| - 1]);
      DoInv(payload, Run(payload, s, actions[..|actions| - 1]), actions[|actions| - 1]);
    }
  }

  lemma {:induction false} RunSplit(payload: int -> Bytes, s: Conn, a: seq<Action>, b: seq<Action>)
    ensures Run(payload, s, a + b) == Run(payload, Run(payload, s, a), b)
  {
    if b == [] {
      assert a + b == a;
    } else {
      assert (a + b)[..|a + b| - 1] == a + b[..|b| - 1];
      RunSplit(payload, s, a, b[..|b| - 1]);
    }
  }

  /** Whoever was cancelled or timed out while writing has closed the connection by the time it
      releases the writer, whatever happened on the connection before. */
  lemma CutFramesCloseTheConnection(payload: int -> Bytes, actions: seq<Action>, a: Action, id: int)
    requires PhaseOf(Run(payload, FRESH, actions).phases, id).Breaking?
    ensures var s := Run(payload, FRESH, actions); var t := Do(payload, s, a);
            && s.writer == Some(id)
            && (t.writer != Some(id) || !PhaseOf(t.phases, id).Breaking? ==> s.closed)
  {
    RunInv(payload, actions);
    var s := Run(payload, FRESH, actions);
    BreakingHasTheLock(payload, s, id);
    if !(a.Step? && a.id == id && Finished(PhaseOf(s.phases, id).fail)) {
      BreakingStays(payload, s, a, id);
      DoInv(payload, s, a);
      BreakingHasTheLock(payload, Do(payload, s, a), id);
    }
  }

  lemma BreakingHasTheLock(payload: int -> Bytes, s: Conn, id: int)
    requires Inv(payload, s) && PhaseOf(s.phases, id).Breaking?
    ensures s.writer == Some(id) && (Finished(PhaseOf(s.phases, id).fail) ==> s.closed)
  {
  }

  /** Only the end of its own `fail_all` moves a request that is breaking off. */
  lemma BreakingStays(payload: int -> Bytes, s: Conn, a: Action, id: int)
    requires PhaseOf(s.phases, id).Breaking? && !(a.Step? && a.id == id && Finished(PhaseOf(s.phases, id).fail))
    ensures PhaseOf(Do(payload, s, a).phases, id).Breaking?
  {
    match a
    case Step(x, target) =>
    case ReaderStep(target) => ReaderMovesNoOne(s, target);
    case _ =>
  }

  predicate CutsByError(s: Conn, a: Action) {
    a.WriteError? && PhaseOf(s.phases, a.id).Writing? && PhaseOf(s.phases, a.id).n > 0
  }

  /** Of all steps only a write error in the middle of a frame leaves an open connection with a
      broken frame on it. */
  lemma LeavesItOpenAndCutIff(payload: int -> Bytes, s: Conn, a: Action)
    requires Inv(payload, s) && !s.closed && s.socket.Intact?
    ensures var t := Do(payload, s, a); !t.closed && !t.socket.Intact? <==> CutsByError(s, a)
  {
    if a.ReaderStep? {
      ReaderCutsNothing(s, a.target);
    }
  }

  lemma ReaderCutsNothing(s: Conn, target: int)
    ensures DoReaderStep(s, target).socket == s.socket && (s.closed ==> DoReaderStep(s, target).closed)
  {
  }

  /** No step opens a closed connection or mends a broken frame. */
  lemma DamageIsDone(payload: int -> Bytes, s: Conn, a: Action)
    ensures s.closed ==> Do(payload, s, a).closed
    ensures !s.socket.Intact? ==> !Do(payload, s, a).socket.Intact?
  {
    if a.ReaderStep? {
      ReaderCutsNothing(s, a.target);
    }
  }

  predicate ErrorsCutNothing(payload: int -> Bytes, actions: seq<Action>) {
    actions == [] ||
    (ErrorsCutNothing(payload, actions[..|actions| - 1])
     && !CutsByError(Run(payload, FRESH, actions[..|actions| - 1]), actions[|actions| - 1]))
  }

  /** Over every interleaving: the frames on a connection that is still open are whole if and
      only if no write failed in the middle of one. */
  lemma {:induction false} OpenIsIntactIff(payload: int -> Bytes, actions: seq<Action>)
    ensures var s := Run(payload, FRESH, actions); !s.closed ==> (s.socket.Intact? <==> ErrorsCutNothing(payload, actions))
  {
    if actions != [] {
      var before, a := actions[..|actions| - 1], actions[|actions| - 1];
      var s := Run(payload, FRESH, before);
      OpenIsIntactIff(payload, before);
      RunInv(payload, before);
      DamageIsDone(payload, s, a);
      if !s.closed && s.socket.Intact? {
        LeavesItOpenAndCutIff(payload, s, a);
      }
    }
  }

  predicate NoLongerReads(r: Reader) {
    r.ReaderFailing? || r.Stopped?
  }

  lemma OnlyFailuresFollow(payload: int -> Bytes, s: Conn, a: Action)
    requires NoLongerReads(s.reader)
    ensures var t := Do(payload, s, a);
            NoLongerReads(t.reader) && (t.log == s.log || exists id :: t.log == s.log + [(id, ConnectionClosed)])
  {
    match a
    case Step(x, target) => CallerSendsFailures(s, x, target);
    case ReaderStep(target) => ReaderSendsFailures(s, target);
    case _ =>
  }

  lemma CallerSendsFailures(s: Conn, id: int, target: int)
    ensures var t := DoStep(s, id, target);
            t.reader == s.reader && (t.log == s.log || exists x :: t.log == s.log + [(x, ConnectionClosed)])
  {
  }

  lemma ReaderSendsFailures(s: Conn, target: int)
    requires NoLongerReads(s.reader)
    ensures var t := DoReaderStep(s, target);
            NoLongerReads(t.reader) && (t.log == s.log || exists x :: t.log == s.log + [(x, ConnectionClosed)])
  {
  }

  /** What `after` has beyond `before` is failures. */
  predicate OnlyFailures(before: seq<(int, Reply)>, after: seq<(int, Reply)>) {
    before <= after && forall i :: |before| <= i < |after| ==> after[i].1 == ConnectionClosed
  }

  lemma {:induction false} OnlyFailuresEver(payload: int -> Bytes, s: Conn, actions: seq<Action>)
    requires NoLongerReads(s.reader)
    ensures var t := Run(payload, s, actions); NoLongerReads(t.reader) && OnlyFailures(s.log, t.log)
  {
    if actions != [] {
      var t := Run(payload, s, actions[..|actions| - 1]);
      OnlyFailuresEver(payload, s, actions[..|actions| - 1]);
      OnlyFailuresFollow(payload, t, actions[|actions| - 1]);
    }
  }

  /** The answer to a request that is over, or never was, is unknown to the table. From then on
      the reader reads nothing, and whatever happens, no request still without its reply is sent
      any but a failure. */
  lemma AnswerToTheDepartedFailsEveryone(payload: int -> Bytes, before: seq<Action>, frame: Incoming, after: seq<Action>)
    requires Run(payload, FRESH, before).reader.Reading? && !Live(PhaseOf(Run(payload, FRESH, before).phases, frame.id))
    ensures var s := Run(payload, FRESH, before);
            var t := Run(payload, Do(payload, s, Arrive(frame)), after);
            && frame.id !in s.table && NoLongerReads(t.reader)
            && (forall i :: |s.log| <= i < |t.log| ==> t.log[i].1 == ConnectionClosed)
            && (forall id :: PhaseOf(t.phases, id).Done? && PhaseOf(t.phases, id).outcome.Replied? ==>
                  PhaseOf(t.phases, id).outcome.reply == ConnectionClosed
                  || exists i :: 0 <= i < |s.log| && s.log[i] == (id, PhaseOf(t.phases, id).outcome.reply))
  {
    var s := Run(payload, FRESH, before);
    var u := Do(payload, s, Arrive(frame));
    var t := Run(payload, u, after);
    RunInv(payload, before);
    assert frame.id !in s.table;
    OnlyFailuresEver(payload, u, after);
    ArriveInv(payload, s, frame);
    RunKeepsInv(payload, u, after);
    RepliedFrom(t.phases, s.log, t.log);
  }

  lemma RepliedFrom(phases: map<int, Phase>, before: seq<(int, Reply)>, after: seq<(int, Reply)>)
    requires Heard(phases, after) && OnlyFailures(before, after)
    ensures forall id :: PhaseOf(phases, id).Done? && PhaseOf(phases, id).outcome.Replied? ==>
              PhaseOf(phases, id).outcome.reply == ConnectionClosed
              || exists i :: 0 <= i < |before| && before[i] == (id, PhaseOf(phases, id).outcome.reply)
  {
    forall id | PhaseOf(phases, id).Done? && PhaseOf(phases, id).outcome.Replied? && PhaseOf(phases, id).outcome.reply != ConnectionClosed
      ensures exists i :: 0 <= i < |before| && before[i] == (id, PhaseOf(phases, id).outcome.reply)
    {
      var i :| 0 <= i < |after| && after[i] == (id, PhaseOf(phases, id).outcome.reply);
      assert before[i] == after[i];
    }
  }

  /** The reader fails the connection over exactly the frames the table does not know. */
  lemma UnknownFrameFailsIff(payload: int -> Bytes, actions: seq<Action>, frame: Incoming)
    requires Run(payload, FRESH, actions).reader.Reading?
    ensures var s := Run(payload, FRESH, actions);
            && (NoLongerReads(Do(payload, s, Arrive(frame)).reader) <==> frame.id !in s.table)
            && (!Live(PhaseOf(s.phases, frame.id)) ==> frame.id !in s.table)
  {
    RunInv(payload, actions);
  }

  lemma RunSnoc(payload: int -> Bytes, s: Conn, actions: seq<Action>, a: Action)
    ensures Run(payload, s, actions + [a]) == Do(payload, Run(payload, s, actions), a)
  {
    assert (actions + [a])[..|actions + [a]| - 1] == actions;
  }

  /** A caller that gets the writer of an open connection and writes `k` bytes. */
  lemma WritesSome(payload: int -> Bytes, before: seq<Action>, id: int, k: nat) returns (after: seq<Action>)
    requires var s := Run(payload, FRESH, before); !s.closed && s.writer.None? && PhaseOf(s.phases, id).Fresh?
    requires 0 < k < |Framed(payload(id))|
    ensures var s := Run(payload, FRESH, before); var t := Run(payload, FRESH, after);
            && t.closed == s.closed && t.socket == s.socket && PhaseOf(t.phases, id) == Writing(k)
            && t.wire == s.wire + Framed(payload(id))[..k]
            && forall x :: x != id ==> PhaseOf(t.phases, x) == PhaseOf(s.phases, x)
  {
    RunSnoc(payload, FRESH, before, Check(id));
    var checked := before + [Check(id)];
    RunSnoc(payload, FRESH, checked, Register(id));
    var registered := checked + [Register(id)];
    RunSnoc(payload, FRESH, registered, Lock(id));
    var locked := registered + [Lock(id)];
    assert PhaseOf(Run(payload, FRESH, locked).phases, id) == Writing(0);
    RunSnoc(payload, FRESH, locked, Write(id, k));
    after := locked + [Write(id, k)];
  }

  /** A failed write closes nothing: the frame it left half written stays on the wire, and the
      next request is still accepted and written behind it. */
  lemma WriteErrorLeavesItOpen(payload: int -> Bytes, a: int, j: nat, b: int, k: nat) returns (actions: seq<Action>)
    requires a != b && 0 < j < |Framed(payload(a))| && 0 < k < |Framed(payload(b))|
    ensures var s := Run(payload, FRESH, actions);
            s.socket.Broken? && !s.closed && s.wire == Framed(payload(a))[..j] + Framed(payload(b))[..k]
  {
    var first := WritesSome(payload, [], a, j);
    assert PhaseOf(Run(payload, FRESH, first).phases, b) == PhaseOf(Run(payload, FRESH, []).phases, b);
    RunSnoc(payload, FRESH, first, WriteError(a));
    actions := WritesSome(payload, first + [WriteError(a)], b, k);
    assert [] + Framed(payload(a))[..j] == Framed(payload(a))[..j];
  }

  // ---- what the reader answers --------------------------------------------------------

  /** The frames that found their request in the table, in the order of their arrival. */
  function Accepted(payload: int -> Bytes, actions: seq<Action>): seq<Incoming> {
    if actions == [] then []
    else
      var before, a := actions[..|actions| - 1], actions[|actions| - 1];
      var s := Run(payload, FRESH, before);
      Accepted(payload, before) + if a.Arrive? && s.reader.Reading? && a.frame.id in s.table then [a.frame] else []
  }

  /** What was sent besides failures. */
  function Sent(log: seq<(int, Reply)>): seq<(int, Reply)> {
    if log == [] then []
    else Sent(log[..|log| - 1]) + if log[|log| - 1].1.ConnectionClosed? then [] else [log[|log| - 1]]
  }

  lemma SentSnoc(log: seq<(int, Reply)>, e: (int, Reply))
    ensures Sent(log + [e]) == Sent(log) + if e.1.ConnectionClosed? then [] else [e]
  {
    assert (log + [e])[..|log + [e]| - 1] == log;
  }

  predicate Answers(reply: (int, Reply), frame: Incoming) {
    && reply.0 == frame.id
    && (frame.headerOk <==> reply.1 == Response(frame))
    && (!frame.headerOk <==> reply.1 == BadHeader)
  }

  /** Every frame taken is answered, but for one the reader still holds. */
  predicate AllAnswered(frames: seq<Incoming>, sent: seq<(int, Reply)>, reader: Reader) {
    && |frames| == |sent| + (if reader.Holding? then 1 else 0)
    && (reader.Holding? ==> frames[|sent|] == reader.frame)
    && forall i :: 0 <= i < |sent| ==> Answers(sent[i], frames[i])
  }

  lemma ArrivalAnswered(payload: int -> Bytes, s: Conn, frame: Incoming, frames: seq<Incoming>)
    requires AllAnswered(frames, Sent(s.log), s.reader)
    ensures var t := Do(payload, s, Arrive(frame));
            AllAnswered(frames + if s.reader.Reading? && frame.id in s.table then [frame] else [], Sent(t.log), t.reader)
  {
  }

  lemma ReaderAnswered(s: Conn, target: int, frames: seq<Incoming>)
    requires AllAnswered(frames, Sent(s.log), s.reader)
    ensures var t := DoReaderStep(s, target); AllAnswered(frames, Sent(t.log), t.reader)
  {
    if s.reader.Holding? {
      SentSnoc(s.log, DoReaderStep(s, target).log[|s.log|]);
    } else if s.reader.ReaderFailing? {
      ReaderSendsFailures(s, target);
      FailuresAreNotSent(s.log, DoReaderStep(s, target).log);
    }
  }

  lemma OneMoreAnswered(payload: int -> Bytes, s: Conn, a: Action, frames: seq<Incoming>)
    requires AllAnswered(frames, Sent(s.log), s.reader)
    ensures var t := Do(payload, s, a);
            AllAnswered(frames + if a.Arrive? && s.reader.Reading? && a.frame.id in s.table then [a.frame] else [], Sent(t.log), t.reader)
  {
    assert frames + [] == frames;
    match a
    case Arrive(frame) => ArrivalAnswered(payload, s, frame, frames);
    case ReaderStep(target) => ReaderAnswered(s, target, frames);
    case Step(x, target) =>
      CallerSendsFailures(s, x, target);
      FailuresAreNotSent(s.log, DoStep(s, x, target).log);
    case ReadError =>
      assert Do(payload, s, a).log == s.log;
    case _ =>
      assert Do(payload, s, a).log == s.log && Do(payload, s, a).reader == s.reader;
  }

  lemma FailuresAreNotSent(log: seq<(int, Reply)>, log': seq<(int, Reply)>)
    requires log' == log || exists x :: log' == log + [(x, ConnectionClosed)]
    ensures Sent(log') == Sent(log)
  {
    if log' != log {
      var x :| log' == log + [(x, ConnectionClosed)];
      SentSnoc(log, (x, ConnectionClosed));
    }
  }

  /** Under every interleaving the frames that found their request are answered each once and in
      order: with the frame itself where its header can be read, and otherwise with that error. */
  lemma {:induction false} FramesAreAnsweredInOrder(payload: int -> Bytes, actions: seq<Action>)
    ensures var s := Run(payload, FRESH, actions); AllAnswered(Accepted(payload, actions), Sent(s.log), s.reader)
  {
    if actions != [] {
      var before, a := actions[..|actions| - 1], actions[|actions| - 1];
      FramesAreAnsweredInOrder(payload, before);
      OneMoreAnswered(payload, Run(payload, FRESH, before), a, Accepted(payload, before));
    }
  }

  // ---- why a request ended ------------------------------------------------------------

  predicate Cause(why: Reason, id: int, actions: seq<Action>) {
    match why
    case WriteFailed => WriteError(id) in actions
    case Cancelled => GiveUp(id, false) in actions
    case TimedOut => GiveUp(id, true) in actions
  }

  /** A request ends early for a reason that came up, and a timeout takes the connection along. */
  predicate Caused(p: Phase, id: int, closed: bool, actions: seq<Action>) {
    match p
    case Breaking(n, fail, why) => Cause(why, id, actions)
    case Leaving(why) => Cause(why, id, actions)
    case Closing(fail) => Cause(TimedOut, id, actions) && (fail.ToClose? || closed)
    case Done(outcome) =>
      && (outcome.Refused? ==> closed)
      && (outcome.Ended? ==> Cause(outcome.why, id, actions) && (outcome.why.TimedOut? ==> closed))
    case _ => true
  }

  lemma StillCaused(p: Phase, id: int, closed: bool, actions: seq<Action>, closed': bool, a: Action)
    requires Caused(p, id, closed, actions) && (closed ==> closed')
    ensures Caused(p, id, closed', actions + [a])
  {
  }

  lemma OwnStepCauses(s: Conn, id: int, target: int, actions: seq<Action>)
    requires Caused(PhaseOf(s.phases, id), id, s.closed, actions)
    ensures var t := DoStep(s, id, target); Caused(PhaseOf(t.phases, id), id, t.closed, actions)
  {
  }

  lemma StepCauses(payload: int -> Bytes, s: Conn, actions: seq<Action>, a: Action, id: int)
    requires Caused(PhaseOf(s.phases, id), id, s.closed, actions)
    ensures var t := Do(payload, s, a); Caused(PhaseOf(t.phases, id), id, t.closed, actions + [a])
  {
    var t := Do(payload, s, a);
    DamageIsDone(payload, s, a);
    assert a in actions + [a];
    if a.Step? && a.id == id {
      OwnStepCauses(s, id, a.target, actions);
      StillCaused(PhaseOf(t.phases, id), id, t.closed, actions, t.closed, a);
    } else {
      StillCaused(PhaseOf(s.phases, id), id, s.closed, actions, t.closed, a);
      if a.Step? {
        StepsElsewhere(s, a.id, a.target, id);
      } else if a.ReaderStep? {
        ReaderMovesNoOne(s, a.target);
      }
    }
  }

  /** Under every interleaving a request that ended early names what happened to it, one that was
      refused found the connection closed, and one that timed out leaves it closed. */
  lemma {:induction false} EndsHaveTheirCause(payload: int -> Bytes, actions: seq<Action>, id: int)
    ensures var s := Run(payload, FRESH, actions); Caused(PhaseOf(s.phases, id), id, s.closed, actions)
  {
    if actions != [] {
      var before, a := actions[..|actions| - 1], actions[|actions| - 1];
      EndsHaveTheirCause(payload, before, id);
      StepCauses(payload, Run(payload, FRESH, before), before, a, id);
      assert before + [a] == actions;
    }
  }
}
