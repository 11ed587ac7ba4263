/** Where the reply of a waiting request can be, and the one case in which there will be none. */
module Replies {
  import opened Wrappers
  import opened Frame
  import opened Connection

  // ---- no reply is lost ---------------------------------------------------------------

  /** Registered, and not on its way out. */
  predicate Waits(p: Phase) {
    p.Registered? || p.Writing? || p.Awaiting?
  }

  ghost predicate IsSent(log: seq<(int, Reply)>, id: int) {
    exists i :: 0 <= i < |log| && log[i].0 == id
  }

  ghost predicate ReaderHolds(reader: Reader, place: map<int, Place>) {
    forall id :: PlaceOf(place, id) == WithReader ==> reader.Holding? && reader.frame.id == id
  }

  ghost predicate FailersHold(phases: map<int, Phase>, reader: Reader, place: map<int, Place>) {
    forall id, a :: PlaceOf(place, id) == WithFailer(a) ==> id in TakenBy(phases, reader, a)
  }

  /** A waiting request has a sender somewhere, or was sent its reply. */
  ghost predicate Provided(phases: map<int, Phase>, place: map<int, Place>, log: seq<(int, Reply)>) {
    forall id :: Waits(PhaseOf(phases, id)) ==>
      PlaceOf(place, id) != Nowhere && (PlaceOf(place, id) == Spent ==> IsSent(log, id))
  }

  ghost predicate Kept(s: Conn) {
    ReaderHolds(s.reader, s.place) && FailersHold(s.phases, s.reader, s.place) && Provided(s.phases, s.place, s.log)
  }

  lemma SentStays(log: seq<(int, Reply)>, e: (int, Reply))
    ensures forall id :: IsSent(log, id) || id == e.0 ==> IsSent(log + [e], id)
  {
    assert (log + [e])[|log|] == e;
    forall id | IsSent(log, id) ensures IsSent(log + [e], id) {
      var i :| 0 <= i < |log| && log[i].0 == id;
      assert (log + [e])[i] == log[i];
    }
  }

  lemma OnePlaceMoves(place: map<int, Place>, id: int, p: Place, x: int)
    ensures PlaceOf(place[id := p], x) == if x == id then p else PlaceOf(place, x)
  {
  }

  /** Where no sender comes to the reader, the reader holds what it held. */
  lemma ReaderStillHolds(reader: Reader, place: map<int, Place>, id: int, p: Place)
    requires ReaderHolds(reader, place) && p != WithReader
    ensures ReaderHolds(reader, place[id := p])
    ensures reader.Holding? && reader.frame.id == id ==> ReaderHolds(Reading, place[id := p])
  {
    var place' := place[id := p];
    forall x | PlaceOf(place', x) == WithReader
      ensures x != id && reader.Holding? && reader.frame.id == x
    {
      OnePlaceMoves(place, id, p, x);
    }
  }

  // ---- failing ------------------------------------------------------------------------

  /** One step of `fail_all`: what it takes it holds, and what it holds it answers. */
  lemma FailLosesNothing(s: Conn, agent: Agent, fail: Failing, target: int)
    requires Tabled(s.table, s.place) && forall id :: PlaceOf(s.place, id) == WithFailer(agent) ==> id in TakenSoFar(fail)
    ensures var (t, next) := FailStep(s, agent, fail, target);
            && (forall id :: PlaceOf(t.place, id) == WithFailer(agent) ==> id in TakenSoFar(next))
            && (forall id, a :: a != agent && PlaceOf(t.place, id) == WithFailer(a) ==> PlaceOf(s.place, id) == WithFailer(a))
            && (forall id :: PlaceOf(t.place, id) == WithReader ==> PlaceOf(s.place, id) == WithReader)
            && (forall id :: PlaceOf(s.place, id) != Nowhere ==> PlaceOf(t.place, id) != Nowhere)
            && (forall id :: PlaceOf(t.place, id) == Spent ==> PlaceOf(s.place, id) == Spent || IsSent(t.log, id))
            && (forall id :: IsSent(s.log, id) ==> IsSent(t.log, id))
  {
    if fail.ToSend? && target in fail.taken {
      SentStays(s.log, (target, ConnectionClosed));
      var place := s.place[target := Spent];
      forall id | PlaceOf(place, id) == WithFailer(agent) ensures id in fail.taken - {target} {
        assert PlaceOf(s.place, id) == WithFailer(agent);
      }
    }
  }

  lemma CallerFailsKept(s: Conn, id: int, fail: Failing, target: int, p: Phase, p': Phase)
    requires Tabled(s.table, s.place) && Kept(s) && PhaseOf(s.phases, id) == p && (p.Breaking? || p.Closing?) && p.fail == fail
    requires (p'.Breaking? || p'.Closing?) && p'.fail == FailStep(s, Caller(id), fail, target).1
    ensures Kept(SetPhase(FailStep(s, Caller(id), fail, target).0, id, p'))
  {
    FailLosesNothing(s, Caller(id), fail, target);
    var (t, next) := FailStep(s, Caller(id), fail, target);
    var phases := s.phases[id := p'];
    forall x, a | PlaceOf(t.place, x) == WithFailer(a) ensures x in TakenBy(phases, t.reader, a) {
      if a != Caller(id) {
        assert PlaceOf(s.place, x) == WithFailer(a) && x in TakenBy(s.phases, s.reader, a);
      }
    }
  }

  lemma ReaderFailsKept(s: Conn, fail: Failing, target: int)
    requires Tabled(s.table, s.place) && Kept(s) && s.reader == ReaderFailing(fail)
    ensures var (t, next) := FailStep(s, TheReader, fail, target); Kept(t.(reader := ReaderFailing(next)))
  {
    FailLosesNothing(s, TheReader, fail, target);
    var (t, next) := FailStep(s, TheReader, fail, target);
    forall x, a | PlaceOf(t.place, x) == WithFailer(a) ensures x in TakenBy(t.phases, ReaderFailing(next), a) {
      if a != TheReader {
        assert PlaceOf(s.place, x) == WithFailer(a) && x in TakenBy(s.phases, s.reader, a);
      }
    }
  }

  // ---- every step ---------------------------------------------------------------------

  /** A request that holds nobody's sender moves on. */
  lemma MoveKept(s: Conn, id: int, p: Phase)
    requires Kept(s) && TakenBy(s.phases, s.reader, Caller(id)) == {}
    requires Waits(p) ==> Waits(PhaseOf(s.phases, id)) || (PlaceOf(s.place, id) != Nowhere && PlaceOf(s.place, id) != Spent)
    ensures Kept(SetPhase(s, id, p))
  {
    var phases := s.phases[id := p];
    forall x, a | PlaceOf(s.place, x) == WithFailer(a) ensures x in TakenBy(phases, s.reader, a) {
      assert PlaceOf(s.place, x) == WithFailer(a) && x in TakenBy(s.phases, s.reader, a);
    }
  }

  lemma RegisterKept(s: Conn, id: int)
    requires Kept(s) && PhaseOf(s.phases, id).Checked?
    ensures Kept(SetPhase(s.(table := s.table + {id}, place := s.place[id := InTable]), id, Registered))
  {
    var t := s.(table := s.table + {id}, place := s.place[id := InTable]);
    ReaderStillHolds(s.reader, s.place, id, InTable);
    forall x, a | PlaceOf(t.place, x) == WithFailer(a) ensures x in TakenBy(t.phases, t.reader, a) {
      assert PlaceOf(s.place, x) == WithFailer(a);
    }
    MoveKept(t, id, Registered);
  }

  lemma ArriveKept(s: Conn, frame: Incoming)
    requires Kept(s) && s.reader.Reading?
    ensures Kept(s.(table := s.table - {frame.id}, place := s.place[frame.id := WithReader], reader := Holding(frame)))
  {
    var place := s.place[frame.id := WithReader];
    forall x | PlaceOf(place, x) == WithReader ensures frame.id == x {
      OnePlaceMoves(s.place, frame.id, WithReader, x);
    }
    forall x, a | PlaceOf(place, x) == WithFailer(a) ensures x in TakenBy(s.phases, Holding(frame), a) {
      assert PlaceOf(s.place, x) == WithFailer(a) && x in TakenBy(s.phases, s.reader, a);
    }
  }

  lemma AnswerKept(s: Conn, reply: Reply)
    requires Kept(s) && s.reader.Holding?
    ensures Kept(s.(log := s.log + [(s.reader.frame.id, reply)], place := s.place[s.reader.frame.id := Spent], reader := Reading))
  {
    var id := s.reader.frame.id;
    SentStays(s.log, (id, reply));
    ReaderStillHolds(s.reader, s.place, id, Spent);
    forall x, a | PlaceOf(s.place[id := Spent], x) == WithFailer(a) ensures x in TakenBy(s.phases, Reading, a) {
      assert PlaceOf(s.place, x) == WithFailer(a) && x in TakenBy(s.phases, s.reader, a);
    }
  }

  lemma ReaderMovesKept(s: Conn, reader: Reader)
    requires Kept(s) && !s.reader.Holding? && TakenBy(s.phases, s.reader, TheReader) == {}
    ensures Kept(s.(reader := reader))
  {
    forall x, a | PlaceOf(s.place, x) == WithFailer(a) ensures x in TakenBy(s.phases, reader, a) {
      assert PlaceOf(s.place, x) == WithFailer(a) && x in TakenBy(s.phases, s.reader, a);
    }
  }

  lemma LeaveKept(s: Conn, id: int, why: Reason)
    requires Tabled(s.table, s.place) && Kept(s) && PhaseOf(s.phases, id) == Leaving(why)
    ensures Kept(DoStep(s, id, 0))
  {
    var t := Drop(s, id);
    ReaderStillHolds(s.reader, s.place, id, Spent);
    forall x, a | PlaceOf(t.place, x) == WithFailer(a) ensures x in TakenBy(t.phases, t.reader, a) {
      assert PlaceOf(s.place, x) == WithFailer(a) && x in TakenBy(s.phases, s.reader, a);
    }
    MoveKept(t, id, if why.TimedOut? then Closing(ToClose) else Done(Ended(why)));
  }

  lemma StepKept(s: Conn, id: int, target: int)
    requires Tabled(s.table, s.place) && Kept(s)
    ensures Kept(DoStep(s, id, target))
  {
    var p := PhaseOf(s.phases, id);
    match p
    case Breaking(n, fail, why) =>
      if Finished(fail) {
        MoveKept(Unlock(s, n, Abandoned), id, Leaving(why));
      } else {
        CallerFailsKept(s, id, fail, target, p, Breaking(n, FailStep(s, Caller(id), fail, target).1, why));
      }
    case Leaving(why) => LeaveKept(s, id, why);
    case Closing(fail) =>
      if Finished(fail) {
        MoveKept(s, id, Done(Ended(TimedOut)));
      } else {
        CallerFailsKept(s, id, fail, target, p, Closing(FailStep(s, Caller(id), fail, target).1));
      }
    case _ =>
  }

  lemma ReaderStepKept(s: Conn, target: int)
    requires Tabled(s.table, s.place) && Kept(s)
    ensures Kept(DoReaderStep(s, target))
  {
    if s.reader.Holding? {
      AnswerKept(s, if s.reader.frame.headerOk then Response(s.reader.frame) else BadHeader);
    } else if s.reader.ReaderFailing? {
      if Finished(s.reader.fail) {
        ReaderMovesKept(s, Stopped);
      } else {
        ReaderFailsKept(s, s.reader.fail, target);
      }
    }
  }

  lemma WriteKept(payload: int -> Bytes, s: Conn, id: int, k: nat)
    requires Kept(s)
    ensures Kept(DoWrite(payload, s, id, k))
  {
    if PhaseOf(s.phases, id).Writing? {
      MoveKept(s, id, Writing(PhaseOf(s.phases, id).n + k));
      MoveKept(s, id, Awaiting);
    }
  }

  lemma DoKept(payload: int -> Bytes, s: Conn, a: Action)
    requires Tabled(s.table, s.place) && Kept(s)
    ensures Kept(Do(payload, s, a))
  {
    match a
    case Check(id) => if PhaseOf(s.phases, id).Fresh? { MoveKept(s, id, if s.closed then Done(Refused) else Checked); }
    case Register(id) => if PhaseOf(s.phases, id).Checked? { RegisterKept(s, id); }
    case Lock(id) => if PhaseOf(s.phases, id).Registered? { MoveKept(s.(writer := Some(id)), id, Writing(0)); }
    case Write(id, k) => WriteKept(payload, s, id, k);
    case WriteError(id) =>
      if PhaseOf(s.phases, id).Writing? { MoveKept(Unlock(s, PhaseOf(s.phases, id).n, Broken), id, Leaving(WriteFailed)); }
    case GiveUp(id, timedOut) =>
      var why := if timedOut then TimedOut else Cancelled;
      if PhaseOf(s.phases, id).Writing? {
        MoveKept(s, id, Breaking(PhaseOf(s.phases, id).n, ToClose, why));
      } else if Waits(PhaseOf(s.phases, id)) {
        MoveKept(s, id, Leaving(why));
      }
    case Receive(id, i) =>
      if PhaseOf(s.phases, id).Awaiting? && i < |s.log| { MoveKept(s, id, Done(Replied(s.log[i].1))); }
    case Step(id, target) => StepKept(s, id, target);
    case Arrive(frame) =>
      if s.reader.Reading? {
        ArriveKept(s, frame);
        ReaderMovesKept(s, ReaderFailing(ToClose));
      }
    case ReadError => if s.reader.Reading? { ReaderMovesKept(s, ReaderFailing(ToClose)); }
    case ReaderStep(target) => ReaderStepKept(s, target);
  }

  lemma {:induction false} RunKept(payload: int -> Bytes, actions: seq<Action>)
    ensures Kept(Run(payload, FRESH, actions))
  {
    if actions != [] {
      RunInv(payload, actions[..|actions| - 1]);
      RunKept(payload, actions[..|actions| - 1]);
      DoKept(payload, Run(payload, FRESH, actions[..|actions| - 1]), actions[|actions| - 1]);
    }
  }

  /** Under every interleaving a waiting request is in the table, or the reader holds its frame,
      or somebody is about to tell it that the connection is closed, or it was sent its reply. */
  lemma NoReplyIsLost(payload: int -> Bytes, actions: seq<Action>, id: int)
    requires Waits(PhaseOf(Run(payload, FRESH, actions).phases, id))
    ensures var s := Run(payload, FRESH, actions);
            || id in s.table
            || (s.reader.Holding? && s.reader.frame.id == id)
            || (exists a :: id in TakenBy(s.phases, s.reader, a))
            || IsSent(s.log, id)
  {
    RunInv(payload, actions);
    RunKept(payload, actions);
    var s := Run(payload, FRESH, actions);
    match PlaceOf(s.place, id)
    case WithFailer(a) => assert id in TakenBy(s.phases, s.reader, a);
    case _ =>
  }

  /** A reply that was sent is what the request that waits for it ends with. */
  lemma SentIsReceived(payload: int -> Bytes, s: Conn, id: int, i: nat)
    requires PhaseOf(s.phases, id).Awaiting? && i < |s.log| && s.log[i].0 == id
    ensures PhaseOf(Do(payload, s, Receive(id, i)).phases, id) == Done(Replied(s.log[i].1))
  {
  }

  // ---- the request that is left behind ------------------------------------------------

  /** Nobody who gave up is about to fail the others. */
  ghost predicate NoneFails(phases: map<int, Phase>) {
    forall x :: !PhaseOf(phases, x).Breaking? && !PhaseOf(phases, x).Closing? && PhaseOf(phases, x) != Leaving(TimedOut)
  }

  /** Sent, unanswered, and in a table that nobody reads for any more. */
  ghost predicate Stranded(s: Conn, id: int) {
    && PhaseOf(s.phases, id).Awaiting? && id in s.table && !IsSent(s.log, id)
    && s.reader.Stopped? && NoneFails(s.phases)
  }

  predicate NobodyGivesUp(actions: seq<Action>) {
    forall i :: 0 <= i < |actions| ==> !actions[i].GiveUp?
  }

  lemma NoneStartsToFail(payload: int -> Bytes, s: Conn, a: Action)
    requires NoneFails(s.phases) && !a.GiveUp?
    ensures NoneFails(Do(payload, s, a).phases)
  {
    var t := Do(payload, s, a);
    forall x ensures !PhaseOf(t.phases, x).Breaking? && !PhaseOf(t.phases, x).Closing? && PhaseOf(t.phases, x) != Leaving(TimedOut) {
      assert !PhaseOf(s.phases, x).Breaking? && !PhaseOf(s.phases, x).Closing? && PhaseOf(s.phases, x) != Leaving(TimedOut);
      if a.ReaderStep? {
        ReaderMovesNoOne(s, a.target);
      }
    }
  }

  /** As long as nobody gives up nothing ends such a request. */
  lemma {:induction false} StrandedForever(payload: int -> Bytes, s: Conn, actions: seq<Action>, id: int)
    requires Stranded(s, id) && NobodyGivesUp(actions)
    ensures Stranded(Run(payload, s, actions), id)
  {
    if actions != [] {
      var before, a := actions[..|actions| - 1], actions[|actions| - 1];
      var t := Run(payload, s, before);
      StrandedForever(payload, s, before, id);
      NoneStartsToFail(payload, t, a);
      StrandedStays(payload, t, a, id);
    }
  }

  lemma StrandedStays(payload: int -> Bytes, s: Conn, a: Action, id: int)
    requires Stranded(s, id) && !a.GiveUp?
    ensures var t := Do(payload, s, a);
            PhaseOf(t.phases, id).Awaiting? && id in t.table && t.log == s.log && t.reader.Stopped?
  {
    assert a.Step? ==> !PhaseOf(s.phases, a.id).Breaking? && !PhaseOf(s.phases, a.id).Closing?;
    assert a.Receive? && a.id == id ==> !(a.i < |s.log| && s.log[a.i].0 == id);
  }

  /** The reader's `fail_all` is past its first two steps. */
  predicate HasTaken(r: Reader) {
    r.Stopped? || (r.ReaderFailing? && r.fail.ToSend?)
  }

  /** What holds from then on of a request that was about to register, and of any other. */
  predicate AfterTaking(s: Conn, id: int, late: bool) {
    && s.closed && HasTaken(s.reader)
    && if late then !PhaseOf(s.phases, id).Fresh? && (Waits(PhaseOf(s.phases, id)) ==> id in s.table)
       else id !in s.table && !PhaseOf(s.phases, id).Checked?
  }

  lemma StaysAfterTaking(payload: int -> Bytes, s: Conn, a: Action, id: int, late: bool)
    requires AfterTaking(s, id, late) && NoneFails(s.phases) && !a.GiveUp?
    ensures AfterTaking(Do(payload, s, a), id, late)
  {
    assert a.Step? ==> !PhaseOf(s.phases, a.id).Breaking? && !PhaseOf(s.phases, a.id).Closing?;
    if a.ReaderStep? {
      ReaderMovesNoOne(s, a.target);
    }
  }

  lemma {:induction false} ReaderClosesFirst(payload: int -> Bytes, actions: seq<Action>)
    ensures var s := Run(payload, FRESH, actions); s.reader == ReaderFailing(ToTake) ==> s.closed
  {
    if actions != [] {
      var before, a := actions[..|actions| - 1], actions[|actions| - 1];
      ReaderClosesFirst(payload, before);
      DamageIsDone(payload, Run(payload, FRESH, before), a);
      if a.Step? {
        CallerSendsFailures(Run(payload, FRESH, before), a.id, a.target);
      }
    }
  }

  lemma {:induction false} AfterTakingEver(payload: int -> Bytes, before: seq<Action>, after: seq<Action>, id: int)
    requires var s := Run(payload, FRESH, before); s.reader == ReaderFailing(ToTake) && NoneFails(s.phases)
    requires NobodyGivesUp(after)
    ensures var t := Run(payload, FRESH, before + [ReaderStep(0)] + after);
            NoneFails(t.phases) && AfterTaking(t, id, PhaseOf(Run(payload, FRESH, before).phases, id).Checked?)
  {
    var s := Run(payload, FRESH, before);
    var all := before + [ReaderStep(0)] + after;
    if after == [] {
      assert all == before + [ReaderStep(0)];
      RunSnoc(payload, FRESH, before, ReaderStep(0));
      ReaderClosesFirst(payload, before);
      ReaderMovesNoOne(s, 0);
    } else {
      var init, a := after[..|after| - 1], after[|after| - 1];
      AfterTakingEver(payload, before, init, id);
      assert all == (before + [ReaderStep(0)] + init) + [a];
      RunSnoc(payload, FRESH, before + [ReaderStep(0)] + init, a);
      NoneStartsToFail(payload, Run(payload, FRESH, before + [ReaderStep(0)] + init), a);
      StaysAfterTaking(payload, Run(payload, FRESH, before + [ReaderStep(0)] + init), a, id, PhaseOf(s.phases, id).Checked?);
    }
  }

  /** With the reader gone and nobody failing, a waiting request was sent its reply exactly when it
      is not in the table. */
  lemma AnsweredOrInTable(payload: int -> Bytes, actions: seq<Action>, id: int)
    requires var s := Run(payload, FRESH, actions); s.reader.Stopped? && NoneFails(s.phases) && Waits(PhaseOf(s.phases, id))
    ensures var s := Run(payload, FRESH, actions); IsSent(s.log, id) <==> id !in s.table
  {
    var s := Run(payload, FRESH, actions);
    RunInv(payload, actions);
    if id !in s.table {
      NoReplyIsLost(payload, actions, id);
      NothingTaken(s);
    }
  }

  lemma NothingTaken(s: Conn)
    requires s.reader.Stopped? && NoneFails(s.phases)
    ensures forall a :: TakenBy(s.phases, s.reader, a) == {}
  {
    forall a ensures TakenBy(s.phases, s.reader, a) == {} {
      assert a.Caller? ==> !PhaseOf(s.phases, a.id).Breaking? && !PhaseOf(s.phases, a.id).Closing?;
    }
  }

  /** When the reader fails, everyone that waits is told so, except a request that had passed the
      closed-check and was not yet in the table when the reader took it: that one is written,
      waits, and is never told. */
  lemma StrandedIff(payload: int -> Bytes, before: seq<Action>, after: seq<Action>, id: int)
    requires var s := Run(payload, FRESH, before); s.reader == ReaderFailing(ToTake) && NoneFails(s.phases)
    requires NobodyGivesUp(after)
    requires var t := Run(payload, FRESH, before + [ReaderStep(0)] + after); t.reader.Stopped? && PhaseOf(t.phases, id).Awaiting?
    ensures var t := Run(payload, FRESH, before + [ReaderStep(0)] + after);
            && (Stranded(t, id) <==> PhaseOf(Run(payload, FRESH, before).phases, id).Checked?)
            && (!Stranded(t, id) ==> IsSent(t.log, id))
  {
    AfterTakingEver(payload, before, after, id);
    AnsweredOrInTable(payload, before + [ReaderStep(0)] + after, id);
  }

  /** The reader fails and finds no one to tell. */
  lemma ReaderGoes(payload: int -> Bytes, before: seq<Action>) returns (actions: seq<Action>)
    requires var s := Run(payload, FRESH, before); s.reader.Reading? && s.table == {} && s.place == map[]
    ensures Run(payload, FRESH, actions) == Run(payload, FRESH, before).(closed := true, reader := Stopped)
  {
    var s := Run(payload, FRESH, before);
    RunSnoc(payload, FRESH, before, ReadError);
    actions := before + [ReadError];
    assert Run(payload, FRESH, actions) == s.(reader := ReaderFailing(ToClose));
    RunSnoc(payload, FRESH, actions, ReaderStep(0));
    actions := actions + [ReaderStep(0)];
    assert Run(payload, FRESH, actions) == s.(closed := true, reader := ReaderFailing(ToTake));
    RunSnoc(payload, FRESH, actions, ReaderStep(0));
    actions := actions + [ReaderStep(0)];
    assert Moved(s.place, s.table, TheReader) == s.place;
    assert Run(payload, FRESH, actions) == s.(closed := true, reader := ReaderFailing(ToSend({})));
    RunSnoc(payload, FRESH, actions, ReaderStep(0));
    actions := actions + [ReaderStep(0)];
  }

  /** That happens: the request checks, the reader goes, and then the request registers and is
      written whole. */
  lemma StrandedRequest(payload: int -> Bytes, id: int) returns (actions: seq<Action>)
    ensures Stranded(Run(payload, FRESH, actions), id)
  {
    RunSnoc(payload, FRESH, [], Check(id));
    assert Run(payload, FRESH, []) == FRESH;
    actions := ReaderGoes(payload, [] + [Check(id)]);
    var s := Run(payload, FRESH, actions);
    assert s == FRESH.(phases := map[id := Checked], closed := true, reader := Stopped);
    RunSnoc(payload, FRESH, actions, Register(id));
    actions := actions + [Register(id)];
    RunSnoc(payload, FRESH, actions, Lock(id));
    actions := actions + [Lock(id)];
    RunSnoc(payload, FRESH, actions, Write(id, |Framed(payload(id))|));
    actions := actions + [Write(id, |Framed(payload(id))|)];
  }
}
