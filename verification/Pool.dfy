/** The pool of leased connections to one broker. Each function is what one section under the
    pool's lock does; between sections other callers may run theirs. */
module Pool {
  import opened Wrappers

  // ---- the sections -------------------------------------------------------------------

  datatype Pool = Pool(idle: seq<int>, outstanding: nat, peak: nat)

  const EMPTY := Pool([], 0, 0)

  function Popped(p: Pool): Pool {
    if p.idle == [] then p else p.(idle := p.idle[..|p.idle| - 1])
  }

  /** A checkout is counted once its connection is in hand. */
  function Counted(p: Pool): Pool {
    Pool(p.idle, p.outstanding + 1, Max(p.peak, p.outstanding + 1))
  }

  /** A released connection is kept while the pool holds fewer than its peak, and than allowed. */
  function Kept(p: Pool, conn: int, idleMax: nat): Pool {
    if |p.idle| < Min(p.peak, idleMax) then p.(idle := p.idle + [conn]) else p
  }

  function Dropped(p: Pool): Pool {
    p.(outstanding := Max(p.outstanding - 1, 0))
  }

  function Forgotten(p: Pool): Pool {
    p.(idle := [])
  }

  class BlockingPool {
    const idleMax: nat
    var idle: seq<int>
    var outstanding: nat
    var peak: nat

    constructor (idleMax: nat)
      ensures this.idleMax == idleMax && View() == EMPTY
    {
      this.idleMax := idleMax;
      idle, outstanding, peak := [], 0, 0;
    }

    ghost function View(): Pool
      reads this
    {
      Pool(idle, outstanding, peak)
    }

    /** The most recently released idle connection, or an error when there is none and the
        broker is unknown too. */
    method PopIdle(known: bool) returns (r: Result<Option<int>, ()>)
      modifies this
      ensures r.Err? <==> old(idle) == [] && !known
      ensures r.Ok? ==> r.value == if old(idle) == [] then None else Some(old(idle)[|old(idle)| - 1])
      ensures View() == Popped(old(View()))
    {
      if idle == [] {
        return if known then Ok(None) else Err(());
      }
      r := Ok(Some(idle[|idle| - 1]));
      idle := idle[..|idle| - 1];
    }

    method CountCheckout()
      modifies this
      ensures View() == Counted(old(View()))
    {
      outstanding := outstanding + 1;
      peak := if outstanding > peak then outstanding else peak;
    }

    method Keep(conn: int)
      modifies this
      ensures View() == Kept(old(View()), conn, idleMax)
    {
      if |idle| < (if peak < idleMax then peak else idleMax) {
        idle := idle + [conn];
      }
    }

    method DropLease()
      modifies this
      ensures View() == Dropped(old(View()))
    {
      outstanding := if outstanding == 0 then 0 else outstanding - 1;
    }

    method Forget()
      modifies this
      ensures View() == Forgotten(old(View()))
    {
      idle := [];
    }
  }

  // ---- callers and leases -------------------------------------------------------------

  /** A lease between its checkout and its drop; once released it no longer owns the connection. */
  datatype Lease = Lease(conn: int, released: bool)

  /** `inHand` are connections popped or dialed and not yet counted. */
  datatype World = World(pool: Pool, inHand: set<int>, leases: map<int, Lease>, dialed: nat, granted: nat)

  const START := World(EMPTY, {}, map[], 0, 0)

  datatype Action = Pop | Dial | Count(conn: int) | Release(l: int) | Drop(l: int) | Forget

  function Do(w: World, idleMax: nat, a: Action): World {
    match a
    case Pop =>
      if w.pool.idle == [] then w
      else w.(pool := Popped(w.pool), inHand := w.inHand + {w.pool.idle[|w.pool.idle| - 1]})
    case Dial => w.(inHand := w.inHand + {w.dialed}, dialed := w.dialed + 1)
    case Count(conn) =>
      if conn in w.inHand then
        World(Counted(w.pool), w.inHand - {conn}, w.leases[w.granted := Lease(conn, false)], w.dialed, w.granted + 1)
      else w
    case Release(l) =>
      if l in w.leases && !w.leases[l].released then
        w.(pool := Kept(w.pool, w.leases[l].conn, idleMax), leases := w.leases[l := w.leases[l].(released := true)])
      else w
    case Drop(l) => if l in w.leases then w.(pool := Dropped(w.pool), leases := w.leases - {l}) else w
    case Forget => w.(pool := Forgotten(w.pool))
  }

  function Run(idleMax: nat, actions: seq<Action>): World {
    if actions == [] then START else Do(Run(idleMax, actions[..|actions| - 1]), idleMax, actions[|actions| - 1])
  }

  // ---- what every interleaving keeps --------------------------------------------------

  predicate Tallied(pool: Pool, leases: map<int, Lease>, granted: nat, idleMax: nat) {
    && pool.outstanding == |leases| <= pool.peak
    && |pool.idle| <= Min(pool.peak, idleMax)
    && (forall l :: l in leases ==> l < granted)
  }

  ghost predicate OneOwner(idle: seq<int>, inHand: set<int>, leases: map<int, Lease>, dialed: nat) {
    && (forall i :: 0 <= i < |idle| ==> idle[i] < dialed && idle[i] !in inHand)
    && (forall i, j :: 0 <= i < j < |idle| ==> idle[i] != idle[j])
    && (forall c :: c in inHand ==> c < dialed)
    && (forall l :: l in leases && !leases[l].released ==> leases[l].conn < dialed && leases[l].conn !in inHand)
    && (forall l, i :: l in leases && !leases[l].released && 0 <= i < |idle| ==> idle[i] != leases[l].conn)
    && (forall l, k :: l in leases && k in leases && l != k && !leases[l].released && !leases[k].released ==> leases[l].conn != leases[k].conn)
  }

  ghost predicate Inv(w: World, idleMax: nat) {
    Tallied(w.pool, w.leases, w.granted, idleMax) && OneOwner(w.pool.idle, w.inHand, w.leases, w.dialed)
  }

  lemma TalliedCount(w: World, idleMax: nat, conn: int)
    requires Tallied(w.pool, w.leases, w.granted, idleMax) && conn in w.inHand
    ensures var t := Do(w, idleMax, Count(conn)); Tallied(t.pool, t.leases, t.granted, idleMax)
  {
    assert (w.leases[w.granted := Lease(conn, false)]).Keys == w.leases.Keys + {w.granted};
  }

  lemma TalliedRelease(w: World, idleMax: nat, l: int)
    requires Tallied(w.pool, w.leases, w.granted, idleMax) && l in w.leases
    ensures var t := Do(w, idleMax, Release(l)); Tallied(t.pool, t.leases, t.granted, idleMax)
  {
    assert (w.leases[l := w.leases[l].(released := true)]).Keys == w.leases.Keys;
  }

  lemma TalliedDrop(w: World, idleMax: nat, l: int)
    requires Tallied(w.pool, w.leases, w.granted, idleMax) && l in w.leases
    ensures var t := Do(w, idleMax, Drop(l)); Tallied(t.pool, t.leases, t.granted, idleMax)
  {
    assert (w.leases - {l}).Keys == w.leases.Keys - {l};
  }

  lemma TalliedStays(w: World, idleMax: nat, a: Action)
    requires Tallied(w.pool, w.leases, w.granted, idleMax)
    ensures var t := Do(w, idleMax, a); Tallied(t.pool, t.leases, t.granted, idleMax)
  {
    if a.Count? && a.conn in w.inHand {
      TalliedCount(w, idleMax, a.conn);
    } else if a.Release? && a.l in w.leases {
      TalliedRelease(w, idleMax, a.l);
    } else if a.Drop? && a.l in w.leases {
      TalliedDrop(w, idleMax, a.l);
    }
  }

  lemma OwnersAfterCount(w: World, idleMax: nat, conn: int)
    requires OneOwner(w.pool.idle, w.inHand, w.leases, w.dialed) && conn in w.inHand && forall l :: l in w.leases ==> l < w.granted
    ensures var t := Do(w, idleMax, Count(conn)); OneOwner(t.pool.idle, t.inHand, t.leases, t.dialed)
  {
  }

  lemma OwnersAfterRelease(w: World, idleMax: nat, l: int)
    requires OneOwner(w.pool.idle, w.inHand, w.leases, w.dialed) && l in w.leases && !w.leases[l].released
    ensures var t := Do(w, idleMax, Release(l)); OneOwner(t.pool.idle, t.inHand, t.leases, t.dialed)
  {
  }

  lemma OwnersAfterPop(w: World, idleMax: nat)
    requires OneOwner(w.pool.idle, w.inHand, w.leases, w.dialed)
    ensures var t := Do(w, idleMax, Pop); OneOwner(t.pool.idle, t.inHand, t.leases, t.dialed)
  {
  }

  lemma OwnersStay(w: World, idleMax: nat, a: Action)
    requires OneOwner(w.pool.idle, w.inHand, w.leases, w.dialed) && forall l :: l in w.leases ==> l < w.granted
    ensures var t := Do(w, idleMax, a); OneOwner(t.pool.idle, t.inHand, t.leases, t.dialed)
  {
    if a.Pop? {
      OwnersAfterPop(w, idleMax);
    } else if a.Count? && a.conn in w.inHand {
      OwnersAfterCount(w, idleMax, a.conn);
    } else if a.Release? && a.l in w.leases && !w.leases[a.l].released {
      OwnersAfterRelease(w, idleMax, a.l);
    }
  }

  lemma {:induction false} RunInv(idleMax: nat, actions: seq<Action>)
    ensures Inv(Run(idleMax, actions), idleMax)
  {
    if actions != [] {
      var w := Run(idleMax, actions[..|actions| - 1]);
      RunInv(idleMax, actions[..|actions| - 1]);
      TalliedStays(w, idleMax, actions[|actions| - 1]);
      OwnersStay(w, idleMax, actions[|actions| - 1]);
    }
  }

  /** However checkouts, failed dials, releases, drops and forgets interleave: `outstanding` is
      the number of leases not yet dropped, so dropping one never saturates; it and the idle
      connections stay within the peak; and no connection is idle while an unreleased lease
      owns it, nor owned twice. */
  lemma PoolAccounts(idleMax: nat, actions: seq<Action>)
    ensures var w := Run(idleMax, actions);
            && w.pool.outstanding == |w.leases| <= w.pool.peak
            && |w.pool.idle| <= Min(w.pool.peak, idleMax)
            && (forall l :: l in w.leases ==> Dropped(w.pool).outstanding + 1 == w.pool.outstanding)
            && (forall l, i :: l in w.leases && !w.leases[l].released && 0 <= i < |w.pool.idle| ==> w.pool.idle[i] != w.leases[l].conn)
            && (forall l, k :: l in w.leases && k in w.leases && l != k && !w.leases[l].released && !w.leases[k].released ==>
                  w.leases[l].conn != w.leases[k].conn)
  {
    RunInv(idleMax, actions);
    var w := Run(idleMax, actions);
    forall l | l in w.leases ensures Dropped(w.pool).outstanding + 1 == w.pool.outstanding {
      assert l in w.leases.Keys;
    }
  }

  /** A connection given back while the pool holds fewer than its peak, and than allowed, is the
      next to be handed out; otherwise the idle ones stay as they are. */
  lemma ReturnedIsNextOut(w: World, idleMax: nat, l: int)
    requires l in w.leases && !w.leases[l].released
    ensures var t := Do(w, idleMax, Release(l));
            if |w.pool.idle| < w.pool.peak && |w.pool.idle| < idleMax then
              var u := Do(t, idleMax, Pop);
              u.inHand == w.inHand + {w.leases[l].conn} && u.pool == w.pool
            else t.pool == w.pool
  {
    assert (w.pool.idle + [w.leases[l].conn])[..|w.pool.idle|] == w.pool.idle;
  }

  /** Nobody has the connection, and nobody can get it any more. */
  ghost predicate Gone(w: World, conn: int) {
    && conn < w.dialed && conn !in w.inHand && conn !in w.pool.idle
    && forall l :: l in w.leases && !w.leases[l].released ==> w.leases[l].conn != conn
  }

  lemma GoneStays(w: World, idleMax: nat, a: Action, conn: int)
    requires Gone(w, conn)
    ensures Gone(Do(w, idleMax, a), conn)
  {
  }

  /** A connection that was idle when its broker was forgotten is never handed out again, however
      the callers interleave from there. */
  lemma {:induction false} ForgottenNeverReturns(idleMax: nat, before: seq<Action>, after: seq<Action>, conn: int)
    requires conn in Run(idleMax, before).pool.idle
    ensures Gone(Run(idleMax, before + [Forget] + after), conn)
  {
    var all := before + [Forget] + after;
    if after == [] {
      RunInv(idleMax, before);
      RunSnoc(idleMax, before, Forget);
      assert all == before + [Forget];
    } else {
      ForgottenNeverReturns(idleMax, before, after[..|after| - 1], conn);
      assert all[..|all| - 1] == before + [Forget] + after[..|after| - 1];
      GoneStays(Run(idleMax, all[..|all| - 1]), idleMax, all[|all| - 1], conn);
    }
  }

  // ---- the bound the peak is meant to be ----------------------------------------------

  /** The accounts: idle connections and leases together. */
  predicate Within(p: Pool) {
    |p.idle| + p.outstanding <= p.peak
  }

  /** What a caller would have to check before a section for the accounts to stay within: that a
      connection counted, or a connection kept, is not one too many. */
  predicate Calm(w: World, idleMax: nat, a: Action) {
    match a
    case Count(conn) => conn !in w.inHand || w.pool.idle == [] || |w.pool.idle| + w.pool.outstanding < w.pool.peak
    case Release(l) =>
      l !in w.leases || w.leases[l].released || idleMax <= |w.pool.idle| || |w.pool.idle| + w.pool.outstanding < w.pool.peak
    case _ => true
  }

  lemma StaysWithinIffCalm(w: World, idleMax: nat, a: Action)
    requires Inv(w, idleMax) && Within(w.pool)
    ensures Within(Do(w, idleMax, a).pool) <==> Calm(w, idleMax, a)
  {
    if a.Release? && a.l in w.leases {
      assert a.l in w.leases.Keys;
    }
  }

  predicate AlwaysWithin(idleMax: nat, actions: seq<Action>) {
    Within(Run(idleMax, actions).pool) && (actions == [] || AlwaysWithin(idleMax, actions[..|actions| - 1]))
  }

  predicate AllCalm(idleMax: nat, actions: seq<Action>) {
    actions == [] ||
    (AllCalm(idleMax, actions[..|actions| - 1]) && Calm(Run(idleMax, actions[..|actions| - 1]), idleMax, actions[|actions| - 1]))
  }

  /** Over every interleaving: the accounts never pass the peak if and only if every section
      found what it would have had to check. */
  lemma {:induction false} AlwaysWithinIffAllCalm(idleMax: nat, actions: seq<Action>)
    ensures AlwaysWithin(idleMax, actions) <==> AllCalm(idleMax, actions)
  {
    if actions != [] {
      var before := actions[..|actions| - 1];
      AlwaysWithinIffAllCalm(idleMax, before);
      RunInv(idleMax, before);
      if AllCalm(idleMax, before) {
        assert Within(Run(idleMax, before).pool);
        StaysWithinIffCalm(Run(idleMax, before), idleMax, actions[|actions| - 1]);
      }
    }
  }

  // ---- connections rather than accounts -----------------------------------------------

  /** Between its release and its drop a lease is still on the accounts, although its connection
      may be idle already. */
  function Owning(leases: map<int, Lease>): set<int> {
    set l | l in leases && !leases[l].released
  }

  /** The connections the pool and its leases hold open. */
  function Sockets(w: World): nat {
    |w.pool.idle| + |Owning(w.leases)|
  }

  lemma OwningAfterCount(w: World, idleMax: nat, conn: int)
    requires Tallied(w.pool, w.leases, w.granted, idleMax) && conn in w.inHand
    ensures |Owning(Do(w, idleMax, Count(conn)).leases)| == |Owning(w.leases)| + 1
  {
    assert Owning(Do(w, idleMax, Count(conn)).leases) == Owning(w.leases) + {w.granted};
  }

  lemma OwningAfterEnd(w: World, idleMax: nat, a: Action)
    requires (a.Release? || a.Drop?) && a.l in w.leases && !w.leases[a.l].released
    ensures |Owning(Do(w, idleMax, a).leases)| == |Owning(w.leases)| - 1
  {
    assert Owning(Do(w, idleMax, a).leases) == Owning(w.leases) - {a.l};
  }

  lemma OwningAfterDrop(w: World, idleMax: nat, l: int)
    requires l in w.leases && w.leases[l].released
    ensures Owning(Do(w, idleMax, Drop(l)).leases) == Owning(w.leases)
  {
  }

  /** A checkout is counted while connections are at the peak and leases are not: one was
      released since this caller found nothing idle. */
  predicate Overtaken(w: World, a: Action) {
    a.Count? && a.conn in w.inHand && Sockets(w) == w.pool.peak && w.pool.outstanding < w.pool.peak
  }

  lemma SocketsStayWithinIff(w: World, idleMax: nat, a: Action)
    requires Inv(w, idleMax) && Sockets(w) <= w.pool.peak
    ensures var t := Do(w, idleMax, a); Sockets(t) <= t.pool.peak <==> !Overtaken(w, a)
  {
    if a.Count? && a.conn in w.inHand {
      OwningAfterCount(w, idleMax, a.conn);
    } else if (a.Release? || a.Drop?) && a.l in w.leases && !w.leases[a.l].released {
      OwningAfterEnd(w, idleMax, a);
    } else if a.Drop? && a.l in w.leases {
      OwningAfterDrop(w, idleMax, a.l);
    }
  }

  predicate SocketsAlwaysWithin(idleMax: nat, actions: seq<Action>) {
    var w := Run(idleMax, actions);
    Sockets(w) <= w.pool.peak && (actions == [] || SocketsAlwaysWithin(idleMax, actions[..|actions| - 1]))
  }

  predicate NeverOvertaken(idleMax: nat, actions: seq<Action>) {
    actions == [] ||
    (NeverOvertaken(idleMax, actions[..|actions| - 1]) && !Overtaken(Run(idleMax, actions[..|actions| - 1]), actions[|actions| - 1]))
  }

  /** Over every interleaving: a pool never holds more connections than its peak if and only if
      no checkout was overtaken. */
  lemma {:induction false} PeakBoundsSocketsIff(idleMax: nat, actions: seq<Action>)
    ensures SocketsAlwaysWithin(idleMax, actions) <==> NeverOvertaken(idleMax, actions)
  {
    if actions == [] {
      assert Owning(START.leases) == {};
    } else {
      var before := actions[..|actions| - 1];
      PeakBoundsSocketsIff(idleMax, before);
      RunInv(idleMax, before);
      if NeverOvertaken(idleMax, before) {
        SocketsStayWithinIff(Run(idleMax, before), idleMax, actions[|actions| - 1]);
      }
    }
  }

  // ---- one caller at a time -----------------------------------------------------------

  /** Whole operations, each finished before the next begins. An abandoned checkout was given up
      while its connection was in hand. */
  datatype Operation = Checkout | Abandon | Return(l: int) | Discard(l: int) | ForgetAll

  /** The sections an operation consists of when nobody interrupts it. */
  function Steps(w: World, op: Operation): seq<Action> {
    match op
    case Checkout =>
      if w.pool.idle == [] then [Dial, Count(w.dialed)] else [Pop, Count(w.pool.idle[|w.pool.idle| - 1])]
    case Abandon => if w.pool.idle == [] then [Dial] else [Pop]
    case Return(l) => [Release(l), Drop(l)]
    case Discard(l) => [Drop(l)]
    case ForgetAll => [Forget]
  }

  function Sections(idleMax: nat, ops: seq<Operation>): seq<Action> {
    if ops == [] then []
    else
      var before := Sections(idleMax, ops[..|ops| - 1]);
      before + Steps(Run(idleMax, before), ops[|ops| - 1])
  }

  lemma RunSnoc(idleMax: nat, actions: seq<Action>, a: Action)
    ensures Run(idleMax, actions + [a]) == Do(Run(idleMax, actions), idleMax, a)
  {
    assert (actions + [a])[..|actions|] == actions;
  }

  lemma RunSteps(idleMax: nat, actions: seq<Action>, op: Operation)
    ensures var w := Run(idleMax, actions);
            var steps := Steps(w, op);
            var t := Run(idleMax, actions + steps);
            t == if |steps| == 1 then Do(w, idleMax, steps[0]) else Do(Do(w, idleMax, steps[0]), idleMax, steps[1])
  {
    var steps := Steps(Run(idleMax, actions), op);
    RunSnoc(idleMax, actions, steps[0]);
    if |steps| == 1 {
      assert steps == [steps[0]];
    } else {
      assert actions + steps == (actions + [steps[0]]) + [steps[1]];
      RunSnoc(idleMax, actions + [steps[0]], steps[1]);
    }
  }

  lemma CheckoutStaysWithin(w: World, idleMax: nat)
    requires Inv(w, idleMax) && Within(w.pool)
    ensures var steps := Steps(w, Checkout); Within(Do(Do(w, idleMax, steps[0]), idleMax, steps[1]).pool)
  {
    var first := Steps(w, Checkout)[0];
    TalliedStays(w, idleMax, first);
    OwnersStay(w, idleMax, first);
    StaysWithinIffCalm(Do(w, idleMax, first), idleMax, Steps(w, Checkout)[1]);
  }

  lemma ReturnStaysWithin(w: World, idleMax: nat, l: int)
    requires Tallied(w.pool, w.leases, w.granted, idleMax) && Within(w.pool)
    ensures Within(Do(Do(w, idleMax, Release(l)), idleMax, Drop(l)).pool)
  {
    if l in w.leases {
      assert l in w.leases.Keys;
      assert l in Do(w, idleMax, Release(l)).leases;
    }
  }

  /** Used by one caller at a time, a pool never has more connections, idle and leased, than it
      ever had leased at once. */
  lemma {:induction false} SequentialPoolNeverOvershoots(idleMax: nat, ops: seq<Operation>)
    ensures Within(Run(idleMax, Sections(idleMax, ops)).pool)
  {
    if ops != [] {
      var before, op := Sections(idleMax, ops[..|ops| - 1]), ops[|ops| - 1];
      var w := Run(idleMax, before);
      SequentialPoolNeverOvershoots(idleMax, ops[..|ops| - 1]);
      RunInv(idleMax, before);
      RunSteps(idleMax, before, op);
      if op.Checkout? {
        CheckoutStaysWithin(w, idleMax);
      } else if op.Return? {
        ReturnStaysWithin(w, idleMax, op.l);
      } else {
        StaysWithinIffCalm(w, idleMax, Steps(w, op)[0]);
      }
    }
  }

  /** Used concurrently it may: a caller finds nothing idle and dials; meanwhile the only lease
      comes back and is kept; then the dialed connection is counted. */
  lemma ConcurrentPoolMayOvershoot() returns (actions: seq<Action>)
    ensures var w := Run(1, actions); |w.pool.idle| + w.pool.outstanding == 2 && w.pool.peak == 1
  {
    RunSnoc(1, [], Dial);
    actions := [] + [Dial];
    RunSnoc(1, actions, Count(0));
    actions := actions + [Count(0)];
    assert Run(1, actions) == World(Pool([], 1, 1), {}, map[0 := Lease(0, false)], 1, 1);
    RunSnoc(1, actions, Dial);
    actions := actions + [Dial];
    RunSnoc(1, actions, Release(0));
    actions := actions + [Release(0)];
    assert Run(1, actions).pool == Pool([0], 1, 1);
    RunSnoc(1, actions, Drop(0));
    actions := actions + [Drop(0)];
    RunSnoc(1, actions, Count(1));
    actions := actions + [Count(1)];
  }
}
