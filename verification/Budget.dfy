/** The decode budget: every growth of every collection is charged before it is made. */
module Budget {
  import opened Wrappers

  // ---- saturating arithmetic ----------------------------------------------------------

  function SatAdd(a: nat, b: nat): nat {
    Min(a + b, U64_MAX)
  }

  function SatSub(a: nat, b: nat): nat {
    Max(a - b, 0)
  }

  function SatMul(a: nat, b: nat): nat {
    Min(a * b, U64_MAX)
  }

  // ---- limits -------------------------------------------------------------------------

  datatype Limits = Limits(allocFactor: nat, minAllocBytes: nat, maxAllocBytes: nat) {

    /** The budget for an input of `inputLen` bytes: never above the ceiling, and at or above the
        floor and the scaled input as far as the ceiling lets it. */
    function AllocBytesFor(inputLen: nat): (bytes: nat)
      requires allocFactor <= U64_MAX && minAllocBytes <= U64_MAX && maxAllocBytes <= U64_MAX
      ensures bytes <= maxAllocBytes
      ensures bytes == maxAllocBytes || (bytes >= minAllocBytes && bytes >= inputLen * allocFactor)
      ensures bytes <= minAllocBytes || bytes <= inputLen * allocFactor
    {
      Min(Max(SatMul(inputLen, allocFactor), minAllocBytes), maxAllocBytes)
    }
  }

  lemma LargerInputsMayAllocateMore(l: Limits, a: nat, b: nat)
    requires a <= b && l.allocFactor <= U64_MAX && l.minAllocBytes <= U64_MAX && l.maxAllocBytes <= U64_MAX
    ensures l.AllocBytesFor(a) <= l.AllocBytesFor(b)
  {
    assert a * l.allocFactor <= b * l.allocFactor by {
      assert (b - a) * l.allocFactor >= 0;
    }
  }

  function FirstCapacity(elem: nat): nat {
    if elem == 1 then 8 else if elem <= 1024 then 4 else 1
  }

  // ---- one push -----------------------------------------------------------------------

  datatype BudgetError = AllocationLimit(wanted: nat) | AllocationFailed | NoProgress

  /** A growable vector as the budget sees it: elements of `elem` bytes, room for `capacity`. */
  datatype Shape = Shape(elem: nat, len: nat, capacity: nat) {
    function Bytes(): nat {
      capacity * elem
    }

    function Target(): nat {
      if capacity == 0 then FirstCapacity(elem) else SatMul(capacity, 2)
    }

    /** What a regrowth frees and what it takes. */
    function OldBytes(): nat {
      SatMul(capacity, elem)
    }

    function NewBytes(): nat {
      SatMul(Target(), elem)
    }

    predicate Full() {
      len == capacity && elem > 0
    }
  }

  /** What the allocator answers when asked for exactly `Target()` elements. */
  datatype Allocation = Granted(capacity: nat) | Denied

  /** It may hand out more than it was asked for, though never more than memory can hold. */
  predicate Possible(v: Shape, a: Allocation) {
    a.Granted? ==> a.capacity >= v.Target() && a.capacity * v.elem <= I64_MAX
  }

  predicate Exact(v: Shape, a: Allocation) {
    a.Granted? ==> a.capacity == v.Target()
  }

  /** Used bytes after charging a regrowth that is allowed. */
  function Charged(used: nat, v: Shape): nat {
    SatSub(SatAdd(used, v.NewBytes()), v.OldBytes())
  }

  predicate GrowthRefused(limit: nat, used: nat, v: Shape) {
    SatAdd(used, v.NewBytes()) > limit
  }

  /** What settling the charge against what the allocator did would come to. */
  function Settled(used: nat, v: Shape, capacity: nat): nat {
    SatSub(SatAdd(Charged(used, v), SatMul(capacity, v.elem)), v.NewBytes())
  }

  predicate SettleRefused(limit: nat, used: nat, v: Shape, capacity: nat) {
    SatMul(capacity, v.elem) != v.NewBytes() && Settled(used, v, capacity) > limit
  }

  datatype Pushed = Pushed(used: nat, shape: Shape, result: Result<(), BudgetError>)

  function Push(limit: nat, used: nat, v: Shape, a: Allocation): Pushed {
    if !v.Full() then Pushed(used, v.(len := v.len + 1), Ok(()))
    else if GrowthRefused(limit, used, v) then Pushed(used, v, Err(AllocationLimit(SatAdd(used, v.NewBytes()))))
    else if a.Denied? then Pushed(Charged(used, v), v, Err(AllocationFailed))
    else if SettleRefused(limit, used, v, a.capacity) then
      Pushed(Charged(used, v), v.(capacity := a.capacity), Err(AllocationLimit(Settled(used, v, a.capacity))))
    else
      Pushed(if SatMul(a.capacity, v.elem) == v.NewBytes() then Charged(used, v) else Settled(used, v, a.capacity),
             Shape(v.elem, v.len + 1, a.capacity), Ok(()))
  }

  // ---- the objects --------------------------------------------------------------------

  class Vec {
    const elem: nat
    var items: seq<int>
    var capacity: nat

    constructor (elem: nat)
      ensures this.elem == elem && View() == Shape(elem, 0, 0) && items == []
    {
      this.elem := elem;
      items := [];
      capacity := 0;
    }

    ghost function View(): Shape
      reads this
    {
      Shape(elem, |items|, capacity)
    }
  }

  class Budget {
    const limit: nat
    var used: nat

    constructor (maxAllocBytes: nat)
      ensures limit == maxAllocBytes && used == 0
    {
      limit := maxAllocBytes;
      used := 0;
    }

    method Check(wanted: nat) returns (r: Result<(), BudgetError>)
      ensures r == if wanted > limit then Err(AllocationLimit(wanted)) else Ok(())
    {
      if wanted > limit {
        return Err(AllocationLimit(wanted));
      }
      r := Ok(());
    }

    method Charge(bytes: nat) returns (r: Result<(), BudgetError>)
      modifies this
      ensures r.Ok? <==> SatAdd(old(used), bytes) <= limit
      ensures used == if r.Ok? then SatAdd(old(used), bytes) else old(used)
    {
      var total := SatAdd(used, bytes);
      var _ :- Check(total);
      used := total;
      r := Ok(());
    }

    method Release(bytes: nat)
      modifies this
      ensures used == SatSub(old(used), bytes)
    {
      used := SatSub(used, bytes);
    }

    /** Charge a regrowth; both blocks exist while the elements move. */
    method Grow(oldBytes: nat, newBytes: nat) returns (r: Result<(), BudgetError>)
      modifies this
      ensures r == if SatAdd(old(used), newBytes) > limit then Err(AllocationLimit(SatAdd(old(used), newBytes))) else Ok(())
      ensures used == if r.Ok? then SatSub(SatAdd(old(used), newBytes), oldBytes) else old(used)
    {
      var peak := SatAdd(used, newBytes);
      var _ :- Check(peak);
      used := SatSub(peak, oldBytes);
      r := Ok(());
    }

    method Settle(charged: nat, actual: nat) returns (r: Result<(), BudgetError>)
      modifies this
      ensures var total := SatSub(SatAdd(old(used), actual), charged);
              && r == (if actual == charged || total <= limit then Ok(()) else Err(AllocationLimit(total)))
              && used == (if actual == charged || r.Err? then old(used) else total)
    {
      if actual == charged {
        return Ok(());
      }
      var total := SatSub(SatAdd(used, actual), charged);
      var _ :- Check(total);
      used := total;
      r := Ok(());
    }

    /** One growth of a full vector, as the allocator answers it: what `Push` says of that case. */
    method GrowFor(items: Vec, a: Allocation) returns (r: Result<(), BudgetError>)
      requires items.View().Full() && Possible(items.View(), a)
      modifies this, items`capacity
      ensures var p := Push(limit, old(used), old(items.View()), a);
              && used == p.used && items.capacity == p.shape.capacity && r == p.result
    {
      var elem := items.elem;
      var grown := items.capacity;
      var target := if grown == 0 then FirstCapacity(elem) else SatMul(grown, 2);
      var newBytes := SatMul(target, elem);
      var _ :- Grow(SatMul(grown, elem), newBytes);
      if a.Denied? {
        return Err(AllocationFailed);
      }
      items.capacity := a.capacity;
      r := Settle(newBytes, SatMul(items.capacity, elem));
    }

    /** Push `value`, growing first when there is no room. */
    method PushOnto(items: Vec, value: int, a: Allocation) returns (r: Result<(), BudgetError>)
      requires Possible(items.View(), a)
      modifies this, items
      ensures var p := Push(limit, old(used), old(items.View()), a);
              && used == p.used && items.View() == p.shape && r == p.result
      ensures items.items == if r.Ok? then old(items.items) + [value] else old(items.items)
    {
      if |items.items| == items.capacity && items.elem > 0 {
        var _ :- GrowFor(items, a);
      }
      items.items := items.items + [value];
      r := Ok(());
    }

    /** An element has to consume input. */
    method Progress(before: nat, after: nat) returns (r: Result<(), BudgetError>)
      ensures r.Ok? <==> after < before
      ensures r.Err? ==> r.error == NoProgress
    {
      if after >= before {
        return Err(NoProgress);
      }
      r := Ok(());
    }
  }

  // ---- many vectors, one budget -------------------------------------------------------

  datatype Heap = Heap(used: nat, vecs: seq<Shape>)

  datatype Op = New(elem: nat) | PushTo(i: nat, a: Allocation) | Discard(i: nat)

  function Apply(limit: nat, h: Heap, op: Op): Heap {
    match op
    case New(elem) => h.(vecs := h.vecs + [Shape(elem, 0, 0)])
    case PushTo(i, a) =>
      if i < |h.vecs| then
        var p := Push(limit, h.used, h.vecs[i], a);
        Heap(p.used, h.vecs[i := p.shape])
      else h
    case Discard(i) => if i < |h.vecs| then h.(vecs := h.vecs[i := Shape(h.vecs[i].elem, 0, 0)]) else h
  }

  function ApplyAll(limit: nat, ops: seq<Op>): Heap {
    if ops == [] then Heap(0, []) else Apply(limit, ApplyAll(limit, ops[..|ops| - 1]), ops[|ops| - 1])
  }

  function Live(vecs: seq<Shape>): nat {
    if vecs == [] then 0 else Live(vecs[..|vecs| - 1]) + vecs[|vecs| - 1].Bytes()
  }

  lemma {:induction false} LiveUpdates(vecs: seq<Shape>, i: nat, v: Shape)
    requires i < |vecs|
    ensures Live(vecs[i := v]) == Live(vecs) - vecs[i].Bytes() + v.Bytes()
    ensures vecs[i].Bytes() <= Live(vecs)
  {
    var last := |vecs| - 1;
    if i < last {
      LiveUpdates(vecs[..last], i, v);
      assert vecs[i := v][..last] == vecs[..last][i := v];
    } else {
      assert vecs[i := v][..last] == vecs[..last];
    }
  }

  predicate Within(limit: nat, h: Heap) {
    Live(h.vecs) <= h.used <= limit
  }

  /** An allowed growth: nothing saturates, and both blocks fitted beside everything live. */
  lemma GrowthFits(limit: nat, used: nat, v: Shape)
    requires limit < U64_MAX && !GrowthRefused(limit, used, v) && v.Bytes() <= used
    ensures v.NewBytes() == v.Target() * v.elem && v.OldBytes() == v.Bytes()
    ensures used + v.NewBytes() <= limit && Charged(used, v) == used + v.NewBytes() - v.Bytes()
  {
  }

  /** No saturation lets a push through, nor keeps one out: a full vector is given twice its room,
      or its first, if and only if the new block fits beside everything charged. */
  lemma FullPushFitsIff(limit: nat, used: nat, v: Shape, a: Allocation)
    requires limit < U64_MAX && v.Full() && v.Bytes() <= used && a == Granted(v.Target())
    ensures var room := if v.capacity == 0 then (if v.elem == 1 then 8 else if v.elem <= 1024 then 4 else 1) else 2 * v.capacity;
            var p := Push(limit, used, v, a);
            && (p.result.Ok? <==> used + room * v.elem <= limit)
            && (p.result.Ok? ==> p.shape == Shape(v.elem, v.len + 1, room) && p.used == used + room * v.elem - v.capacity * v.elem)
  {
    if v.capacity > 0 {
      TwiceAsMuch(v.capacity, v.elem);
    }
    if !GrowthRefused(limit, used, v) {
      GrowthFits(limit, used, v);
    }
  }

  lemma TwiceAsMuch(capacity: nat, elem: nat)
    requires elem > 0
    ensures SatMul(SatMul(capacity, 2), elem) == Min(2 * capacity * elem, U64_MAX)
  {
    if 2 * capacity > U64_MAX {
      assert 2 * capacity * elem >= 2 * capacity && U64_MAX * elem >= U64_MAX;
    }
  }

  /** Every regrowth a budget allows fits the old block and the new one together, next to all
      other live blocks, under the limit. */
  lemma RegrowthFitsBothBlocks(limit: nat, h: Heap, i: nat)
    requires limit < U64_MAX && Within(limit, h) && i < |h.vecs| && !GrowthRefused(limit, h.used, h.vecs[i])
    ensures Live(h.vecs) + h.vecs[i].NewBytes() <= limit
  {
    LiveUpdates(h.vecs, i, h.vecs[i]);
    GrowthFits(limit, h.used, h.vecs[i]);
  }

  /** A push the budget refuses before allocating leaves vector and budget as they were. */
  lemma RefusedPushChangesNothing(limit: nat, h: Heap, i: nat, a: Allocation)
    requires i < |h.vecs| && h.vecs[i].Full() && GrowthRefused(limit, h.used, h.vecs[i])
    ensures Apply(limit, h, PushTo(i, a)) == h && Push(limit, h.used, h.vecs[i], a).result.Err?
  {
    assert h.vecs[i := h.vecs[i]] == h.vecs;
  }

  lemma RoomyPushKeeps(limit: nat, h: Heap, i: nat, a: Allocation)
    requires Within(limit, h) && i < |h.vecs| && !h.vecs[i].Full()
    ensures Within(limit, Apply(limit, h, PushTo(i, a)))
  {
    var v := h.vecs[i];
    var w := v.(len := v.len + 1);
    LiveUpdates(h.vecs, i, w);
    assert v.Bytes() == w.Bytes();
  }

  lemma DeniedPushKeeps(limit: nat, h: Heap, i: nat)
    requires limit < U64_MAX && Within(limit, h) && i < |h.vecs| && h.vecs[i].Full() && !GrowthRefused(limit, h.used, h.vecs[i])
    ensures Within(limit, Apply(limit, h, PushTo(i, Denied)))
  {
    var v := h.vecs[i];
    assert h.vecs[i := v] == h.vecs;
    LiveUpdates(h.vecs, i, v);
    GrowthFits(limit, h.used, v);
    MoreIsMore(v.capacity, v.Target(), v.elem);
  }

  lemma MoreIsMore(a: nat, b: nat, elem: nat)
    requires a <= b
    ensures a * elem <= b * elem
  {
    assert (b - a) * elem >= 0;
  }

  lemma PlainPushKeeps(limit: nat, h: Heap, i: nat, a: Allocation)
    requires limit < U64_MAX && Within(limit, h) && i < |h.vecs|
    requires !h.vecs[i].Full() || GrowthRefused(limit, h.used, h.vecs[i]) || a.Denied?
    ensures Within(limit, Apply(limit, h, PushTo(i, a)))
  {
    if !h.vecs[i].Full() {
      RoomyPushKeeps(limit, h, i, a);
    } else if GrowthRefused(limit, h.used, h.vecs[i]) {
      RefusedPushChangesNothing(limit, h, i, a);
    } else {
      DeniedPushKeeps(limit, h, i);
    }
  }

  /** After an allowed growth the bound holds if the charge was settled; and if settling was
      refused, exactly when the surplus fits in what the budget had over-counted before. */
  lemma GrowthKeepsIffSettled(limit: nat, h: Heap, i: nat, a: Allocation)
    requires limit < U64_MAX && Within(limit, h) && i < |h.vecs| && Possible(h.vecs[i], a)
    requires h.vecs[i].Full() && !GrowthRefused(limit, h.used, h.vecs[i]) && a.Granted? && limit <= I64_MAX
    ensures var v := h.vecs[i];
            Within(limit, Apply(limit, h, PushTo(i, a))) <==>
              !SettleRefused(limit, h.used, v, a.capacity)
              || Live(h.vecs) + a.capacity * v.elem <= h.used + v.NewBytes()
  {
    var v := h.vecs[i];
    var p := Push(limit, h.used, v, a);
    LiveUpdates(h.vecs, i, p.shape);
    GrowthFits(limit, h.used, v);
    assert p.shape.Bytes() == a.capacity * v.elem;
    assert SatMul(a.capacity, v.elem) == a.capacity * v.elem;
  }

  predicate PossibleOp(h: Heap, op: Op) {
    op.PushTo? && op.i < |h.vecs| ==> Possible(h.vecs[op.i], op.a)
  }

  predicate AllPossible(limit: nat, ops: seq<Op>) {
    ops == [] || (AllPossible(limit, ops[..|ops| - 1]) && PossibleOp(ApplyAll(limit, ops[..|ops| - 1]), ops[|ops| - 1]))
  }

  /** A growth whose settling is refused, and whose surplus is more than had been over-counted. */
  predicate Overruns(limit: nat, h: Heap, op: Op) {
    op.PushTo? && op.i < |h.vecs| &&
    (var v := h.vecs[op.i];
     && v.Full() && !GrowthRefused(limit, h.used, v) && op.a.Granted?
     && SettleRefused(limit, h.used, v, op.a.capacity)
     && Live(h.vecs) + op.a.capacity * v.elem > h.used + v.NewBytes())
  }

  lemma ApplyKeepsIff(limit: nat, h: Heap, op: Op)
    requires limit <= I64_MAX && Within(limit, h) && PossibleOp(h, op)
    ensures Within(limit, Apply(limit, h, op)) <==> !Overruns(limit, h, op)
  {
    match op
    case New(elem) =>
      assert (h.vecs + [Shape(elem, 0, 0)])[..|h.vecs|] == h.vecs;
    case PushTo(i, a) =>
      if i < |h.vecs| {
        if h.vecs[i].Full() && !GrowthRefused(limit, h.used, h.vecs[i]) && a.Granted? {
          GrowthKeepsIffSettled(limit, h, i, a);
        } else {
          PlainPushKeeps(limit, h, i, a);
        }
      }
    case Discard(i) =>
      if i < |h.vecs| {
        LiveUpdates(h.vecs, i, Shape(h.vecs[i].elem, 0, 0));
      }
  }

  predicate AlwaysWithin(limit: nat, ops: seq<Op>) {
    Within(limit, ApplyAll(limit, ops)) && (ops == [] || AlwaysWithin(limit, ops[..|ops| - 1]))
  }

  predicate NeverOverruns(limit: nat, ops: seq<Op>) {
    ops == [] || (NeverOverruns(limit, ops[..|ops| - 1]) && !Overruns(limit, ApplyAll(limit, ops[..|ops| - 1]), ops[|ops| - 1]))
  }

  /** However pushes onto any number of vectors of any element sizes interleave, with whatever
      allocator: the bytes they hold stay within what is charged, and that within the limit, if
      and only if no growth overran both its settling and what had been over-counted. */
  lemma {:induction false} BudgetHoldsIff(limit: nat, ops: seq<Op>)
    requires limit <= I64_MAX && AllPossible(limit, ops)
    ensures AlwaysWithin(limit, ops) <==> NeverOverruns(limit, ops)
  {
    if ops != [] {
      var before := ops[..|ops| - 1];
      BudgetHoldsIff(limit, before);
      if NeverOverruns(limit, before) {
        assert Within(limit, ApplyAll(limit, before));
        ApplyKeepsIff(limit, ApplyAll(limit, before), ops[|ops| - 1]);
      }
    }
  }

  lemma ExactIsSettled(limit: nat, used: nat, v: Shape, capacity: nat)
    requires limit < U64_MAX && !GrowthRefused(limit, used, v) && capacity == v.Target()
    ensures !SettleRefused(limit, used, v, capacity)
  {
  }

  predicate ExactOp(h: Heap, op: Op) {
    op.PushTo? && op.i < |h.vecs| ==> Possible(h.vecs[op.i], op.a) && Exact(h.vecs[op.i], op.a)
  }

  predicate AllExact(limit: nat, ops: seq<Op>) {
    ops == [] || (AllExact(limit, ops[..|ops| - 1]) && ExactOp(ApplyAll(limit, ops[..|ops| - 1]), ops[|ops| - 1]))
  }

  lemma {:induction false} ExactNeverOverruns(limit: nat, ops: seq<Op>)
    requires limit <= I64_MAX && AllExact(limit, ops)
    ensures AllPossible(limit, ops) && NeverOverruns(limit, ops)
  {
    if ops != [] {
      var h, op := ApplyAll(limit, ops[..|ops| - 1]), ops[|ops| - 1];
      ExactNeverOverruns(limit, ops[..|ops| - 1]);
      if op.PushTo? && op.i < |h.vecs| && h.vecs[op.i].Full() && !GrowthRefused(limit, h.used, h.vecs[op.i]) && op.a.Granted? {
        ExactIsSettled(limit, h.used, h.vecs[op.i], op.a.capacity);
      }
    }
  }

  /** With an exact allocator the bytes held never exceed what is charged, nor that the limit. */
  lemma BudgetBoundsAllocation(limit: nat, ops: seq<Op>)
    requires limit <= I64_MAX && AllExact(limit, ops)
    ensures Within(limit, ApplyAll(limit, ops))
  {
    ExactNeverOverruns(limit, ops);
    BudgetHoldsIff(limit, ops);
  }

  /** An allocator that rounds up defeats the bound: asked for four one-kilobyte elements under
      a limit of 4096 bytes it hands out eight, settling is refused, and 8192 bytes are live. */
  lemma GenerousAllocatorDefeatsTheBound()
    ensures var h := ApplyAll(4096, [New(1024), PushTo(0, Granted(8))]);
            Possible(Shape(1024, 0, 0), Granted(8)) && Live(h.vecs) == 8192 && h.used == 4096
  {
    var ops := [New(1024), PushTo(0, Granted(8))];
    assert ops[..1] == [New(1024)] && [New(1024)][..0] == [];
    var h := ApplyAll(4096, [New(1024)]);
    assert h == Heap(0, [Shape(1024, 0, 0)]);
    var g := Apply(4096, h, ops[1]);
    assert g.vecs == [Shape(1024, 0, 8)];
    assert g.vecs[..0] == [];
  }
}
