/** Who gets which partitions of a group: the nested loops that hand them out, proved to give
    every partition one owner, balanced shares, and the same result for every listing. */
module Assignor {
  import opened Wrappers
  import opened Order

  type Subscription = (string, seq<string>)

  type Share = (string, seq<int>)

  // ---- subscribers in order -----------------------------------------------------------

  function Subscribers(subs: seq<Subscription>, topic: string): seq<string> {
    if subs == [] then []
    else
      var last := subs[|subs| - 1];
      Subscribers(subs[..|subs| - 1], topic) + if topic in last.1 then [last.0] else []
  }

  function Insert(ms: seq<string>, m: string): (r: seq<string>)
    ensures |r| == |ms| + 1
  {
    if ms == [] || !Before(m, ms[|ms| - 1]) then ms + [m]
    else Insert(ms[..|ms| - 1], m) + [ms[|ms| - 1]]
  }

  function Sort(ms: seq<string>): (r: seq<string>)
    ensures |r| == |ms|
  {
    if ms == [] then [] else Insert(Sort(ms[..|ms| - 1]), ms[|ms| - 1])
  }

  function Members(subs: seq<Subscription>, topic: string): seq<string> {
    Sort(Subscribers(subs, topic))
  }

  function SetOf(ms: seq<string>): set<string> {
    if ms == [] then {} else SetOf(ms[..|ms| - 1]) + {ms[|ms| - 1]}
  }

  lemma {:induction false} SetHas(ms: seq<string>, i: nat)
    requires i < |ms|
    ensures ms[i] in SetOf(ms)
  {
    if i < |ms| - 1 {
      SetHas(ms[..|ms| - 1], i);
    }
  }

  lemma {:induction false} SetOnly(ms: seq<string>, m: string) returns (i: nat)
    requires m in SetOf(ms)
    ensures i < |ms| && ms[i] == m
  {
    if ms[|ms| - 1] == m {
      i := |ms| - 1;
    } else {
      i := SetOnly(ms[..|ms| - 1], m);
    }
  }

  predicate Ascending(ms: seq<string>) {
    forall i, j :: 0 <= i < j < |ms| ==> Before(ms[i], ms[j])
  }

  predicate Distinct(ms: seq<string>) {
    forall i, j :: 0 <= i < j < |ms| ==> ms[i] != ms[j]
  }

  predicate UniqueIds(subs: seq<Subscription>) {
    forall i, j :: 0 <= i < j < |subs| ==> subs[i].0 != subs[j].0
  }

  lemma SnocHolds(ms: seq<string>, m: string)
    requires Ascending(ms) && forall i :: 0 <= i < |ms| ==> Before(ms[i], m)
    ensures Ascending(ms + [m]) && SetOf(ms + [m]) == SetOf(ms) + {m}
  {
    assert (ms + [m])[..|ms + [m]| - 1] == ms;
  }

  lemma AboveAll(ms: seq<string>, m: string, i: nat)
    requires Ascending(ms) && i < |ms| && m != ms[|ms| - 1] && !Before(m, ms[|ms| - 1])
    ensures Before(ms[i], m)
  {
    BeforeIsTotal(ms[|ms| - 1], m);
    if i < |ms| - 1 {
      BeforeIsTransitive(ms[i], ms[|ms| - 1], m);
    }
  }

  lemma {:induction false} InsertHolds(ms: seq<string>, m: string)
    requires Ascending(ms) && m !in SetOf(ms)
    ensures Ascending(Insert(ms, m)) && SetOf(Insert(ms, m)) == SetOf(ms) + {m}
  {
    if ms == [] || !Before(m, ms[|ms| - 1]) {
      forall i | 0 <= i < |ms| ensures Before(ms[i], m) {
        AboveAll(ms, m, i);
      }
      SnocHolds(ms, m);
    } else {
      var init, last := ms[..|ms| - 1], ms[|ms| - 1];
      InsertHolds(init, m);
      forall i | 0 <= i < |Insert(init, m)| ensures Before(Insert(init, m)[i], last) {
        InsertedBelow(ms, m, i);
      }
      SnocHolds(Insert(init, m), last);
    }
  }

  lemma InsertedBelow(ms: seq<string>, m: string, i: nat)
    requires ms != [] && Ascending(ms) && Before(m, ms[|ms| - 1]) && i <= |ms| - 1
    requires SetOf(Insert(ms[..|ms| - 1], m)) == SetOf(ms[..|ms| - 1]) + {m}
    ensures Before(Insert(ms[..|ms| - 1], m)[i], ms[|ms| - 1])
  {
    var init := ms[..|ms| - 1];
    SetHas(Insert(init, m), i);
    if Insert(init, m)[i] != m {
      var k := SetOnly(init, Insert(init, m)[i]);
    }
  }

  lemma {:induction false} SortHolds(ms: seq<string>)
    requires Distinct(ms)
    ensures Ascending(Sort(ms)) && SetOf(Sort(ms)) == SetOf(ms)
  {
    if ms != [] {
      var init, last := ms[..|ms| - 1], ms[|ms| - 1];
      SortHolds(init);
      if last in SetOf(init) {
        var i := SetOnly(init, last);
      }
      InsertHolds(Sort(init), last);
    }
  }

  lemma AscendingIsDistinct(ms: seq<string>)
    requires Ascending(ms)
    ensures Distinct(ms)
  {
    forall i, j | 0 <= i < j < |ms| ensures ms[i] != ms[j] {
      BeforeIsAsymmetric(ms[i], ms[j]);
    }
  }

  lemma LastIsTop(a: seq<string>, b: seq<string>)
    requires Ascending(a) && a != [] && b != [] && SetOf(a) == SetOf(b)
    ensures b[|b| - 1] == a[|a| - 1] || Before(b[|b| - 1], a[|a| - 1])
  {
    SetHas(b, |b| - 1);
    var i := SetOnly(a, b[|b| - 1]);
  }

  lemma InitSet(a: seq<string>)
    requires Ascending(a) && a != []
    ensures SetOf(a[..|a| - 1]) == SetOf(a) - {a[|a| - 1]}
  {
    if a[|a| - 1] in SetOf(a[..|a| - 1]) {
      var i := SetOnly(a[..|a| - 1], a[|a| - 1]);
      BeforeIsAsymmetric(a[i], a[|a| - 1]);
    }
  }

  lemma NonemptySet(ms: seq<string>)
    ensures SetOf(ms) == {} ==> ms == []
  {
    if ms != [] {
      SetHas(ms, |ms| - 1);
    }
  }

  /** An ascending list is determined by what is in it. */
  lemma {:induction false} AscendingIsUnique(a: seq<string>, b: seq<string>)
    requires Ascending(a) && Ascending(b) && SetOf(a) == SetOf(b)
    ensures a == b
  {
    if a == [] {
      NonemptySet(b);
    } else if b == [] {
      NonemptySet(a);
    } else {
      var x, y := a[|a| - 1], b[|b| - 1];
      LastIsTop(a, b);
      LastIsTop(b, a);
      if x != y {
        BeforeIsAsymmetric(x, y);
      }
      InitSet(a);
      InitSet(b);
      AscendingIsUnique(a[..|a| - 1], b[..|b| - 1]);
      assert a == a[..|a| - 1] + [x] && b == b[..|b| - 1] + [x];
    }
  }

  predicate Subscribed(subs: multiset<Subscription>, topic: string, m: string) {
    exists s :: s in subs && s.0 == m && topic in s.1
  }

  lemma {:induction false} SubscribersAre(subs: seq<Subscription>, topic: string, m: string)
    ensures m in SetOf(Subscribers(subs, topic)) <==> Subscribed(multiset(subs), topic, m)
  {
    if subs != [] {
      var init, last := subs[..|subs| - 1], subs[|subs| - 1];
      SubscribersAre(init, topic, m);
      assert subs == init + [last];
      assert multiset(subs) == multiset(init) + multiset{last};
      var ms := Subscribers(init, topic);
      assert (ms + [last.0])[..|ms|] == ms;
      assert ms + [] == ms;
      if Subscribed(multiset(init), topic, m) {
        var s: Subscription :| s in multiset(init) && s.0 == m && topic in s.1;
        assert s in multiset(subs);
      }
      if topic in last.1 && last.0 == m {
        assert last in multiset(subs);
      }
    }
  }

  lemma OnlyIds(subs: seq<Subscription>, topic: string, m: string)
    requires forall i :: 0 <= i < |subs| ==> subs[i].0 != m
    ensures m !in SetOf(Subscribers(subs, topic))
  {
    SubscribersAre(subs, topic, m);
  }

  lemma {:induction false} SubscribersAreDistinct(subs: seq<Subscription>, topic: string)
    requires UniqueIds(subs)
    ensures Distinct(Subscribers(subs, topic))
  {
    if subs != [] {
      var init, last := subs[..|subs| - 1], subs[|subs| - 1];
      SubscribersAreDistinct(init, topic);
      OnlyIds(init, topic, last.0);
      forall i | 0 <= i < |Subscribers(init, topic)| ensures Subscribers(init, topic)[i] != last.0 {
        SetHas(Subscribers(init, topic), i);
      }
    }
  }

  lemma MembersAre(subs: seq<Subscription>, topic: string)
    requires UniqueIds(subs)
    ensures Ascending(Members(subs, topic)) && Distinct(Members(subs, topic))
    ensures SetOf(Members(subs, topic)) == SetOf(Subscribers(subs, topic))
  {
    SubscribersAreDistinct(subs, topic);
    SortHolds(Subscribers(subs, topic));
    AscendingIsDistinct(Members(subs, topic));
  }

  // ---- shares -------------------------------------------------------------------------

  function Take(count: nat, n: nat, i: nat): nat
    requires n > 0
  {
    count / n + if i < count % n then 1 else 0
  }

  /** Where the share of the `i`-th member begins: after all earlier shares. */
  function Start(count: nat, n: nat, i: nat): nat
    requires n > 0
  {
    if i == 0 then 0 else Start(count, n, i - 1) + Take(count, n, i - 1)
  }

  lemma {:induction false} StartIs(count: nat, n: nat, i: nat)
    requires n > 0 && i <= n
    ensures Start(count, n, i) == i * (count / n) + Min(i, count % n)
  {
    if i > 0 {
      StartIs(count, n, i - 1);
      assert i * (count / n) == (i - 1) * (count / n) + count / n;
    }
  }

  lemma SharesCoverAll(count: nat, n: nat)
    requires n > 0
    ensures Start(count, n, n) == count
  {
    StartIs(count, n, n);
    assert count == n * (count / n) + count % n;
  }

  /** The member whose share holds partition `p`. */
  lemma {:induction false} ShareOf(count: nat, n: nat, i: nat, p: nat) returns (k: nat)
    requires n > 0 && i <= n && p < Start(count, n, i)
    ensures k < i && Start(count, n, k) <= p < Start(count, n, k) + Take(count, n, k)
  {
    if p >= Start(count, n, i - 1) {
      k := i - 1;
    } else {
      k := ShareOf(count, n, i - 1, p);
    }
  }

  lemma {:induction false} SharesAscend(count: nat, n: nat, i: nat, j: nat)
    requires n > 0 && i < j
    ensures Start(count, n, i) + Take(count, n, i) <= Start(count, n, j)
  {
    if i < j - 1 {
      SharesAscend(count, n, i, j - 1);
    }
  }

  /** Shares differ by at most one, and the longer come first. */
  lemma SharesAreBalanced(count: nat, n: nat, i: nat, j: nat)
    requires n > 0 && i <= j
    ensures Take(count, n, j) <= Take(count, n, i) <= Take(count, n, j) + 1
  {
  }

  // ---- the assignment -----------------------------------------------------------------

  function Range(start: int, take: nat): (r: seq<int>)
    ensures |r| == take && forall k :: 0 <= k < take ==> r[k] == start + k
  {
    seq(take, k => start + k)
  }

  function Position(ms: seq<string>, m: string): (r: Option<nat>)
    ensures r.Some? ==> r.value < |ms| && ms[r.value] == m
  {
    if ms == [] then None
    else if ms[|ms| - 1] == m then Some(|ms| - 1)
    else Position(ms[..|ms| - 1], m)
  }

  lemma {:induction false} PositionOf(ms: seq<string>, i: nat)
    requires Distinct(ms) && i < |ms|
    ensures Position(ms, ms[i]) == Some(i)
  {
    if i < |ms| - 1 {
      PositionOf(ms[..|ms| - 1], i);
    }
  }

  /** What one topic gives the member at `place` of `n`. */
  function ShareAt(topic: string, count: nat, n: nat, place: nat): seq<Share>
    requires n > 0
  {
    if Take(count, n, place) == 0 then [] else [(topic, Range(Start(count, n, place), Take(count, n, place)))]
  }

  function ShareFor(subs: seq<Subscription>, topic: string, count: nat, m: string): seq<Share> {
    var ms := Members(subs, topic);
    var place := Position(ms, m);
    if place.None? then [] else ShareAt(topic, count, |ms|, place.value)
  }

  /** Everything a member is given, topic by topic. */
  function Given(topics: seq<(string, nat)>, subs: seq<Subscription>, m: string): seq<Share> {
    if topics == [] then []
    else
      var (topic, count) := topics[|topics| - 1];
      Given(topics[..|topics| - 1], subs, m) + ShareFor(subs, topic, count, m)
  }

  function Ids(subs: seq<Subscription>): set<string> {
    set i | 0 <= i < |subs| :: subs[i].0
  }

  /** The group's whole assignment. Of topics that are listed once each, what `Assigned` says. */
  method RangeAssign(topics: seq<(string, nat)>, subs: seq<Subscription>) returns (out: map<string, seq<Share>>)
    requires UniqueIds(subs)
    ensures out.Keys == Ids(subs)
    ensures forall m :: m in out ==> out[m] == Given(topics, subs, m)
    ensures UniqueTopics(topics) ==> Assigned(topics, subs, out)
  {
    out := RangeAssignAll(topics, subs);
    if UniqueTopics(topics) {
      GivenIsAssigned(topics, subs, out);
    }
  }

  method RangeAssignAll(topics: seq<(string, nat)>, subs: seq<Subscription>) returns (out: map<string, seq<Share>>)
    requires UniqueIds(subs)
    ensures out.Keys == Ids(subs)
    ensures forall m :: m in out ==> out[m] == Given(topics, subs, m)
  {
    out := map m | m in Ids(subs) :: [];
    for t := 0 to |topics|
      invariant out.Keys == Ids(subs)
      invariant forall m :: m in out ==> out[m] == Given(topics[..t], subs, m)
    {
      var (topic, count) := topics[t];
      assert topics[..t + 1][..t] == topics[..t];
      var members := Sort(Subscribers(subs, topic));
      MembersAre(subs, topic);
      if members != [] {
        out := AssignTopic(topic, count, members, subs, out);
      } else {
        assert forall m :: m in out ==> Given(topics[..t], subs, m) + [] == Given(topics[..t], subs, m);
      }
    }
    assert topics[..|topics|] == topics;
  }

  /** What the first `i` of `members` have been handed. */
  function Handed(topic: string, count: nat, members: seq<string>, i: nat, m: string): seq<Share> {
    var place := Position(members, m);
    if place.Some? && place.value < i then ShareAt(topic, count, |members|, place.value) else []
  }

  lemma HandedNext(topic: string, count: nat, members: seq<string>, i: nat, m: string)
    requires i < |members| && Distinct(members)
    ensures Handed(topic, count, members, i + 1, m) ==
            if m == members[i] then ShareAt(topic, count, |members|, i) else Handed(topic, count, members, i, m)
    ensures m == members[i] ==> Handed(topic, count, members, i, m) == []
  {
    PositionOf(members, i);
  }

  /** One turn of the loop: the next member is handed its share, if that is not empty. */
  lemma HandedOn(topic: string, count: nat, members: seq<string>, i: nat, before: map<string, seq<Share>>,
                 out: map<string, seq<Share>>, out': map<string, seq<Share>>)
    requires i < |members| && Distinct(members) && members[i] in out && out.Keys == before.Keys
    requires forall m :: m in out ==> out[m] == before[m] + Handed(topic, count, members, i, m)
    requires out' == if Take(count, |members|, i) == 0 then out
                     else out[members[i] := out[members[i]] + [(topic, Range(Start(count, |members|, i), Take(count, |members|, i)))]]
    ensures out'.Keys == before.Keys && forall m :: m in out' ==> out'[m] == before[m] + Handed(topic, count, members, i + 1, m)
  {
    forall m | m in out' ensures out'[m] == before[m] + Handed(topic, count, members, i + 1, m) {
      HandedNext(topic, count, members, i, m);
      assert before[m] + [] == before[m];
    }
  }

  lemma HandedAll(subs: seq<Subscription>, topic: string, count: nat, m: string)
    requires Members(subs, topic) != []
    ensures Handed(topic, count, Members(subs, topic), |Members(subs, topic)|, m) == ShareFor(subs, topic, count, m)
  {
  }

  /** One topic's partitions, handed out member by member. */
  method AssignTopic(topic: string, count: nat, members: seq<string>, ghost subs: seq<Subscription>, before: map<string, seq<Share>>)
    returns (out: map<string, seq<Share>>)
    requires UniqueIds(subs) && members != [] && members == Members(subs, topic) && Ids(subs) <= before.Keys
    ensures out.Keys == before.Keys
    ensures forall m :: m in out ==> out[m] == before[m] + ShareFor(subs, topic, count, m)
  {
    MembersAre(subs, topic);
    out := before;
    var n := |members|;
    var per, extra := count / n, count % n;
    var next := 0;
    for i := 0 to n
      invariant next == Start(count, n, i)
      invariant out.Keys == before.Keys
      invariant forall m :: m in out ==> out[m] == before[m] + Handed(topic, count, members, i, m)
    {
      var member := members[i];
      MemberIsKnown(subs, topic, i);
      ghost var soFar := out;
      var take := per + if i < extra then 1 else 0;
      assert take == Take(count, n, i);
      if take != 0 {
        var parts := Range(next, take);
        next := next + take;
        out := out[member := out[member] + [(topic, parts)]];
      }
      HandedOn(topic, count, members, i, before, soFar, out);
    }
    forall m | m in out ensures out[m] == before[m] + ShareFor(subs, topic, count, m) {
      HandedAll(subs, topic, count, m);
    }
  }

  lemma MemberIsKnown(subs: seq<Subscription>, topic: string, i: nat)
    requires UniqueIds(subs) && i < |Members(subs, topic)|
    ensures Members(subs, topic)[i] in Ids(subs)
    ensures Position(Members(subs, topic), Members(subs, topic)[i]) == Some(i)
  {
    var ms := Members(subs, topic);
    MembersAre(subs, topic);
    PositionOf(ms, i);
    SetHas(ms, i);
    SubscribersAre(subs, topic, ms[i]);
    var s: Subscription :| s in multiset(subs) && s.0 == ms[i] && topic in s.1;
    assert s in subs;
  }

  // ---- what it means ------------------------------------------------------------------

  /** Whether a topic gives partition `p` to member `m`. */
  predicate Owns(subs: seq<Subscription>, topic: string, count: nat, m: string, p: int) {
    var share := ShareFor(subs, topic, count, m);
    exists i, k :: 0 <= i < |share| && 0 <= k < |share[i].1| && share[i].1[k] == p
  }

  lemma OwnsRange(subs: seq<Subscription>, topic: string, count: nat, m: string, p: int)
    ensures var ms := Members(subs, topic);
            var place := Position(ms, m);
            Owns(subs, topic, count, m, p) <==>
              place.Some? && Start(count, |ms|, place.value) <= p < Start(count, |ms|, place.value) + Take(count, |ms|, place.value)
  {
    var ms := Members(subs, topic);
    var place := Position(ms, m);
    if place.Some? {
      var start, take := Start(count, |ms|, place.value), Take(count, |ms|, place.value);
      var share := ShareFor(subs, topic, count, m);
      if start <= p < start + take {
        assert share[0].1[p - start] == p;
      }
    }
  }

  /** Every partition of a topic that has a subscriber goes to exactly one member, and that
      member subscribes to the topic. */
  lemma EveryPartitionOnce(subs: seq<Subscription>, topic: string, count: nat, p: nat) returns (owner: string)
    requires UniqueIds(subs) && p < count && Subscribers(subs, topic) != []
    ensures Subscribed(multiset(subs), topic, owner)
    ensures forall m :: Owns(subs, topic, count, m, p) <==> m == owner
  {
    var ms := Members(subs, topic);
    var n := |ms|;
    SharesCoverAll(count, n);
    var k := ShareOf(count, n, n, p);
    owner := ms[k];
    MembersAre(subs, topic);
    MemberIsKnown(subs, topic, k);
    SetHas(ms, k);
    SubscribersAre(subs, topic, owner);
    forall m ensures Owns(subs, topic, count, m, p) <==> m == owner {
      OwnsRange(subs, topic, count, m, p);
      var place := Position(ms, m);
      if place.Some? && place.value < k {
        SharesAscend(count, n, place.value, k);
      } else if place.Some? && k < place.value {
        SharesAscend(count, n, k, place.value);
      }
    }
  }

  /** No member is given a partition the topic does not have. */
  lemma NoPartitionBeyond(subs: seq<Subscription>, topic: string, count: nat, m: string, p: int)
    requires Owns(subs, topic, count, m, p)
    ensures 0 <= p < count
  {
    OwnsRange(subs, topic, count, m, p);
    var n := |Members(subs, topic)|;
    var place := Position(Members(subs, topic), m);
    SharesCoverAll(count, n);
    if place.value < n - 1 {
      SharesAscend(count, n, place.value, n);
    }
  }

  /** Of two subscribers the one with the lower id has the lower partitions, and as many or
      one more. */
  lemma SharesFollowMemberOrder(subs: seq<Subscription>, topic: string, count: nat, a: nat, b: nat, p: int, q: int)
    requires UniqueIds(subs) && a < b < |Members(subs, topic)|
    requires Owns(subs, topic, count, Members(subs, topic)[a], p) && Owns(subs, topic, count, Members(subs, topic)[b], q)
    ensures Before(Members(subs, topic)[a], Members(subs, topic)[b]) && p < q
    ensures Take(count, |Members(subs, topic)|, b) <= Take(count, |Members(subs, topic)|, a) <= Take(count, |Members(subs, topic)|, b) + 1
  {
    var ms := Members(subs, topic);
    MembersAre(subs, topic);
    MemberIsKnown(subs, topic, a);
    MemberIsKnown(subs, topic, b);
    OwnsRange(subs, topic, count, ms[a], p);
    OwnsRange(subs, topic, count, ms[b], q);
    SharesAscend(count, |ms|, a, b);
    SharesAreBalanced(count, |ms|, a, b);
  }

  /** The order in which members are listed makes no difference. */
  lemma OrderDoesNotMatter(subs: seq<Subscription>, subs': seq<Subscription>, topic: string)
    requires UniqueIds(subs) && UniqueIds(subs') && multiset(subs) == multiset(subs')
    ensures Members(subs, topic) == Members(subs', topic)
  {
    MembersAre(subs, topic);
    MembersAre(subs', topic);
    forall m ensures m in SetOf(Subscribers(subs, topic)) <==> m in SetOf(Subscribers(subs', topic)) {
      SubscribersAre(subs, topic, m);
      SubscribersAre(subs', topic, m);
    }
    AscendingIsUnique(Members(subs, topic), Members(subs', topic));
  }

  lemma {:induction false} AssignmentIgnoresOrder(topics: seq<(string, nat)>, subs: seq<Subscription>, subs': seq<Subscription>, m: string)
    requires UniqueIds(subs) && UniqueIds(subs') && multiset(subs) == multiset(subs')
    ensures Given(topics, subs, m) == Given(topics, subs', m)
  {
    if topics != [] {
      AssignmentIgnoresOrder(topics[..|topics| - 1], subs, subs', m);
      OrderDoesNotMatter(subs, subs', topics[|topics| - 1].0);
    }
  }

  // ---- the assignment as a whole ------------------------------------------------------

  predicate UniqueTopics(topics: seq<(string, nat)>) {
    forall i, j :: 0 <= i < j < |topics| ==> topics[i].0 != topics[j].0
  }

  /** The list names partition `p` of the topic. */
  predicate Names(shares: seq<Share>, topic: string, p: int) {
    exists i :: 0 <= i < |shares| && shares[i].0 == topic && p in shares[i].1
  }

  /** The entry is consecutive partitions of the topic, and not none. */
  predicate Part(share: Share, topic: (string, nat)) {
    && share.0 == topic.0 && share.1 != []
    && forall k :: 0 <= k < |share.1| ==> 0 <= share.1[k] < topic.1 && share.1[k] == share.1[0] + k
  }

  ghost predicate PartsAt(topics: seq<(string, nat)>, subs: seq<Subscription>, m: string, shares: seq<Share>, at: seq<nat>) {
    && |at| == |shares|
    && (forall i :: 0 <= i < |at| ==> at[i] < |topics| && Part(shares[i], topics[at[i]]) && Subscribed(multiset(subs), topics[at[i]].0, m))
    && (forall i, j :: 0 <= i < j < |at| ==> at[i] < at[j])
  }

  /** Entries are parts of the listed topics the member subscribes to, in the order of the list. */
  ghost predicate InTopicOrder(topics: seq<(string, nat)>, subs: seq<Subscription>, m: string, shares: seq<Share>) {
    exists at: seq<nat> :: PartsAt(topics, subs, m, shares, at)
  }

  /** Someone subscribed is named with the partition, and no one else is. */
  ghost predicate OneOwner(subs: seq<Subscription>, out: map<string, seq<Share>>, topic: string, p: int) {
    exists owner :: owner in out && Subscribed(multiset(subs), topic, owner) && forall m :: m in out ==> (Names(out[m], topic, p) <==> m == owner)
  }

  /** The partitions of one topic in a list of shares. */
  function PartsOf(shares: seq<Share>, topic: string): seq<int> {
    if shares == [] then []
    else
      var last := shares[|shares| - 1];
      PartsOf(shares[..|shares| - 1], topic) + if last.0 == topic then last.1 else []
  }

  /** Of two subscribers the one with the lower id has as many partitions as the other or one
      more, and all of them lower. */
  predicate InMemberOrder(a: seq<int>, b: seq<int>) {
    |b| <= |a| <= |b| + 1 && forall k, l :: 0 <= k < |a| && 0 <= l < |b| ==> a[k] < b[l]
  }

  ghost predicate Shared(topic: string, subs: seq<Subscription>, out: map<string, seq<Share>>) {
    forall a, b :: a in out && b in out && Subscribed(multiset(subs), topic, a) && Subscribed(multiset(subs), topic, b) && Before(a, b) ==>
      InMemberOrder(PartsOf(out[a], topic), PartsOf(out[b], topic))
  }

  /** Every partition of a topic with a subscriber has one owner, who subscribes; nobody is given
      anything else; and the subscribers of a topic share it evenly, in the order of their ids. */
  ghost predicate Assigned(topics: seq<(string, nat)>, subs: seq<Subscription>, out: map<string, seq<Share>>) {
    && (forall t, p :: 0 <= t < |topics| && 0 <= p < topics[t].1 && Subscribers(subs, topics[t].0) != [] ==>
          OneOwner(subs, out, topics[t].0, p))
    && (forall m :: m in out ==> InTopicOrder(topics, subs, m, out[m]))
    && (forall t :: 0 <= t < |topics| ==> Shared(topics[t].0, subs, out))
  }

  lemma {:induction false} PartsConcat(a: seq<Share>, b: seq<Share>, topic: string)
    ensures PartsOf(a + b, topic) == PartsOf(a, topic) + PartsOf(b, topic)
  {
    if b == [] {
      assert a + b == a;
    } else {
      assert (a + b)[..|a + b| - 1] == a + b[..|b| - 1];
      PartsConcat(a, b[..|b| - 1], topic);
    }
  }

  /** What one topic gives a member. */
  function Piece(subs: seq<Subscription>, topic: string, count: nat, m: string): seq<int> {
    var ms := Members(subs, topic);
    var place := Position(ms, m);
    if place.None? then [] else Range(Start(count, |ms|, place.value), Take(count, |ms|, place.value))
  }

  lemma ShareParts(subs: seq<Subscription>, topic: string, count: nat, m: string, name: string)
    ensures PartsOf(ShareFor(subs, topic, count, m), name) == if name == topic then Piece(subs, topic, count, m) else []
  {
    var share := ShareFor(subs, topic, count, m);
    if share != [] {
      assert share[..|share| - 1] == [];
    }
  }

  lemma GivenPartsStep(topics: seq<(string, nat)>, subs: seq<Subscription>, m: string, name: string)
    requires topics != []
    ensures var init, last := topics[..|topics| - 1], topics[|topics| - 1];
            PartsOf(Given(topics, subs, m), name)
            == PartsOf(Given(init, subs, m), name) + if name == last.0 then Piece(subs, last.0, last.1, m) else []
  {
    var init, last := topics[..|topics| - 1], topics[|topics| - 1];
    PartsConcat(Given(init, subs, m), ShareFor(subs, last.0, last.1, m), name);
    ShareParts(subs, last.0, last.1, m, name);
  }

  lemma {:induction false} GivenNoParts(topics: seq<(string, nat)>, subs: seq<Subscription>, m: string, name: string)
    requires forall i :: 0 <= i < |topics| ==> topics[i].0 != name
    ensures PartsOf(Given(topics, subs, m), name) == []
  {
    if topics != [] {
      GivenNoParts(topics[..|topics| - 1], subs, m, name);
      GivenPartsStep(topics, subs, m, name);
    }
  }

  lemma {:induction false} GivenParts(topics: seq<(string, nat)>, subs: seq<Subscription>, m: string, t: nat)
    requires UniqueTopics(topics) && t < |topics|
    ensures PartsOf(Given(topics, subs, m), topics[t].0) == Piece(subs, topics[t].0, topics[t].1, m)
  {
    GivenPartsStep(topics, subs, m, topics[t].0);
    if t < |topics| - 1 {
      GivenParts(topics[..|topics| - 1], subs, m, t);
    } else {
      GivenNoParts(topics[..|topics| - 1], subs, m, topics[t].0);
    }
  }

  lemma SubscriberHasPlace(subs: seq<Subscription>, topic: string, m: string) returns (i: nat)
    requires UniqueIds(subs) && Subscribed(multiset(subs), topic, m)
    ensures i < |Members(subs, topic)| && Members(subs, topic)[i] == m && Position(Members(subs, topic), m) == Some(i)
  {
    MembersAre(subs, topic);
    SubscribersAre(subs, topic, m);
    i := SetOnly(Members(subs, topic), m);
    PositionOf(Members(subs, topic), i);
  }

  lemma PlacesInOrder(ms: seq<string>, i: nat, j: nat)
    requires Ascending(ms) && i < |ms| && j < |ms| && Before(ms[i], ms[j])
    ensures i < j
  {
    BeforeIsAsymmetric(ms[i], ms[j]);
  }

  lemma PiecesInOrder(subs: seq<Subscription>, topic: string, count: nat, a: string, b: string)
    requires UniqueIds(subs) && Subscribed(multiset(subs), topic, a) && Subscribed(multiset(subs), topic, b) && Before(a, b)
    ensures InMemberOrder(Piece(subs, topic, count, a), Piece(subs, topic, count, b))
  {
    var ms := Members(subs, topic);
    var i := SubscriberHasPlace(subs, topic, a);
    var j := SubscriberHasPlace(subs, topic, b);
    MembersAre(subs, topic);
    PlacesInOrder(ms, i, j);
    SharesAscend(count, |ms|, i, j);
    SharesAreBalanced(count, |ms|, i, j);
  }

  lemma NamesConcat(a: seq<Share>, b: seq<Share>, topic: string, p: int)
    ensures Names(a + b, topic, p) <==> Names(a, topic, p) || Names(b, topic, p)
  {
    if Names(a, topic, p) {
      var i :| 0 <= i < |a| && a[i].0 == topic && p in a[i].1;
      assert (a + b)[i] == a[i];
    }
    if Names(b, topic, p) {
      var i :| 0 <= i < |b| && b[i].0 == topic && p in b[i].1;
      assert (a + b)[|a| + i] == b[i];
    }
  }

  lemma ShareNames(subs: seq<Subscription>, topic: string, count: nat, m: string, name: string, p: int)
    ensures Names(ShareFor(subs, topic, count, m), name, p) <==> name == topic && Owns(subs, topic, count, m, p)
  {
    var share := ShareFor(subs, topic, count, m);
    if Owns(subs, topic, count, m, p) {
      var i, k :| 0 <= i < |share| && 0 <= k < |share[i].1| && share[i].1[k] == p;
      assert p in share[i].1 && share[i].0 == topic;
    }
    if Names(share, name, p) {
      var i :| 0 <= i < |share| && share[i].0 == name && p in share[i].1;
      var k :| 0 <= k < |share[i].1| && share[i].1[k] == p;
    }
  }

  lemma GivenNamesStep(topics: seq<(string, nat)>, subs: seq<Subscription>, m: string, name: string, p: int)
    requires topics != []
    ensures var init, last := topics[..|topics| - 1], topics[|topics| - 1];
            Names(Given(topics, subs, m), name, p) <==>
            Names(Given(init, subs, m), name, p) || (name == last.0 && Owns(subs, last.0, last.1, m, p))
  {
    var init, last := topics[..|topics| - 1], topics[|topics| - 1];
    NamesConcat(Given(init, subs, m), ShareFor(subs, last.0, last.1, m), name, p);
    ShareNames(subs, last.0, last.1, m, name, p);
  }

  /** What all topics give of one of them is what that one gives. */
  lemma {:induction false} GivenNames(topics: seq<(string, nat)>, subs: seq<Subscription>, m: string, t: nat, p: int)
    requires UniqueTopics(topics) && t < |topics|
    ensures Names(Given(topics, subs, m), topics[t].0, p) <==> Owns(subs, topics[t].0, topics[t].1, m, p)
  {
    GivenNamesStep(topics, subs, m, topics[t].0, p);
    if t < |topics| - 1 {
      GivenNames(topics[..|topics| - 1], subs, m, t, p);
    } else {
      GivenNotNames(topics[..|topics| - 1], subs, m, topics[t].0, p);
    }
  }

  lemma {:induction false} GivenNotNames(topics: seq<(string, nat)>, subs: seq<Subscription>, m: string, name: string, p: int)
    requires forall i :: 0 <= i < |topics| ==> topics[i].0 != name
    ensures !Names(Given(topics, subs, m), name, p)
  {
    if topics != [] {
      var init, last := topics[..|topics| - 1], topics[|topics| - 1];
      GivenNotNames(init, subs, m, name, p);
      GivenNamesStep(topics, subs, m, name, p);
    }
  }

  lemma ShareIsPart(subs: seq<Subscription>, topic: string, count: nat, m: string)
    requires UniqueIds(subs)
    ensures var share := ShareFor(subs, topic, count, m);
            share == [] || (|share| == 1 && Part(share[0], (topic, count)) && Subscribed(multiset(subs), topic, m))
  {
    var share := ShareFor(subs, topic, count, m);
    if share != [] {
      forall k | 0 <= k < |share[0].1| ensures 0 <= share[0].1[k] < count {
        assert Owns(subs, topic, count, m, share[0].1[k]);
        NoPartitionBeyond(subs, topic, count, m, share[0].1[k]);
      }
      var ms := Members(subs, topic);
      SetHas(ms, Position(ms, m).value);
      MembersAre(subs, topic);
      SubscribersAre(subs, topic, m);
    }
  }

  lemma OneMoreTopic(topics: seq<(string, nat)>, topic: (string, nat), subs: seq<Subscription>, m: string, shares: seq<Share>, at: seq<nat>)
    requires PartsAt(topics, subs, m, shares, at)
    ensures PartsAt(topics + [topic], subs, m, shares, at)
  {
  }

  lemma OneMorePart(topics: seq<(string, nat)>, topic: (string, nat), subs: seq<Subscription>, m: string, shares: seq<Share>, at: seq<nat>, share: Share)
    requires PartsAt(topics, subs, m, shares, at)
    requires Part(share, topic) && Subscribed(multiset(subs), topic.0, m)
    ensures PartsAt(topics + [topic], subs, m, shares + [share], at + [|topics|])
  {
    assert (topics + [topic])[|topics|] == topic;
    OneMoreTopic(topics, topic, subs, m, shares, at);
  }

  lemma MoreParts(topics: seq<(string, nat)>, topic: (string, nat), subs: seq<Subscription>, m: string, shares: seq<Share>, at: seq<nat>, more: seq<Share>)
    requires PartsAt(topics, subs, m, shares, at)
    requires more == [] || (|more| == 1 && Part(more[0], topic) && Subscribed(multiset(subs), topic.0, m))
    ensures PartsAt(topics + [topic], subs, m, shares + more, if more == [] then at else at + [|topics|])
  {
    if more == [] {
      OneMoreTopic(topics, topic, subs, m, shares, at);
      assert shares + more == shares;
    } else {
      OneMorePart(topics, topic, subs, m, shares, at, more[0]);
      assert more == [more[0]];
    }
  }

  lemma {:induction false} GivenInOrder(topics: seq<(string, nat)>, subs: seq<Subscription>, m: string)
    requires UniqueIds(subs)
    ensures InTopicOrder(topics, subs, m, Given(topics, subs, m))
  {
    if topics == [] {
      assert PartsAt(topics, subs, m, [], []);
    } else {
      var init, last := topics[..|topics| - 1], topics[|topics| - 1];
      GivenInOrder(init, subs, m);
      GivenStep(init, last, subs, m);
      assert topics == init + [last];
    }
  }

  lemma GivenStep(topics: seq<(string, nat)>, topic: (string, nat), subs: seq<Subscription>, m: string)
    requires UniqueIds(subs) && InTopicOrder(topics, subs, m, Given(topics, subs, m))
    ensures InTopicOrder(topics + [topic], subs, m, Given(topics + [topic], subs, m))
  {
    var at: seq<nat> :| PartsAt(topics, subs, m, Given(topics, subs, m), at);
    var more := ShareFor(subs, topic.0, topic.1, m);
    ShareIsPart(subs, topic.0, topic.1, m);
    MoreParts(topics, topic, subs, m, Given(topics, subs, m), at, more);
    assert (topics + [topic])[..|topics|] == topics;
  }

  lemma {:induction false} FirstId(subs: seq<Subscription>, topic: string, m: string)
    requires Subscribed(multiset(subs), topic, m)
    ensures m in Ids(subs)
  {
    var s: Subscription :| s in multiset(subs) && s.0 == m && topic in s.1;
    assert s in subs;
  }

  lemma TopicIsShared(topics: seq<(string, nat)>, subs: seq<Subscription>, out: map<string, seq<Share>>, t: nat)
    requires UniqueIds(subs) && UniqueTopics(topics) && t < |topics|
    requires forall m :: m in out ==> out[m] == Given(topics, subs, m)
    ensures Shared(topics[t].0, subs, out)
  {
    var topic := topics[t].0;
    forall a, b | a in out && b in out && Subscribed(multiset(subs), topic, a) && Subscribed(multiset(subs), topic, b) && Before(a, b)
      ensures InMemberOrder(PartsOf(out[a], topic), PartsOf(out[b], topic))
    {
      GivenParts(topics, subs, a, t);
      GivenParts(topics, subs, b, t);
      PiecesInOrder(subs, topic, topics[t].1, a, b);
    }
  }

  lemma GivenIsAssigned(topics: seq<(string, nat)>, subs: seq<Subscription>, out: map<string, seq<Share>>)
    requires UniqueIds(subs) && UniqueTopics(topics)
    requires out.Keys == Ids(subs) && forall m :: m in out ==> out[m] == Given(topics, subs, m)
    ensures Assigned(topics, subs, out)
  {
    forall t, p | 0 <= t < |topics| && 0 <= p < topics[t].1 && Subscribers(subs, topics[t].0) != []
      ensures OneOwner(subs, out, topics[t].0, p)
    {
      var owner := EveryPartitionOnce(subs, topics[t].0, topics[t].1, p);
      FirstId(subs, topics[t].0, owner);
      forall m | m in out ensures Names(out[m], topics[t].0, p) <==> m == owner {
        GivenNames(topics, subs, m, t, p);
      }
    }
    forall t | 0 <= t < |topics| ensures Shared(topics[t].0, subs, out) {
      TopicIsShared(topics, subs, out, t);
    }
    forall m | m in out ensures InTopicOrder(topics, subs, m, out[m]) {
      GivenInOrder(topics, subs, m);
    }
  }
}
