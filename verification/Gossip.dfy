/** Gossip of one announcement over the mesh: who has seen it, who accepted it, and what is under way. */
module Gossip {
  import Sets

  type Id = string

  const INITIAL_TTL: nat := 10

  /** A scheduled delivery. */
  datatype Message = Message(target: Id, sender: Id, ttl: int)

  datatype State = State(live: set<Id>, seen: set<Id>, inFlight: seq<Message>, accepted: seq<Id>)

  type Network = n: map<Id, set<Id>> | forall p, q :: p in n && q in n[p] ==> q in n witness map[]

  function Neighbours(net: Network, p: Id): set<Id> {
    if p in net then net[p] else {}
  }

  /** The deliveries a peer schedules for these neighbours, in the order it visits them. */
  function Scheduled(targets: seq<Id>, sender: Id, ttl: int): (m: seq<Message>)
    ensures |m| == |targets|
  {
    seq(|targets|, i requires 0 <= i < |targets| => Message(targets[i], sender, ttl))
  }

  /** An order in which the members of a set are visited. */
  predicate Visits(targets: seq<Id>, s: set<Id>) {
    && |targets| == |s|
    && (forall i :: 0 <= i < |targets| ==> targets[i] in s)
    && (forall p :: p in s ==> exists i :: 0 <= i < |targets| && targets[i] == p)
  }

  /** The announcement leaves its origin, which counts as having seen it. */
  ghost predicate Started(net: Network, s: State, origin: Id) {
    && origin in net && s.live <= net.Keys && s.seen == {origin} && s.accepted == []
    && exists targets :: Visits(targets, Neighbours(net, origin) * s.live)
        && s.inFlight == Scheduled(targets, origin, INITIAL_TTL)
  }

  predicate Accepts(s: State, m: Message) {
    m.target in s.live && m.target !in s.seen
  }

  /** Whom an accepting peer forwards to. */
  function Forwards(net: Network, s: State, m: Message): set<Id> {
    if m.ttl > 1 then Neighbours(net, m.target) * s.live - {m.sender} else {}
  }

  function Without<T>(s: seq<T>, i: nat): seq<T>
    requires i < |s|
  {
    s[..i] + s[i + 1..]
  }

  /** The effect of running scheduled delivery `i`. */
  function Delivered(s: State, i: nat, targets: seq<Id>): State
    requires i < |s.inFlight|
  {
    var m := s.inFlight[i];
    if !Accepts(s, m) then s.(inFlight := Without(s.inFlight, i))
    else State(s.live, s.seen + {m.target}, Without(s.inFlight, i) + Scheduled(targets, m.target, m.ttl - 1),
               s.accepted + [m.target])
  }

  datatype Op = Deliver(i: nat, targets: seq<Id>) | Churn(live: set<Id>)

  predicate Enabled(net: Network, s: State, op: Op) {
    match op
    case Deliver(i, targets) =>
      i < |s.inFlight| && (Accepts(s, s.inFlight[i]) ==> Visits(targets, Forwards(net, s, s.inFlight[i])))
    case Churn(live) => live <= net.Keys
  }

  function Next(net: Network, s: State, op: Op): State
    requires Enabled(net, s, op)
  {
    match op
    case Deliver(i, targets) => Delivered(s, i, targets)
    case Churn(live) => s.(live := live)
  }

  predicate Run(net: Network, states: seq<State>, ops: seq<Op>) {
    && |states| == |ops| + 1
    && forall i :: 0 <= i < |ops| ==> Enabled(net, states[i], ops[i]) && states[i + 1] == Next(net, states[i], ops[i])
  }

  /** The peers of `ever` within `hops` links of the origin, through peers of `ever`; and the origin. */
  function Reach(net: Network, ever: set<Id>, origin: Id, hops: nat): set<Id> {
    if hops == 0 then {origin}
    else
      var near := Reach(net, ever, origin, hops - 1);
      near + set p | p in ever && exists q :: q in near && p in Neighbours(net, q)
  }

  /** The peers that an accepted announcement is sent on to, spelled out: live neighbours, but never its sender. */
  lemma ForwardedTo(net: Network, s: State, i: nat, targets: seq<Id>)
    requires Enabled(net, s, Deliver(i, targets)) && Accepts(s, s.inFlight[i])
    ensures var m, t := s.inFlight[i], Delivered(s, i, targets);
            && t.inFlight[..|s.inFlight| - 1] == s.inFlight[..i] + s.inFlight[i + 1..]
            && (forall n :: n in t.inFlight[|s.inFlight| - 1..] <==>
                  && m.ttl > 1 && n.sender == m.target && n.ttl == m.ttl - 1 && n.target != m.sender
                  && n.target in s.live && m.target in net && n.target in net[m.target])
            && |t.inFlight| - (|s.inFlight| - 1) == |Forwards(net, s, m)|
  {
    var m, t := s.inFlight[i], Delivered(s, i, targets);
    var news := Scheduled(targets, m.target, m.ttl - 1);
    assert t.inFlight[|s.inFlight| - 1..] == news;
    forall n: Message | m.ttl > 1 && n.sender == m.target && n.ttl == m.ttl - 1 && n.target != m.sender
        && n.target in s.live && m.target in net && n.target in net[m.target]
      ensures n in news
    {
      assert n.target in Forwards(net, s, m);
      var j :| 0 <= j < |targets| && targets[j] == n.target;
      assert news[j] == n;
    }
    hide Scheduled, Without;
  }

  // ---------------------------------------------------------------- safety under any order

  predicate Distinct(s: seq<Id>) {
    forall i, j :: 0 <= i < j < |s| ==> s[i] != s[j]
  }

  /** A scheduled delivery with time to live `ttl` comes from a peer within 10 - ttl hops. */
  predicate Founded(net: Network, ever: set<Id>, origin: Id, m: Message) {
    && 1 <= m.ttl <= INITIAL_TTL
    && m.sender in Reach(net, ever, origin, INITIAL_TTL - m.ttl)
    && m.target in Neighbours(net, m.sender)
  }

  predicate AllFounded(net: Network, ever: set<Id>, origin: Id, messages: seq<Message>) {
    forall i :: 0 <= i < |messages| ==> Founded(net, ever, origin, messages[i])
  }

  predicate SendersSeen(messages: seq<Message>, seen: set<Id>) {
    forall i :: 0 <= i < |messages| ==> messages[i].sender in seen
  }

  ghost predicate Safe(net: Network, ever: set<Id>, origin: Id, s: State) {
    && s.live <= ever
    && AllFounded(net, ever, origin, s.inFlight) && SendersSeen(s.inFlight, s.seen)
    && (forall p :: p in s.seen <==> p == origin || p in s.accepted)
    && Distinct(s.accepted) && origin !in s.accepted
    && (forall i :: 0 <= i < |s.accepted| ==> s.accepted[i] in Reach(net, ever, origin, INITIAL_TTL))
  }

  lemma {:induction false} ReachMonotone(net: Network, ever: set<Id>, origin: Id, h: nat, k: nat)
    requires h <= k
    ensures Reach(net, ever, origin, h) <= Reach(net, ever, origin, k)
    decreases k
  {
    if h < k {
      ReachMonotone(net, ever, origin, h, k - 1);
    }
  }

  lemma ReachStep(net: Network, ever: set<Id>, origin: Id, h: nat, q: Id, p: Id)
    requires q in Reach(net, ever, origin, h) && p in Neighbours(net, q) && p in ever
    ensures p in Reach(net, ever, origin, h + 1)
  {
  }

  lemma StartIsSafe(net: Network, ever: set<Id>, origin: Id, s: State)
    requires Started(net, s, origin) && s.live <= ever
    ensures Safe(net, ever, origin, s)
  {
  }

  lemma AcceptedWithin(net: Network, ever: set<Id>, origin: Id, s: State, m: Message)
    requires s.live <= ever && Founded(net, ever, origin, m) && Accepts(s, m)
    ensures m.target in Reach(net, ever, origin, INITIAL_TTL - m.ttl + 1)
    ensures m.target in Reach(net, ever, origin, INITIAL_TTL)
  {
    ReachStep(net, ever, origin, INITIAL_TTL - m.ttl, m.sender, m.target);
    ReachMonotone(net, ever, origin, INITIAL_TTL - m.ttl + 1, INITIAL_TTL);
  }

  lemma ScheduledFounded(net: Network, ever: set<Id>, origin: Id, s: State, m: Message, targets: seq<Id>)
    requires s.live <= ever && Founded(net, ever, origin, m) && Accepts(s, m) && Visits(targets, Forwards(net, s, m))
    ensures AllFounded(net, ever, origin, Scheduled(targets, m.target, m.ttl - 1))
  {
    AcceptedWithin(net, ever, origin, s, m);
    hide Reach;
    if m.ttl <= 1 {
      assert |targets| == 0;
    }
  }

  lemma MessagesSafe(net: Network, ever: set<Id>, origin: Id, messages: seq<Message>, seen: set<Id>, i: nat,
                     more: seq<Message>, p: Id)
    requires AllFounded(net, ever, origin, messages) && SendersSeen(messages, seen) && i < |messages|
    requires AllFounded(net, ever, origin, more) && SendersSeen(more, seen + {p})
    ensures AllFounded(net, ever, origin, Without(messages, i) + more)
    ensures SendersSeen(Without(messages, i) + more, seen + {p})
  {
    hide Founded;
  }

  lemma MessageDropped(net: Network, ever: set<Id>, origin: Id, messages: seq<Message>, seen: set<Id>, i: nat)
    requires AllFounded(net, ever, origin, messages) && SendersSeen(messages, seen) && i < |messages|
    ensures AllFounded(net, ever, origin, Without(messages, i)) && SendersSeen(Without(messages, i), seen)
  {
    hide Founded;
  }

  lemma ScheduledSeen(targets: seq<Id>, p: Id, ttl: int, seen: set<Id>)
    ensures SendersSeen(Scheduled(targets, p, ttl), seen + {p})
  {
  }

  lemma DeliverySafe(net: Network, ever: set<Id>, origin: Id, s: State, i: nat, targets: seq<Id>)
    requires Safe(net, ever, origin, s) && Enabled(net, s, Deliver(i, targets))
    ensures Safe(net, ever, origin, Delivered(s, i, targets))
  {
    var m := s.inFlight[i];
    assert Founded(net, ever, origin, m);
    if Accepts(s, m) {
      AcceptedWithin(net, ever, origin, s, m);
      ScheduledFounded(net, ever, origin, s, m, targets);
      ScheduledSeen(targets, m.target, m.ttl - 1, s.seen);
      MessagesSafe(net, ever, origin, s.inFlight, s.seen, i, Scheduled(targets, m.target, m.ttl - 1), m.target);
    } else {
      MessageDropped(net, ever, origin, s.inFlight, s.seen, i);
    }
    hide Founded, AllFounded, SendersSeen, Scheduled, Without, Reach, Visits, Forwards;
  }

  /** Every peer that is ever live in the run. */
  predicate EverLive(states: seq<State>, ever: set<Id>) {
    forall i :: 0 <= i < |states| ==> states[i].live <= ever
  }

  /**
   Under any order of deliveries and any churn: a peer accepts at most once, the origin never does,
   and only peers within ten hops through peers that were live at some time do.
   */
  lemma {:induction false} RunSafe(net: Network, ever: set<Id>, origin: Id, states: seq<State>, ops: seq<Op>, n: nat)
    requires Run(net, states, ops) && Started(net, states[0], origin) && EverLive(states, ever) && n < |states|
    ensures Safe(net, ever, origin, states[n])
    ensures Distinct(states[n].accepted) && origin !in states[n].accepted
    ensures forall p :: p in states[n].accepted ==> p in Reach(net, ever, origin, 10)
  {
    hide Started, Delivered, AllFounded, SendersSeen, Reach;
    if n == 0 {
      StartIsSafe(net, ever, origin, states[0]);
    } else {
      RunSafe(net, ever, origin, states, ops, n - 1);
      var s, op := states[n - 1], ops[n - 1];
      assert Enabled(net, s, op) && states[n] == Next(net, s, op);
      match op
      case Deliver(i, targets) => DeliverySafe(net, ever, origin, s, i, targets);
      case Churn(live) => ChurnSafe(net, ever, origin, s, live);
    }
  }

  lemma ChurnSafe(net: Network, ever: set<Id>, origin: Id, s: State, live: set<Id>)
    requires Safe(net, ever, origin, s) && live <= ever
    ensures Safe(net, ever, origin, s.(live := live))
  {
    hide AllFounded, Distinct, Reach;
  }

  // ---------------------------------------------------------------- termination

  function Unseen(net: Network, s: State): nat {
    |net.Keys - s.seen|
  }

  lemma UnseenDrops(net: Network, s: State, m: Message)
    requires Accepts(s, m) && s.live <= net.Keys
    ensures |net.Keys - (s.seen + {m.target})| == Unseen(net, s) - 1
  {
    assert net.Keys - (s.seen + {m.target}) == (net.Keys - s.seen) - {m.target};
  }

  /** Every delivery lowers (peers that have not seen the message, deliveries scheduled). */
  lemma DeliveryDecreases(net: Network, s: State, i: nat, targets: seq<Id>)
    requires s.live <= net.Keys && Enabled(net, s, Deliver(i, targets))
    ensures var t := Delivered(s, i, targets);
            Unseen(net, t) < Unseen(net, s) || (Unseen(net, t) == Unseen(net, s) && |t.inFlight| < |s.inFlight|)
  {
    if Accepts(s, s.inFlight[i]) {
      UnseenDrops(net, s, s.inFlight[i]);
    }
  }

  /** No peer has more than `degree` neighbours. */
  predicate DegreeAtMost(net: Network, degree: nat) {
    forall p :: p in net ==> |net[p]| <= degree
  }

  lemma ForwardsBound(net: Network, s: State, m: Message, degree: nat)
    requires DegreeAtMost(net, degree)
    ensures |Forwards(net, s, m)| <= degree
  {
    if m.ttl > 1 && m.target in net {
      Sets.SubsetSize(Forwards(net, s, m), net[m.target]);
    }
  }

  function Product(a: nat, b: nat): nat {
    a * b
  }

  lemma ProductStep(a: nat, b: nat)
    requires a > 0
    ensures Product(a, b) == Product(a - 1, b) + b
  {
  }

  /** What is scheduled, plus what the peers still to accept can schedule. */
  function Outstanding(net: Network, s: State, degree: nat): nat {
    |s.inFlight| + Product(Unseen(net, s), degree)
  }

  lemma DeliveryUsesUp(net: Network, s: State, i: nat, targets: seq<Id>, degree: nat)
    requires s.live <= net.Keys && Enabled(net, s, Deliver(i, targets)) && DegreeAtMost(net, degree)
    ensures Outstanding(net, Delivered(s, i, targets), degree) < Outstanding(net, s, degree)
  {
    var m := s.inFlight[i];
    if Accepts(s, m) {
      UnseenDrops(net, s, m);
      ForwardsBound(net, s, m, degree);
      ProductStep(Unseen(net, s), degree);
      hide Product, Forwards, DegreeAtMost;
    }
  }

  function Deliveries(ops: seq<Op>): nat {
    if ops == [] then 0 else Deliveries(ops[..|ops| - 1]) + if ops[|ops| - 1].Deliver? then 1 else 0
  }

  lemma {:induction false} DeliveriesUsedUp(net: Network, states: seq<State>, ops: seq<Op>, degree: nat, n: nat)
    requires Run(net, states, ops) && states[0].live <= net.Keys && DegreeAtMost(net, degree) && n <= |ops|
    ensures states[n].live <= net.Keys
    ensures Deliveries(ops[..n]) + Outstanding(net, states[n], degree) <= Outstanding(net, states[0], degree)
  {
    if n > 0 {
      DeliveriesUsedUp(net, states, ops, degree, n - 1);
      var s, op := states[n - 1], ops[n - 1];
      assert Enabled(net, s, op) && states[n] == Next(net, s, op);
      assert ops[..n][..n - 1] == ops[..n - 1];
      hide DegreeAtMost, Outstanding, Run, Visits, Scheduled, Neighbours, Without;
      match op
      case Deliver(i, targets) => DeliveryUsesUp(net, s, i, targets, degree);
      case Churn(live) => ChurnKeeps(net, s, live, degree);
    }
  }

  lemma ChurnKeeps(net: Network, s: State, live: set<Id>, degree: nat)
    ensures Outstanding(net, s.(live := live), degree) == Outstanding(net, s, degree)
  {
  }

  /** However deliveries are ordered and peers come and go, at most peers times degree deliveries run. */
  lemma DeliveriesBounded(net: Network, origin: Id, states: seq<State>, ops: seq<Op>, degree: nat)
    requires Run(net, states, ops) && Started(net, states[0], origin) && DegreeAtMost(net, degree)
    ensures Deliveries(ops) <= Product(|net|, degree)
  {
    DeliveriesUsedUp(net, states, ops, degree, |ops|);
    assert ops[..|ops|] == ops;
    hide Run, Deliveries;
    StartOutstanding(net, states[0], origin, degree);
  }

  lemma StartOutstanding(net: Network, s: State, origin: Id, degree: nat)
    requires Started(net, s, origin) && DegreeAtMost(net, degree)
    ensures Outstanding(net, s, degree) <= Product(|net|, degree)
  {
    Sets.SubsetSize(Neighbours(net, origin) * s.live, net[origin]);
    assert |net.Keys - {origin}| == |net.Keys| - 1;
    assert |net.Keys| == |net|;
    ProductStep(|net|, degree);
  }

  // ---------------------------------------------------------------- exactness in FIFO order

  function Hop(m: Message): int {
    INITIAL_TTL - m.ttl + 1
  }

  /** Deliveries are in order of their hop, and span at most two hops. */
  predicate InLayers(messages: seq<Message>) {
    && (forall i, j :: 0 <= i < j < |messages| ==> Hop(messages[i]) <= Hop(messages[j]))
    && (forall i :: 0 <= i < |messages| ==> Hop(messages[i]) <= Hop(messages[0]) + 1)
  }

  predicate Layered(s: State) {
    InLayers(s.inFlight)
  }

  /** A delivery to the peer within `hops` is scheduled. */
  predicate Promised(s: State, p: Id, hops: nat) {
    exists i :: 0 <= i < |s.inFlight| && s.inFlight[i].target == p && Hop(s.inFlight[i]) <= hops
  }

  /** A live peer next to one that has seen the message within j hops has seen it or is about to. */
  ghost predicate Covered(net: Network, origin: Id, s: State) {
    forall q, p, j: nat ::
      j < INITIAL_TTL && q in s.seen && q in Reach(net, s.live, origin, j) && p in Neighbours(net, q) && p in s.live
          && p !in s.seen
      ==> Promised(s, p, j + 1)
  }

  /** Everyone nearer than the first scheduled delivery has seen the message. */
  lemma {:induction false} NearSeen(net: Network, origin: Id, s: State, j: nat)
    requires origin in s.seen && Layered(s) && Covered(net, origin, s)
    requires j <= INITIAL_TTL && (s.inFlight != [] ==> j < Hop(s.inFlight[0]))
    ensures Reach(net, s.live, origin, j) <= s.seen
  {
    if j > 0 {
      NearSeen(net, origin, s, j - 1);
      forall p | p in Reach(net, s.live, origin, j) ensures p in s.seen {
        if p !in Reach(net, s.live, origin, j - 1) {
          var q :| q in Reach(net, s.live, origin, j - 1) && p in Neighbours(net, q);
          NotPromised(s, p, j);
        }
      }
    }
  }

  lemma NotPromised(s: State, p: Id, j: nat)
    requires Layered(s) && (s.inFlight != [] ==> j < Hop(s.inFlight[0]))
    ensures !Promised(s, p, j)
  {
  }

  lemma StartIsLayered(net: Network, origin: Id, s: State)
    requires Started(net, s, origin)
    ensures Layered(s) && Covered(net, origin, s)
  {
    var targets :| Visits(targets, Neighbours(net, origin) * s.live)
        && s.inFlight == Scheduled(targets, origin, INITIAL_TTL);
    forall q, p, j: nat | j < INITIAL_TTL && q in s.seen && q in Reach(net, s.live, origin, j)
        && p in Neighbours(net, q) && p in s.live && p !in s.seen
      ensures Promised(s, p, j + 1)
    {
      assert q == origin && p in Neighbours(net, origin) * s.live;
      var i :| 0 <= i < |targets| && targets[i] == p;
      assert s.inFlight[i].target == p && Hop(s.inFlight[i]) == 1;
    }
  }

  lemma LayeredTail(messages: seq<Message>, more: seq<Message>)
    requires messages != [] && InLayers(messages)
    requires forall i :: 0 <= i < |more| ==> Hop(more[i]) == Hop(messages[0]) + 1
    ensures InLayers(messages[1..] + more)
  {
    var all := messages[1..] + more;
    assert forall i :: 0 <= i < |messages| - 1 ==> all[i] == messages[i + 1];
    assert forall i :: |messages| - 1 <= i < |all| ==> all[i] == more[i - (|messages| - 1)];
    hide Hop;
  }

  /** What the first delivery schedules. */
  function Follow(s: State, targets: seq<Id>): seq<Message>
    requires s.inFlight != []
  {
    if Accepts(s, s.inFlight[0]) then Scheduled(targets, s.inFlight[0].target, s.inFlight[0].ttl - 1) else []
  }

  lemma FirstStep(s: State, targets: seq<Id>)
    requires s.inFlight != []
    ensures Delivered(s, 0, targets).inFlight == s.inFlight[1..] + Follow(s, targets)
  {
    assert Without(s.inFlight, 0) == s.inFlight[1..];
    hide Scheduled, Accepts;
  }

  lemma FirstLayered(s: State, targets: seq<Id>)
    requires Layered(s) && s.inFlight != []
    ensures Layered(Delivered(s, 0, targets))
  {
    FirstStep(s, targets);
    assert forall i :: 0 <= i < |Follow(s, targets)| ==> Hop(Follow(s, targets)[i]) == Hop(s.inFlight[0]) + 1;
    hide InLayers, Delivered, Hop, Follow;
    LayeredTail(s.inFlight, Follow(s, targets));
  }

  /** A promise survives the first delivery unless that delivery is the one promised. */
  lemma PromiseKept(s: State, targets: seq<Id>, p: Id, hops: nat)
    requires s.inFlight != [] && Promised(s, p, hops)
    ensures p == s.inFlight[0].target || Promised(Delivered(s, 0, targets), p, hops)
  {
    var t := Delivered(s, 0, targets);
    var i :| 0 <= i < |s.inFlight| && s.inFlight[i].target == p && Hop(s.inFlight[i]) <= hops;
    if i > 0 {
      assert t.inFlight[i - 1] == s.inFlight[i];
    }
  }

  /** The peer that accepts in FIFO order promises the message to its neighbours in time. */
  lemma NewPromise(net: Network, origin: Id, s: State, targets: seq<Id>, p: Id, j: nat)
    requires origin in s.seen && Layered(s) && Covered(net, origin, s) && s.inFlight != []
    requires var m := s.inFlight[0];
             && Accepts(s, m) && m.sender in s.seen && 1 <= m.ttl <= INITIAL_TTL && Visits(targets, Forwards(net, s, m))
             && m.target in Reach(net, s.live, origin, j) && p in Neighbours(net, m.target)
    requires j < INITIAL_TTL && p in s.live && p !in s.seen
    ensures Promised(Delivered(s, 0, targets), p, j + 1)
  {
    var m, t := s.inFlight[0], Delivered(s, 0, targets);
    hide Reach, Layered, Delivered, Covered;
    if j < Hop(m) {
      NearSeen(net, origin, s, j);
      assert false;
    } else {
      assert p in Forwards(net, s, m);
      var i :| 0 <= i < |targets| && targets[i] == p;
      FirstStep(s, targets);
      assert Follow(s, targets)[i] == Message(p, m.target, m.ttl - 1);
      assert t.inFlight[|s.inFlight| - 1 + i] == Follow(s, targets)[i];
    }
  }

  lemma FirstCovered(net: Network, origin: Id, s: State, targets: seq<Id>)
    requires origin in s.seen && Layered(s) && Covered(net, origin, s) && Enabled(net, s, Deliver(0, targets))
    requires s.inFlight[0].sender in s.seen && 1 <= s.inFlight[0].ttl <= INITIAL_TTL
    ensures Covered(net, origin, Delivered(s, 0, targets))
  {
    var m, t := s.inFlight[0], Delivered(s, 0, targets);
    hide Reach, Layered, Promised, Forwards, Visits;
    forall q, p, j: nat | j < INITIAL_TTL && q in t.seen && q in Reach(net, t.live, origin, j)
        && p in Neighbours(net, q) && p in t.live && p !in t.seen
      ensures Promised(t, p, j + 1)
    {
      if q in s.seen {
        PromiseKept(s, targets, p, j + 1);
      } else {
        NewPromise(net, origin, s, targets, p, j);
      }
    }
  }

  /** What a first-in-first-out round keeps. */
  ghost predicate Orderly(net: Network, origin: Id, s: State) {
    && Safe(net, s.live, origin, s) && Layered(s) && Covered(net, origin, s)
  }

  lemma FirstDelivery(net: Network, origin: Id, s: State, targets: seq<Id>)
    requires Orderly(net, origin, s) && Enabled(net, s, Deliver(0, targets))
    ensures Orderly(net, origin, Delivered(s, 0, targets))
  {
    var m := s.inFlight[0];
    assert m.sender in s.seen && Founded(net, s.live, origin, m);
    DeliverySafe(net, s.live, origin, s, 0, targets);
    FirstLayered(s, targets);
    FirstCovered(net, origin, s, targets);
    hide Safe, Layered, Covered, Enabled;
  }

  /** Once nothing is scheduled, exactly the live peers within ten hops have accepted. */
  lemma QuietIsExact(net: Network, origin: Id, s: State)
    requires Orderly(net, origin, s) && s.inFlight == []
    ensures forall p :: p in s.accepted <==> p in Reach(net, s.live, origin, 10) && p != origin
  {
    NearSeen(net, origin, s, INITIAL_TTL);
    hide Reach, Covered;
  }
}
