/** One announcement with fixed liveness, its deliveries run first in, first out. */
module GossipRound {
  import opened Gossip

  /** Visits the members of a set in some order. */
  method Visit(s: set<Id>) returns (targets: seq<Id>)
    ensures Visits(targets, s)
  {
    targets := [];
    var left := s;
    while left != {}
      invariant left <= s && |targets| + |left| == |s|
      invariant forall i :: 0 <= i < |targets| ==> targets[i] in s
      invariant forall p :: p in s && p !in left ==> exists i :: 0 <= i < |targets| && targets[i] == p
      decreases |left|
    {
      var p :| p in left;
      ghost var before := targets;
      targets := targets + [p];
      left := left - {p};
      assert targets[|before|] == p;
      assert forall i :: 0 <= i < |before| ==> targets[i] == before[i];
    }
  }

  /** A peer handling a delivery that is no longer scheduled. */
  function Received(s: State, m: Message, targets: seq<Id>): State {
    if Accepts(s, m)
    then State(s.live, s.seen + {m.target}, s.inFlight + Scheduled(targets, m.target, m.ttl - 1),
               s.accepted + [m.target])
    else s
  }

  lemma StepIs(net: Network, s: State, targets: seq<Id>)
    requires s.inFlight != []
    ensures var m, t := s.inFlight[0], s.(inFlight := s.inFlight[1..]);
            && Received(t, m, targets) == Delivered(s, 0, targets)
            && (Accepts(t, m) && Visits(targets, Forwards(net, t, m)) ==> Enabled(net, s, Deliver(0, targets)))
            && (!Accepts(t, m) ==> Enabled(net, s, Deliver(0, targets)))
  {
    assert Without(s.inFlight, 0) == s.inFlight[1..];
    hide Scheduled, Visits;
  }

  class Round {
    const net: Network
    const origin: Id
    const live: set<Id>
    var seen: set<Id>
    var inFlight: seq<Message>
    var accepted: seq<Id>

    function Contents(): State
      reads this
    {
      State(live, seen, inFlight, accepted)
    }

    ghost predicate Valid()
      reads this
    {
      live <= net.Keys && Orderly(net, origin, Contents())
    }

    /** The origin broadcasts to its live neighbours, whether or not it is live itself. */
    constructor (net: Network, origin: Id, live: set<Id>)
      requires origin in net && live <= net.Keys
      ensures Valid() && Started(net, Contents(), origin)
      ensures this.net == net && this.origin == origin && this.live == live
    {
      var targets := Visit(Neighbours(net, origin) * live);
      this.net, this.origin, this.live := net, origin, live;
      seen, accepted := {origin}, [];
      inFlight := Scheduled(targets, origin, INITIAL_TTL);
      new;
      assert Started(net, Contents(), origin);
      StartIsSafe(net, live, origin, Contents());
      StartIsLayered(net, origin, Contents());
    }

    /** A peer handles a delivery. */
    method ReceiveGossip(m: Message) returns (ghost targets: seq<Id>)
      modifies this
      ensures Accepts(old(Contents()), m) ==> Visits(targets, Forwards(net, old(Contents()), m))
      ensures Contents() == Received(old(Contents()), m, targets)
    {
      targets := [];
      if m.target !in live || m.target in seen {
        return;
      }
      seen := seen + {m.target};
      accepted := accepted + [m.target];
      if m.ttl > 1 {
        var order := Visit(Neighbours(net, m.target) * live - {m.sender});
        inFlight := inFlight + Scheduled(order, m.target, m.ttl - 1);
        targets := order;
      } else {
        assert inFlight + Scheduled(targets, m.target, m.ttl - 1) == inFlight;
      }
    }

    /** The next delivery: the scheduler runs tasks in the order they were created. */
    method Step() returns (ghost targets: seq<Id>)
      requires Valid() && inFlight != []
      modifies this
      ensures Valid()
      ensures Enabled(net, old(Contents()), Deliver(0, targets))
      ensures Contents() == Delivered(old(Contents()), 0, targets)
    {
      var m := inFlight[0];
      inFlight := inFlight[1..];
      targets := ReceiveGossip(m);
      hide *;
      StepIs(net, old(Contents()), targets);
      FirstDelivery(net, origin, old(Contents()), targets);
    }

    /** Runs until nothing is scheduled: exactly the live peers within ten hops accept, each once. */
    method Drain()
      requires Valid()
      modifies this
      ensures Valid() && inFlight == []
      ensures Distinct(accepted)
      ensures forall p :: p in accepted <==> p in Reach(net, live, origin, 10) && p != origin
    {
      hide Orderly, Reach, Delivered;
      while inFlight != []
        invariant Valid()
        decreases |net.Keys - seen|, |inFlight|
      {
        ghost var before := Contents();
        ghost var targets := Step();
        DeliveryDecreases(net, before, 0, targets);
      }
      QuietIsExact(net, origin, Contents());
      OrderlyDistinct(net, origin, Contents());
    }
  }

  lemma OrderlyDistinct(net: Network, origin: Id, s: State)
    requires Orderly(net, origin, s)
    ensures Distinct(s.accepted)
  {
  }
}
