/** The agent container and swarm driver of the second library generation:
    a vector of agent links whose bulk `init`/`iter` skip null links (and may
    run in parallel, modelled here as one sequential pass), and the `Swarm`
    that owns it and populates it with freshly constructed agents. */
module AgentContainers {
  import opened Lifecycle

  /** VectorAgentsContainer: agent links in insertion order over a vector
      with a reserved capacity; `calls` is the trace of lifecycle calls made
      on the agents, oldest first. */
  class VectorAgentsContainer {
    var links: seq<Link>
    var capacity: nat
    var calls: seq<Invocation<UnitId>>

    ghost predicate Valid()
      reads this
    {
      |links| <= capacity
    }

    /** Built with a size hint, which is reserved when it is positive. */
    constructor (sizeHint: nat)
      ensures Valid()
      ensures links == [] && calls == []
      ensures capacity == sizeHint
    {
      links, calls := [], [];
      capacity := if sizeHint > 0 then sizeHint else 0;
    }

    function Size(): nat
      reads this
    {
      |links|
    }

    function Capacity(): nat
      reads this
    {
      capacity
    }

    /** add_agent: the link goes to the end; existing agents keep their
        positions. */
    method AddAgent(link: Link)
      requires Valid()
      modifies this`links, this`capacity
      ensures Valid()
      ensures links == old(links) + [link]
      ensures capacity == CapacityAfterPush(old(capacity), old(|links|))
    {
      capacity := CapacityAfterPush(capacity, |links|);
      links := links + [link];
    }

    /** for_each: the agents the action is applied to, in the order it is
        applied; null links are skipped. */
    method ForEach() returns (visited: seq<UnitId>)
      ensures visited == NonNull(links)
    {
      visited := [];
      for i := 0 to |links|
        invariant visited == NonNull(links[..i])
      {
        NonNullAppend(links[..i], [links[i]]);
        assert links[..i + 1] == links[..i] + [links[i]];
        if links[i].Some? {
          visited := visited + [links[i].value];
        }
      }
      assert links[..|links|] == links;
    }

    /** Calls `c` on every agent behind a non-null link, once each, in
        insertion order. */
    method Dispatch(c: Call)
      modifies this`calls
      ensures calls == old(calls) + Forward(NonNull(links), c)
    {
      for i := 0 to |links|
        invariant calls == old(calls) + Forward(NonNull(links[..i]), c)
      {
        ForwardNonNullStep(links, i, c);
        if links[i].Some? {
          calls := calls + [Invocation(links[i].value, c)];
        }
      }
      assert links[..|links|] == links;
    }

    method Init()
      modifies this`calls
      ensures calls == old(calls) + Forward(NonNull(links), InitCall)
    {
      Dispatch(InitCall);
    }

    method Iter()
      modifies this`calls
      ensures calls == old(calls) + Forward(NonNull(links), IterCall)
    {
      Dispatch(IterCall);
    }
  }

  /** Swarm: owns one agent container. Agents are created with
      `new ConcreteAgentT()`: `nextId` is the identity the next one
      receives, and no stored link refers to it or beyond. */
  class Swarm {
    const agents: VectorAgentsContainer
    var nextId: nat

    ghost predicate Valid()
      reads this, agents
    {
      && agents.Valid()
      && (forall l :: l in agents.links && l.Some? ==> l.value < nextId)
    }

    constructor (capacityHint: nat)
      ensures Valid() && fresh(agents)
      ensures agents.links == [] && agents.calls == []
      ensures agents.capacity == capacityHint && nextId == 0
    {
      agents := new VectorAgentsContainer(capacityHint);
      nextId := 0;
    }

    function AgentCount(): nat
      reads this, agents
    {
      agents.Size()
    }

    function Capacity(): nat
      reads this, agents
    {
      agents.Capacity()
    }

    /** add_agent: delegated unchanged to the container. Any link is
        accepted; a link to an agent the caller created itself moves the
        next fresh identity past it. */
    method AddAgent(link: Link)
      requires Valid()
      modifies this`nextId, agents`links, agents`capacity
      ensures Valid()
      ensures agents.links == old(agents.links) + [link]
      ensures agents.capacity == CapacityAfterPush(old(agents.capacity), old(|agents.links|))
      ensures nextId == if link.Some? && link.value >= old(nextId) then link.value + 1 else old(nextId)
    {
      agents.AddAgent(link);
      if link.Some? && link.value >= nextId {
        nextId := link.value + 1;
      }
    }

    /** populate<T>(count): `count` freshly constructed agents are appended,
        in creation order, after the existing ones. */
    method Populate(count: nat)
      requires Valid()
      modifies this, agents
      ensures Valid()
      ensures agents.links == old(agents.links) + FreshLinks(old(nextId), count)
      ensures AgentCount() == old(AgentCount()) + count
      ensures agents.calls == old(agents.calls)
    {
      for i := 0 to count
        invariant Valid()
        invariant nextId == old(nextId) + i
        invariant agents.links == old(agents.links) + FreshLinks(old(nextId), i)
        invariant agents.calls == old(agents.calls)
      {
        agents.AddAgent(Some(nextId));
        assert FreshLinks(old(nextId), i + 1) == FreshLinks(old(nextId), i) + [Some(nextId)];
        nextId := nextId + 1;
      }
    }

    /** init(): delegated unchanged to the container. */
    method Init()
      modifies agents`calls
      ensures agents.calls == old(agents.calls) + Forward(NonNull(agents.links), InitCall)
    {
      agents.Init();
    }

    /** iter(): delegated unchanged to the container. */
    method Iter()
      modifies agents`calls
      ensures agents.calls == old(agents.calls) + Forward(NonNull(agents.links), IterCall)
    {
      agents.Iter();
    }

    /** for_each_agent(action): delegated unchanged to the container. */
    method ForEachAgent() returns (visited: seq<UnitId>)
      ensures visited == NonNull(agents.links)
    {
      visited := agents.ForEach();
    }
  }

  /** The scenario of the library's demo: a swarm built with capacity hint N
      and populated with N agents holds N agents within its capacity, and a
      round of `init()` or `iter()` calls every one of them exactly once. */
  method PopulateScenario(n: nat) returns (count: nat, capacity: nat, rounds: seq<Invocation<UnitId>>)
    ensures count == n && capacity >= n
    ensures forall id: UnitId, c: Call :: Count(rounds, Invocation(id, c)) == if id < n then 1 else 0
  {
    var swarm := PopulatedSwarm(n);
    swarm.Init();
    swarm.Iter();
    count, capacity, rounds := swarm.AgentCount(), swarm.Capacity(), swarm.agents.calls;
    FreshRoundsOnce(n, [], rounds);
  }

  /** A swarm built with capacity hint `n` and populated with `n` agents. */
  method PopulatedSwarm(n: nat) returns (swarm: Swarm)
    ensures fresh(swarm) && fresh(swarm.agents) && swarm.Valid()
    ensures swarm.agents.links == FreshLinks(0, n) && swarm.agents.calls == []
  {
    swarm := new Swarm(n);
    swarm.Populate(n);
  }

  /** The agents of `n` fresh links: identities 0 .. n-1, each once. */
  lemma FreshIds(n: nat)
    ensures |NonNull(FreshLinks(0, n))| == n
    ensures Distinct(NonNull(FreshLinks(0, n)))
    ensures forall id: UnitId :: id in NonNull(FreshLinks(0, n)) <==> id < n
  {
    var links := FreshLinks(0, n);
    assert None !in links;
    NonNullOfLinks(links);
    var ids := NonNull(links);
    assert forall id: UnitId :: id in ids <==> id < n by {
      forall id: UnitId | id < n ensures id in ids { assert ids[id] == id; }
    }
  }

  /** Over `n` fresh agents, one `init` round followed by one `iter` round
      adds to the trace exactly one call of each kind on each agent. */
  lemma FreshRoundsOnce(n: nat, before: seq<Invocation<UnitId>>, rounds: seq<Invocation<UnitId>>)
    requires rounds == before + Forward(NonNull(FreshLinks(0, n)), InitCall) + Forward(NonNull(FreshLinks(0, n)), IterCall)
    ensures forall id: UnitId, c: Call ::
      Count(rounds, Invocation(id, c)) == Count(before, Invocation(id, c)) + if id < n then 1 else 0
  {
    var ids := NonNull(FreshLinks(0, n));
    FreshIds(n);
    forall id: UnitId, c: Call
      ensures Count(rounds, Invocation(id, c)) == Count(before, Invocation(id, c)) + if id < n then 1 else 0
    {
      RoundsCallEachOnce(before, ids, id, c);
    }
  }

  /** Two rounds over distinct agents add one call of each kind per agent. */
  lemma RoundsCallEachOnce<T>(before: seq<Invocation<T>>, ids: seq<T>, t: T, c: Call)
    requires Distinct(ids)
    ensures Count(before + Forward(ids, InitCall) + Forward(ids, IterCall), Invocation(t, c))
         == Count(before, Invocation(t, c)) + if t in ids then 1 else 0
  {
    CountAppend(before + Forward(ids, InitCall), Forward(ids, IterCall), Invocation(t, c));
    CountAppend(before, Forward(ids, InitCall), Invocation(t, c));
    ForwardCallsEachOnce(ids, InitCall, t, c);
    ForwardCallsEachOnce(ids, IterCall, t, c);
  }
}
