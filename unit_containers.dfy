/** The unit containers and the generic swarm driver of the first library
    generation: an ordered container over a growable vector, an
    identity-keyed container over a hash set, and the `Swarm` shell that owns
    a vector container and fills and drives it. */
module UnitContainers {
  import opened Lifecycle

  /** Identity of a swarm-level parameter object. */
  type ParamsId = nat

  /** SwarmVectorContainer: unit links in insertion order, over a vector with
      a reserved capacity. `calls` is the trace of lifecycle calls the
      container has made on its units, oldest first. */
  class VectorContainer {
    var links: seq<Link>
    var capacity: nat
    var calls: seq<Invocation<UnitId>>

    /** reserved_size() >= size(): a vector never holds more than its capacity. */
    ghost predicate Valid()
      reads this
    {
      |links| <= capacity
    }

    /** Built with a size hint, which is reserved up front. */
    constructor (hint: nat)
      ensures Valid()
      ensures links == [] && calls == []
      ensures capacity == hint
    {
      links, capacity, calls := [], hint, [];
    }

    function Size(): nat
      reads this
    {
      |links|
    }

    function ReservedSize(): nat
      reads this
    {
      capacity
    }

    /** add_unit: the link goes to the end; earlier links keep their places. */
    method AddUnit(link: Link)
      requires Valid()
      modifies this`links, this`capacity
      ensures Valid()
      ensures links == old(links) + [link]
      ensures capacity == CapacityAfterPush(old(capacity), old(|links|))
    {
      capacity := CapacityAfterPush(capacity, |links|);
      links := links + [link];
    }

    /** for_each: the returned sequence is the units the action is applied
        to, in the order it is applied; null links are skipped. */
    method ForEach() returns (visited: seq<UnitId>)
      ensures visited == NonNull(links)
    {
      visited := [];
      for i := 0 to |links|
        invariant visited == NonNull(links[..i])
      {
        NonNullAppend(links[..i], [links[i]]);
        assert links[..i + 1] == links[..i] + [links[i]];
        if links[i].Some? {
          visited := visited + [links[i].value];
        }
      }
      assert links[..|links|] == links;
    }

    /** Calls `c` on every stored unit in insertion order. There is no null
        check, so every link must be non-null. */
    method Dispatch(c: Call)
      requires None !in links
      modifies this`calls
      ensures calls == old(calls) + Forward(NonNull(links), c)
    {
      for i := 0 to |links|
        invariant calls == old(calls) + Forward(NonNull(links[..i]), c)
      {
        ForwardNonNullStep(links, i, c);
        calls := calls + [Invocation(links[i].value, c)];
      }
      assert links[..|links|] == links;
    }

    method Init()
      requires None !in links
      modifies this`calls
      ensures calls == old(calls) + Forward(NonNull(links), InitCall)
    {
      Dispatch(InitCall);
    }

    method Iter()
      requires None !in links
      modifies this`calls
      ensures calls == old(calls) + Forward(NonNull(links), IterCall)
    {
      Dispatch(IterCall);
    }
  }

  /** The units behind the non-null links of a set of links. */
  function LinkedUnits(links: set<Link>): (r: set<UnitId>)
    ensures forall id :: id in r <==> Some(id) in links
  {
    set l | l in links && l.Some? :: l.value
  }

  /** `events` calls `c` exactly once on every unit of `units` and on nothing
      else, in some order. */
  ghost predicate CallsEachOnce(events: seq<Invocation<UnitId>>, units: set<UnitId>, c: Call) {
    && Distinct(Targets(events))
    && (forall i :: 0 <= i < |events| ==> events[i].call == c)
    && (forall id :: id in Targets(events) <==> id in units)
  }

  /** SwarmUnorderedSetContainer: unit links keyed by pointer identity, so a
      link to an already stored unit is not stored twice; no traversal
      order is promised. */
  class SetContainer {
    var links: set<Link>
    const hint: nat
    var calls: seq<Invocation<UnitId>>

    constructor (hint: nat)
      ensures links == {} && calls == [] && this.hint == hint
    {
      links, this.hint, calls := {}, hint, [];
    }

    function Size(): nat
      reads this
    {
      |links|
    }

    /** reserved_size: the construction hint (see README). */
    function ReservedSize(): nat
    {
      hint
    }

    /** add_unit: a link whose pointer is already stored leaves the set as it
        was; a new pointer grows it by one. */
    method AddUnit(link: Link)
      modifies this`links
      ensures links == old(links) + {link}
      ensures |links| == if link in old(links) then |old(links)| else |old(links)| + 1
    {
      links := links + {link};
    }

    /** for_each: each unit behind a non-null link exactly once, in an order
        of the container's choosing. */
    method ForEach() returns (visited: seq<UnitId>)
      ensures Distinct(visited)
      ensures forall id :: id in visited <==> Some(id) in links
    {
      visited := [];
      var remaining := links;
      while remaining != {}
        invariant remaining <= links
        invariant Distinct(visited)
        invariant forall id :: id in visited <==> Some(id) in links - remaining
        decreases remaining
      {
        var l :| l in remaining;
        if l.Some? {
          visited := visited + [l.value];
        }
        remaining := remaining - {l};
      }
    }

    /** Calls `c` once on every stored unit, in an order of the container's
        choosing. There is no null check, so no link may be null. */
    method Dispatch(c: Call)
      requires None !in links
      modifies this`calls
      ensures |calls| >= |old(calls)| && calls[..|old(calls)|] == old(calls)
      ensures CallsEachOnce(calls[|old(calls)|..], LinkedUnits(links), c)
    {
      ghost var start := |calls|;
      var remaining := links;
      while remaining != {}
        invariant remaining <= links
        invariant |calls| >= start && calls[..start] == old(calls)
        invariant Distinct(Targets(calls[start..]))
        invariant forall i :: start <= i < |calls| ==> calls[i].call == c
        invariant forall id :: id in Targets(calls[start..]) <==> Some(id) in links - remaining
        decreases remaining
      {
        var l :| l in remaining;
        ghost var before := calls[start..];
        calls := calls + [Invocation(l.value, c)];
        assert calls[start..] == before + [Invocation(l.value, c)];
        TargetsAppend(before, [Invocation(l.value, c)]);
        remaining := remaining - {l};
      }
    }

    method Init()
      requires None !in links
      modifies this`calls
      ensures |calls| >= |old(calls)| && calls[..|old(calls)|] == old(calls)
      ensures CallsEachOnce(calls[|old(calls)|..], LinkedUnits(links), InitCall)
    {
      Dispatch(InitCall);
    }

    method Iter()
      requires None !in links
      modifies this`calls
      ensures |calls| >= |old(calls)| && calls[..|old(calls)|] == old(calls)
      ensures CallsEachOnce(calls[|old(calls)|..], LinkedUnits(links), IterCall)
    {
      Dispatch(IterCall);
    }
  }

  /** Number of passes the reserve-filling loop of `Swarm::init<T>(true)`
      makes from pass `i` on, for a container that held `size` units with
      `reserve` reserved when the loop began. The bound
      `reserved_size() - size()` is re-read on every pass, after `i` and the
      size have both grown. */
  function ReservePasses(i: nat, size: nat, reserve: nat): nat
    decreases reserve - i
  {
    if size + i <= reserve && i < reserve - (size + i) then 1 + ReservePasses(i + 1, size, reserve)
    else 0
  }

  /** The as-written loop fills only half the reserve, rounded up. */
  lemma {:induction false} ReservePassesHalf(i: nat, size: nat, reserve: nat)
    requires size + 2 * i <= reserve + 1
    ensures ReservePasses(i, size, reserve) == (reserve - size - 2 * i + 1) / 2
    decreases reserve - i
  {
    if i < reserve - (size + i) {
      ReservePassesHalf(i + 1, size, reserve);
    }
  }

  /** Concrete instance: an empty container with four reserved slots gets
      two units, not four. */
  lemma ReserveHalfFilledExample()
    ensures ReservePasses(0, 0, 4) == 2
  {
    ReservePassesHalf(0, 0, 4);
  }

  /** Swarm: owns a vector container and the swarm-level parameters. Units
      are created with `new T()`: `nextId` is the identity the next one
      receives, and no stored link refers to it or beyond. */
  class Swarm {
    const units: VectorContainer
    const params: ParamsId
    var nextId: nat

    ghost predicate Valid()
      reads this, units
    {
      && units.Valid()
      && (forall l :: l in units.links && l.Some? ==> l.value < nextId)
    }

    constructor (params: ParamsId, size: nat)
      ensures Valid() && fresh(units)
      ensures this.params == params
      ensures units.links == [] && units.calls == [] && units.capacity == size && nextId == 0
    {
      this.params := params;
      units := new VectorContainer(size);
      nextId := 0;
    }

    /** init(): delegated unchanged to the container. */
    method Init()
      requires Valid() && None !in units.links
      modifies units`calls
      ensures units.calls == old(units.calls) + Forward(NonNull(units.links), InitCall)
    {
      units.Init();
    }

    /** iter(): delegated unchanged to the container. */
    method Iter()
      requires Valid() && None !in units.links
      modifies units`calls
      ensures units.calls == old(units.calls) + Forward(NonNull(units.links), IterCall)
    {
      units.Iter();
    }

    /** for_each(action): delegated unchanged to the container. */
    method ForEach() returns (visited: seq<UnitId>)
      ensures visited == NonNull(units.links)
    {
      visited := units.ForEach();
    }

    /** init<T>(create_reserve_units), as written: with `true`, adds fresh
        units while the pass counter is below `reserved_size() - size()`,
        which shrinks as units are added, so only
        `ReservePasses(0, size, reserve)` units are created; then runs
        `init()` over all units. With `false`, it only runs `init()`. */
    method InitReserve(createReserveUnits: bool)
      requires Valid() && None !in units.links
      modifies this, units
      ensures Valid()
      ensures units.capacity == old(units.capacity)
      ensures units.links == old(units.links)
        + FreshLinks(old(nextId), if createReserveUnits then ReservePasses(0, old(|units.links|), old(units.capacity)) else 0)
      ensures units.calls == old(units.calls) + Forward(NonNull(units.links), InitCall)
    {
      ghost var s, r := |units.links|, units.capacity;
      if createReserveUnits {
        var i := 0;
        while i < units.capacity - |units.links|
          invariant Valid() && None !in units.links
          invariant units.capacity == r && |units.links| == s + i
          invariant nextId == old(nextId) + i
          invariant units.links == old(units.links) + FreshLinks(old(nextId), i)
          invariant units.calls == old(units.calls)
          invariant i + ReservePasses(i, s, r) == ReservePasses(0, s, r)
          decreases r - i
        {
          ReservePassesStep(i, s, r);
          units.AddUnit(Some(nextId));
          assert FreshLinks(old(nextId), i + 1) == FreshLinks(old(nextId), i) + [Some(nextId)];
          nextId := nextId + 1;
          i := i + 1;
        }
      }
      Init();
    }
  }

  lemma ReservePassesStep(i: nat, size: nat, reserve: nat)
    requires size + i <= reserve && i < reserve - (size + i)
    ensures ReservePasses(i, size, reserve) == 1 + ReservePasses(i + 1, size, reserve)
  {
  }
}
