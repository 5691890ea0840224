/** The component-based agent of the second library generation: an agent
    owns one component per listed component type, each built with a
    reference back to the agent, and forwards `init()`/`iter()` to them in
    the order the types are listed. */
module Agents {
  import opened Lifecycle

  /** A component type of an agent's parameter pack, as a type tag. */
  type ComponentType = nat

  /** A component of type `kind` constructed with a reference to `owner`. */
  datatype Component = Component(kind: ComponentType, owner: Agent)

  /** `has_component<C>()`: the fold `(is_same<C, T1> || ... || is_same<C, Tn>)`
      over the listed types. */
  function AnyIs(kinds: seq<ComponentType>, c: ComponentType): (r: bool)
    ensures r <==> c in kinds
  {
    kinds != [] && (kinds[0] == c || AnyIs(kinds[1..], c))
  }

  /** Position of the first `c` among `kinds`. */
  function IndexOf(kinds: seq<ComponentType>, c: ComponentType): (r: nat)
    requires c in kinds
    ensures r < |kinds| && kinds[r] == c
    ensures forall j :: 0 <= j < r ==> kinds[j] != c
  {
    if kinds[0] == c then 0 else 1 + IndexOf(kinds[1..], c)
  }

  /** Agent<Derived, ComponentsT...>: the component tuple in the order the
      types are listed; `calls` is the trace of lifecycle calls the agent
      has made on its components (named by type), oldest first. */
  class Agent {
    const kinds: seq<ComponentType>
    var components: seq<Component>
    var calls: seq<Invocation<ComponentType>>

    /** One component per listed type, in order, each owned by this agent. */
    ghost predicate Valid()
      reads this
    {
      && |components| == |kinds|
      && forall i :: 0 <= i < |components| ==> components[i] == Component(kinds[i], this)
    }

    /** Agent(derived_this): every component is built from the same owner
        reference. */
    constructor (kinds: seq<ComponentType>)
      ensures Valid()
      ensures this.kinds == kinds && calls == []
      ensures forall comp :: comp in components ==> comp.owner == this
    {
      this.kinds := kinds;
      calls := [];
      new;
      components := seq(|kinds|, i requires 0 <= i < |kinds| => Component(kinds[i], this));
    }

    /** The comma fold over the tuple: `c` on each component once, left to
        right. */
    method Dispatch(c: Call)
      requires Valid()
      modifies this`calls
      ensures calls == old(calls) + Forward(kinds, c)
    {
      for i := 0 to |components|
        invariant calls == old(calls) + Forward(kinds[..i], c)
      {
        ForwardStep(old(calls), kinds, i, c);
        calls := calls + [Invocation(components[i].kind, c)];
      }
      assert kinds[..|kinds|] == kinds;
    }

    /** init(): `init()` on every component, in the listed order. */
    method Init()
      requires Valid()
      modifies this`calls
      ensures calls == old(calls) + Forward(kinds, InitCall)
    {
      Dispatch(InitCall);
    }

    /** iter(): `iter()` on every component, in the listed order. */
    method Iter()
      requires Valid()
      modifies this`calls
      ensures calls == old(calls) + Forward(kinds, IterCall)
    {
      Dispatch(IterCall);
    }

    /** has_component<C>(): true exactly when `c` is one of the listed types. */
    function HasComponent(c: ComponentType): (r: bool)
      ensures r <==> c in kinds
    {
      AnyIs(kinds, c)
    }

    /** get_component<C>(): only permitted for a listed type that occurs once
        (`std::get` by type is ill-formed otherwise); gives this agent's
        component of that type. */
    function GetComponent(c: ComponentType): (r: Component)
      reads this
      requires Valid() && HasComponent(c) && Count(kinds, c) == 1
      ensures r.kind == c && r.owner == this
      ensures r in components
    {
      components[IndexOf(kinds, c)]
    }
  }

  /** The demo's drone: movement, communication and task components. */
  const Movement: ComponentType := 0
  const Communication: ComponentType := 1
  const TaskKind: ComponentType := 2

  /** Building a drone and running one `init()` then one `iter()`: every
      component is reached once per call, movement first, and each one can
      be looked up and refers back to the drone. */
  method DroneScenario() returns (rounds: seq<Invocation<ComponentType>>, owned: bool)
    ensures rounds == [Invocation(Movement, InitCall), Invocation(Communication, InitCall), Invocation(TaskKind, InitCall),
                       Invocation(Movement, IterCall), Invocation(Communication, IterCall), Invocation(TaskKind, IterCall)]
    ensures owned
  {
    var drone := new Agent([Movement, Communication, TaskKind]);
    drone.Init();
    drone.Iter();
    rounds := drone.calls;
    CountDistinct(drone.kinds, Communication);
    var comm := drone.GetComponent(Communication);
    owned := comm.owner == drone && comm.kind == Communication;
  }
}
