/** The basic swarm unit of the first library generation: a unit made of a
    communication module, a task-manager module and an executor module,
    which forwards each lifecycle call to the three modules in that fixed
    order. */
module SwarmUnits {
  import opened Lifecycle
  import UnitContainers

  type ParamsId = UnitContainers.ParamsId

  /** The three module slots of a unit. */
  datatype Role = Communication | TaskManager | Executor

  /** A module of the given role, built from its own parameters, or
      default-constructed (`None`). */
  datatype Module = Module(role: Role, params: Option<ParamsId>)

  /** The order in which a unit forwards a lifecycle call to its modules. */
  function ModuleOrder(): (r: seq<Role>)
    ensures |r| == 3 && Distinct(r)
    ensures r[0] == Communication && r[1] == TaskManager && r[2] == Executor
  {
    [Communication, TaskManager, Executor]
  }

  /** One unit-level round reaches each module exactly once with the call
      that was made, and never with the other call. */
  lemma RoundCallsEachModuleOnce(c: Call, role: Role, d: Call)
    ensures Count(Forward(ModuleOrder(), c), Invocation(role, d)) == if d == c then 1 else 0
  {
    var order := ModuleOrder();
    assert role in order by {
      match role
      case Communication => assert order[0] == role;
      case TaskManager => assert order[1] == role;
      case Executor => assert order[2] == role;
    }
    ForwardCallsEachOnce(order, c, role, d);
  }

  /** BasicSwarmUnit: the unit's own parameters (`None` when
      default-constructed) and its three modules; `calls` is the trace of
      lifecycle calls the unit has made on its modules, oldest first. */
  class BasicSwarmUnit {
    const params: Option<ParamsId>
    const communication: Module
    const taskManager: Module
    const executor: Module
    var calls: seq<Invocation<Role>>

    /** Each slot holds a module of its own role. */
    ghost predicate Valid()
      reads this
    {
      communication.role == Communication && taskManager.role == TaskManager && executor.role == Executor
    }

    /** Default constructor: every module default-constructed, the executor
        slot with an executor module. */
    constructor Default()
      ensures Valid() && calls == []
      ensures params == None
      ensures communication.params == None && taskManager.params == None && executor.params == None
    {
      params := None;
      communication := Module(Communication, None);
      taskManager := Module(TaskManager, None);
      executor := Module(Executor, None);
      calls := [];
    }

    /** Params-only constructor: stores the unit parameters as given. */
    constructor WithParams(p: ParamsId)
      ensures Valid() && calls == []
      ensures params == Some(p)
      ensures communication.params == None && taskManager.params == None && executor.params == None
    {
      params := Some(p);
      communication := Module(Communication, None);
      taskManager := Module(TaskManager, None);
      executor := Module(Executor, None);
      calls := [];
    }

    /** Full constructor: stores the unit parameters and builds each module
        from its own parameters. */
    constructor Full(p: ParamsId, commParams: ParamsId, taskParams: ParamsId, execParams: ParamsId)
      ensures Valid() && calls == []
      ensures params == Some(p)
      ensures communication.params == Some(commParams)
      ensures taskManager.params == Some(taskParams)
      ensures executor.params == Some(execParams)
    {
      params := Some(p);
      communication := Module(Communication, Some(commParams));
      taskManager := Module(TaskManager, Some(taskParams));
      executor := Module(Executor, Some(execParams));
      calls := [];
    }

    /** init(): communication, then task manager, then executor. */
    method Init()
      requires Valid()
      modifies this`calls
      ensures calls == old(calls) + Forward(ModuleOrder(), InitCall)
    {
      calls := calls + [Invocation(communication.role, InitCall)];
      calls := calls + [Invocation(taskManager.role, InitCall)];
      calls := calls + [Invocation(executor.role, InitCall)];
    }

    /** iter(): the same three modules in the same order. */
    method Iter()
      requires Valid()
      modifies this`calls
      ensures calls == old(calls) + Forward(ModuleOrder(), IterCall)
    {
      calls := calls + [Invocation(communication.role, IterCall)];
      calls := calls + [Invocation(taskManager.role, IterCall)];
      calls := calls + [Invocation(executor.role, IterCall)];
    }
  }

  /** A unit built with all parameters and then run through `init()` and one
      `iter()`: the modules see init in order, then iter in order, and each
      module gets each call once. */
  method UnitScenario(p: ParamsId, cp: ParamsId, tp: ParamsId, ep: ParamsId)
    returns (rounds: seq<Invocation<Role>>, stored: Option<ParamsId>)
    ensures rounds == [Invocation(Communication, InitCall), Invocation(TaskManager, InitCall), Invocation(Executor, InitCall),
                       Invocation(Communication, IterCall), Invocation(TaskManager, IterCall), Invocation(Executor, IterCall)]
    ensures stored == Some(p)
  {
    var unit := new BasicSwarmUnit.Full(p, cp, tp, ep);
    unit.Init();
    unit.Iter();
    rounds, stored := unit.calls, unit.params;
  }
}
