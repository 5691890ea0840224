/** Tasks: values with a compile-time level below `MaximumTaskLvl`, bound
    once to an owning unit and a parameter object. A level outside the range
    is rejected when the task type is formed; it is never clamped. */
module Tasks {
  import opened Lifecycle

  /** Identity of a task parameter object. */
  type TaskParamsId = nat

  /** Levels run from 0 up to, and excluding, this bound. */
  const MaximumTaskLvl: nat := 256

  type TaskLevel = l: nat | l < MaximumTaskLvl

  /** A task. The level-0 and top-level specialisations are empty marker
      types without unit or parameters; every other level is an ordinary
      task holding the unit pointer (possibly null) and the parameters it
      was built with. */
  datatype Task =
    | MinimumTask
    | MaximumTask
    | LeveledTask(lvl: TaskLevel, unit: Option<UnitId>, params: TaskParamsId)
  {
    /** The level the task type was instantiated with. The two sentinel
        types carry no `get_lvl()`; this model places them at 0 and
        `MaximumTaskLvl - 1`, the levels that select them. */
    function Level(): (r: TaskLevel)
      ensures MinimumTask? ==> r == 0
      ensures MaximumTask? ==> r == MaximumTaskLvl - 1
    {
      match this
      case MinimumTask => 0
      case MaximumTask => MaximumTaskLvl - 1
      case LeveledTask(l, _, _) => l
    }

    /** A task is atomic (nothing left to decompose) at level 0. */
    predicate Atomic() {
      Level() == 0
    }
  }

  /** Why a task type could not be formed. */
  datatype TaskError = LevelOutOfRange(level: nat)

  datatype Result<T> = Ok(value: T) | Err(error: TaskError)

  /** `ITask<Lvl, Unit, Params>(unit, params)`: accepted only for
      `Lvl < MaximumTaskLvl`; levels 0 and `MaximumTaskLvl - 1` select the
      sentinel specialisations; any other level keeps the unit and the
      parameters it was given, and `get_lvl()` answers `Lvl`. */
  function NewTask(level: nat, unit: Option<UnitId>, params: TaskParamsId): (r: Result<Task>)
    ensures r.Ok? <==> level < MaximumTaskLvl
    ensures r.Err? ==> r.error == LevelOutOfRange(level)
    ensures r.Ok? ==> r.value.Level() == level
    ensures r.Ok? && 0 < level < MaximumTaskLvl - 1 ==>
              r.value.LeveledTask? && r.value.unit == unit && r.value.params == params
    ensures level == 0 ==> r == Ok(MinimumTask)
    ensures level == MaximumTaskLvl - 1 ==> r == Ok(MaximumTask)
  {
    if level >= MaximumTaskLvl then Err(LevelOutOfRange(level))
    else if level == 0 then Ok(MinimumTask)
    else if level == MaximumTaskLvl - 1 then Ok(MaximumTask)
    else Ok(LeveledTask(level, unit, params))
  }

  /** The level test: a level-5 task built with a null unit reports level 5. */
  lemma LevelFiveTask(params: TaskParamsId)
    ensures NewTask(5, None, params).Ok?
    ensures NewTask(5, None, params).value.Level() == 5
  {
  }

  /** The two sentinels are different tasks at the two ends of the range,
      and no ordinary task shares a level with either. */
  lemma SentinelsDistinct(t: Task)
    ensures MinimumTask != MaximumTask
    ensures MinimumTask.Level() < MaximumTask.Level()
    ensures t.LeveledTask? && NewTask(t.lvl, t.unit, t.params) == Ok(t) ==>
              0 < t.Level() < MaximumTaskLvl - 1
  {
  }
}
