/** The task-manager module of a unit: a double-ended queue of tasks, front
    first, with insertion at either end and decomposition of the front task
    into atomic (level-0) subtasks placed at the front. */
module TaskManagers {
  import opened Lifecycle
  import opened Tasks

  /** A decomposition rule: the subtasks a task splits into. */
  type Decomposer = Task -> seq<Task>

  /** Every non-atomic task splits into subtasks of strictly lower level. */
  ghost predicate Lowering(rule: Decomposer) {
    forall t: Task, i :: 0 <= i < |rule(t)| && !t.Atomic() ==> rule(t)[i].Level() < t.Level()
  }

  /** The highest level in `ts` (0 for none). */
  function MaxLevel(ts: seq<Task>): (r: nat)
    ensures forall i :: 0 <= i < |ts| ==> ts[i].Level() <= r
    ensures ts == [] ==> r == 0
    ensures ts != [] ==> exists i :: 0 <= i < |ts| && ts[i].Level() == r
  {
    if ts == [] then 0
    else var m := MaxLevel(ts[1..]); if ts[0].Level() >= m then ts[0].Level() else m
  }

  lemma MaxLevelBelow(t: Task, rule: Decomposer)
    requires Lowering(rule) && !t.Atomic()
    ensures MaxLevel(rule(t)) < t.Level()
  {
    if rule(t) != [] {
      var i :| 0 <= i < |rule(t)| && rule(t)[i].Level() == MaxLevel(rule(t));
    }
  }

  /** The full decomposition of `t`: the atomic tasks its decomposition tree
      ends in, left to right. */
  function Full(t: Task, rule: Decomposer): seq<Task>
    requires Lowering(rule)
    decreases t.Level(), 0, 0
  {
    if t.Atomic() then [t]
    else
      MaxLevelBelow(t, rule);
      FullAll(rule(t), rule)
  }

  function FullAll(ts: seq<Task>, rule: Decomposer): seq<Task>
    requires Lowering(rule)
    decreases MaxLevel(ts), 1, |ts|
  {
    if ts == [] then []
    else
      assert MaxLevel(ts[1..]) <= MaxLevel(ts) by {
        if ts[1..] != [] {
          var i :| 0 <= i < |ts[1..]| && ts[1..][i].Level() == MaxLevel(ts[1..]);
          assert ts[i + 1] == ts[1..][i];
        }
      }
      Full(ts[0], rule) + FullAll(ts[1..], rule)
  }

  /** Number of nodes in the decomposition tree of `t`. */
  function Size(t: Task, rule: Decomposer): (r: nat)
    requires Lowering(rule)
    ensures r >= 1
    decreases t.Level(), 0, 0
  {
    if t.Atomic() then 1
    else
      MaxLevelBelow(t, rule);
      1 + SizeAll(rule(t), rule)
  }

  function SizeAll(ts: seq<Task>, rule: Decomposer): (r: nat)
    requires Lowering(rule)
    ensures ts != [] ==> r >= 1
    decreases MaxLevel(ts), 1, |ts|
  {
    if ts == [] then 0
    else
      assert MaxLevel(ts[1..]) <= MaxLevel(ts) by {
        if ts[1..] != [] {
          var i :| 0 <= i < |ts[1..]| && ts[1..][i].Level() == MaxLevel(ts[1..]);
          assert ts[i + 1] == ts[1..][i];
        }
      }
      Size(ts[0], rule) + SizeAll(ts[1..], rule)
  }

  lemma {:induction false} FullAllAppend(a: seq<Task>, b: seq<Task>, rule: Decomposer)
    requires Lowering(rule)
    ensures FullAll(a + b, rule) == FullAll(a, rule) + FullAll(b, rule)
    ensures SizeAll(a + b, rule) == SizeAll(a, rule) + SizeAll(b, rule)
    decreases |a|
  {
    if a == [] {
      assert a + b == b;
    } else {
      assert (a + b)[1..] == a[1..] + b;
      FullAllAppend(a[1..], b, rule);
    }
  }

  /** Every task a full decomposition yields is atomic. */
  lemma {:induction false} FullAtomic(t: Task, rule: Decomposer)
    requires Lowering(rule)
    ensures forall i :: 0 <= i < |Full(t, rule)| ==> Full(t, rule)[i].Atomic()
    decreases t.Level(), 0, 0
  {
    if !t.Atomic() {
      MaxLevelBelow(t, rule);
      FullAllAtomic(rule(t), rule);
    }
  }

  lemma {:induction false} FullAllAtomic(ts: seq<Task>, rule: Decomposer)
    requires Lowering(rule)
    ensures forall i :: 0 <= i < |FullAll(ts, rule)| ==> FullAll(ts, rule)[i].Atomic()
    decreases MaxLevel(ts), 1, |ts|
  {
    if ts != [] {
      assert MaxLevel(ts[1..]) <= MaxLevel(ts) by {
        if ts[1..] != [] {
          var i :| 0 <= i < |ts[1..]| && ts[1..][i].Level() == MaxLevel(ts[1..]);
          assert ts[i + 1] == ts[1..][i];
        }
      }
      FullAtomic(ts[0], rule);
      FullAllAtomic(ts[1..], rule);
    }
  }

  /** Decomposing an already decomposed sequence changes nothing. */
  lemma {:induction false} FullAllOfAtomic(ts: seq<Task>, rule: Decomposer)
    requires Lowering(rule)
    requires forall i :: 0 <= i < |ts| ==> ts[i].Atomic()
    ensures FullAll(ts, rule) == ts
    decreases |ts|
  {
    if ts != [] {
      FullAllOfAtomic(ts[1..], rule);
      assert ts == [ts[0]] + ts[1..];
    }
  }

  /** Full decomposition is idempotent. */
  lemma FullIdempotent(t: Task, rule: Decomposer)
    requires Lowering(rule)
    ensures FullAll(Full(t, rule), rule) == Full(t, rule)
  {
    FullAtomic(t, rule);
    FullAllOfAtomic(Full(t, rule), rule);
  }

  /** ITaskManagerUnitC: the task deque of one unit's task manager; the
      front task executes first. */
  class TaskManager {
    const unit: Option<UnitId>
    var deque: seq<Task>

    constructor (unit: Option<UnitId>)
      ensures this.unit == unit && deque == []
    {
      this.unit := unit;
      deque := [];
    }

    /** add_task_in_back: `t` becomes the last task; the others keep their
        order. */
    method AddTaskInBack(t: Task)
      modifies this`deque
      ensures deque == old(deque) + [t]
    {
      deque := deque + [t];
    }

    /** add_task_in_front: `t` becomes the first task, so it executes
        first; the others keep their order behind it. */
    method AddTaskInFront(t: Task)
      modifies this`deque
      ensures deque == [t] + old(deque)
    {
      deque := [t] + deque;
    }

    /** add_task(task, add_in_back): to the back when the flag is set,
        otherwise to the front. */
    method AddTask(t: Task, addInBack: bool)
      modifies this`deque
      ensures |deque| == |old(deque)| + 1
      ensures addInBack ==> deque == old(deque) + [t]
      ensures !addInBack ==> deque == [t] + old(deque)
    {
      if addInBack {
        deque := deque + [t];
      } else {
        deque := [t] + deque;
      }
    }

    /** full_decompose_task: rewrites `task` step by step, keeping a
        worklist of tasks still to split, until only atomic tasks remain. */
    method FullDecompose(task: Task, rule: Decomposer) returns (subtasks: seq<Task>)
      requires Lowering(rule)
      ensures subtasks == Full(task, rule)
      ensures forall i :: 0 <= i < |subtasks| ==> subtasks[i].Atomic()
    {
      subtasks := [];
      var pending := [task];
      assert FullAll(pending, rule) == Full(task, rule) + [];
      while pending != []
        invariant subtasks + FullAll(pending, rule) == Full(task, rule)
        decreases SizeAll(pending, rule)
      {
        var t := pending[0];
        FullAllAppend([t], pending[1..], rule);
        assert pending == [t] + pending[1..];
        if t.Atomic() {
          subtasks := subtasks + [t];
          pending := pending[1..];
        } else {
          MaxLevelBelow(t, rule);
          FullAllAppend(rule(t), pending[1..], rule);
          pending := rule(t) + pending[1..];
        }
      }
      FullAtomic(task, rule);
    }

    /** decompose_front: the front task is replaced by its full
        decomposition, ahead of everything queued behind it. Answers the
        initial front task and the front after decomposition (none when the
        deque ended up empty). */
    method DecomposeFront(rule: Decomposer) returns (initial: Task, front: Option<Task>)
      requires Lowering(rule)
      requires deque != []
      modifies this`deque
      ensures initial == old(deque[0])
      ensures deque == Full(initial, rule) + old(deque[1..])
      ensures front == if deque == [] then None else Some(deque[0])
    {
      initial := deque[0];
      var subtasks := FullDecompose(initial, rule);
      deque := subtasks + deque[1..];
      front := if deque == [] then None else Some(deque[0]);
    }
  }

  /** Push-back then push-front: the front-pushed task is first, the
      back-pushed one last, and both were added. */
  method PushBothEndsScenario(a: Task, b: Task, queued: seq<Task>) returns (result: seq<Task>)
    ensures result == [b] + queued + [a]
    ensures |result| == |queued| + 2
  {
    var manager := new TaskManager(None);
    manager.deque := queued;
    manager.AddTaskInBack(a);
    manager.AddTaskInFront(b);
    result := manager.deque;
  }

  /** After decomposing the front of a non-empty deque, the tasks at the
      front are atomic and the rest of the deque follows them unchanged. */
  method DecomposeScenario(first: Task, rest: seq<Task>, rule: Decomposer) returns (result: seq<Task>, atomicPrefix: nat)
    requires Lowering(rule)
    ensures atomicPrefix <= |result| && result[atomicPrefix..] == rest
    ensures forall i :: 0 <= i < atomicPrefix ==> result[i].Atomic()
  {
    var manager := new TaskManager(None);
    manager.deque := [first] + rest;
    var initial, front := manager.DecomposeFront(rule);
    result := manager.deque;
    atomicPrefix := |Full(first, rule)|;
    FullAtomic(first, rule);
  }
}
