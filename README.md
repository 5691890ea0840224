# cppSwarmLib in Dafny

cppSwarmLib is a C++ framework for swarm and multi-agent systems. A swarm
owns a container of units (or agents). It drives them through two lifecycle
calls: `init()` once, then `iter()` once per discrete step. A unit forwards
each call to its modules or components in a fixed order. The framework also
has a per-unit task deque, and it ships two example optimisers: particle
swarm optimisation (PSO) and ant colony optimisation (ACO).

This project models the parts with checkable behaviour and proves
properties about them:

- **Containers and swarm drivers** (`unit_containers.dfy`, `agent_containers.dfy`).
  - The ordered vector container and the identity-keyed set container of the first generation.
  - The agent vector of the second generation.
  - The `Swarm` shells that fill and drive them.
  - A unit is an identity (`nat`); a null shared pointer is `None`.
  - Containers are classes whose `links` field is a `seq` or `set` that the methods reassign.
  - Every lifecycle call a container makes is appended to a `calls` trace.
- **Lifecycle order** (`agents.dfy`, `swarm_units.dfy`, `lifecycle.dfy`).
  - The component fold of `Agent<Derived, Components...>`.
  - The fixed Communication, TaskManager, Executor order of `BasicSwarmUnit`.
- **Tasks and the task deque** (`tasks.dfy`, `task_manager.dfy`).
  - Task levels below `MaximumTaskLvl = 256`.
  - The deque with front and back insertion.
  - `decompose_front`, with the decomposition rule given as a parameter whose level strictly decreases.
- **Particle swarm** (`vectors_op.dfy`, `particles.dfy`, `stop_criteria.dfy`, `particle_swarm.dfy`).
  - Element-wise vector operations and `clamp`.
  - The personal and shared best update.
  - Placement within the limits and the velocity rule.
  - The stop criteria.
  - The fill-then-init and stop-flag logic of the swarm.
- **Ant colony** (`ants.dfy`).
  - The ant as a state machine over `tour`, `visited` and `current_vertex`.
  - Tour validation and costing.
  - The best-tour update.
  - Which pheromone cells each solver pass may change.

Numbers are Dafny `real`: there is no rounding and no NaN. Random draws are
parameters constrained to the range they are drawn from.

Where the code and its documentation disagree, the model follows the code:
- A task level of 256 or more is rejected when the task type is formed (a `static_assert` at `src/Tasks/ITask.hpp:34`). It is never clamped. `NewTask` returns an error for it.
- `BasicSwarmUnit::init`/`iter` call Communication, then TaskManager, then Executor (`src/SwarmUnit.cpp:46-48`, `55-57`). TaskManager does not come first.
- `decompose_front` reads `front()` (`src/UnitComponent/ITaskManagerC.hpp:78`), so the model requires a non-empty deque.

Three places do not compile as written. The model follows their evident intent:
- `src/Swarm.hpp:129` asks a `std::unordered_set` for `capacity()`. The set container's reserved size is its construction hint.
- `src/SwarmUnit.cpp:23` builds the executor from `TaskManagerCT`, and lines 48 and 57 call `_executorC()`. The model uses an executor module, called like the other two.
- `src/UnitComponent/ITaskManagerC.cpp` names a member `_tasks_deque`. The model uses the class's `_taskDeque`.

Vector capacity follows libstdc++ exactly. `reserve(n)` on an empty vector gives capacity `n`, and a push onto a full vector of `s` elements gives `s + max(s, 1)` (`Lifecycle.CapacityAfterPush`). The C++ standard promises less: `reserve(n)` gives at least `n`, and a push keeps the capacity while there is room and grows it when there is none. The constructors' and `AddUnit`/`AddAgent` capacity clauses, and the pass count of the `init` finding, are stated for libstdc++.

## Model

| member | source | states |
|---|---|---|
| Lifecycle.ForwardCallsEachOnce | src/Swarm.hpp:80-89 | Forwarding a call over distinct targets calls it exactly once on each target and on nothing else |
| Lifecycle.NonNullMembers | swarmlib2test/swarmlib/Swarm.hpp:96-104 | A traversal guarded by `if (link)` reaches exactly the units some stored link points to |
| Lifecycle.NonNullCount | swarmlib2test/swarmlib/Swarm.hpp:96-104 | A guarded traversal reaches each unit as often as a link to it is stored, and never reaches a null link |
| Lifecycle.NonNullOfLinks | src/Swarm.hpp:80-89 | With no null link, the traversal reaches every stored unit, one per link, in link order |
| Lifecycle.CapacityAfterPush | src/Swarm.hpp:70-72 | After a push the vector has room for the new element; the capacity is unchanged while there was room, and at least doubles when the vector was full |
| Lifecycle.FreshLinks | swarmlib2test/swarmlib/Swarm.hpp:159-165 | `count` successive `new T()` give `count` links to consecutive fresh identities |
| UnitContainers.VectorContainer.constructor | src/Swarm.hpp:64-67 | A new vector container is empty with the hint reserved, so `reserved_size() >= size()` holds from the start |
| UnitContainers.VectorContainer.AddUnit | src/Swarm.hpp:70-72 | The link is appended at the end, `size()` grows by one, earlier links keep their places, and `reserved_size() >= size()` is kept |
| UnitContainers.VectorContainer.ForEach | src/Swarm.hpp:74-79 | The action reaches the unit of every non-null link once, in insertion order, and skips null links |
| UnitContainers.VectorContainer.Dispatch | src/Swarm.hpp:80-89 | Given no null link (there is no null check), the call is made once on every stored unit, in insertion order |
| UnitContainers.VectorContainer.Init | src/Swarm.hpp:80-84 | `init()` is called once on every stored unit, in insertion order |
| UnitContainers.VectorContainer.Iter | src/Swarm.hpp:85-89 | `iter()` is called once on every stored unit, in insertion order |
| UnitContainers.SetContainer.constructor | src/Swarm.hpp:115-116 | A new set container is empty and keeps its size hint |
| UnitContainers.SetContainer.AddUnit | src/Swarm.hpp:105-120 | A link whose pointer is already stored leaves the set and `size()` unchanged; a new pointer grows `size()` by exactly one |
| UnitContainers.SetContainer.ForEach | src/Swarm.hpp:122-127 | The action reaches each unit behind a non-null stored link exactly once, in some order |
| UnitContainers.SetContainer.Dispatch | src/Swarm.hpp:130-139 | Given no null link, the trace gains exactly one call on each stored unit and on nothing else; earlier entries are kept |
| UnitContainers.SetContainer.Init | src/Swarm.hpp:130-134 | `init()` is called exactly once on every stored unit |
| UnitContainers.SetContainer.Iter | src/Swarm.hpp:135-139 | `iter()` is called exactly once on every stored unit |
| UnitContainers.ReservePassesHalf | src/Swarm.hpp:173-176 | The as-written fill loop, whose bound `reserved_size() - size()` is re-read each pass, makes ⌈(R − s)/2⌉ passes from size s and reserve R |
| UnitContainers.ReserveHalfFilledExample | src/Swarm.hpp:174 | An empty container with four reserved slots gets two units, not four |
| UnitContainers.Swarm.constructor | src/Swarm.hpp:166-168 | The swarm stores its params and owns a new empty container with `sz` reserved |
| UnitContainers.Swarm.Init | src/Swarm.hpp:169 | Delegates to the container's `init()` unchanged |
| UnitContainers.Swarm.Iter | src/Swarm.hpp:180 | Delegates to the container's `iter()` unchanged |
| UnitContainers.Swarm.ForEach | src/Swarm.hpp:181-183 | Delegates to the container's `for_each` unchanged |
| UnitContainers.Swarm.InitReserve | src/Swarm.hpp:170-179 | With `true`, exactly `ReservePasses(0, s, R)` fresh units (half the free reserve, rounded up) are appended after the existing ones and the reserve is unchanged; with `false` none are; then `init()` runs once over all units |
| AgentContainers.VectorAgentsContainer.constructor | swarmlib2test/swarmlib/Swarm.hpp:84-89 | A new agent container has `size() == 0` and `capacity()` equal to the hint |
| AgentContainers.VectorAgentsContainer.AddAgent | swarmlib2test/swarmlib/Swarm.hpp:91-93 | The agent is appended and `size()` grows by one; existing agents keep their positions |
| AgentContainers.VectorAgentsContainer.ForEach | swarmlib2test/swarmlib/Swarm.hpp:96-104 | The action reaches each non-null agent once, in insertion order, and skips nulls |
| AgentContainers.VectorAgentsContainer.Dispatch | swarmlib2test/swarmlib/Swarm.hpp:107-128 | The call is made once on every non-null agent, in insertion order |
| AgentContainers.VectorAgentsContainer.Init | swarmlib2test/swarmlib/Swarm.hpp:107-116 | `init()` is called once on every non-null agent |
| AgentContainers.VectorAgentsContainer.Iter | swarmlib2test/swarmlib/Swarm.hpp:119-128 | `iter()` is called once on every non-null agent |
| AgentContainers.Swarm.constructor | swarmlib2test/swarmlib/Swarm.hpp:145 | The swarm owns a new empty container built with the capacity hint |
| AgentContainers.Swarm.AddAgent | swarmlib2test/swarmlib/Swarm.hpp:152-154 | Any link, null or not, is delegated to the container and appended; a link to a caller-made agent moves the next fresh identity past it, so later `populate` agents stay distinct |
| AgentContainers.Swarm.Populate | swarmlib2test/swarmlib/Swarm.hpp:159-165 | `count` fresh agents are appended in creation order after the existing ones, `agent_count()` grows by exactly `count`, and no lifecycle call is made |
| AgentContainers.Swarm.Init | swarmlib2test/swarmlib/Swarm.hpp:167 | Delegates `init()` to the container unchanged |
| AgentContainers.Swarm.Iter | swarmlib2test/swarmlib/Swarm.hpp:168 | Delegates `iter()` to the container unchanged |
| AgentContainers.Swarm.ForEachAgent | swarmlib2test/swarmlib/Swarm.hpp:169-171 | Delegates `for_each` to the container unchanged |
| AgentContainers.FreshIds | swarmlib2test/swarmlib/Swarm.hpp:159-165 | `n` populated agents are `n` distinct agents, identities 0 to n-1 |
| AgentContainers.RoundsCallEachOnce | swarmlib2test/swarmlib/Swarm.hpp:107-128 | An `init` round and then an `iter` round over distinct agents add exactly one call of each kind per agent and none elsewhere |
| AgentContainers.FreshRoundsOnce | swarmlib2test/swarmlib/Swarm.hpp:159-168 | After `populate(n)`, `init()` and `iter()`, each of the `n` agents has had each call exactly once |
| AgentContainers.PopulateScenario | swarmlib2test/swarmlib/main.cpp:109-127 | The demo flow: a swarm populated with n agents holds n agents within its capacity, and one `init` and one `iter` reach each agent once per call |
| Agents.AnyIs | swarmlib2test/swarmlib/Agent.hpp:121-124 | The `||` fold over the component types is true exactly when the type is listed |
| Agents.IndexOf | swarmlib2test/swarmlib/Agent.hpp:111 | Finds the position of the first component of the requested type |
| Agents.Agent.constructor | swarmlib2test/swarmlib/Agent.hpp:75-77 | One component per listed type, in order, and every component holds a reference to the same owning agent |
| Agents.Agent.Dispatch | swarmlib2test/swarmlib/Agent.hpp:96-102 | The comma fold calls every component once, left to right in listing order |
| Agents.Agent.Init | swarmlib2test/swarmlib/Agent.hpp:96-98 | `init()` reaches each component exactly once, in the listed order |
| Agents.Agent.Iter | swarmlib2test/swarmlib/Agent.hpp:100-102 | `iter()` reaches each component exactly once, in the listed order |
| Agents.Agent.HasComponent | swarmlib2test/swarmlib/Agent.hpp:121-124 | `has_component<C>()` holds if and only if C is one of the agent's component types |
| Agents.Agent.GetComponent | swarmlib2test/swarmlib/Agent.hpp:107-119 | Permitted only for a listed type that occurs once; returns this agent's component of that type, owned by this agent |
| Agents.DroneScenario | swarmlib2test/swarmlib/main.cpp:69-94 | The demo drone: init then iter reach movement, communication and task components in that order, and the communication component can be looked up and refers back to the drone |
| SwarmUnits.ModuleOrder | src/SwarmUnit.cpp:44-58 | The order is Communication, TaskManager, Executor, with three distinct modules |
| SwarmUnits.RoundCallsEachModuleOnce | src/SwarmUnit.cpp:44-58 | A unit-level round reaches each of the three modules exactly once with the call made, and never with the other call |
| SwarmUnits.BasicSwarmUnit.Default | src/SwarmUnit.cpp:18-23 | The default constructor default-constructs all three modules and no params are set |
| SwarmUnits.BasicSwarmUnit.WithParams | src/SwarmUnit.cpp:25-29 | The params-only constructor stores the given params |
| SwarmUnits.BasicSwarmUnit.Full | src/SwarmUnit.cpp:31-40 | The full constructor stores the params and builds each module from its own params |
| SwarmUnits.BasicSwarmUnit.Init | src/SwarmUnit.cpp:42-49 | `init()` calls Communication, then TaskManager, then Executor, once each |
| SwarmUnits.BasicSwarmUnit.Iter | src/SwarmUnit.cpp:51-58 | `iter()` calls the three modules in the same order, once each |
| SwarmUnits.UnitScenario | src/SwarmUnit.cpp:31-58 | A fully built unit run through `init()` and `iter()` produces the six calls in order and keeps its params |
| Tasks.NewTask | src/Tasks/ITask.hpp:8-50 | Forming a task succeeds if and only if level < 256, and otherwise reports that level. Levels 0 and 255 give the sentinels. Any other level keeps the unit and params it was built with and reports its level |
| Tasks.LevelFiveTask | src/Tests/TasksTests.cpp:5-8 | A level-5 task with a null unit reports level 5 |
| Tasks.SentinelsDistinct | src/Tasks/ITask.hpp:41-50 | The two sentinels are different tasks at the two ends of the range, and an ordinary task has a level strictly between them |
| TaskManagers.FullAtomic | src/UnitComponent/ITaskManagerC.hpp:91-95 | Every task a full decomposition yields is atomic (level 0) |
| TaskManagers.FullAllOfAtomic | src/UnitComponent/ITaskManagerC.hpp:91-95 | Decomposing tasks that are already atomic changes nothing |
| TaskManagers.FullIdempotent | src/UnitComponent/ITaskManagerC.hpp:91-95 | Full decomposition is idempotent |
| TaskManagers.TaskManager.constructor | src/UnitComponent/ITaskManagerC.hpp:31 | A new task manager is bound to its unit with an empty deque |
| TaskManagers.TaskManager.AddTaskInBack | src/UnitComponent/ITaskManagerC.hpp:37-39 | The task becomes the last element; the others keep their order |
| TaskManagers.TaskManager.AddTaskInFront | src/UnitComponent/ITaskManagerC.hpp:44-46 | The task becomes the first element, so it executes first; the others keep their order behind it |
| TaskManagers.TaskManager.AddTask | src/UnitComponent/ITaskManagerC.cpp:8-15 | The deque grows by one: at the back when the flag is set, at the front otherwise, with the existing order kept |
| TaskManagers.TaskManager.FullDecompose | src/UnitComponent/ITaskManagerC.hpp:91-95 | The worklist loop ends, its measure being the total size of the pending tasks' decompositions (`SizeAll`), and yields exactly the full decomposition, all of whose tasks are atomic. The strictly decreasing level is the measure of the recursion that defines that decomposition and its size |
| TaskManagers.TaskManager.DecomposeFront | src/UnitComponent/ITaskManagerC.hpp:74-84 | On a non-empty deque, the front task is replaced by its full decomposition ahead of everything behind it; returns the initial front and the new front |
| TaskManagers.PushBothEndsScenario | src/UnitComponent/ITaskManagerC.hpp:37-46 | Push-back then push-front: the front-pushed task is first, the back-pushed one last, and the deque grew by two |
| TaskManagers.DecomposeScenario | src/UnitComponent/ITaskManagerC.hpp:64-84 | After `decompose_front`, the deque starts with atomic tasks followed by the old rest unchanged |
| StopCriteria.FindBestDefault | Examples/SwarmOfParticles/StopCriteria.hpp:20-23 | With the default accuracy, the criterion stops exactly when the best value is within 0.0001 of the target |
| StopCriteria.ShouldStop | Examples/SwarmOfParticles/StopCriteria.hpp:9-26 | The base criterion never stops. The target criterion stops on an exact hit, and otherwise exactly when abs(best − target) ≤ accuracy; with a negative accuracy it stops only on an exact hit |
| VectorsOp.Max | Examples/SwarmOfParticles/VectorsOp.hpp:52 | `std::max`: one of the two arguments, and no smaller than either |
| VectorsOp.Min | Examples/SwarmOfParticles/VectorsOp.hpp:52 | `std::min`: one of the two arguments, and no larger than either |
| VectorsOp.Scale | Examples/SwarmOfParticles/VectorsOp.hpp:5-11 | `d * a` multiplies every coordinate by d and keeps the length |
| VectorsOp.ScaleRight | Examples/SwarmOfParticles/VectorsOp.hpp:14-17 | `a * d` multiplies every coordinate by d on the right |
| VectorsOp.Add | Examples/SwarmOfParticles/VectorsOp.hpp:20-27 | `a + b` is the coordinate-wise sum |
| VectorsOp.Sub | Examples/SwarmOfParticles/VectorsOp.hpp:29-36 | `a - b` is the coordinate-wise difference |
| VectorsOp.Mul | Examples/SwarmOfParticles/VectorsOp.hpp:38-46 | `a * b` is the coordinate-wise product |
| VectorsOp.Clamp | Examples/SwarmOfParticles/VectorsOp.hpp:47-55 | A coordinate lands within [lo, hi] when lo ≤ hi, stays put when already inside, and becomes hi when the bounds are crossed |
| VectorsOp.ClampIdempotent | Examples/SwarmOfParticles/VectorsOp.hpp:47-55 | Clamping twice is clamping once, for any bounds |
| VectorsOp.ClampWithin | Examples/SwarmOfParticles/VectorsOp.hpp:47-55 | With well-formed bounds, the clamped vector lies within the limits |
| VectorsOp.SubUndoesAdd | Examples/SwarmOfParticles/VectorsOp.hpp:20-36 | `(a + b) - b == a` |
| VectorsOp.ScaleDistributes | Examples/SwarmOfParticles/VectorsOp.hpp:5-27 | `d * (a + b) == d * a + d * b` |
| Particles.PersonalNeverWorse | Examples/SwarmOfParticles/UnitParticl.hpp:112-115 | After the personal update, the personal best is at least as good as both the old personal best and the current value |
| Particles.NoImprovementNoChange | Examples/SwarmOfParticles/UnitParticl.hpp:111-120 | When the current value beats neither best, `update_max` changes nothing |
| Particles.SharedBestKept | Examples/SwarmOfParticles/UnitParticl.hpp:111-120 | While the shared best dominates the particle's, a shared update records exactly the current value and position. Afterwards the shared best still dominates the particle's best, its own old value, and anything it dominated before |
| Particles.Velocity | Examples/SwarmOfParticles/UnitParticl.hpp:128-130 | The velocity rule `omega*vel + phi_p*rp*(pmax − pos) + phi_g*rg*(gbest − pos)`, composed of the element-wise operations in the source's order, keeps the particle's dimension |
| Particles.NoPullToSelf | Examples/SwarmOfParticles/UnitParticl.hpp:128-130 | An attraction term towards the current position is zero |
| Particles.RestAtBest | Examples/SwarmOfParticles/UnitParticl.hpp:128-131 | A resting particle whose position is both bests stays at rest whatever the draws |
| Particles.SOPParams.constructor | Examples/SwarmOfParticles/SwarmOfParticles.hpp:20-29 | The default coefficients 0.729, 0.149445 and 0.149445, and a shared best of zeros and 0 |
| Particles.DefaultParams | Examples/SwarmOfParticles/SwarmOfParticles.hpp:20-29 | The value-initialised struct a swarm gets when no params are passed: default coefficients, a zero best position of the swarm's dimension, and a best value that no comparison ranks below 0 |
| Particles.SOPParams.Copy | src/Swarm.hpp:167-168 | The base swarm stores a copy of the caller's params: every field equal to the given value |
| Particles.ParticleUnit.constructor | Examples/SwarmOfParticles/UnitParticl.hpp:70-91 | A new particle has zero position, velocity and personal best, and is bound to the swarm's params and shared best |
| Particles.ParticleUnit.UpdateMax | Examples/SwarmOfParticles/UnitParticl.hpp:111-120 | Personal update first (only when `comp(cur, MaxVal)`), then the shared update (only when `comp(cur, BestVal)`), which stores the personal value just updated |
| Particles.ParticleUnit.UpdatePos | Examples/SwarmOfParticles/UnitParticl.hpp:121-132 | The velocity rule with draws in [0, 1), then the position moved by the new velocity and clamped to the limits |
| Particles.ParticleUnit.Iter | Examples/SwarmOfParticles/UnitParticl.hpp:104-108 | The bests are updated from the value at the position held before the move, and then the particle moves. The personal and shared bests never get worse, and the shared best still dominates the personal best |
| Particles.ParticleUnit.Init | Examples/SwarmOfParticles/UnitParticl.hpp:39-56 | Every position coordinate, then every velocity coordinate, is set to its draw, so both lie within the limits |
| ParticleSwarm.SwarmOfParticles.constructor | Examples/SwarmOfParticles/SwarmOfParticles.hpp:39-42 | The swarm's params are a copy of the caller's struct (coefficients, limits and initial best as given), with no units and `sz` slots reserved |
| ParticleSwarm.SwarmOfParticles.AddUnit | Examples/SwarmOfParticles/SwarmOfParticles.hpp:50-51 | A fresh particle with a zero personal best is appended, bound to the swarm's params and shared best |
| ParticleSwarm.SwarmOfParticles.Init | Examples/SwarmOfParticles/SwarmOfParticles.hpp:43 | The base `init` runs the executor's init on every unit with its own draws; personal bests are untouched |
| ParticleSwarm.SwarmOfParticles.InitReserve | Examples/SwarmOfParticles/SwarmOfParticles.hpp:45-55 | With `true`, the free-slot count is computed once and that many fresh particles are added, so size == reserved size; with `false` none are added. Then init runs over all units |
| ParticleSwarm.SwarmOfParticles.Iter | Examples/SwarmOfParticles/SwarmOfParticles.hpp:56-60 | One base round, in which every particle takes its turn (`TookTurn`) from its own old state and the shared best the particle before it left, and every particle moves from where it stood; then the stop flag `is_stoped()` reports is the criterion's verdict on the shared best, which never gets worse |
| ParticleSwarm.SwarmOfParticles.BaseIter | Examples/SwarmOfParticles/SwarmOfParticles.hpp:57 | `shared` is the shared best before the round and after each turn. Particle k's personal best is the personal update with `f` at its old position; the shared best goes from `shared[k]` to `shared[k+1]` by the shared update; its velocity is the rule applied with its own draws and the shared position of `shared[k+1]`; it moves by that velocity, clamped. Hence every particle moved from where it stood and its personal best never got worse; the shared best never gets worse, dominates every personal best, and when it changed it equals some particle's personal best |
| ParticleSwarm.SwarmOfParticles.Turns | Examples/SwarmOfParticles/SwarmOfParticles.hpp:57 | The loop over the units: every particle took its turn (`TookTurn`) in order, chained through the recorded shared bests, and the swarm stays consistent |
| ParticleSwarm.TurnMovesAndImproves | Examples/SwarmOfParticles/UnitParticl.hpp:104-132 | A particle that took its turn moved from where it stood, its personal best is no worse than before, and the shared best it left is the one it found or its own new personal best |
| ParticleSwarm.ChainEnd | Examples/SwarmOfParticles/UnitParticl.hpp:116-119 | Along a chain of shared-best updates each of which keeps the previous best or takes a particle's value, the last best is the first one or one of those values |
| ParticleSwarm.SwarmOfParticles.IterUnit | Examples/SwarmOfParticles/UnitParticl.hpp:104-132 | One particle's iter() within a round: it takes its turn (`TookTurn`: personal and shared updates with `f` at its old position, the velocity rule against the just-updated shared position, the clamped move), only that particle and the shared best change, and the swarm stays consistent (the shared best, which only improves, still dominates every personal best) |
| AntColony.Unvisited | Examples/AntAlgorithm/main.cpp:115-123 | The candidate list holds exactly the unvisited vertices adjacent to the current one, in increasing order |
| AntColony.StepKeepsState | Examples/AntAlgorithm/main.cpp:164-171 | Stepping to an unvisited vertex keeps the ant invariant: no repeats in the open tour, and `visited` marks exactly its vertices |
| AntColony.CloseKeepsState | Examples/AntAlgorithm/main.cpp:125-132 | Closing a tour of n vertices back to its start keeps the ant invariant |
| AntColony.FullNoCandidates | Examples/AntAlgorithm/main.cpp:114-124 | Once the tour holds n vertices no candidate is left |
| AntColony.CompleteCovers | Examples/AntAlgorithm/main.cpp:124-132 | A consistent tour of n+1 vertices contains every vertex |
| AntColony.StepExtends | Examples/AntAlgorithm/main.cpp:164-171 | A step along an edge to an unvisited vertex keeps the ant consistent and continues its tour along edges |
| AntColony.CloseExtends | Examples/AntAlgorithm/main.cpp:125-132 | The return to the start after n vertices keeps the ant consistent and continues its tour along edges |
| AntColony.Moved | Examples/AntAlgorithm/main.cpp:112-187 | A move keeps the ant consistent and continues its tour; an incomplete ant that is not stuck gains exactly one vertex, a stuck one keeps its tour and stays stuck, a complete one does not change |
| AntColony.Ant.constructor | Examples/AntAlgorithm/main.cpp:34-42 | `tour == [s]`, only s visited, `current_vertex == s`, cost 0 |
| AntColony.Ant.Reset | Examples/AntAlgorithm/main.cpp:214-220 | Same state as a new ant at the given start |
| AntColony.Ant.UnvisitedNeighbours | Examples/AntAlgorithm/main.cpp:115-123 | The loop returns the unvisited neighbours of the current vertex in increasing order |
| AntColony.Ant.Move | Examples/AntAlgorithm/main.cpp:112-187 | The new state is `Moved` of the old one with the caller's pick among the candidates; the answer is true exactly when the tour grew by one vertex. The ant stays consistent and its tour only grows along edges |
| AntColony.Ant.StepTo | Examples/AntAlgorithm/main.cpp:184-186 | Marks the vertex visited, appends it and makes it current |
| AntColony.Ant.CloseTour | Examples/AntAlgorithm/main.cpp:128-132 | Appends the start vertex; `current_vertex` and `visited` are unchanged |
| AntColony.Ant.CalculateTourCost | Examples/AntAlgorithm/main.cpp:191-212 | The sentinel unless the tour has n+1 vertices, ends where it starts, and every consecutive pair is an edge; otherwise the sum of the edge weights |
| AntColony.CompleteTourPrice | Examples/AntAlgorithm/main.cpp:191-212 | A complete tour built by moves has a finite cost and visits every vertex |
| AntColony.Solver.constructor | Examples/AntAlgorithm/main.cpp:224-241 | The best cost starts at the sentinel; each pheromone cell is the initial value on an edge and 0 elsewhere |
| AntColony.Solver.InitializePheromones | Examples/AntAlgorithm/main.cpp:243-254 | Each cell is the initial value on an edge and 0 elsewhere |
| AntColony.Solver.Evaporate | Examples/AntAlgorithm/main.cpp:315-322 | Edge cells are multiplied by the factor; other cells are unchanged |
| AntColony.Solver.DepositPheromone | Examples/AntAlgorithm/main.cpp:366-379 | Only edge cells the tour steps along change, so a tour of length 1 or less changes nothing; a non-negative amount never lowers a cell |
| AntColony.Solver.UpdatePheromones | Examples/AntAlgorithm/main.cpp:313-346 | Non-edge cells are unchanged; an edge no finite-cost ant tour and no finite best tour uses is only evaporated |
| AntColony.Solver.ConstructTours | Examples/AntAlgorithm/main.cpp:283-310 | After the n rounds every ant is consistent, priced, and holds a complete tour or is stuck, its tour only extended along edges. No ant is cheaper than the best afterwards; the best cost never rises, the best tour changes only with it, and a changed best is the cost and tour of an ant strictly cheaper than every ant before it (the first of minimal cost) and visits every vertex |
| AntColony.Solver.AdvanceRound | Examples/AntAlgorithm/main.cpp:290-294 | Every ant takes its turn: an ant with fewer than n+1 tour vertices becomes `Moved` of its old state with its pick, any other is unchanged |
| AntColony.Solver.AdvanceNext | Examples/AntAlgorithm/main.cpp:290-294 | One pass of the round's loop keeps `AdvancedUpTo`: the ants before and at `i` have taken their turn from their state at the start of the round, the later ants still hold that state, and every tour only grew along edges |
| AntColony.Solver.AdvanceAnt | Examples/AntAlgorithm/main.cpp:291-293 | One ant's turn: moved when its tour is incomplete, unchanged otherwise; it stays consistent and its tour only grows along edges |
| AntColony.Solver.ScoreAnts | Examples/AntAlgorithm/main.cpp:300-309 | Every ant is priced and none is cheaper than the best afterwards, so the best is the minimum of the old best and the ants' costs. The best cost never rises and the tour changes only with it. A changed best is the cost and tour of an ant strictly cheaper than every ant before it, so among ants of equal minimal cost the first is kept, and it visits every vertex |
| AntColony.Solver.ScoreNext | Examples/AntAlgorithm/main.cpp:300-309 | One pass of the scoring loop keeps `ScoredUpTo`: the ants scored so far are priced and none is cheaper than the best; the best is the old one or the cost and tour of the first ant strictly cheaper than all before it, which is strictly cheaper than the old best and visits every vertex |
| AntColony.Solver.ScoreAnt | Examples/AntAlgorithm/main.cpp:301-308 | The ant is priced; the best is replaced by the ant's cost and tour exactly when that cost is strictly cheaper, and a replacing tour visits every vertex; otherwise the best is unchanged |
| AntColony.Solver.Run | Examples/AntAlgorithm/main.cpp:256-281 | `built` records every iteration's ants as they stood after construct_tours: each started at its drawn vertex, holds a complete or stuck priced tour, and is no cheaper than the final best. The best cost never rises; a changed best is the cost and tour of the first recorded ant to reach it, every ant before it (earlier rounds, or earlier in its round) being strictly dearer, and visits every vertex; pheromone stays 0 off the edges |
| AntColony.Solver.Iteration | Examples/AntAlgorithm/main.cpp:264-280 | One iteration: every ant of the round, as built, started at its drawn vertex, is complete or stuck and priced, and is no cheaper than the best; the best only improves, and a changed best is the first ant of the round strictly cheaper than all before it; every ant then restarts at its next drawn vertex |
| AntColony.HeldByLast | Examples/AntAlgorithm/main.cpp:304-307 | An ant of a new round that is strictly cheaper than the best so far and than every earlier ant of its round is held first in the record |
| AntColony.HeldByKept | Examples/AntAlgorithm/main.cpp:304-307 | The first holder of a cost stays the first holder once another round is appended |
| AntColony.HeldByRound | Examples/AntAlgorithm/main.cpp:304-307 | A best that an iteration replaced with the first cheapest ant of its round is held first in the record extended by that round |
| AntColony.RecordedKept | Examples/AntAlgorithm/main.cpp:264-280 | Appending a round none of whose ants is cheaper than a best that only improved keeps the record of built ants |
| AntColony.Solver.PlaceAnts | Examples/AntAlgorithm/main.cpp:257-262 | `num_ants` distinct fresh ants, each started at its drawn vertex |
| AntColony.Solver.ResetAnts | Examples/AntAlgorithm/main.cpp:274-276 | Every ant restarts at its new drawn vertex |

## Left out

- Logging (`src/Logger.hpp`, `ParticlUnit::log`), console printing, the printing destructor of `SwarmUnitLink`, and all `main()` entry points. These are I/O; the demos appear only as scenarios.
- The random number generator: every `rnd`, `uniform_*` and `discrete_distribution` draw is a method parameter constrained to its range.
- Parallel traversal: `std::execution::par` in the agent container's `init`/`iter` is modelled as one sequential pass that makes each call exactly once.
- Floating point: numbers are reals.
  - No rounding, NaN or infinity.
  - No `pow` desirability and no probability normalisation (`calculate_desirability`).
  - No `1/cost` amounts: the deposit amount is the `amountFor` parameter, and the evaporation factor `1 - evaporation_rate` is the `factor` parameter.
- Particles.Velocity: its contract states only the length of the result. The per-coordinate value follows from the contracts of VectorsOp.Scale, VectorsOp.Mul, VectorsOp.Sub and VectorsOp.Add, but is not stated as a contract of its own. Its consequences that are stated are Particles.NoPullToSelf and Particles.RestAtBest.
- AntColony.Ant.Move: the desirability-weighted choice and the uniform fallback are one caller-supplied pick among the candidates. Which candidate the weights favour is not modelled.
- AntColony.Graph: one weight per ordered vertex pair. Parallel edges of the Boost `listS` adjacency list are not modelled.
- AntColony.Cost: a finite tour sum equal to the largest double is not told apart from the sentinel.
- `ACO_Solver`'s `num_ants`, `num_iterations`, `alpha`, `beta` and `evaporation_rate` fields are method parameters or not modelled, and `get_best_tour`/`get_best_tour_cost` are plain field reads.
- Generic interfaces with no behaviour: `Params.hpp`, `Component.hpp`, `SwarmUnit.hpp`, `IUnitComponent`, `ICommunicationC.hpp`, `IExecutorC.hpp`, `ITask.cpp`. Static assertions, concepts and `shared_ptr` reference counting are also left out.
- The generic `ParticlExecutor<UT>` `init`/`iter` (`Examples/SwarmOfParticles/UnitParticl.hpp:25-26`) are no-ops, so they have no member. The particle swarm uses the particle specialisation.
- `ParticlUnit::init` forwards to the unit's three modules. For particles only the executor's placement has an effect, and that is what ParticleSwarm.SwarmOfParticles.Init records.
- ParticleSwarm.SwarmOfParticles.constructor: `stopped` is left uninitialised by the source until the first `iter()`. The model gives it no defined value before then.
- ParticleSwarm.SwarmOfParticles.constructor: requires the caller's initial `BestVal` to be no worse under `Compare` than 0, the value every new particle starts its personal best with, as the default `BestVal{}` is. A caller that sets a worse initial best (say `BestVal = 10` with `std::less`) is not modelled. In the source, the first particle that finds a value between 0 and 10 then sets `BestPos` to its position but `BestVal` to its unchanged `_MaxVal` of 0 (`Examples/SwarmOfParticles/UnitParticl.hpp:112-119`), so the shared value no longer belongs to the shared position. The invariant in `Valid` that the shared best dominates every personal best holds only under this requirement.
- ParticleSwarm.SwarmOfParticles: the stop criterion is held by value. The source keeps a reference that dangles when the default criterion is used; that is not modelled.
- ParticleSwarm.SwarmOfParticles.Iter: the shared best a particle's velocity is drawn toward is the one after its own `update_max` in that round. It is named through the ghost record `shared` of the shared best after each turn, not as a closed function of the round's inputs.
- UnitContainers.Swarm: the `Swarm<Cont>` template (`src/Swarm.hpp:149-162`) is modelled with the vector container only. The set container's `init`/`iter` are modelled on the container itself, but no swarm over it is built.
- Lifecycle.CapacityAfterPush: only libstdc++'s exact capacities are modelled. A library whose `reserve(n)` over-allocates to some `C > n` makes the as-written `init` loop at `src/Swarm.hpp:174` run ⌈(C − s)/2⌉ passes for that actual capacity `C`, and `UnitContainers.ReserveHalfFilledExample` is then not its outcome.
- UnitContainers.SetContainer.ReservedSize: the construction hint, because `capacity()` does not exist on `std::unordered_set`. Bucket counts and rehashing are not modelled.
- UnitContainers.SetContainer: traversal order is unspecified. The model states only "each unit exactly once".
- TaskManagers.TaskManager.FullDecompose: the source loop body is a placeholder. The model decomposes with a caller-supplied rule whose subtasks have strictly lower levels.
- Tasks.Task.Level: the sentinel specialisations `ITask<0, …>` and `ITask<MaximumTaskLvl - 1, …>` (`src/Tasks/ITask.hpp:41-44`) are empty and have no `get_lvl()`. Giving them levels 0 and 255 is this model's choice, taken from the template argument that selects them.
- `decompose_task` is declared but never defined (`src/UnitComponent/ITaskManagerC.hpp:85-89`). It is the rule parameter.
- TaskManagers.TaskManager.DecomposeFront returns the front task before and after decomposition, not deque iterators.

## Findings

| source | as written | input that shows it | evidently intended | confidence | as-written member | corrected member |
|---|---|---|---|---|---|---|
| src/Swarm.hpp:174 | `for (i = 0; i < reserved_size() - size(); ++i) add_unit(...)` re-reads the bound after every add while `i` also grows, so it adds ⌈(R − s)/2⌉ units | An empty container with 4 reserved slots gets 2 units | Fill the whole reserve (R − s units), as the particle swarm's `init<T>` does by computing the count once | not executed | UnitContainers.Swarm.InitReserve, UnitContainers.ReserveHalfFilledExample | ParticleSwarm.SwarmOfParticles.InitReserve |
