/** The particle swarm: a swarm over a vector container of particles that
    all share the swarm's parameters and best-so-far storage, filled up to
    its reserve in one go and asked after every iteration whether to stop. */
module ParticleSwarm {
  import opened Lifecycle
  import opened VectorsOp
  import opened Particles
  import opened StopCriteria

  /** Every draw vector has the swarm's dimension and lies within the
      limits. */
  ghost predicate DrawsWithin(draws: seq<seq<real>>, limits: Limits) {
    forall k :: 0 <= k < |draws| ==> |draws[k]| == |limits| && Within(draws[k], limits)
  }

  /** Every draw vector has the swarm's dimension and lies in [0, 1). */
  ghost predicate UnitDraws(draws: seq<seq<real>>, dim: nat) {
    forall k :: 0 <= k < |draws| ==>
      |draws[k]| == dim && forall i :: 0 <= i < dim ==> 0.0 <= draws[k][i] < 1.0
  }

  /** Particle `u` has made one move from position `from`: its position is
      `from` moved by its current velocity and clamped to the limits. */
  ghost predicate MovedFrom(u: ParticleUnit, from: seq<real>)
    reads u`curPos, u`vel
  {
    |from| == |u.vel| == |u.params.limits| && u.curPos == Clamp(Add(from, u.vel), u.params.limits)
  }

  /** Particle `u` has taken its turn of iter() from position `pos`,
      velocity `vel`, personal best `personal` and shared best `before`:
      its personal best is updated from the value at `pos`, the shared best
      becomes `after` by the same update, the velocity follows the rule
      with the draws `rp`, `rg` and the shared position of `after`, and the
      particle moves by it and is clamped to the limits. */
  ghost predicate TookTurn(u: ParticleUnit, pos: seq<real>, vel: seq<real>, personal: Best,
                           rp: seq<real>, rg: seq<real>, before: Best, after: Best)
    reads u`curPos, u`vel, u`positionMaxVal, u`maxVal
  {
    && |pos| == |vel| == |rp| == |rg| == |u.positionMaxVal| == |after.pos| == |u.params.limits|
    && Best(u.positionMaxVal, u.maxVal) == PersonalUpdate(u.comp, personal, pos, u.func(pos))
    && after == GlobalUpdate(u.comp, before, Best(u.positionMaxVal, u.maxVal), pos, u.func(pos))
    && u.vel == Velocity(u.params.omega, u.params.phiP, u.params.phiG, vel, rp, rg, u.positionMaxVal, after.pos, pos)
    && u.curPos == Clamp(Add(pos, u.vel), u.params.limits)
  }

  /** After its turn a particle has moved from where it stood, and its
      personal best is no worse than before. */
  lemma TurnMovesAndImproves(u: ParticleUnit, pos: seq<real>, vel: seq<real>, personal: Best,
                             rp: seq<real>, rg: seq<real>, before: Best, after: Best)
    requires TookTurn(u, pos, vel, personal, rp, rg, before, after)
    ensures MovedFrom(u, pos)
    ensures AtLeastAsGood(u.comp, u.maxVal, personal.val)
    ensures after == before || after.val == u.maxVal
  {
    PersonalNeverWorse(u.comp, personal, pos, u.func(pos));
  }

  /** Along a chain of shared bests where each link either keeps the
      previous one or takes the value `vals[k]`, the last one is the first
      or one of those values. */
  lemma {:induction false} ChainEnd(shared: seq<Best>, vals: seq<real>)
    requires |shared| == |vals| + 1
    requires forall k :: 0 <= k < |vals| ==> shared[k + 1] == shared[k] || shared[k + 1].val == vals[k]
    ensures shared[|vals|] == shared[0] || exists k :: 0 <= k < |vals| && shared[|vals|].val == vals[k]
  {
    if |vals| > 0 {
      var m := |vals| - 1;
      ChainEnd(shared[..m + 1], vals[..m]);
      if shared[m + 1] != shared[m] {
        assert shared[m + 1].val == vals[m];
      } else if shared[m] != shared[0] {
        var k :| 0 <= k < m && shared[..m + 1][m].val == vals[..m][k];
        assert shared[|vals|].val == vals[k];
      }
    }
  }

  /** SwarmOfParticles<Dim>: `units` in insertion order within `capacity`
      reserved slots; `comp` and `func` are those of the particle type the
      swarm is filled with. */
  class SwarmOfParticles {
    const params: SOPParams
    const comp: Compare
    const func: seq<real> -> real
    const criterion: StopCriterion
    var units: seq<ParticleUnit>
    var capacity: nat
    var stopped: bool
    /** Where each unit sits in `units`; it makes the units distinct. */
    ghost var position: map<ParticleUnit, nat>

    /** Units are distinct particles bound to this swarm's parameters; the
        shared best is at least as good as every particle's personal best
        and as the initial value 0. */
    ghost predicate Valid()
      reads this`units, this`capacity, this`position, params`bestPos, params`bestVal
      reads units`curPos, units`vel, units`positionMaxVal, units`maxVal
    {
      && |units| <= capacity
      && |params.bestPos| == |params.limits|
      && (forall i :: 0 <= i < |units| ==>
            units[i].params == params && units[i].comp == comp && units[i].func == func && units[i].Valid())
      && (forall i :: 0 <= i < |units| ==> units[i] in position && position[units[i]] == i)
      && (forall i :: 0 <= i < |units| ==> AtLeastAsGood(comp, params.bestVal, units[i].maxVal))
      && AtLeastAsGood(comp, params.bestVal, 0.0)
    }

    /** SwarmOfParticles(func, p, size, stop_criteria): a copy of the
        caller's parameters `p` (`DefaultParams` when the caller passes
        none), no units yet and `size` slots reserved. The best position is
        an array of the swarm's dimension, and the initial best value must
        be no worse than the particles' initial value 0, which the default
        0 is. The stop flag is not set until the first iteration. */
    constructor (func: seq<real> -> real, p: ParamsValue, size: nat, criterion: StopCriterion, comp: Compare)
      requires |p.bestPos| == |p.limits|
      requires AtLeastAsGood(comp, p.bestVal, 0.0)
      ensures Valid() && fresh(params)
      ensures units == [] && capacity == size
      ensures params.Value() == p
      ensures this.func == func && this.criterion == criterion && this.comp == comp
    {
      this.func, this.criterion, this.comp := func, criterion, comp;
      params := new SOPParams.Copy(p);
      units, capacity, position := [], size, map[];
    }

    /** The stop flag set by the most recent iteration. */
    function IsStopped(): (r: bool)
      reads this
    {
      stopped
    }

    /** One fresh particle appended to the vector of units. */
    method AddUnit()
      requires Valid()
      modifies this`units, this`capacity, this`position
      ensures Valid()
      ensures |units| == |old(units)| + 1 && units[..|old(units)|] == old(units)
      ensures fresh(units[|old(units)|])
      ensures units[|old(units)|].Personal() == Best(Zeros(|params.limits|), 0.0)
      ensures capacity == CapacityAfterPush(old(capacity), |old(units)|)
    {
      var u := new ParticleUnit(params, func, comp);
      capacity := CapacityAfterPush(capacity, |units|);
      position := position[u := |units|];
      units := units + [u];
    }

    /** The base init(): the particle executor's init on every unit, in
        order, each with its own position and velocity draws. */
    method Init(posDraws: seq<seq<real>>, velDraws: seq<seq<real>>)
      requires Valid()
      requires |posDraws| == |units| && |velDraws| == |units|
      requires DrawsWithin(posDraws, params.limits) && DrawsWithin(velDraws, params.limits)
      modifies units
      ensures Valid()
      ensures forall k :: 0 <= k < |units| ==> units[k].curPos == posDraws[k] && units[k].vel == velDraws[k]
      ensures forall k :: 0 <= k < |units| ==> units[k].Personal() == old(units[k].Personal())
    {
      for k := 0 to |units|
        invariant Valid()
        invariant forall j :: 0 <= j < k ==> units[j].curPos == posDraws[j] && units[j].vel == velDraws[j]
        invariant forall j :: 0 <= j < |units| ==>
                    units[j].maxVal == old(units[j].maxVal) && units[j].positionMaxVal == old(units[j].positionMaxVal)
      {
        InitUnit(k, posDraws[k], velDraws[k]);
      }
    }

    /** One particle's init() within the base init: that particle takes its
        draws, and nothing else changes. */
    method InitUnit(k: nat, pos: seq<real>, vel: seq<real>)
      requires Valid() && k < |units|
      requires |pos| == |params.limits| && |vel| == |params.limits|
      requires Within(pos, params.limits) && Within(vel, params.limits)
      modifies units[k]
      ensures Valid()
      ensures units[k].curPos == pos && units[k].vel == vel
      ensures units[k].maxVal == old(units[k].maxVal) && units[k].positionMaxVal == old(units[k].positionMaxVal)
      ensures forall j :: 0 <= j < |units| && j != k ==> unchanged(units[j])
    {
      var u := units[k];
      assert forall j :: 0 <= j < |units| && j != k ==> units[j] != u;
      u.Init(pos, vel);
    }

    /** init<T>(create_reserve_units): with `true`, the number of free slots
        is computed once and that many fresh particles are appended, so the
        container ends up full; then the base init runs over all units. */
    method InitReserve(createReserveUnits: bool, posDraws: seq<seq<real>>, velDraws: seq<seq<real>>)
      requires Valid()
      requires |posDraws| == |velDraws| == if createReserveUnits then capacity else |units|
      requires DrawsWithin(posDraws, params.limits) && DrawsWithin(velDraws, params.limits)
      modifies this`units, this`capacity, this`position, units
      ensures Valid()
      ensures capacity == old(capacity)
      ensures |units| == if createReserveUnits then capacity else |old(units)|
      ensures units[..|old(units)|] == old(units)
      ensures forall k :: |old(units)| <= k < |units| ==> fresh(units[k])
      ensures forall k :: 0 <= k < |units| ==> units[k].curPos == posDraws[k] && units[k].vel == velDraws[k]
    {
      if createReserveUnits {
        var count := capacity - |units|;
        for i := 0 to count
          invariant Valid()
          invariant capacity == old(capacity) && |units| == |old(units)| + i
          invariant units[..|old(units)|] == old(units)
          invariant forall k :: |old(units)| <= k < |units| ==> fresh(units[k])
        {
          AddUnit();
        }
      }
      Init(posDraws, velDraws);
    }

    /** iter(): the base swarm's round, then the stop flag from the
        criterion's verdict on the shared best. */
    method Iter(rps: seq<seq<real>>, rgs: seq<seq<real>>) returns (ghost shared: seq<Best>)
      requires Valid()
      requires |rps| == |units| && |rgs| == |units|
      requires UnitDraws(rps, |params.limits|) && UnitDraws(rgs, |params.limits|)
      modifies units, params`bestPos, params`bestVal, this`stopped
      ensures Valid()
      ensures stopped == ShouldStop(criterion, params.bestVal)
      ensures |shared| == |units| + 1 && shared[0] == old(params.Global()) && shared[|units|] == params.Global()
      ensures forall k :: 0 <= k < |units| ==>
                TookTurn(units[k], old(units[k].curPos), old(units[k].vel), old(units[k].Personal()),
                         rps[k], rgs[k], shared[k], shared[k + 1])
      ensures AtLeastAsGood(comp, params.bestVal, old(params.bestVal))
      ensures params.bestVal == old(params.bestVal) || exists k :: 0 <= k < |units| && params.bestVal == units[k].maxVal
      ensures forall k :: 0 <= k < |units| ==> MovedFrom(units[k], old(units[k].curPos))
    {
      shared := BaseIter(rps, rgs);
      stopped := ShouldStop(criterion, params.bestVal);
    }

    /** The base swarm's iter(): every particle's iter(), in order.
        `shared` holds the shared best before the round and after each
        particle's turn: particle `k` takes its turn from its own old state
        and the shared best `shared[k]`, leaving `shared[k + 1]`. So every
        particle moves from where it stood and its personal best only
        improves; the shared best only improves, and when it changed it is
        the personal best of some particle. */
    method BaseIter(rps: seq<seq<real>>, rgs: seq<seq<real>>) returns (ghost shared: seq<Best>)
      requires Valid()
      requires |rps| == |units| && |rgs| == |units|
      requires UnitDraws(rps, |params.limits|) && UnitDraws(rgs, |params.limits|)
      modifies units, params`bestPos, params`bestVal
      ensures Valid()
      ensures |shared| == |units| + 1 && shared[0] == old(params.Global()) && shared[|units|] == params.Global()
      ensures forall k :: 0 <= k < |units| ==>
                TookTurn(units[k], old(units[k].curPos), old(units[k].vel), old(units[k].Personal()),
                         rps[k], rgs[k], shared[k], shared[k + 1])
      ensures AtLeastAsGood(comp, params.bestVal, old(params.bestVal))
      ensures params.bestVal == old(params.bestVal) || exists k :: 0 <= k < |units| && params.bestVal == units[k].maxVal
      ensures forall k :: 0 <= k < |units| ==> MovedFrom(units[k], old(units[k].curPos))
      ensures forall k :: 0 <= k < |units| ==> AtLeastAsGood(comp, units[k].maxVal, old(units[k].maxVal))
    {
      shared := Turns(rps, rgs);
      ghost var us := units;
      ghost var vals := seq(|us|, k requires 0 <= k < |us| reads us => us[k].maxVal);
      forall k | 0 <= k < |units|
        ensures MovedFrom(units[k], old(units[k].curPos)) && AtLeastAsGood(comp, units[k].maxVal, old(units[k].maxVal))
        ensures shared[k + 1] == shared[k] || shared[k + 1].val == vals[k]
      {
        TurnMovesAndImproves(units[k], old(units[k].curPos), old(units[k].vel), old(units[k].Personal()),
                             rps[k], rgs[k], shared[k], shared[k + 1]);
      }
      ChainEnd(shared, vals);
    }

    /** The loop of the base swarm's iter(): each particle in turn takes
        its turn, and `shared` records the shared best before the round and
        after each turn. */
    method Turns(rps: seq<seq<real>>, rgs: seq<seq<real>>) returns (ghost shared: seq<Best>)
      requires Valid()
      requires |rps| == |units| && |rgs| == |units|
      requires UnitDraws(rps, |params.limits|) && UnitDraws(rgs, |params.limits|)
      modifies units, params`bestPos, params`bestVal
      ensures Valid()
      ensures |shared| == |units| + 1 && shared[0] == old(params.Global()) && shared[|units|] == params.Global()
      ensures forall k :: 0 <= k < |units| ==>
                TookTurn(units[k], old(units[k].curPos), old(units[k].vel), old(units[k].Personal()),
                         rps[k], rgs[k], shared[k], shared[k + 1])
      ensures AtLeastAsGood(comp, params.bestVal, old(params.bestVal))
    {
      shared := [params.Global()];
      for k := 0 to |units|
        invariant Valid()
        invariant |shared| == k + 1 && shared[0] == old(params.Global()) && shared[k] == params.Global()
        invariant forall j :: 0 <= j < k ==>
                    TookTurn(units[j], old(units[j].curPos), old(units[j].vel), old(units[j].Personal()),
                             rps[j], rgs[j], shared[j], shared[j + 1])
        invariant forall j :: k <= j < |units| ==> unchanged(units[j])
        invariant AtLeastAsGood(comp, params.bestVal, old(params.bestVal))
      {
        IterUnit(k, rps[k], rgs[k]);
        shared := shared + [params.Global()];
      }
    }

    /** One particle's iter() within a round: only that particle and the
        shared best change, as TookTurn describes; the swarm stays
        consistent, so the shared best, which only improves, still
        dominates every personal best. */
    method IterUnit(k: nat, rp: seq<real>, rg: seq<real>)
      requires Valid() && k < |units|
      requires |rp| == |params.limits| && |rg| == |params.limits|
      requires forall i :: 0 <= i < |rp| ==> 0.0 <= rp[i] < 1.0 && 0.0 <= rg[i] < 1.0
      modifies units[k], params`bestPos, params`bestVal
      ensures Valid()
      ensures AtLeastAsGood(comp, params.bestVal, old(params.bestVal))
      ensures params.bestVal == old(params.bestVal) || params.bestVal == units[k].maxVal
      ensures AtLeastAsGood(comp, units[k].maxVal, old(units[k].maxVal))
      ensures MovedFrom(units[k], old(units[k].curPos))
      ensures TookTurn(units[k], old(units[k].curPos), old(units[k].vel), old(units[k].Personal()),
                       rp, rg, old(params.Global()), params.Global())
      ensures forall j :: 0 <= j < |units| && j != k ==> unchanged(units[j])
    {
      var u := units[k];
      assert forall j :: 0 <= j < |units| && j != k ==> units[j] != u;
      u.Iter(rp, rg);
      forall j | 0 <= j < |units| && j != k
        ensures AtLeastAsGood(comp, params.bestVal, units[j].maxVal)
      {
        AtLeastAsGoodTransitive(comp, params.bestVal, old(params.bestVal), units[j].maxVal);
      }
      AtLeastAsGoodTransitive(comp, params.bestVal, old(params.bestVal), 0.0);
    }
  }
}
