/** A particle of the particle-swarm example: current position and
    velocity, its personal best, and references to the best position and
    value shared by the whole swarm. Numbers are reals (no rounding, no
    NaN); random draws are parameters. */
module Particles {
  import opened VectorsOp

  /** The `Compare` template argument: `std::less` (minimise, the default)
      or `std::greater` (maximise). */
  datatype Compare = Less | Greater

  /** `comp(x, y)`: `x` is strictly better than `y`. */
  predicate Better(c: Compare, x: real, y: real) {
    match c
    case Less => x < y
    case Greater => x > y
  }

  /** `x` is not beaten by `y`. */
  predicate AtLeastAsGood(c: Compare, x: real, y: real) {
    !Better(c, y, x)
  }

  /** A best-so-far record: where it was found and its value. */
  datatype Best = Best(pos: seq<real>, val: real)

  /** The personal half of `update_max(cur)` at position `pos`. */
  function PersonalUpdate(c: Compare, personal: Best, pos: seq<real>, cur: real): Best {
    if Better(c, cur, personal.val) then Best(pos, cur) else personal
  }

  /** The shared half of `update_max(cur)`: on improvement, the shared
      position becomes `pos` and the shared value becomes the personal best
      value as just updated. */
  function GlobalUpdate(c: Compare, global: Best, personalAfter: Best, pos: seq<real>, cur: real): Best {
    if Better(c, cur, global.val) then Best(pos, personalAfter.val) else global
  }

  /** The personal best never gets worse. */
  lemma PersonalNeverWorse(c: Compare, personal: Best, pos: seq<real>, cur: real)
    ensures AtLeastAsGood(c, PersonalUpdate(c, personal, pos, cur).val, personal.val)
    ensures AtLeastAsGood(c, PersonalUpdate(c, personal, pos, cur).val, cur)
  {
  }

  /** When `cur` beats neither best, `update_max` changes nothing. */
  lemma NoImprovementNoChange(c: Compare, personal: Best, global: Best, pos: seq<real>, cur: real)
    requires !Better(c, cur, personal.val) && !Better(c, cur, global.val)
    ensures PersonalUpdate(c, personal, pos, cur) == personal
    ensures GlobalUpdate(c, global, PersonalUpdate(c, personal, pos, cur), pos, cur) == global
  {
  }

  /** While the shared best is at least as good as this particle's, an
      update of the shared best records exactly `cur` at `pos`, and
      afterwards the shared best is still at least as good as the
      particle's, at least as good as before, and at least as good as
      anything it was at least as good as before. */
  lemma SharedBestKept(c: Compare, personal: Best, global: Best, pos: seq<real>, cur: real, other: real)
    requires AtLeastAsGood(c, global.val, personal.val)
    requires AtLeastAsGood(c, global.val, other)
    ensures var p := PersonalUpdate(c, personal, pos, cur);
            var g := GlobalUpdate(c, global, p, pos, cur);
            && (Better(c, cur, global.val) ==> g == Best(pos, cur) && p == Best(pos, cur))
            && AtLeastAsGood(c, g.val, p.val)
            && AtLeastAsGood(c, g.val, global.val)
            && AtLeastAsGood(c, g.val, other)
  {
    var p := PersonalUpdate(c, personal, pos, cur);
    if Better(c, cur, global.val) {
      assert Better(c, cur, personal.val) by {
        match c
        case Less =>
        case Greater =>
      }
    }
  }

  /** Being at least as good is transitive. */
  lemma AtLeastAsGoodTransitive(c: Compare, x: real, y: real, z: real)
    requires AtLeastAsGood(c, x, y) && AtLeastAsGood(c, y, z)
    ensures AtLeastAsGood(c, x, z)
  {
    match c
    case Less =>
    case Greater =>
  }

  /** The velocity rule
      `omega * vel + phi_p * rp * (pmax - pos) + phi_g * rg * (gbest - pos)`,
      built from the element-wise vector operations in the same order. */
  function Velocity(omega: real, phiP: real, phiG: real, vel: seq<real>, rp: seq<real>, rg: seq<real>,
                    pmax: seq<real>, gbest: seq<real>, pos: seq<real>): (r: seq<real>)
    requires |vel| == |rp| == |rg| == |pmax| == |gbest| == |pos|
    ensures |r| == |vel|
  {
    Add(Add(Scale(omega, vel), Mul(Scale(phiP, rp), Sub(pmax, pos))), Mul(Scale(phiG, rg), Sub(gbest, pos)))
  }

  /** An attraction term towards the current position itself is zero. */
  lemma NoPullToSelf(phi: real, r: seq<real>, pos: seq<real>, i: nat)
    requires |r| == |pos| && i < |pos|
    ensures Mul(Scale(phi, r), Sub(pos, pos))[i] == 0.0
  {
    assert Sub(pos, pos)[i] == 0.0;
  }

  /** A particle at rest on its personal best, which is also the shared
      best, stays at rest whatever the draws. */
  lemma RestAtBest(omega: real, phiP: real, phiG: real, rp: seq<real>, rg: seq<real>, pos: seq<real>)
    requires |rp| == |rg| == |pos|
    ensures Velocity(omega, phiP, phiG, Zeros(|pos|), rp, rg, pos, pos, pos) == Zeros(|pos|)
  {
    var v := Velocity(omega, phiP, phiG, Zeros(|pos|), rp, rg, pos, pos, pos);
    forall i | 0 <= i < |pos|
      ensures v[i] == 0.0
    {
      NoPullToSelf(phiP, rp, pos, i);
      NoPullToSelf(phiG, rg, pos, i);
    }
  }

  /** The all-zero vector of a value-initialised `std::array`. */
  function Zeros(n: nat): (r: seq<real>)
    ensures |r| == n && forall i :: 0 <= i < n ==> r[i] == 0.0
  {
    seq(n, _ => 0.0)
  }

  /** The contents of an `SOPParams` struct as a caller fills it in before
      handing it to a swarm, which stores a copy. */
  datatype ParamsValue = ParamsValue(limits: Limits, omega: real, phiP: real, phiG: real,
                                     bestPos: seq<real>, bestVal: real)

  /** A value-initialised `SOPParams` with the given limits: the default
      coefficients, a best position of zeros of the swarm's dimension and a
      best value of 0, which no comparison ranks below the particles'
      initial value 0. */
  function DefaultParams(limits: Limits): (p: ParamsValue)
    ensures p.limits == limits && |p.bestPos| == |limits|
    ensures p.omega == 0.729 && p.phiP == 0.149445 && p.phiG == 0.149445
    ensures forall i :: 0 <= i < |p.bestPos| ==> p.bestPos[i] == 0.0
    ensures forall c: Compare :: AtLeastAsGood(c, p.bestVal, 0.0)
  {
    ParamsValue(limits, 0.729, 0.149445, 0.149445, Zeros(|limits|), 0.0)
  }

  /** SOPParams: the swarm's parameters; the units refer to this one object,
      and its best position and value are the storage every unit updates. */
  class SOPParams {
    const limits: Limits
    const omega: real
    const phiP: real
    const phiG: real
    var bestPos: seq<real>
    var bestVal: real

    /** Default coefficients, the given limits, and a best of zeros and 0. */
    constructor (limits: Limits)
      ensures this.limits == limits
      ensures omega == 0.729 && phiP == 0.149445 && phiG == 0.149445
      ensures bestPos == Zeros(|limits|) && bestVal == 0.0
    {
      this.limits := limits;
      omega, phiP, phiG := 0.729, 0.149445, 0.149445;
      bestPos, bestVal := Zeros(|limits|), 0.0;
    }

    /** The swarm's own copy of the caller's parameters `p`. */
    constructor Copy(p: ParamsValue)
      ensures Value() == p
    {
      limits, omega, phiP, phiG := p.limits, p.omega, p.phiP, p.phiG;
      bestPos, bestVal := p.bestPos, p.bestVal;
    }

    function Global(): Best
      reads this
    {
      Best(bestPos, bestVal)
    }

    /** The parameters as a value. */
    function Value(): ParamsValue
      reads this
    {
      ParamsValue(limits, omega, phiP, phiG, bestPos, bestVal)
    }
  }

  /** ParticlUnit<Dim, Compare>. */
  class ParticleUnit {
    const params: SOPParams
    const comp: Compare
    const func: seq<real> -> real
    var curPos: seq<real>
    var vel: seq<real>
    var maxVal: real
    var positionMaxVal: seq<real>

    /** The particle's own vectors have the swarm's dimension. */
    ghost predicate Valid()
      reads this`curPos, this`vel, this`positionMaxVal
    {
      && |curPos| == |params.limits|
      && |vel| == |params.limits|
      && |positionMaxVal| == |params.limits|
    }

    function Personal(): Best
      reads this`positionMaxVal, this`maxVal
    {
      Best(positionMaxVal, maxVal)
    }

    /** A new particle: zero position, velocity and personal best, bound to
        the swarm's parameters and shared best. */
    constructor (params: SOPParams, func: seq<real> -> real, comp: Compare)
      ensures Valid()
      ensures this.params == params && this.func == func && this.comp == comp
      ensures curPos == Zeros(|params.limits|) && vel == Zeros(|params.limits|)
      ensures Personal() == Best(Zeros(|params.limits|), 0.0)
    {
      this.params, this.func, this.comp := params, func, comp;
      curPos, vel := Zeros(|params.limits|), Zeros(|params.limits|);
      maxVal, positionMaxVal := 0.0, Zeros(|params.limits|);
    }

    /** update_max(cur): first the personal best, then the shared best. */
    method UpdateMax(cur: real)
      requires Valid() && |params.bestPos| == |params.limits|
      modifies this`maxVal, this`positionMaxVal, params`bestPos, params`bestVal
      ensures Valid() && |params.bestPos| == |params.limits|
      ensures Personal() == PersonalUpdate(comp, old(Personal()), curPos, cur)
      ensures params.Global() == GlobalUpdate(comp, old(params.Global()), Personal(), curPos, cur)
    {
      if Better(comp, cur, maxVal) {
        positionMaxVal := curPos;
        maxVal := cur;
      }
      if Better(comp, cur, params.bestVal) {
        params.bestPos := curPos;
        params.bestVal := maxVal;
      }
    }

    /** update_pos with the uniform draws `rp`, `rg` in [0, 1): the velocity
        rule, then the position moved by the velocity and clamped to the
        limits. */
    method UpdatePos(rp: seq<real>, rg: seq<real>)
      requires Valid() && |params.bestPos| == |params.limits| && |rp| == |curPos| && |rg| == |curPos|
      requires forall i :: 0 <= i < |rp| ==> 0.0 <= rp[i] < 1.0 && 0.0 <= rg[i] < 1.0
      modifies this`vel, this`curPos
      ensures Valid()
      ensures vel == Velocity(params.omega, params.phiP, params.phiG, old(vel), rp, rg,
                              positionMaxVal, params.bestPos, old(curPos))
      ensures curPos == Clamp(Add(old(curPos), vel), params.limits)
    {
      vel := Velocity(params.omega, params.phiP, params.phiG, vel, rp, rg, positionMaxVal, params.bestPos, curPos);
      curPos := Clamp(Add(curPos, vel), params.limits);
    }

    /** iter(): the bests are updated from the value at the position held
        before the move, then the particle moves. */
    method Iter(rp: seq<real>, rg: seq<real>)
      requires Valid() && |params.bestPos| == |params.limits| && |rp| == |curPos| && |rg| == |curPos|
      requires forall i :: 0 <= i < |rp| ==> 0.0 <= rp[i] < 1.0 && 0.0 <= rg[i] < 1.0
      modifies this`maxVal, this`positionMaxVal, this`vel, this`curPos, params`bestPos, params`bestVal
      ensures Valid() && |params.bestPos| == |params.limits|
      ensures Personal() == PersonalUpdate(comp, old(Personal()), old(curPos), func(old(curPos)))
      ensures params.Global() == GlobalUpdate(comp, old(params.Global()), Personal(), old(curPos), func(old(curPos)))
      ensures vel == Velocity(params.omega, params.phiP, params.phiG, old(vel), rp, rg,
                              positionMaxVal, params.bestPos, old(curPos))
      ensures curPos == Clamp(Add(old(curPos), vel), params.limits)
      ensures AtLeastAsGood(comp, maxVal, old(maxVal))
      ensures AtLeastAsGood(comp, params.bestVal, old(params.bestVal))
      ensures params.bestVal == old(params.bestVal) || params.bestVal == maxVal
      ensures old(AtLeastAsGood(comp, params.bestVal, maxVal)) ==> AtLeastAsGood(comp, params.bestVal, maxVal)
    {
      ghost var personal, global, pos := Personal(), params.Global(), curPos;
      UpdateMax(func(curPos));
      PersonalNeverWorse(comp, personal, pos, func(pos));
      if AtLeastAsGood(comp, global.val, personal.val) {
        SharedBestKept(comp, personal, global, pos, func(pos), personal.val);
      }
      UpdatePos(rp, rg);
    }

    /** The particle executor's init(): every coordinate of the position,
        then of the velocity, set to a uniform draw between that
        coordinate's limits. */
    method Init(posDraws: seq<real>, velDraws: seq<real>)
      requires Valid() && |posDraws| == |params.limits| && |velDraws| == |params.limits|
      requires Within(posDraws, params.limits) && Within(velDraws, params.limits)
      modifies this`curPos, this`vel
      ensures Valid()
      ensures curPos == posDraws && vel == velDraws
      ensures Within(curPos, params.limits) && Within(vel, params.limits)
    {
      for i := 0 to |curPos|
        invariant |curPos| == |params.limits| && vel == old(vel)
        invariant forall j :: 0 <= j < i ==> curPos[j] == posDraws[j]
      {
        curPos := curPos[i := posDraws[i]];
      }
      for i := 0 to |vel|
        invariant |vel| == |params.limits| && curPos == posDraws
        invariant forall j :: 0 <= j < i ==> vel[j] == velDraws[j]
      {
        vel := vel[i := velDraws[i]];
      }
    }
  }
}
