/** Element-wise arithmetic on fixed-dimension coordinate vectors, as used
    by the particle swarm. Each operation takes its operands by value and
    returns a new vector of the same dimension. Numbers are reals: rounding
    and NaN are not modelled. */
module VectorsOp {

  /** `std::max(a, b)`: `b` when `a < b`, else `a`. */
  function Max(a: real, b: real): (r: real)
    ensures r >= a && r >= b && (r == a || r == b)
  {
    if a < b then b else a
  }

  /** `std::min(a, b)`: `b` when `b < a`, else `a`. */
  function Min(a: real, b: real): (r: real)
    ensures r <= a && r <= b && (r == a || r == b)
  {
    if b < a then b else a
  }

  /** `d * a`: every coordinate multiplied by `d`. */
  function Scale(d: real, a: seq<real>): (r: seq<real>)
    ensures |r| == |a|
    ensures forall i :: 0 <= i < |a| ==> r[i] == d * a[i]
  {
    if a == [] then [] else [d * a[0]] + Scale(d, a[1..])
  }

  /** `a * d`, computed as `d * a`: every coordinate multiplied on the
      right by `d`. */
  function ScaleRight(a: seq<real>, d: real): (r: seq<real>)
    ensures |r| == |a|
    ensures forall i :: 0 <= i < |a| ==> r[i] == a[i] * d
  {
    Scale(d, a)
  }

  /** `a + b`, coordinate by coordinate. */
  function Add(a: seq<real>, b: seq<real>): (r: seq<real>)
    requires |a| == |b|
    ensures |r| == |a|
    ensures forall i :: 0 <= i < |a| ==> r[i] == a[i] + b[i]
  {
    if a == [] then [] else [a[0] + b[0]] + Add(a[1..], b[1..])
  }

  /** `a - b`, coordinate by coordinate. */
  function Sub(a: seq<real>, b: seq<real>): (r: seq<real>)
    requires |a| == |b|
    ensures |r| == |a|
    ensures forall i :: 0 <= i < |a| ==> r[i] == a[i] - b[i]
  {
    if a == [] then [] else [a[0] - b[0]] + Sub(a[1..], b[1..])
  }

  /** `a * b`, the coordinate-wise product. */
  function Mul(a: seq<real>, b: seq<real>): (r: seq<real>)
    requires |a| == |b|
    ensures |r| == |a|
    ensures forall i :: 0 <= i < |a| ==> r[i] == a[i] * b[i]
  {
    if a == [] then [] else [a[0] * b[0]] + Mul(a[1..], b[1..])
  }

  /** Per-coordinate bounds `(lo, hi)`. */
  type Limits = seq<(real, real)>

  /** Every coordinate lies within its bounds. */
  predicate Within(a: seq<real>, e: Limits)
    requires |a| == |e|
  {
    forall i :: 0 <= i < |a| ==> e[i].0 <= a[i] <= e[i].1
  }

  /** `clamp(a, e)`: `min(max(a[i], lo_i), hi_i)` for each coordinate. A
      coordinate lands within well-formed bounds, stays put when it is
      already inside them, and becomes `hi_i` when the bounds are crossed. */
  function Clamp(a: seq<real>, e: Limits): (r: seq<real>)
    requires |a| == |e|
    ensures |r| == |a|
    ensures forall i :: 0 <= i < |a| && e[i].0 <= e[i].1 ==> e[i].0 <= r[i] <= e[i].1
    ensures forall i :: 0 <= i < |a| && e[i].0 <= a[i] <= e[i].1 ==> r[i] == a[i]
    ensures forall i :: 0 <= i < |a| && e[i].1 < e[i].0 ==> r[i] == e[i].1
  {
    if a == [] then [] else [Min(Max(a[0], e[0].0), e[0].1)] + Clamp(a[1..], e[1..])
  }

  /** Clamping twice is clamping once, whatever the bounds. */
  lemma ClampIdempotent(a: seq<real>, e: Limits)
    requires |a| == |e|
    ensures Clamp(Clamp(a, e), e) == Clamp(a, e)
  {
    var c := Clamp(a, e);
    forall i | 0 <= i < |a|
      ensures Clamp(c, e)[i] == c[i]
    {
      if e[i].0 <= e[i].1 {
        assert e[i].0 <= c[i] <= e[i].1;
      } else {
        assert c[i] == e[i].1;
        assert Clamp(c, e)[i] == e[i].1;
      }
    }
  }

  /** With well-formed bounds, the result of clamping is within them. */
  lemma ClampWithin(a: seq<real>, e: Limits)
    requires |a| == |e|
    requires forall i :: 0 <= i < |e| ==> e[i].0 <= e[i].1
    ensures Within(Clamp(a, e), e)
  {
  }

  /** Subtraction undoes addition. */
  lemma SubUndoesAdd(a: seq<real>, b: seq<real>)
    requires |a| == |b|
    ensures Sub(Add(a, b), b) == a
  {
    var s := Sub(Add(a, b), b);
    assert forall i :: 0 <= i < |a| ==> s[i] == a[i];
  }

  /** Scaling distributes over addition. */
  lemma ScaleDistributes(d: real, a: seq<real>, b: seq<real>)
    requires |a| == |b|
    ensures Scale(d, Add(a, b)) == Add(Scale(d, a), Scale(d, b))
  {
    var l, r := Scale(d, Add(a, b)), Add(Scale(d, a), Scale(d, b));
    forall i | 0 <= i < |a| ensures l[i] == r[i] {
      calc {
        l[i];
        d * (a[i] + b[i]);
        d * a[i] + d * b[i];
        r[i];
      }
    }
  }
}
