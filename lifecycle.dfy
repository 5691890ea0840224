/** Vocabulary shared by every part of the swarm model: the two lifecycle
    calls, the trace an object leaves when it forwards them, null-able unit
    links, and the capacity policy of a growable vector. */
module Lifecycle {

  /** The two lifecycle entry points of units, agents and their modules:
      `init()` (one-time setup) and `iter()` (one discrete step). */
  datatype Call = InitCall | IterCall

  /** One lifecycle call made on `target`. */
  datatype Invocation<T> = Invocation(target: T, call: Call)

  datatype Option<+T> = None | Some(value: T)

  /** Identity of a unit or agent: the address its shared pointer holds. */
  type UnitId = nat

  /** A shared-pointer link to a unit; `None` is an empty (null) link. */
  type Link = Option<UnitId>

  predicate Distinct<T(==)>(s: seq<T>) {
    forall i, j :: 0 <= i < j < |s| ==> s[i] != s[j]
  }

  /** Number of occurrences of `x` in `s`. */
  function Count<T(==)>(s: seq<T>, x: T): nat {
    if s == [] then 0 else (if s[0] == x then 1 else 0) + Count(s[1..], x)
  }

  /** The trace left by making call `c` on each of `targets`, in order. */
  function Forward<T>(targets: seq<T>, c: Call): (r: seq<Invocation<T>>)
    ensures |r| == |targets|
    ensures forall i :: 0 <= i < |targets| ==> r[i] == Invocation(targets[i], c)
  {
    if targets == [] then [] else [Invocation(targets[0], c)] + Forward(targets[1..], c)
  }

  /** The targets of a trace, in call order. */
  function Targets<T>(events: seq<Invocation<T>>): (r: seq<T>)
    ensures |r| == |events|
    ensures forall i :: 0 <= i < |events| ==> r[i] == events[i].target
  {
    if events == [] then [] else [events[0].target] + Targets(events[1..])
  }

  lemma TargetsAppend<T>(a: seq<Invocation<T>>, b: seq<Invocation<T>>)
    ensures Targets(a + b) == Targets(a) + Targets(b)
  {
  }

  lemma ForwardAppend<T>(a: seq<T>, b: seq<T>, c: Call)
    ensures Forward(a + b, c) == Forward(a, c) + Forward(b, c)
  {
  }

  /** Extending a traversal by one target, after any earlier trace, appends
      exactly one call on that target. */
  lemma ForwardStep<T>(prior: seq<Invocation<T>>, targets: seq<T>, i: nat, c: Call)
    requires i < |targets|
    ensures prior + Forward(targets[..i + 1], c) == prior + Forward(targets[..i], c) + [Invocation(targets[i], c)]
  {
    assert targets[..i + 1] == targets[..i] + [targets[i]];
    ForwardAppend(targets[..i], [targets[i]], c);
  }

  /** Forwarding a call over distinct targets calls it exactly once on each
      target and never on anything else. */
  lemma {:induction false} ForwardCallsEachOnce<T>(targets: seq<T>, c: Call, t: T, d: Call)
    requires Distinct(targets)
    ensures Count(Forward(targets, c), Invocation(t, d)) == if t in targets && d == c then 1 else 0
  {
    if targets != [] {
      var f := Forward(targets, c);
      assert f[1..] == Forward(targets[1..], c);
      ForwardCallsEachOnce(targets[1..], c, t, d);
      assert targets[0] == t ==> t !in targets[1..];
      assert t in targets <==> t == targets[0] || t in targets[1..];
    }
  }

  /** The units behind the non-null links, in link order: those a guarded
      traversal (`if (link) action(*link)`) reaches. */
  function NonNull(links: seq<Link>): (r: seq<UnitId>)
    ensures |r| <= |links|
  {
    if links == [] then []
    else (if links[0].Some? then [links[0].value] else []) + NonNull(links[1..])
  }

  /** The guarded traversal reaches exactly the units some link points to. */
  lemma {:induction false} NonNullMembers(links: seq<Link>)
    ensures forall id :: id in NonNull(links) <==> Some(id) in links
  {
    if links != [] {
      NonNullMembers(links[1..]);
      assert links == [links[0]] + links[1..];
    }
  }

  lemma {:induction false} NonNullAppend(a: seq<Link>, b: seq<Link>)
    ensures NonNull(a + b) == NonNull(a) + NonNull(b)
  {
    if a != [] {
      assert (a + b)[1..] == a[1..] + b;
      NonNullAppend(a[1..], b);
    } else {
      assert a + b == b;
    }
  }

  /** Extending a guarded traversal by one link adds one call when the link
      is non-null and none otherwise. */
  lemma ForwardNonNullStep(links: seq<Link>, i: nat, c: Call)
    requires i < |links|
    ensures links[i].Some? ==> Forward(NonNull(links[..i + 1]), c)
                                == Forward(NonNull(links[..i]), c) + [Invocation(links[i].value, c)]
    ensures links[i].None? ==> Forward(NonNull(links[..i + 1]), c) == Forward(NonNull(links[..i]), c)
  {
    assert links[..i + 1] == links[..i] + [links[i]];
    NonNullAppend(links[..i], [links[i]]);
    ForwardAppend(NonNull(links[..i]), NonNull([links[i]]), c);
    if links[i].None? {
      assert NonNull(links[..i + 1]) == NonNull(links[..i]);
    }
  }

  /** A guarded traversal reaches each unit exactly as often as a link to it
      is stored, and a null link never. */
  lemma {:induction false} NonNullCount(links: seq<Link>, id: UnitId)
    ensures Count(NonNull(links), id) == Count(links, Some(id))
  {
    if links != [] {
      NonNullCount(links[1..], id);
      var head := if links[0].Some? then [links[0].value] else [];
      assert NonNull(links) == head + NonNull(links[1..]);
      CountAppend(head, NonNull(links[1..]), id);
    }
  }

  /** With no null link, the guarded traversal reaches every stored unit, one
      per link, in link order. */
  lemma {:induction false} NonNullOfLinks(links: seq<Link>)
    requires None !in links
    ensures |NonNull(links)| == |links|
    ensures forall i :: 0 <= i < |links| ==> NonNull(links)[i] == links[i].value
  {
    if links != [] {
      assert None !in links[1..];
      NonNullOfLinks(links[1..]);
      assert NonNull(links) == [links[0].value] + NonNull(links[1..]);
    }
  }

  lemma {:induction false} CountAppend<T>(a: seq<T>, b: seq<T>, x: T)
    ensures Count(a + b, x) == Count(a, x) + Count(b, x)
  {
    if a != [] {
      assert (a + b)[1..] == a[1..] + b;
      CountAppend(a[1..], b, x);
    } else {
      assert a + b == b;
    }
  }

  /** In a sequence without repetitions an element occurs at most once. */
  lemma {:induction false} CountDistinct<T>(s: seq<T>, x: T)
    requires Distinct(s)
    ensures Count(s, x) == if x in s then 1 else 0
  {
    if s != [] {
      CountDistinct(s[1..], x);
      assert s[0] == x ==> x !in s[1..];
      assert x in s <==> x == s[0] || x in s[1..];
    }
  }

  /** `count` links to freshly allocated units with consecutive identities
      starting at `from`: what `count` successive `new T()` produce. */
  function FreshLinks(from: nat, count: nat): (r: seq<Link>)
    ensures |r| == count
    ensures forall i :: 0 <= i < count ==> r[i] == Some(from + i)
  {
    if count == 0 then [] else FreshLinks(from, count - 1) + [Some(from + count - 1)]
  }

  /** Capacity of a std::vector after one push_back onto `size` elements held
      in `capacity`: unchanged while there is room; otherwise grown to
      `size + max(size, 1)`, the libstdc++ policy (the standard only promises
      room for the new element). */
  function CapacityAfterPush(capacity: nat, size: nat): (r: nat)
    requires size <= capacity
    ensures size < r
    ensures size < capacity ==> r == capacity
    ensures size == capacity ==> r >= 2 * size
  {
    if size < capacity then capacity else size + (if size == 0 then 1 else size)
  }
}
