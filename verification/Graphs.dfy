/** Walks and distances in directed graphs with costs on the hops; the specification of the route calculation. */
module Graphs {

  datatype Hop<V> = Hop(src: V, cost: nat, dst: V)

  /** A walk, last hop first: `Then(w, u, c)` goes along `w` to `u` and from there takes a hop of cost `c`. */
  datatype Walk<V> = Here | Then(init: Walk<V>, via: V, cost: nat)

  ghost predicate IsWalk<V(!new)>(g: iset<Hop<V>>, a: V, b: V, w: Walk<V>) {
    match w
    case Here => a == b
    case Then(init, u, c) => Hop(u, c, b) in g && IsWalk(g, a, u, init)
  }

  function Cost<V>(w: Walk<V>): nat {
    match w
    case Here => 0
    case Then(init, _, c) => Cost(init) + c
  }

  ghost predicate Connects<V(!new)>(g: iset<Hop<V>>, a: V, b: V) {
    exists w :: IsWalk(g, a, b, w)
  }

  /** `d` is the least cost of a walk from `a` to `b`. */
  ghost predicate IsDistance<V(!new)>(g: iset<Hop<V>>, a: V, b: V, d: nat) {
    && (exists w :: IsWalk(g, a, b, w) && Cost(w) == d)
    && (forall w | IsWalk(g, a, b, w) :: d <= Cost(w))
  }

  function Append<V>(first: Walk<V>, second: Walk<V>): Walk<V> {
    match second
    case Here => first
    case Then(init, u, c) => Then(Append(first, init), u, c)
  }

  lemma {:induction false} AppendIsWalk<V(!new)>(g: iset<Hop<V>>, a: V, b: V, c: V, first: Walk<V>, second: Walk<V>)
    requires IsWalk(g, a, b, first) && IsWalk(g, b, c, second)
    ensures IsWalk(g, a, c, Append(first, second)) && Cost(Append(first, second)) == Cost(first) + Cost(second)
  {
    match second
    case Here =>
    case Then(init, u, _) => AppendIsWalk(g, a, b, u, first, init);
  }

  /** Where there is a walk there is a least one. */
  lemma {:induction false} DistanceExists<V(!new)>(g: iset<Hop<V>>, a: V, b: V, w: Walk<V>) returns (d: nat)
    requires IsWalk(g, a, b, w)
    ensures IsDistance(g, a, b, d) && d <= Cost(w)
    decreases Cost(w)
  {
    if v :| IsWalk(g, a, b, v) && Cost(v) < Cost(w) {
      d := DistanceExists(g, a, b, v);
    } else {
      d := Cost(w);
    }
  }

  /** Every walk in the one graph has one in the other that costs no more. */
  ghost predicate NoDearer<V(!new), W(!new)>(g: iset<Hop<V>>, a: V, b: V, g': iset<Hop<W>>, a': W, b': W) {
    forall w | IsWalk(g, a, b, w) :: exists w' :: IsWalk(g', a', b', w') && Cost(w') <= Cost(w)
  }

  lemma NoDearerWalk<V(!new), W(!new)>(g: iset<Hop<V>>, a: V, b: V, g': iset<Hop<W>>, a': W, b': W, w: Walk<V>)
    returns (w': Walk<W>)
    requires NoDearer(g, a, b, g', a', b') && IsWalk(g, a, b, w)
    ensures IsWalk(g', a', b', w') && Cost(w') <= Cost(w)
  {
    w' :| IsWalk(g', a', b', w') && Cost(w') <= Cost(w);
  }

  lemma DistanceCarriesOver<V(!new), W(!new)>(g: iset<Hop<V>>, a: V, b: V, g': iset<Hop<W>>, a': W, b': W, d: nat)
    requires NoDearer(g, a, b, g', a', b') && NoDearer(g', a', b', g, a, b) && IsDistance(g, a, b, d)
    ensures IsDistance(g', a', b', d)
  {
    hide IsWalk, NoDearer;
    forall v' | IsWalk(g', a', b', v')
      ensures d <= Cost(v')
    {
      var v := NoDearerWalk(g', a', b', g, a, b, v');
    }
    var w :| IsWalk(g, a, b, w) && Cost(w) == d;
    var w' := NoDearerWalk(g, a, b, g', a', b', w);
  }

  lemma SameDistances<V(!new), W(!new)>(g: iset<Hop<V>>, a: V, b: V, g': iset<Hop<W>>, a': W, b': W, d: nat)
    requires NoDearer(g, a, b, g', a', b') && NoDearer(g', a', b', g, a, b)
    ensures IsDistance(g, a, b, d) <==> IsDistance(g', a', b', d)
    ensures Connects(g, a, b) <==> Connects(g', a', b')
  {
    hide IsWalk, NoDearer;
    if IsDistance(g, a, b, d) {
      DistanceCarriesOver(g, a, b, g', a', b', d);
    }
    if IsDistance(g', a', b', d) {
      DistanceCarriesOver(g', a', b', g, a, b, d);
    }
    if w :| IsWalk(g, a, b, w) {
      var w' := NoDearerWalk(g, a, b, g', a', b', w);
    }
    if w' :| IsWalk(g', a', b', w') {
      var w := NoDearerWalk(g', a', b', g, a, b, w');
    }
  }
}
