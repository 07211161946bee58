/**
 Where a subterm stands: a position is a path of part numbers. Occurring is restated by
 positions, for the properties that speak of every subterm.
 */
module Positions {
  import opened Terms

  /** The parts of a term as they are written, each with the number of binders it stands under. */
  function Parts(e: Term): seq<(Term, nat)> {
    match e
    case App(f, x) => [(f, 0), (x, 0)]
    case Lam(_, ty, body) => [(ty, 0), (body, 1)]
    case Pi(_, ty, body) => [(ty, 0), (body, 1)]
    case Let(ty, val, body) => [(ty, 0), (val, 0), (body, 1)]
    case Proj(_, _, v) => [(v, 0)]
    case _ => []
  }

  lemma PartsSmaller(e: Term)
    ensures forall k :: 0 <= k < |Parts(e)| ==> Parts(e)[k].0 < e
  {}

  /** What stands at a path, and under how many binders. */
  function At(e: Term, path: seq<nat>): Option<(Term, nat)>
    decreases |path|
  {
    if path == [] then Some((e, 0))
    else if path[0] >= |Parts(e)| then None
    else
      var (part, binders) := Parts(e)[path[0]];
      var rest := At(part, path[1..]);
      if rest.None? then None else Some((rest.value.0, binders + rest.value.1))
  }

  ghost predicate LooseAt(e: Term, path: seq<nat>, i: nat) {
    At(e, path).Some? && At(e, path).value.0 == BVar(At(e, path).value.1 + i)
  }

  lemma OccursParts(e: Term, i: nat)
    ensures Occurs(e, i)
       <==> e == BVar(i) || exists k :: 0 <= k < |Parts(e)| && Occurs(Parts(e)[k].0, Parts(e)[k].1 + i)
  {
    var ps := Parts(e);
    match e
    case App(f, x) => assert ps[0] == (f, 0) && ps[1] == (x, 0);
    case Lam(_, ty, body) => assert ps[0] == (ty, 0) && ps[1] == (body, 1);
    case Pi(_, ty, body) => assert ps[0] == (ty, 0) && ps[1] == (body, 1);
    case Let(ty, val, body) => assert ps[0] == (ty, 0) && ps[1] == (val, 0) && ps[2] == (body, 1);
    case Proj(_, _, v) => assert ps[0] == (v, 0);
    case _ =>
  }

  lemma {:induction false} LoosePath(e: Term, i: nat) returns (path: seq<nat>)
    requires Occurs(e, i)
    ensures LooseAt(e, path, i)
  {
    OccursParts(e, i);
    PartsSmaller(e);
    path := [];
    if e != BVar(i) {
      var k :| 0 <= k < |Parts(e)| && Occurs(Parts(e)[k].0, Parts(e)[k].1 + i);
      path := LoosePath(Parts(e)[k].0, Parts(e)[k].1 + i);
      assert ([k] + path)[1..] == path;
      path := [k] + path;
    }
  }

  lemma {:induction false} PathLoose(e: Term, path: seq<nat>, i: nat)
    requires LooseAt(e, path, i)
    ensures Occurs(e, i)
    decreases |path|
  {
    OccursParts(e, i);
    if path != [] { PathLoose(Parts(e)[path[0]].0, path[1..], Parts(e)[path[0]].1 + i); }
  }

  /** A loose index occurs exactly when some variable, less the binders above it, is that index. */
  lemma OccursExact(e: Term, i: nat)
    ensures Occurs(e, i) <==> exists path :: LooseAt(e, path, i)
  {
    if Occurs(e, i) { var path := LoosePath(e, i); }
    if path :| LooseAt(e, path, i) { PathLoose(e, path, i); }
  }
}
