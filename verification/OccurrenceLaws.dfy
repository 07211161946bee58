/**
 Nested occurrences by position. A position in a term is a path of part numbers. Which
 subterms are occurrences, in which order a scan meets the outermost ones, and what is
 recognised once an expansion is done, is said here of positions, without the scan.
 */
module OccurrenceLaws {
  import opened Terms
  import opened Positions
  import opened Recursor
  import opened Nested
  import opened Expansion
  import L = Levels

  // ---------------------------------------------------------------- mentions

  ghost predicate NamesAt(e: Term, path: seq<nat>, names: seq<nat>) {
    At(e, path).Some? && At(e, path).value.0.Const? && At(e, path).value.0.name in names
  }

  lemma MentionsParts(e: Term, names: seq<nat>)
    ensures Mentions(e, names)
       <==> (e.Const? && e.name in names) || exists k :: 0 <= k < |Parts(e)| && Mentions(Parts(e)[k].0, names)
  {
    var ps := Parts(e);
    match e
    case App(f, x) => assert ps[0].0 == f && ps[1].0 == x;
    case Lam(_, ty, body) => assert ps[0].0 == ty && ps[1].0 == body;
    case Pi(_, ty, body) => assert ps[0].0 == ty && ps[1].0 == body;
    case Let(ty, val, body) => assert ps[0].0 == ty && ps[1].0 == val && ps[2].0 == body;
    case Proj(_, _, v) => assert ps[0].0 == v;
    case _ =>
  }

  lemma {:induction false} MentionPath(e: Term, names: seq<nat>) returns (path: seq<nat>)
    requires Mentions(e, names)
    ensures NamesAt(e, path, names)
  {
    MentionsParts(e, names);
    PartsSmaller(e);
    path := [];
    if !e.Const? {
      var k :| 0 <= k < |Parts(e)| && Mentions(Parts(e)[k].0, names);
      path := MentionPath(Parts(e)[k].0, names);
      assert ([k] + path)[1..] == path;
      path := [k] + path;
    }
  }

  lemma {:induction false} PathMentions(e: Term, path: seq<nat>, names: seq<nat>)
    requires NamesAt(e, path, names)
    ensures Mentions(e, names)
    decreases |path|
  {
    MentionsParts(e, names);
    if path != [] { PathMentions(Parts(e)[path[0]].0, path[1..], names); }
  }

  /** A term mentions a declared name exactly when a constant of that name stands somewhere in it. */
  lemma MentionsExact(e: Term, names: seq<nat>)
    ensures Mentions(e, names) <==> exists path :: NamesAt(e, path, names)
  {
    if Mentions(e, names) { var path := MentionPath(e, names); }
    if path :| NamesAt(e, path, names) { PathMentions(e, path, names); }
  }

  // -------------------------------------------------- what is an occurrence

  /** A type of the environment, not one being declared, given all its parameters, one of which mentions a
      declared name. */
  ghost predicate Takes(names: seq<nat>, env: Env, n: nat, args: seq<Term>) {
    n in env.types && n !in names && env.types[n].np <= |args|
    && exists k :: 0 <= k < env.types[n].np && Mentions(args[k], names)
  }

  /** One of the parameters has a variable bound inside the constructor. */
  ghost predicate LocalIn(env: Env, n: nat, args: seq<Term>, depth: nat)
    requires n in env.types
  {
    exists j :: 0 <= j < env.types[n].np && j < |args| && OccursWithin(args[j], 0, depth)
  }

  /** The occurrence read off `n.{us} args` under `depth` binders. */
  ghost predicate ReadOff(env: Env, n: nat, us: seq<L.Level>, args: seq<Term>, depth: nat, o: Occurrence)
    requires n in env.types
  {
    o.source == n && o.levels == us && o.all == env.types[n].all && o.np == env.types[n].np
    && |o.fixedParams| == env.types[n].np <= |args|
    && forall j :: 0 <= j < |o.fixedParams| ==> Shift(o.fixedParams[j], depth, 0) == args[j]
  }

  lemma NamedLaw(names: seq<nat>, env: Env, n: nat, us: seq<L.Level>, args: seq<Term>, depth: nat)
    requires args != []
    ensures var o := NamedOccurrence(names, env, Apps(Const(n, us), args), depth);
            (o != Ok(None) <==> Takes(names, env, n, args))
            && (o.Err? <==> Takes(names, env, n, args) && LocalIn(env, n, args, depth))
            && (o.Ok? && o.value.Some? ==> n in env.types && ReadOff(env, n, us, args, depth, o.value.value))
  {
    hide HasBVarInRange, Mentions, OccursWithin, Shift;
    var e := Apps(Const(n, us), args);
    AppsIsApp(Const(n, us), args);
    ApplyThenUnfold(Const(n, us), args);
    if n in env.types && env.types[n].np <= |args| {
      var params := args[..env.types[n].np];
      forall j | 0 <= j < |params|
        ensures HasBVarInRange(params[j], 0, depth, 0) <==> OccursWithin(args[j], 0, depth)
      {
        HasBVarInRangeExact(params[j], 0, depth);
      }
      assert Takes(names, env, n, args) ==> exists k :: 0 <= k < |params| && Mentions(params[k], names) by {
        if Takes(names, env, n, args) {
          var k :| 0 <= k < env.types[n].np && Mentions(args[k], names);
          assert params[k] == args[k];
        }
      }
      var o := NamedOccurrence(names, env, e, depth);
      if o.Ok? && o.value.Some? {
        forall j | 0 <= j < |params| ensures Shift(o.value.value.fixedParams[j], depth, 0) == args[j] {
          LowerThenRaise(params[j], depth);
        }
      }
    }
  }

  lemma {:induction false} AppsIsApp(f: Term, args: seq<Term>)
    ensures Apps(f, args).App? <==> args != [] || f.App?
    decreases |args|
  {
    if args != [] { AppsIsApp(App(f, args[0]), args[1..]); }
  }

  /** At an application of a constant: an occurrence exactly when the constant is an earlier type with all its
      parameters and a declared name in one of them; refused exactly when one of the parameters has a local variable;
      and otherwise what is read off the application. */
  lemma OccurrenceLaw(g: Group, env: Env, n: nat, us: seq<L.Level>, args: seq<Term>, depth: nat)
    requires Grounded(g) && args != []
    ensures var o := NestedOccurrence(g, env, Apps(Const(n, us), args), depth);
            (o != Ok(None) <==>
             n in env.types && n !in g.names && env.types[n].np <= |args|
             && exists k :: 0 <= k < env.types[n].np && Mentions(args[k], g.names))
            && (o.Err? <==>
                o != Ok(None)
                && exists j :: 0 <= j < env.types[n].np && j < |args| && OccursWithin(args[j], 0, depth))
            && (o.Ok? && o.value.Some? ==>
                o.value.value.source == n && o.value.value.levels == us && o.value.value.all == env.types[n].all
                && o.value.value.np == env.types[n].np && |o.value.value.fixedParams| == env.types[n].np
                && forall j :: 0 <= j < env.types[n].np ==> Shift(o.value.value.fixedParams[j], depth, 0) == args[j])
  {
    hide NestedOccurrence, NamedOccurrence, Mentions, OccursWithin, Shift, Grounded;
    OccurrenceNamed(g, env, Apps(Const(n, us), args), depth);
    NamedLaw(g.names, env, n, us, args, depth);
  }

  /** And nothing else is an occurrence. */
  lemma OccurrenceOnlyThere(g: Group, env: Env, e: Term, depth: nat)
    requires Grounded(g) && NestedOccurrence(g, env, e, depth) != Ok(None)
    ensures exists n, us, args :: args != [] && e == Apps(Const(n, us), args)
  {
    UnfoldThenApply(e);
    var (head, args) := UnfoldApps(e);
    assert args != [] && e == Apps(Const(head.name, head.us), args);
  }

  // ------------------------------------------------------ outermost occurrences

  ghost predicate IsOccurrence(names: seq<nat>, env: Env, e: Term) {
    exists n, us, args :: args != [] && e == Apps(Const(n, us), args) && Takes(names, env, n, args)
  }

  /** An occurrence with none above it. */
  ghost predicate Outer(names: seq<nat>, env: Env, e: Term, path: seq<nat>) {
    At(e, path).Some? && IsOccurrence(names, env, At(e, path).value.0)
    && forall m :: 0 <= m < |path| && At(e, path[..m]).Some? ==> !IsOccurrence(names, env, At(e, path[..m]).value.0)
  }

  lemma NamedOrNot(names: seq<nat>, env: Env, e: Term, depth: nat)
    ensures NamedOccurrence(names, env, e, depth) != Ok(None) <==> IsOccurrence(names, env, e)
  {
    hide NamedOccurrence, Takes;
    var o := NamedOccurrence(names, env, e, depth);
    if n, us, args :| args != [] && e == Apps(Const(n, us), args) && Takes(names, env, n, args) {
      NamedLaw(names, env, n, us, args, depth);
    }
    if o != Ok(None) {
      var n, us, args := NamedHead(names, env, e, depth);
      NamedLaw(names, env, n, us, args, depth);
    }
  }

  lemma NamedHead(names: seq<nat>, env: Env, e: Term, depth: nat) returns (n: nat, us: seq<L.Level>, args: seq<Term>)
    requires NamedOccurrence(names, env, e, depth) != Ok(None)
    ensures args != [] && e == Apps(Const(n, us), args)
  {
    UnfoldThenApply(e);
    var (head, found) := UnfoldApps(e);
    n, us, args := head.name, head.us, found;
  }

  lemma AtPrefix(e: Term, path: seq<nat>, m: nat)
    requires At(e, path).Some? && m <= |path|
    ensures At(e, path[..m]).Some?
    decreases |path|
  {
    if m > 0 {
      AtPrefix(Parts(e)[path[0]].0, path[1..], m - 1);
      assert path[..m][1..] == path[1..][..m - 1];
    }
  }

  /** Outermost in a term is the term itself, or outermost in one of its parts. */
  lemma OuterStep(names: seq<nat>, env: Env, e: Term, path: seq<nat>)
    ensures Outer(names, env, e, path)
       <==> if IsOccurrence(names, env, e) then path == []
            else path != [] && path[0] < |Parts(e)| && Outer(names, env, Parts(e)[path[0]].0, path[1..])
  {
    hide IsOccurrence;
    if path != [] && path[0] < |Parts(e)| {
      var part := Parts(e)[path[0]].0;
      assert path[..0] == [] && At(e, []).Some?;
      forall m | 0 <= m < |path| - 1
        ensures path[..m + 1] != [] && path[..m + 1][0] == path[0] && path[..m + 1][1..] == path[1..][..m]
      {}
      if Outer(names, env, part, path[1..]) && !IsOccurrence(names, env, e) {
        forall m | 0 <= m < |path| && At(e, path[..m]).Some? ensures !IsOccurrence(names, env, At(e, path[..m]).value.0)
        {
          if m > 0 { assert path[..m][1..] == path[1..][..m - 1]; }
        }
      }
      if Outer(names, env, e, path) {
        forall m | 0 <= m < |path| - 1 && At(part, path[1..][..m]).Some?
          ensures !IsOccurrence(names, env, At(part, path[1..][..m]).value.0)
        {
          assert path[..m + 1][1..] == path[1..][..m];
          assert At(e, path[..m + 1]).Some?;
        }
      }
    } else if path == [] {
      assert At(e, path) == Some((e, 0));
    }
  }

  // ------------------------------------------------ what a scan meets, in order

  /** What an occurrence under `depth` binders is reported as: refused, or read off. */
  ghost predicate Reports(env: Env, e: Term, depth: nat, ev: Result<Occurrence>) {
    exists n, us, args :: e == Apps(Const(n, us), args) && ReportsAt(env, n, us, args, depth, ev)
  }

  ghost predicate ReportsAt(env: Env, n: nat, us: seq<L.Level>, args: seq<Term>, depth: nat, ev: Result<Occurrence>) {
    n in env.types && (ev.Err? <==> LocalIn(env, n, args, depth))
    && (ev.Ok? ==> ReadOff(env, n, us, args, depth, ev.value))
  }

  ghost predicate ReportsFrom(env: Env, e: Term, depth: nat, path: seq<nat>, ev: Result<Occurrence>) {
    At(e, path).Some? && Reports(env, At(e, path).value.0, depth + At(e, path).value.1, ev)
  }

  /** At the first part where they differ, `a` goes to the earlier one. */
  predicate Before(a: seq<nat>, b: seq<nat>) {
    a != [] && b != [] && (a[0] < b[0] || (a[0] == b[0] && Before(a[1..], b[1..])))
  }

  ghost predicate InOrder(ps: seq<seq<nat>>) { forall j, k :: 0 <= j < k < |ps| ==> Before(ps[j], ps[k]) }

  /** `ps` are the outermost occurrences of `e`, all of them, from left to right, and `evs` their reports. */
  ghost predicate Lists(names: seq<nat>, env: Env, e: Term, depth: nat, evs: seq<Result<Occurrence>>,
                        ps: seq<seq<nat>>)
  {
    |ps| == |evs| && InOrder(ps)
    && (forall k :: 0 <= k < |ps| ==> Outer(names, env, e, ps[k]) && ReportsFrom(env, e, depth, ps[k], evs[k]))
    && forall path :: Outer(names, env, e, path) ==> path in ps
  }

  /** The same for the parts from number `from` on. */
  ghost predicate PartsList(names: seq<nat>, env: Env, parts: seq<(Term, nat)>, from: nat, depth: nat,
                            evs: seq<Result<Occurrence>>,
                            ps: seq<seq<nat>>)
  {
    |ps| == |evs| && InOrder(ps)
    && (forall k :: 0 <= k < |ps| ==> OuterIn(names, env, parts, from, ps[k])
                                      && ReportsFrom(env, parts[ps[k][0]].0, depth + parts[ps[k][0]].1, ps[k][1..],
                                                     evs[k]))
    && forall path :: OuterIn(names, env, parts, from, path) ==> path in ps
  }

  ghost predicate OuterIn(names: seq<nat>, env: Env, parts: seq<(Term, nat)>, from: nat, path: seq<nat>) {
    path != [] && from <= path[0] < |parts| && Outer(names, env, parts[path[0]].0, path[1..])
  }

  function OutermostFrom(names: seq<nat>, env: Env, parts: seq<(Term, nat)>, from: nat,
                         depth: nat): seq<Result<Occurrence>>
    decreases |parts| - from
  {
    if from >= |parts| then []
    else
      Outermost(names, env, parts[from].0, depth + parts[from].1) + OutermostFrom(names, env, parts, from + 1, depth)
  }

  lemma FromStep(names: seq<nat>, env: Env, parts: seq<(Term, nat)>, from: nat, depth: nat)
    ensures OutermostFrom(names, env, parts, from, depth)
         == (if from >= |parts| then [] else Outermost(names, env, parts[from].0, depth + parts[from].1)
                                             + OutermostFrom(names, env, parts, from + 1, depth))
  {
    hide Outermost;
  }

  lemma OutermostParts(names: seq<nat>, env: Env, e: Term, depth: nat)
    requires NamedOccurrence(names, env, e, depth) == Ok(None)
    ensures Outermost(names, env, e, depth) == OutermostFrom(names, env, Parts(e), 0, depth)
  {
    hide NamedOccurrence, OutermostFrom;
    var ps := Parts(e);
    FromStep(names, env, ps, 0, depth);
    FromStep(names, env, ps, 1, depth);
    FromStep(names, env, ps, 2, depth);
    FromStep(names, env, ps, 3, depth);
  }

  lemma ReportsNamed(names: seq<nat>, env: Env, e: Term, depth: nat)
    requires NamedOccurrence(names, env, e, depth) != Ok(None)
    ensures var o := NamedOccurrence(names, env, e, depth);
            Reports(env, e, depth, if o.Err? then Err(o.error) else Ok(o.value.value))
  {
    hide NamedOccurrence, ReadOff, LocalIn;
    var o := NamedOccurrence(names, env, e, depth);
    var n, us, args := NamedHead(names, env, e, depth);
    NamedLaw(names, env, n, us, args, depth);
    assert ReportsAt(env, n, us, args, depth, if o.Err? then Err(o.error) else Ok(o.value.value));
  }

  /** A scan meets exactly the outermost occurrences, each once, from left to right, and reports each as it is. */
  lemma {:induction false} OutermostLists(names: seq<nat>, env: Env, e: Term, depth: nat) returns (ps: seq<seq<nat>>)
    ensures Lists(names, env, e, depth, Outermost(names, env, e, depth), ps)
    decreases e, 1, 0
  {
    hide NamedOccurrence, IsOccurrence, Lists, PartsList, Outermost, OutermostFrom;
    NamedOrNot(names, env, e, depth);
    if NamedOccurrence(names, env, e, depth) != Ok(None) {
      OneLists(names, env, e, depth);
      ps := [[]];
    } else {
      ps := PartsLists(names, env, e, 0, depth);
      OutermostParts(names, env, e, depth);
      PartsGive(names, env, e, depth, OutermostFrom(names, env, Parts(e), 0, depth), ps);
    }
  }

  lemma OneLists(names: seq<nat>, env: Env, e: Term, depth: nat)
    requires NamedOccurrence(names, env, e, depth) != Ok(None)
    ensures Lists(names, env, e, depth, Outermost(names, env, e, depth), [[]])
  {
    hide NamedOccurrence, IsOccurrence, Reports, Outer;
    NamedOrNot(names, env, e, depth);
    ReportsNamed(names, env, e, depth);
    assert At(e, []) == Some((e, 0));
    forall path: seq<nat> ensures Outer(names, env, e, path) <==> path == [] { OuterStep(names, env, e, path); }
  }

  lemma PartsGive(names: seq<nat>, env: Env, e: Term, depth: nat, evs: seq<Result<Occurrence>>, ps: seq<seq<nat>>)
    requires !IsOccurrence(names, env, e) && PartsList(names, env, Parts(e), 0, depth, evs, ps)
    ensures Lists(names, env, e, depth, evs, ps)
  {
    hide IsOccurrence, Reports, Outer, Parts;
    forall k | 0 <= k < |ps| ensures Outer(names, env, e, ps[k]) && ReportsFrom(env, e, depth, ps[k], evs[k]) {
      assert OuterIn(names, env, Parts(e), 0, ps[k]);
      OuterStep(names, env, e, ps[k]);
    }
    forall path | Outer(names, env, e, path) ensures path in ps {
      OuterStep(names, env, e, path);
      assert OuterIn(names, env, Parts(e), 0, path);
    }
  }

  lemma {:induction false} PartsLists(names: seq<nat>, env: Env, whole: Term, from: nat, depth: nat)
    returns (ps: seq<seq<nat>>)
    requires from <= |Parts(whole)|
    ensures PartsList(names, env, Parts(whole), from, depth, OutermostFrom(names, env, Parts(whole), from, depth), ps)
    decreases whole, 0, |Parts(whole)| - from
  {
    hide Lists, Outermost, OutermostFrom, Outer, ReportsFrom, Parts;
    var parts := Parts(whole);
    FromStep(names, env, parts, from, depth);
    if from == |parts| {
      ps := [];
    } else {
      hide PartsList;
      PartsSmaller(whole);
      var first := OutermostLists(names, env, parts[from].0, depth + parts[from].1);
      var rest := PartsLists(names, env, whole, from + 1, depth);
      ps := Under(from, first) + rest;
      UnderLists(names, env, parts, from, depth,
                 Outermost(names, env, parts[from].0, depth + parts[from].1), first,
                 OutermostFrom(names, env, parts, from + 1, depth), rest);
    }
  }

  function Under(k: nat, ps: seq<seq<nat>>): (r: seq<seq<nat>>)
    ensures |r| == |ps| && forall j :: 0 <= j < |ps| ==> r[j] == [k] + ps[j]
  {
    seq(|ps|, j requires 0 <= j < |ps| => [k] + ps[j])
  }

  lemma UnderLists(names: seq<nat>, env: Env, parts: seq<(Term, nat)>, from: nat, depth: nat,
                   evs: seq<Result<Occurrence>>,
                   ps: seq<seq<nat>>, moreEvs: seq<Result<Occurrence>>, more: seq<seq<nat>>)
    requires from < |parts| && Lists(names, env, parts[from].0, depth + parts[from].1, evs, ps)
    requires PartsList(names, env, parts, from + 1, depth, moreEvs, more)
    ensures PartsList(names, env, parts, from, depth, evs + moreEvs, Under(from, ps) + more)
  {
    hide Outer, ReportsFrom, IsOccurrence, Parts, Outermost, InOrder;
    var under := Under(from, ps);
    var all := under + more;
    forall j | 0 <= j < |ps| ensures under[j] != [] && under[j][0] == from && under[j][1..] == ps[j] {}
    forall k | |ps| <= k < |all| ensures all[k] == more[k - |ps|] && all[k] != [] && all[k][0] > from {
      assert OuterIn(names, env, parts, from + 1, more[k - |ps|]);
    }
    forall k | 0 <= k < |all|
      ensures OuterIn(names, env, parts, from, all[k])
           && ReportsFrom(env, parts[all[k][0]].0, depth + parts[all[k][0]].1, all[k][1..], (evs + moreEvs)[k])
    {
      if k < |ps| { assert all[k] == under[k]; } else { assert OuterIn(names, env, parts, from + 1, more[k - |ps|]); }
    }
    forall path | OuterIn(names, env, parts, from, path) ensures path in all {
      if path[0] == from {
        var j :| 0 <= j < |ps| && ps[j] == path[1..];
        assert path == [from] + path[1..] && all[j] == path;
      } else {
        assert OuterIn(names, env, parts, from + 1, path);
        var j :| 0 <= j < |more| && more[j] == path;
        assert all[|ps| + j] == path;
      }
    }
    UnderInOrder(from, ps, more);
  }

  lemma UnderInOrder(from: nat, ps: seq<seq<nat>>, more: seq<seq<nat>>)
    requires InOrder(ps) && InOrder(more) && forall k :: 0 <= k < |more| ==> more[k] != [] && from < more[k][0]
    ensures InOrder(Under(from, ps) + more)
  {
    var under := Under(from, ps);
    var all := under + more;
    forall j, k | 0 <= j < k < |all| ensures Before(all[j], all[k]) {
      if k < |ps| {
        assert all[j] == under[j] && all[k] == under[k] && under[j][1..] == ps[j] && under[k][1..] == ps[k];
        assert Before(ps[j], ps[k]);
      } else if j >= |ps| {
        assert Before(more[j - |ps|], more[k - |ps|]);
      } else {
        assert all[j] == under[j] && all[k] == more[k - |ps|];
      }
    }
  }

  /** A place in a list of constructors: its number, and an outermost occurrence under its parameters, or nothing
      more if it lacks them. */
  ghost predicate CtorPlace(names: seq<nat>, env: Env, np: nat, ctors: seq<Ctor>, k: nat, p: seq<nat>) {
    p != [] && p[0] < k <= |ctors|
    && if HasPis(ctors[p[0]].typ, np) then Outer(names, env, Peel(ctors[p[0]].typ, np), p[1..]) else p[1..] == []
  }

  ghost predicate CtorReports(env: Env, np: nat, ctors: seq<Ctor>, p: seq<nat>, ev: Result<Occurrence>)
    requires p != [] && p[0] < |ctors|
  {
    if HasPis(ctors[p[0]].typ, np) then ReportsFrom(env, Peel(ctors[p[0]].typ, np), 0, p[1..], ev) else ev == Err(NotPi)
  }

  ghost predicate CtorsList(names: seq<nat>, env: Env, np: nat, ctors: seq<Ctor>, k: nat, evs: seq<Result<Occurrence>>,
                            ps: seq<seq<nat>>)
  {
    |ps| == |evs| && InOrder(ps)
    && (forall n :: 0 <= n < |ps| ==> CtorPlace(names, env, np, ctors, k, ps[n])
                                      && CtorReports(env, np, ctors, ps[n], evs[n]))
    && forall p :: CtorPlace(names, env, np, ctors, k, p) ==> p in ps
  }

  lemma OneCtorLists(names: seq<nat>, env: Env, np: nat, c: Ctor) returns (ps: seq<seq<nat>>)
    ensures |ps| == |OneCtorEvents(names, env, np, c)| && InOrder(ps)
    ensures if HasPis(c.typ, np) then Lists(names, env, Peel(c.typ, np), 0, OneCtorEvents(names, env, np, c), ps)
            else ps == [[]]
  {
    hide Outermost;
    ps := [[]];
    if HasPis(c.typ, np) { ps := OutermostLists(names, env, Peel(c.typ, np), 0); }
  }

  /** The constructors of a member are scanned in order, each of them from left to right. */
  lemma {:induction false} CtorEventsList(names: seq<nat>, env: Env, np: nat, ctors: seq<Ctor>, k: nat)
    returns (ps: seq<seq<nat>>)
    requires k <= |ctors|
    ensures CtorsList(names, env, np, ctors, k, CtorEvents(names, env, np, ctors, k), ps)
  {
    hide CtorsList, OneCtorEvents;
    if k == 0 {
      ps := [];
      NoCtorsList(names, env, np, ctors);
    } else {
      var before := CtorEventsList(names, env, np, ctors, k - 1);
      var last := OneCtorLists(names, env, np, ctors[k - 1]);
      ps := before + Under(k - 1, last);
      MoreCtorsList(names, env, np, ctors, k - 1, CtorEvents(names, env, np, ctors, k - 1), before,
                    OneCtorEvents(names, env, np, ctors[k - 1]), last);
    }
  }

  lemma NoCtorsList(names: seq<nat>, env: Env, np: nat, ctors: seq<Ctor>)
    ensures CtorsList(names, env, np, ctors, 0, [], [])
  {}

  lemma MoreCtorsList(names: seq<nat>, env: Env, np: nat, ctors: seq<Ctor>, k: nat, evs: seq<Result<Occurrence>>,
                      ps: seq<seq<nat>>, moreEvs: seq<Result<Occurrence>>, more: seq<seq<nat>>)
    requires k < |ctors| && CtorsList(names, env, np, ctors, k, evs, ps)
    requires moreEvs == OneCtorEvents(names, env, np, ctors[k]) && |more| == |moreEvs| && InOrder(more)
    requires if HasPis(ctors[k].typ, np) then Lists(names, env, Peel(ctors[k].typ, np), 0, moreEvs, more)
             else more == [[]]
    ensures CtorsList(names, env, np, ctors, k + 1, evs + moreEvs, ps + Under(k, more))
  {
    hide Outer, ReportsFrom, Outermost;
    var under := Under(k, more);
    var all := ps + under;
    forall j | 0 <= j < |more| ensures under[j] != [] && under[j][0] == k && under[j][1..] == more[j] {}
    forall n | 0 <= n < |all|
      ensures CtorPlace(names, env, np, ctors, k + 1, all[n]) && CtorReports(env, np, ctors, all[n], (evs + moreEvs)[n])
    {
      if n < |ps| { assert CtorPlace(names, env, np, ctors, k, ps[n]); } else { assert all[n] == under[n - |ps|]; }
    }
    forall p | CtorPlace(names, env, np, ctors, k + 1, p) ensures p in all {
      if p[0] == k {
        assert p[1..] in more;
        var j :| 0 <= j < |more| && more[j] == p[1..];
        assert p == [k] + p[1..] && all[|ps| + j] == p;
      } else {
        assert CtorPlace(names, env, np, ctors, k, p);
        var j :| 0 <= j < |ps| && ps[j] == p;
        assert all[j] == p;
      }
    }
    forall j, n | 0 <= j < n < |all| ensures Before(all[j], all[n]) {
      if n < |ps| {
        assert Before(ps[j], ps[n]);
      } else if j < |ps| {
        assert CtorPlace(names, env, np, ctors, k, ps[j]) && all[n] == under[n - |ps|];
      } else {
        assert all[j] == under[j - |ps|] && all[n] == under[n - |ps|] && Before(more[j - |ps|], more[n - |ps|]);
      }
    }
  }

  ghost predicate QueuePlace(names: seq<nat>, env: Env, np: nat, members: seq<Member>, k: nat, p: seq<nat>) {
    p != [] && p[0] < k <= |members|
    && CtorPlace(names, env, np, members[p[0]].ctors, |members[p[0]].ctors|, p[1..])
  }

  ghost predicate QueueLists(names: seq<nat>, env: Env, np: nat, members: seq<Member>, k: nat,
                             evs: seq<Result<Occurrence>>,
                             ps: seq<seq<nat>>)
  {
    |ps| == |evs| && InOrder(ps)
    && (forall n :: 0 <= n < |ps| ==> QueuePlace(names, env, np, members, k, ps[n])
                                      && CtorReports(env, np, members[ps[n][0]].ctors, ps[n][1..], evs[n]))
    && forall p :: QueuePlace(names, env, np, members, k, p) ==> p in ps
  }

  /** And the members one after another, in the order they joined. */
  lemma {:induction false} QueueEventsList(names: seq<nat>, env: Env, np: nat, members: seq<Member>, k: nat)
    returns (ps: seq<seq<nat>>)
    requires k <= |members|
    ensures QueueLists(names, env, np, members, k, QueueEvents(names, env, np, members, k), ps)
  {
    hide QueueLists, CtorEvents, CtorsList;
    if k == 0 {
      ps := [];
      EmptyQueueLists(names, env, np, members);
    } else {
      var ctors := members[k - 1].ctors;
      var before := QueueEventsList(names, env, np, members, k - 1);
      var last := CtorEventsList(names, env, np, ctors, |ctors|);
      ps := before + Under(k - 1, last);
      LongerQueueLists(names, env, np, members, k - 1, QueueEvents(names, env, np, members, k - 1), before,
                       CtorEvents(names, env, np, ctors, |ctors|), last);
    }
  }

  lemma EmptyQueueLists(names: seq<nat>, env: Env, np: nat, members: seq<Member>)
    ensures QueueLists(names, env, np, members, 0, [], [])
  {}

  lemma LongerQueueLists(names: seq<nat>, env: Env, np: nat, members: seq<Member>, k: nat, evs: seq<Result<Occurrence>>,
                         ps: seq<seq<nat>>, moreEvs: seq<Result<Occurrence>>, more: seq<seq<nat>>)
    requires k < |members| && QueueLists(names, env, np, members, k, evs, ps)
    requires CtorsList(names, env, np, members[k].ctors, |members[k].ctors|, moreEvs, more)
    ensures QueueLists(names, env, np, members, k + 1, evs + moreEvs, ps + Under(k, more))
  {
    hide CtorPlace, CtorReports;
    CtorPlacesThere(names, env, np);
    var under := Under(k, more);
    var all := ps + under;
    forall j | 0 <= j < |more| ensures under[j] != [] && under[j][0] == k && under[j][1..] == more[j] {}
    forall n | 0 <= n < |all|
      ensures QueuePlace(names, env, np, members, k + 1, all[n])
           && CtorReports(env, np, members[all[n][0]].ctors, all[n][1..], (evs + moreEvs)[n])
    {
      if n < |ps| { assert QueuePlace(names, env, np, members, k, ps[n]); } else { assert all[n] == under[n - |ps|]; }
    }
    forall p | QueuePlace(names, env, np, members, k + 1, p) ensures p in all {
      if p[0] == k {
        var j :| 0 <= j < |more| && more[j] == p[1..];
        assert p == [k] + p[1..] && all[|ps| + j] == p;
      } else {
        assert QueuePlace(names, env, np, members, k, p);
        var j :| 0 <= j < |ps| && ps[j] == p;
        assert all[j] == p;
      }
    }
    forall j, n | 0 <= j < n < |all| ensures Before(all[j], all[n]) {
      if n < |ps| {
        assert Before(ps[j], ps[n]);
      } else if j < |ps| {
        assert QueuePlace(names, env, np, members, k, ps[j]) && all[n] == under[n - |ps|];
      } else {
        assert all[j] == under[j - |ps|] && all[n] == under[n - |ps|] && Before(more[j - |ps|], more[n - |ps|]);
      }
    }
  }

  lemma CtorPlacesThere(names: seq<nat>, env: Env, np: nat)
    ensures forall ctors, k: nat, p :: CtorPlace(names, env, np, ctors, k, p) ==> p != [] && p[0] < |ctors|
  {}

  function LaterEvents(names: seq<nat>, env: Env, np: nat, members: seq<Member>, from: nat): seq<Result<Occurrence>>
    decreases |members| - from
  {
    if from >= |members| then []
    else MemberEvents(names, env, np, members[from]) + LaterEvents(names, env, np, members, from + 1)
  }

  lemma {:induction false} EarlierAndLater(names: seq<nat>, env: Env, np: nat, members: seq<Member>, k: nat)
    requires k <= |members|
    ensures QueueEvents(names, env, np, members, |members|)
         == QueueEvents(names, env, np, members, k) + LaterEvents(names, env, np, members, k)
    decreases |members| - k
  {
    hide MemberEvents;
    if k < |members| {
      EarlierAndLater(names, env, np, members, k + 1);
    }
  }

  lemma {:induction false} ExpandedFrom(names: seq<nat>, env: Env, np: nat, params: seq<Binder>, members: seq<Member>,
                                        qhead: nat, fuel: nat)
    requires qhead <= |members|
    ensures var (r, done) := ExpandFrom(names, env, np, params, members, qhead, fuel);
            r.Ok? && done ==>
              AddAll(env, params, members, LaterEvents(names, env, np, r.value, qhead)) == r
    decreases fuel
  {
    hide MemberEvents, AddOne;
    var (r, done) := ExpandFrom(names, env, np, params, members, qhead, fuel);
    if r.Ok? && done && qhead < |members| {
      var evs := MemberEvents(names, env, np, members[qhead]);
      var next := AddAll(env, params, members, evs);
      ExpandedFrom(names, env, np, params, next.value, qhead + 1, fuel - 1);
      AddAllTwo(env, params, members, evs, LaterEvents(names, env, np, r.value, qhead + 1));
      assert r.value[qhead] == members[qhead];
    }
  }

  /** A finished expansion is the given members with, in the order of the members it ends with, the occurrences of all
      of them added. */
  lemma ExpandedInOrder(names: seq<nat>, env: Env, np: nat, params: seq<Binder>, members: seq<Member>, fuel: nat)
    ensures var (r, done) := ExpandFrom(names, env, np, params, members, 0, fuel);
            r.Ok? && done ==> AddAll(env, params, members, QueueEvents(names, env, np, r.value, |r.value|)) == r
  {
    hide AddAll;
    var (r, done) := ExpandFrom(names, env, np, params, members, 0, fuel);
    ExpandedFrom(names, env, np, params, members, 0, fuel);
    if r.Ok? {
      EarlierAndLater(names, env, np, r.value, 0);
      assert [] + LaterEvents(names, env, np, r.value, 0) == LaterEvents(names, env, np, r.value, 0);
    }
  }

  // ---------------------------------------------- what is recognised in the end

  /** `m` is recognised at `n.{us} args` under `depth` binders: its type, its levels and its fixed parameters. */
  ghost predicate StandsFor(m: Member, n: nat, us: seq<L.Level>, args: seq<Term>, depth: nat) {
    m.source == n && m.levels == us && |m.fixedParams| <= |args|
    && forall j :: 0 <= j < |m.fixedParams| ==> args[j] == Shift(m.fixedParams[j], depth, 0)
  }

  /** At an occurrence: no local variable in its parameters, and a member for it, if its type is in its own group. */
  ghost predicate Met(members: seq<Member>, env: Env, e: Term, depth: nat) {
    exists n, us, args :: e == Apps(Const(n, us), args) && MetAt(members, env, n, us, args, depth)
  }

  ghost predicate MetAt(members: seq<Member>, env: Env, n: nat, us: seq<L.Level>, args: seq<Term>, depth: nat) {
    n in env.types && !LocalIn(env, n, args, depth)
    && (n in env.types[n].all ==> exists k :: 0 <= k < |members| && StandsFor(members[k], n, us, args, depth))
  }

  lemma RecognisedAt(members: seq<Member>, n: nat, us: seq<L.Level>, args: seq<Term>, np: nat, depth: nat)
    ensures Recognised(members, Apps(Const(n, us), args), np, depth)
       <==> exists k :: 0 <= k < |members| && StandsFor(members[k], n, us, args, depth)
  {
    hide Shift;
    var e := Apps(Const(n, us), args);
    ApplyThenUnfold(Const(n, us), args);
    forall k | 0 <= k < |members|
      ensures PrefixMatches(members[k], e, np, np + depth).Some? <==> StandsFor(members[k], n, us, args, depth)
    {}
  }

  lemma MetNamed(members: seq<Member>, names: seq<nat>, env: Env, e: Term, np: nat, depth: nat)
    requires NamedOccurrence(names, env, e, depth) != Ok(None)
    ensures var o := NamedOccurrence(names, env, e, depth);
            Met(members, env, e, depth)
            <==> o.Ok? && (o.value.value.source in o.value.value.all ==> Recognised(members, e, np, depth))
  {
    hide NamedOccurrence, LocalIn, StandsFor, Recognised, Takes;
    var o := NamedOccurrence(names, env, e, depth);
    var n, us, args := NamedHead(names, env, e, depth);
    NamedLaw(names, env, n, us, args, depth);
    RecognisedAt(members, n, us, args, np, depth);
    assert Takes(names, env, n, args);
    TakesKnown(names, env, n, args);
    if Met(members, env, e, depth) {
      var n', us', args' :| e == Apps(Const(n', us'), args') && MetAt(members, env, n', us', args', depth);
      ApplyThenUnfold(Const(n, us), args);
      ApplyThenUnfold(Const(n', us'), args');
    }
    assert MetAt(members, env, n, us, args, depth) ==> Met(members, env, e, depth);
  }

  lemma TakesKnown(names: seq<nat>, env: Env, n: nat, args: seq<Term>)
    requires Takes(names, env, n, args)
    ensures n in env.types
  {}

  lemma CoveredParts(members: seq<Member>, names: seq<nat>, env: Env, e: Term, np: nat, depth: nat)
    requires NamedOccurrence(names, env, e, depth) == Ok(None)
    ensures Covered(members, names, env, e, np, depth)
       <==> forall k :: 0 <= k < |Parts(e)| ==>
              Covered(members, names, env, Parts(e)[k].0, np, depth + Parts(e)[k].1)
  {
    hide NamedOccurrence, Recognised;
    var ps := Parts(e);
    match e
    case App(f, x) => assert ps[0] == (f, 0) && ps[1] == (x, 0);
    case Lam(_, ty, body) => assert ps[0] == (ty, 0) && ps[1] == (body, 1);
    case Pi(_, ty, body) => assert ps[0] == (ty, 0) && ps[1] == (body, 1);
    case Let(ty, val, body) => assert ps[0] == (ty, 0) && ps[1] == (val, 0) && ps[2] == (body, 1);
    case Proj(_, _, v) => assert ps[0] == (v, 0);
    case _ =>
  }

  ghost predicate MetFrom(members: seq<Member>, env: Env, e: Term, depth: nat, path: seq<nat>) {
    At(e, path).Some? && Met(members, env, At(e, path).value.0, depth + At(e, path).value.1)
  }

  /** At every position where an outermost occurrence stands, it is met. */
  ghost predicate AllMet(members: seq<Member>, names: seq<nat>, env: Env, e: Term, depth: nat) {
    forall path :: Outer(names, env, e, path) ==> MetFrom(members, env, e, depth, path)
  }

  /** Covered is: at every position where an outermost occurrence stands, it is met. */
  lemma {:induction false} CoveredExact(members: seq<Member>, names: seq<nat>, env: Env, e: Term, np: nat, depth: nat)
    ensures Covered(members, names, env, e, np, depth)
       <==> AllMet(members, names, env, e, depth)
  {
    hide NamedOccurrence, IsOccurrence, Outer, Met, Recognised;
    var o := NamedOccurrence(names, env, e, depth);
    NamedOrNot(names, env, e, depth);
    forall path
      ensures Outer(names, env, e, path)
         <==> if IsOccurrence(names, env, e) then path == []
              else path != [] && path[0] < |Parts(e)| && Outer(names, env, Parts(e)[path[0]].0, path[1..])
    {
      OuterStep(names, env, e, path);
    }
    if o != Ok(None) {
      MetNamed(members, names, env, e, np, depth);
      assert At(e, []) == Some((e, 0)) && Outer(names, env, e, []);
    } else {
      CoveredParts(members, names, env, e, np, depth);
      PartsSmaller(e);
      forall k | 0 <= k < |Parts(e)|
        ensures Covered(members, names, env, Parts(e)[k].0, np, depth + Parts(e)[k].1)
           <==> AllMet(members, names, env, Parts(e)[k].0, depth + Parts(e)[k].1)
      {
        CoveredExact(members, names, env, Parts(e)[k].0, np, depth + Parts(e)[k].1);
      }
      MetSplit(members, names, env, e, depth);
    }
  }

  lemma MetSplit(members: seq<Member>, names: seq<nat>, env: Env, e: Term, depth: nat)
    requires !IsOccurrence(names, env, e)
    ensures AllMet(members, names, env, e, depth)
       <==> forall k :: 0 <= k < |Parts(e)| ==> AllMet(members, names, env, Parts(e)[k].0, depth + Parts(e)[k].1)
  {
    hide IsOccurrence, Outer, Met;
    if AllMet(members, names, env, e, depth) {
      forall k, path | 0 <= k < |Parts(e)| && Outer(names, env, Parts(e)[k].0, path)
        ensures MetFrom(members, env, Parts(e)[k].0, depth + Parts(e)[k].1, path)
      {
        var whole := [k] + path;
        assert whole[1..] == path;
        OuterStep(names, env, e, whole);
        assert MetFrom(members, env, e, depth, whole);
      }
    } else {
      var path :| Outer(names, env, e, path) && !MetFrom(members, env, e, depth, path);
      OuterStep(names, env, e, path);
      assert !MetFrom(members, env, Parts(e)[path[0]].0, depth + Parts(e)[path[0]].1, path[1..]);
    }
  }

  /** A saturated group, by positions: every constructor of every member has the parameters, and wherever under them
      an outermost occurrence stands, its parameters have no local variable and a member stands for it. */
  lemma SaturatedExact(g: Group, env: Env)
    ensures Saturated(g, env)
       <==> forall k, c :: 0 <= k < |g.members| && 0 <= c < |g.members[k].ctors| ==>
              HasPis(g.members[k].ctors[c].typ, g.np)
              && AllMet(g.members, g.names, env, Peel(g.members[k].ctors[c].typ, g.np), 0)
  {
    hide CtorCovered, AllMet;
    forall k, c | 0 <= k < |g.members| && 0 <= c < |g.members[k].ctors|
      ensures CtorCovered(g, env, g.members[k].ctors[c])
         <==> HasPis(g.members[k].ctors[c].typ, g.np)
              && AllMet(g.members, g.names, env, Peel(g.members[k].ctors[c].typ, g.np), 0)
    {
      CtorExact(g, env, g.members[k].ctors[c]);
    }
  }

  lemma CtorExact(g: Group, env: Env, c: Ctor)
    ensures CtorCovered(g, env, c)
       <==> HasPis(c.typ, g.np) && AllMet(g.members, g.names, env, Peel(c.typ, g.np), 0)
  {
    hide Covered, AllMet;
    if HasPis(c.typ, g.np) { CoveredExact(g.members, g.names, env, Peel(c.typ, g.np), g.np, 0); }
  }
}
