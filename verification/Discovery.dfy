/**
 The members of a declared group, found twice: once under the universe names of the
 declaration and once under those supplied for the recursor.
 */
module Discovery {
  import opened Terms
  import opened Recursor
  import opened Nested
  import opened Expansion
  import opened Renaming
  import C = Contexts
  import L = Levels

  predicate Distinct(ps: seq<nat>) { forall i, j :: 0 <= i < j < |ps| ==> ps[i] != ps[j] }

  function Params(ps: seq<nat>): (r: seq<L.Level>)
    ensures |r| == |ps| && forall k :: 0 <= k < |ps| ==> r[k] == L.Param(ps[k])
  {
    seq(|ps|, k requires 0 <= k < |ps| => L.Param(ps[k]))
  }

  predicate DeclaredType(env: Env, name: nat) {
    name in env.types && forall k :: 0 <= k < |env.types[name].ctors| ==> env.types[name].ctors[k] in env.ctors
  }

  /** A group as the checker accepts it: distinct universe parameters, the same for every type and constructor. */
  ghost predicate CheckedGroup(env: Env, all: seq<nat>, shared: seq<nat>) {
    all != [] && Distinct(shared)
    && forall t :: t in all ==>
         DeclaredType(env, t) && env.types[t].levelParams == shared
         && forall k :: 0 <= k < |env.types[t].ctors| ==> env.ctors[env.types[t].ctors[k]].levelParams == shared
  }

  ghost function FirstType(env: Env, all: seq<nat>, shared: seq<nat>): Term
    requires CheckedGroup(env, all, shared)
  {
    assert all[0] in all;
    env.types[all[0]].typ
  }

  ghost function OriginalCtor(env: Env, name: nat, shared: seq<nat>, levels: seq<L.Level>): Ctor
    requires name in env.ctors && |shared| == |levels|
  {
    Ctor(name, levels, InstLevelParams(env.ctors[name].typ, SubstMap(shared, levels)))
  }

  /** A declared type as a member: its own parameters, in order, are the fixed ones. */
  ghost function Original(env: Env, name: nat, np: nat, shared: seq<nat>, levels: seq<L.Level>): Member
    requires DeclaredType(env, name) && |shared| == |levels|
  {
    var ind := env.types[name];
    Member(name, levels, Countdown(np, np), InstLevelParams(ind.typ, SubstMap(shared, levels)), ind.numIndices,
           seq(|ind.ctors|, k requires 0 <= k < |ind.ctors| => OriginalCtor(env, ind.ctors[k], shared, levels)))
  }

  ghost function Originals(env: Env, all: seq<nat>, np: nat, shared: seq<nat>, levels: seq<L.Level>): (r: seq<Member>)
    requires (forall t :: t in all ==> DeclaredType(env, t)) && |shared| == |levels|
    ensures |r| == |all| && forall k :: 0 <= k < |all| ==> r[k] == Original(env, all[k], np, shared, levels)
  {
    seq(|all|, k requires 0 <= k < |all| => Original(env, all[k], np, shared, levels))
  }

  /** The fixed parameters of `m` are the parameters themselves, in order. */
  ghost predicate OwnParameters(fixed: seq<Term>, np: nat) {
    var ctx := C.Layout(C.Shape(np, 0, 0, 0, 0, 0, 0, false));
    |fixed| == np && |ctx| == np
    && forall k :: 0 <= k < np ==> fixed[k].BVar? && fixed[k].i < np && C.SlotAt(ctx, fixed[k].i) == C.Param(k)
  }

  /** `m` is what the environment declares under `name`, with `levels[k]` for the universe parameter `shared[k]`. */
  ghost predicate DeclaredAs(m: Member, env: Env, name: nat, np: nat, shared: seq<nat>, levels: seq<L.Level>) {
    DeclaredType(env, name)
    && (var ind := env.types[name];
        m.source == name && m.levels == levels && m.numIndices == ind.numIndices && OwnParameters(m.fixedParams, np)
        && InstanceOf(m.typ, ind.typ, shared, levels)
        && |m.ctors| == |ind.ctors|
           && forall c :: 0 <= c < |m.ctors| ==>
             m.ctors[c].name == ind.ctors[c] && m.ctors[c].levels == levels
             && InstanceOf(m.ctors[c].typ, env.ctors[ind.ctors[c]].typ, shared, levels))
  }

  lemma OriginalReads(env: Env, name: nat, np: nat, shared: seq<nat>, levels: seq<L.Level>)
    requires DeclaredType(env, name) && |shared| == |levels|
    ensures DeclaredAs(Original(env, name, np, shared, levels), env, name, np, shared, levels)
  {
    hide InstanceOf, InstLevelParams, SubstMap;
    var ind, m := env.types[name], Original(env, name, np, shared, levels);
    InstanceReads(ind.typ, shared, levels);
    forall c | 0 <= c < |m.ctors| ensures InstanceOf(m.ctors[c].typ, env.ctors[ind.ctors[c]].typ, shared, levels) {
      InstanceReads(env.ctors[ind.ctors[c]].typ, shared, levels);
    }
    C.LayoutAt(C.Shape(np, 0, 0, 0, 0, 0, 0, false));
  }

  method OriginalMembers(env: Env, all: seq<nat>, np: nat, shared: seq<nat>, levels: seq<L.Level>)
    returns (r: Result<seq<Member>>)
    requires |shared| == |levels|
    ensures r.Ok? <==> forall t :: t in all ==> DeclaredType(env, t)
    ensures r.Ok? ==> r.value == Originals(env, all, np, shared, levels)
    ensures r.Ok? ==> forall k :: 0 <= k < |all| ==> DeclaredAs(r.value[k], env, all[k], np, shared, levels)
  {
    hide DeclaredAs;
    var members: seq<Member> := [];
    for k := 0 to |all|
      invariant |members| == k
      invariant forall i :: 0 <= i < k ==>
                  DeclaredType(env, all[i]) && members[i] == Original(env, all[i], np, shared, levels)
    {
      assert all[k] in all;
      if all[k] !in env.types { return Err(OutsideGroup); }
      var ind := env.types[all[k]];
      var ctors: seq<Ctor> := [];
      for c := 0 to |ind.ctors|
        invariant |ctors| == c
        invariant forall i :: 0 <= i < c ==>
                    ind.ctors[i] in env.ctors && ctors[i] == OriginalCtor(env, ind.ctors[i], shared, levels)
      {
        if ind.ctors[c] !in env.ctors { return Err(OutsideGroup); }
        ctors := ctors
          + [Ctor(ind.ctors[c], levels, InstLevelParams(env.ctors[ind.ctors[c]].typ, SubstMap(shared, levels)))];
      }
      members := members
        + [Member(all[k], levels, Countdown(np, np), InstLevelParams(ind.typ, SubstMap(shared, levels)),
                                   ind.numIndices, ctors)];
    }
    forall k | 0 <= k < |all| ensures DeclaredAs(members[k], env, all[k], np, shared, levels) {
      OriginalReads(env, all[k], np, shared, levels);
    }
    r := Ok(members);
  }

  ghost function ParamBinders(typ: Term, np: nat, shared: seq<nat>, levels: seq<L.Level>): Result<seq<Binder>>
    requires |shared| == |levels|
  {
    var leveled := InstLevelParams(typ, SubstMap(shared, levels));
    if !HasPis(leveled, np) then Err(NotPi) else (HasPisDomains(leveled, np); Ok(Domains(leveled)[..np]))
  }

  method RecParams(typ: Term, np: nat, shared: seq<nat>, levels: seq<L.Level>) returns (r: Result<seq<Binder>>)
    requires |shared| == |levels|
    ensures r == ParamBinders(typ, np, shared, levels)
    ensures r.Ok? <==> HasPis(typ, np)
    ensures r.Ok? ==> exists leveled :: InstanceOf(leveled, typ, shared, levels) && |r.value| == np
                                     && r.value <= Domains(leveled)
  {
    InstLevelsKeeps(typ, SubstMap(shared, levels), np);
    InstanceReads(typ, shared, levels);
    var peeled := PeelPis(InstLevelParams(typ, SubstMap(shared, levels)), np);
    r := if peeled.Err? then Err(NotPi) else Ok(peeled.value.0);
    ghost var leveled := InstLevelParams(typ, SubstMap(shared, levels));
    if HasPis(leveled, np) { HasPisDomains(leveled, np); }
    assert r.Ok? ==> InstanceOf(leveled, typ, shared, levels) && |r.value| == np && r.value <= Domains(leveled);
  }

  /** Sends each parameter of the declaration to the one supplied in its place. */
  function Renames(shared: seq<nat>, supplied: seq<nat>): Ren
    requires |shared| == |supplied|
  {
    if shared == [] then map[]
    else
      var n := |shared| - 1;
      Renames(shared[..n], supplied[..n])[shared[n] := supplied[n]]
  }

  lemma {:induction false} RenamesAt(shared: seq<nat>, supplied: seq<nat>)
    requires |shared| == |supplied| && Distinct(shared)
    ensures Renames(shared, supplied).Keys == NamesOf(shared)
    ensures forall k :: 0 <= k < |shared| ==>
              shared[k] in Renames(shared, supplied) && Renames(shared, supplied)[shared[k]] == supplied[k]
  {
    if shared != [] {
      var n := |shared| - 1;
      var front, back := shared[..n], supplied[..n];
      RenamesAt(front, back);
      forall k | 0 <= k < |shared|
        ensures shared[k] in Renames(shared, supplied) && Renames(shared, supplied)[shared[k]] == supplied[k]
      {
        if k < n { assert front[k] == shared[k] && back[k] == supplied[k]; }
      }
      assert shared == front + [shared[n]];
    }
  }

  lemma RenamesOneToOne(shared: seq<nat>, supplied: seq<nat>)
    requires |shared| == |supplied| && Distinct(shared) && Distinct(supplied)
    ensures OneToOne(Renames(shared, supplied))
    ensures RenameLevels(Params(shared), Renames(shared, supplied)) == Params(supplied)
    ensures LevelsOver(Params(shared), Renames(shared, supplied).Keys)
  {
    var ren := Renames(shared, supplied);
    RenamesAt(shared, supplied);
    forall a, b | a in ren && b in ren && ren[a] == ren[b] ensures a == b {
      var i :| 0 <= i < |shared| && shared[i] == a;
      var j :| 0 <= j < |shared| && shared[j] == b;
    }
  }

  /** Instantiating a declaration at the supplied names is instantiating it at its own and renaming. */
  lemma DeclaredRenamed(typ: Term, shared: seq<nat>, supplied: seq<nat>)
    requires |shared| == |supplied| && Distinct(shared) && Distinct(supplied) && TermOver(typ, NamesOf(shared))
    ensures var ren := Renames(shared, supplied);
            var own := InstLevelParams(typ, SubstMap(shared, Params(shared)));
            InstLevelParams(typ, SubstMap(shared, Params(supplied))) == RenameTerm(own, ren) && TermOver(own, ren.Keys)
  {
    hide TermOver, LevelsOver, OneToOne, Distinct, Renames, SubstMap, RenameSubst, SubstOver;
    var ren := Renames(shared, supplied);
    RenamesOneToOne(shared, supplied);
    RenameSubstMap(shared, Params(shared), ren);
    InstanceRenamed(typ, SubstMap(shared, Params(shared)), ren);
  }

  lemma OriginalsRenamed(env: Env, all: seq<nat>, np: nat, shared: seq<nat>, supplied: seq<nat>)
    requires ParametersDeclared(env) && CheckedGroup(env, all, shared) && |shared| == |supplied| && Distinct(supplied)
    ensures var own := Originals(env, all, np, shared, Params(shared));
            Originals(env, all, np, shared, Params(supplied)) == RenameMembers(own, Renames(shared, supplied))
            && MembersOver(own, Renames(shared, supplied).Keys)
  {
    hide TermOver, LevelsOver, OneToOne, Distinct, Renames, SubstMap;
    var ren := Renames(shared, supplied);
    RenamesOneToOne(shared, supplied);
    forall k | 0 <= k < |all|
      ensures Original(env, all[k], np, shared, Params(supplied))
              == RenameMember(Original(env, all[k], np, shared, Params(shared)), ren)
      ensures MemberOver(Original(env, all[k], np, shared, Params(shared)), ren.Keys)
    {
      assert all[k] in all;
      OriginalRenamed(env, all[k], np, shared, supplied);
    }
  }

  lemma OriginalRenamed(env: Env, name: nat, np: nat, shared: seq<nat>, supplied: seq<nat>)
    requires ParametersDeclared(env) && DeclaredType(env, name) && env.types[name].levelParams == shared
    requires forall k :: 0 <= k < |env.types[name].ctors| ==> env.ctors[env.types[name].ctors[k]].levelParams == shared
    requires |shared| == |supplied| && Distinct(shared) && Distinct(supplied)
    ensures var own := Original(env, name, np, shared, Params(shared));
            Original(env, name, np, shared, Params(supplied)) == RenameMember(own, Renames(shared, supplied))
            && MemberOver(own, Renames(shared, supplied).Keys)
  {
    hide LevelsOver, OneToOne, Distinct, Renames, SubstMap;
    var ren, ind := Renames(shared, supplied), env.types[name];
    RenamesOneToOne(shared, supplied);
    DeclaredRenamed(ind.typ, shared, supplied);
    var a, b := Original(env, name, np, shared, Params(shared)), Original(env, name, np, shared, Params(supplied));
    forall k | 0 <= k < |ind.ctors|
      ensures b.ctors[k] == RenameCtor(a.ctors[k], ren) && TermOver(a.ctors[k].typ, ren.Keys)
    {
      DeclaredRenamed(env.ctors[ind.ctors[k]].typ, shared, supplied);
    }
    assert b.ctors == RenameCtors(a.ctors, ren);
    assert RenameTerms(Countdown(np, np), ren) == Countdown(np, np);
    assert TermsOver(Countdown(np, np), ren.Keys);
  }

  lemma {:induction false} RenameDomains(e: Term, ren: Ren)
    ensures Domains(RenameTerm(e, ren)) == RenameBinders(Domains(e), ren)
    ensures TermOver(e, ren.Keys) ==> BindersOver(Domains(e), ren.Keys)
  {
    if e.Pi? { RenameDomains(e.body, ren); }
  }

  lemma ParamsRenamed(typ: Term, np: nat, shared: seq<nat>, supplied: seq<nat>)
    requires |shared| == |supplied| && Distinct(shared) && Distinct(supplied) && TermOver(typ, NamesOf(shared))
    ensures var ren, own := Renames(shared, supplied), ParamBinders(typ, np, shared, Params(shared));
            ParamBinders(typ, np, shared, Params(supplied))
              == (if own.Ok? then Ok(RenameBinders(own.value, ren)) else own)
            && (own.Ok? ==> BindersOver(own.value, ren.Keys))
  {
    hide TermOver, Distinct, Renames, SubstMap, Domains;
    var ren := Renames(shared, supplied);
    var own := InstLevelParams(typ, SubstMap(shared, Params(shared)));
    DeclaredRenamed(typ, shared, supplied);
    RenamePeel(own, np, ren, ren.Keys);
    RenameDomains(own, ren);
    if HasPis(own, np) {
      HasPisDomains(own, np);
      HasPisDomains(RenameTerm(own, ren), np);
      assert RenameBinders(Domains(own), ren)[..np] == RenameBinders(Domains(own)[..np], ren);
    }
  }

  /** The expansion of the declared group with its universe parameters named `names`. */
  ghost function Discovered(env: Env, all: seq<nat>, np: nat, shared: seq<nat>, names: seq<nat>,
                            fuel: nat): (Result<seq<Member>>, bool)
    requires CheckedGroup(env, all, shared) && |names| == |shared|
  {
    var params := ParamBinders(FirstType(env, all, shared), np, shared, Params(names));
    if params.Err? then (Err(NotPi), true)
    else ExpandFrom(all, env, np, params.value, Originals(env, all, np, shared, Params(names)), 0, fuel)
  }

  /** Under other names the expansion comes to the same members, renamed. */
  lemma DiscoveryRenamed(env: Env, all: seq<nat>, np: nat, shared: seq<nat>, supplied: seq<nat>, fuel: nat)
    requires ParametersDeclared(env) && CheckedGroup(env, all, shared) && |supplied| == |shared| && Distinct(supplied)
    ensures var (own, done) := Discovered(env, all, np, shared, shared, fuel);
            Discovered(env, all, np, shared, supplied, fuel) == (RenameResult(own, Renames(shared, supplied)), done)
  {
    hide Distinct, Renames, ParamBinders, Originals, ExpandFrom, MembersOver, BindersOver, OneToOne, TermOver;
    var ren, typ := Renames(shared, supplied), FirstType(env, all, shared);
    assert all[0] in all;
    RenamesOneToOne(shared, supplied);
    ParamsRenamed(typ, np, shared, supplied);
    OriginalsRenamed(env, all, np, shared, supplied);
    var own := ParamBinders(typ, np, shared, Params(shared));
    if own.Ok? {
      RenameExpansion(all, env, np, own.value, Originals(env, all, np, shared, Params(shared)), 0, fuel, ren);
    }
  }

  /** One expansion of the declared group. */
  method Discover(env: Env, all: seq<nat>, np: nat, shared: seq<nat>, names: seq<nat>, defEq: DefEq, fuel: nat)
    returns (r: Result<seq<Member>>, done: bool)
    requires ClosedEnv(env) && CheckedGroup(env, all, shared) && |names| == |shared|
    ensures var (all, end) := Discovered(env, all, np, shared, names, fuel); Agree(r, all) && done == end
  {
    assert all[0] in all;
    var params := RecParams(env.types[all[0]].typ, np, shared, Params(names));
    if params.Err? { return Err(NotPi), true; }
    var members := OriginalMembers(env, all, np, shared, Params(names));
    var g := Group(all, members.value, np, defEq);
    DiscoverStarts(env, all, np, shared, Params(names), params.value, g);
    hide *;
    var out;
    ghost var reached, scanned;
    out, done, reached, scanned := ExpandNestedMembers(g, env, params.value, fuel);
    r := if out.Ok? then Ok(out.value.members) else Err(out.error);
  }

  lemma DiscoverStarts(env: Env, all: seq<nat>, np: nat, shared: seq<nat>, levels: seq<L.Level>, params: seq<Binder>,
                       g: Group)
    requires ClosedEnv(env) && CheckedGroup(env, all, shared) && |levels| == |shared|
    requires ParamBinders(FirstType(env, all, shared), np, shared, levels) == Ok(params)
    requires g.names == all && g.np == np && g.members == Originals(env, all, np, shared, levels)
    ensures |params| == np && TelescopeIn(params, 0) && WellScoped(g) && Grounded(g)
  {
    hide Mentions, SubstMap;
    var typ := FirstType(env, all, shared);
    assert all[0] in all;
    InstLevelsKeeps(typ, SubstMap(shared, levels), np);
    HasPisDomains(InstLevelParams(typ, SubstMap(shared, levels)), np);
    DomainsScoped(InstLevelParams(typ, SubstMap(shared, levels)), 0);
    forall k | 0 <= k < |all| ensures WellScopedMember(g.members[k], np) && GroundedMember(g.members[k], all) {
      assert all[k] in all;
      InstLevelsKeeps(env.types[all[k]].typ, SubstMap(shared, levels), 0);
      forall c | 0 <= c < |env.types[all[k]].ctors| ensures Loose(g.members[k].ctors[c].typ) == 0 {
        InstLevelsKeeps(env.ctors[env.types[all[k]].ctors[c]].typ, SubstMap(shared, levels), 0);
      }
    }
  }

  /** The group is expanded under its own universe names and again under the supplied ones. The second expansion is
      refused exactly when the first is and finds the same members renamed: the error that the discovery changed
      never happens. */
  method ExpandTwice(env: Env, all: seq<nat>, np: nat, shared: seq<nat>, supplied: seq<nat>, defEq: DefEq, fuel: nat)
    returns (r: Result<seq<Member>>, done: bool, changed: bool)
    requires ClosedEnv(env) && ParametersDeclared(env) && CheckedGroup(env, all, shared)
    ensures !changed
    ensures r.Ok? ==> |supplied| == |shared| && Distinct(supplied)
    ensures |supplied| == |shared| && Distinct(supplied) ==>
              var (own, end) := Discovered(env, all, np, shared, shared, fuel);
              done == end && Agree(r, RenameResult(own, Renames(shared, supplied)))
  {
    hide Discovered, CheckedGroup, ParametersDeclared, ClosedEnv, RenameMember, Renames;
    var first;
    first, done := Discover(env, all, np, shared, shared, defEq, fuel);
    if !Distinct(supplied) || |supplied| != |shared| { return Err(WrongArity), done, false; }
    DiscoveryRenamed(env, all, np, shared, supplied, fuel);
    if first.Err? { return first, done, false; }
    r, done := Discover(env, all, np, shared, supplied, defEq, fuel);
    changed := r.Ok? && |r.value| != |first.value|;
  }
}
