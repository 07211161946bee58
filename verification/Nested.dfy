/**
 Nested occurrences: an earlier inductive applied to parameters that mention the group
 being declared becomes a further member of the group, specialised to those parameters.
 */
module Nested {
  import opened Terms
  import opened Recursor
  import L = Levels

  datatype Inductive = Inductive(levelParams: seq<nat>, typ: Term, np: nat, numIndices: nat, ctors: seq<nat>,
                                 all: seq<nat>)
  datatype Constructor = Constructor(levelParams: seq<nat>, typ: Term, np: nat)
  datatype Env = Env(types: map<nat, Inductive>, ctors: map<nat, Constructor>)

  datatype Occurrence = Occurrence(source: nat, levels: seq<L.Level>, fixedParams: seq<Term>, all: seq<nat>, np: nat)

  /** Checked declarations have closed types. */
  ghost predicate ClosedEnv(env: Env) {
    (forall n :: n in env.types ==> Loose(env.types[n].typ) == 0)
    && (forall n :: n in env.ctors ==> Loose(env.ctors[n].typ) == 0)
  }

  function SubstMap(names: seq<nat>, us: seq<L.Level>): L.Subst
    requires |names| == |us|
  {
    if names == [] then map[]
    else SubstMap(names[..|names| - 1], us[..|us| - 1])[names[|names| - 1] := us[|us| - 1]]
  }

  lemma AfterInFront(names: seq<nat>, k: nat)
    requires k < |names| - 1
    ensures names[k + 1..] == names[..|names| - 1][k + 1..] + [names[|names| - 1]]
    ensures names[|names| - 1] in names[k + 1..]
  {}

  /** The levels go to the parameters in order, the last one where a name repeats, and to nothing else. */
  lemma {:induction false} SubstMapExact(names: seq<nat>, us: seq<L.Level>)
    requires |names| == |us|
    ensures forall p :: p in SubstMap(names, us) <==> p in names
    ensures forall k :: 0 <= k < |names| && names[k] !in names[k + 1..] ==> SubstMap(names, us)[names[k]] == us[k]
    decreases |names|
  {
    if names != [] {
      var n := |names| - 1;
      var front, back := names[..n], us[..n];
      SubstMapExact(front, back);
      assert names == front + [names[n]];
      forall k | 0 <= k < |names| && names[k] !in names[k + 1..] ensures SubstMap(names, us)[names[k]] == us[k] {
        if k < n {
          AfterInFront(names, k);
          assert front[k] == names[k] && back[k] == us[k];
        }
      }
    }
  }

  /** `t` gives each parameter the value its level has under `s`, the last one where a name repeats, and any other
      parameter the value it has under `s`. */
  ghost predicate Assigns(t: L.Assignment, names: seq<nat>, us: seq<L.Level>, s: L.Assignment)
    requires |names| == |us|
  {
    (forall k :: 0 <= k < |names| && names[k] !in names[k + 1..] ==> t(names[k]) == L.Eval(us[k], s))
    && forall p :: p !in names ==> t(p) == s(p)
  }

  /** `e` says what `typ` does when parameter `names[k]` stands for `us[k]`, for every `k`. */
  ghost predicate InstanceOf(e: Term, typ: Term, names: seq<nat>, us: seq<L.Level>) {
    |names| == |us| && forall s, t :: Assigns(t, names, us, s) ==> ReadsAs(e, s, typ, t)
  }

  lemma InstanceReads(typ: Term, names: seq<nat>, us: seq<L.Level>)
    requires |names| == |us|
    ensures InstanceOf(InstLevelParams(typ, SubstMap(names, us)), typ, names, us)
  {
    var subst := SubstMap(names, us);
    SubstMapExact(names, us);
    forall s, t | Assigns(t, names, us, s) ensures ReadsAs(InstLevelParams(typ, subst), s, typ, t) {
      forall p ensures t(p) == L.Compose(subst, s)(p) {
        if p in names {
          var k := LastOf(names, p);
          assert t(names[k]) == L.Eval(us[k], s);
        }
      }
      InstLevelParamsReads(typ, subst, s, t);
    }
  }

  lemma {:induction false} LastOf(names: seq<nat>, p: nat) returns (k: nat)
    requires p in names
    ensures k < |names| && names[k] == p && p !in names[k + 1..]
    decreases |names|
  {
    var n := |names| - 1;
    if names[n] == p {
      k := n;
    } else {
      k := LastOf(names[..n], p);
      assert names[k + 1..] == names[..n][k + 1..] + [names[n]];
    }
  }

  // ----------------------------------------------------- specialised telescopes

  lemma {:induction false} InstLevelsKeeps(e: Term, subst: L.Subst, n: nat)
    ensures Loose(InstLevelParams(e, subst)) == Loose(e)
    ensures HasPis(InstLevelParams(e, subst), n) <==> HasPis(e, n)
  {
    match e
    case App(f, x) => InstLevelsKeeps(f, subst, 0); InstLevelsKeeps(x, subst, 0);
    case Lam(_, ty, body) => InstLevelsKeeps(ty, subst, 0); InstLevelsKeeps(body, subst, 0);
    case Pi(_, ty, body) => InstLevelsKeeps(ty, subst, 0); InstLevelsKeeps(body, subst, Pred(n));
    case Let(ty, val, body) =>
      InstLevelsKeeps(ty, subst, 0);
      InstLevelsKeeps(val, subst, 0);
      InstLevelsKeeps(body, subst, 0);
    case Proj(_, _, v) => InstLevelsKeeps(v, subst, 0);
    case _ =>
  }

  lemma {:induction false} ShiftUpScoped(e: Term, d: nat, cutoff: nat, n: nat)
    requires Loose(e) <= n
    ensures Loose(Shift(e, d, cutoff)) <= n + d
  {
    LooseParts(e, n);
    LooseParts(Shift(e, d, cutoff), n + d);
    hide Loose;
    match e
    case BVar(_) =>
    case App(f, x) => ShiftUpScoped(f, d, cutoff, n); ShiftUpScoped(x, d, cutoff, n);
    case Lam(_, ty, body) => ShiftUpScoped(ty, d, cutoff, n); ShiftUpScoped(body, d, cutoff + 1, n + 1);
    case Pi(_, ty, body) => ShiftUpScoped(ty, d, cutoff, n); ShiftUpScoped(body, d, cutoff + 1, n + 1);
    case Let(ty, val, body) =>
      ShiftUpScoped(ty, d, cutoff, n);
      ShiftUpScoped(val, d, cutoff, n);
      ShiftUpScoped(body, d, cutoff + 1, n + 1);
    case Proj(_, _, v) => ShiftUpScoped(v, d, cutoff, n);
    case _ =>
  }

  lemma InstVarScoped(i: nat, args: seq<Term>, depth: nat, n: nat)
    requires i < depth + |args| && ParamsOnly(args, n)
    ensures Loose(InstAt(BVar(i), args, depth)) <= n + depth
  {
    hide Shift;
    if i >= depth { ShiftUpScoped(args[i - depth], depth, 0, n); }
  }

  lemma {:induction false} InstScoped(e: Term, args: seq<Term>, depth: nat, n: nat)
    requires Loose(e) <= depth + |args| && ParamsOnly(args, n)
    ensures Loose(InstAt(e, args, depth)) <= n + depth
    decreases e, 1
  {
    LooseParts(e, depth + |args|);
    LooseParts(InstAt(e, args, depth), n + depth);
    hide Shift, ParamsOnly, Loose;
    match e
    case BVar(i) => InstVarScoped(i, args, depth, n);
    case App(f, x) => InstScoped(f, args, depth, n); InstScoped(x, args, depth, n);
    case Lam(_, ty, body) => InstBinderScoped(e, ty, body, args, depth, n);
    case Pi(_, ty, body) => InstBinderScoped(e, ty, body, args, depth, n);
    case Let(ty, val, body) => InstScoped(val, args, depth, n); InstBinderScoped(e, ty, body, args, depth, n);
    case Proj(_, _, v) => InstScoped(v, args, depth, n);
    case _ =>
  }

  lemma {:induction false} InstBinderScoped(e: Term, ty: Term, body: Term, args: seq<Term>, depth: nat, n: nat)
    requires ty < e && body < e && Loose(ty) <= depth + |args| && Loose(body) <= depth + 1 + |args|
             && ParamsOnly(args, n)
    ensures Loose(InstAt(ty, args, depth)) <= n + depth && Loose(InstAt(body, args, depth + 1)) <= n + depth + 1
    decreases e, 0
  {
    hide Loose, InstAt, ParamsOnly;
    InstScoped(ty, args, depth, n);
    InstScoped(body, args, depth + 1, n);
  }

  /** The prior type at its new levels, applied to the fixed parameters one by one, over the current parameters. */
  function Specialized(typ: Term, levelParams: seq<nat>, levels: seq<L.Level>, np: nat, fixed: seq<Term>,
                       params: seq<Binder>): Result<Term>
  {
    if |levelParams| != |levels| || |fixed| != np then Err(WrongArity)
    else
      var leveled := InstLevelParams(typ, SubstMap(levelParams, levels));
      if !HasPis(leveled, np) then Err(NotPi) else Ok(Close(params, ApplyPis(leveled, fixed)))
  }

  /** The code peels every binder first and instantiates once, in reverse. */
  method SpecializePriorTelescope(typ: Term, levelParams: seq<nat>, levels: seq<L.Level>, np: nat, fixed: seq<Term>,
                                  params: seq<Binder>)
    returns (r: Result<Term>)
    ensures r == Specialized(typ, levelParams, levels, np, fixed, params)
    ensures r.Ok? <==> |levelParams| == |levels| && |fixed| == np && HasPis(typ, np)
    ensures r.Ok? ==> exists leveled :: InstanceOf(leveled, typ, levelParams, levels) && HasPis(leveled, np)
                                     && r.value == Close(params, ApplyPis(leveled, fixed))
  {
    if |levelParams| != |levels| || |fixed| != np { return Err(WrongArity); }
    var leveled := InstLevelParams(typ, SubstMap(levelParams, levels));
    InstLevelsKeeps(typ, SubstMap(levelParams, levels), np);
    InstanceReads(typ, levelParams, levels);
    var peeled := PeelPis(leveled, np);
    if peeled.Err? { return Err(NotPi); }
    var body := InstAt(peeled.value.1, Reverse(fixed), 0);
    InstantiateTelescope(leveled, fixed);
    var closed := CloseRecTelescope(params, body);
    r := Ok(closed);
  }

  /** A specialised type is closed and starts with exactly the current parameters. */
  lemma SpecializedScoped(typ: Term, levelParams: seq<nat>, levels: seq<L.Level>, np: nat, fixed: seq<Term>,
                          params: seq<Binder>)
    requires Loose(typ) == 0 && TelescopeIn(params, 0) && ParamsOnly(fixed, |params|)
    requires Specialized(typ, levelParams, levels, np, fixed, params).Ok?
    ensures var t := Specialized(typ, levelParams, levels, np, fixed, params).value;
            Loose(t) == 0 && HasPis(t, |params|)
            && Peel(t, |params|) == ApplyPis(InstLevelParams(typ, SubstMap(levelParams, levels)), fixed)
  {
    var leveled := InstLevelParams(typ, SubstMap(levelParams, levels));
    InstLevelsKeeps(typ, SubstMap(levelParams, levels), np);
    PeelScoped(leveled, np, 0);
    InstantiateTelescope(leveled, fixed);
    forall k | 0 <= k < |fixed| ensures Loose(Reverse(fixed)[k]) <= |params| {
      assert Reverse(fixed)[k] == fixed[|fixed| - 1 - k];
    }
    InstScoped(Peel(leveled, np), Reverse(fixed), 0, |params|);
    CloseScoped(params, ApplyPis(leveled, fixed), 0);
    CloseHasPis(params, ApplyPis(leveled, fixed));
  }

  // ------------------------------------------------------- nested occurrences

  function LowerAll(es: seq<Term>, d: nat): seq<Term> {
    seq(|es|, k requires 0 <= k < |es| => Shift(es[k], 0 - d, 0))
  }

  function NestedOccurrence(g: Group, env: Env, e: Term, depth: nat): Result<Option<Occurrence>> {
    if !e.App? then Ok(None)
    else
      var (head, args) := UnfoldApps(e);
      if !head.Const? || head.name in g.names || head.name !in env.types then Ok(None)
      else
        var ind := env.types[head.name];
        if |args| < ind.np then Ok(None)
        else
          var params := args[..ind.np];
          if !(exists k :: 0 <= k < |params| && ContainsMember(g, params[k], depth)) then Ok(None)
          else if exists k :: 0 <= k < |params| && HasBVarInRange(params[k], 0, depth, 0) then Err(LocalParameters)
          else Ok(Some(Occurrence(head.name, head.us, LowerAll(params, depth), ind.all, ind.np)))
  }

  lemma {:induction false} LowerScoped(e: Term, d: nat, cutoff: nat, n: nat)
    requires Loose(e) <= n + d + cutoff && !HasBVarInRange(e, 0, d, cutoff)
    ensures Loose(Shift(e, 0 - d, cutoff)) <= n + cutoff
  {
    LooseParts(e, n + d + cutoff);
    LooseParts(Shift(e, 0 - d, cutoff), n + cutoff);
    hide Loose;
    match e
    case BVar(_) =>
    case App(f, x) => LowerScoped(f, d, cutoff, n); LowerScoped(x, d, cutoff, n);
    case Lam(_, ty, body) => LowerScoped(ty, d, cutoff, n); LowerScoped(body, d, cutoff + 1, n);
    case Pi(_, ty, body) => LowerScoped(ty, d, cutoff, n); LowerScoped(body, d, cutoff + 1, n);
    case Let(ty, val, body) =>
      LowerScoped(ty, d, cutoff, n);
      LowerScoped(val, d, cutoff, n);
      LowerScoped(body, d, cutoff + 1, n);
    case Proj(_, _, v) => LowerScoped(v, d, cutoff, n);
    case _ =>
  }

  ghost predicate MemberOf(m: Member, o: Occurrence) {
    m.source == o.source && m.levels == o.levels && m.fixedParams == o.fixedParams
  }

  /** The fixed parameters of an occurrence mention the current parameters only, and a member
      made from them is recognised at the very application they were read from. */
  lemma OccurrenceExact(g: Group, env: Env, e: Term, depth: nat, m: Member)
    requires Loose(e) <= g.np + depth
    requires NestedOccurrence(g, env, e, depth).Ok? && NestedOccurrence(g, env, e, depth).value.Some?
    requires MemberOf(m, NestedOccurrence(g, env, e, depth).value.value)
    ensures ParamsOnly(m.fixedParams, g.np)
    ensures PrefixMatches(m, e, g.np, g.np + depth).Some?
  {
    var (head, args) := UnfoldApps(e);
    var params := args[..env.types[head.name].np];
    UnfoldScoped(e);
    forall k | 0 <= k < |params|
      ensures args[k] == Shift(m.fixedParams[k], depth, 0) && Loose(m.fixedParams[k]) <= g.np
    {
      assert args[k] == params[k];
      LowerThenRaise(params[k], depth);
      LowerScoped(params[k], depth, 0, g.np);
    }
  }

  // ---------------------------------------------- what counts as an occurrence

  /** Some constant in `e` has one of the names. */
  predicate Mentions(e: Term, names: seq<nat>) {
    match e
    case BVar(_) => false
    case Sort(_) => false
    case Lit(_) => false
    case Const(n, _) => n in names
    case App(f, x) => Mentions(f, names) || Mentions(x, names)
    case Lam(_, ty, body) => Mentions(ty, names) || Mentions(body, names)
    case Pi(_, ty, body) => Mentions(ty, names) || Mentions(body, names)
    case Let(ty, val, body) => Mentions(ty, names) || Mentions(val, names) || Mentions(body, names)
    case Proj(_, _, v) => Mentions(v, names)
  }

  /** A member is one of the declared types, or has a parameter that mentions one. */
  ghost predicate GroundedMember(m: Member, names: seq<nat>) {
    m.source in names || exists k :: 0 <= k < |m.fixedParams| && Mentions(m.fixedParams[k], names)
  }

  /** Holds of the declared group, and of every group the expansion makes of it. */
  ghost predicate Grounded(g: Group) { forall k :: 0 <= k < |g.members| ==> GroundedMember(g.members[k], g.names) }

  lemma {:induction false} MentionsShift(e: Term, names: seq<nat>, off: int, cutoff: nat)
    ensures Mentions(Shift(e, off, cutoff), names) <==> Mentions(e, names)
  {
    match e
    case App(f, x) => MentionsShift(f, names, off, cutoff); MentionsShift(x, names, off, cutoff);
    case Lam(_, ty, body) => MentionsShift(ty, names, off, cutoff); MentionsShift(body, names, off, cutoff + 1);
    case Pi(_, ty, body) => MentionsShift(ty, names, off, cutoff); MentionsShift(body, names, off, cutoff + 1);
    case Let(ty, val, body) =>
      MentionsShift(ty, names, off, cutoff);
      MentionsShift(val, names, off, cutoff);
      MentionsShift(body, names, off, cutoff + 1);
    case Proj(_, _, v) => MentionsShift(v, names, off, cutoff);
    case _ =>
  }

  lemma {:induction false} MentionsSpine(e: Term, names: seq<nat>)
    ensures var (head, args) := UnfoldApps(e);
            (Mentions(head, names) ==> Mentions(e, names))
            && forall k :: 0 <= k < |args| && Mentions(args[k], names) ==> Mentions(e, names)
  {
    if e.App? { MentionsSpine(e.f, names); }
  }

  /** What is recognised as a grounded member mentions a declared name. */
  lemma PrefixMentions(m: Member, e: Term, np: nat, depth: nat, names: seq<nat>)
    requires GroundedMember(m, names) && PrefixMatches(m, e, np, depth).Some?
    ensures Mentions(e, names)
  {
    var (head, args) := UnfoldApps(e);
    MentionsSpine(e, names);
    if m.source !in names {
      var k :| 0 <= k < |m.fixedParams| && Mentions(m.fixedParams[k], names);
      MentionsShift(m.fixedParams[k], names, depth - np, 0);
    }
  }

  /** In a grounded group, containing a member is mentioning a declared name: members added later change nothing. */
  lemma {:induction false} ContainsIsMention(g: Group, e: Term, depth: nat)
    requires Grounded(g)
    ensures ContainsMember(g, e, depth) <==> Mentions(e, g.names)
  {
    hide PrefixMatches, GroundedMember;
    if k :| 0 <= k < |g.members| && PrefixMatches(g.members[k], e, g.np, g.np + depth).Some? {
      PrefixMentions(g.members[k], e, g.np, g.np + depth, g.names);
    }
    match e
    case App(f, x) => ContainsIsMention(g, f, depth); ContainsIsMention(g, x, depth);
    case Lam(_, ty, body) => ContainsIsMention(g, ty, depth); ContainsIsMention(g, body, depth + 1);
    case Pi(_, ty, body) => ContainsIsMention(g, ty, depth); ContainsIsMention(g, body, depth + 1);
    case Let(ty, val, body) =>
      ContainsIsMention(g, ty, depth);
      ContainsIsMention(g, val, depth);
      ContainsIsMention(g, body, depth + 1);
    case Proj(_, _, v) => ContainsIsMention(g, v, depth);
    case _ =>
  }

  /** The occurrence at `e`, told from the declared names alone. */
  function NamedOccurrence(names: seq<nat>, env: Env, e: Term, depth: nat): Result<Option<Occurrence>> {
    if !e.App? then Ok(None)
    else
      var (head, args) := UnfoldApps(e);
      if !head.Const? || head.name in names || head.name !in env.types || |args| < env.types[head.name].np then Ok(None)
      else
        var ind := env.types[head.name];
        var params := args[..ind.np];
        if !(exists k :: 0 <= k < |params| && Mentions(params[k], names)) then Ok(None)
        else if exists k :: 0 <= k < |params| && HasBVarInRange(params[k], 0, depth, 0) then Err(LocalParameters)
        else Ok(Some(Occurrence(head.name, head.us, LowerAll(params, depth), ind.all, ind.np)))
  }

  lemma OccurrenceNamed(g: Group, env: Env, e: Term, depth: nat)
    requires Grounded(g)
    ensures NestedOccurrence(g, env, e, depth) == NamedOccurrence(g.names, env, e, depth)
  {
    hide Mentions, ContainsMember, Grounded, HasBVarInRange;
    var args := UnfoldApps(e).1;
    forall k | 0 <= k < |args| ensures ContainsMember(g, args[k], depth) <==> Mentions(args[k], g.names) {
      ContainsIsMention(g, args[k], depth);
    }
  }

  /** The occurrences of `e` in scan order, none inside another; an error stands for one with local parameters. */
  function Outermost(names: seq<nat>, env: Env, e: Term, depth: nat): seq<Result<Occurrence>> {
    var o := NamedOccurrence(names, env, e, depth);
    if o.Err? then [Err(o.error)]
    else if o.value.Some? then [Ok(o.value.value)]
    else
      match e
      case BVar(_) => []
      case Sort(_) => []
      case Const(_, _) => []
      case Lit(_) => []
      case App(f, x) => Outermost(names, env, f, depth) + Outermost(names, env, x, depth)
      case Lam(_, ty, body) => Outermost(names, env, ty, depth) + Outermost(names, env, body, depth + 1)
      case Pi(_, ty, body) => Outermost(names, env, ty, depth) + Outermost(names, env, body, depth + 1)
      case Let(ty, val, body) =>
        Outermost(names, env, ty, depth) + Outermost(names, env, val, depth) + Outermost(names, env, body, depth + 1)
      case Proj(_, _, v) => Outermost(names, env, v, depth)
  }

  /** What an occurrence copies of its environment, and the declared name among its parameters. */
  ghost predicate Genuine(names: seq<nat>, env: Env, np: nat, o: Occurrence) {
    o.source in env.types && o.all == env.types[o.source].all && o.np == env.types[o.source].np
    && ParamsOnly(o.fixedParams, np) && exists k :: 0 <= k < |o.fixedParams| && Mentions(o.fixedParams[k], names)
  }

  lemma NamedGenuine(names: seq<nat>, env: Env, np: nat, e: Term, depth: nat)
    requires Loose(e) <= np + depth
    ensures var o := NamedOccurrence(names, env, e, depth);
            o.Ok? && o.value.Some? ==> Genuine(names, env, np, o.value.value)
  {
    var o := NamedOccurrence(names, env, e, depth);
    if o.Ok? && o.value.Some? {
      var (head, args) := UnfoldApps(e);
      var params := args[..env.types[head.name].np];
      var k :| 0 <= k < |params| && Mentions(params[k], names);
      MentionsShift(params[k], names, 0 - depth, 0);
      assert Mentions(LowerAll(params, depth)[k], names);
      UnfoldScoped(e);
      forall j | 0 <= j < |params| ensures Loose(LowerAll(params, depth)[j]) <= np {
        assert args[j] == params[j];
        LowerScoped(params[j], depth, 0, np);
      }
    }
  }

  ghost predicate AllGenuine(names: seq<nat>, env: Env, np: nat, evs: seq<Result<Occurrence>>) {
    forall k :: 0 <= k < |evs| && evs[k].Ok? ==> Genuine(names, env, np, evs[k].value)
  }

  lemma {:induction false} OutermostGenuine(names: seq<nat>, env: Env, np: nat, e: Term, depth: nat)
    requires Loose(e) <= np + depth
    ensures AllGenuine(names, env, np, Outermost(names, env, e, depth))
  {
    NamedGenuine(names, env, np, e, depth);
    LooseParts(e, np + depth);
    hide Genuine, NamedOccurrence, Loose;
    match e
    case App(f, x) => OutermostGenuine(names, env, np, f, depth); OutermostGenuine(names, env, np, x, depth);
    case Lam(_, ty, body) =>
      OutermostGenuine(names, env, np, ty, depth);
      OutermostGenuine(names, env, np, body, depth + 1);
    case Pi(_, ty, body) =>
      OutermostGenuine(names, env, np, ty, depth);
      OutermostGenuine(names, env, np, body, depth + 1);
    case Let(ty, val, body) =>
      OutermostGenuine(names, env, np, ty, depth);
      OutermostGenuine(names, env, np, val, depth);
      OutermostGenuine(names, env, np, body, depth + 1);
    case Proj(_, _, v) => OutermostGenuine(names, env, np, v, depth);
    case _ =>
  }

  // ---------------------------------------------------- adding one occurrence

  predicate HasMember(members: seq<Member>, o: Occurrence) {
    exists k :: 0 <= k < |members| && members[k].source == o.source && members[k].levels == o.levels
      && members[k].fixedParams == o.fixedParams
  }

  ghost predicate AllWellScoped(members: seq<Member>, np: nat) {
    forall k :: 0 <= k < |members| ==> WellScopedMember(members[k], np)
  }

  /** Constructor `name` of the environment, specialised to the occurrence. */
  ghost predicate CtorFor(env: Env, name: nat, o: Occurrence, params: seq<Binder>, c: Ctor) {
    name in env.ctors && env.ctors[name].np == o.np && c.name == name && c.levels == o.levels
    && Ok(c.typ) == Specialized(env.ctors[name].typ, env.ctors[name].levelParams, o.levels, o.np, o.fixedParams, params)
  }

  /** Inductive type `name` of the environment, specialised to the occurrence with all its constructors. */
  ghost predicate MemberFor(env: Env, name: nat, o: Occurrence, params: seq<Binder>, m: Member) {
    name in env.types
    && (var ind := env.types[name];
        ind.all == o.all && ind.np == o.np && m.source == name && m.levels == o.levels && m.fixedParams == o.fixedParams
        && m.numIndices == ind.numIndices
        && Ok(m.typ) == Specialized(ind.typ, ind.levelParams, o.levels, o.np, o.fixedParams, params)
        && |m.ctors| == |ind.ctors|
           && forall k :: 0 <= k < |m.ctors| ==> CtorFor(env, ind.ctors[k], o, params, m.ctors[k]))
  }

  /** A prior telescope of the occurrence's shape: as many levels and parameters as it is given, and Pis for them. */
  ghost predicate Fits(typ: Term, levelParams: seq<nat>, o: Occurrence) {
    |levelParams| == |o.levels| && |o.fixedParams| == o.np && HasPis(typ, o.np)
  }

  ghost predicate CopyableCtor(env: Env, name: nat, o: Occurrence) {
    name in env.ctors && env.ctors[name].np == o.np && Fits(env.ctors[name].typ, env.ctors[name].levelParams, o)
  }

  ghost predicate Copyable(env: Env, name: nat, o: Occurrence) {
    name in env.types && env.types[name].all == o.all && env.types[name].np == o.np
    && Fits(env.types[name].typ, env.types[name].levelParams, o)
    && forall k :: 0 <= k < |env.types[name].ctors| ==> CopyableCtor(env, env.types[name].ctors[k], o)
  }

  /** The prior group agrees about itself and about the occurrence: exactly then it can be copied. */
  ghost predicate Addable(env: Env, o: Occurrence) { forall k :: 0 <= k < |o.all| ==> Copyable(env, o.all[k], o) }

  lemma FitsExactly(typ: Term, levelParams: seq<nat>, o: Occurrence, params: seq<Binder>)
    ensures Specialized(typ, levelParams, o.levels, o.np, o.fixedParams, params).Ok? <==> Fits(typ, levelParams, o)
  {
    if |levelParams| == |o.levels| { InstLevelsKeeps(typ, SubstMap(levelParams, o.levels), o.np); }
  }

  /** The constructors of one prior type, each specialised; refused exactly when one of them does not fit. */
  method SpecializeCtors(env: Env, names: seq<nat>, o: Occurrence, params: seq<Binder>) returns (r: Result<seq<Ctor>>)
    requires ClosedEnv(env) && TelescopeIn(params, 0) && ParamsOnly(o.fixedParams, |params|)
    ensures r.Ok? <==> forall k :: 0 <= k < |names| ==> CopyableCtor(env, names[k], o)
    ensures r.Ok? ==> |r.value| == |names|
    ensures r.Ok? ==> forall k :: 0 <= k < |names| ==>
              CtorFor(env, names[k], o, params, r.value[k]) && Loose(r.value[k].typ) == 0
  {
    hide Specialized, Fits, Loose, InstanceOf, ApplyPis, HasPis, Close;
    var ctors: seq<Ctor> := [];
    for k := 0 to |names|
      invariant |ctors| == k
      invariant forall i :: 0 <= i < k ==>
                  CopyableCtor(env, names[i], o) && CtorFor(env, names[i], o, params, ctors[i])
                    && Loose(ctors[i].typ) == 0
    {
      if names[k] !in env.ctors { return Err(WrongArity); }
      var c := env.ctors[names[k]];
      if c.np != o.np { return Err(WrongArity); }
      FitsExactly(c.typ, c.levelParams, o, params);
      var typ := SpecializePriorTelescope(c.typ, c.levelParams, o.levels, o.np, o.fixedParams, params);
      if typ.Err? { return Err(typ.error); }
      SpecializedScoped(c.typ, c.levelParams, o.levels, o.np, o.fixedParams, params);
      ctors := ctors + [Ctor(names[k], o.levels, typ.value)];
    }
    r := Ok(ctors);
  }

  /** One prior type with its constructors, specialised; refused exactly when it cannot be copied. */
  method SpecializeMember(env: Env, name: nat, o: Occurrence, params: seq<Binder>) returns (r: Result<Member>)
    requires ClosedEnv(env) && TelescopeIn(params, 0) && ParamsOnly(o.fixedParams, |params|)
    ensures r.Ok? <==> Copyable(env, name, o)
    ensures r.Ok? ==> MemberFor(env, name, o, params, r.value) && WellScopedMember(r.value, |params|)
  {
    hide Specialized, Fits, Loose, CopyableCtor, CtorFor, InstanceOf, ApplyPis, Close;
    if name !in env.types || env.types[name].all != o.all { return Err(OutsideGroup); }
    var ind := env.types[name];
    if ind.np != o.np { return Err(WrongArity); }
    FitsExactly(ind.typ, ind.levelParams, o, params);
    var typ := SpecializePriorTelescope(ind.typ, ind.levelParams, o.levels, o.np, o.fixedParams, params);
    if typ.Err? { return Err(typ.error); }
    SpecializedScoped(ind.typ, ind.levelParams, o.levels, o.np, o.fixedParams, params);
    var ctors := SpecializeCtors(env, ind.ctors, o, params);
    if ctors.Err? { return Err(ctors.error); }
    r := Ok(Member(name, o.levels, o.fixedParams, typ.value, ind.numIndices, ctors.value));
  }

  /** `after` is `members` with the whole prior group of `o` appended, unless the occurrence was there already. */
  ghost predicate Appended(env: Env, o: Occurrence, params: seq<Binder>, members: seq<Member>, after: seq<Member>) {
    if HasMember(members, o) then after == members
    else
      |after| == |members| + |o.all| && members <= after
      && forall k :: 0 <= k < |o.all| ==> MemberFor(env, o.all[k], o, params, after[|members| + k])
  }

  /** Adds the whole prior group at the occurrence's parameters, once; refused exactly when it is new
      and cannot be copied. */
  method AddNestedSpecialization(env: Env, o: Occurrence, params: seq<Binder>, members: seq<Member>)
    returns (r: Result<seq<Member>>)
    requires ClosedEnv(env) && TelescopeIn(params, 0) && ParamsOnly(o.fixedParams, |params|)
    requires AllWellScoped(members, |params|)
    ensures r.Ok? <==> HasMember(members, o) || Addable(env, o)
    ensures r.Ok? ==> Appended(env, o, params, members, r.value) && AllWellScoped(r.value, |params|)
  {
    hide Copyable, MemberFor, WellScopedMember;
    if HasMember(members, o) { return Ok(members); }
    var out := members;
    for k := 0 to |o.all|
      invariant |out| == |members| + k && members <= out && AllWellScoped(out, |params|)
      invariant forall i :: 0 <= i < k ==>
                  Copyable(env, o.all[i], o) && MemberFor(env, o.all[i], o, params, out[|members| + i])
    {
      var m := SpecializeMember(env, o.all[k], o, params);
      if m.Err? { return Err(m.error); }
      out := out + [m.value];
    }
    r := Ok(out);
  }

  /** The copies an occurrence asks for, in the order of its group. */
  ghost function CopiedCtor(env: Env, name: nat, o: Occurrence, params: seq<Binder>): (c: Ctor)
    requires CopyableCtor(env, name, o)
    ensures CtorFor(env, name, o, params, c)
  {
    var prior := env.ctors[name];
    FitsExactly(prior.typ, prior.levelParams, o, params);
    Ctor(name, o.levels, Specialized(prior.typ, prior.levelParams, o.levels, o.np, o.fixedParams, params).value)
  }

  ghost function CopiedMember(env: Env, name: nat, o: Occurrence, params: seq<Binder>): (m: Member)
    requires Copyable(env, name, o)
    ensures MemberFor(env, name, o, params, m)
  {
    var ind := env.types[name];
    FitsExactly(ind.typ, ind.levelParams, o, params);
    Member(name, o.levels, o.fixedParams,
           Specialized(ind.typ, ind.levelParams, o.levels, o.np, o.fixedParams, params).value,
           ind.numIndices,
             seq(|ind.ctors|, k requires 0 <= k < |ind.ctors| => CopiedCtor(env, ind.ctors[k], o, params)))
  }

  lemma MemberForOne(env: Env, name: nat, o: Occurrence, params: seq<Binder>, a: Member, b: Member)
    requires MemberFor(env, name, o, params, a) && MemberFor(env, name, o, params, b)
    ensures a == b
  {
    hide Specialized;
    forall k | 0 <= k < |a.ctors| ensures a.ctors[k] == b.ctors[k] {
      assert CtorFor(env, env.types[name].ctors[k], o, params, a.ctors[k]);
      assert CtorFor(env, env.types[name].ctors[k], o, params, b.ctors[k]);
    }
    assert a.ctors == b.ctors;
  }

  ghost function Copies(env: Env, o: Occurrence, params: seq<Binder>): (r: seq<Member>)
    requires Addable(env, o)
    ensures |r| == |o.all|
  {
    seq(|o.all|, k requires 0 <= k < |o.all| => CopiedMember(env, o.all[k], o, params))
  }

  /** One occurrence, added to a list of members. */
  ghost function AddOne(env: Env, params: seq<Binder>, members: seq<Member>,
                        ev: Result<Occurrence>): (r: Result<seq<Member>>)
    ensures r.Ok? ==> members <= r.value
  {
    if ev.Err? then Err(ev.error)
    else if HasMember(members, ev.value) then Ok(members)
    else if Addable(env, ev.value) then Ok(members + Copies(env, ev.value, params))
    else Err(WrongArity)
  }

  /** Occurrences added one after another: the members made, in order. */
  ghost function AddAll(env: Env, params: seq<Binder>, members: seq<Member>,
                        evs: seq<Result<Occurrence>>): (r: Result<seq<Member>>)
    ensures r.Ok? ==> members <= r.value
    decreases |evs|
  {
    if evs == [] then Ok(members)
    else
      var first := AddOne(env, params, members, evs[0]);
      if first.Err? then first else AddAll(env, params, first.value, evs[1..])
  }

  lemma {:induction false} AddAllTwo(env: Env, params: seq<Binder>, members: seq<Member>, a: seq<Result<Occurrence>>,
                                     b: seq<Result<Occurrence>>)
    ensures var first := AddAll(env, params, members, a);
            AddAll(env, params, members, a + b) == if first.Err? then first else AddAll(env, params, first.value, b)
    decreases |a|
  {
    hide AddOne;
    if a == [] {
      assert a + b == b;
    } else {
      assert (a + b)[1..] == a[1..] + b;
      var first := AddOne(env, params, members, a[0]);
      if first.Ok? { AddAllTwo(env, params, first.value, a[1..], b); }
    }
  }

  /** Both refused, or both with the same value. */
  ghost predicate Agree<T>(a: Result<T>, b: Result<T>) { a.Ok? == b.Ok? && (a.Ok? ==> a.value == b.value) }

  lemma AppendedIs(env: Env, o: Occurrence, params: seq<Binder>, members: seq<Member>, r: Result<seq<Member>>)
    requires r.Ok? <==> HasMember(members, o) || Addable(env, o)
    requires r.Ok? ==> Appended(env, o, params, members, r.value)
    ensures Agree(r, AddAll(env, params, members, [Ok(o)]))
  {
    hide MemberFor, Copyable;
    var evs: seq<Result<Occurrence>> := [Ok(o)];
    assert evs[1..] == [];
    assert Agree(r, AddOne(env, params, members, evs[0])) by {
      if r.Ok? && !HasMember(members, o) {
        var all := members + Copies(env, o, params);
        forall k | 0 <= k < |all| ensures r.value[k] == all[k] {
          if k >= |members| {
            assert MemberFor(env, o.all[k - |members|], o, params, r.value[|members| + (k - |members|)]);
            MemberForOne(env, o.all[k - |members|], o, params, r.value[k], all[k]);
          }
        }
        assert r.value == all;
      }
    }
  }

  /** The same occurrence can be copied whichever member of its group it is read from. */
  lemma AppendedHas(env: Env, o: Occurrence, params: seq<Binder>, members: seq<Member>, after: seq<Member>,
                    other: Occurrence)
    requires Appended(env, o, params, members, after) && (HasMember(members, o) || Addable(env, o))
    requires other.source in env.types && other.all == env.types[other.source].all
             && other.np == env.types[other.source].np
    ensures HasMember(members, other) ==> HasMember(after, other)
    ensures HasMember(after, other) ==> HasMember(members, other) || Addable(env, other)
    ensures other == o && o.source in o.all ==> HasMember(after, o)
  {
    hide Copyable, CtorFor;
    if k :| 0 <= k < |members| && members[k].source == other.source && members[k].levels == other.levels
            && members[k].fixedParams == other.fixedParams {
      assert after[k] == members[k];
    }
    if HasMember(after, other) && !HasMember(members, other) {
      var k :| 0 <= k < |after| && after[k].source == other.source && after[k].levels == other.levels
        && after[k].fixedParams == other.fixedParams;
      assert k >= |members|;
      assert MemberFor(env, o.all[k - |members|], o, params, after[|members| + (k - |members|)]);
      forall j | 0 <= j < |other.all| ensures Copyable(env, other.all[j], other) {
        CopyableAlike(env, other.all[j], o, other);
      }
    }
    if other == o && o.source in o.all && !HasMember(members, o) {
      var k :| 0 <= k < |o.all| && o.all[k] == o.source;
      assert after[|members| + k].source == o.source;
    }
  }

  lemma CopyableAlike(env: Env, name: nat, a: Occurrence, b: Occurrence)
    requires a.levels == b.levels && a.fixedParams == b.fixedParams && a.all == b.all && a.np == b.np
    ensures Copyable(env, name, a) <==> Copyable(env, name, b)
  {
    hide HasPis;
  }

  // ------------------------------------------------- adding many occurrences

  /** Every occurrence is free of local variables and was there, or can be copied. */
  ghost predicate AllAddable(env: Env, members: seq<Member>, evs: seq<Result<Occurrence>>) {
    forall k :: 0 <= k < |evs| ==> evs[k].Ok? && (HasMember(members, evs[k].value) || Addable(env, evs[k].value))
  }

  /** Every occurrence whose type is listed in its own group now has its member. */
  ghost predicate Settled(members: seq<Member>, evs: seq<Result<Occurrence>>) {
    forall k :: 0 <= k < |evs| ==>
      evs[k].Ok? && (evs[k].value.source in evs[k].value.all ==> HasMember(members, evs[k].value))
  }

  /** Each member from `from` on is a copy made for one of the occurrences. */
  ghost predicate CopiedFor(env: Env, params: seq<Binder>, evs: seq<Result<Occurrence>>, members: seq<Member>,
                            from: nat)
  {
    forall k :: from <= k < |members| ==> Copied(env, params, evs, members[k])
  }

  ghost predicate Copied(env: Env, params: seq<Binder>, evs: seq<Result<Occurrence>>, m: Member) {
    exists j :: 0 <= j < |evs| && MadeFor(env, params, evs[j], m)
  }

  ghost predicate MadeFor(env: Env, params: seq<Binder>, ev: Result<Occurrence>, m: Member) {
    ev.Ok? && Addable(env, ev.value) && MemberFor(env, m.source, ev.value, params, m)
  }

  /** What scanning the occurrences `evs`, one after another, makes of `members`. */
  ghost predicate Scanned(env: Env, params: seq<Binder>, members: seq<Member>, evs: seq<Result<Occurrence>>,
                          r: Result<seq<Member>>)
  {
    (r.Ok? <==> AllAddable(env, members, evs))
    && (r.Ok? ==> members <= r.value && Settled(r.value, evs) && CopiedFor(env, params, evs, r.value, |members|))
  }

  lemma ScannedNone(env: Env, params: seq<Binder>, members: seq<Member>)
    ensures Scanned(env, params, members, [], Ok(members))
  {}

  /** A member of the larger list is an old one or stands for an addable occurrence. */
  lemma CopiedHas(env: Env, params: seq<Binder>, evs: seq<Result<Occurrence>>, members: seq<Member>, after: seq<Member>,
                  o: Occurrence)
    requires members <= after && CopiedFor(env, params, evs, after, |members|)
    requires o.source in env.types && o.all == env.types[o.source].all && o.np == env.types[o.source].np
    ensures HasMember(members, o) ==> HasMember(after, o)
    ensures HasMember(after, o) ==> HasMember(members, o) || Addable(env, o)
  {
    hide Copyable, CtorFor;
    if k :| 0 <= k < |members| && members[k].source == o.source && members[k].levels == o.levels
            && members[k].fixedParams == o.fixedParams
    {
      assert after[k] == members[k];
    }
    if HasMember(after, o) && !HasMember(members, o) {
      var k :| 0 <= k < |after| && after[k].source == o.source && after[k].levels == o.levels
        && after[k].fixedParams == o.fixedParams;
      assert k >= |members|;
      var j :| 0 <= j < |evs| && MadeFor(env, params, evs[j], after[k]);
      forall i | 0 <= i < |o.all| ensures Copyable(env, o.all[i], o) { CopyableAlike(env, o.all[i], evs[j].value, o); }
    }
  }

  /** Scanning one list after another is scanning both together. */
  lemma ScannedTwo(names: seq<nat>, env: Env, np: nat, params: seq<Binder>, members: seq<Member>,
                   a: seq<Result<Occurrence>>,
                   b: seq<Result<Occurrence>>, mid: Result<seq<Member>>, r: Result<seq<Member>>)
    requires AllGenuine(names, env, np, a) && AllGenuine(names, env, np, b)
    requires Scanned(env, params, members, a, mid)
    requires if mid.Err? then r.Err? else Scanned(env, params, mid.value, b, r)
    ensures Scanned(env, params, members, a + b, r)
  {
    hide Addable, MemberFor, HasMember, MadeFor;
    var both := a + b;
    assert forall k :: 0 <= k < |a| ==> both[k] == a[k];
    assert forall k :: 0 <= k < |b| ==> both[|a| + k] == b[k];
    if mid.Ok? {
      forall k | 0 <= k < |both| && both[k].Ok?
        ensures HasMember(members, both[k].value) ==> HasMember(mid.value, both[k].value)
        ensures HasMember(mid.value, both[k].value) ==> HasMember(members, both[k].value) || Addable(env, both[k].value)
      {
        GenuineAt(names, env, np, a, b, k);
        CopiedHas(env, params, a, members, mid.value, both[k].value);
      }
      assert AllAddable(env, members, both) <==> AllAddable(env, mid.value, b);
      if r.Ok? {
        forall k | 0 <= k < |a| && a[k].Ok? && HasMember(mid.value, a[k].value) ensures HasMember(r.value, a[k].value) {
          GenuineAt(names, env, np, a, b, k);
          CopiedHas(env, params, b, mid.value, r.value, a[k].value);
        }
        CopiedTwo(env, params, a, b, members, mid.value, r.value);
      }
    }
  }

  lemma GenuineAt(names: seq<nat>, env: Env, np: nat, a: seq<Result<Occurrence>>, b: seq<Result<Occurrence>>, k: nat)
    requires AllGenuine(names, env, np, a) && AllGenuine(names, env, np, b) && k < |a| + |b| && (a + b)[k].Ok?
    ensures var o := (a + b)[k].value;
            o.source in env.types && o.all == env.types[o.source].all && o.np == env.types[o.source].np
  {}

  lemma CopiedTwo(env: Env, params: seq<Binder>, a: seq<Result<Occurrence>>, b: seq<Result<Occurrence>>,
                  members: seq<Member>, mid: seq<Member>, after: seq<Member>)
    requires members <= mid <= after
    requires CopiedFor(env, params, a, mid, |members|) && CopiedFor(env, params, b, after, |mid|)
    ensures CopiedFor(env, params, a + b, after, |members|)
  {
    hide Addable, MemberFor;
    var both := a + b;
    forall k | |members| <= k < |after| ensures Copied(env, params, both, after[k]) {
      if k < |mid| {
        assert Copied(env, params, a, mid[k]);
        var j :| 0 <= j < |a| && MadeFor(env, params, a[j], mid[k]);
        assert both[j] == a[j];
      } else {
        assert Copied(env, params, b, after[k]);
        var j :| 0 <= j < |b| && MadeFor(env, params, b[j], after[k]);
        assert both[|a| + j] == b[j];
      }
    }
  }

  /** Adding one genuine occurrence is scanning the list of it. */
  lemma ScannedOne(names: seq<nat>, env: Env, np: nat, params: seq<Binder>, members: seq<Member>, o: Occurrence,
                   r: Result<seq<Member>>)
    requires Genuine(names, env, np, o)
    requires r.Ok? <==> HasMember(members, o) || Addable(env, o)
    requires r.Ok? ==> Appended(env, o, params, members, r.value)
    ensures Scanned(env, params, members, [Ok(o)], r)
  {
    hide Copyable, CtorFor, MemberFor;
    var evs: seq<Result<Occurrence>> := [Ok(o)];
    assert evs[0] == Ok(o);
    assert AllAddable(env, members, evs) <==> HasMember(members, o) || Addable(env, o);
    if r.Ok? {
      AppendedHas(env, o, params, members, r.value, o);
      forall k | |members| <= k < |r.value| ensures Copied(env, params, evs, r.value[k]) {
        OfMember(env, o, params, members, r.value, k);
        assert MadeFor(env, params, evs[0], r.value[k]);
      }
    }
  }

  /** The order of the occurrences aside, this is what adding them all comes to. */
  lemma {:induction false} AddAllScanned(names: seq<nat>, env: Env, np: nat, params: seq<Binder>, members: seq<Member>,
                                         evs: seq<Result<Occurrence>>)
    requires AllGenuine(names, env, np, evs)
    ensures Scanned(env, params, members, evs, AddAll(env, params, members, evs))
    decreases |evs|
  {
    hide Addable, MemberFor, HasMember, Genuine, Scanned, Copies;
    if evs == [] {
      ScannedNone(env, params, members);
    } else {
      var head, tail := [evs[0]], evs[1..];
      assert head + tail == evs && head[1..] == [];
      assert forall k :: 0 <= k < |tail| ==> tail[k] == evs[k + 1];
      var first := AddOne(env, params, members, evs[0]);
      AddOneScanned(names, env, np, params, members, evs[0]);
      if first.Ok? { AddAllScanned(names, env, np, params, first.value, tail); }
      ScannedTwo(names, env, np, params, members, head, tail, first, AddAll(env, params, members, evs));
    }
  }

  lemma AddOneScanned(names: seq<nat>, env: Env, np: nat, params: seq<Binder>, members: seq<Member>,
                      ev: Result<Occurrence>)
    requires ev.Ok? ==> Genuine(names, env, np, ev.value)
    ensures Scanned(env, params, members, [ev], AddOne(env, params, members, ev))
  {
    hide Genuine, MemberFor, Copyable, CopiedMember;
    var evs := [ev];
    assert evs[0] == ev;
    if ev.Ok? {
      var o, r := ev.value, AddOne(env, params, members, ev);
      if r.Ok? && !HasMember(members, o) {
        forall k | 0 <= k < |o.all| ensures MemberFor(env, o.all[k], o, params, r.value[|members| + k]) {
          assert r.value[|members| + k] == CopiedMember(env, o.all[k], o, params);
        }
      }
      ScannedOne(names, env, np, params, members, o, r);
    } else {
      RefusedOne(env, params, members, ev.error, AddOne(env, params, members, ev).error);
    }
  }

  lemma RefusedOne(env: Env, params: seq<Binder>, members: seq<Member>, error: Error, answer: Error)
    ensures Scanned(env, params, members, [Err(error)], Err(answer))
  {
    var evs: seq<Result<Occurrence>> := [Err(error)];
    assert evs[0].Err?;
  }

  lemma ScannedAgree(env: Env, params: seq<Binder>, members: seq<Member>, evs: seq<Result<Occurrence>>,
                     a: Result<seq<Member>>, b: Result<seq<Member>>)
    requires Agree(a, b) && Scanned(env, params, members, evs, a)
    ensures Scanned(env, params, members, evs, b)
  {}

  lemma OfMember(env: Env, o: Occurrence, params: seq<Binder>, members: seq<Member>, after: seq<Member>, k: nat)
    requires Appended(env, o, params, members, after) && (HasMember(members, o) || Addable(env, o))
             && |members| <= k < |after|
    ensures MadeFor(env, params, Ok(o), after[k])
  {
    hide Copyable, CtorFor;
    assert MemberFor(env, o.all[k - |members|], o, params, after[|members| + (k - |members|)]);
  }
}
