/**
 What the parts of a recursor say, by the binders their variables name. Nothing here names
 the functions the builders are proved equal to, shifts a term or counts an index.
 */
module Readings {
  import opened Terms
  import opened Contexts
  import opened Recursor
  import opened Nested
  import L = Levels

  // ------------------------------------------------------------- reading terms

  /** The parameters alone. */
  function Given(np: nat): Shape { Shape(np, 0, 0, 0, 0, 0, 0, false) }

  /** `e` is the variable that names `x` in the context. */
  ghost predicate Is(e: Term, s: Shape, x: Slot) { e.BVar? && e.i < |Layout(s)| && SlotAt(Layout(s), e.i) == x }

  /** Term by term the same, every variable naming the same binder. */
  ghost predicate Alike(a: seq<Term>, s: Shape, b: seq<Term>, t: Shape) {
    |a| == |b| && forall k :: 0 <= k < |a| ==> Same(a[k], Layout(s), b[k], Layout(t), 0)
  }

  ghost predicate BinderReads(b: Binder, s: Shape, c: Binder, t: Shape) {
    b.info == c.info && Same(b.typ, Layout(s), c.typ, Layout(t), 0)
  }

  lemma VariableIs(s: Shape, x: Slot)
    requires Has(s, x)
    ensures Is(V(Layout(s), x), s, x)
  {
    LayoutVar(s, x);
    LayoutOf(s, x);
    VarOfNames(Layout(s), x);
  }

  lemma VarOfNames(ctx: Ctx, x: Slot)
    requires x in ctx
    ensures VarOf(ctx, x) < |ctx| && SlotAt(ctx, VarOf(ctx, x)) == x
  {}

  lemma TransportAlike(es: seq<Term>, s: Shape, t: Shape)
    requires Below(s, t) && forall k :: 0 <= k < |es| ==> Loose(es[k]) <= Size(s)
    ensures Alike(TransportAll(es, Layout(s), Layout(t)), t, es, s)
  {
    forall k | 0 <= k < |es| ensures Same(Transport(es[k], Layout(s), Layout(t)), Layout(t), es[k], Layout(s), 0) {
      ReadsAlike(es[k], s, t);
    }
  }

  /** The fixed parameters of a member, read in a context, are its fixed parameters shifted there, and nothing else. */
  lemma FixedAlike(fixed: seq<Term>, np: nat, s: Shape, actual: seq<Term>)
    requires ParamsOnly(fixed, np) && s.params == np
    ensures Alike(actual, s, fixed, Given(np)) <==> actual == ShiftAll(fixed, Size(s) - np)
  {
    LayoutWithin(Given(np), s);
    LayoutDistinct(s);
    LayoutAt(Given(np));
    hide Layout, Same, Shift, Transport, Distinct, Contexts.Within;
    var shifted := ShiftAll(fixed, Size(s) - np);
    if |actual| == |fixed| {
      forall k | 0 <= k < |fixed|
        ensures Same(actual[k], Layout(s), fixed[k], Layout(Given(np)), 0) <==> actual[k] == shifted[k]
      {
        ParamShiftTransport(fixed[k], np, s);
        TransportExact(fixed[k], Layout(Given(np)), Layout(s), actual[k]);
      }
    }
  }

  // ------------------------------------------------- which member a type is of

  /** `e` is member `m` at its own levels, its own fixed parameters and `indices`. */
  ghost predicate Exactly(m: Member, np: nat, e: Term, s: Shape, indices: seq<Term>) {
    |indices| == m.numIndices
    && exists fixed ::
        e == Apps(Const(m.source, m.levels), fixed + indices) && Alike(fixed, s, m.fixedParams, Given(np))
  }

  ghost predicate AnyExactly(m: Member, np: nat, e: Term, s: Shape) { exists indices :: Exactly(m, np, e, s, indices) }

  /** `e` is member `m` at definitionally equal levels and fixed parameters. */
  ghost predicate UpToDefEq(g: Group, m: Member, e: Term, ctx: seq<Term>, s: Shape, indices: seq<Term>) {
    |indices| == m.numIndices
    && exists us, actual ::
        e == Apps(Const(m.source, us), actual + indices) && SameLevel(us, m.levels)
        && DefEqFixed(g, ctx, actual, s, m.fixedParams)
  }

  ghost predicate SameLevel(us: seq<L.Level>, vs: seq<L.Level>) {
    |us| == |vs| && forall k :: 0 <= k < |us| ==> L.IsDefEq(us[k], vs[k])
  }

  ghost predicate DefEqFixed(g: Group, ctx: seq<Term>, actual: seq<Term>, s: Shape, fixed: seq<Term>) {
    exists there :: Alike(there, s, fixed, Given(g.np)) && |actual| == |there|
                 && forall k :: 0 <= k < |actual| ==> g.defEq(ctx, actual[k], there[k])
  }

  ghost predicate AnyUpTo(g: Group, m: Member, e: Term, ctx: seq<Term>, s: Shape) {
    exists indices :: UpToDefEq(g, m, e, ctx, s, indices)
  }

  ghost predicate SomeExactly(g: Group, e: Term, s: Shape) {
    exists i :: 0 <= i < |g.members| && AnyExactly(g.members[i], g.np, e, s)
  }

  /** Member `k`, at `indices`, is the first one `e` is exactly; failing any, the first up to definitional equality. */
  ghost predicate TargetReads(g: Group, e: Term, ctx: seq<Term>, s: Shape, k: nat, indices: seq<Term>) {
    k < |g.members|
    && if SomeExactly(g, e, s) then
      Exactly(g.members[k], g.np, e, s, indices)
      && forall i :: 0 <= i < k ==> !AnyExactly(g.members[i], g.np, e, s)
    else
      UpToDefEq(g, g.members[k], e, ctx, s, indices)
      && forall i :: 0 <= i < k ==> !AnyUpTo(g, g.members[i], e, ctx, s)
  }

  lemma MatchExactly(m: Member, np: nat, e: Term, s: Shape, indices: seq<Term>)
    requires ParamsOnly(m.fixedParams, np) && s.params == np
    ensures MemberMatches(m, e, np, Size(s)) == Some(indices) <==> Exactly(m, np, e, s, indices)
  {
    hide MemberMatches, Alike, Apps;
    var fixed := ShiftAll(m.fixedParams, Size(s) - np);
    MemberAppExact(m, np, Size(s), e, indices);
    FixedAlike(m.fixedParams, np, s, fixed);
    if Exactly(m, np, e, s, indices) {
      var actual :| e == Apps(Const(m.source, m.levels), actual + indices)
        && Alike(actual, s, m.fixedParams, Given(np));
      FixedAlike(m.fixedParams, np, s, actual);
    }
  }

  lemma MatchAny(m: Member, np: nat, e: Term, s: Shape)
    requires ParamsOnly(m.fixedParams, np) && s.params == np
    ensures MemberMatches(m, e, np, Size(s)).Some? <==> AnyExactly(m, np, e, s)
  {
    hide MemberMatches, Exactly;
    var found := MemberMatches(m, e, np, Size(s));
    if found.Some? { MatchExactly(m, np, e, s, found.value); }
    if indices :| Exactly(m, np, e, s, indices) { MatchExactly(m, np, e, s, indices); }
  }

  lemma {:induction false} FindTargetFirst(members: seq<Member>, from: nat, e: Term, np: nat, depth: nat, k: nat,
                                           indices: seq<Term>)
    requires from <= |members|
    ensures FindTarget(members, from, e, np, depth) == Some((k, indices))
       <==> from <= k < |members| && MemberMatches(members[k], e, np, depth) == Some(indices)
            && forall i :: from <= i < k ==> MemberMatches(members[i], e, np, depth).None?
    ensures FindTarget(members, from, e, np, depth).None?
       <==> forall i :: from <= i < |members| ==> MemberMatches(members[i], e, np, depth).None?
    decreases |members| - from
  {
    hide MemberMatches;
    if from < |members| { FindTargetFirst(members, from + 1, e, np, depth, k, indices); }
  }

  /** The test one member is put to, up to definitional equality. */
  function MatchDefEq(g: Group, m: Member, e: Term, ctx: seq<Term>): Option<seq<Term>>
    requires g.np <= |ctx|
  {
    var (head, args) := UnfoldApps(e);
    if head.Const? && head.name == m.source && LevelsDefEq(head.us, m.levels)
       && |args| == |m.fixedParams| + m.numIndices
       && forall k :: 0 <= k < |m.fixedParams| ==> g.defEq(ctx, args[k], Shift(m.fixedParams[k], |ctx| - g.np, 0))
    then Some(args[|m.fixedParams|..]) else None
  }

  lemma {:induction false} FindDefEqFirst(g: Group, from: nat, e: Term, ctx: seq<Term>, k: nat, indices: seq<Term>)
    requires from <= |g.members| && g.np <= |ctx|
    ensures FindTargetDefEq(g, from, e, ctx) == Some((k, indices))
       <==> from <= k < |g.members| && MatchDefEq(g, g.members[k], e, ctx) == Some(indices)
            && forall i :: from <= i < k ==> MatchDefEq(g, g.members[i], e, ctx).None?
    ensures FindTargetDefEq(g, from, e, ctx).None?
       <==> forall i :: from <= i < |g.members| ==> MatchDefEq(g, g.members[i], e, ctx).None?
    decreases |g.members| - from
  {
    if from < |g.members| {
      var next := FindTargetDefEq(g, from, e, ctx);
      var here := MatchDefEq(g, g.members[from], e, ctx);
      assert next == if here.Some? then Some((from, here.value)) else FindTargetDefEq(g, from + 1, e, ctx);
      hide MatchDefEq, FindTargetDefEq;
      FindDefEqFirst(g, from + 1, e, ctx, k, indices);
    }
  }

  lemma MatchUpTo(g: Group, m: Member, e: Term, ctx: seq<Term>, s: Shape, indices: seq<Term>)
    requires ParamsOnly(m.fixedParams, g.np) && s.params == g.np && |ctx| == Size(s)
    ensures MatchDefEq(g, m, e, ctx) == Some(indices) <==> UpToDefEq(g, m, e, ctx, s, indices)
  {
    hide Alike, Shift, Apps, UnfoldApps, Given;
    var there := ShiftAll(m.fixedParams, |ctx| - g.np);
    FixedAlike(m.fixedParams, g.np, s, there);
    UnfoldThenApply(e);
    var (head, args) := UnfoldApps(e);
    var n := |m.fixedParams|;
    if MatchDefEq(g, m, e, ctx) == Some(indices) {
      assert args == args[..n] + indices;
      assert DefEqFixed(g, ctx, args[..n], s, m.fixedParams);
      assert e == Apps(Const(m.source, head.us), args[..n] + indices) && SameLevel(head.us, m.levels);
    }
    if UpToDefEq(g, m, e, ctx, s, indices) {
      var us, actual :| e == Apps(Const(m.source, us), actual + indices) && SameLevel(us, m.levels)
                        && DefEqFixed(g, ctx, actual, s, m.fixedParams);
      ApplyThenUnfold(Const(m.source, us), actual + indices);
      var at :| Alike(at, s, m.fixedParams, Given(g.np)) && |actual| == |at|
        && forall k :: 0 <= k < |actual| ==> g.defEq(ctx, actual[k], at[k]);
      FixedAlike(m.fixedParams, g.np, s, at);
      assert forall k :: 0 <= k < n ==> args[k] == actual[k];
      assert args[n..] == indices;
    }
  }

  lemma MatchAnyUpTo(g: Group, m: Member, e: Term, ctx: seq<Term>, s: Shape)
    requires ParamsOnly(m.fixedParams, g.np) && s.params == g.np && |ctx| == Size(s)
    ensures MatchDefEq(g, m, e, ctx).Some? <==> AnyUpTo(g, m, e, ctx, s)
  {
    hide MatchDefEq, UpToDefEq;
    var found := MatchDefEq(g, m, e, ctx);
    if found.Some? { MatchUpTo(g, m, e, ctx, s, found.value); }
    if indices :| UpToDefEq(g, m, e, ctx, s, indices) { MatchUpTo(g, m, e, ctx, s, indices); }
  }

  lemma ExactTarget(g: Group, e: Term, s: Shape, k: nat, indices: seq<Term>)
    requires WellScoped(g) && s.params == g.np
    ensures FindTarget(g.members, 0, e, g.np, Size(s)) == Some((k, indices))
       <==> k < |g.members| && Exactly(g.members[k], g.np, e, s, indices)
            && forall i :: 0 <= i < k ==> !AnyExactly(g.members[i], g.np, e, s)
    ensures FindTarget(g.members, 0, e, g.np, Size(s)).None? <==> !SomeExactly(g, e, s)
  {
    hide MemberMatches, Exactly, AnyExactly, FindTarget;
    FindTargetFirst(g.members, 0, e, g.np, Size(s), k, indices);
    forall i | 0 <= i < |g.members|
      ensures MemberMatches(g.members[i], e, g.np, Size(s)).Some? <==> AnyExactly(g.members[i], g.np, e, s)
    {
      assert WellScopedMember(g.members[i], g.np);
      MatchAny(g.members[i], g.np, e, s);
    }
    if k < |g.members| {
      assert WellScopedMember(g.members[k], g.np);
      MatchExactly(g.members[k], g.np, e, s, indices);
    }
  }

  lemma DefEqTarget(g: Group, e: Term, ctx: seq<Term>, s: Shape, k: nat, indices: seq<Term>)
    requires WellScoped(g) && s.params == g.np && |ctx| == Size(s)
    ensures FindTargetDefEq(g, 0, e, ctx) == Some((k, indices))
       <==> k < |g.members| && UpToDefEq(g, g.members[k], e, ctx, s, indices)
            && forall i :: 0 <= i < k ==> !AnyUpTo(g, g.members[i], e, ctx, s)
    ensures FindTargetDefEq(g, 0, e, ctx).None? <==> forall i :: 0 <= i < |g.members| ==>
              !AnyUpTo(g, g.members[i], e, ctx, s)
  {
    hide MatchDefEq, UpToDefEq, AnyUpTo, FindTargetDefEq;
    FindDefEqFirst(g, 0, e, ctx, k, indices);
    forall i | 0 <= i < |g.members|
      ensures MatchDefEq(g, g.members[i], e, ctx).Some? <==> AnyUpTo(g, g.members[i], e, ctx, s)
    {
      assert WellScopedMember(g.members[i], g.np);
      MatchAnyUpTo(g, g.members[i], e, ctx, s);
    }
    if k < |g.members| {
      assert WellScopedMember(g.members[k], g.np);
      MatchUpTo(g, g.members[k], e, ctx, s, indices);
    }
  }

  /** A type recognised as a member is recognised as exactly that one, at exactly those indices. */
  lemma TargetExact(g: Group, e: Term, ctx: seq<Term>, s: Shape, k: nat, indices: seq<Term>)
    requires WellScoped(g) && s.params == g.np && |ctx| == Size(s)
    ensures RecursiveTarget(g, e, ctx) == Some((k, indices)) <==> TargetReads(g, e, ctx, s, k, indices)
  {
    hide FindTarget, FindTargetDefEq, Exactly, AnyExactly, UpToDefEq, AnyUpTo, SomeExactly;
    ExactTarget(g, e, s, k, indices);
    DefEqTarget(g, e, ctx, s, k, indices);
    var exact := FindTarget(g.members, 0, e, g.np, |ctx|);
  }

  // ------------------------------------------------------------- hypotheses

  /** The motive of member `k` holds of `indices`, moved from `s` to `t`, and of `value`. */
  ghost predicate MotiveHolds(e: Term, t: Shape, k: nat, indices: seq<Term>, s: Shape, value: Term) {
    exists motive, over ::
      e == Apps(motive, over + [value]) && Is(motive, t, Motive(k)) && Alike(over, t, indices, s)
  }

  /** Field `j` applied to the arguments, in order. */
  ghost predicate FieldApplied(e: Term, t: Shape, j: nat) {
    exists field, vars ::
      e == Apps(field, vars) && Is(field, t, Field(j)) && |vars| == t.args
      && forall a :: 0 <= a < |vars| ==> Is(vars[a], t, Arg(a))
  }

  /** Where field `j`'s own telescope ends: parameters, earlier fields, its arguments. */
  function FieldShape(np: nat, fields: seq<Binder>, j: nat): Shape
    requires j < |fields|
  {
    Shape(np, 0, 0, j, 0, |Domains(fields[j].typ)|, 0, false)
  }

  function FieldContext(paramTypes: seq<Term>, fields: seq<Binder>, j: nat): seq<Term>
    requires j < |fields|
  {
    paramTypes + Types(fields[..j]) + Types(Domains(fields[j].typ))
  }

  /** What field `j` ends in is member `k` at `indices`. */
  ghost predicate FieldOf(g: Group, paramTypes: seq<Term>, fields: seq<Binder>, j: nat, k: nat, indices: seq<Term>)
    requires j < |fields|
  {
    TargetReads(g, Core(fields[j].typ), FieldContext(paramTypes, fields, j), FieldShape(g.np, fields, j), k, indices)
  }

  ghost predicate Recursive(g: Group, paramTypes: seq<Term>, fields: seq<Binder>, j: nat)
    requires j < |fields|
  {
    exists k, indices :: FieldOf(g, paramTypes, fields, j, k, indices)
  }

  /** For all arguments of the field, the motive of member `k` holds of `indices` and of the field applied to them. */
  ghost predicate HypSays(np: nat, nm: nat, nk: nat, nh: nat, fields: seq<Binder>, j: nat, k: nat, indices: seq<Term>,
                          b: Binder)
    requires j < |fields|
  {
    var args, na := Domains(fields[j].typ), |Domains(fields[j].typ)|;
    var t := Shape(np, nm, nk, |fields|, nh, na, 0, false);
    b.info == Default && |Domains(b.typ)| == na
    && (forall a :: 0 <= a < na ==>
        BinderReads(Domains(b.typ)[a], Shape(np, nm, nk, |fields|, nh, a, 0, false), args[a],
                                               Shape(np, 0, 0, j, 0, a, 0, false)))
    && exists value ::
        FieldApplied(value, t, j) && MotiveHolds(Core(b.typ), t, k, indices, FieldShape(np, fields, j), value)
  }

  /** `b` is the hypothesis of field `j`, and its motive is that of the member the field's values are of. */
  ghost predicate HypReads(g: Group, paramTypes: seq<Term>, fields: seq<Binder>, j: nat, nk: nat, nh: nat, b: Binder)
    requires j < |fields|
  {
    exists k, indices ::
      FieldOf(g, paramTypes, fields, j, k, indices)
      && HypSays(g.np, |g.members|, nk, nh, fields, j, k, indices, b)
  }

  lemma NotPiApps(f: Term, args: seq<Term>)
    requires !f.Pi?
    ensures Domains(Apps(f, args)) == [] && Core(Apps(f, args)) == Apps(f, args)
    decreases |args|
  {
    if args != [] { NotPiApps(App(f, args[0]), args[1..]); }
  }

  lemma HypTypeSays(np: nat, nm: nat, nk: nat, nh: nat, fields: seq<Binder>, j: nat, k: nat, indices: seq<Term>)
    requires j < |fields| && k < nm && Loose(fields[j].typ) <= np + j
    requires forall i :: 0 <= i < |indices| ==> Loose(indices[i]) <= np + j + |Domains(fields[j].typ)|
    ensures HypSays(np, nm, nk, nh, fields, j, k, indices,
                    Binder(Default, HypType(np, nm, nk, |fields|, nh, j, Domains(fields[j].typ), k, indices)))
  {
    hide Loose, Layout, Transport, Same, Domains, Core, Is, Alike;
    var args, nf := Domains(fields[j].typ), |fields|;
    var na := |args|;
    var s, t := FieldShape(np, fields, j), Shape(np, nm, nk, nf, nh, na, 0, false);
    var motive, over := V(Layout(t), Motive(k)), TransportAll(indices, Layout(s), Layout(t));
    var field, vars := V(Layout(t), Field(j)), ArgVars(Layout(t), na);
    VariableIs(t, Motive(k));
    VariableIs(t, Field(j));
    forall a | 0 <= a < na ensures Is(vars[a], t, Arg(a)) { VariableIs(t, Arg(a)); }
    TransportAlike(indices, s, t);
    assert FieldApplied(Apps(field, vars), t, j);
    var core := Apps(motive, over + [Apps(field, vars)]);
    assert MotiveHolds(core, t, k, indices, s, Apps(field, vars));
    ArgsRead(np, nm, nk, j, nf, nh, fields[j].typ);
    var binders := ArgBinders(np, nm, nk, j, nf, nh, args);
    CloseOpens(binders, core);
    NotPiApps(motive, over + [Apps(field, vars)]);
    assert binders + [] == binders;
  }

  lemma ArgsRead(np: nat, nm: nat, nk: nat, j: nat, nf: nat, nh: nat, typ: Term)
    requires j <= nf && Loose(typ) <= np + j
    ensures forall a :: 0 <= a < |Domains(typ)| ==>
              BinderReads(ArgBinders(np, nm, nk, j, nf, nh, Domains(typ))[a], Shape(np, nm, nk, nf, nh, a, 0, false),
                          Domains(typ)[a], Shape(np, 0, 0, j, 0, a, 0, false))
  {
    hide Layout, Transport, Same, Domains, Core, Loose;
    DomainsScoped(typ, np + j);
    forall a | 0 <= a < |Domains(typ)|
      ensures BinderReads(ArgBinders(np, nm, nk, j, nf, nh, Domains(typ))[a], Shape(np, nm, nk, nf, nh, a, 0, false),
                          Domains(typ)[a], Shape(np, 0, 0, j, 0, a, 0, false))
    {
      ReadsAlike(Domains(typ)[a].typ, Shape(np, 0, 0, j, 0, a, 0, false), Shape(np, nm, nk, nf, nh, a, 0, false));
    }
  }

  /** A field contributes a hypothesis exactly when it ends in a member, and then the one whose motive is that
      member's, at the field's indices and value. Otherwise it is rejected exactly when a member occurs in it. */
  lemma HypothesisReads(g: Group, paramTypes: seq<Term>, fields: seq<Binder>, j: nat, nk: nat, nh: nat)
    requires WellScoped(g) && j < |fields| && |paramTypes| == g.np && Loose(fields[j].typ) <= g.np + j
    ensures var r := SpecHyp(g, paramTypes, fields, j, nk, nh);
            (r.Ok? && r.value.Some? <==> Recursive(g, paramTypes, fields, j))
            && (r.Ok? && r.value.Some? ==> HypReads(g, paramTypes, fields, j, nk, nh, r.value.value))
            && (r.Err? <==>
                !Recursive(g, paramTypes, fields, j)
                && ContainsMember(g, Core(fields[j].typ), j + |Domains(fields[j].typ)|))
  {
    hide WellScoped, HypType, HypSays, Loose, RecursiveTarget, TargetReads, Domains, Core, ContainsMember, Types;
    var args, core := Domains(fields[j].typ), Core(fields[j].typ);
    var ctx := FieldContext(paramTypes, fields, j);
    var s := FieldShape(g.np, fields, j);
    var target := RecursiveTarget(g, core, ctx);
    DomainsScoped(fields[j].typ, g.np + j);
    RecursiveTargetScoped(g, core, ctx);
    forall k: nat, indices ensures target == Some((k, indices)) <==> FieldOf(g, paramTypes, fields, j, k, indices) {
      TargetExact(g, core, ctx, s, k, indices);
    }
    if target.Some? {
      var (k, indices) := target.value;
      assert FieldOf(g, paramTypes, fields, j, k, indices);
      HypTypeSays(g.np, |g.members|, nk, nh, fields, j, k, indices);
    }
  }

  // ------------------------------------------------------------ minor premises

  /** `rec` lists the recursive ones among the first `upTo` fields, in order. */
  ghost predicate RecursiveFields(g: Group, paramTypes: seq<Term>, fields: seq<Binder>, upTo: nat, rec: seq<nat>)
    requires upTo <= |fields|
  {
    (forall h, i :: 0 <= h < i < |rec| ==> rec[h] < rec[i])
    && (forall h :: 0 <= h < |rec| ==> rec[h] < upTo)
    && forall j :: 0 <= j < upTo ==> (j in rec <==> Recursive(g, paramTypes, fields, j))
  }

  ghost predicate HypsRead(g: Group, paramTypes: seq<Term>, fields: seq<Binder>, nk: nat, rec: seq<nat>,
                           hyps: seq<Binder>)
  {
    |hyps| == |rec|
    && forall h :: 0 <= h < |rec| ==> rec[h] < |fields| && HypReads(g, paramTypes, fields, rec[h], nk, h, hyps[h])
  }

  /** Field `j` ends in a member or has none in what it ends in. */
  ghost predicate FieldFits(g: Group, paramTypes: seq<Term>, fields: seq<Binder>, j: nat)
    requires j < |fields|
  {
    Recursive(g, paramTypes, fields, j) || !ContainsMember(g, Core(fields[j].typ), j + |Domains(fields[j].typ)|)
  }

  lemma {:induction false} HypothesesRead(g: Group, paramTypes: seq<Term>, fields: seq<Binder>, upTo: nat, nk: nat)
    returns (rec: seq<nat>)
    requires WellScoped(g) && upTo <= |fields| && |paramTypes| == g.np && TelescopeIn(fields, g.np)
    ensures var r := SpecHyps(g, paramTypes, fields, upTo, nk);
            (r.Ok? <==> forall j :: 0 <= j < upTo ==> FieldFits(g, paramTypes, fields, j))
            && (r.Ok? ==>
                RecursiveFields(g, paramTypes, fields, upTo, rec)
                && HypsRead(g, paramTypes, fields, nk, rec, r.value))
  {
    hide WellScoped, SpecHyp, HypReads, Recursive, Loose, ContainsMember, Domains, Core;
    rec := [];
    if upTo > 0 {
      rec := HypothesesRead(g, paramTypes, fields, upTo - 1, nk);
      var before := SpecHyps(g, paramTypes, fields, upTo - 1, nk);
      if before.Ok? {
        HypothesisReads(g, paramTypes, fields, upTo - 1, nk, |before.value|);
        if Recursive(g, paramTypes, fields, upTo - 1) { rec := rec + [upTo - 1]; }
      }
      assert SpecHyps(g, paramTypes, fields, upTo, nk).Ok?
        <==> before.Ok? && FieldFits(g, paramTypes, fields, upTo - 1);
      hide FieldFits;
      assert (forall j :: 0 <= j < upTo ==> FieldFits(g, paramTypes, fields, j))
        <==> (forall j :: 0 <= j < upTo - 1 ==> FieldFits(g, paramTypes, fields, j))
             && FieldFits(g, paramTypes, fields, upTo - 1);
    }
  }

  /** The constructor at the owner's fixed parameters and the fields. */
  ghost predicate MadeBy(owner: Member, ctor: Ctor, np: nat, t: Shape, e: Term) {
    exists fixed, vars ::
      e == Apps(Const(ctor.name, ctor.levels), fixed + vars) && Alike(fixed, t, owner.fixedParams, Given(np))
      && |vars| == t.fields && forall j :: 0 <= j < |vars| ==> Is(vars[j], t, Field(j))
  }

  /** The constructor ends in its owner, at `indices`, and in no member before it. */
  ghost predicate EndsIn(g: Group, owner: nat, e: Term, s: Shape, indices: seq<Term>) {
    owner < |g.members| && Exactly(g.members[owner], g.np, e, s, indices)
    && forall i :: 0 <= i < owner ==> !AnyExactly(g.members[i], g.np, e, s)
  }

  function Underneath(np: nat, n: nat): Shape { Shape(np, 0, 0, n, 0, 0, 0, false) }

  /** For all fields, read as declared, and all their hypotheses, the owner's motive holds of what is made. */
  ghost predicate MinorSays(g: Group, owner: nat, ctor: Ctor, paramTypes: seq<Term>, rest: Term, nk: nat, typ: Term,
                            rec: seq<nat>,
                            indices: seq<Term>)
    requires owner < |g.members|
  {
    var fields, nm := Domains(rest), |g.members|;
    var nf := |fields|;
    var t := Shape(g.np, nm, nk, nf, |rec|, 0, 0, false);
    RecursiveFields(g, paramTypes, fields, nf, rec) && |Domains(typ)| == nf + |rec|
    && (forall j :: 0 <= j < nf ==>
        BinderReads(Domains(typ)[j], Shape(g.np, nm, nk, j, 0, 0, 0, false), fields[j], Underneath(g.np, j)))
    && HypsRead(g, paramTypes, fields, nk, rec, Domains(typ)[nf..])
    && EndsIn(g, owner, Core(rest), Underneath(g.np, nf), indices)
    && exists value ::
        MadeBy(g.members[owner], ctor, g.np, t, value)
        && MotiveHolds(Core(typ), t, owner, indices, Underneath(g.np, nf), value)
  }

  /** `typ` is the minor premise of a constructor of member `owner`, with `nk` minors before it. */
  ghost predicate MinorReads(g: Group, owner: nat, ctor: Ctor, nk: nat, typ: Term)
    requires owner < |g.members|
  {
    HasPis(ctor.typ, g.np) && g.np <= |Domains(ctor.typ)|
    && exists rec, indices ::
        MinorSays(g, owner, ctor, Types(Domains(ctor.typ)[..g.np]), Peel(ctor.typ, g.np), nk, typ, rec, indices)
  }

  /** The constructor has the parameters, ends in its owner, and every field fits. */
  ghost predicate CtorFits(g: Group, owner: nat, ctor: Ctor) {
    HasPis(ctor.typ, g.np) && g.np <= |Domains(ctor.typ)|
    && (var paramTypes, rest := Types(Domains(ctor.typ)[..g.np]), Peel(ctor.typ, g.np);
        var fields := Domains(rest);
        (exists indices :: EndsIn(g, owner, Core(rest), Underneath(g.np, |fields|), indices))
        && forall j :: 0 <= j < |fields| ==> FieldFits(g, paramTypes, fields, j))
  }

  lemma FieldsRead(np: nat, nm: nat, nk: nat, fields: seq<Binder>)
    requires TelescopeIn(fields, np)
    ensures forall j :: 0 <= j < |fields| ==>
              BinderReads(FieldBinders(np, nm, nk, fields)[j], Shape(np, nm, nk, j, 0, 0, 0, false), fields[j],
                          Underneath(np, j))
  {
    hide Layout, Transport, Same, Loose;
    forall j | 0 <= j < |fields|
      ensures BinderReads(FieldBinders(np, nm, nk, fields)[j], Shape(np, nm, nk, j, 0, 0, 0, false), fields[j],
                          Underneath(np, j))
    {
      ReadsAlike(fields[j].typ, Underneath(np, j), Shape(np, nm, nk, j, 0, 0, 0, false));
    }
  }

  lemma ResultSays(owner: Member, ownerPos: nat, ctor: Ctor, np: nat, nm: nat, nk: nat, nf: nat, nh: nat,
                   indices: seq<Term>)
    requires ownerPos < nm && ParamsOnly(owner.fixedParams, np)
    requires forall i :: 0 <= i < |indices| ==> Loose(indices[i]) <= np + nf
    ensures var t := Shape(np, nm, nk, nf, nh, 0, 0, false);
            var e := MinorResult(owner, ownerPos, ctor, np, nm, nk, nf, nh, indices);
            Domains(e) == [] && Core(e) == e
            && exists value ::
                MadeBy(owner, ctor, np, t, value) && MotiveHolds(e, t, ownerPos, indices, Underneath(np, nf), value)
  {
    hide Loose, Layout, Transport, Same, Domains, Core, Is, Alike;
    var t := Shape(np, nm, nk, nf, nh, 0, 0, false);
    var fixed, vars := TransportAll(owner.fixedParams, Layout(Given(np)), Layout(t)), FieldVars(Layout(t), nf);
    var over := TransportAll(indices, Layout(Underneath(np, nf)), Layout(t));
    var value := Apps(Const(ctor.name, ctor.levels), fixed + vars);
    TransportAlike(owner.fixedParams, Given(np), t);
    TransportAlike(indices, Underneath(np, nf), t);
    forall j | 0 <= j < nf ensures Is(vars[j], t, Field(j)) { VariableIs(t, Field(j)); }
    VariableIs(t, Motive(ownerPos));
    assert MadeBy(owner, ctor, np, t, value);
    assert MotiveHolds(Apps(V(Layout(t), Motive(ownerPos)), over + [value]), t, ownerPos, indices, Underneath(np, nf),
                       value);
    NotPiApps(V(Layout(t), Motive(ownerPos)), over + [value]);
  }

  /** A minor premise is built exactly when the constructor fits, and then says of the constructor what it should. */
  lemma MinorPremiseReads(g: Group, owner: nat, ctor: Ctor, nk: nat)
    requires WellScoped(g) && owner < |g.members| && Loose(ctor.typ) == 0
    ensures var r := SpecMinor(g, owner, ctor, nk);
            (r.Ok? <==> CtorFits(g, owner, ctor)) && (r.Ok? ==> MinorReads(g, owner, ctor, nk, r.value))
  {
    hide WellScoped, MinorUnder, MinorSays, FieldFits, EndsIn, Loose, Domains, Core;
    if HasPis(ctor.typ, g.np) {
      HasPisDomains(ctor.typ, g.np);
      PeelScoped(ctor.typ, g.np, 0);
      var rec, indices := UnderReads(g, owner, ctor, Types(Domains(ctor.typ)[..g.np]), Peel(ctor.typ, g.np), nk);
    }
  }

  lemma UnderReads(g: Group, owner: nat, ctor: Ctor, paramTypes: seq<Term>, rest: Term, nk: nat)
    returns (rec: seq<nat>, indices: seq<Term>)
    requires WellScoped(g) && owner < |g.members| && |paramTypes| == g.np && Loose(rest) <= g.np
    ensures var r := MinorUnder(g, owner, ctor, paramTypes, rest, nk);
            (r.Ok? <==>
             (exists indices :: EndsIn(g, owner, Core(rest), Underneath(g.np, |Domains(rest)|), indices))
             && forall j :: 0 <= j < |Domains(rest)| ==> FieldFits(g, paramTypes, Domains(rest), j))
            && (r.Ok? ==> MinorSays(g, owner, ctor, paramTypes, rest, nk, r.value, rec, indices))
  {
    hide WellScoped, FieldFits, Loose, Domains, Core, FindTarget, SpecHyps, FieldBinders, MinorResult, RecursiveFields,
         HypsRead, MadeBy, MotiveHolds, BinderReads, Exactly, AnyExactly;
    var fields, core, nm := Domains(rest), Core(rest), |g.members|;
    var s := Underneath(g.np, |fields|);
    DomainsScoped(rest, g.np);
    var target := FindTarget(g.members, 0, core, g.np, g.np + |fields|);
    forall found ensures target == Some((owner, found)) <==> EndsIn(g, owner, core, s, found) {
      ExactTarget(g, core, s, owner, found);
    }
    rec := HypothesesRead(g, paramTypes, fields, |fields|, nk);
    indices := [];
    var r := MinorUnder(g, owner, ctor, paramTypes, rest, nk);
    if target.Some? && target.value.0 == owner {
      indices := target.value.1;
      assert EndsIn(g, owner, core, s, indices);
    }
    if r.Ok? {
      FindTargetScoped(g.members, 0, core, g.np, g.np + |fields|);
      var hyps := SpecHyps(g, paramTypes, fields, |fields|, nk).value;
      TelescopeSays(g, owner, ctor, paramTypes, rest, nk, rec, indices, hyps);
    }
  }

  lemma TelescopeSays(g: Group, owner: nat, ctor: Ctor, paramTypes: seq<Term>, rest: Term, nk: nat, rec: seq<nat>,
                      indices: seq<Term>,
                      hyps: seq<Binder>)
    requires WellScoped(g) && owner < |g.members| && TelescopeIn(Domains(rest), g.np)
    requires RecursiveFields(g, paramTypes, Domains(rest), |Domains(rest)|, rec)
    requires HypsRead(g, paramTypes, Domains(rest), nk, rec, hyps)
    requires EndsIn(g, owner, Core(rest), Underneath(g.np, |Domains(rest)|), indices)
    requires forall i :: 0 <= i < |indices| ==> Loose(indices[i]) <= g.np + |Domains(rest)|
    ensures MinorSays(g, owner, ctor, paramTypes, rest, nk,
                      Close(FieldBinders(g.np, |g.members|, nk, Domains(rest)) + hyps,
                            MinorResult(g.members[owner], owner, ctor, g.np, |g.members|, nk, |Domains(rest)|, |hyps|,
                                        indices)),
                      rec, indices)
  {
    hide Loose, Domains, Core, MinorResult, RecursiveFields, HypReads, MadeBy, MotiveHolds, BinderReads, EndsIn, Close,
         FieldBinders;
    var fields, nm := Domains(rest), |g.members|;
    var nf := |fields|;
    assert WellScopedMember(g.members[owner], g.np);
    FieldsRead(g.np, nm, nk, fields);
    ResultSays(g.members[owner], owner, ctor, g.np, nm, nk, nf, |hyps|, indices);
    var local, result := FieldBinders(g.np, nm, nk, fields),
                         MinorResult(g.members[owner], owner, ctor, g.np, nm, nk, nf, |hyps|, indices);
    FieldBindersSize(g.np, nm, nk, fields);
    CloseOpens(local + hyps, result);
    assert (local + hyps) + [] == local + hyps;
    assert (local + hyps)[nf..] == hyps;
  }

  lemma FieldBindersSize(np: nat, nm: nat, nk: nat, fields: seq<Binder>)
    ensures |FieldBinders(np, nm, nk, fields)| == |fields|
  {}
}
