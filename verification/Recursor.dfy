/**
 Recursor types. The builders work on de Bruijn indices and shifts; what they build
 is stated with named contexts: `SpecMinor` and `SpecRecursor` never compute an index.
 */
module Recursor {
  import opened Terms
  import opened Contexts
  import L = Levels

  datatype Binder = Binder(info: BinderInfo, typ: Term)
  datatype Ctor = Ctor(name: nat, levels: seq<L.Level>, typ: Term)
  datatype Member = Member(source: nat, levels: seq<L.Level>, fixedParams: seq<Term>, typ: Term, numIndices: nat,
                           ctors: seq<Ctor>)

  datatype Error = NotPi | OutsideGroup | WrongOwner | InexactField | WrongArity | LocalParameters | Underflow
  datatype Result<+T> = Ok(value: T) | Err(error: Error)

  /** Definitional equality in a context is not part of this model; everything below holds for any answer it gives. */
  type DefEq = (seq<Term>, Term, Term) -> bool

  /** A mutual group, nested members included: the declared names, the members and the shared parameter count. */
  datatype Group = Group(names: seq<nat>, members: seq<Member>, np: nat, defEq: DefEq)

  // ------------------------------------------------------------- telescopes

  function Close(binders: seq<Binder>, result: Term): Term {
    if binders == [] then result
    else Pi(binders[0].info, binders[0].typ, Close(binders[1..], result))
  }

  /** A closed telescope opens into its binders, in order, and its body. */
  lemma {:induction false} CloseOpens(binders: seq<Binder>, result: Term)
    ensures Domains(Close(binders, result)) == binders + Domains(result)
    ensures Core(Close(binders, result)) == Core(result)
    decreases |binders|
  {
    if binders != [] {
      CloseOpens(binders[1..], result);
      assert binders == [Binder(binders[0].info, binders[0].typ)] + binders[1..];
    }
  }

  method CloseRecTelescope(binders: seq<Binder>, body: Term) returns (r: Term)
    ensures r == Close(binders, body)
  {
    r := body;
    for k := |binders| downto 0
      invariant r == Close(binders[k..], body)
    {
      r := Pi(binders[k].info, binders[k].typ, r);
    }
  }

  function Apps(f: Term, args: seq<Term>): Term
    decreases |args|
  {
    if args == [] then f else Apps(App(f, args[0]), args[1..])
  }

  function UnfoldApps(e: Term): (Term, seq<Term>) {
    if e.App? then (UnfoldApps(e.f).0, UnfoldApps(e.f).1 + [e.x]) else (e, [])
  }

  lemma {:induction false} AppsSnoc(f: Term, args: seq<Term>, a: Term)
    ensures Apps(f, args + [a]) == App(Apps(f, args), a)
    decreases |args|
  {
    if args == [] {
      assert [a][1..] == [];
    } else {
      assert (args + [a])[1..] == args[1..] + [a];
      AppsSnoc(App(f, args[0]), args[1..], a);
    }
  }

  /** Applying the parts of a decomposed application gives it back. */
  lemma {:induction false} UnfoldThenApply(e: Term)
    ensures Apps(UnfoldApps(e).0, UnfoldApps(e).1) == e && !UnfoldApps(e).0.App?
  {
    if e.App? {
      UnfoldThenApply(e.f);
      AppsSnoc(UnfoldApps(e.f).0, UnfoldApps(e.f).1, e.x);
    }
  }

  /** And decomposing what was applied gives the parts back. */
  lemma {:induction false} ApplyThenUnfold(h: Term, args: seq<Term>)
    requires !h.App?
    ensures UnfoldApps(Apps(h, args)) == (h, args)
    decreases |args|
  {
    if args != [] {
      var init, last := args[..|args| - 1], args[|args| - 1];
      assert args == init + [last];
      AppsSnoc(h, init, last);
      ApplyThenUnfold(h, init);
    }
  }

  method UnfoldAppsLoop(e: Term) returns (head: Term, args: seq<Term>)
    ensures (head, args) == UnfoldApps(e)
  {
    head := e;
    var reversed: seq<Term> := [];
    ghost var all := UnfoldApps(e).1;
    assert all + Reverse(reversed) == all;
    while head.App?
      invariant UnfoldApps(e) == (UnfoldApps(head).0, UnfoldApps(head).1 + Reverse(reversed))
      decreases head
    {
      assert Reverse(reversed + [head.x]) == [head.x] + Reverse(reversed);
      assert UnfoldApps(head).1 + Reverse(reversed) == UnfoldApps(head.f).1 + Reverse(reversed + [head.x]);
      reversed := reversed + [head.x];
      head := head.f;
    }
    args := Reverse(reversed);
    assert UnfoldApps(head).1 == [];
    assert [] + args == args;
  }

  /** The binders of the leading Pis of `e`, and what stands under all of them. */
  function Domains(e: Term): seq<Binder> {
    if e.Pi? then [Binder(e.bi, e.ty)] + Domains(e.body) else []
  }

  function Core(e: Term): Term { if e.Pi? then Core(e.body) else e }

  function Types(bs: seq<Binder>): (r: seq<Term>)
    ensures |r| == |bs| && forall k :: 0 <= k < |bs| ==> r[k] == bs[k].typ
  {
    seq(|bs|, k requires 0 <= k < |bs| => bs[k].typ)
  }

  lemma {:induction false} HasPisDomains(e: Term, n: nat)
    requires HasPis(e, n)
    ensures n <= |Domains(e)| && Domains(e) == Domains(e)[..n] + Domains(Peel(e, n))
    ensures Core(Peel(e, n)) == Core(e)
  {
    if n > 0 {
      HasPisDomains(e.body, n - 1);
      assert Domains(e)[..n] == [Binder(e.bi, e.ty)] + Domains(e.body)[..n - 1];
    }
  }

  /** Peels `n` binders, or fails when there are fewer. */
  method PeelPis(e: Term, n: nat) returns (r: Result<(seq<Binder>, Term)>)
    ensures r == if HasPis(e, n) then (HasPisDomains(e, n); Ok((Domains(e)[..n], Peel(e, n)))) else Err(NotPi)
  {
    var cur, doms := e, [];
    for k := 0 to n
      invariant HasPis(e, n) <==> HasPis(cur, n - k)
      invariant |doms| == k && Domains(e) == doms + Domains(cur)
      invariant HasPis(cur, n - k) ==> Peel(e, n) == Peel(cur, n - k)
    {
      if !cur.Pi? { return Err(NotPi); }
      doms := doms + [Binder(cur.bi, cur.ty)];
      cur := cur.body;
    }
    r := Ok((doms, cur));
  }

  // --------------------------------------------------------- scoping of terms

  lemma {:induction false} DomainsScoped(e: Term, n: nat)
    requires Loose(e) <= n
    ensures forall k :: 0 <= k < |Domains(e)| ==> Loose(Domains(e)[k].typ) <= n + k
    ensures Loose(Core(e)) <= n + |Domains(e)|
  {
    if e.Pi? {
      DomainsScoped(e.body, n + 1);
      forall k | 0 <= k < |Domains(e)| ensures Loose(Domains(e)[k].typ) <= n + k {
        if k > 0 { assert Domains(e)[k] == Domains(e.body)[k - 1]; }
      }
    }
  }

  lemma {:induction false} PeelScoped(e: Term, k: nat, n: nat)
    requires HasPis(e, k) && Loose(e) <= n
    ensures Loose(Peel(e, k)) <= n + k
  {
    if k > 0 { PeelScoped(e.body, k - 1, n + 1); }
  }

  lemma {:induction false} UnfoldScoped(e: Term)
    ensures forall k :: 0 <= k < |UnfoldApps(e).1| ==> Loose(UnfoldApps(e).1[k]) <= Loose(e)
  {
    if e.App? { UnfoldScoped(e.f); }
  }

  lemma {:induction false} AppsScoped(f: Term, args: seq<Term>, n: nat)
    requires Loose(f) <= n && forall k :: 0 <= k < |args| ==> Loose(args[k]) <= n
    ensures Loose(Apps(f, args)) <= n
    decreases |args|
  {
    if args != [] { AppsScoped(App(f, args[0]), args[1..], n); }
  }

  /** Each binder's type lives in the context of the binders before it. */
  ghost predicate TelescopeIn(binders: seq<Binder>, base: nat) {
    forall k :: 0 <= k < |binders| ==> Loose(binders[k].typ) <= base + k
  }

  lemma {:induction false} CloseScoped(binders: seq<Binder>, body: Term, base: nat)
    requires TelescopeIn(binders, base) && Loose(body) <= base + |binders|
    ensures Loose(Close(binders, body)) <= base
    decreases |binders|
  {
    if binders != [] {
      forall k | 0 <= k < |binders| - 1 ensures Loose(binders[1..][k].typ) <= base + 1 + k {
        assert binders[1..][k] == binders[k + 1];
      }
      CloseScoped(binders[1..], body, base + 1);
    }
  }

  lemma {:induction false} CloseHasPis(binders: seq<Binder>, body: Term)
    ensures HasPis(Close(binders, body), |binders|) && Peel(Close(binders, body), |binders|) == body
    decreases |binders|
  {
    if binders != [] { CloseHasPis(binders[1..], body); }
  }

  // ------------------------------------------------- recognising group members

  function PrefixMatches(m: Member, e: Term, np: nat, depth: nat): Option<seq<Term>> {
    var (head, args) := UnfoldApps(e);
    if !head.Const? || head.name != m.source || head.us != m.levels || |args| < |m.fixedParams| || depth < np then None
    else if forall k :: 0 <= k < |m.fixedParams| ==> args[k] == Shift(m.fixedParams[k], depth - np, 0) then
      Some(args[|m.fixedParams|..])
    else None
  }

  function MemberMatches(m: Member, e: Term, np: nat, depth: nat): Option<seq<Term>> {
    var indices := PrefixMatches(m, e, np, depth);
    if indices.Some? && |indices.value| == m.numIndices then indices else None
  }

  /** The first member, from position `from`, that `e` is an exact application of. */
  function FindTarget(members: seq<Member>, from: nat, e: Term, np: nat, depth: nat): Option<(nat, seq<Term>)>
    requires from <= |members|
    decreases |members| - from
  {
    if from == |members| then None
    else
      var found := MemberMatches(members[from], e, np, depth);
      if found.Some? then Some((from, found.value)) else FindTarget(members, from + 1, e, np, depth)
  }

  function ShiftAll(es: seq<Term>, amount: int): seq<Term> {
    seq(|es|, k requires 0 <= k < |es| => Shift(es[k], amount, 0))
  }

  function MemberApp(m: Member, np: nat, depth: nat, indices: seq<Term>): Term
    requires np <= depth
  {
    Apps(Const(m.source, m.levels), ShiftAll(m.fixedParams, depth - np) + indices)
  }

  /** What is recognised as a member is exactly what is built for it: the builder and the matcher are inverse. */
  lemma MemberAppExact(m: Member, np: nat, depth: nat, e: Term, indices: seq<Term>)
    requires np <= depth
    ensures MemberMatches(m, e, np, depth) == Some(indices)
       <==> |indices| == m.numIndices && e == MemberApp(m, np, depth, indices)
  {
    var fixed := ShiftAll(m.fixedParams, depth - np);
    hide Shift;
    if e == MemberApp(m, np, depth, indices) {
      ApplyThenUnfold(Const(m.source, m.levels), fixed + indices);
      assert (fixed + indices)[|fixed|..] == indices;
    }
    if MemberMatches(m, e, np, depth) == Some(indices) {
      UnfoldThenApply(e);
      var args := UnfoldApps(e).1;
      assert args == args[..|fixed|] + args[|fixed|..];
      assert args[..|fixed|] == fixed;
    }
  }

  predicate LevelsDefEq(a: seq<L.Level>, b: seq<L.Level>) {
    |a| == |b| && forall k :: 0 <= k < |a| ==> L.IsDefEq(a[k], b[k])
  }

  function FindTargetDefEq(g: Group, from: nat, e: Term, ctx: seq<Term>): Option<(nat, seq<Term>)>
    requires from <= |g.members| && g.np <= |ctx|
    decreases |g.members| - from
  {
    if from == |g.members| then None
    else
      var m := g.members[from];
      var (head, args) := UnfoldApps(e);
      if head.Const? && head.name == m.source && LevelsDefEq(head.us, m.levels)
         && |args| == |m.fixedParams| + m.numIndices
         && forall k :: 0 <= k < |m.fixedParams| ==> g.defEq(ctx, args[k], Shift(m.fixedParams[k], |ctx| - g.np, 0))
      then Some((from, args[|m.fixedParams|..]))
      else FindTargetDefEq(g, from + 1, e, ctx)
  }

  function RecursiveTarget(g: Group, e: Term, ctx: seq<Term>): Option<(nat, seq<Term>)>
    requires g.np <= |ctx|
  {
    var exact := FindTarget(g.members, 0, e, g.np, |ctx|);
    if exact.Some? then exact else FindTargetDefEq(g, 0, e, ctx)
  }

  predicate ContainsMember(g: Group, e: Term, depth: nat) {
    (e.Const? && e.name in g.names)
    || (exists k :: 0 <= k < |g.members| && PrefixMatches(g.members[k], e, g.np, g.np + depth).Some?)
    || match e
       case BVar(_) => false
       case Sort(_) => false
       case Const(_, _) => false
       case Lit(_) => false
       case App(f, x) => ContainsMember(g, f, depth) || ContainsMember(g, x, depth)
       case Lam(_, ty, body) => ContainsMember(g, ty, depth) || ContainsMember(g, body, depth + 1)
       case Pi(_, ty, body) => ContainsMember(g, ty, depth) || ContainsMember(g, body, depth + 1)
       case Let(ty, val, body) =>
         ContainsMember(g, ty, depth) || ContainsMember(g, val, depth) || ContainsMember(g, body, depth + 1)
       case Proj(_, _, v) => ContainsMember(g, v, depth)
  }

  lemma {:induction false} FindTargetScoped(members: seq<Member>, from: nat, e: Term, np: nat, depth: nat)
    requires from <= |members|
    ensures var r := FindTarget(members, from, e, np, depth);
            r.Some? ==> r.value.0 < |members| && forall k :: 0 <= k < |r.value.1| ==> Loose(r.value.1[k]) <= Loose(e)
    decreases |members| - from
  {
    UnfoldScoped(e);
    if from < |members| { FindTargetScoped(members, from + 1, e, np, depth); }
  }

  lemma {:induction false} FindTargetDefEqScoped(g: Group, from: nat, e: Term, ctx: seq<Term>)
    requires from <= |g.members| && g.np <= |ctx|
    ensures var r := FindTargetDefEq(g, from, e, ctx);
            r.Some? ==> r.value.0 < |g.members| && forall k :: 0 <= k < |r.value.1| ==> Loose(r.value.1[k]) <= Loose(e)
    decreases |g.members| - from
  {
    UnfoldScoped(e);
    if from < |g.members| { FindTargetDefEqScoped(g, from + 1, e, ctx); }
  }

  lemma RecursiveTargetScoped(g: Group, e: Term, ctx: seq<Term>)
    requires g.np <= |ctx|
    ensures var r := RecursiveTarget(g, e, ctx);
            r.Some? ==> r.value.0 < |g.members| && forall k :: 0 <= k < |r.value.1| ==> Loose(r.value.1[k]) <= Loose(e)
  {
    FindTargetScoped(g.members, 0, e, g.np, |ctx|);
    FindTargetDefEqScoped(g, 0, e, ctx);
  }

  ghost predicate ParamsOnly(es: seq<Term>, np: nat) { forall k :: 0 <= k < |es| ==> Loose(es[k]) <= np }

  ghost predicate WellScopedMember(m: Member, np: nat) {
    Loose(m.typ) == 0 && ParamsOnly(m.fixedParams, np) && forall k :: 0 <= k < |m.ctors| ==> Loose(m.ctors[k].typ) == 0
  }

  ghost predicate WellScoped(g: Group) {
    forall k :: 0 <= k < |g.members| ==> WellScopedMember(g.members[k], g.np)
  }

  // ----------------------------------------------------------- minor premises

  /** Where a constructor's own telescope lives: parameters, prior fields, function arguments. */
  function Source(np: nat, prior: nat, na: nat): Ctx { Layout(Shape(np, 0, 0, prior, 0, na, 0, false)) }

  /** Where the minor premise's binders live: parameters, motives, earlier minors, fields, hypotheses, arguments. */
  function Target(np: nat, nm: nat, nk: nat, nf: nat, nh: nat, na: nat): Ctx {
    Layout(Shape(np, nm, nk, nf, nh, na, 0, false))
  }

  /** Field `j` keeps its type, every name with it. */
  function FieldBinders(np: nat, nm: nat, nk: nat, fields: seq<Binder>): seq<Binder> {
    seq(|fields|, j requires 0 <= j < |fields| =>
      Binder(fields[j].info, Transport(fields[j].typ, Source(np, j, 0), Target(np, nm, nk, j, 0, 0))))
  }

  function ArgBinders(np: nat, nm: nat, nk: nat, prior: nat, nf: nat, nh: nat, args: seq<Binder>): seq<Binder> {
    seq(|args|, a requires 0 <= a < |args| =>
      Binder(args[a].info, Transport(args[a].typ, Source(np, prior, a), Target(np, nm, nk, nf, nh, a))))
  }

  function ArgVars(ctx: Ctx, n: nat): seq<Term> { seq(n, a requires a >= 0 => V(ctx, Arg(a))) }
  function FieldVars(ctx: Ctx, n: nat): seq<Term> { seq(n, a requires a >= 0 => V(ctx, Field(a))) }
  function IndexVars(ctx: Ctx, n: nat): seq<Term> { seq(n, a requires a >= 0 => V(ctx, Index(a))) }

  /** For all arguments of the field's own telescope: the motive of member `pos` holds of the
      field's indices and of the field applied to those arguments. */
  function HypType(np: nat, nm: nat, nk: nat, nf: nat, nh: nat, j: nat, args: seq<Binder>, pos: nat,
                   indices: seq<Term>): Term
  {
    var src := Source(np, j, |args|);
    var dst := Target(np, nm, nk, nf, nh, |args|);
    Close(ArgBinders(np, nm, nk, j, nf, nh, args),
          Apps(V(dst, Motive(pos)), TransportAll(indices, src, dst) + [Apps(V(dst, Field(j)), ArgVars(dst, |args|))]))
  }

  /** The hypothesis field `j` contributes, if it is recursive. */
  function SpecHyp(g: Group, paramTypes: seq<Term>, fields: seq<Binder>, j: nat, nk: nat,
                   nh: nat): Result<Option<Binder>>
    requires j < |fields| && |paramTypes| == g.np
  {
    var args := Domains(fields[j].typ);
    var core := Core(fields[j].typ);
    var ctx := paramTypes + Types(fields[..j]) + Types(args);
    var target := RecursiveTarget(g, core, ctx);
    if target.Some? then
      Ok(Some(Binder(Default, HypType(g.np, |g.members|, nk, |fields|, nh, j, args, target.value.0, target.value.1))))
    else if ContainsMember(g, core, j + |args|) then Err(InexactField)
    else Ok(None)
  }

  function SpecHyps(g: Group, paramTypes: seq<Term>, fields: seq<Binder>, upTo: nat, nk: nat): (r: Result<seq<Binder>>)
    requires upTo <= |fields| && |paramTypes| == g.np
    ensures r.Ok? ==> |r.value| <= upTo
  {
    if upTo == 0 then Ok([])
    else
      var before := SpecHyps(g, paramTypes, fields, upTo - 1, nk);
      if before.Err? then before
      else
        var hyp := SpecHyp(g, paramTypes, fields, upTo - 1, nk, |before.value|);
        if hyp.Err? then Err(hyp.error)
        else if hyp.value.None? then before
        else Ok(before.value + [hyp.value.value])
  }

  /** The motive of the owner holds of the conclusion's indices and of the constructor applied to its
      parameters and fields. */
  function MinorResult(owner: Member, ownerPos: nat, ctor: Ctor, np: nat, nm: nat, nk: nat, nf: nat, nh: nat,
                       indices: seq<Term>): Term
  {
    var dst := Target(np, nm, nk, nf, nh, 0);
    var made := Apps(Const(ctor.name, ctor.levels), TransportAll(owner.fixedParams, Source(np, 0, 0), dst)
                     + FieldVars(dst, nf));
    Apps(V(dst, Motive(ownerPos)), TransportAll(indices, Source(np, nf, 0), dst) + [made])
  }

  function SpecMinor(g: Group, ownerPos: nat, ctor: Ctor, nk: nat): Result<Term>
    requires ownerPos < |g.members|
  {
    if !HasPis(ctor.typ, g.np) then Err(NotPi)
    else
      HasPisDomains(ctor.typ, g.np);
      MinorUnder(g, ownerPos, ctor, Types(Domains(ctor.typ)[..g.np]), Peel(ctor.typ, g.np), nk)
  }

  /** The minor premise of a constructor, given what its type says under the parameters. */
  function MinorUnder(g: Group, ownerPos: nat, ctor: Ctor, paramTypes: seq<Term>, rest: Term, nk: nat): Result<Term>
    requires ownerPos < |g.members| && |paramTypes| == g.np
  {
    var fields := Domains(rest);
    var nm := |g.members|;
    var target := FindTarget(g.members, 0, Core(rest), g.np, g.np + |fields|);
    if target.None? then Err(OutsideGroup)
    else if target.value.0 != ownerPos then Err(WrongOwner)
    else
      var hyps := SpecHyps(g, paramTypes, fields, |fields|, nk);
      if hyps.Err? then Err(hyps.error)
      else
        Ok(Close(FieldBinders(g.np, nm, nk, fields) + hyps.value,
                 MinorResult(g.members[ownerPos], ownerPos, ctor, g.np, nm, nk, |fields|, |hyps.value|,
                             target.value.1)))
  }

  // The index arithmetic of the builders, name by name.

  /** Shifted at `cut`, then at `low`. */
  function ShiftTwice(es: seq<Term>, outer: int, cut: nat, inner: int, low: nat): seq<Term> {
    seq(|es|, k requires 0 <= k < |es| => Shift(Shift(es[k], outer, cut), inner, low))
  }

  /** The variables `top - 1, top - 2, ...`, `n` of them. */
  function Countdown(top: nat, n: nat): seq<Term>
    requires n <= top
  {
    seq(n, k requires 0 <= k < n => BVar(top - 1 - k))
  }

  lemma ShiftTwiceTransports(es: seq<Term>, np: nat, nm: nat, nk: nat, prior: nat, nf: nat, nh: nat, na: nat)
    requires prior <= nf
    requires forall k :: 0 <= k < |es| ==> Loose(es[k]) <= np + prior + na
    ensures ShiftTwice(es, nm + nk, na + prior, nf - prior + nh, na)
         == TransportAll(es, Source(np, prior, na), Target(np, nm, nk, nf, nh, na))
  {
    var src, dst := Source(np, prior, na), Target(np, nm, nk, nf, nh, na);
    forall k | 0 <= k < |es|
      ensures Shift(Shift(es[k], nm + nk, na + prior), nf - prior + nh, na) == Transport(es[k], src, dst)
    { TwoShiftsTransport(es[k], np, nm, nk, prior, nf, nh, na); }
  }

  lemma ShiftAllTransports(es: seq<Term>, np: nat, t: Shape)
    requires ParamsOnly(es, np) && t.params == np
    ensures ShiftAll(es, Size(t) - np) == TransportAll(es, Source(np, 0, 0), Layout(t))
  {
    var src, dst := Source(np, 0, 0), Layout(t);
    forall k | 0 <= k < |es| ensures Shift(es[k], Size(t) - np, 0) == Transport(es[k], src, dst) {
      ParamShiftTransport(es[k], np, t);
    }
  }

  lemma TargetVars(np: nat, nm: nat, nk: nat, nf: nat, nh: nat, na: nat)
    ensures forall m :: 0 <= m < nm ==>
              V(Target(np, nm, nk, nf, nh, na), Motive(m)) == BVar(np + nm + nk + nf + nh + na - 1 - (np + m))
    ensures forall j :: 0 <= j < nf ==> V(Target(np, nm, nk, nf, nh, na), Field(j)) == BVar(nf + nh + na - 1 - j)
    ensures FieldVars(Target(np, nm, nk, nf, nh, na), nf) == Countdown(nf + nh + na, nf)
    ensures ArgVars(Target(np, nm, nk, nf, nh, na), na) == Countdown(na, na)
  {
    var s := Shape(np, nm, nk, nf, nh, na, 0, false);
    LayoutAt(s);
    forall m | 0 <= m < nm ensures V(Layout(s), Motive(m)) == BVar(Size(s) - 1 - (np + m)) { LayoutVar(s, Motive(m)); }
    forall j | 0 <= j < nf ensures V(Layout(s), Field(j)) == BVar(nf + nh + na - 1 - j) { LayoutVar(s, Field(j)); }
    forall a | 0 <= a < na ensures V(Layout(s), Arg(a)) == BVar(na - 1 - a) { LayoutVar(s, Arg(a)); }
  }

  lemma ArgBinderAt(np: nat, nm: nat, nk: nat, j: nat, nf: nat, nh: nat, args: seq<Binder>, a: nat)
    requires j <= nf && a < |args| && Loose(args[a].typ) <= np + j + a
    ensures ArgBinders(np, nm, nk, j, nf, nh, args)[a]
         == Binder(args[a].info, Shift(Shift(args[a].typ, nm + nk, a + j), nf - j + nh, a))
  {
    TwoShiftsTransport(args[a].typ, np, nm, nk, j, nf, nh, a);
  }

  /** The binders of a field's own telescope, moved under all fields and the earlier hypotheses. */
  method BuildArgs(np: nat, ghost nm: nat, ghost nk: nat, base: seq<Term>, dom: Term, j: nat, nf: nat, outerDepth: nat,
                   ihCount: nat)
    returns (argBinders: seq<Binder>, fctx: seq<Term>, fcur: Term)
    requires j < nf && outerDepth == np + nm + nk && Loose(dom) <= np + j
    ensures argBinders == ArgBinders(np, nm, nk, j, nf, ihCount, Domains(dom))
    ensures fctx == base + Types(Domains(dom)) && fcur == Core(dom)
  {
    ghost var args := Domains(dom);
    ghost var spec := ArgBinders(np, nm, nk, j, nf, ihCount, args);
    assert |spec| == |args|;
    DomainsScoped(dom, np + j);
    hide ArgBinders, Loose, Shift, Types, Domains, Core;
    assert Types(args[..0]) == [];
    argBinders, fctx, fcur := [], base, dom;
    while fcur.Pi?
      invariant |argBinders| <= |args| && args[|argBinders|..] == Domains(fcur) && Core(fcur) == Core(dom)
      invariant fctx == base + Types(args[..|argBinders|])
      invariant forall k :: 0 <= k < |argBinders| ==> argBinders[k] == spec[k]
      decreases fcur
    {
      var a := |argBinders|;
      DomainsNext(args, a, fcur);
      TypesMore(args, a);
      var b := ShiftedArg(np, nm, nk, j, nf, outerDepth, ihCount, args, a, fcur.bi, fcur.ty);
      argBinders := argBinders + [b];
      fctx := fctx + [fcur.ty];
      fcur := fcur.body;
    }
    DomainsEnd(fcur);
    assert args[..|argBinders|] == args;
  }

  /** One argument's type: motives and minors go outside the prior fields, later fields and hypotheses inside. */
  method ShiftedArg(np: nat, ghost nm: nat, ghost nk: nat, j: nat, nf: nat, outerDepth: nat, ihCount: nat,
                    ghost args: seq<Binder>, a: nat,
                    info: BinderInfo, dom: Term) returns (b: Binder)
    requires j < nf && outerDepth == np + nm + nk && a < |args| && args[a] == Binder(info, dom)
             && Loose(dom) <= np + j + a
    ensures b == ArgBinders(np, nm, nk, j, nf, ihCount, args)[a]
  {
    hide Loose, Shift;
    ArgBinderAt(np, nm, nk, j, nf, ihCount, args, a);
    var withOuter := Shift(dom, outerDepth - np, a + j);
    b := Binder(info, Shift(withOuter, nf - j + ihCount, a));
  }

  lemma DomainsEnd(cur: Term)
    requires !cur.Pi?
    ensures Domains(cur) == [] && Core(cur) == cur
  {}

  lemma DomainsNext(args: seq<Binder>, a: nat, cur: Term)
    requires cur.Pi? && a <= |args| && args[a..] == Domains(cur)
    ensures a < |args| && args[a] == Binder(cur.bi, cur.ty) && args[a + 1..] == Domains(cur.body)
            && Core(cur) == Core(cur.body)
  {
    assert args[a] == args[a..][0] && args[a + 1..] == args[a..][1..];
  }

  lemma TypesMore(args: seq<Binder>, a: nat)
    requires a < |args|
    ensures Types(args[..a + 1]) == Types(args[..a]) + [args[a].typ]
  {}

  /** The hypothesis for field `j`, or none, or a rejection. */
  method BuildHypothesis(g: Group, paramTypes: seq<Term>, fields: seq<Binder>, j: nat, outerDepth: nat, ihCount: nat)
    returns (r: Result<Option<Binder>>)
    requires j < |fields| && |paramTypes| == g.np
    requires g.np + |g.members| <= outerDepth
    requires WellScoped(g) && TelescopeIn(fields, g.np)
    ensures r == SpecHyp(g, paramTypes, fields, j, outerDepth - g.np - |g.members|, ihCount)
  {
    var np, nm, nf := g.np, |g.members|, |fields|;
    ghost var nk: nat := outerDepth - np - nm;
    var dom := fields[j].typ;
    DomainsScoped(dom, np + j);
    var argBinders, fctx,
        fcur := BuildArgs(np, nm, nk, paramTypes + Types(fields[..j]), dom, j, nf, outerDepth, ihCount);
    var target := RecursiveTarget(g, fcur, fctx);
    RecursiveTargetScoped(g, fcur, fctx);
    if target.None? {
      if ContainsMember(g, fcur, |fctx| - np) { return Err(InexactField); }
      return Ok(None);
    }
    var (pos, indices) := target.value;
    var typ := HypothesisType(np, nm, nk, nf, ihCount, j, Domains(dom), argBinders, pos, indices, outerDepth);
    r := Ok(Some(Binder(Default, typ)));
  }

  /** A hypothesis type, by index arithmetic. */
  method HypothesisType(np: nat, ghost nm: nat, ghost nk: nat, nf: nat, ihCount: nat, j: nat, ghost args: seq<Binder>,
                        argBinders: seq<Binder>, pos: nat, indices: seq<Term>, outerDepth: nat)
    returns (r: Term)
    requires j < nf && pos < nm && outerDepth == np + nm + nk
    requires argBinders == ArgBinders(np, nm, nk, j, nf, ihCount, args)
    requires forall k :: 0 <= k < |indices| ==> Loose(indices[k]) <= np + j + |args|
    ensures r == HypType(np, nm, nk, nf, ihCount, j, args, pos, indices)
  {
    hide Apps, Close;
    var na := |argBinders|;
    var depth := outerDepth + nf + ihCount + na;
    var motive := BVar(depth - 1 - (np + pos));
    var ihArgs := ShiftTwice(indices, outerDepth - np, na + j, nf - j + ihCount, na);
    var fieldValue := BVar(nf + ihCount + na - 1 - j);
    var functionArgs := Countdown(na, na);
    TargetVars(np, nm, nk, nf, ihCount, na);
    ShiftTwiceTransports(indices, np, nm, nk, j, nf, ihCount, na);
    r := CloseRecTelescope(argBinders, Apps(motive, ihArgs + [Apps(fieldValue, functionArgs)]));
  }

  method PeelAll(e: Term) returns (fields: seq<Binder>, cur: Term)
    ensures fields == Domains(e) && cur == Core(e)
  {
    cur, fields := e, [];
    while cur.Pi?
      invariant Domains(e) == fields + Domains(cur) && Core(cur) == Core(e)
      decreases cur
    {
      fields := fields + [Binder(cur.bi, cur.ty)];
      cur := cur.body;
    }
  }

  method BuildFields(np: nat, ghost nm: nat, ghost nk: nat, fields: seq<Binder>, outerDepth: nat)
    returns (local: seq<Binder>)
    requires outerDepth == np + nm + nk && TelescopeIn(fields, np)
    ensures local == FieldBinders(np, nm, nk, fields)
  {
    ghost var spec := FieldBinders(np, nm, nk, fields);
    local := [];
    for j := 0 to |fields|
      invariant |local| == j && local == spec[..j]
    {
      TwoShiftsTransport(fields[j].typ, np, nm, nk, j, j, 0, 0);
      local := local + [Binder(fields[j].info, Shift(fields[j].typ, outerDepth - np, j))];
      assert local[j] == spec[j];
    }
  }

  /** The hypotheses, one field after another, pushed behind the fields. */
  method BuildHyps(g: Group, paramTypes: seq<Term>, fields: seq<Binder>, outerDepth: nat, fieldBinders: seq<Binder>)
    returns (r: Result<seq<Binder>>)
    requires |paramTypes| == g.np && g.np + |g.members| <= outerDepth
    requires WellScoped(g) && TelescopeIn(fields, g.np)
    ensures var spec := SpecHyps(g, paramTypes, fields, |fields|, outerDepth - g.np - |g.members|);
            r == if spec.Ok? then Ok(fieldBinders + spec.value) else spec
  {
    hide SpecHyp, Loose, WellScopedMember;
    ghost var nk: nat := outerDepth - g.np - |g.members|;
    var local, ihCount := fieldBinders, 0;
    for j := 0 to |fields|
      invariant SpecHyps(g, paramTypes, fields, j, nk).Ok?
      invariant ihCount == |SpecHyps(g, paramTypes, fields, j, nk).value|
      invariant local == fieldBinders + SpecHyps(g, paramTypes, fields, j, nk).value
    {
      var hyp := BuildHypothesis(g, paramTypes, fields, j, outerDepth, ihCount);
      if hyp.Err? {
        SpecHypsFails(g, paramTypes, fields, j, nk);
        return Err(hyp.error);
      }
      if hyp.value.Some? {
        local := local + [hyp.value.value];
        ihCount := ihCount + 1;
      }
    }
    r := Ok(local);
  }

  method BuildMinorType(g: Group, ownerPos: nat, ctor: Ctor, outerDepth: nat) returns (r: Result<Term>)
    requires ownerPos < |g.members|
    requires outerDepth < g.np || g.np + |g.members| <= outerDepth
    requires WellScoped(g) && Loose(ctor.typ) == 0
    ensures r == if outerDepth >= g.np then SpecMinor(g, ownerPos, ctor, outerDepth - g.np - |g.members|)
                 else if HasPis(ctor.typ, g.np) then Err(Underflow) else Err(NotPi)
  {
    var np, nm := g.np, |g.members|;
    hide Loose, SpecHyps, MinorResult;
    var peeled := PeelPis(ctor.typ, np);
    if peeled.Err? { return Err(NotPi); }
    if outerDepth < np { return Err(Underflow); }
    ghost var nk: nat := outerDepth - np - nm;
    var (params, rest) := peeled.value;
    HasPisDomains(ctor.typ, np);
    var paramTypes := Types(params);
    PeelScoped(ctor.typ, np, 0);
    DomainsScoped(rest, np);

    var fields, cur := PeelAll(rest);
    var nf := |fields|;
    var local := BuildFields(np, nm, nk, fields, outerDepth);
    var target := FindTarget(g.members, 0, cur, np, np + nf);
    FindTargetScoped(g.members, 0, cur, np, np + nf);
    if target.None? { return Err(OutsideGroup); }
    var (conclusionOwner, conclusionIndices) := target.value;
    if conclusionOwner != ownerPos { return Err(WrongOwner); }

    var hyps := BuildHyps(g, paramTypes, fields, outerDepth, local);
    if hyps.Err? { return Err(hyps.error); }
    local := hyps.value;
    var ihCount := |local| - nf;
    var result := MinorConclusion(g, ownerPos, ctor, outerDepth, nf, ihCount, conclusionIndices);
    var typ := CloseRecTelescope(local, result);
    r := Ok(typ);
  }

  lemma SpecHypsFails(g: Group, paramTypes: seq<Term>, fields: seq<Binder>, j: nat, nk: nat)
    requires j < |fields| && |paramTypes| == g.np
    requires SpecHyps(g, paramTypes, fields, j, nk).Ok?
    requires SpecHyp(g, paramTypes, fields, j, nk, |SpecHyps(g, paramTypes, fields, j, nk).value|).Err?
    ensures SpecHyps(g, paramTypes, fields, |fields|, nk)
         == Err(SpecHyp(g, paramTypes, fields, j, nk, |SpecHyps(g, paramTypes, fields, j, nk).value|).error)
  {
    SpecHypsErrStays(g, paramTypes, fields, j + 1, |fields|, nk);
  }

  lemma {:induction false} SpecHypsErrStays(g: Group, paramTypes: seq<Term>, fields: seq<Binder>, lo: nat, hi: nat,
                                            nk: nat)
    requires lo <= hi <= |fields| && |paramTypes| == g.np
    requires SpecHyps(g, paramTypes, fields, lo, nk).Err?
    ensures SpecHyps(g, paramTypes, fields, hi, nk) == SpecHyps(g, paramTypes, fields, lo, nk)
    decreases hi
  {
    if lo < hi { SpecHypsErrStays(g, paramTypes, fields, lo, hi - 1, nk); }
  }

  /** The conclusion of a minor premise, by index arithmetic. */
  method MinorConclusion(g: Group, ownerPos: nat, ctor: Ctor, outerDepth: nat, nf: nat, ihCount: nat,
                         indices: seq<Term>)
    returns (r: Term)
    requires ownerPos < |g.members|
    requires g.np + |g.members| <= outerDepth
    requires ParamsOnly(g.members[ownerPos].fixedParams, g.np)
    requires forall k :: 0 <= k < |indices| ==> Loose(indices[k]) <= g.np + nf
    ensures r == MinorResult(g.members[ownerPos], ownerPos, ctor, g.np, |g.members|, outerDepth - g.np - |g.members|,
                             nf, ihCount, indices)
  {
    var np, nm := g.np, |g.members|;
    ghost var nk := outerDepth - np - nm;
    var depth := outerDepth + nf + ihCount;
    var motive := BVar(depth - 1 - (np + ownerPos));
    var resultArgs := ShiftTwice(indices, outerDepth - np, nf, ihCount, 0);
    var fixed := g.members[ownerPos].fixedParams;
    var fixedArgs := ShiftAll(fixed, depth - np);
    var fieldArgs := Countdown(nf + ihCount, nf);
    TargetVars(np, nm, nk, nf, ihCount, 0);
    ShiftTwiceTransports(indices, np, nm, nk, nf, nf, ihCount, 0);
    ShiftAllTransports(fixed, np, Shape(np, nm, nk, nf, ihCount, 0, 0, false));
    r := Apps(motive, resultArgs + [Apps(Const(ctor.name, ctor.levels), fixedArgs + fieldArgs)]);
  }
}
