/**
 The whole recursor type: parameters, motives, minor premises, indices, major premise
 and result, built by index arithmetic and proved to be the named telescope.
 */
module RecursorType {
  import opened Terms
  import opened Contexts
  import opened Recursor
  import opened Readings
  import L = Levels

  // ---------------------------------------------------- what should be built

  /** The index telescope of a member, as its own type declares it. */
  function IndexDomains(m: Member, np: nat): (r: Result<seq<Binder>>)
    ensures r.Ok? ==> |r.value| == m.numIndices
  {
    if HasPis(m.typ, np) && HasPis(Peel(m.typ, np), m.numIndices) then
      HasPisDomains(Peel(m.typ, np), m.numIndices);
      Ok(Domains(Peel(m.typ, np))[..m.numIndices])
    else Err(NotPi)
  }

  /** Parameters and prior indices. */
  function IndexSource(np: nat, ni: nat): Ctx { Layout(Shape(np, 0, 0, 0, 0, 0, ni, false)) }

  function IndexTarget(np: nat, nm: nat, nk: nat, ni: nat): Ctx { Layout(Shape(np, nm, nk, 0, 0, 0, ni, false)) }

  function FullTarget(np: nat, nm: nat, nk: nat, ni: nat): Ctx { Layout(Shape(np, nm, nk, 0, 0, 0, ni, true)) }

  function IndexBinders(np: nat, nm: nat, nk: nat, idx: seq<Binder>): seq<Binder> {
    seq(|idx|, i requires 0 <= i < |idx| =>
      Binder(idx[i].info, Transport(idx[i].typ, IndexSource(np, i), IndexTarget(np, nm, nk, i))))
  }

  /** The member at its fixed parameters and the innermost index variables. */
  function MemberType(m: Member, np: nat, nm: nat, nk: nat): Term {
    var ctx := IndexTarget(np, nm, nk, m.numIndices);
    Apps(Const(m.source, m.levels), TransportAll(m.fixedParams, Source(np, 0, 0), ctx) + IndexVars(ctx, m.numIndices))
  }

  /** For all indices and every inhabitant of the member at them, a sort. */
  function MotiveType(m: Member, np: nat, before: nat, idx: seq<Binder>, elim: L.Level): Term {
    Close(IndexBinders(np, before, 0, idx), Pi(Default, MemberType(m, np, before, 0), Sort(elim)))
  }

  function SpecMotives(g: Group, upTo: nat, elim: L.Level): (r: Result<seq<Binder>>)
    requires upTo <= |g.members|
    ensures r.Ok? ==> |r.value| == upTo
  {
    if upTo == 0 then Ok([])
    else
      var before := SpecMotives(g, upTo - 1, elim);
      if before.Err? then before
      else
        var m := g.members[upTo - 1];
        var idx := IndexDomains(m, g.np);
        if idx.Err? then idx
        else Ok(before.value + [Binder(Default, MotiveType(m, g.np, upTo - 1, idx.value, elim))])
  }

  /** The minors of the members before `owner` and of the first `upTo` constructors of `owner`. */
  function SpecMinors(g: Group, owner: nat, upTo: nat): Result<seq<Binder>>
    requires owner < |g.members| ==> upTo <= |g.members[owner].ctors|
    requires owner >= |g.members| ==> owner == |g.members| && upTo == 0
    decreases owner, upTo
  {
    if upTo > 0 then
      var before := SpecMinors(g, owner, upTo - 1);
      if before.Err? then before
      else
        var minor := SpecMinor(g, owner, g.members[owner].ctors[upTo - 1], |before.value|);
        if minor.Err? then Err(minor.error) else Ok(before.value + [Binder(Default, minor.value)])
    else if owner > 0 then SpecMinors(g, owner - 1, |g.members[owner - 1].ctors|)
    else Ok([])
  }

  /** The target's motive at the target's indices and the major premise. */
  function SpecResult(target: nat, np: nat, nm: nat, nk: nat, ni: nat): Term {
    var ctx := FullTarget(np, nm, nk, ni);
    Apps(V(ctx, Motive(target)), IndexVars(ctx, ni) + [V(ctx, Major)])
  }

  /** All binders of the recursor, outermost first, and its result. */
  function SpecParts(g: Group, target: nat, params: seq<Binder>, elim: L.Level): Result<(seq<Binder>, Term)>
    requires target < |g.members|
  {
    var motives := SpecMotives(g, |g.members|, elim);
    if motives.Err? then Err(motives.error)
    else
      var minors := SpecMinors(g, |g.members|, 0);
      if minors.Err? then Err(minors.error)
      else
        var m := g.members[target];
        var idx := IndexDomains(m, g.np);
        if idx.Err? then Err(idx.error)
        else
          var nm, nk := |g.members|, |minors.value|;
          Ok((params + motives.value + minors.value + IndexBinders(g.np, nm, nk, idx.value)
              + [Binder(Default, MemberType(m, g.np, nm, nk))],
              SpecResult(target, g.np, nm, nk, m.numIndices)))
  }

  function SpecRecursor(g: Group, target: nat, params: seq<Binder>, elim: L.Level): Result<Term>
    requires target < |g.members|
  {
    var parts := SpecParts(g, target, params, elim);
    if parts.Err? then Err(parts.error) else Ok(Close(parts.value.0, parts.value.1))
  }

  // -------------------------------------------------------- what the code does

  lemma MemberAppIsType(m: Member, np: nat, nm: nat, nk: nat)
    requires ParamsOnly(m.fixedParams, np)
    ensures MemberApp(m, np, np + nm + nk + m.numIndices, Countdown(m.numIndices, m.numIndices))
            == MemberType(m, np, nm, nk)
  {
    var s := Shape(np, nm, nk, 0, 0, 0, m.numIndices, false);
    ShiftAllTransports(m.fixedParams, np, s);
    forall i | 0 <= i < m.numIndices ensures V(Layout(s), Index(i)) == BVar(m.numIndices - 1 - i) {
      LayoutVar(s, Index(i));
    }
    assert IndexVars(Layout(s), m.numIndices) == Countdown(m.numIndices, m.numIndices);
  }

  lemma ResultVars(target: nat, np: nat, nm: nat, nk: nat, ni: nat)
    requires target < nm
    ensures SpecResult(target, np, nm, nk, ni)
         == Apps(BVar(np + nm + nk + ni + 1 - 1 - (np + target)), Countdown(ni + 1, ni) + [BVar(0)])
  {
    hide Layout, Apps;
    var s := Shape(np, nm, nk, 0, 0, 0, ni, true);
    LayoutVar(s, Motive(target));
    LayoutVar(s, Major);
    forall i | 0 <= i < ni ensures V(Layout(s), Index(i)) == BVar(ni - i) { LayoutVar(s, Index(i)); }
    assert IndexVars(Layout(s), ni) == Countdown(ni + 1, ni);
  }

  lemma IndexBinderAt(np: nat, nm: nat, nk: nat, idx: seq<Binder>, i: nat)
    requires i < |idx| && Loose(idx[i].typ) <= np + i
    ensures IndexBinders(np, nm, nk, idx)[i] == Binder(idx[i].info, Shift(idx[i].typ, nm + nk, i))
  {
    IndexShiftTransport(idx[i].typ, np, nm, nk, i);
  }

  /** Peels the parameters, then moves each index binder to the context `depth` deep. */
  method BuildIndices(m: Member, np: nat, ghost nm: nat, ghost nk: nat, depth: nat) returns (r: Result<seq<Binder>>)
    requires depth == np + nm + nk && Loose(m.typ) == 0
    ensures var spec := IndexDomains(m, np);
            r == if spec.Ok? then Ok(IndexBinders(np, nm, nk, spec.value)) else Err(NotPi)
  {
    var params := PeelPis(m.typ, np);
    if params.Err? { return Err(NotPi); }
    var (_, rest) := params.value;
    PeelScoped(m.typ, np, 0);
    DomainsScoped(rest, np);
    ghost var all := Domains(rest);
    var cur, indices := rest, [];
    for i := 0 to m.numIndices
      invariant |indices| == i <= |all| && all[i..] == Domains(cur)
      invariant HasPis(rest, m.numIndices) <==> HasPis(cur, m.numIndices - i)
      invariant forall k :: 0 <= k < i ==> indices[k] == Binder(all[k].info, Shift(all[k].typ, nm + nk, k))
    {
      if !cur.Pi? { return Err(NotPi); }
      assert all[i] == Domains(cur)[0] && all[i + 1..] == Domains(cur)[1..];
      indices := indices + [Binder(cur.bi, Shift(cur.ty, depth - np, i))];
      cur := cur.body;
    }
    HasPisDomains(rest, m.numIndices);
    ghost var idx := all[..m.numIndices];
    assert IndexDomains(m, np) == Ok(idx);
    forall k | 0 <= k < m.numIndices ensures indices[k] == IndexBinders(np, nm, nk, idx)[k] {
      IndexBinderAt(np, nm, nk, idx, k);
    }
    assert indices == IndexBinders(np, nm, nk, idx);
    r := Ok(indices);
  }

  method BuildMotive(m: Member, np: nat, before: nat, elim: L.Level) returns (r: Result<Term>)
    requires WellScopedMember(m, np)
    ensures var idx := IndexDomains(m, np);
            r == if idx.Ok? then Ok(MotiveType(m, np, before, idx.value, elim)) else Err(NotPi)
  {
    var indices := BuildIndices(m, np, before, 0, np + before);
    if indices.Err? { return Err(NotPi); }
    var n := |indices.value|;
    var major := MemberApp(m, np, np + before + n, Countdown(n, n));
    MemberAppIsType(m, np, before, 0);
    var typ := CloseRecTelescope(indices.value, Pi(Default, major, Sort(elim)));
    r := Ok(typ);
  }

  method BuildMotives(g: Group, params: seq<Binder>, elim: L.Level) returns (r: Result<seq<Binder>>)
    requires WellScoped(g) && |params| == g.np
    ensures var spec := SpecMotives(g, |g.members|, elim);
            r == if spec.Ok? then Ok(params + spec.value) else spec
  {
    hide MotiveType;
    var binders := params;
    for k := 0 to |g.members|
      invariant SpecMotives(g, k, elim).Ok? && binders == params + SpecMotives(g, k, elim).value
    {
      var motive := BuildMotive(g.members[k], g.np, |binders| - g.np, elim);
      if motive.Err? {
        SpecMotivesErrStays(g, k + 1, |g.members|, elim);
        return Err(NotPi);
      }
      binders := binders + [Binder(Default, motive.value)];
    }
    r := Ok(binders);
  }

  lemma {:induction false} SpecMotivesErrStays(g: Group, lo: nat, hi: nat, elim: L.Level)
    requires lo <= hi <= |g.members| && SpecMotives(g, lo, elim).Err?
    ensures SpecMotives(g, hi, elim) == SpecMotives(g, lo, elim)
    decreases hi
  {
    if lo < hi { SpecMotivesErrStays(g, lo, hi - 1, elim); }
  }

  ghost predicate AtCtor(g: Group, owner: nat, upTo: nat) {
    (owner < |g.members| && upTo <= |g.members[owner].ctors|) || (owner == |g.members| && upTo == 0)
  }

  lemma {:induction false} SpecMinorsErrStays(g: Group, owner: nat, upTo: nat, owner': nat, upTo': nat)
    requires AtCtor(g, owner, upTo) && AtCtor(g, owner', upTo')
    requires owner < owner' || (owner == owner' && upTo <= upTo')
    requires SpecMinors(g, owner, upTo).Err?
    ensures SpecMinors(g, owner', upTo') == SpecMinors(g, owner, upTo)
    decreases owner', upTo'
  {
    hide SpecMinor;
    if owner == owner' && upTo == upTo' {
    } else if upTo' > 0 {
      SpecMinorsErrStays(g, owner, upTo, owner', upTo' - 1);
    } else {
      SpecMinorsErrStays(g, owner, upTo, owner' - 1, |g.members[owner' - 1].ctors|);
    }
  }

  /** The minors, one owner and one constructor after another, pushed behind `start`. */
  method BuildMinors(g: Group, start: seq<Binder>) returns (r: Result<seq<Binder>>)
    requires WellScoped(g) && |start| == g.np + |g.members|
    ensures var spec := SpecMinors(g, |g.members|, 0);
            r == if spec.Ok? then Ok(start + spec.value) else spec
  {
    hide SpecMinor, Loose;
    var binders := start;
    for owner := 0 to |g.members|
      invariant SpecMinors(g, owner, 0).Ok? && binders == start + SpecMinors(g, owner, 0).value
    {
      var ctors := g.members[owner].ctors;
      for c := 0 to |ctors|
        invariant SpecMinors(g, owner, c).Ok? && binders == start + SpecMinors(g, owner, c).value
      {
        assert WellScopedMember(g.members[owner], g.np);
        var minor := BuildMinorType(g, owner, ctors[c], |binders|);
        if minor.Err? {
          SpecMinorsErrStays(g, owner, c + 1, |g.members|, 0);
          return Err(minor.error);
        }
        binders := binders + [Binder(Default, minor.value)];
      }
    }
    r := Ok(binders);
  }

  method BuildBaseRecursorType(g: Group, target: nat, params: seq<Binder>, elim: L.Level) returns (r: Result<Term>)
    requires target < |g.members| && |params| == g.np && WellScoped(g)
    ensures r == SpecRecursor(g, target, params, elim)
    ensures r.Ok? <==> GroupFits(g)
    ensures r.Ok? ==> RecursorReads(g, target, params, elim, r.value)
  {
    RecursorSays(g, target, params, elim);
    hide GroupFits, RecursorReads, WellScoped;
    var np, nm := g.np, |g.members|;
    var motives := BuildMotives(g, params, elim);
    if motives.Err? { return Err(motives.error); }
    var minors := BuildMinors(g, motives.value);
    if minors.Err? { return Err(minors.error); }
    ghost var nk := |SpecMinors(g, nm, 0).value|;
    r := BuildTail(g, target, minors.value, nk);
  }

  /** Target indices, major premise and result, closed over everything before them. */
  method BuildTail(g: Group, target: nat, start: seq<Binder>, ghost nk: nat) returns (r: Result<Term>)
    requires target < |g.members| && WellScoped(g) && |start| == g.np + |g.members| + nk
    ensures var m := g.members[target];
            var idx := IndexDomains(m, g.np);
            r == if idx.Err? then Err(NotPi)
                 else Ok(Close(start + IndexBinders(g.np, |g.members|, nk, idx.value)
                               + [Binder(Default, MemberType(m, g.np, |g.members|, nk))],
                               SpecResult(target, g.np, |g.members|, nk, m.numIndices)))
  {
    var np, nm, m := g.np, |g.members|, g.members[target];
    var indices := BuildIndices(m, np, nm, nk, |start|);
    if indices.Err? { return Err(NotPi); }
    var binders := start + indices.value;
    var ni := m.numIndices;
    var majorType := MemberApp(m, np, |binders|, Countdown(ni, ni));
    MemberAppIsType(m, np, nm, nk);
    binders := binders + [Binder(Default, majorType)];
    var depth := |binders|;
    var motive := BVar(depth - 1 - (np + target));
    ResultVars(target, np, nm, nk, ni);
    var typ := CloseRecTelescope(binders, Apps(motive, Countdown(ni + 1, ni) + [BVar(0)]));
    r := Ok(typ);
  }

  // ---------------------------------------- every name resolves to its binder

  /** The variable written for a named binder of a context points at that binder and no other. */
  lemma VariableResolves(s: Shape, x: Slot, i: nat)
    requires Has(s, x) && i < |Layout(s)|
    ensures SlotAt(Layout(s), i) == x <==> V(Layout(s), x) == BVar(i)
  {
    LayoutVar(s, x);
    LayoutAt(s);
  }

  /** Field types, argument types and index types read as they did where they were declared. */
  lemma BindersReadAlike(np: nat, nm: nat, nk: nat, nf: nat, nh: nat, prior: nat, bs: seq<Binder>, k: nat)
    requires prior <= nf && k < |bs|
    ensures TelescopeIn(bs, np) ==>
              Same(FieldBinders(np, nm, nk, bs)[k].typ, Target(np, nm, nk, k, 0, 0), bs[k].typ, Source(np, k, 0), 0)
    ensures TelescopeIn(bs, np + prior) ==>
              Same(ArgBinders(np, nm, nk, prior, nf, nh, bs)[k].typ, Target(np, nm, nk, nf, nh, k), bs[k].typ,
                   Source(np, prior, k), 0)
    ensures TelescopeIn(bs, np) ==>
              Same(IndexBinders(np, nm, nk, bs)[k].typ, IndexTarget(np, nm, nk, k), bs[k].typ, IndexSource(np, k), 0)
  {
    ReadsAlike(bs[k].typ, Shape(np, 0, 0, k, 0, 0, 0, false), Shape(np, nm, nk, k, 0, 0, 0, false));
    ReadsAlike(bs[k].typ, Shape(np, 0, 0, prior, 0, k, 0, false), Shape(np, nm, nk, nf, nh, k, 0, false));
    ReadsAlike(bs[k].typ, Shape(np, 0, 0, 0, 0, 0, k, false), Shape(np, nm, nk, 0, 0, 0, k, false));
  }

  // ------------------------------------------- closed, with the right binders

  lemma AllScoped(es: seq<Term>, s: Shape, t: Shape)
    requires Below(s, t) && forall k :: 0 <= k < |es| ==> Loose(es[k]) <= Size(s)
    ensures forall k :: 0 <= k < |es| ==> Loose(TransportAll(es, Layout(s), Layout(t))[k]) <= Size(t)
  {
    forall k | 0 <= k < |es| ensures Loose(TransportAll(es, Layout(s), Layout(t))[k]) <= Size(t) {
      ReadsAlike(es[k], s, t);
    }
  }

  lemma VarScoped(s: Shape, x: Slot)
    requires Has(s, x)
    ensures Loose(V(Layout(s), x)) <= Size(s)
  {
    LayoutVar(s, x);
  }

  lemma IndexVarsScoped(s: Shape)
    ensures forall k :: 0 <= k < s.indices ==> Loose(IndexVars(Layout(s), s.indices)[k]) <= Size(s)
  {
    forall k | 0 <= k < s.indices ensures Loose(IndexVars(Layout(s), s.indices)[k]) <= Size(s) {
      VarScoped(s, Index(k));
    }
  }

  lemma FieldVarsScoped(s: Shape)
    ensures forall k :: 0 <= k < s.fields ==> Loose(FieldVars(Layout(s), s.fields)[k]) <= Size(s)
    ensures forall k :: 0 <= k < s.args ==> Loose(ArgVars(Layout(s), s.args)[k]) <= Size(s)
  {
    forall k | 0 <= k < s.fields ensures Loose(FieldVars(Layout(s), s.fields)[k]) <= Size(s) { VarScoped(s, Field(k)); }
    forall k | 0 <= k < s.args ensures Loose(ArgVars(Layout(s), s.args)[k]) <= Size(s) { VarScoped(s, Arg(k)); }
  }

  lemma MemberTypeScoped(m: Member, np: nat, nm: nat, nk: nat)
    requires ParamsOnly(m.fixedParams, np)
    ensures Loose(MemberType(m, np, nm, nk)) <= np + nm + nk + m.numIndices
  {
    var t := Shape(np, nm, nk, 0, 0, 0, m.numIndices, false);
    AllScoped(m.fixedParams, Shape(np, 0, 0, 0, 0, 0, 0, false), t);
    IndexVarsScoped(t);
    AppsScoped(Const(m.source, m.levels), TransportAll(m.fixedParams, Source(np, 0, 0), Layout(t))
               + IndexVars(Layout(t), m.numIndices), Size(t));
  }

  lemma IndexBindersScoped(np: nat, nm: nat, nk: nat, idx: seq<Binder>)
    requires TelescopeIn(idx, np)
    ensures TelescopeIn(IndexBinders(np, nm, nk, idx), np + nm + nk)
  {
    forall i | 0 <= i < |idx| ensures Loose(IndexBinders(np, nm, nk, idx)[i].typ) <= np + nm + nk + i {
      ReadsAlike(idx[i].typ, Shape(np, 0, 0, 0, 0, 0, i, false), Shape(np, nm, nk, 0, 0, 0, i, false));
    }
  }

  lemma IndexDomainsScoped(m: Member, np: nat)
    requires Loose(m.typ) == 0 && IndexDomains(m, np).Ok?
    ensures TelescopeIn(IndexDomains(m, np).value, np) && |IndexDomains(m, np).value| == m.numIndices
  {
    PeelScoped(m.typ, np, 0);
    DomainsScoped(Peel(m.typ, np), np);
    HasPisDomains(Peel(m.typ, np), m.numIndices);
  }

  lemma MotiveTypeScoped(m: Member, np: nat, before: nat, elim: L.Level)
    requires WellScopedMember(m, np) && IndexDomains(m, np).Ok?
    ensures Loose(MotiveType(m, np, before, IndexDomains(m, np).value, elim)) <= np + before
  {
    IndexDomainsScoped(m, np);
    var idx := IndexDomains(m, np).value;
    IndexBindersScoped(np, before, 0, idx);
    MemberTypeScoped(m, np, before, 0);
    CloseScoped(IndexBinders(np, before, 0, idx), Pi(Default, MemberType(m, np, before, 0), Sort(elim)), np + before);
  }

  lemma {:induction false} SpecMotivesScoped(g: Group, upTo: nat, elim: L.Level)
    requires upTo <= |g.members| && WellScoped(g) && SpecMotives(g, upTo, elim).Ok?
    ensures TelescopeIn(SpecMotives(g, upTo, elim).value, g.np)
  {
    hide Loose, WellScopedMember, MotiveType, IndexDomains;
    if upTo > 0 {
      SpecMotivesScoped(g, upTo - 1, elim);
      assert WellScopedMember(g.members[upTo - 1], g.np);
      MotiveTypeScoped(g.members[upTo - 1], g.np, upTo - 1, elim);
    }
  }

  lemma HypTypeScoped(np: nat, nm: nat, nk: nat, nf: nat, nh: nat, j: nat, args: seq<Binder>, pos: nat,
                      indices: seq<Term>)
    requires j < nf && pos < nm && TelescopeIn(args, np + j)
    requires forall k :: 0 <= k < |indices| ==> Loose(indices[k]) <= np + j + |args|
    ensures Loose(HypType(np, nm, nk, nf, nh, j, args, pos, indices)) <= np + nm + nk + nf + nh
  {
    var na := |args|;
    var s, t := Shape(np, 0, 0, j, 0, na, 0, false), Shape(np, nm, nk, nf, nh, na, 0, false);
    forall a | 0 <= a < na ensures Loose(ArgBinders(np, nm, nk, j, nf, nh, args)[a].typ) <= np + nm + nk + nf + nh + a {
      ReadsAlike(args[a].typ, Shape(np, 0, 0, j, 0, a, 0, false), Shape(np, nm, nk, nf, nh, a, 0, false));
    }
    AllScoped(indices, s, t);
    FieldVarsScoped(t);
    VarScoped(t, Field(j));
    VarScoped(t, Motive(pos));
    var value := Apps(V(Layout(t), Field(j)), ArgVars(Layout(t), na));
    AppsScoped(V(Layout(t), Field(j)), ArgVars(Layout(t), na), Size(t));
    AppsScoped(V(Layout(t), Motive(pos)), TransportAll(indices, Layout(s), Layout(t)) + [value], Size(t));
    CloseScoped(ArgBinders(np, nm, nk, j, nf, nh, args),
                Apps(V(Layout(t), Motive(pos)), TransportAll(indices, Layout(s), Layout(t)) + [value]),
                np + nm + nk + nf + nh);
  }

  lemma SpecHypScoped(g: Group, paramTypes: seq<Term>, fields: seq<Binder>, j: nat, nk: nat, nh: nat)
    requires j < |fields| && |paramTypes| == g.np && Loose(fields[j].typ) <= g.np + j
    ensures var r := SpecHyp(g, paramTypes, fields, j, nk, nh);
            r.Ok? && r.value.Some? ==> Loose(r.value.value.typ) <= g.np + |g.members| + nk + |fields| + nh
  {
    var args, core := Domains(fields[j].typ), Core(fields[j].typ);
    var ctx := paramTypes + Types(fields[..j]) + Types(args);
    var target := RecursiveTarget(g, core, ctx);
    DomainsScoped(fields[j].typ, g.np + j);
    RecursiveTargetScoped(g, core, ctx);
    if target.Some? {
      HypTypeScoped(g.np, |g.members|, nk, |fields|, nh, j, args, target.value.0, target.value.1);
    }
  }

  lemma {:induction false} SpecHypsScoped(g: Group, paramTypes: seq<Term>, fields: seq<Binder>, upTo: nat, nk: nat)
    requires upTo <= |fields| && |paramTypes| == g.np && TelescopeIn(fields, g.np)
    requires SpecHyps(g, paramTypes, fields, upTo, nk).Ok?
    ensures TelescopeIn(SpecHyps(g, paramTypes, fields, upTo, nk).value, g.np + |g.members| + nk + |fields|)
  {
    hide SpecHyp, Loose;
    if upTo > 0 {
      SpecHypsScoped(g, paramTypes, fields, upTo - 1, nk);
      SpecHypScoped(g, paramTypes, fields, upTo - 1, nk, |SpecHyps(g, paramTypes, fields, upTo - 1, nk).value|);
    }
  }

  lemma MinorResultScoped(g: Group, ownerPos: nat, ctor: Ctor, nk: nat, nf: nat, nh: nat, indices: seq<Term>)
    requires ownerPos < |g.members| && ParamsOnly(g.members[ownerPos].fixedParams, g.np)
    requires forall k :: 0 <= k < |indices| ==> Loose(indices[k]) <= g.np + nf
    ensures Loose(MinorResult(g.members[ownerPos], ownerPos, ctor, g.np, |g.members|, nk, nf, nh, indices)) <= g.np
            + |g.members| + nk + nf + nh
  {
    var fixed := g.members[ownerPos].fixedParams;
    var s, t := Shape(g.np, 0, 0, nf, 0, 0, 0, false), Shape(g.np, |g.members|, nk, nf, nh, 0, 0, false);
    AllScoped(indices, s, t);
    AllScoped(fixed, Shape(g.np, 0, 0, 0, 0, 0, 0, false), t);
    FieldVarsScoped(t);
    VarScoped(t, Motive(ownerPos));
    var args := TransportAll(fixed, Source(g.np, 0, 0), Layout(t)) + FieldVars(Layout(t), nf);
    AppsScoped(Const(ctor.name, ctor.levels), args, Size(t));
    AppsScoped(V(Layout(t), Motive(ownerPos)), TransportAll(indices, Layout(s), Layout(t))
               + [Apps(Const(ctor.name, ctor.levels), args)], Size(t));
  }

  lemma FieldBindersScoped(np: nat, nm: nat, nk: nat, fields: seq<Binder>)
    requires TelescopeIn(fields, np)
    ensures TelescopeIn(FieldBinders(np, nm, nk, fields), np + nm + nk)
  {
    forall j | 0 <= j < |fields| ensures Loose(FieldBinders(np, nm, nk, fields)[j].typ) <= np + nm + nk + j {
      ReadsAlike(fields[j].typ, Shape(np, 0, 0, j, 0, 0, 0, false), Shape(np, nm, nk, j, 0, 0, 0, false));
    }
  }

  /** A minor premise mentions nothing beyond the parameters, the motives and the earlier minors. */
  lemma MinorScoped(g: Group, ownerPos: nat, ctor: Ctor, nk: nat)
    requires ownerPos < |g.members| && WellScoped(g) && Loose(ctor.typ) == 0
    requires SpecMinor(g, ownerPos, ctor, nk).Ok?
    ensures Loose(SpecMinor(g, ownerPos, ctor, nk).value) <= g.np + |g.members| + nk
  {
    HasPisDomains(ctor.typ, g.np);
    PeelScoped(ctor.typ, g.np, 0);
    MinorUnderScoped(g, ownerPos, ctor, Types(Domains(ctor.typ)[..g.np]), Peel(ctor.typ, g.np), nk);
  }

  lemma MinorUnderScoped(g: Group, ownerPos: nat, ctor: Ctor, paramTypes: seq<Term>, rest: Term, nk: nat)
    requires ownerPos < |g.members| && WellScoped(g) && |paramTypes| == g.np && Loose(rest) <= g.np
    requires MinorUnder(g, ownerPos, ctor, paramTypes, rest, nk).Ok?
    ensures Loose(MinorUnder(g, ownerPos, ctor, paramTypes, rest, nk).value) <= g.np + |g.members| + nk
  {
    hide SpecHyps, MinorResult, FieldBinders, Close, WellScoped, FindTarget, Domains, Core, Loose;
    var fields := Domains(rest);
    DomainsScoped(rest, g.np);
    FindTargetScoped(g.members, 0, Core(rest), g.np, g.np + |fields|);
    var indices := FindTarget(g.members, 0, Core(rest), g.np, g.np + |fields|).value.1;
    MinorTelescopeScoped(g, ownerPos, ctor, paramTypes, fields, indices, nk);
  }

  lemma MinorTelescopeScoped(g: Group, ownerPos: nat, ctor: Ctor, paramTypes: seq<Term>, fields: seq<Binder>,
                             indices: seq<Term>, nk: nat)
    requires ownerPos < |g.members| && WellScoped(g) && |paramTypes| == g.np && TelescopeIn(fields, g.np)
    requires SpecHyps(g, paramTypes, fields, |fields|, nk).Ok?
    requires forall k :: 0 <= k < |indices| ==> Loose(indices[k]) <= g.np + |fields|
    ensures var hyps := SpecHyps(g, paramTypes, fields, |fields|, nk).value;
            Loose(Close(FieldBinders(g.np, |g.members|, nk, fields) + hyps,
                        MinorResult(g.members[ownerPos], ownerPos, ctor, g.np, |g.members|, nk, |fields|, |hyps|,
                                    indices)))
            <= g.np + |g.members| + nk
  {
    var hyps := SpecHyps(g, paramTypes, fields, |fields|, nk).value;
    SpecHypsScoped(g, paramTypes, fields, |fields|, nk);
    FieldBindersScoped(g.np, |g.members|, nk, fields);
    assert WellScopedMember(g.members[ownerPos], g.np);
    MinorResultScoped(g, ownerPos, ctor, nk, |fields|, |hyps|, indices);
    CloseScoped(FieldBinders(g.np, |g.members|, nk, fields) + hyps,
                MinorResult(g.members[ownerPos], ownerPos, ctor, g.np, |g.members|, nk, |fields|, |hyps|, indices),
                g.np + |g.members| + nk);
  }

  function CtorsBefore(members: seq<Member>, owner: nat): nat
    requires owner <= |members|
  {
    if owner == 0 then 0 else CtorsBefore(members, owner - 1) + |members[owner - 1].ctors|
  }

  lemma {:induction false} SpecMinorsScoped(g: Group, owner: nat, upTo: nat)
    requires AtCtor(g, owner, upTo) && WellScoped(g) && SpecMinors(g, owner, upTo).Ok?
    ensures TelescopeIn(SpecMinors(g, owner, upTo).value, g.np + |g.members|)
    ensures |SpecMinors(g, owner, upTo).value| == CtorsBefore(g.members, owner) + upTo
    decreases owner, upTo
  {
    hide SpecMinor, Loose;
    if upTo > 0 {
      SpecMinorsScoped(g, owner, upTo - 1);
      assert WellScopedMember(g.members[owner], g.np);
      MinorScoped(g, owner, g.members[owner].ctors[upTo - 1], |SpecMinors(g, owner, upTo - 1).value|);
    } else if owner > 0 {
      SpecMinorsScoped(g, owner - 1, |g.members[owner - 1].ctors|);
    }
  }

  lemma PartsScoped(g: Group, target: nat, params: seq<Binder>, elim: L.Level)
    requires target < |g.members| && |params| == g.np && WellScoped(g) && TelescopeIn(params, 0)
    requires SpecParts(g, target, params, elim).Ok?
    ensures var (binders, result) := SpecParts(g, target, params, elim).value;
            TelescopeIn(binders, 0) && Loose(result) <= |binders| && !result.Pi?
            && |binders| == g.np + |g.members| + CtorsBefore(g.members, |g.members|) + g.members[target].numIndices + 1
  {
    hide SpecResult, MemberType, SpecMotives, SpecMinors, IndexDomains, Loose;
    var nm := |g.members|;
    SpecMotivesScoped(g, nm, elim);
    SpecMinorsScoped(g, nm, 0);
    var nk := |SpecMinors(g, nm, 0).value|;
    var m := g.members[target];
    IndexDomainsScoped(m, g.np);
    IndexBindersScoped(g.np, nm, nk, IndexDomains(m, g.np).value);
    MemberTypeScoped(m, g.np, nm, nk);
    ResultScoped(target, g.np, nm, nk, m.numIndices);
  }

  lemma ResultScoped(target: nat, np: nat, nm: nat, nk: nat, ni: nat)
    requires target < nm
    ensures Loose(SpecResult(target, np, nm, nk, ni)) <= np + nm + nk + ni + 1
    ensures !SpecResult(target, np, nm, nk, ni).Pi?
  {
    var t := Shape(np, nm, nk, 0, 0, 0, ni, true);
    IndexVarsScoped(t);
    VarScoped(t, Motive(target));
    VarScoped(t, Major);
    AppsScoped(V(Layout(t), Motive(target)), IndexVars(Layout(t), ni) + [V(Layout(t), Major)], Size(t));
    AppsSnoc(V(Layout(t), Motive(target)), IndexVars(Layout(t), ni), V(Layout(t), Major));
  }

  /** The recursor type of a well-scoped group is closed and binds exactly the parameters,
      one motive per member, one minor per constructor, the target's indices and the major. */
  lemma RecursorClosed(g: Group, target: nat, params: seq<Binder>, elim: L.Level)
    requires target < |g.members| && |params| == g.np && WellScoped(g) && TelescopeIn(params, 0)
    requires SpecRecursor(g, target, params, elim).Ok?
    ensures var t := SpecRecursor(g, target, params, elim).value;
            var n := g.np + |g.members| + CtorsBefore(g.members, |g.members|) + g.members[target].numIndices + 1;
            Loose(t) == 0 && HasPis(t, n) && !Peel(t, n).Pi?
  {
    PartsScoped(g, target, params, elim);
    var (binders, result) := SpecParts(g, target, params, elim).value;
    CloseScoped(binders, result, 0);
    CloseHasPis(binders, result);
  }

  // --------------------------------------------- what the recursor type says

  /** The member at its fixed parameters and the index variables, in order. */
  ghost predicate MemberAt(m: Member, np: nat, t: Shape, e: Term) {
    exists fixed, vars ::
      e == Apps(Const(m.source, m.levels), fixed + vars) && Alike(fixed, t, m.fixedParams, Given(np))
      && |vars| == m.numIndices && forall i :: 0 <= i < |vars| ==> Is(vars[i], t, Index(i))
  }

  ghost predicate HasIndices(m: Member, np: nat) {
    HasPis(m.typ, np) && HasPis(Peel(m.typ, np), m.numIndices) && m.numIndices <= |Domains(Peel(m.typ, np))|
  }

  /** `bs` are the indices of the member as its type declares them, after motives and minors. */
  ghost predicate IndicesRead(m: Member, np: nat, nm: nat, nk: nat, bs: seq<Binder>) {
    HasIndices(m, np) && |bs| == m.numIndices
    && forall i :: 0 <= i < |bs| ==>
         BinderReads(bs[i], Shape(np, nm, nk, 0, 0, 0, i, false), Domains(Peel(m.typ, np))[i],
                     Shape(np, 0, 0, 0, 0, 0, i, false))
  }

  /** For all indices and every inhabitant of the member at them, the sort the recursor eliminates into. */
  ghost predicate MotiveReads(m: Member, np: nat, before: nat, elim: L.Level, b: Binder) {
    var bs, ni := Domains(b.typ), m.numIndices;
    b.info == Default && |bs| == ni + 1 && IndicesRead(m, np, before, 0, bs[..ni])
    && bs[ni].info == Default && MemberAt(m, np, Shape(np, before, 0, 0, 0, 0, ni, false), bs[ni].typ)
    && Core(b.typ) == Sort(elim)
  }

  /** The motive of the target holds of the index variables, in order, and of the major premise. */
  ghost predicate ResultReads(e: Term, t: Shape, target: nat) {
    exists motive, vars, major ::
      e == Apps(motive, vars + [major]) && Is(motive, t, Motive(target)) && Is(major, t, Major)
      && |vars| == t.indices && forall i :: 0 <= i < |vars| ==> Is(vars[i], t, Index(i))
  }

  /** Minor number `n` belongs to constructor `c` of member `o`, counting constructors member by member. */
  ghost predicate MinorAt(g: Group, o: nat, c: nat, minors: seq<Binder>)
    requires o < |g.members| && c < |g.members[o].ctors|
  {
    var n := CtorsBefore(g.members, o) + c;
    n < |minors| && minors[n].info == Default && MinorReads(g, o, g.members[o].ctors[c], n, minors[n].typ)
  }

  /** Parameters; a motive for each member; a minor for each constructor; the target's indices; a value of the target
      at them. */
  ghost predicate BindersRead(g: Group, target: nat, params: seq<Binder>, elim: L.Level, bs: seq<Binder>)
    requires target < |g.members|
  {
    var m, nm, nk := g.members[target], |g.members|, CtorsBefore(g.members, |g.members|);
    var motives, minors, indices := g.np + nm, g.np + nm + nk, g.np + nm + nk + m.numIndices;
    |bs| == indices + 1 && bs[..g.np] == params
    && (forall k :: 0 <= k < nm ==> MotiveReads(g.members[k], g.np, k, elim, bs[g.np + k]))
    && (forall o, c :: 0 <= o < nm && 0 <= c < |g.members[o].ctors| ==> MinorAt(g, o, c, bs[motives..minors]))
    && IndicesRead(m, g.np, nm, nk, bs[minors..indices])
    && bs[indices].info == Default
    && MemberAt(m, g.np, Shape(g.np, nm, nk, 0, 0, 0, m.numIndices, false), bs[indices].typ)
  }

  /** Over all these binders, the target's motive at its indices and that value. */
  ghost predicate RecursorReads(g: Group, target: nat, params: seq<Binder>, elim: L.Level, t: Term)
    requires target < |g.members|
  {
    BindersRead(g, target, params, elim, Domains(t))
    && ResultReads(Core(t), Shape(g.np, |g.members|, CtorsBefore(g.members, |g.members|), 0, 0, 0,
                                  g.members[target].numIndices, true), target)
  }

  /** Every member has its parameters and indices, and every constructor fits. */
  ghost predicate GroupFits(g: Group) {
    (forall k :: 0 <= k < |g.members| ==> HasIndices(g.members[k], g.np))
    && forall o, c :: 0 <= o < |g.members| && 0 <= c < |g.members[o].ctors| ==> CtorFits(g, o, g.members[o].ctors[c])
  }

  lemma IndicesSay(m: Member, np: nat, nm: nat, nk: nat)
    requires Loose(m.typ) == 0
    ensures IndexDomains(m, np).Ok? <==> HasIndices(m, np)
    ensures IndexDomains(m, np).Ok? ==> IndicesRead(m, np, nm, nk, IndexBinders(np, nm, nk, IndexDomains(m, np).value))
  {
    hide Layout, Transport, Same, Loose, Domains;
    if HasPis(m.typ, np) && HasPis(Peel(m.typ, np), m.numIndices) {
      HasPisDomains(Peel(m.typ, np), m.numIndices);
      IndexDomainsScoped(m, np);
      var idx := IndexDomains(m, np).value;
      forall i | 0 <= i < |idx|
        ensures BinderReads(IndexBinders(np, nm, nk, idx)[i], Shape(np, nm, nk, 0, 0, 0, i, false), idx[i],
                            Shape(np, 0, 0, 0, 0, 0, i, false))
      {
        ReadsAlike(idx[i].typ, Shape(np, 0, 0, 0, 0, 0, i, false), Shape(np, nm, nk, 0, 0, 0, i, false));
      }
    }
  }

  lemma MemberSays(m: Member, np: nat, nm: nat, nk: nat)
    requires ParamsOnly(m.fixedParams, np)
    ensures MemberAt(m, np, Shape(np, nm, nk, 0, 0, 0, m.numIndices, false), MemberType(m, np, nm, nk))
  {
    hide Layout, Transport, Same, Loose, Is, Alike;
    var t := Shape(np, nm, nk, 0, 0, 0, m.numIndices, false);
    var vars := IndexVars(Layout(t), m.numIndices);
    TransportAlike(m.fixedParams, Given(np), t);
    forall i | 0 <= i < m.numIndices ensures Is(vars[i], t, Index(i)) { VariableIs(t, Index(i)); }
  }

  lemma MotiveSays(m: Member, np: nat, before: nat, elim: L.Level)
    requires WellScopedMember(m, np) && IndexDomains(m, np).Ok?
    ensures MotiveReads(m, np, before, elim,
                        Binder(Default, MotiveType(m, np, before, IndexDomains(m, np).value, elim)))
  {
    hide Loose, MemberType, MemberAt, IndicesRead, HasIndices, IndexBinders;
    var idx := IndexDomains(m, np).value;
    IndicesSay(m, np, before, 0);
    MemberSays(m, np, before, 0);
    var bs, end := IndexBinders(np, before, 0, idx), Pi(Default, MemberType(m, np, before, 0), Sort(elim));
    IndexBindersSize(np, before, 0, idx);
    CloseOpens(bs, end);
    assert Domains(end) == [Binder(Default, end.ty)] && Core(end) == Sort(elim);
    assert (bs + Domains(end))[..|idx|] == bs;
  }

  lemma IndexBindersSize(np: nat, nm: nat, nk: nat, idx: seq<Binder>)
    ensures |IndexBinders(np, nm, nk, idx)| == |idx|
  {}

  lemma {:induction false} MotivesSay(g: Group, upTo: nat, elim: L.Level)
    requires upTo <= |g.members| && WellScoped(g)
    ensures SpecMotives(g, upTo, elim).Ok? <==> forall k :: 0 <= k < upTo ==> HasIndices(g.members[k], g.np)
    ensures SpecMotives(g, upTo, elim).Ok? ==>
              forall k :: 0 <= k < upTo ==>
                MotiveReads(g.members[k], g.np, k, elim, SpecMotives(g, upTo, elim).value[k])
  {
    hide WellScopedMember, MotiveReads, MotiveType, IndexDomains, HasIndices;
    if upTo > 0 {
      MotivesSay(g, upTo - 1, elim);
      var m := g.members[upTo - 1];
      assert WellScopedMember(m, g.np);
      MemberClosed(m, g.np);
      IndicesSay(m, g.np, 0, 0);
      if IndexDomains(m, g.np).Ok? { MotiveSays(m, g.np, upTo - 1, elim); }
    }
  }

  lemma MemberClosed(m: Member, np: nat)
    requires WellScopedMember(m, np)
    ensures Loose(m.typ) == 0 && ParamsOnly(m.fixedParams, np)
    ensures forall c :: 0 <= c < |m.ctors| ==> Loose(m.ctors[c].typ) == 0
  {}

  /** Constructor `c` of member `o` comes before constructor `upTo` of member `owner`. */
  predicate Earlier(o: nat, c: nat, owner: nat, upTo: nat) { o < owner || (o == owner && c < upTo) }

  ghost predicate MinorsFit(g: Group, owner: nat, upTo: nat) {
    forall o, c :: 0 <= o < |g.members| && 0 <= c < |g.members[o].ctors| && Earlier(o, c, owner, upTo) ==>
                     CtorFits(g, o, g.members[o].ctors[c])
  }

  ghost predicate MinorsRead(g: Group, owner: nat, upTo: nat, minors: seq<Binder>) {
    forall o, c :: 0 <= o < |g.members| && 0 <= c < |g.members[o].ctors| && Earlier(o, c, owner, upTo) ==>
                     MinorAt(g, o, c, minors)
  }

  lemma {:induction false} MinorsSay(g: Group, owner: nat, upTo: nat)
    requires AtCtor(g, owner, upTo) && WellScoped(g)
    ensures SpecMinors(g, owner, upTo).Ok? <==> MinorsFit(g, owner, upTo)
    ensures SpecMinors(g, owner, upTo).Ok? ==>
              |SpecMinors(g, owner, upTo).value| == CtorsBefore(g.members, owner) + upTo
                && MinorsRead(g, owner, upTo, SpecMinors(g, owner, upTo).value)
    decreases owner, upTo
  {
    hide SpecMinor, WellScopedMember, MinorReads, CtorFits;
    if upTo > 0 {
      MinorsSay(g, owner, upTo - 1);
      var m := g.members[owner];
      assert WellScopedMember(m, g.np);
      MemberClosed(m, g.np);
      var before := SpecMinors(g, owner, upTo - 1);
      if before.Ok? { MinorPremiseReads(g, owner, m.ctors[upTo - 1], |before.value|); }
      assert MinorsFit(g, owner, upTo) <==> MinorsFit(g, owner, upTo - 1) && CtorFits(g, owner, m.ctors[upTo - 1]);
      if SpecMinors(g, owner, upTo).Ok? {
        MinorsReadMore(g, owner, upTo - 1, before.value, SpecMinors(g, owner, upTo).value[|before.value|]);
      }
    } else if owner > 0 {
      MinorsSay(g, owner - 1, |g.members[owner - 1].ctors|);
    }
  }

  lemma MinorsReadMore(g: Group, owner: nat, upTo: nat, minors: seq<Binder>, b: Binder)
    requires owner < |g.members| && upTo < |g.members[owner].ctors| && MinorsRead(g, owner, upTo, minors)
    requires |minors| == CtorsBefore(g.members, owner) + upTo && b.info == Default
    requires MinorReads(g, owner, g.members[owner].ctors[upTo], |minors|, b.typ)
    ensures MinorsRead(g, owner, upTo + 1, minors + [b])
  {
    hide MinorReads;
    forall o, c | 0 <= o < |g.members| && 0 <= c < |g.members[o].ctors| && Earlier(o, c, owner, upTo + 1)
      ensures MinorAt(g, o, c, minors + [b])
    {
      if Earlier(o, c, owner, upTo) { assert MinorAt(g, o, c, minors); }
    }
  }

  lemma TailSays(target: nat, np: nat, nm: nat, nk: nat, ni: nat)
    requires target < nm
    ensures ResultReads(SpecResult(target, np, nm, nk, ni), Shape(np, nm, nk, 0, 0, 0, ni, true), target)
    ensures Domains(SpecResult(target, np, nm, nk, ni)) == []
            && Core(SpecResult(target, np, nm, nk, ni)) == SpecResult(target, np, nm, nk, ni)
  {
    hide Layout, Is;
    var t := Shape(np, nm, nk, 0, 0, 0, ni, true);
    var vars := IndexVars(Layout(t), ni);
    VariableIs(t, Motive(target));
    VariableIs(t, Major);
    forall i | 0 <= i < ni ensures Is(vars[i], t, Index(i)) { VariableIs(t, Index(i)); }
    NotPiApps(V(Layout(t), Motive(target)), vars + [V(Layout(t), Major)]);
  }

  lemma PartsInPlace(params: seq<Binder>, motives: seq<Binder>, minors: seq<Binder>, indices: seq<Binder>,
                     major: Binder)
    ensures var bs := params + motives + minors + indices + [major];
            var a, b := |params| + |motives|, |params| + |motives| + |minors|;
            |bs| == b + |indices| + 1 && bs[..|params|] == params
            && (forall k :: 0 <= k < |motives| ==> bs[|params| + k] == motives[k])
            && bs[a..b] == minors && bs[b..b + |indices|] == indices && bs[b + |indices|] == major
  {}

  lemma FitsInParts(g: Group)
    ensures GroupFits(g)
       <==> (forall k :: 0 <= k < |g.members| ==> HasIndices(g.members[k], g.np)) && MinorsFit(g, |g.members|, 0)
  {
    hide HasIndices, CtorFits;
  }

  /** The recursor type exists exactly when the group fits, and says what it should. */
  lemma RecursorSays(g: Group, target: nat, params: seq<Binder>, elim: L.Level)
    requires target < |g.members| && |params| == g.np && WellScoped(g)
    ensures SpecRecursor(g, target, params, elim).Ok? <==> GroupFits(g)
    ensures SpecRecursor(g, target, params, elim).Ok? ==>
              RecursorReads(g, target, params, elim, SpecRecursor(g, target, params, elim).value)
  {
    hide WellScopedMember, MotiveReads, MinorAt, HasIndices, SpecMotives, SpecMinors, IndexDomains, Close, MinorsRead,
         SpecResult, MemberType, IndicesRead, MemberAt, ResultReads, IndexBinders, GroupFits, MinorsFit, RecursorReads;
    var nm, m := |g.members|, g.members[target];
    MotivesSay(g, nm, elim);
    MinorsSay(g, nm, 0);
    FitsInParts(g);
    assert WellScopedMember(m, g.np);
    MemberClosed(m, g.np);
    IndicesSay(m, g.np, 0, 0);
    if SpecRecursor(g, target, params, elim).Ok? {
      WholeSays(g, target, params, elim, SpecMotives(g, nm, elim).value, SpecMinors(g, nm, 0).value);
    }
  }

  lemma BindersSay(g: Group, target: nat, params: seq<Binder>, elim: L.Level, motives: seq<Binder>,
                   minors: seq<Binder>, indices: seq<Binder>, major: Binder)
    requires target < |g.members| && |params| == g.np
    requires |motives| == |g.members|
             && forall k :: 0 <= k < |g.members| ==> MotiveReads(g.members[k], g.np, k, elim, motives[k])
    requires |minors| == CtorsBefore(g.members, |g.members|) && MinorsRead(g, |g.members|, 0, minors)
    requires IndicesRead(g.members[target], g.np, |g.members|, |minors|, indices) && major.info == Default
    requires MemberAt(g.members[target], g.np,
                      Shape(g.np, |g.members|, |minors|, 0, 0, 0, g.members[target].numIndices, false), major.typ)
    ensures BindersRead(g, target, params, elim, params + motives + minors + indices + [major])
  {
    hide MotiveReads, MinorAt, HasIndices, MemberAt, BinderReads;
    PartsInPlace(params, motives, minors, indices, major);
  }

  lemma WholeSays(g: Group, target: nat, params: seq<Binder>, elim: L.Level, motives: seq<Binder>, minors: seq<Binder>)
    requires target < |g.members| && |params| == g.np && WellScoped(g) && IndexDomains(g.members[target], g.np).Ok?
    requires |motives| == |g.members|
             && forall k :: 0 <= k < |g.members| ==> MotiveReads(g.members[k], g.np, k, elim, motives[k])
    requires |minors| == CtorsBefore(g.members, |g.members|) && MinorsRead(g, |g.members|, 0, minors)
    ensures var m, nm, nk := g.members[target], |g.members|, |minors|;
            RecursorReads(g, target, params, elim,
                          Close(params + motives + minors
                                + IndexBinders(g.np, nm, nk, IndexDomains(m, g.np).value)
                                + [Binder(Default, MemberType(m, g.np, nm, nk))],
                                SpecResult(target, g.np, nm, nk, m.numIndices)))
  {
    hide WellScopedMember, MotiveReads, MinorsRead, IndexDomains, Close, SpecResult, MemberType, IndicesRead, MemberAt,
         ResultReads, IndexBinders, Domains, Core, BindersRead;
    var m, nm, nk := g.members[target], |g.members|, |minors|;
    var idx := IndexDomains(m, g.np).value;
    var indices, result := IndexBinders(g.np, nm, nk, idx), SpecResult(target, g.np, nm, nk, m.numIndices);
    var major := Binder(Default, MemberType(m, g.np, nm, nk));
    assert WellScopedMember(m, g.np);
    MemberClosed(m, g.np);
    IndicesSay(m, g.np, nm, nk);
    MemberSays(m, g.np, nm, nk);
    TailSays(target, g.np, nm, nk, m.numIndices);
    BindersSay(g, target, params, elim, motives, minors, indices, major);
    var bs := params + motives + minors + indices + [major];
    CloseOpens(bs, result);
    assert bs + [] == bs;
  }
}
