/**
 Contexts with named binders. A context lists binders outermost first; a loose
 index counts from its end. `Transport` moves a term between two contexts so that
 every free variable keeps naming the same binder, and `Same` says that two terms
 read alike in their contexts, without mentioning any index arithmetic.
 */
module Contexts {
  import opened Terms

  // --------------------------------------------------------------- renaming

  function Rename(e: Term, f: nat -> nat, k: nat): Term {
    match e
    case BVar(i) => if i < k then e else BVar(k + f(i - k))
    case Sort(_) => e
    case Const(_, _) => e
    case Lit(_) => e
    case App(g, x) => App(Rename(g, f, k), Rename(x, f, k))
    case Lam(bi, ty, body) => Lam(bi, Rename(ty, f, k), Rename(body, f, k + 1))
    case Pi(bi, ty, body) => Pi(bi, Rename(ty, f, k), Rename(body, f, k + 1))
    case Let(ty, val, body) => Let(Rename(ty, f, k), Rename(val, f, k), Rename(body, f, k + 1))
    case Proj(s, i, v) => Proj(s, i, Rename(v, f, k))
  }

  /** `n` new binders outside the innermost `cutoff` ones. */
  function Insert(cutoff: nat, n: nat): nat -> nat { i => if i < cutoff then i else i + n }

  /** `inner` new binders outside the innermost `low`, and `outer` more outside `mid` further ones. */
  function InsertTwo(low: nat, inner: nat, mid: nat, outer: nat): nat -> nat {
    i => if i < low then i else if i < low + mid then i + inner else i + inner + outer
  }

  lemma {:induction false} ShiftIsRename(e: Term, n: nat, cutoff: nat, k: nat)
    ensures Shift(e, n, cutoff + k) == Rename(e, Insert(cutoff, n), k)
  {
    match e
    case App(g, x) => ShiftIsRename(g, n, cutoff, k); ShiftIsRename(x, n, cutoff, k);
    case Lam(_, ty, body) => ShiftIsRename(ty, n, cutoff, k); ShiftIsRename(body, n, cutoff, k + 1);
    case Pi(_, ty, body) => ShiftIsRename(ty, n, cutoff, k); ShiftIsRename(body, n, cutoff, k + 1);
    case Let(ty, val, body) =>
      ShiftIsRename(ty, n, cutoff, k);
      ShiftIsRename(val, n, cutoff, k);
      ShiftIsRename(body, n, cutoff, k + 1);
    case Proj(_, _, v) => ShiftIsRename(v, n, cutoff, k);
    case _ =>
  }

  lemma TwoShiftsVar(i: nat, low: nat, inner: nat, mid: nat, outer: nat, k: nat)
    ensures Shift(Shift(BVar(i), outer, low + mid + k), inner, low + k)
            == Rename(BVar(i), InsertTwo(low, inner, mid, outer), k)
  {}

  /** Two shifts, the second below the first, are one renaming, for every term. */
  lemma {:induction false} TwoShiftsAt(e: Term, low: nat, inner: nat, mid: nat, outer: nat, k: nat)
    ensures Shift(Shift(e, outer, low + mid + k), inner, low + k) == Rename(e, InsertTwo(low, inner, mid, outer), k)
  {
    hide InsertTwo;
    match e
    case BVar(i) => TwoShiftsVar(i, low, inner, mid, outer, k);
    case App(g, x) => TwoShiftsAt(g, low, inner, mid, outer, k); TwoShiftsAt(x, low, inner, mid, outer, k);
    case Lam(_, ty, body) =>
      TwoShiftsAt(ty, low, inner, mid, outer, k);
      TwoShiftsAt(body, low, inner, mid, outer, k + 1);
    case Pi(_, ty, body) =>
      TwoShiftsAt(ty, low, inner, mid, outer, k);
      TwoShiftsAt(body, low, inner, mid, outer, k + 1);
    case Let(ty, val, body) =>
      TwoShiftsAt(ty, low, inner, mid, outer, k);
      TwoShiftsAt(val, low, inner, mid, outer, k);
      TwoShiftsAt(body, low, inner, mid, outer, k + 1);
    case Proj(_, _, v) => TwoShiftsAt(v, low, inner, mid, outer, k);
    case _ =>
  }

  /** Renamings that agree on the loose indices below `n` agree on terms scoped below `n`. */
  lemma {:induction false} RenameAgree(e: Term, f: nat -> nat, g: nat -> nat, n: nat, k: nat)
    requires Loose(e) <= n + k
    requires forall i :: 0 <= i < n ==> f(i) == g(i)
    ensures Rename(e, f, k) == Rename(e, g, k)
  {
    match e
    case App(h, x) => RenameAgree(h, f, g, n, k); RenameAgree(x, f, g, n, k);
    case Lam(_, ty, body) => RenameAgree(ty, f, g, n, k); RenameAgree(body, f, g, n, k + 1);
    case Pi(_, ty, body) => RenameAgree(ty, f, g, n, k); RenameAgree(body, f, g, n, k + 1);
    case Let(ty, val, body) =>
      RenameAgree(ty, f, g, n, k);
      RenameAgree(val, f, g, n, k);
      RenameAgree(body, f, g, n, k + 1);
    case Proj(_, _, v) => RenameAgree(v, f, g, n, k);
    case _ =>
  }

  ghost predicate MapsBelow(f: nat -> nat, n: nat, m: nat) { forall i :: 0 <= i < n ==> f(i) < m }

  lemma RenameVarScoped(i: nat, f: nat -> nat, n: nat, m: nat, k: nat)
    requires i < n + k && MapsBelow(f, n, m)
    ensures Loose(Rename(BVar(i), f, k)) <= m + k
  {
    if i >= k { assert f(i - k) < m; }
  }

  lemma {:induction false} RenameScoped(e: Term, f: nat -> nat, n: nat, m: nat, k: nat)
    requires Loose(e) <= n + k && MapsBelow(f, n, m)
    ensures Loose(Rename(e, f, k)) <= m + k
    decreases e, 1
  {
    LooseParts(e, n + k);
    LooseParts(Rename(e, f, k), m + k);
    hide MapsBelow, Loose;
    match e
    case BVar(i) => RenameVarScoped(i, f, n, m, k);
    case App(h, x) => RenameScoped(h, f, n, m, k); RenameScoped(x, f, n, m, k);
    case Lam(_, ty, body) => RenameBinderScoped(e, ty, body, f, n, m, k);
    case Pi(_, ty, body) => RenameBinderScoped(e, ty, body, f, n, m, k);
    case Let(ty, val, body) => RenameScoped(val, f, n, m, k); RenameBinderScoped(e, ty, body, f, n, m, k);
    case Proj(_, _, v) => RenameScoped(v, f, n, m, k);
    case _ =>
  }

  lemma {:induction false} RenameBinderScoped(e: Term, ty: Term, body: Term, f: nat -> nat, n: nat, m: nat, k: nat)
    requires ty < e && body < e && Loose(ty) <= n + k && Loose(body) <= n + k + 1 && MapsBelow(f, n, m)
    ensures Loose(Rename(ty, f, k)) <= m + k && Loose(Rename(body, f, k + 1)) <= m + k + 1
    decreases e, 0
  {
    hide Loose, Rename, MapsBelow;
    RenameScoped(ty, f, n, m, k);
    RenameScoped(body, f, n, m, k + 1);
  }

  // --------------------------------------------------------- named contexts

  datatype Slot =
    | Param(i: nat) | Motive(i: nat) | Minor(i: nat) | Field(i: nat)
    | Hyp(i: nat) | Arg(i: nat) | Index(i: nat) | Major

  type Ctx = seq<Slot>

  predicate Distinct(ctx: Ctx) { forall p, q :: 0 <= p < q < |ctx| ==> ctx[p] != ctx[q] }

  function Pos(ctx: Ctx, s: Slot): (p: nat)
    requires s in ctx
    ensures p < |ctx| && ctx[p] == s
  {
    if ctx[0] == s then 0 else 1 + Pos(ctx[1..], s)
  }

  /** The loose index that names `s` at the end of `ctx`. */
  function VarOf(ctx: Ctx, s: Slot): nat { if s in ctx then |ctx| - 1 - Pos(ctx, s) else 0 }

  /** The binder a loose index names. */
  function SlotAt(ctx: Ctx, i: nat): Slot
    requires i < |ctx|
  {
    ctx[|ctx| - 1 - i]
  }

  lemma VarOfAt(ctx: Ctx, p: nat)
    requires Distinct(ctx) && p < |ctx|
    ensures VarOf(ctx, ctx[p]) == |ctx| - 1 - p
    ensures SlotAt(ctx, VarOf(ctx, ctx[p])) == ctx[p]
  {}

  function V(ctx: Ctx, s: Slot): Term { BVar(VarOf(ctx, s)) }

  function TransportVar(src: Ctx, dst: Ctx): nat -> nat {
    (i: nat) => if i < |src| then VarOf(dst, SlotAt(src, i)) else i
  }

  /** The term that says in `dst` what `e` says in `src`. */
  function Transport(e: Term, src: Ctx, dst: Ctx): Term { Rename(e, TransportVar(src, dst), 0) }

  function TransportAll(es: seq<Term>, src: Ctx, dst: Ctx): seq<Term> {
    seq(|es|, k requires 0 <= k < |es| => Transport(es[k], src, dst))
  }

  ghost predicate Within(src: Ctx, dst: Ctx) { forall s :: s in src ==> s in dst }

  /** `a` in context `c` and `b` in context `d`, both under `k` further binders, are the
      same term, every free variable naming the same binder. */
  predicate Same(a: Term, c: Ctx, b: Term, d: Ctx, k: nat) {
    match (a, b)
    case (BVar(i), BVar(j)) =>
      if i < k || j < k then i == j
      else i - k < |c| && j - k < |d| && SlotAt(c, i - k) == SlotAt(d, j - k)
    case (Sort(_), Sort(_)) => a == b
    case (Const(_, _), Const(_, _)) => a == b
    case (Lit(_), Lit(_)) => a == b
    case (App(f, x), App(g, y)) => Same(f, c, g, d, k) && Same(x, c, y, d, k)
    case (Lam(bi, ty, body), Lam(bj, ty', body')) =>
      bi == bj && Same(ty, c, ty', d, k) && Same(body, c, body', d, k + 1)
    case (Pi(bi, ty, body), Pi(bj, ty', body')) => bi == bj && Same(ty, c, ty', d, k) && Same(body, c, body', d, k + 1)
    case (Let(ty, val, body), Let(ty', val', body')) =>
      Same(ty, c, ty', d, k) && Same(val, c, val', d, k) && Same(body, c, body', d, k + 1)
    case (Proj(s, i, v), Proj(t, j, w)) => s == t && i == j && Same(v, c, w, d, k)
    case _ => false
  }

  lemma TransportVarSame(i: nat, src: Ctx, dst: Ctx, k: nat)
    requires Within(src, dst) && i < |src| + k
    ensures Same(Rename(BVar(i), TransportVar(src, dst), k), dst, BVar(i), src, k)
  {
    if i >= k { assert SlotAt(src, i - k) in dst; }
  }

  lemma {:induction false} TransportSameAt(e: Term, src: Ctx, dst: Ctx, k: nat)
    requires Within(src, dst) && Loose(e) <= |src| + k
    ensures Same(Rename(e, TransportVar(src, dst), k), dst, e, src, k)
  {
    LooseParts(e, |src| + k);
    hide Loose, Within, TransportVar, SlotAt;
    match e
    case BVar(i) => TransportVarSame(i, src, dst, k);
    case App(g, x) => TransportSameAt(g, src, dst, k); TransportSameAt(x, src, dst, k);
    case Lam(_, ty, body) => TransportSameAt(ty, src, dst, k); TransportSameAt(body, src, dst, k + 1);
    case Pi(_, ty, body) => TransportSameAt(ty, src, dst, k); TransportSameAt(body, src, dst, k + 1);
    case Let(ty, val, body) =>
      TransportSameAt(ty, src, dst, k);
      TransportSameAt(val, src, dst, k);
      TransportSameAt(body, src, dst, k + 1);
    case Proj(_, _, v) => TransportSameAt(v, src, dst, k);
    case _ =>
  }

  lemma {:induction false} SameUniqueAt(a: Term, b: Term, dst: Ctx, e: Term, src: Ctx, k: nat)
    requires Distinct(dst)
    requires Same(a, dst, e, src, k) && Same(b, dst, e, src, k)
    ensures a == b
  {
    match e
    case App(g, x) => SameUniqueAt(a.f, b.f, dst, g, src, k); SameUniqueAt(a.x, b.x, dst, x, src, k);
    case Lam(_, ty, body) =>
      SameUniqueAt(a.ty, b.ty, dst, ty, src, k);
      SameUniqueAt(a.body, b.body, dst, body, src, k + 1);
    case Pi(_, ty, body) =>
      SameUniqueAt(a.ty, b.ty, dst, ty, src, k);
      SameUniqueAt(a.body, b.body, dst, body, src, k + 1);
    case Let(ty, val, body) =>
      SameUniqueAt(a.ty, b.ty, dst, ty, src, k);
      SameUniqueAt(a.val, b.val, dst, val, src, k);
      SameUniqueAt(a.body, b.body, dst, body, src, k + 1);
    case Proj(_, _, v) => SameUniqueAt(a.v, b.v, dst, v, src, k);
    case BVar(j) => if a.i >= k { VarOfAt(dst, |dst| - 1 - (a.i - k)); VarOfAt(dst, |dst| - 1 - (b.i - k)); }
    case _ =>
  }

  /** A transported term is the one term that reads in `dst` as `e` does in `src`, and it is scoped there. */
  lemma TransportExact(e: Term, src: Ctx, dst: Ctx, t: Term)
    requires Within(src, dst) && Distinct(dst) && Loose(e) <= |src|
    ensures Same(t, dst, e, src, 0) <==> t == Transport(e, src, dst)
    ensures Loose(Transport(e, src, dst)) <= |dst|
  {
    TransportSameAt(e, src, dst, 0);
    if Same(t, dst, e, src, 0) { SameUniqueAt(t, Transport(e, src, dst), dst, e, src, 0); }
    TransportScoped(e, src, dst);
  }

  lemma TransportScoped(e: Term, src: Ctx, dst: Ctx)
    requires Within(src, dst) && Loose(e) <= |src|
    ensures Loose(Transport(e, src, dst)) <= |dst|
  {
    forall i | 0 <= i < |src| ensures TransportVar(src, dst)(i) < |dst| { assert SlotAt(src, i) in dst; }
    RenameScoped(e, TransportVar(src, dst), |src|, |dst|, 0);
  }

  // ------------------------------------------- the contexts of the recursor

  /** How many binders of each kind a context has; their order is fixed. */
  datatype Shape = Shape(params: nat, motives: nat, minors: nat, fields: nat, hyps: nat, args: nat, indices: nat,
                         major: bool)

  /** The binder at position `p`, outermost first: parameters, motives, minors, fields, hypotheses,
      arguments, indices, major. */
  function BinderAt(s: Shape, p: nat): Slot {
    var motives := s.params + s.motives;
    var minors := motives + s.minors;
    var fields := minors + s.fields;
    var hyps := fields + s.hyps;
    var args := hyps + s.args;
    if p < s.params then Param(p)
    else if p < motives then Motive(p - s.params)
    else if p < minors then Minor(p - motives)
    else if p < fields then Field(p - minors)
    else if p < hyps then Hyp(p - fields)
    else if p < args then Arg(p - hyps)
    else if p < args + s.indices then Index(p - args)
    else Major
  }

  function Layout(s: Shape): Ctx {
    seq(Size(s), p requires 0 <= p < Size(s) => BinderAt(s, p))
  }

  function Size(s: Shape): nat {
    s.params + s.motives + s.minors + s.fields + s.hyps + s.args + s.indices + if s.major then 1 else 0
  }

  predicate Has(s: Shape, x: Slot) {
    match x
    case Param(i) => i < s.params
    case Motive(i) => i < s.motives
    case Minor(i) => i < s.minors
    case Field(i) => i < s.fields
    case Hyp(i) => i < s.hyps
    case Arg(i) => i < s.args
    case Index(i) => i < s.indices
    case Major => s.major
  }

  function Offset(s: Shape, x: Slot): nat {
    match x
    case Param(i) => i
    case Motive(i) => s.params + i
    case Minor(i) => s.params + s.motives + i
    case Field(i) => s.params + s.motives + s.minors + i
    case Hyp(i) => s.params + s.motives + s.minors + s.fields + i
    case Arg(i) => s.params + s.motives + s.minors + s.fields + s.hyps + i
    case Index(i) => s.params + s.motives + s.minors + s.fields + s.hyps + s.args + i
    case Major => s.params + s.motives + s.minors + s.fields + s.hyps + s.args + s.indices
  }

  lemma LayoutAt(s: Shape)
    ensures |Layout(s)| == Size(s)
    ensures forall p :: 0 <= p < Size(s) ==> Has(s, Layout(s)[p]) && Offset(s, Layout(s)[p]) == p
  {}

  lemma LayoutOf(s: Shape, x: Slot)
    requires Has(s, x)
    ensures |Layout(s)| == Size(s) && Offset(s, x) < Size(s) && Layout(s)[Offset(s, x)] == x
  {}

  lemma LayoutDistinct(s: Shape)
    ensures Distinct(Layout(s))
  {
    LayoutAt(s);
  }

  /** The index arithmetic of the builders, once: where a named binder of a layout is. */
  lemma LayoutVar(s: Shape, x: Slot)
    requires Has(s, x)
    ensures |Layout(s)| == Size(s) && x in Layout(s)
    ensures VarOf(Layout(s), x) == Size(s) - 1 - Offset(s, x)
  {
    LayoutOf(s, x);
    LayoutDistinct(s);
    VarOfAt(Layout(s), Offset(s, x));
  }

  lemma LayoutHas(s: Shape, x: Slot)
    ensures x in Layout(s) <==> Has(s, x)
  {
    LayoutAt(s);
    if Has(s, x) { LayoutOf(s, x); }
  }

  predicate Below(s: Shape, t: Shape) {
    s.params <= t.params && s.motives <= t.motives && s.minors <= t.minors && s.fields <= t.fields
    && s.hyps <= t.hyps && s.args <= t.args && s.indices <= t.indices && (s.major ==> t.major)
  }

  lemma LayoutWithin(s: Shape, t: Shape)
    requires Below(s, t)
    ensures Within(Layout(s), Layout(t))
  {
    forall x | x in Layout(s) ensures x in Layout(t) {
      LayoutHas(s, x);
      LayoutHas(t, x);
    }
  }

  lemma ReadsAlike(e: Term, s: Shape, t: Shape)
    requires Below(s, t)
    ensures Loose(e) <= Size(s) ==>
              Same(Transport(e, Layout(s), Layout(t)), Layout(t), e, Layout(s), 0)
                && Loose(Transport(e, Layout(s), Layout(t))) <= Size(t)
  {
    if Loose(e) <= Size(s) {
      LayoutWithin(s, t);
      LayoutDistinct(t);
      LayoutAt(s);
      LayoutAt(t);
      TransportExact(e, Layout(s), Layout(t), Transport(e, Layout(s), Layout(t)));
    }
  }

  /** How transport between two layouts moves an index, by the kind of binder it names. */
  lemma TransportIndex(s: Shape, t: Shape, i: nat)
    requires Below(s, t) && i < Size(s)
    ensures |Layout(s)| == Size(s)
    ensures TransportVar(Layout(s), Layout(t))(i) == Size(t) - 1 - Offset(t, SlotAt(Layout(s), i))
    ensures Offset(s, SlotAt(Layout(s), i)) == Size(s) - 1 - i && Has(s, SlotAt(Layout(s), i))
  {
    LayoutAt(s);
    LayoutVar(t, SlotAt(Layout(s), i));
  }

  // ------------------------------------- the shifts of the builders are transports

  /** A renaming that sends every named binder to the same binder is the transport. */
  lemma RenameIsTransport(e: Term, f: nat -> nat, s: Shape, t: Shape)
    requires Below(s, t) && Loose(e) <= Size(s)
    requires forall x :: Has(s, x) ==>
               Offset(s, x) < Size(s) && f(Size(s) - 1 - Offset(s, x)) == Size(t) - 1 - Offset(t, x)
    ensures Rename(e, f, 0) == Transport(e, Layout(s), Layout(t))
  {
    var c, d := Layout(s), Layout(t);
    forall i | 0 <= i < Size(s) ensures f(i) == TransportVar(c, d)(i) {
      TransportIndex(s, t, i);
      var x := SlotAt(c, i);
      assert Has(s, x);
    }
    RenameAgree(e, f, TransportVar(c, d), Size(s), 0);
  }

  lemma InsertTwoVar(np: nat, nm: nat, nk: nat, prior: nat, nf: nat, nh: nat, na: nat, x: Slot)
    requires prior <= nf && Has(Shape(np, 0, 0, prior, 0, na, 0, false), x)
    ensures var s, t := Shape(np, 0, 0, prior, 0, na, 0, false), Shape(np, nm, nk, nf, nh, na, 0, false);
            Offset(s, x) < Size(s)
            && InsertTwo(na, nf - prior + nh, prior, nm + nk)(Size(s) - 1 - Offset(s, x)) == Size(t) - 1 - Offset(t, x)
  {}

  /** Parameters, prior fields and function arguments, carried under motives, minors, all
      fields and earlier hypotheses: the builder's two shifts keep every name. */
  lemma TwoShiftsTransport(e: Term, np: nat, nm: nat, nk: nat, prior: nat, nf: nat, nh: nat, na: nat)
    requires prior <= nf
    requires Loose(e) <= np + prior + na
    ensures Shift(Shift(e, nm + nk, na + prior), nf - prior + nh, na)
         == Transport(e, Layout(Shape(np, 0, 0, prior, 0, na, 0, false)),
                      Layout(Shape(np, nm, nk, nf, nh, na, 0, false)))
  {
    hide *;
    TwoShiftsAt(e, na, nf - prior + nh, prior, nm + nk, 0);
    InsertTwoIsTransport(e, np, nm, nk, prior, nf, nh, na);
  }

  lemma InsertTwoIsTransport(e: Term, np: nat, nm: nat, nk: nat, prior: nat, nf: nat, nh: nat, na: nat)
    requires prior <= nf
    requires Loose(e) <= np + prior + na
    ensures Rename(e, InsertTwo(na, nf - prior + nh, prior, nm + nk), 0)
         == Transport(e, Layout(Shape(np, 0, 0, prior, 0, na, 0, false)),
                      Layout(Shape(np, nm, nk, nf, nh, na, 0, false)))
  {
    var s := Shape(np, 0, 0, prior, 0, na, 0, false);
    var t := Shape(np, nm, nk, nf, nh, na, 0, false);
    hide Layout, Transport, Rename;
    var f := InsertTwo(na, nf - prior + nh, prior, nm + nk);
    forall x | Has(s, x) ensures Offset(s, x) < Size(s) && f(Size(s) - 1 - Offset(s, x)) == Size(t) - 1 - Offset(t, x) {
      InsertTwoVar(np, nm, nk, prior, nf, nh, na, x);
    }
    RenameIsTransport(e, f, s, t);
  }

  lemma InsertIsTransport(e: Term, s: Shape, t: Shape, ni: nat, n: nat)
    requires s == Shape(s.params, 0, 0, 0, 0, 0, ni, false)
    requires t.params == s.params && t.indices >= ni && (ni > 0 ==> t.indices == ni && !t.major)
             && Size(t) == Size(s) + n
    requires Loose(e) <= Size(s)
    ensures Rename(e, Insert(ni, n), 0) == Transport(e, Layout(s), Layout(t))
  {
    hide Layout, Transport, Rename;
    var f := Insert(ni, n);
    forall x | Has(s, x) ensures Offset(s, x) < Size(s) && f(Size(s) - 1 - Offset(s, x)) == Size(t) - 1 - Offset(t, x) {
    }
    RenameIsTransport(e, f, s, t);
  }

  /** Parameters and prior indices, carried under motives and minors. */
  lemma IndexShiftTransport(e: Term, np: nat, nm: nat, nk: nat, ni: nat)
    requires Loose(e) <= np + ni
    ensures Shift(e, nm + nk, ni)
         == Transport(e, Layout(Shape(np, 0, 0, 0, 0, 0, ni, false)), Layout(Shape(np, nm, nk, 0, 0, 0, ni, false)))
  {
    var s := Shape(np, 0, 0, 0, 0, 0, ni, false);
    var t := Shape(np, nm, nk, 0, 0, 0, ni, false);
    ShiftIsRename(e, nm + nk, ni, 0);
    InsertIsTransport(e, s, t, ni, nm + nk);
  }

  /** A term over the parameters alone, carried under anything. */
  lemma ParamShiftTransport(e: Term, np: nat, t: Shape)
    requires Loose(e) <= np && t.params == np
    ensures Shift(e, Size(t) - np, 0) == Transport(e, Layout(Shape(np, 0, 0, 0, 0, 0, 0, false)), Layout(t))
  {
    hide Rename, Transport, Layout, Shift;
    var s := Shape(np, 0, 0, 0, 0, 0, 0, false);
    ShiftIsRename(e, Size(t) - np, 0, 0);
    InsertIsTransport(e, s, t, 0, Size(t) - np);
  }
}
