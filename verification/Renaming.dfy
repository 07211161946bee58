/**
 The expansion of a group under two choices of universe names. Renaming universe parameters
 one to one commutes with everything the expansion does, so both choices find the same
 members.
 */
module Renaming {
  import opened Terms
  import opened Recursor
  import opened Nested
  import opened Expansion
  import L = Levels

  type Ren = map<nat, nat>

  ghost predicate OneToOne(ren: Ren) { forall a, b :: a in ren && b in ren && ren[a] == ren[b] ==> a == b }

  // ------------------------------------------------------------------- levels

  /** Every parameter of the level is one of the names. */
  predicate LevelOver(l: L.Level, names: set<nat>) {
    match l
    case Zero => true
    case Succ(a) => LevelOver(a, names)
    case Max(a, b) => LevelOver(a, names) && LevelOver(b, names)
    case IMax(a, b) => LevelOver(a, names) && LevelOver(b, names)
    case Param(n) => n in names
  }

  function RenameLevel(l: L.Level, ren: Ren): L.Level {
    match l
    case Zero => l
    case Succ(a) => L.Succ(RenameLevel(a, ren))
    case Max(a, b) => L.Max(RenameLevel(a, ren), RenameLevel(b, ren))
    case IMax(a, b) => L.IMax(RenameLevel(a, ren), RenameLevel(b, ren))
    case Param(n) => L.Param(if n in ren then ren[n] else n)
  }

  lemma {:induction false} LevelsApart(a: L.Level, b: L.Level, ren: Ren)
    requires OneToOne(ren) && LevelOver(a, ren.Keys) && LevelOver(b, ren.Keys)
    ensures RenameLevel(a, ren) == RenameLevel(b, ren) <==> a == b
  {
    match (a, b)
    case (Succ(x), Succ(y)) => LevelsApart(x, y, ren);
    case (Max(x, u), Max(y, v)) => LevelsApart(x, y, ren); LevelsApart(u, v, ren);
    case (IMax(x, u), IMax(y, v)) => LevelsApart(x, y, ren); LevelsApart(u, v, ren);
    case _ =>
  }

  lemma {:induction false} ShapeKept(l: L.Level, ren: Ren)
    ensures L.IsExplicit(RenameLevel(l, ren)) == L.IsExplicit(l)
    ensures L.ExplicitOffset(RenameLevel(l, ren)) == L.ExplicitOffset(l)
    ensures L.IsNotZero(RenameLevel(l, ren)) == L.IsNotZero(l)
    ensures L.ToOffset(RenameLevel(l, ren)) == (RenameLevel(L.ToOffset(l).0, ren), L.ToOffset(l).1)
    ensures LevelOver(l, ren.Keys) ==> LevelOver(L.ToOffset(l).0, ren.Keys)
  {
    match l
    case Succ(a) => ShapeKept(a, ren);
    case Max(a, b) => ShapeKept(a, ren); ShapeKept(b, ren);
    case IMax(a, b) => ShapeKept(a, ren); ShapeKept(b, ren);
    case _ =>
  }

  /** The smart constructors decide by shape and by equality, and a one-to-one renaming keeps both. */
  lemma RenameMax(a: L.Level, b: L.Level, ren: Ren)
    requires OneToOne(ren) && LevelOver(a, ren.Keys) && LevelOver(b, ren.Keys)
    ensures L.MkMax(RenameLevel(a, ren), RenameLevel(b, ren)) == RenameLevel(L.MkMax(a, b), ren)
    ensures LevelOver(L.MkMax(a, b), ren.Keys)
  {
    ShapeKept(a, ren);
    ShapeKept(b, ren);
    LevelsApart(a, b, ren);
    if a.Max? { LevelsApart(a.a, b, ren); LevelsApart(a.b, b, ren); }
    if b.Max? { LevelsApart(b.a, a, ren); LevelsApart(b.b, a, ren); }
    LevelsApart(L.ToOffset(a).0, L.ToOffset(b).0, ren);
    hide L.IsExplicit, L.ExplicitOffset, L.ToOffset, OneToOne;
  }

  lemma RenameIMax(a: L.Level, b: L.Level, ren: Ren)
    requires OneToOne(ren) && LevelOver(a, ren.Keys) && LevelOver(b, ren.Keys)
    ensures L.MkIMax(RenameLevel(a, ren), RenameLevel(b, ren)) == RenameLevel(L.MkIMax(a, b), ren)
    ensures LevelOver(L.MkIMax(a, b), ren.Keys)
  {
    ShapeKept(b, ren);
    RenameMax(a, b, ren);
    LevelsApart(a, b, ren);
    LevelsApart(a, L.Succ(L.Zero), ren);
    hide L.MkMax, OneToOne;
  }

  ghost predicate SubstOver(s: L.Subst, names: set<nat>) { forall n :: n in s ==> LevelOver(s[n], names) }

  function RenameSubst(s: L.Subst, ren: Ren): L.Subst { map n | n in s :: RenameLevel(s[n], ren) }

  lemma {:induction false} RenameInstance(l: L.Level, s: L.Subst, ren: Ren)
    requires OneToOne(ren) && LevelOver(l, s.Keys) && SubstOver(s, ren.Keys)
    ensures L.Instantiate(l, RenameSubst(s, ren)) == RenameLevel(L.Instantiate(l, s), ren)
    ensures LevelOver(L.Instantiate(l, s), ren.Keys)
  {
    hide L.MkMax, L.MkIMax, OneToOne;
    match l
    case Succ(a) => RenameInstance(a, s, ren);
    case Max(a, b) =>
      RenameInstance(a, s, ren);
      RenameInstance(b, s, ren);
      RenameMax(L.Instantiate(a, s), L.Instantiate(b, s), ren);
    case IMax(a, b) =>
      RenameInstance(a, s, ren);
      RenameInstance(b, s, ren);
      RenameIMax(L.Instantiate(a, s), L.Instantiate(b, s), ren);
    case _ =>
  }

  // -------------------------------------------------------------------- terms

  ghost predicate LevelsOver(us: seq<L.Level>, names: set<nat>) {
    forall k :: 0 <= k < |us| ==> LevelOver(us[k], names)
  }

  function RenameLevels(us: seq<L.Level>, ren: Ren): (r: seq<L.Level>)
    ensures |r| == |us| && forall k :: 0 <= k < |us| ==> r[k] == RenameLevel(us[k], ren)
  {
    seq(|us|, k requires 0 <= k < |us| => RenameLevel(us[k], ren))
  }

  ghost predicate TermOver(e: Term, names: set<nat>) {
    match e
    case BVar(_) => true
    case Lit(_) => true
    case Sort(l) => LevelOver(l, names)
    case Const(_, us) => LevelsOver(us, names)
    case App(f, x) => TermOver(f, names) && TermOver(x, names)
    case Lam(_, ty, body) => TermOver(ty, names) && TermOver(body, names)
    case Pi(_, ty, body) => TermOver(ty, names) && TermOver(body, names)
    case Let(ty, val, body) => TermOver(ty, names) && TermOver(val, names) && TermOver(body, names)
    case Proj(_, _, v) => TermOver(v, names)
  }

  function RenameTerm(e: Term, ren: Ren): Term {
    match e
    case BVar(_) => e
    case Lit(_) => e
    case Sort(l) => Sort(RenameLevel(l, ren))
    case Const(n, us) => Const(n, RenameLevels(us, ren))
    case App(f, x) => App(RenameTerm(f, ren), RenameTerm(x, ren))
    case Lam(bi, ty, body) => Lam(bi, RenameTerm(ty, ren), RenameTerm(body, ren))
    case Pi(bi, ty, body) => Pi(bi, RenameTerm(ty, ren), RenameTerm(body, ren))
    case Let(ty, val, body) => Let(RenameTerm(ty, ren), RenameTerm(val, ren), RenameTerm(body, ren))
    case Proj(s, i, v) => Proj(s, i, RenameTerm(v, ren))
  }

  ghost predicate TermsOver(es: seq<Term>, names: set<nat>) { forall k :: 0 <= k < |es| ==> TermOver(es[k], names) }

  function RenameTerms(es: seq<Term>, ren: Ren): (r: seq<Term>)
    ensures |r| == |es| && forall k :: 0 <= k < |es| ==> r[k] == RenameTerm(es[k], ren)
  {
    seq(|es|, k requires 0 <= k < |es| => RenameTerm(es[k], ren))
  }

  ghost predicate BindersOver(bs: seq<Binder>, names: set<nat>) {
    forall k :: 0 <= k < |bs| ==> TermOver(bs[k].typ, names)
  }

  function RenameBinders(bs: seq<Binder>, ren: Ren): (r: seq<Binder>)
    ensures |r| == |bs| && forall k :: 0 <= k < |bs| ==> r[k] == Binder(bs[k].info, RenameTerm(bs[k].typ, ren))
  {
    seq(|bs|, k requires 0 <= k < |bs| => Binder(bs[k].info, RenameTerm(bs[k].typ, ren)))
  }

  lemma LevelListsApart(a: seq<L.Level>, b: seq<L.Level>, ren: Ren)
    requires OneToOne(ren) && LevelsOver(a, ren.Keys) && LevelsOver(b, ren.Keys)
    ensures RenameLevels(a, ren) == RenameLevels(b, ren) <==> a == b
  {
    if RenameLevels(a, ren) == RenameLevels(b, ren) {
      forall k | 0 <= k < |a| ensures a[k] == b[k] {
        assert RenameLevels(a, ren)[k] == RenameLevels(b, ren)[k];
        LevelsApart(a[k], b[k], ren);
      }
    }
  }

  lemma {:induction false} TermsApart(a: Term, b: Term, ren: Ren)
    requires OneToOne(ren) && TermOver(a, ren.Keys) && TermOver(b, ren.Keys)
    ensures RenameTerm(a, ren) == RenameTerm(b, ren) <==> a == b
  {
    hide OneToOne, LevelOver, RenameLevel, LevelsOver;
    match (a, b)
    case (Sort(x), Sort(y)) => LevelsApart(x, y, ren);
    case (Const(_, x), Const(_, y)) => LevelListsApart(x, y, ren);
    case (App(x, u), App(y, v)) => TermsApart(x, y, ren); TermsApart(u, v, ren);
    case (Lam(_, x, u), Lam(_, y, v)) => TermsApart(x, y, ren); TermsApart(u, v, ren);
    case (Pi(_, x, u), Pi(_, y, v)) => TermsApart(x, y, ren); TermsApart(u, v, ren);
    case (Let(x, u, p), Let(y, v, q)) => TermsApart(x, y, ren); TermsApart(u, v, ren); TermsApart(p, q, ren);
    case (Proj(_, _, x), Proj(_, _, y)) => TermsApart(x, y, ren);
    case _ =>
  }

  lemma {:induction false} RenameShift(e: Term, off: int, cutoff: nat, ren: Ren, names: set<nat>)
    ensures Shift(RenameTerm(e, ren), off, cutoff) == RenameTerm(Shift(e, off, cutoff), ren)
    ensures TermOver(e, names) ==> TermOver(Shift(e, off, cutoff), names)
  {
    match e
    case App(f, x) => RenameShift(f, off, cutoff, ren, names); RenameShift(x, off, cutoff, ren, names);
    case Lam(_, ty, body) => RenameShift(ty, off, cutoff, ren, names); RenameShift(body, off, cutoff + 1, ren, names);
    case Pi(_, ty, body) => RenameShift(ty, off, cutoff, ren, names); RenameShift(body, off, cutoff + 1, ren, names);
    case Let(ty, val, body) =>
      RenameShift(ty, off, cutoff, ren, names);
      RenameShift(val, off, cutoff, ren, names);
      RenameShift(body, off, cutoff + 1, ren, names);
    case Proj(_, _, v) => RenameShift(v, off, cutoff, ren, names);
    case _ =>
  }

  lemma RenameInstVar(i: nat, args: seq<Term>, depth: nat, ren: Ren, names: set<nat>)
    ensures InstAt(BVar(i), RenameTerms(args, ren), depth) == RenameTerm(InstAt(BVar(i), args, depth), ren)
    ensures TermsOver(args, names) ==> TermOver(InstAt(BVar(i), args, depth), names)
  {
    hide Shift;
    if depth <= i < depth + |args| { RenameShift(args[i - depth], depth, 0, ren, names); }
  }

  lemma {:induction false} RenameInst(e: Term, args: seq<Term>, depth: nat, ren: Ren, names: set<nat>)
    ensures InstAt(RenameTerm(e, ren), RenameTerms(args, ren), depth) == RenameTerm(InstAt(e, args, depth), ren)
    ensures TermOver(e, names) && TermsOver(args, names) ==> TermOver(InstAt(e, args, depth), names)
  {
    InstOver(e, args, depth, names);
    hide TermOver;
    InstRenamed(e, args, depth, ren);
  }

  lemma {:induction false} InstOver(e: Term, args: seq<Term>, depth: nat, names: set<nat>)
    ensures TermOver(e, names) && TermsOver(args, names) ==> TermOver(InstAt(e, args, depth), names)
  {
    hide Shift, LevelOver, LevelsOver, TermsOver;
    match e
    case BVar(i) => RenameInstVar(i, args, depth, map[], names);
    case App(f, x) => InstOver(f, args, depth, names); InstOver(x, args, depth, names);
    case Lam(_, ty, body) => InstOver(ty, args, depth, names); InstOver(body, args, depth + 1, names);
    case Pi(_, ty, body) => InstOver(ty, args, depth, names); InstOver(body, args, depth + 1, names);
    case Let(ty, val, body) =>
      InstOver(ty, args, depth, names);
      InstOver(val, args, depth, names);
      InstOver(body, args, depth + 1, names);
    case Proj(_, _, v) => InstOver(v, args, depth, names);
    case _ =>
  }

  lemma {:induction false} InstRenamed(e: Term, args: seq<Term>, depth: nat, ren: Ren)
    ensures InstAt(RenameTerm(e, ren), RenameTerms(args, ren), depth) == RenameTerm(InstAt(e, args, depth), ren)
  {
    hide Shift, RenameLevel, RenameLevels, RenameTerms, TermsOver, TermOver;
    match e
    case BVar(i) => RenameInstVar(i, args, depth, ren, {});
    case App(f, x) => InstRenamed(f, args, depth, ren); InstRenamed(x, args, depth, ren);
    case Lam(_, ty, body) => InstRenamed(ty, args, depth, ren); InstRenamed(body, args, depth + 1, ren);
    case Pi(_, ty, body) => InstRenamed(ty, args, depth, ren); InstRenamed(body, args, depth + 1, ren);
    case Let(ty, val, body) =>
      InstRenamed(ty, args, depth, ren);
      InstRenamed(val, args, depth, ren);
      InstRenamed(body, args, depth + 1, ren);
    case Proj(_, _, v) => InstRenamed(v, args, depth, ren);
    case _ =>
  }

  /** What the expansion asks of a term besides its constants. */
  lemma {:induction false} RenameKeeps(e: Term, ren: Ren, names: seq<nat>, lo: nat, hi: nat, inner: nat)
    ensures Mentions(RenameTerm(e, ren), names) <==> Mentions(e, names)
    ensures HasBVarInRange(RenameTerm(e, ren), lo, hi, inner) <==> HasBVarInRange(e, lo, hi, inner)
    ensures Loose(RenameTerm(e, ren)) == Loose(e)
  {
    match e
    case App(f, x) => RenameKeeps(f, ren, names, lo, hi, inner); RenameKeeps(x, ren, names, lo, hi, inner);
    case Lam(_, ty, body) =>
      RenameKeeps(ty, ren, names, lo, hi, inner);
      RenameKeeps(body, ren, names, lo, hi, inner + 1);
    case Pi(_, ty, body) =>
      RenameKeeps(ty, ren, names, lo, hi, inner);
      RenameKeeps(body, ren, names, lo, hi, inner + 1);
    case Let(ty, val, body) =>
      RenameKeeps(ty, ren, names, lo, hi, inner);
      RenameKeeps(val, ren, names, lo, hi, inner);
      RenameKeeps(body, ren, names, lo, hi, inner + 1);
    case Proj(_, _, v) => RenameKeeps(v, ren, names, lo, hi, inner);
    case _ =>
  }

  lemma {:induction false} RenamePeel(e: Term, n: nat, ren: Ren, names: set<nat>)
    ensures HasPis(RenameTerm(e, ren), n) <==> HasPis(e, n)
    ensures HasPis(e, n) ==> Peel(RenameTerm(e, ren), n) == RenameTerm(Peel(e, n), ren)
    ensures HasPis(e, n) && TermOver(e, names) ==> TermOver(Peel(e, n), names)
  {
    if n > 0 && e.Pi? { RenamePeel(e.body, n - 1, ren, names); }
  }

  lemma {:induction false} RenameApply(e: Term, args: seq<Term>, ren: Ren, names: set<nat>)
    requires HasPis(e, |args|)
    ensures HasPis(RenameTerm(e, ren), |args|)
    ensures ApplyPis(RenameTerm(e, ren), RenameTerms(args, ren)) == RenameTerm(ApplyPis(e, args), ren)
    ensures TermOver(e, names) && TermsOver(args, names) ==> TermOver(ApplyPis(e, args), names)
    decreases |args|
  {
    RenamePeel(e, |args|, ren, names);
    if args != [] {
      RenameInst(e.body, [args[0]], 0, ren, names);
      assert RenameTerms([args[0]], ren) == [RenameTerm(args[0], ren)];
      assert RenameTerms(args, ren)[1..] == RenameTerms(args[1..], ren);
      InstHasPis(e.body, [args[0]], 0, |args| - 1);
      RenameApply(Inst1(e.body, args[0]), args[1..], ren, names);
    }
  }

  lemma {:induction false} RenameClose(bs: seq<Binder>, e: Term, ren: Ren, names: set<nat>)
    ensures Close(RenameBinders(bs, ren), RenameTerm(e, ren)) == RenameTerm(Close(bs, e), ren)
    ensures BindersOver(bs, names) && TermOver(e, names) ==> TermOver(Close(bs, e), names)
    decreases |bs|
  {
    if bs != [] {
      assert RenameBinders(bs, ren)[1..] == RenameBinders(bs[1..], ren);
      RenameClose(bs[1..], e, ren, names);
    }
  }

  lemma {:induction false} RenameUnfold(e: Term, ren: Ren, names: set<nat>)
    ensures var (head, args) := UnfoldApps(e);
            UnfoldApps(RenameTerm(e, ren)) == (RenameTerm(head, ren), RenameTerms(args, ren))
            && (TermOver(e, names) ==> TermOver(head, names) && TermsOver(args, names))
  {
    if e.App? {
      RenameUnfold(e.f, ren, names);
      var front := UnfoldApps(e.f).1;
      assert RenameTerms(front + [e.x], ren) == RenameTerms(front, ren) + [RenameTerm(e.x, ren)];
    }
  }

  // -------------------------------------------------------------- occurrences

  function RenameOccurrence(o: Occurrence, ren: Ren): Occurrence {
    o.(levels := RenameLevels(o.levels, ren), fixedParams := RenameTerms(o.fixedParams, ren))
  }

  function RenameEvent(ev: Result<Occurrence>, ren: Ren): Result<Occurrence> {
    if ev.Ok? then Ok(RenameOccurrence(ev.value, ren)) else ev
  }

  function RenameEvents(evs: seq<Result<Occurrence>>, ren: Ren): (r: seq<Result<Occurrence>>)
    ensures |r| == |evs| && forall k :: 0 <= k < |evs| ==> r[k] == RenameEvent(evs[k], ren)
  {
    seq(|evs|, k requires 0 <= k < |evs| => RenameEvent(evs[k], ren))
  }

  ghost predicate OccurrenceOver(o: Occurrence, names: set<nat>) {
    LevelsOver(o.levels, names) && TermsOver(o.fixedParams, names)
  }

  ghost predicate EventsOver(evs: seq<Result<Occurrence>>, names: set<nat>) {
    forall k :: 0 <= k < |evs| && evs[k].Ok? ==> OccurrenceOver(evs[k].value, names)
  }

  lemma RenameNamed(names: seq<nat>, env: Env, e: Term, depth: nat, ren: Ren)
    ensures var o := NamedOccurrence(names, env, e, depth);
            NamedOccurrence(names, env, RenameTerm(e, ren), depth)
            == (if o.Ok? && o.value.Some? then Ok(Some(RenameOccurrence(o.value.value, ren))) else o)
            && (TermOver(e, ren.Keys) && o.Ok? && o.value.Some? ==> OccurrenceOver(o.value.value, ren.Keys))
  {
    hide LevelOver, RenameLevel, Shift, Mentions, HasBVarInRange, UnfoldApps;
    RenameUnfold(e, ren, ren.Keys);
    var (head, args) := UnfoldApps(e);
    var renamed := RenameTerms(args, ren);
    forall k | 0 <= k < |args|
      ensures Mentions(renamed[k], names) <==> Mentions(args[k], names)
      ensures HasBVarInRange(renamed[k], 0, depth, 0) <==> HasBVarInRange(args[k], 0, depth, 0)
    {
      RenameKeeps(args[k], ren, names, 0, depth, 0);
    }
    if head.Const? && head.name in env.types && env.types[head.name].np <= |args| {
      var np := env.types[head.name].np;
      assert forall k :: 0 <= k < np ==> renamed[..np][k] == renamed[k] && args[..np][k] == args[k];
      LowerAllRenamed(args[..np], depth, ren);
      assert renamed[..np] == RenameTerms(args[..np], ren);
    }
  }

  lemma LowerAllRenamed(es: seq<Term>, d: nat, ren: Ren)
    ensures LowerAll(RenameTerms(es, ren), d) == RenameTerms(LowerAll(es, d), ren)
    ensures TermsOver(es, ren.Keys) ==> TermsOver(LowerAll(es, d), ren.Keys)
  {
    forall k | 0 <= k < |es|
      ensures Shift(RenameTerm(es[k], ren), 0 - d, 0) == RenameTerm(Shift(es[k], 0 - d, 0), ren)
      ensures TermOver(es[k], ren.Keys) ==> TermOver(Shift(es[k], 0 - d, 0), ren.Keys)
    {
      RenameShift(es[k], 0 - d, 0, ren, ren.Keys);
    }
  }

  lemma RenameBoth(a: seq<Result<Occurrence>>, b: seq<Result<Occurrence>>, ren: Ren)
    ensures RenameEvents(a + b, ren) == RenameEvents(a, ren) + RenameEvents(b, ren)
    ensures EventsOver(a, ren.Keys) && EventsOver(b, ren.Keys) ==> EventsOver(a + b, ren.Keys)
  {
    hide OccurrenceOver, RenameEvent;
  }

  lemma {:induction false} RenameOutermost(names: seq<nat>, env: Env, e: Term, depth: nat, ren: Ren)
    ensures Outermost(names, env, RenameTerm(e, ren), depth) == RenameEvents(Outermost(names, env, e, depth), ren)
    ensures TermOver(e, ren.Keys) ==> EventsOver(Outermost(names, env, e, depth), ren.Keys)
    decreases e, 1
  {
    hide OccurrenceOver, RenameOccurrence, TermOver;
    RenameNamed(names, env, e, depth, ren);
    hide NamedOccurrence;
    var o := NamedOccurrence(names, env, e, depth);
    if o.Ok? && o.value.None? { RenameParts(names, env, e, depth, ren); }
  }

  lemma {:induction false} RenameParts(names: seq<nat>, env: Env, e: Term, depth: nat, ren: Ren)
    requires NamedOccurrence(names, env, e, depth) == NamedOccurrence(names, env, RenameTerm(e, ren), depth) == Ok(None)
    ensures Outermost(names, env, RenameTerm(e, ren), depth) == RenameEvents(Outermost(names, env, e, depth), ren)
    ensures TermOver(e, ren.Keys) ==> EventsOver(Outermost(names, env, e, depth), ren.Keys)
    decreases e, 0, 1
  {
    hide NamedOccurrence, EventsOver, LevelOver, LevelsOver, RenameLevel, RenameLevels;
    NothingOver(ren);
    match e
    case App(f, x) => RenameTwo(names, env, e, f, depth, x, depth, ren);
    case Lam(_, ty, body) => RenameTwo(names, env, e, ty, depth, body, depth + 1, ren);
    case Pi(_, ty, body) => RenameTwo(names, env, e, ty, depth, body, depth + 1, ren);
    case Let(ty, val, body) =>
      RenameTwo(names, env, e, ty, depth, val, depth, ren);
      RenameOutermost(names, env, body, depth + 1, ren);
      RenameBoth(Outermost(names, env, ty, depth) + Outermost(names, env, val, depth),
                 Outermost(names, env, body, depth + 1), ren);
    case Proj(_, _, v) => RenameOutermost(names, env, v, depth, ren);
    case _ =>
  }

  lemma NothingOver(ren: Ren)
    ensures EventsOver([], ren.Keys)
  {}

  lemma {:induction false} RenameTwo(names: seq<nat>, env: Env, whole: Term, a: Term, da: nat, b: Term, db: nat,
                                     ren: Ren)
    requires a < whole && b < whole
    ensures Outermost(names, env, RenameTerm(a, ren), da) + Outermost(names, env, RenameTerm(b, ren), db)
         == RenameEvents(Outermost(names, env, a, da) + Outermost(names, env, b, db), ren)
    ensures TermOver(a, ren.Keys) && TermOver(b, ren.Keys) ==>
              EventsOver(Outermost(names, env, a, da) + Outermost(names, env, b, db), ren.Keys)
    decreases whole, 0, 0
  {
    hide Outermost, EventsOver;
    RenameOutermost(names, env, a, da, ren);
    RenameOutermost(names, env, b, db, ren);
    RenameBoth(Outermost(names, env, a, da), Outermost(names, env, b, db), ren);
  }

  // ------------------------------------------------------------------ members

  function RenameCtor(c: Ctor, ren: Ren): Ctor { Ctor(c.name, RenameLevels(c.levels, ren), RenameTerm(c.typ, ren)) }

  function RenameCtors(cs: seq<Ctor>, ren: Ren): (r: seq<Ctor>)
    ensures |r| == |cs| && forall k :: 0 <= k < |cs| ==> r[k] == RenameCtor(cs[k], ren)
  {
    seq(|cs|, k requires 0 <= k < |cs| => RenameCtor(cs[k], ren))
  }

  function RenameMember(m: Member, ren: Ren): Member {
    Member(m.source, RenameLevels(m.levels, ren), RenameTerms(m.fixedParams, ren), RenameTerm(m.typ, ren), m.numIndices,
           RenameCtors(m.ctors, ren))
  }

  function RenameMembers(ms: seq<Member>, ren: Ren): (r: seq<Member>)
    ensures |r| == |ms| && forall k :: 0 <= k < |ms| ==> r[k] == RenameMember(ms[k], ren)
  {
    seq(|ms|, k requires 0 <= k < |ms| => RenameMember(ms[k], ren))
  }

  /** Every level of the member is over the names; its own type is not looked at by the expansion. */
  ghost predicate MemberOver(m: Member, names: set<nat>) {
    LevelsOver(m.levels, names) && TermsOver(m.fixedParams, names)
    && forall k :: 0 <= k < |m.ctors| ==> TermOver(m.ctors[k].typ, names)
  }

  ghost predicate MembersOver(ms: seq<Member>, names: set<nat>) {
    forall k :: 0 <= k < |ms| ==> MemberOver(ms[k], names)
  }

  function NamesOf(ps: seq<nat>): set<nat> { set p | p in ps }

  /** Checked declarations use their own universe parameters only. */
  ghost predicate ParametersDeclared(env: Env) {
    (forall n :: n in env.types ==> TermOver(env.types[n].typ, NamesOf(env.types[n].levelParams)))
    && forall n :: n in env.ctors ==> TermOver(env.ctors[n].typ, NamesOf(env.ctors[n].levelParams))
  }

  lemma TermListsApart(a: seq<Term>, b: seq<Term>, ren: Ren)
    requires OneToOne(ren) && TermsOver(a, ren.Keys) && TermsOver(b, ren.Keys)
    ensures RenameTerms(a, ren) == RenameTerms(b, ren) <==> a == b
  {
    if RenameTerms(a, ren) == RenameTerms(b, ren) {
      forall k | 0 <= k < |a| ensures a[k] == b[k] {
        assert RenameTerms(a, ren)[k] == RenameTerms(b, ren)[k];
        TermsApart(a[k], b[k], ren);
      }
    }
  }

  /** An occurrence has its member after the renaming exactly if it had it before. */
  lemma RenameHas(ms: seq<Member>, o: Occurrence, ren: Ren)
    requires OneToOne(ren) && MembersOver(ms, ren.Keys) && OccurrenceOver(o, ren.Keys)
    ensures HasMember(RenameMembers(ms, ren), RenameOccurrence(o, ren)) <==> HasMember(ms, o)
  {
    hide OneToOne, LevelsOver, TermsOver;
    forall k | 0 <= k < |ms|
      ensures RenameLevels(ms[k].levels, ren) == RenameLevels(o.levels, ren) <==> ms[k].levels == o.levels
      ensures RenameTerms(ms[k].fixedParams, ren) == RenameTerms(o.fixedParams, ren) <==>
                ms[k].fixedParams == o.fixedParams
    {
      assert MemberOver(ms[k], ren.Keys);
      LevelListsApart(ms[k].levels, o.levels, ren);
      TermListsApart(ms[k].fixedParams, o.fixedParams, ren);
    }
    if HasMember(ms, o) {
      var k :| 0 <= k < |ms| && ms[k].source == o.source && ms[k].levels == o.levels
        && ms[k].fixedParams == o.fixedParams;
      assert RenameMembers(ms, ren)[k] == RenameMember(ms[k], ren);
    }
  }

  lemma RenameAddable(env: Env, o: Occurrence, ren: Ren)
    ensures Addable(env, RenameOccurrence(o, ren)) <==> Addable(env, o)
  {
    hide HasPis;
    forall k | 0 <= k < |o.all|
      ensures Copyable(env, o.all[k], RenameOccurrence(o, ren)) <==> Copyable(env, o.all[k], o) {}
  }

  // ------------------------------------------------------------------- copies

  lemma {:induction false} RenameSubstMap(names: seq<nat>, us: seq<L.Level>, ren: Ren)
    requires |names| == |us|
    ensures SubstMap(names, RenameLevels(us, ren)) == RenameSubst(SubstMap(names, us), ren)
    ensures SubstMap(names, us).Keys == NamesOf(names)
    ensures LevelsOver(us, ren.Keys) ==> SubstOver(SubstMap(names, us), ren.Keys)
  {
    if names != [] {
      var n := |names| - 1;
      assert RenameLevels(us, ren)[..n] == RenameLevels(us[..n], ren);
      RenameSubstMap(names[..n], us[..n], ren);
      assert names == names[..n] + [names[n]];
    }
  }

  lemma InstanceLevels(us: seq<L.Level>, s: L.Subst, ren: Ren)
    requires OneToOne(ren) && LevelsOver(us, s.Keys) && SubstOver(s, ren.Keys)
    ensures InstLevels(us, RenameSubst(s, ren)) == RenameLevels(InstLevels(us, s), ren)
    ensures LevelsOver(InstLevels(us, s), ren.Keys)
  {
    hide OneToOne, SubstOver, L.Instantiate;
    forall k | 0 <= k < |us|
      ensures L.Instantiate(us[k], RenameSubst(s, ren)) == RenameLevel(L.Instantiate(us[k], s), ren)
      ensures LevelOver(L.Instantiate(us[k], s), ren.Keys)
    {
      RenameInstance(us[k], s, ren);
    }
  }

  /** Instantiating at renamed levels is instantiating first and renaming then. */
  lemma {:induction false} InstanceRenamed(e: Term, s: L.Subst, ren: Ren)
    requires OneToOne(ren) && TermOver(e, s.Keys) && SubstOver(s, ren.Keys)
    ensures InstLevelParams(e, RenameSubst(s, ren)) == RenameTerm(InstLevelParams(e, s), ren)
    ensures TermOver(InstLevelParams(e, s), ren.Keys)
  {
    hide OneToOne, SubstOver, LevelOver, LevelsOver, L.Instantiate, RenameLevel;
    match e
    case Sort(l) => RenameInstance(l, s, ren);
    case Const(_, us) => InstanceLevels(us, s, ren);
    case App(f, x) => InstanceRenamed(f, s, ren); InstanceRenamed(x, s, ren);
    case Lam(_, ty, body) => InstanceRenamed(ty, s, ren); InstanceRenamed(body, s, ren);
    case Pi(_, ty, body) => InstanceRenamed(ty, s, ren); InstanceRenamed(body, s, ren);
    case Let(ty, val, body) => InstanceRenamed(ty, s, ren); InstanceRenamed(val, s, ren); InstanceRenamed(body, s, ren);
    case Proj(_, _, v) => InstanceRenamed(v, s, ren);
    case _ =>
  }

  lemma RenameSpecialized(typ: Term, levelParams: seq<nat>, levels: seq<L.Level>, np: nat, fixed: seq<Term>,
                          params: seq<Binder>,
                          ren: Ren)
    requires OneToOne(ren) && TermOver(typ, NamesOf(levelParams)) && LevelsOver(levels, ren.Keys)
    requires TermsOver(fixed, ren.Keys) && BindersOver(params, ren.Keys)
    requires Specialized(typ, levelParams, levels, np, fixed, params).Ok?
    ensures var t := Specialized(typ, levelParams, levels, np, fixed, params).value;
            Specialized(typ, levelParams, RenameLevels(levels, ren), np, RenameTerms(fixed, ren),
                        RenameBinders(params, ren))
            == Ok(RenameTerm(t, ren))
            && TermOver(t, ren.Keys)
  {
    hide OneToOne, TermOver, LevelsOver, TermsOver, BindersOver, SubstOver, HasPis, RenameSubst, SubstMap, Close,
         ApplyPis;
    var s := SubstMap(levelParams, levels);
    RenameSubstMap(levelParams, levels, ren);
    InstanceRenamed(typ, s, ren);
    var leveled := InstLevelParams(typ, s);
    RenamePeel(leveled, np, ren, ren.Keys);
    RenameApply(leveled, fixed, ren, ren.Keys);
    RenameClose(params, ApplyPis(leveled, fixed), ren, ren.Keys);
  }

  lemma RenameCopiedCtor(env: Env, name: nat, o: Occurrence, params: seq<Binder>, ren: Ren)
    requires OneToOne(ren) && ParametersDeclared(env) && OccurrenceOver(o, ren.Keys) && BindersOver(params, ren.Keys)
    requires CopyableCtor(env, name, o) && CopyableCtor(env, name, RenameOccurrence(o, ren))
    ensures CopiedCtor(env, name, RenameOccurrence(o, ren), RenameBinders(params, ren))
         == RenameCtor(CopiedCtor(env, name, o, params), ren)
    ensures TermOver(CopiedCtor(env, name, o, params).typ, ren.Keys)
  {
    hide Specialized, TermOver, BindersOver, OneToOne, TermsOver, LevelsOver;
    var c := env.ctors[name];
    FitsExactly(c.typ, c.levelParams, o, params);
    RenameSpecialized(c.typ, c.levelParams, o.levels, o.np, o.fixedParams, params, ren);
  }

  lemma RenameCopiedMember(env: Env, name: nat, o: Occurrence, params: seq<Binder>, ren: Ren)
    requires OneToOne(ren) && ParametersDeclared(env) && OccurrenceOver(o, ren.Keys) && BindersOver(params, ren.Keys)
    requires Copyable(env, name, o) && Copyable(env, name, RenameOccurrence(o, ren))
    ensures CopiedMember(env, name, RenameOccurrence(o, ren), RenameBinders(params, ren))
         == RenameMember(CopiedMember(env, name, o, params), ren)
    ensures MemberOver(CopiedMember(env, name, o, params), ren.Keys)
  {
    hide Specialized, TermOver, BindersOver, OneToOne, CopiedCtor, RenameCtor, TermsOver, LevelsOver, Fits;
    var ind := env.types[name];
    FitsExactly(ind.typ, ind.levelParams, o, params);
    RenameSpecialized(ind.typ, ind.levelParams, o.levels, o.np, o.fixedParams, params, ren);
    var a, b := CopiedMember(env, name, o, params),
        CopiedMember(env, name, RenameOccurrence(o, ren), RenameBinders(params, ren));
    forall k | 0 <= k < |ind.ctors|
      ensures b.ctors[k] == RenameCtor(a.ctors[k], ren) && TermOver(a.ctors[k].typ, ren.Keys)
    {
      RenameCopiedCtor(env, ind.ctors[k], o, params, ren);
    }
    assert b.ctors == RenameCtors(a.ctors, ren);
  }

  // ---------------------------------------------------------------- expansion

  function RenameResult(r: Result<seq<Member>>, ren: Ren): Result<seq<Member>> {
    if r.Ok? then Ok(RenameMembers(r.value, ren)) else r
  }

  lemma RenameAddOne(env: Env, params: seq<Binder>, ms: seq<Member>, ev: Result<Occurrence>, ren: Ren)
    requires OneToOne(ren) && ParametersDeclared(env) && BindersOver(params, ren.Keys) && MembersOver(ms, ren.Keys)
    requires ev.Ok? ==> OccurrenceOver(ev.value, ren.Keys)
    ensures AddOne(env, RenameBinders(params, ren), RenameMembers(ms, ren), RenameEvent(ev, ren))
         == RenameResult(AddOne(env, params, ms, ev), ren)
    ensures AddOne(env, params, ms, ev).Ok? ==> MembersOver(AddOne(env, params, ms, ev).value, ren.Keys)
  {
    hide OneToOne, ParametersDeclared, BindersOver, MemberOver, OccurrenceOver, HasMember, Copyable, CopiedMember,
         RenameMember,
         RenameOccurrence;
    if ev.Ok? {
      var o := ev.value;
      RenameHas(ms, o, ren);
      RenameAddable(env, o, ren);
      if !HasMember(ms, o) && Addable(env, o) {
        var r, renamed := RenameOccurrence(o, ren), RenameBinders(params, ren);
        assert r.all == o.all by { AllKept(o, ren); }
        var a, b := Copies(env, o, params), Copies(env, r, renamed);
        forall k | 0 <= k < |o.all| ensures b[k] == RenameMember(a[k], ren) && MemberOver(a[k], ren.Keys) {
          assert Copyable(env, o.all[k], o) && Copyable(env, r.all[k], r);
          RenameCopiedMember(env, o.all[k], o, params, ren);
        }
        assert RenameMembers(ms, ren) + b == RenameMembers(ms + a, ren);
      }
    }
  }

  lemma AllKept(o: Occurrence, ren: Ren)
    ensures RenameOccurrence(o, ren).all == o.all
  {}

  lemma {:induction false} RenameAddAll(env: Env, params: seq<Binder>, ms: seq<Member>, evs: seq<Result<Occurrence>>,
                                        ren: Ren)
    requires OneToOne(ren) && ParametersDeclared(env) && BindersOver(params, ren.Keys) && MembersOver(ms, ren.Keys)
    requires EventsOver(evs, ren.Keys)
    ensures AddAll(env, RenameBinders(params, ren), RenameMembers(ms, ren), RenameEvents(evs, ren))
         == RenameResult(AddAll(env, params, ms, evs), ren)
    ensures AddAll(env, params, ms, evs).Ok? ==> MembersOver(AddAll(env, params, ms, evs).value, ren.Keys)
    decreases |evs|
  {
    hide OneToOne, ParametersDeclared, BindersOver, MembersOver, OccurrenceOver, AddOne, RenameMember, RenameOccurrence;
    if evs != [] {
      RenameAddOne(env, params, ms, evs[0], ren);
      assert RenameEvents(evs, ren)[1..] == RenameEvents(evs[1..], ren);
      assert forall k :: 0 <= k < |evs[1..]| ==> evs[1..][k] == evs[k + 1];
      var first := AddOne(env, params, ms, evs[0]);
      if first.Ok? { RenameAddAll(env, params, first.value, evs[1..], ren); }
    }
  }

  lemma RenameOneCtor(names: seq<nat>, env: Env, np: nat, c: Ctor, ren: Ren)
    ensures OneCtorEvents(names, env, np, RenameCtor(c, ren)) == RenameEvents(OneCtorEvents(names, env, np, c), ren)
    ensures TermOver(c.typ, ren.Keys) ==> EventsOver(OneCtorEvents(names, env, np, c), ren.Keys)
  {
    hide Outermost, TermOver, OccurrenceOver, RenameOccurrence;
    RenamePeel(c.typ, np, ren, ren.Keys);
    if HasPis(c.typ, np) { RenameOutermost(names, env, Peel(c.typ, np), 0, ren); }
  }

  lemma {:induction false} RenameCtorEvents(names: seq<nat>, env: Env, np: nat, cs: seq<Ctor>, k: nat, ren: Ren)
    requires k <= |cs|
    ensures CtorEvents(names, env, np, RenameCtors(cs, ren), k) == RenameEvents(CtorEvents(names, env, np, cs, k), ren)
    ensures (forall j :: 0 <= j < |cs| ==> TermOver(cs[j].typ, ren.Keys)) ==>
              EventsOver(CtorEvents(names, env, np, cs, k), ren.Keys)
  {
    hide OneCtorEvents, TermOver, OccurrenceOver, RenameOccurrence, RenameCtor;
    if k > 0 {
      RenameCtorEvents(names, env, np, cs, k - 1, ren);
      RenameOneCtor(names, env, np, cs[k - 1], ren);
    }
  }

  lemma RenameMemberEvents(names: seq<nat>, env: Env, np: nat, m: Member, ren: Ren)
    ensures MemberEvents(names, env, np, RenameMember(m, ren)) == RenameEvents(MemberEvents(names, env, np, m), ren)
    ensures MemberOver(m, ren.Keys) ==> EventsOver(MemberEvents(names, env, np, m), ren.Keys)
  {
    hide CtorEvents, EventsOver;
    RenameCtorEvents(names, env, np, m.ctors, |m.ctors|, ren);
  }

  /** Expanding renamed members is renaming the expansion. */
  lemma {:induction false} RenameExpansion(names: seq<nat>, env: Env, np: nat, params: seq<Binder>, ms: seq<Member>,
                                           qhead: nat,
                                           fuel: nat, ren: Ren)
    requires OneToOne(ren) && ParametersDeclared(env) && BindersOver(params, ren.Keys) && MembersOver(ms, ren.Keys)
             && qhead <= |ms|
    ensures var (r, done) := ExpandFrom(names, env, np, params, ms, qhead, fuel);
            ExpandFrom(names, env, np, RenameBinders(params, ren), RenameMembers(ms, ren), qhead, fuel)
              == (RenameResult(r, ren), done)
    decreases fuel
  {
    hide OneToOne, ParametersDeclared, BindersOver, MemberOver, AddAll, MemberEvents, EventsOver, RenameMember;
    if qhead < |ms| && fuel > 0 {
      assert MemberOver(ms[qhead], ren.Keys);
      RenameMemberEvents(names, env, np, ms[qhead], ren);
      var evs := MemberEvents(names, env, np, ms[qhead]);
      RenameAddAll(env, params, ms, evs, ren);
      var next := AddAll(env, params, ms, evs);
      if next.Ok? { RenameExpansion(names, env, np, params, next.value, qhead + 1, fuel - 1, ren); }
    }
  }
}
