/**
 Terms with de Bruijn indices, and the plain recursive meaning of shifting,
 instantiation and universe instantiation. The stateful forms are proved
 against these functions in `ExprEngine`.
 */
module Terms {
  import opened Naturals
  import L = Levels

  type Byte = b: nat | b < 256

  datatype Option<+T> = None | Some(value: T)

  datatype BinderInfo = Default | Implicit | StrictImplicit | InstImplicit

  datatype Literal = NatLit(n: nat) | StrLit(bytes: seq<Byte>)

  datatype Term =
    | BVar(i: nat)
    | Sort(l: L.Level)
    | Const(name: nat, us: seq<L.Level>)
    | App(f: Term, x: Term)
    | Lam(bi: BinderInfo, ty: Term, body: Term)
    | Pi(bi: BinderInfo, ty: Term, body: Term)
    | Let(ty: Term, val: Term, body: Term)
    | Proj(sname: nat, field: nat, v: Term)
    | Lit(lit: Literal)

  function Pred(x: nat): nat { if x == 0 then 0 else x - 1 }

  // ------------------------------------------------------------ occurrences

  /** The least `k` such that every loose index is below `k`. */
  function Loose(e: Term): nat {
    match e
    case BVar(i) => i + 1
    case Sort(_) => 0
    case Const(_, _) => 0
    case App(f, x) => MaxNat(Loose(f), Loose(x))
    case Lam(_, ty, body) => MaxNat(Loose(ty), Pred(Loose(body)))
    case Pi(_, ty, body) => MaxNat(Loose(ty), Pred(Loose(body)))
    case Let(ty, val, body) => MaxNat(MaxNat(Loose(ty), Loose(val)), Pred(Loose(body)))
    case Proj(_, _, v) => Loose(v)
    case Lit(_) => 0
  }

  /** A term is scoped below `n` exactly when its parts are, one further up under a binder. */
  lemma LooseParts(e: Term, n: nat)
    ensures Loose(e) <= n <==> match e
                               case BVar(i) => i < n
                               case App(f, x) => Loose(f) <= n && Loose(x) <= n
                               case Lam(_, ty, body) => Loose(ty) <= n && Loose(body) <= n + 1
                               case Pi(_, ty, body) => Loose(ty) <= n && Loose(body) <= n + 1
                               case Let(ty, val, body) => Loose(ty) <= n && Loose(val) <= n && Loose(body) <= n + 1
                               case Proj(_, _, v) => Loose(v) <= n
                               case _ => true
  {}

  /** Loose index `i` occurs in `e`. */
  predicate Occurs(e: Term, i: nat) {
    match e
    case BVar(j) => i == j
    case Sort(_) => false
    case Const(_, _) => false
    case App(f, x) => Occurs(f, i) || Occurs(x, i)
    case Lam(_, ty, body) => Occurs(ty, i) || Occurs(body, i + 1)
    case Pi(_, ty, body) => Occurs(ty, i) || Occurs(body, i + 1)
    case Let(ty, val, body) => Occurs(ty, i) || Occurs(val, i) || Occurs(body, i + 1)
    case Proj(_, _, v) => Occurs(v, i)
    case Lit(_) => false
  }

  lemma {:induction false} OccursBelowLoose(e: Term, i: nat)
    requires Occurs(e, i)
    ensures i < Loose(e)
  {
    match e
    case App(f, x) => if Occurs(f, i) { OccursBelowLoose(f, i); } else { OccursBelowLoose(x, i); }
    case Lam(_, ty, body) => if Occurs(ty, i) { OccursBelowLoose(ty, i); } else { OccursBelowLoose(body, i + 1); }
    case Pi(_, ty, body) => if Occurs(ty, i) { OccursBelowLoose(ty, i); } else { OccursBelowLoose(body, i + 1); }
    case Let(ty, val, body) =>
      if Occurs(ty, i) { OccursBelowLoose(ty, i); }
      else if Occurs(val, i) { OccursBelowLoose(val, i); }
      else { OccursBelowLoose(body, i + 1); }
    case Proj(_, _, v) => OccursBelowLoose(v, i);
    case _ =>
  }

  /** The bound is least: the index just below it occurs. */
  lemma {:induction false} LooseOccurs(e: Term)
    requires Loose(e) > 0
    ensures Occurs(e, Loose(e) - 1)
  {
    match e
    case App(f, x) => if Loose(f) == Loose(e) { LooseOccurs(f); } else { LooseOccurs(x); }
    case Lam(_, ty, body) => if Loose(ty) == Loose(e) { LooseOccurs(ty); } else { LooseOccurs(body); }
    case Pi(_, ty, body) => if Loose(ty) == Loose(e) { LooseOccurs(ty); } else { LooseOccurs(body); }
    case Let(ty, val, body) =>
      if Loose(ty) == Loose(e) { LooseOccurs(ty); }
      else if Loose(val) == Loose(e) { LooseOccurs(val); }
      else { LooseOccurs(body); }
    case Proj(_, _, v) => LooseOccurs(v);
    case _ =>
  }

  predicate HasBVarInRange(e: Term, lo: nat, hi: nat, inner: nat) {
    match e
    case BVar(i) => i >= inner + lo && i < inner + hi
    case Sort(_) => false
    case Const(_, _) => false
    case Lit(_) => false
    case App(f, x) => HasBVarInRange(f, lo, hi, inner) || HasBVarInRange(x, lo, hi, inner)
    case Lam(_, ty, body) => HasBVarInRange(ty, lo, hi, inner) || HasBVarInRange(body, lo, hi, inner + 1)
    case Pi(_, ty, body) => HasBVarInRange(ty, lo, hi, inner) || HasBVarInRange(body, lo, hi, inner + 1)
    case Let(ty, val, body) =>
      HasBVarInRange(ty, lo, hi, inner) || HasBVarInRange(val, lo, hi, inner) || HasBVarInRange(body, lo, hi, inner + 1)
    case Proj(_, _, v) => HasBVarInRange(v, lo, hi, inner)
  }

  ghost predicate OccursWithin(e: Term, lo: nat, hi: nat) { exists i: nat :: lo <= i < hi && Occurs(e, i) }

  lemma {:induction false} RangeFinds(e: Term, lo: nat, hi: nat, inner: nat, i: nat)
    requires inner + lo <= i < inner + hi && Occurs(e, i)
    ensures HasBVarInRange(e, lo, hi, inner)
  {
    match e
    case App(f, x) => if Occurs(f, i) { RangeFinds(f, lo, hi, inner, i); } else { RangeFinds(x, lo, hi, inner, i); }
    case Lam(_, ty, body) =>
      if Occurs(ty, i) { RangeFinds(ty, lo, hi, inner, i); } else { RangeFinds(body, lo, hi, inner + 1, i + 1); }
    case Pi(_, ty, body) =>
      if Occurs(ty, i) { RangeFinds(ty, lo, hi, inner, i); } else { RangeFinds(body, lo, hi, inner + 1, i + 1); }
    case Let(ty, val, body) =>
      if Occurs(ty, i) { RangeFinds(ty, lo, hi, inner, i); }
      else if Occurs(val, i) { RangeFinds(val, lo, hi, inner, i); }
      else { RangeFinds(body, lo, hi, inner + 1, i + 1); }
    case Proj(_, _, v) => RangeFinds(v, lo, hi, inner, i);
    case _ =>
  }

  lemma {:induction false} RangeWitness(e: Term, lo: nat, hi: nat, inner: nat) returns (i: nat)
    requires HasBVarInRange(e, lo, hi, inner)
    ensures inner + lo <= i < inner + hi && Occurs(e, i)
  {
    i := 0;
    match e
    case BVar(j) => i := j;
    case App(f, x) =>
      if HasBVarInRange(f, lo, hi, inner) { i := RangeWitness(f, lo, hi, inner); } else {
        i := RangeWitness(x, lo, hi, inner);
      }
    case Lam(_, ty, body) =>
      if HasBVarInRange(ty, lo, hi, inner) { i := RangeWitness(ty, lo, hi, inner); }
      else { i := RangeWitness(body, lo, hi, inner + 1); i := i - 1; }
    case Pi(_, ty, body) =>
      if HasBVarInRange(ty, lo, hi, inner) { i := RangeWitness(ty, lo, hi, inner); }
      else { i := RangeWitness(body, lo, hi, inner + 1); i := i - 1; }
    case Let(ty, val, body) =>
      if HasBVarInRange(ty, lo, hi, inner) { i := RangeWitness(ty, lo, hi, inner); }
      else if HasBVarInRange(val, lo, hi, inner) { i := RangeWitness(val, lo, hi, inner); }
      else { i := RangeWitness(body, lo, hi, inner + 1); i := i - 1; }
    case Proj(_, _, v) => i := RangeWitness(v, lo, hi, inner);
    case _ =>
  }

  /** The range test finds exactly the loose indices in the range. */
  lemma HasBVarInRangeExact(e: Term, lo: nat, hi: nat)
    ensures HasBVarInRange(e, lo, hi, 0) <==> OccursWithin(e, lo, hi)
  {
    if HasBVarInRange(e, lo, hi, 0) {
      var i := RangeWitness(e, lo, hi, 0);
    } else if OccursWithin(e, lo, hi) {
      var i: nat :| lo <= i < hi && Occurs(e, i);
      RangeFinds(e, lo, hi, 0, i);
    }
  }

  // ---------------------------------------------------------------- shifting

  const U32 := 0x1_0000_0000

  /** An index moved by a signed amount; moving below zero wraps at 32 bits. */
  function ShiftVar(i: nat, off: int): nat {
    if i + off >= 0 then i + off else (i + off) % U32
  }

  function Shift(e: Term, off: int, cutoff: nat): Term {
    if off == 0 then e
    else
      match e
      case BVar(i) => if i >= cutoff then BVar(ShiftVar(i, off)) else e
      case Sort(_) => e
      case Const(_, _) => e
      case Lit(_) => e
      case App(f, x) => App(Shift(f, off, cutoff), Shift(x, off, cutoff))
      case Lam(bi, ty, body) => Lam(bi, Shift(ty, off, cutoff), Shift(body, off, cutoff + 1))
      case Pi(bi, ty, body) => Pi(bi, Shift(ty, off, cutoff), Shift(body, off, cutoff + 1))
      case Let(ty, val, body) => Let(Shift(ty, off, cutoff), Shift(val, off, cutoff), Shift(body, off, cutoff + 1))
      case Proj(s, i, v) => Proj(s, i, Shift(v, off, cutoff))
  }

  /** Shifting up moves the loose indices from the cutoff on by the amount, and leaves none in the gap. */
  lemma {:induction false} ShiftMoves(e: Term, d: nat, cutoff: nat, i: nat)
    ensures Occurs(Shift(e, d, cutoff), if i < cutoff then i else i + d) <==> Occurs(e, i)
    ensures cutoff <= i < cutoff + d ==> !Occurs(Shift(e, d, cutoff), i)
  {
    if d > 0 {
      match e
      case App(f, x) => ShiftMoves(f, d, cutoff, i); ShiftMoves(x, d, cutoff, i);
      case Lam(_, ty, body) => ShiftMoves(ty, d, cutoff, i); ShiftMoves(body, d, cutoff + 1, i + 1);
      case Pi(_, ty, body) => ShiftMoves(ty, d, cutoff, i); ShiftMoves(body, d, cutoff + 1, i + 1);
      case Let(ty, val, body) =>
        ShiftMoves(ty, d, cutoff, i);
        ShiftMoves(val, d, cutoff, i);
        ShiftMoves(body, d, cutoff + 1, i + 1);
      case Proj(_, _, v) => ShiftMoves(v, d, cutoff, i);
      case _ =>
    }
  }

  /** Shifting a variable below 0 counts down from 2^32. */
  lemma ShiftBelowZero(i: nat, d: nat, cutoff: nat)
    requires cutoff <= i < d <= 0x8000_0000
    ensures Shift(BVar(i), 0 - d, cutoff) == BVar(0x1_0000_0000 - (d - i))
  {}

  /** The short cut: below its loose range nothing moves. */
  lemma {:induction false} ShiftAboveRange(e: Term, off: int, cutoff: nat)
    requires Loose(e) <= cutoff
    ensures Shift(e, off, cutoff) == e
  {
    match e
    case App(f, x) => ShiftAboveRange(f, off, cutoff); ShiftAboveRange(x, off, cutoff);
    case Lam(_, ty, body) => ShiftAboveRange(ty, off, cutoff); ShiftAboveRange(body, off, cutoff + 1);
    case Pi(_, ty, body) => ShiftAboveRange(ty, off, cutoff); ShiftAboveRange(body, off, cutoff + 1);
    case Let(ty, val, body) =>
      ShiftAboveRange(ty, off, cutoff);
      ShiftAboveRange(val, off, cutoff);
      ShiftAboveRange(body, off, cutoff + 1);
    case Proj(_, _, v) => ShiftAboveRange(v, off, cutoff);
    case _ =>
  }

  lemma {:induction false} ShiftDownUp(e: Term, d: nat, cutoff: nat)
    requires !HasBVarInRange(e, 0, d, cutoff)
    ensures Shift(Shift(e, 0 - d, cutoff), d, cutoff) == e
  {
    match e
    case App(f, x) => ShiftDownUp(f, d, cutoff); ShiftDownUp(x, d, cutoff);
    case Lam(_, ty, body) => ShiftDownUp(ty, d, cutoff); ShiftDownUp(body, d, cutoff + 1);
    case Pi(_, ty, body) => ShiftDownUp(ty, d, cutoff); ShiftDownUp(body, d, cutoff + 1);
    case Let(ty, val, body) =>
      ShiftDownUp(ty, d, cutoff);
      ShiftDownUp(val, d, cutoff);
      ShiftDownUp(body, d, cutoff + 1);
    case Proj(_, _, v) => ShiftDownUp(v, d, cutoff);
    case _ =>
  }

  /** A parameter that passes the range test survives being lowered and raised again. */
  lemma LowerThenRaise(p: Term, d: nat)
    requires !HasBVarInRange(p, 0, d, 0)
    ensures Shift(Shift(p, 0 - d, 0), d, 0) == p
  {
    ShiftDownUp(p, d, 0);
  }

  // ------------------------------------------------------------ instantiation

  /** Replaces indices `depth, depth + 1, ...` by `args` and lowers the ones above. */
  function InstAt(e: Term, args: seq<Term>, depth: nat): Term {
    match e
    case BVar(i) =>
      if i >= depth && i - depth < |args| then Shift(args[i - depth], depth, 0)
      else if i >= depth then BVar(i - |args|)
      else e
    case Sort(_) => e
    case Const(_, _) => e
    case Lit(_) => e
    case App(f, x) => App(InstAt(f, args, depth), InstAt(x, args, depth))
    case Lam(bi, ty, body) => Lam(bi, InstAt(ty, args, depth), InstAt(body, args, depth + 1))
    case Pi(bi, ty, body) => Pi(bi, InstAt(ty, args, depth), InstAt(body, args, depth + 1))
    case Let(ty, val, body) => Let(InstAt(ty, args, depth), InstAt(val, args, depth), InstAt(body, args, depth + 1))
    case Proj(s, i, v) => Proj(s, i, InstAt(v, args, depth))
  }

  function Inst1(e: Term, arg: Term): Term { InstAt(e, [arg], 0) }

  /** The short cut: below its loose range nothing is substituted or renumbered. */
  lemma {:induction false} InstAboveRange(e: Term, args: seq<Term>, depth: nat)
    requires Loose(e) <= depth
    ensures InstAt(e, args, depth) == e
  {
    match e
    case App(f, x) => InstAboveRange(f, args, depth); InstAboveRange(x, args, depth);
    case Lam(_, ty, body) => InstAboveRange(ty, args, depth); InstAboveRange(body, args, depth + 1);
    case Pi(_, ty, body) => InstAboveRange(ty, args, depth); InstAboveRange(body, args, depth + 1);
    case Let(ty, val, body) =>
      InstAboveRange(ty, args, depth);
      InstAboveRange(val, args, depth);
      InstAboveRange(body, args, depth + 1);
    case Proj(_, _, v) => InstAboveRange(v, args, depth);
    case _ =>
  }

  /** Instantiating as many variables as a shift skipped undoes that much of the shift. */
  lemma {:induction false} InstShift(e: Term, off: nat, cutoff: nat, args: seq<Term>, depth: nat)
    requires cutoff <= depth && depth + |args| <= cutoff + off
    ensures InstAt(Shift(e, off, cutoff), args, depth) == Shift(e, off - |args|, cutoff)
  {
    match e
    case App(f, x) => InstShift(f, off, cutoff, args, depth); InstShift(x, off, cutoff, args, depth);
    case Lam(_, ty, body) => InstShift(ty, off, cutoff, args, depth); InstShift(body, off, cutoff + 1, args, depth + 1);
    case Pi(_, ty, body) => InstShift(ty, off, cutoff, args, depth); InstShift(body, off, cutoff + 1, args, depth + 1);
    case Let(ty, val, body) =>
      InstShift(ty, off, cutoff, args, depth);
      InstShift(val, off, cutoff, args, depth);
      InstShift(body, off, cutoff + 1, args, depth + 1);
    case Proj(_, _, v) => InstShift(v, off, cutoff, args, depth);
    case _ =>
  }

  /** Substituting the outermost variable first and the rest after is one simultaneous substitution. */
  lemma {:induction false} InstSplit(e: Term, a: Term, rest: seq<Term>, depth: nat)
    ensures InstAt(InstAt(e, [a], |rest| + depth), rest, depth) == InstAt(e, rest + [a], depth)
  {
    hide Shift;
    match e
    case BVar(i) => if i == |rest| + depth { InstShift(a, |rest| + depth, 0, rest, depth); }
    case App(f, x) => InstSplit(f, a, rest, depth); InstSplit(x, a, rest, depth);
    case Lam(_, ty, body) => InstSplit(ty, a, rest, depth); InstSplit(body, a, rest, depth + 1);
    case Pi(_, ty, body) => InstSplit(ty, a, rest, depth); InstSplit(body, a, rest, depth + 1);
    case Let(ty, val, body) =>
      InstSplit(ty, a, rest, depth);
      InstSplit(val, a, rest, depth);
      InstSplit(body, a, rest, depth + 1);
    case Proj(_, _, v) => InstSplit(v, a, rest, depth);
    case _ =>
  }

  // ------------------------------------------------------------- telescopes

  predicate HasPis(e: Term, n: nat) { n == 0 || (e.Pi? && HasPis(e.body, n - 1)) }

  /** What is left under the first `n` Pi binders. */
  function Peel(e: Term, n: nat): Term
    requires HasPis(e, n)
  {
    if n == 0 then e else Peel(e.body, n - 1)
  }

  /** Peels one Pi at a time, substituting one argument at a time. */
  function ApplyPis(e: Term, args: seq<Term>): Term
    requires HasPis(e, |args|)
    decreases |args|
  {
    if args == [] then e
    else
      InstHasPis(e.body, [args[0]], 0, |args| - 1);
      ApplyPis(Inst1(e.body, args[0]), args[1..])
  }

  function Reverse<T>(s: seq<T>): (r: seq<T>)
    ensures |r| == |s|
    ensures forall k :: 0 <= k < |s| ==> r[k] == s[|s| - 1 - k]
  {
    if s == [] then [] else Reverse(s[1..]) + [s[0]]
  }

  lemma {:induction false} InstHasPis(e: Term, args: seq<Term>, depth: nat, n: nat)
    requires HasPis(e, n)
    ensures HasPis(InstAt(e, args, depth), n)
    ensures Peel(InstAt(e, args, depth), n) == InstAt(Peel(e, n), args, depth + n)
  {
    if n > 0 { InstHasPis(e.body, args, depth + 1, n - 1); }
  }

  /** Peeling every binder and instantiating once with the reversed arguments is the same
      as applying the telescope to its arguments one by one. */
  lemma {:induction false} InstantiateTelescope(e: Term, args: seq<Term>)
    requires HasPis(e, |args|)
    ensures InstAt(Peel(e, |args|), Reverse(args), 0) == ApplyPis(e, args)
    decreases |args|
  {
    if args == [] {
      InstNothing(e, 0);
    } else {
      var rest := args[1..];
      InstHasPis(e.body, [args[0]], 0, |rest|);
      InstantiateTelescope(Inst1(e.body, args[0]), rest);
      InstSplit(Peel(e.body, |rest|), args[0], Reverse(rest), 0);
    }
  }

  lemma {:induction false} InstNothing(e: Term, depth: nat)
    ensures InstAt(e, [], depth) == e
  {
    match e
    case App(f, x) => InstNothing(f, depth); InstNothing(x, depth);
    case Lam(_, ty, body) => InstNothing(ty, depth); InstNothing(body, depth + 1);
    case Pi(_, ty, body) => InstNothing(ty, depth); InstNothing(body, depth + 1);
    case Let(ty, val, body) => InstNothing(ty, depth); InstNothing(val, depth); InstNothing(body, depth + 1);
    case Proj(_, _, v) => InstNothing(v, depth);
    case _ =>
  }

  lemma {:induction false} ShiftNothing(e: Term, cutoff: nat)
    ensures Shift(e, 0, cutoff) == e
  {
    match e
    case App(f, x) => ShiftNothing(f, cutoff); ShiftNothing(x, cutoff);
    case Lam(_, ty, body) => ShiftNothing(ty, cutoff); ShiftNothing(body, cutoff + 1);
    case Pi(_, ty, body) => ShiftNothing(ty, cutoff); ShiftNothing(body, cutoff + 1);
    case Let(ty, val, body) => ShiftNothing(ty, cutoff); ShiftNothing(val, cutoff); ShiftNothing(body, cutoff + 1);
    case Proj(_, _, v) => ShiftNothing(v, cutoff);
    case _ =>
  }

  /** Applied to its arguments, a telescope over its `k`-th binder is the `k`-th argument, and one over a variable
      from outside is that variable. */
  lemma ApplyPicks(e: Term, args: seq<Term>)
    requires HasPis(e, |args|) && Peel(e, |args|).BVar?
    ensures var i := Peel(e, |args|).i;
            ApplyPis(e, args) == if i < |args| then args[|args| - 1 - i] else BVar(i - |args|)
  {
    var i := Peel(e, |args|).i;
    InstantiateTelescope(e, args);
    if i < |args| { ShiftNothing(Reverse(args)[i], 0); }
  }

  // --------------------------------------------------- universe instantiation

  function InstLevels(us: seq<L.Level>, subst: L.Subst): (r: seq<L.Level>)
    ensures |r| == |us| && forall k :: 0 <= k < |us| ==> r[k] == L.Instantiate(us[k], subst)
  {
    seq(|us|, k requires 0 <= k < |us| => L.Instantiate(us[k], subst))
  }

  function InstLevelParams(e: Term, subst: L.Subst): Term {
    match e
    case BVar(_) => e
    case Lit(_) => e
    case Sort(l) => Sort(L.Instantiate(l, subst))
    case Const(n, us) => Const(n, InstLevels(us, subst))
    case App(f, x) => App(InstLevelParams(f, subst), InstLevelParams(x, subst))
    case Lam(bi, ty, body) => Lam(bi, InstLevelParams(ty, subst), InstLevelParams(body, subst))
    case Pi(bi, ty, body) => Pi(bi, InstLevelParams(ty, subst), InstLevelParams(body, subst))
    case Let(ty, val, body) =>
      Let(InstLevelParams(ty, subst), InstLevelParams(val, subst), InstLevelParams(body, subst))
    case Proj(s, i, v) => Proj(s, i, InstLevelParams(v, subst))
  }

  ghost predicate CanonLevels(us: seq<L.Level>) { forall k :: 0 <= k < |us| ==> L.Canon(us[k]) }

  /** Every level in `e` is one the smart constructors would rebuild unchanged. */
  ghost predicate CanonTerm(e: Term) {
    match e
    case BVar(_) => true
    case Lit(_) => true
    case Sort(l) => L.Canon(l)
    case Const(_, us) => CanonLevels(us)
    case App(f, x) => CanonTerm(f) && CanonTerm(x)
    case Lam(_, ty, body) => CanonTerm(ty) && CanonTerm(body)
    case Pi(_, ty, body) => CanonTerm(ty) && CanonTerm(body)
    case Let(ty, val, body) => CanonTerm(ty) && CanonTerm(val) && CanonTerm(body)
    case Proj(_, _, v) => CanonTerm(v)
  }

  lemma LevelsStayCanon(us: seq<L.Level>, subst: L.Subst)
    requires CanonLevels(us) && L.CanonSubst(subst)
    ensures CanonLevels(InstLevels(us, subst))
    ensures subst == map[] ==> InstLevels(us, subst) == us
  {
    forall k | 0 <= k < |us|
      ensures L.Canon(L.Instantiate(us[k], subst)) && (subst == map[] ==> L.Instantiate(us[k], subst) == us[k])
    { L.InstantiateCanon(us[k], subst); }
  }

  /** The early return on an empty substitution agrees with the reference on canonical terms. */
  lemma {:induction false} InstLevelParamsCanon(e: Term, subst: L.Subst)
    requires CanonTerm(e) && L.CanonSubst(subst)
    ensures CanonTerm(InstLevelParams(e, subst))
    ensures subst == map[] ==> InstLevelParams(e, subst) == e
  {
    match e
    case Sort(l) => L.InstantiateCanon(l, subst);
    case Const(_, us) => LevelsStayCanon(us, subst);
    case App(f, x) => InstLevelParamsCanon(f, subst); InstLevelParamsCanon(x, subst);
    case Lam(_, ty, body) => InstLevelParamsCanon(ty, subst); InstLevelParamsCanon(body, subst);
    case Pi(_, ty, body) => InstLevelParamsCanon(ty, subst); InstLevelParamsCanon(body, subst);
    case Let(ty, val, body) =>
      InstLevelParamsCanon(ty, subst);
      InstLevelParamsCanon(val, subst);
      InstLevelParamsCanon(body, subst);
    case Proj(_, _, v) => InstLevelParamsCanon(v, subst);
    case _ =>
  }

  ghost predicate SameLevels(us: seq<L.Level>, s: L.Assignment, vs: seq<L.Level>, t: L.Assignment) {
    |us| == |vs| && forall k :: 0 <= k < |us| ==> L.Eval(us[k], s) == L.Eval(vs[k], t)
  }

  /** `a` and `b` are the same term, except that a level of `a` has under `s` the value its place in `b`
      has under `t`. */
  ghost predicate ReadsAs(a: Term, s: L.Assignment, b: Term, t: L.Assignment) {
    match (a, b)
    case (BVar(i), BVar(j)) => i == j
    case (Lit(x), Lit(y)) => x == y
    case (Sort(l), Sort(m)) => L.Eval(l, s) == L.Eval(m, t)
    case (Const(n, us), Const(m, vs)) => n == m && SameLevels(us, s, vs, t)
    case (App(f, x), App(g, y)) => ReadsAs(f, s, g, t) && ReadsAs(x, s, y, t)
    case (Lam(bi, ty, body), Lam(bj, ty', body')) => bi == bj && ReadsAs(ty, s, ty', t) && ReadsAs(body, s, body', t)
    case (Pi(bi, ty, body), Pi(bj, ty', body')) => bi == bj && ReadsAs(ty, s, ty', t) && ReadsAs(body, s, body', t)
    case (Let(ty, val, body), Let(ty', val', body')) =>
      ReadsAs(ty, s, ty', t) && ReadsAs(val, s, val', t) && ReadsAs(body, s, body', t)
    case (Proj(n, i, v), Proj(m, j, w)) => n == m && i == j && ReadsAs(v, s, w, t)
    case _ => false
  }

  lemma LevelsRead(us: seq<L.Level>, subst: L.Subst, s: L.Assignment, t: L.Assignment)
    requires forall p :: t(p) == L.Compose(subst, s)(p)
    ensures SameLevels(InstLevels(us, subst), s, us, t)
  {
    forall k | 0 <= k < |us| ensures L.Eval(L.Instantiate(us[k], subst), s) == L.Eval(us[k], t) {
      L.InstantiateMeaning(us[k], subst, s);
      L.EvalAgree(us[k], t, L.Compose(subst, s));
    }
  }

  /** Instantiating the universe parameters changes levels only, and each of them says what it said before once its
      parameters have the values of their replacements. */
  lemma {:induction false} InstLevelParamsReads(e: Term, subst: L.Subst, s: L.Assignment, t: L.Assignment)
    requires forall p :: t(p) == L.Compose(subst, s)(p)
    ensures ReadsAs(InstLevelParams(e, subst), s, e, t)
  {
    match e
    case Sort(l) => L.InstantiateMeaning(l, subst, s); L.EvalAgree(l, t, L.Compose(subst, s));
    case Const(_, us) => LevelsRead(us, subst, s, t);
    case App(f, x) => InstLevelParamsReads(f, subst, s, t); InstLevelParamsReads(x, subst, s, t);
    case Lam(_, ty, body) => InstLevelParamsReads(ty, subst, s, t); InstLevelParamsReads(body, subst, s, t);
    case Pi(_, ty, body) => InstLevelParamsReads(ty, subst, s, t); InstLevelParamsReads(body, subst, s, t);
    case Let(ty, val, body) =>
      InstLevelParamsReads(ty, subst, s, t);
      InstLevelParamsReads(val, subst, s, t);
      InstLevelParamsReads(body, subst, s, t);
    case Proj(_, _, v) => InstLevelParamsReads(v, subst, s, t);
    case _ =>
  }
}
