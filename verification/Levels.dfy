/**
 Universe levels: the smart constructors, universe instantiation, the comparison
 procedure `Leq` and the equality test built on it, against a numeric meaning.

 A level denotes a natural number once every parameter has one. `IMax(a, b)` is
 zero when `b` is, and the maximum of the two otherwise.
 */
module Levels {
  import opened Naturals

  datatype Level = Zero | Succ(a: Level) | Max(a: Level, b: Level) | IMax(a: Level, b: Level) | Param(name: nat)

  type Assignment = nat -> nat
  type Subst = map<nat, Level>

  // ---------------------------------------------------------------- meaning

  function Eval(l: Level, s: Assignment): nat {
    match l
    case Zero => 0
    case Succ(a) => Eval(a, s) + 1
    case Max(a, b) => MaxNat(Eval(a, s), Eval(b, s))
    case IMax(a, b) => if Eval(b, s) == 0 then 0 else MaxNat(Eval(a, s), Eval(b, s))
    case Param(n) => s(n)
  }

  function AllZero(): Assignment { _ => 0 }

  /** No parameter is assigned zero. */
  ghost predicate Positive(s: Assignment) { forall p :: s(p) > 0 }

  /** `l1 <= l2 + diff` under every assignment. */
  ghost predicate SemLeq(l1: Level, l2: Level, diff: int) { forall s :: Eval(l1, s) <= Eval(l2, s) + diff }

  ghost predicate SemEq(l1: Level, l2: Level) { forall s :: Eval(l1, s) == Eval(l2, s) }

  predicate ImaxFree(l: Level) {
    match l
    case Zero => true
    case Param(_) => true
    case Succ(a) => ImaxFree(a)
    case Max(a, b) => ImaxFree(a) && ImaxFree(b)
    case IMax(_, _) => false
  }

  // ------------------------------------------------------ smart constructors

  predicate IsExplicit(l: Level) {
    match l
    case Zero => true
    case Succ(a) => IsExplicit(a)
    case _ => false
  }

  function ExplicitOffset(l: Level): nat {
    if l.Succ? then 1 + ExplicitOffset(l.a) else 0
  }

  function ToOffset(l: Level): (Level, nat) {
    if l.Succ? then (ToOffset(l.a).0, ToOffset(l.a).1 + 1) else (l, 0)
  }

  /** The counting loop behind `ExplicitOffset`. */
  method CountSuccs(l: Level) returns (n: nat)
    ensures n == ExplicitOffset(l)
  {
    n := 0;
    var cur := l;
    while cur.Succ?
      invariant n + ExplicitOffset(cur) == ExplicitOffset(l)
      decreases cur
    {
      n := n + 1;
      cur := cur.a;
    }
  }

  /** The peeling loop behind `ToOffset`. */
  method PeelSuccs(l: Level) returns (base: Level, k: nat)
    ensures (base, k) == ToOffset(l)
    ensures !base.Succ?
    ensures forall s :: Eval(l, s) == Eval(base, s) + k
  {
    k := 0;
    base := l;
    while base.Succ?
      invariant ToOffset(l) == (ToOffset(base).0, ToOffset(base).1 + k)
      invariant forall s :: Eval(l, s) == Eval(base, s) + k
      decreases base
    {
      k := k + 1;
      base := base.a;
    }
  }

  predicate IsNotZero(l: Level) {
    match l
    case Zero => false
    case Param(_) => false
    case Succ(_) => true
    case Max(a, b) => IsNotZero(a) || IsNotZero(b)
    case IMax(_, b) => IsNotZero(b)
  }

  function MkMax(a: Level, b: Level): Level {
    if IsExplicit(a) && IsExplicit(b) then
      if ExplicitOffset(a) >= ExplicitOffset(b) then a else b
    else if a == b then a
    else if a.Zero? then b
    else if b.Zero? then a
    else if b.Max? && (b.a == a || b.b == a) then b
    else if a.Max? && (a.a == b || a.b == b) then a
    else if ToOffset(a).0 == ToOffset(b).0 then
      if ToOffset(a).1 > ToOffset(b).1 then a else b
    else Max(a, b)
  }

  function MkIMax(a: Level, b: Level): Level {
    if IsNotZero(b) then MkMax(a, b)
    else if b.Zero? then Zero
    else if a.Zero? || a == Succ(Zero) then b
    else if a == b then a
    else IMax(a, b)
  }

  /** A level every node of which its own smart constructor would rebuild unchanged. */
  predicate Canon(l: Level) {
    match l
    case Zero => true
    case Param(_) => true
    case Succ(a) => Canon(a)
    case Max(a, b) => Canon(a) && Canon(b) && MkMax(a, b) == l
    case IMax(a, b) => Canon(a) && Canon(b) && MkIMax(a, b) == l
  }

  /** The levels the smart constructors can build are exactly the canonical ones:
      building from canonical parts stays canonical, and rebuilding changes nothing. */
  lemma SmartConstructorsCanon(a: Level, b: Level)
    requires Canon(a) && Canon(b)
    ensures Canon(Succ(a)) && Canon(MkMax(a, b)) && Canon(MkIMax(a, b))
  {}

  lemma {:induction false} ExplicitMeaning(l: Level, s: Assignment)
    requires IsExplicit(l)
    ensures Eval(l, s) == ExplicitOffset(l)
  {
    if l.Succ? { ExplicitMeaning(l.a, s); }
  }

  lemma {:induction false} OffsetMeaning(l: Level, s: Assignment)
    ensures Eval(l, s) == Eval(ToOffset(l).0, s) + ToOffset(l).1
  {
    if l.Succ? { OffsetMeaning(l.a, s); }
  }

  /** `IsNotZero` decides exactly that no assignment makes the level zero; the
      all-zero assignment is the worst one. */
  lemma {:induction false} NotZeroExact(l: Level, s: Assignment)
    ensures IsNotZero(l) ==> Eval(l, s) > 0
    ensures !IsNotZero(l) ==> Eval(l, AllZero()) == 0
  {
    match l
    case Max(a, b) => NotZeroExact(a, s); NotZeroExact(b, s);
    case IMax(a, b) => NotZeroExact(a, s); NotZeroExact(b, s);
    case _ =>
  }

  lemma MkMaxMeaning(a: Level, b: Level, s: Assignment)
    ensures Eval(MkMax(a, b), s) == MaxNat(Eval(a, s), Eval(b, s))
  {
    hide IsExplicit, ExplicitOffset, ToOffset;
    if IsExplicit(a) && IsExplicit(b) {
      ExplicitMeaning(a, s);
      ExplicitMeaning(b, s);
    } else if a == b || a.Zero? || b.Zero? {
    } else if b.Max? && (b.a == a || b.b == a) {
      assert Eval(b, s) == MaxNat(Eval(b.a, s), Eval(b.b, s));
    } else if a.Max? && (a.a == b || a.b == b) {
      assert Eval(a, s) == MaxNat(Eval(a.a, s), Eval(a.b, s));
    } else if ToOffset(a).0 == ToOffset(b).0 {
      OffsetMeaning(a, s);
      OffsetMeaning(b, s);
    }
  }

  /** Simplification keeps the meaning, under every assignment. */
  lemma SmartConstructorsMeaning(a: Level, b: Level, s: Assignment)
    ensures Eval(MkMax(a, b), s) == Eval(Max(a, b), s)
    ensures Eval(MkIMax(a, b), s) == Eval(IMax(a, b), s)
  {
    MkMaxMeaning(a, b, s);
    NotZeroExact(b, s);
  }

  // ----------------------------------------------------------- instantiation

  function Instantiate(l: Level, subst: Subst): Level {
    match l
    case Zero => l
    case Succ(a) => Succ(Instantiate(a, subst))
    case Max(a, b) => MkMax(Instantiate(a, subst), Instantiate(b, subst))
    case IMax(a, b) => MkIMax(Instantiate(a, subst), Instantiate(b, subst))
    case Param(i) => if i in subst then subst[i] else l
  }

  /** The assignment a substituted level sees: replaced parameters take their replacement's value. */
  function Compose(subst: Subst, s: Assignment): Assignment {
    p => if p in subst then Eval(subst[p], s) else s(p)
  }

  lemma {:induction false} EvalAgree(l: Level, s: Assignment, t: Assignment)
    requires forall p :: s(p) == t(p)
    ensures Eval(l, s) == Eval(l, t)
  {
    match l
    case Succ(a) => EvalAgree(a, s, t);
    case Max(a, b) => EvalAgree(a, s, t); EvalAgree(b, s, t);
    case IMax(a, b) => EvalAgree(a, s, t); EvalAgree(b, s, t);
    case _ =>
  }

  lemma {:induction false} InstantiateMeaning(l: Level, subst: Subst, s: Assignment)
    ensures Eval(Instantiate(l, subst), s) == Eval(l, Compose(subst, s))
  {
    match l
    case Succ(a) => InstantiateMeaning(a, subst, s);
    case Max(a, b) =>
      InstantiateMeaning(a, subst, s);
      InstantiateMeaning(b, subst, s);
      SmartConstructorsMeaning(Instantiate(a, subst), Instantiate(b, subst), s);
    case IMax(a, b) =>
      InstantiateMeaning(a, subst, s);
      InstantiateMeaning(b, subst, s);
      SmartConstructorsMeaning(Instantiate(a, subst), Instantiate(b, subst), s);
    case _ =>
  }

  ghost predicate CanonSubst(subst: Subst) { forall p :: p in subst ==> Canon(subst[p]) }

  lemma {:induction false} InstantiateCanon(l: Level, subst: Subst)
    requires Canon(l) && CanonSubst(subst)
    ensures Canon(Instantiate(l, subst))
    ensures subst == map[] ==> Instantiate(l, subst) == l
  {
    match l
    case Succ(a) => InstantiateCanon(a, subst);
    case Max(a, b) => InstantiateCanon(a, subst); InstantiateCanon(b, subst);
    case IMax(a, b) => InstantiateCanon(a, subst); InstantiateCanon(b, subst);
    case _ =>
  }

  // -------------------------------------------------------------- comparison

  /** `IMax` outweighs `Max`, so replacing one by the other makes progress. */
  function Weight(l: Level): nat {
    match l
    case Zero => 1
    case Param(_) => 1
    case Succ(a) => 1 + Weight(a)
    case Max(a, b) => 1 + Weight(a) + Weight(b)
    case IMax(a, b) => 2 + Weight(a) + Weight(b)
  }

  lemma MkMaxWeight(a: Level, b: Level)
    ensures 1 <= Weight(MkMax(a, b)) <= 1 + Weight(a) + Weight(b)
  {}

  /** Decides `l1 <= l2 + diff`, parameters being universally quantified. */
  predicate Leq(l1: Level, l2: Level, diff: int)
    decreases Weight(l1) + Weight(l2)
  {
    if l1 == l2 then diff >= 0
    else if l1.Succ? then Leq(l1.a, l2, diff - 1)
    else if l2.Succ? then Leq(l1, l2.a, diff + 1)
    else if l1.Max? then Leq(l1.a, l2, diff) && Leq(l1.b, l2, diff)
    else if l2.Max? then Leq(l1, l2.a, diff) || Leq(l1, l2.b, diff)
    else if l1.IMax? && l2.IMax? && (l1.b == l2.b || (Leq(l1.b, l2.b, 0) && Leq(l2.b, l1.b, 0))) then
      MkMaxWeight(l1.a, l1.b);
      MkMaxWeight(l2.a, l2.b);
      Leq(MkMax(l1.a, l1.b), MkMax(l2.a, l2.b), diff)
    else if l1.IMax? then
      MkMaxWeight(l1.a, l1.b);
      Leq(Zero, l2, diff) && Leq(MkMax(l1.a, l1.b), l2, diff)
    else if l2.IMax? then
      MkMaxWeight(l2.a, l2.b);
      Leq(l1, Zero, diff) && Leq(l1, MkMax(l2.a, l2.b), diff)
    else
      match (l1, l2)
      case (Zero, Zero) => diff >= 0
      case (Zero, Param(_)) => diff >= 0
      case (Param(_), Zero) => false
      case (Param(x), Param(y)) => x == y && diff >= 0
      case _ => false
  }

  /** Pushes `Succ` through `Max`. */
  function Normalize(l: Level): Level {
    match l
    case Zero => l
    case Param(_) => l
    case Succ(a) =>
      var n := Normalize(a);
      if n.Max? then MkMax(Succ(n.a), Succ(n.b)) else Succ(n)
    case Max(a, b) => MkMax(Normalize(a), Normalize(b))
    case IMax(a, b) => MkIMax(Normalize(a), Normalize(b))
  }

  predicate IsDefEq(l1: Level, l2: Level) {
    var a := Normalize(l1);
    var b := Normalize(l2);
    Leq(a, b, 0) && Leq(b, a, 0)
  }

  lemma {:induction false} NormalizeMeaning(l: Level, s: Assignment)
    ensures Eval(Normalize(l), s) == Eval(l, s)
  {
    match l
    case Succ(a) =>
      NormalizeMeaning(a, s);
      var n := Normalize(a);
      if n.Max? { MkMaxMeaning(Succ(n.a), Succ(n.b), s); }
    case Max(a, b) =>
      NormalizeMeaning(a, s);
      NormalizeMeaning(b, s);
      SmartConstructorsMeaning(Normalize(a), Normalize(b), s);
    case IMax(a, b) =>
      NormalizeMeaning(a, s);
      NormalizeMeaning(b, s);
      SmartConstructorsMeaning(Normalize(a), Normalize(b), s);
    case _ =>
  }

  lemma {:induction false} NormalizeKeeps(l: Level)
    ensures Canon(l) ==> Canon(Normalize(l))
    ensures ImaxFree(l) ==> ImaxFree(Normalize(l))
    ensures Plain(l) ==> Plain(Normalize(l))
  {
    match l
    case Succ(a) => NormalizeKeeps(a); if ImaxFree(l) { PlainOfImaxFree(Normalize(l)); }
    case Max(a, b) => NormalizeKeeps(a); NormalizeKeeps(b);
    case IMax(a, b) => NormalizeKeeps(a); NormalizeKeeps(b);
    case _ =>
  }

  // ------------------------------------- soundness when no parameter is zero

  /** A canonical level other than `Zero` is positive once every parameter is. */
  lemma {:induction false} CanonPositive(l: Level, s: Assignment)
    requires Canon(l) && !l.Zero? && Positive(s)
    ensures Eval(l, s) > 0
  {
    match l
    case Max(a, b) => CanonPositive(a, s);
    case IMax(a, b) => CanonPositive(b, s);
    case _ =>
  }

  lemma {:induction false} LeqSoundPositive(l1: Level, l2: Level, diff: int, s: Assignment)
    requires Canon(l1) && Canon(l2) && Positive(s)
    requires Leq(l1, l2, diff)
    ensures Eval(l1, s) <= Eval(l2, s) + diff
    decreases Weight(l1) + Weight(l2)
  {
    if l1 == l2 {
    } else if l1.Succ? {
      LeqSoundPositive(l1.a, l2, diff - 1, s);
    } else if l2.Succ? {
      LeqSoundPositive(l1, l2.a, diff + 1, s);
    } else if l1.Max? {
      LeqSoundPositive(l1.a, l2, diff, s);
      LeqSoundPositive(l1.b, l2, diff, s);
    } else if l2.Max? {
      if Leq(l1, l2.a, diff) { LeqSoundPositive(l1, l2.a, diff, s); } else { LeqSoundPositive(l1, l2.b, diff, s); }
    } else if l1.IMax? || l2.IMax? {
      LeqSoundPositiveIMax(l1, l2, diff, s);
    }
  }

  lemma {:induction false} LeqSoundPositiveIMax(l1: Level, l2: Level, diff: int, s: Assignment)
    requires Canon(l1) && Canon(l2) && Positive(s)
    requires l1 != l2 && !l1.Succ? && !l2.Succ? && !l1.Max? && !l2.Max? && (l1.IMax? || l2.IMax?)
    requires Leq(l1, l2, diff)
    ensures Eval(l1, s) <= Eval(l2, s) + diff
    decreases Weight(l1) + Weight(l2), 0
  {
    if l1.IMax? {
      MkMaxWeight(l1.a, l1.b);
      MkMaxMeaning(l1.a, l1.b, s);
      CanonPositive(l1.b, s);
      SmartConstructorsCanon(l1.a, l1.b);
    }
    if l2.IMax? {
      MkMaxWeight(l2.a, l2.b);
      MkMaxMeaning(l2.a, l2.b, s);
      CanonPositive(l2.b, s);
      SmartConstructorsCanon(l2.a, l2.b);
    }
    if l1.IMax? && l2.IMax? && (l1.b == l2.b || (Leq(l1.b, l2.b, 0) && Leq(l2.b, l1.b, 0))) {
      LeqSoundPositive(MkMax(l1.a, l1.b), MkMax(l2.a, l2.b), diff, s);
    } else if l1.IMax? {
      LeqSoundPositive(MkMax(l1.a, l1.b), l2, diff, s);
    } else {
      LeqSoundPositive(l1, MkMax(l2.a, l2.b), diff, s);
    }
  }

  // --------------------------------------- where the comparison is not sound

  ghost predicate SoundAt(s: Assignment) {
    forall l1, l2, diff :: Canon(l1) && Canon(l2) && Leq(l1, l2, diff) ==> Eval(l1, s) <= Eval(l2, s) + diff
  }

  ghost predicate DefEqSoundAt(s: Assignment) {
    forall l1, l2 :: Canon(l1) && Canon(l2) && IsDefEq(l1, l2) ==> Eval(l1, s) == Eval(l2, s)
  }

  /** Two canonical levels the tests call equal, one of them 1 and the other 0 when `w` is 0. */
  function CounterLeft(u: nat, w: nat): Level { Succ(IMax(Param(u), Param(w))) }

  function CounterRight(u: nat, w: nat): Level { IMax(Max(Succ(Param(u)), Succ(Param(w))), Param(w)) }

  lemma CounterExample(u: nat, w: nat, s: Assignment)
    requires u != w && s(w) == 0
    ensures Canon(CounterLeft(u, w)) && Canon(CounterRight(u, w))
    ensures CounterRight(u, w) == MkIMax(MkMax(Succ(Param(u)), Succ(Param(w))), Param(w))
    ensures Leq(CounterLeft(u, w), CounterRight(u, w), 0) && IsDefEq(CounterLeft(u, w), CounterRight(u, w))
    ensures Eval(CounterLeft(u, w), s) == 1 && Eval(CounterRight(u, w), s) == 0
  {
    var pu, pw := Param(u), Param(w);
    var su, sw := Succ(pu), Succ(pw);
    assert ToOffset(pu) == (pu, 0) && ToOffset(pw) == (pw, 0);
    assert ToOffset(su) == (pu, 1) && ToOffset(sw) == (pw, 1);
    assert !IsExplicit(pu) && !IsExplicit(su);
    assert MkMax(su, sw) == Max(su, sw);
    assert MkMax(pu, pw) == Max(pu, pw);
    var m := Max(su, sw);
    assert MkMax(m, pw) == Max(m, pw);
    assert Canon(su) && Canon(sw) && Canon(m);
    CounterForward(pu, pw);
    CounterBackward(pu, pw);
    assert Normalize(pu) == pu && Normalize(pw) == pw;
    assert Normalize(IMax(pu, pw)) == IMax(pu, pw);
    assert Eval(pw, s) == 0 && Eval(IMax(pu, pw), s) == 0;
    assert Normalize(su) == su && Normalize(sw) == sw;
    assert Normalize(CounterLeft(u, w)) == CounterLeft(u, w);
    assert Normalize(m) == m;
    assert Normalize(CounterRight(u, w)) == CounterRight(u, w);
  }

  lemma CounterForward(pu: Level, pw: Level)
    requires pu.Param? && pw.Param? && pu != pw
    requires MkMax(pu, pw) == Max(pu, pw)
    requires MkMax(Max(Succ(pu), Succ(pw)), pw) == Max(Max(Succ(pu), Succ(pw)), pw)
    ensures Leq(Succ(IMax(pu, pw)), IMax(Max(Succ(pu), Succ(pw)), pw), 0)
  {
    var m := Max(Succ(pu), Succ(pw));
    assert Leq(pu, Succ(pu), -1) && Leq(pu, m, -1);
    assert Leq(pw, Succ(pw), -1) && Leq(pw, m, -1);
    assert Leq(pu, Max(m, pw), -1) && Leq(pw, Max(m, pw), -1);
    assert Leq(IMax(pu, pw), IMax(m, pw), -1);
  }

  lemma CounterBackward(pu: Level, pw: Level)
    requires pu.Param? && pw.Param? && pu != pw
    requires MkMax(pu, pw) == Max(pu, pw)
    requires MkMax(Max(Succ(pu), Succ(pw)), pw) == Max(Max(Succ(pu), Succ(pw)), pw)
    ensures Leq(IMax(Max(Succ(pu), Succ(pw)), pw), Succ(IMax(pu, pw)), 0)
  {
    var m := Max(Succ(pu), Succ(pw));
    assert Leq(Succ(pu), Max(pu, pw), 1) && Leq(Succ(pw), Max(pu, pw), 1) && Leq(pw, Max(pu, pw), 1);
    assert Leq(m, Max(pu, pw), 1);
    assert Leq(Max(m, pw), Max(pu, pw), 1);
    assert Leq(IMax(m, pw), IMax(pu, pw), 1);
  }

  /** The comparison, and the equality test, are sound at an assignment for all
      canonical levels if and only if that assignment gives no parameter the value 0. */
  lemma SoundExactlyWherePositive(s: Assignment)
    ensures SoundAt(s) <==> Positive(s)
    ensures DefEqSoundAt(s) <==> Positive(s)
  {
    if Positive(s) {
      forall l1, l2, diff | Canon(l1) && Canon(l2) && Leq(l1, l2, diff)
        ensures Eval(l1, s) <= Eval(l2, s) + diff
      { LeqSoundPositive(l1, l2, diff, s); }
      forall l1, l2 | Canon(l1) && Canon(l2) && IsDefEq(l1, l2)
        ensures Eval(l1, s) == Eval(l2, s)
      {
        NormalizeMeaning(l1, s);
        NormalizeMeaning(l2, s);
        NormalizeKeeps(l1);
        NormalizeKeeps(l2);
        LeqSoundPositive(Normalize(l1), Normalize(l2), 0, s);
        LeqSoundPositive(Normalize(l2), Normalize(l1), 0, s);
      }
    } else {
      var w: nat :| s(w) == 0;
      CounterExample(w + 1, w, s);
    }
  }

  // ---------------------------------------- soundness under every assignment

  /** No `IMax` stands under a `Succ`: the only way the offset of an `IMax` pair turns negative. */
  predicate Plain(l: Level) {
    match l
    case Zero => true
    case Param(_) => true
    case Succ(a) => ImaxFree(a)
    case Max(a, b) => Plain(a) && Plain(b)
    case IMax(a, b) => Plain(a) && Plain(b)
  }

  lemma {:induction false} PlainOfImaxFree(l: Level)
    requires ImaxFree(l)
    ensures Plain(l)
  {
    if l.Max? { PlainOfImaxFree(l.a); PlainOfImaxFree(l.b); }
  }

  /** Sound under every assignment, zero included: imax-free on the left with any
      offset, or no `IMax` under a `Succ` and a non-negative offset. */
  lemma {:induction false} LeqSoundPlain(l1: Level, l2: Level, diff: int, s: Assignment)
    requires Plain(l1) && Plain(l2) && (diff >= 0 || ImaxFree(l1))
    requires Leq(l1, l2, diff)
    ensures Eval(l1, s) <= Eval(l2, s) + diff
    decreases Weight(l1) + Weight(l2)
  {
    if l1 == l2 {
    } else if l1.Succ? {
      PlainOfImaxFree(l1.a);
      LeqSoundPlain(l1.a, l2, diff - 1, s);
    } else if l2.Succ? {
      PlainOfImaxFree(l2.a);
      LeqSoundPlain(l1, l2.a, diff + 1, s);
    } else if l1.Max? {
      LeqSoundPlain(l1.a, l2, diff, s);
      LeqSoundPlain(l1.b, l2, diff, s);
    } else if l2.Max? {
      if Leq(l1, l2.a, diff) { LeqSoundPlain(l1, l2.a, diff, s); } else { LeqSoundPlain(l1, l2.b, diff, s); }
    } else if l1.IMax? || l2.IMax? {
      LeqSoundPlainIMax(l1, l2, diff, s);
    }
  }

  lemma MkMaxPlain(a: Level, b: Level)
    ensures Plain(a) && Plain(b) ==> Plain(MkMax(a, b))
    ensures ImaxFree(a) && ImaxFree(b) ==> ImaxFree(MkMax(a, b))
  {
    hide IsExplicit, ExplicitOffset, ToOffset;
  }

  lemma {:induction false} LeqSoundPlainIMax(l1: Level, l2: Level, diff: int, s: Assignment)
    requires Plain(l1) && Plain(l2) && (diff >= 0 || ImaxFree(l1))
    requires l1 != l2 && !l1.Succ? && !l2.Succ? && !l1.Max? && !l2.Max? && (l1.IMax? || l2.IMax?)
    requires Leq(l1, l2, diff)
    ensures Eval(l1, s) <= Eval(l2, s) + diff
    decreases Weight(l1) + Weight(l2), 0
  {
    hide MkMax;
    if l1.IMax? {
      MkMaxWeight(l1.a, l1.b);
      MkMaxMeaning(l1.a, l1.b, s);
      MkMaxPlain(l1.a, l1.b);
    }
    if l2.IMax? {
      MkMaxWeight(l2.a, l2.b);
      MkMaxMeaning(l2.a, l2.b, s);
      MkMaxPlain(l2.a, l2.b);
    }
    if l1.IMax? && l2.IMax? && (l1.b == l2.b || (Leq(l1.b, l2.b, 0) && Leq(l2.b, l1.b, 0))) {
      LeqSoundPlain(MkMax(l1.a, l1.b), MkMax(l2.a, l2.b), diff, s);
      if l1.b != l2.b {
        LeqSoundPlain(l1.b, l2.b, 0, s);
        LeqSoundPlain(l2.b, l1.b, 0, s);
      }
    } else if l1.IMax? {
      LeqSoundPlain(Zero, l2, diff, s);
      LeqSoundPlain(MkMax(l1.a, l1.b), l2, diff, s);
    } else {
      LeqSoundPlain(l1, Zero, diff, s);
      LeqSoundPlain(l1, MkMax(l2.a, l2.b), diff, s);
    }
  }

  lemma DefEqSoundPlain(l1: Level, l2: Level, s: Assignment)
    requires Plain(l1) && Plain(l2) && IsDefEq(l1, l2)
    ensures Eval(l1, s) == Eval(l2, s)
  {
    NormalizeMeaning(l1, s);
    NormalizeMeaning(l2, s);
    NormalizeKeeps(l1);
    NormalizeKeeps(l2);
    LeqSoundPlain(Normalize(l1), Normalize(l2), 0, s);
    LeqSoundPlain(Normalize(l2), Normalize(l1), 0, s);
  }

  /** The guard of the branch for two `IMax` levels: equal right-hand sides, or each below the other. */
  predicate PairBranch(l1: Level, l2: Level) {
    l1.IMax? && l2.IMax? && l1 != l2 && (l1.b == l2.b || (Leq(l1.b, l2.b, 0) && Leq(l2.b, l1.b, 0)))
  }

  /** The branch at fault, for any parts: below a zero right-hand side both levels are 0, so no answer
      with a negative offset can hold under every assignment. On levels without an `IMax` under a
      `Succ` that is all there is: a yes is right exactly when the offset is non-negative. */
  lemma ImaxPairExact(l1: Level, l2: Level, diff: int)
    requires Canon(l1) && Canon(l2) && PairBranch(l1, l2)
    ensures SemLeq(l1, l2, diff) ==> diff >= 0
    ensures Plain(l1) && Plain(l2) && Leq(l1, l2, diff) ==> (SemLeq(l1, l2, diff) <==> diff >= 0)
  {
    ImaxZero(l1);
    ImaxZero(l2);
    if SemLeq(l1, l2, diff) {
      assert Eval(l1, AllZero()) <= Eval(l2, AllZero()) + diff;
    }
    if Plain(l1) && Plain(l2) && Leq(l1, l2, diff) && diff >= 0 {
      forall s ensures Eval(l1, s) <= Eval(l2, s) + diff { LeqSoundPlain(l1, l2, diff, s); }
    }
  }

  /** A canonical `IMax` has a right-hand side that can be zero, and then is zero itself. */
  lemma ImaxZero(l: Level)
    requires Canon(l) && l.IMax?
    ensures Eval(l, AllZero()) == 0
  {
    MkMaxWeight(l.a, l.b);
    NotZeroExact(l.b, AllZero());
  }

  // --------------------------------------- completeness on imax-free levels

  function Only(p: nat, n: nat): Assignment { q => if q == p then n else 0 }

  lemma {:induction false} ZeroFails(l2: Level, diff: int)
    requires ImaxFree(l2) && !Leq(Zero, l2, diff)
    ensures Eval(l2, AllZero()) + diff < 0
  {
    match l2
    case Succ(b) => ZeroFails(b, diff + 1);
    case Max(a, b) => ZeroFails(a, diff); ZeroFails(b, diff);
    case _ =>
  }

  lemma {:induction false} ParamFails(p: nat, l2: Level, diff: int, n: nat)
    requires ImaxFree(l2) && !Leq(Param(p), l2, diff)
    requires n > Eval(l2, AllZero()) + diff
    ensures Eval(l2, Only(p, n)) + diff < n
  {
    match l2
    case Succ(b) => ParamFails(p, b, diff + 1, n);
    case Max(a, b) => ParamFails(p, a, diff, n); ParamFails(p, b, diff, n);
    case _ =>
  }

  /** Whenever the answer is no, some assignment shows why. */
  lemma {:induction false} LeqWitness(l1: Level, l2: Level, diff: int) returns (s: Assignment)
    requires ImaxFree(l1) && ImaxFree(l2) && !Leq(l1, l2, diff)
    ensures Eval(l1, s) > Eval(l2, s) + diff
    decreases Weight(l1) + Weight(l2)
  {
    s := AllZero();
    if l1 == l2 {
    } else if l1.Succ? {
      s := LeqWitness(l1.a, l2, diff - 1);
    } else if l2.Succ? {
      s := LeqWitness(l1, l2.a, diff + 1);
    } else if l1.Max? {
      if !Leq(l1.a, l2, diff) { s := LeqWitness(l1.a, l2, diff); } else { s := LeqWitness(l1.b, l2, diff); }
    } else if l1.Zero? {
      ZeroFails(l2, diff);
    } else {
      var n: nat := (if Eval(l2, s) + diff > 0 then Eval(l2, s) + diff else 0) + 1;
      ParamFails(l1.name, l2, diff, n);
      s := Only(l1.name, n);
    }
  }

  /** On imax-free levels the comparison is exact. */
  lemma LeqExact(l1: Level, l2: Level, diff: int)
    requires ImaxFree(l1) && ImaxFree(l2)
    ensures Leq(l1, l2, diff) <==> SemLeq(l1, l2, diff)
  {
    if Leq(l1, l2, diff) {
      PlainOfImaxFree(l1);
      PlainOfImaxFree(l2);
      forall s ensures Eval(l1, s) <= Eval(l2, s) + diff { LeqSoundPlain(l1, l2, diff, s); }
    } else {
      var s := LeqWitness(l1, l2, diff);
    }
  }

  lemma SemEqOfNormal(l1: Level, l2: Level)
    ensures SemEq(l1, l2) <==> SemLeq(Normalize(l1), Normalize(l2), 0) && SemLeq(Normalize(l2), Normalize(l1), 0)
  {
    var a, b := Normalize(l1), Normalize(l2);
    forall s ensures Eval(a, s) == Eval(l1, s) && Eval(b, s) == Eval(l2, s) {
      NormalizeMeaning(l1, s);
      NormalizeMeaning(l2, s);
    }
  }

  /** Hence the equality test decides semantic equality there. */
  lemma DefEqExact(l1: Level, l2: Level)
    requires ImaxFree(l1) && ImaxFree(l2)
    ensures IsDefEq(l1, l2) <==> SemEq(l1, l2)
  {
    NormalizeKeeps(l1);
    NormalizeKeeps(l2);
    LeqExact(Normalize(l1), Normalize(l2), 0);
    LeqExact(Normalize(l2), Normalize(l1), 0);
    SemEqOfNormal(l1, l2);
  }

  // ------------------------------------------- exact answers where there is imax

  /** Every `IMax` read as the maximum of its parts: as much as it can be. */
  function Upper(l: Level): Level {
    match l
    case Zero => l
    case Param(_) => l
    case Succ(a) => Succ(Upper(a))
    case Max(a, b) => Max(Upper(a), Upper(b))
    case IMax(a, b) => Max(Upper(a), Upper(b))
  }

  /** Every `IMax` read as 0: as little as it can be. */
  function Lower(l: Level): Level {
    match l
    case Zero => l
    case Param(_) => l
    case Succ(a) => Succ(Lower(a))
    case Max(a, b) => Max(Lower(a), Lower(b))
    case IMax(_, _) => Zero
  }

  lemma {:induction false} BetweenReadings(l: Level, s: Assignment)
    ensures Eval(Lower(l), s) <= Eval(l, s) <= Eval(Upper(l), s)
    ensures ImaxFree(Upper(l)) && ImaxFree(Lower(l)) && (ImaxFree(l) ==> Upper(l) == l && Lower(l) == l)
  {
    match l
    case Succ(a) => BetweenReadings(a, s);
    case Max(a, b) => BetweenReadings(a, s); BetweenReadings(b, s);
    case IMax(a, b) => BetweenReadings(a, s); BetweenReadings(b, s);
    case _ =>
  }

  lemma {:induction false} UpperShape(l: Level, s: Assignment)
    ensures Eval(Upper(l), s) == Eval(Upper(ToOffset(l).0), s) + ToOffset(l).1
    ensures IsExplicit(l) ==> Eval(Upper(l), s) == ExplicitOffset(l)
  {
    if l.Succ? { UpperShape(l.a, s); }
  }

  /** What `MkMax` looks for when it leaves `b` out. */
  predicate Covers(a: Level, b: Level) {
    (IsExplicit(a) && IsExplicit(b) && ExplicitOffset(a) >= ExplicitOffset(b)) || a == b || b.Zero?
    || (a.Max? && (a.a == b || a.b == b)) || (ToOffset(a).0 == ToOffset(b).0 && ToOffset(a).1 >= ToOffset(b).1)
  }

  lemma MkMaxChoice(a: Level, b: Level)
    ensures MkMax(a, b) == Max(a, b) || (MkMax(a, b) == a && Covers(a, b)) || (MkMax(a, b) == b && Covers(b, a))
  {
    hide IsExplicit, ExplicitOffset, ToOffset;
  }

  lemma CoversUpper(a: Level, b: Level, s: Assignment)
    requires Covers(a, b)
    ensures Eval(Upper(a), s) >= Eval(Upper(b), s)
  {
    hide IsExplicit, ExplicitOffset, ToOffset;
    UpperShape(a, s);
    UpperShape(b, s);
    if a.Max? { assert Eval(Upper(a), s) == MaxNat(Eval(Upper(a.a), s), Eval(Upper(a.b), s)); }
  }

  /** Simplifying a maximum does not change its upper reading. */
  lemma UpperMax(a: Level, b: Level, s: Assignment)
    ensures Eval(Upper(MkMax(a, b)), s) == MaxNat(Eval(Upper(a), s), Eval(Upper(b), s))
  {
    hide MkMax, Covers;
    MkMaxChoice(a, b);
    if Covers(a, b) { CoversUpper(a, b, s); }
    if Covers(b, a) { CoversUpper(b, a, s); }
  }

  lemma SemLeqAt(l1: Level, l2: Level, diff: int, s: Assignment)
    requires SemLeq(l1, l2, diff)
    ensures Eval(l1, s) <= Eval(l2, s) + diff
  {}

  lemma SemLeqFails(l1: Level, l2: Level, diff: int) returns (s: Assignment)
    requires !SemLeq(l1, l2, diff)
    ensures Eval(l1, s) > Eval(l2, s) + diff
  {
    s :| Eval(l1, s) > Eval(l2, s) + diff;
  }

  lemma SemLeqMax(a: Level, b: Level, m: Level, l2: Level, diff: int)
    requires forall s :: Eval(m, s) == MaxNat(Eval(a, s), Eval(b, s))
    ensures SemLeq(m, l2, diff) <==> SemLeq(a, l2, diff) && SemLeq(b, l2, diff)
  {
    hide SemLeq, Eval;
    if SemLeq(a, l2, diff) && SemLeq(b, l2, diff) && !SemLeq(m, l2, diff) {
      var s := SemLeqFails(m, l2, diff);
      SemLeqAt(a, l2, diff, s);
      SemLeqAt(b, l2, diff, s);
    }
    if SemLeq(m, l2, diff) && !SemLeq(a, l2, diff) {
      var s := SemLeqFails(a, l2, diff);
      SemLeqAt(m, l2, diff, s);
      assert false;
    }
    if SemLeq(m, l2, diff) && !SemLeq(b, l2, diff) {
      var s := SemLeqFails(b, l2, diff);
      SemLeqAt(m, l2, diff, s);
      assert false;
    }
  }

  lemma SemLeqSucc(l1: Level, l2: Level, diff: int)
    ensures SemLeq(Succ(l1), l2, diff) <==> SemLeq(l1, l2, diff - 1)
    ensures SemLeq(l1, Succ(l2), diff) <==> SemLeq(l1, l2, diff + 1)
  {
    hide SemLeq;
    if SemLeq(l1, l2, diff - 1) && !SemLeq(Succ(l1), l2, diff) {
      var s := SemLeqFails(Succ(l1), l2, diff);
      SemLeqAt(l1, l2, diff - 1, s);
    }
    if SemLeq(Succ(l1), l2, diff) && !SemLeq(l1, l2, diff - 1) {
      var s := SemLeqFails(l1, l2, diff - 1);
      SemLeqAt(Succ(l1), l2, diff, s);
    }
    if SemLeq(l1, l2, diff + 1) && !SemLeq(l1, Succ(l2), diff) {
      var s := SemLeqFails(l1, Succ(l2), diff);
      SemLeqAt(l1, l2, diff + 1, s);
    }
    if SemLeq(l1, Succ(l2), diff) && !SemLeq(l1, l2, diff + 1) {
      var s := SemLeqFails(l1, l2, diff + 1);
      SemLeqAt(l1, Succ(l2), diff, s);
    }
  }

  /** `Succ`s on `Zero` or on a parameter. */
  predicate Atomic(l: Level) { l.Zero? || l.Param? || (l.Succ? && Atomic(l.a)) }

  /** Against a numeral or a parameter with an offset, any level counts for its upper reading, and that exactly. */
  lemma {:induction false} LeqAtomExact(l1: Level, l2: Level, diff: int)
    requires Atomic(l2)
    ensures Leq(l1, l2, diff) <==> SemLeq(Upper(l1), l2, diff)
    decreases Weight(l1) + Weight(l2)
  {
    AtomicFree(l2);
    if ImaxFree(l1) {
      BetweenReadings(l1, AllZero());
      LeqExact(l1, l2, diff);
    } else if l1.Succ? {
      LeqAtomExact(l1.a, l2, diff - 1);
      SemLeqSucc(Upper(l1.a), l2, diff);
    } else if l2.Succ? {
      LeqAtomExact(l1, l2.a, diff + 1);
      SemLeqSucc(Upper(l1), l2.a, diff);
    } else if l1.Max? {
      LeqAtomExact(l1.a, l2, diff);
      LeqAtomExact(l1.b, l2, diff);
      SemLeqMax(Upper(l1.a), Upper(l1.b), Upper(l1), l2, diff);
    } else {
      var m := MkMax(l1.a, l1.b);
      MkMaxWeight(l1.a, l1.b);
      LeqAtomExact(Zero, l2, diff);
      LeqAtomExact(m, l2, diff);
      forall s ensures Eval(Upper(m), s) == Eval(Upper(l1), s) { UpperMax(l1.a, l1.b, s); }
      SemLeqLarger(Zero, Upper(m), l2, diff);
      SemLeqSame(Upper(m), Upper(l1), l2, diff);
    }
  }

  lemma AtomicFree(l: Level)
    requires Atomic(l)
    ensures ImaxFree(l)
  {}

  lemma SemLeqLarger(a: Level, b: Level, l2: Level, diff: int)
    requires forall s :: Eval(a, s) <= Eval(b, s)
    ensures SemLeq(b, l2, diff) ==> SemLeq(a, l2, diff)
  {
    hide SemLeq, Eval;
    if SemLeq(b, l2, diff) && !SemLeq(a, l2, diff) {
      var s := SemLeqFails(a, l2, diff);
      SemLeqAt(b, l2, diff, s);
      assert false;
    }
  }

  lemma SemLeqSame(a: Level, b: Level, l2: Level, diff: int)
    requires forall s :: Eval(a, s) == Eval(b, s)
    ensures SemLeq(a, l2, diff) <==> SemLeq(b, l2, diff)
  {
    SemLeqLarger(a, b, l2, diff);
    SemLeqLarger(b, a, l2, diff);
  }

  /** An imax-free level is below any other exactly when it is below the lower reading of it. */
  lemma {:induction false} LeqFreeExact(l1: Level, l2: Level, diff: int)
    requires ImaxFree(l1)
    ensures Leq(l1, l2, diff) <==> SemLeq(l1, Lower(l2), diff)
    decreases Weight(l1) + Weight(l2)
  {
    if ImaxFree(l2) {
      BetweenReadings(l2, AllZero());
      LeqExact(l1, l2, diff);
    } else if l1.Succ? {
      LeqFreeExact(l1.a, l2, diff - 1);
      SemLeqSucc(l1.a, Lower(l2), diff);
    } else if l2.Succ? {
      LeqFreeExact(l1, l2.a, diff + 1);
      SemLeqSucc(l1, Lower(l2.a), diff);
    } else if l1.Max? {
      LeqFreeExact(l1.a, l2, diff);
      LeqFreeExact(l1.b, l2, diff);
      SemLeqMax(l1.a, l1.b, l1, Lower(l2), diff);
    } else if l2.Max? {
      LeqFreeExact(l1, l2.a, diff);
      LeqFreeExact(l1, l2.b, diff);
      BetweenReadings(l2, AllZero());
      AtomBelowMax(l1, Lower(l2.a), Lower(l2.b), diff);
    } else {
      var m := MkMax(l2.a, l2.b);
      MkMaxWeight(l2.a, l2.b);
      LeqFreeExact(l1, Zero, diff);
      LeqFreeExact(l1, m, diff);
      if SemLeq(l1, Zero, diff) { BelowZero(l1, Lower(m), diff); }
    }
  }

  /** A parameter or 0 is below a maximum only by being below a part of it. */
  lemma AtomBelowMax(l1: Level, a: Level, b: Level, diff: int)
    requires (l1.Zero? || l1.Param?) && ImaxFree(a) && ImaxFree(b)
    ensures SemLeq(l1, Max(a, b), diff) <==> SemLeq(l1, a, diff) || SemLeq(l1, b, diff)
  {
    LeqExact(l1, a, diff);
    LeqExact(l1, b, diff);
    LeqExact(l1, Max(a, b), diff);
  }

  /** The largest imax-free parts a level is the maximum of, `Succ`s pushed inwards. */
  function Leaves(l: Level): seq<Level> {
    match l
    case Succ(a) => Raised(Leaves(a))
    case Max(a, b) => Leaves(a) + Leaves(b)
    case _ => [l]
  }

  function Raised(ls: seq<Level>): (r: seq<Level>)
    ensures |r| == |ls| && forall k :: 0 <= k < |ls| ==> r[k] == Succ(ls[k])
  {
    seq(|ls|, k requires 0 <= k < |ls| => Succ(ls[k]))
  }

  ghost predicate BelowSome(l1: Level, parts: seq<Level>, diff: int) {
    exists k :: 0 <= k < |parts| && SemLeq(l1, parts[k], diff)
  }

  lemma BelowRaised(l1: Level, parts: seq<Level>, diff: int)
    ensures BelowSome(l1, Raised(parts), diff) <==> BelowSome(l1, parts, diff + 1)
    ensures BelowSome(Succ(l1), parts, diff) <==> BelowSome(l1, parts, diff - 1)
  {
    hide SemLeq;
    forall k | 0 <= k < |parts|
      ensures SemLeq(l1, Raised(parts)[k], diff) <==> SemLeq(l1, parts[k], diff + 1)
      ensures SemLeq(Succ(l1), parts[k], diff) <==> SemLeq(l1, parts[k], diff - 1)
    {
      SemLeqSucc(l1, parts[k], diff);
    }
    if BelowSome(l1, parts, diff + 1) {
      var k :| 0 <= k < |parts| && SemLeq(l1, parts[k], diff + 1);
      assert SemLeq(l1, Raised(parts)[k], diff);
    }
  }

  lemma BelowEither(l1: Level, a: seq<Level>, b: seq<Level>, diff: int)
    ensures BelowSome(l1, a + b, diff) <==> BelowSome(l1, a, diff) || BelowSome(l1, b, diff)
  {
    hide SemLeq;
    if k :| 0 <= k < |a| && SemLeq(l1, a[k], diff) { assert (a + b)[k] == a[k]; }
    if k :| 0 <= k < |b| && SemLeq(l1, b[k], diff) { assert (a + b)[|a| + k] == b[k]; }
  }

  /** An `IMax` is below an imax-free level exactly when its upper reading is below a single part of it. */
  lemma {:induction false} LeqImaxExact(l1: Level, l2: Level, diff: int)
    requires l1.IMax? && ImaxFree(l2)
    ensures Leq(l1, l2, diff) <==> BelowSome(Upper(l1), Leaves(l2), diff)
    decreases l2
  {
    hide SemLeq;
    match l2
    case Succ(a) =>
      LeqImaxExact(l1, a, diff + 1);
      BelowRaised(Upper(l1), Leaves(a), diff);
    case Max(a, b) =>
      LeqImaxExact(l1, a, diff);
      LeqImaxExact(l1, b, diff);
      BelowEither(Upper(l1), Leaves(a), Leaves(b), diff);
    case Zero =>
      LeqAtomExact(l1, l2, diff);
      assert Leaves(l2)[0] == l2;
    case Param(_) =>
      LeqAtomExact(l1, l2, diff);
      assert Leaves(l2)[0] == l2;
  }

  /** Two `IMax`es with imax-free parts. When their right-hand sides always agree they compare as the maxima of
      their parts; otherwise the left one has to be below 0. */
  lemma LeqTwoImaxExact(a1: Level, b1: Level, a2: Level, b2: Level, diff: int)
    requires ImaxFree(a1) && ImaxFree(b1) && ImaxFree(a2) && ImaxFree(b2)
    ensures Leq(IMax(a1, b1), IMax(a2, b2), diff)
       <==> if SemEq(b1, b2) then SemLeq(Max(a1, b1), Max(a2, b2), diff) else SemLeq(Max(a1, b1), Zero, diff)
  {
    var l1, l2, m1, m2 := IMax(a1, b1), IMax(a2, b2), MkMax(a1, b1), MkMax(a2, b2);
    LeqExact(b1, b2, 0);
    LeqExact(b2, b1, 0);
    SemEqBothWays(b1, b2);
    forall s ensures Eval(m1, s) == Eval(Max(a1, b1), s) && Eval(m2, s) == Eval(Max(a2, b2), s) {
      MkMaxMeaning(a1, b1, s);
      MkMaxMeaning(a2, b2, s);
    }
    MkMaxPlain(a1, b1);
    MkMaxPlain(a2, b2);
    if l1 == l2 {
      SemLeqSelf(Max(a1, b1), diff);
    } else if SemEq(b1, b2) {
      LeqExact(m1, m2, diff);
      SemLeqSame(m1, Max(a1, b1), m2, diff);
      SemLeqSameRight(Max(a1, b1), m2, Max(a2, b2), diff);
    } else {
      LeqFreeExact(Zero, l2, diff);
      LeqFreeExact(m1, l2, diff);
      SemLeqSame(m1, Max(a1, b1), Zero, diff);
      SemLeqLarger(Zero, Max(a1, b1), Zero, diff);
    }
  }

  lemma SemEqBothWays(a: Level, b: Level)
    ensures SemEq(a, b) <==> SemLeq(a, b, 0) && SemLeq(b, a, 0)
  {
    hide SemLeq, Eval;
    if SemLeq(a, b, 0) && SemLeq(b, a, 0) && !SemEq(a, b) {
      var s :| Eval(a, s) != Eval(b, s);
      SemLeqAt(a, b, 0, s);
      SemLeqAt(b, a, 0, s);
    }
    if SemEq(a, b) && !SemLeq(a, b, 0) {
      var s := SemLeqFails(a, b, 0);
      assert false;
    }
    if SemEq(a, b) && !SemLeq(b, a, 0) {
      var s := SemLeqFails(b, a, 0);
      assert false;
    }
  }

  lemma SemLeqSelf(l: Level, diff: int)
    ensures SemLeq(l, l, diff) <==> diff >= 0
  {
    if SemLeq(l, l, diff) { SemLeqAt(l, l, diff, AllZero()); }
  }

  lemma SemLeqRight(l1: Level, a: Level, b: Level, diff: int)
    requires SemLeq(l1, a, diff) && forall s :: Eval(a, s) == Eval(b, s)
    ensures SemLeq(l1, b, diff)
  {
    hide SemLeq, Eval;
    if !SemLeq(l1, b, diff) {
      var s := SemLeqFails(l1, b, diff);
      SemLeqAt(l1, a, diff, s);
      assert false;
    }
  }

  lemma SemLeqSameRight(l1: Level, a: Level, b: Level, diff: int)
    requires forall s :: Eval(a, s) == Eval(b, s)
    ensures SemLeq(l1, a, diff) <==> SemLeq(l1, b, diff)
  {
    if SemLeq(l1, a, diff) { SemLeqRight(l1, a, b, diff); }
    if SemLeq(l1, b, diff) { SemLeqRight(l1, b, a, diff); }
  }

  /** A larger offset never turns a yes into a no, whatever the levels; every level is below itself. */
  lemma {:induction false} LeqMonotone(l1: Level, l2: Level, diff: int, more: int)
    requires Leq(l1, l2, diff) && diff <= more
    ensures Leq(l1, l2, more)
    decreases Weight(l1) + Weight(l2)
  {
    if l1 == l2 {
    } else if l1.Succ? {
      LeqMonotone(l1.a, l2, diff - 1, more - 1);
    } else if l2.Succ? {
      LeqMonotone(l1, l2.a, diff + 1, more + 1);
    } else if l1.Max? {
      LeqMonotone(l1.a, l2, diff, more);
      LeqMonotone(l1.b, l2, diff, more);
    } else if l2.Max? {
      if Leq(l1, l2.a, diff) { LeqMonotone(l1, l2.a, diff, more); } else { LeqMonotone(l1, l2.b, diff, more); }
    } else if PairBranch(l1, l2) {
      MkMaxWeight(l1.a, l1.b);
      MkMaxWeight(l2.a, l2.b);
      LeqMonotone(MkMax(l1.a, l1.b), MkMax(l2.a, l2.b), diff, more);
    } else if l1.IMax? {
      MkMaxWeight(l1.a, l1.b);
      LeqMonotone(Zero, l2, diff, more);
      LeqMonotone(MkMax(l1.a, l1.b), l2, diff, more);
    } else if l2.IMax? {
      MkMaxWeight(l2.a, l2.b);
      LeqMonotone(l1, Zero, diff, more);
      LeqMonotone(l1, MkMax(l2.a, l2.b), diff, more);
    }
  }

  lemma BelowZero(l1: Level, l2: Level, diff: int)
    requires SemLeq(l1, Zero, diff)
    ensures SemLeq(l1, l2, diff)
  {
    hide SemLeq;
    if !SemLeq(l1, l2, diff) {
      var s := SemLeqFails(l1, l2, diff);
      SemLeqAt(l1, Zero, diff, s);
    }
  }

  /** One `IMax` with imax-free parts on one side. On the right it has to hold already against 0, since the `IMax`
      may be 0; on the left both values the `IMax` switches between have to be below. */
  lemma LeqSingleImaxExact(a: Level, b: Level, free: Level, atom: Level, diff: int)
    requires ImaxFree(a) && ImaxFree(b) && ImaxFree(free) && Atomic(atom)
    ensures Leq(free, IMax(a, b), diff) <==> SemLeq(free, Zero, diff) && SemLeq(free, Max(a, b), diff)
    ensures Leq(IMax(a, b), atom, diff) <==> SemLeq(Zero, atom, diff) && SemLeq(Max(a, b), atom, diff)
  {
    hide Leq, SemLeq;
    LeqFreeExact(free, IMax(a, b), diff);
    if SemLeq(free, Zero, diff) { BelowZero(free, Max(a, b), diff); }
    LeqAtomExact(IMax(a, b), atom, diff);
    BetweenReadings(Max(a, b), AllZero());
    SemLeqLarger(Zero, Max(a, b), atom, diff);
  }

  // ------------------------------------------- what the smart constructors simplify

  function Raise(l: Level, k: nat): Level { if k == 0 then l else Succ(Raise(l, k - 1)) }

  lemma {:induction false} RaiseOffset(l: Level, k: nat)
    requires !l.Succ?
    ensures ToOffset(Raise(l, k)) == (l, k)
    ensures IsExplicit(Raise(l, k)) <==> IsExplicit(l)
    ensures IsExplicit(l) ==> ExplicitOffset(Raise(l, k)) == k
    ensures Weight(Raise(l, k)) == Weight(l) + k
  {
    if k > 0 { RaiseOffset(l, k - 1); }
  }

  /** The documented identities of the maximum, whatever the levels. */
  lemma MaxLaws(a: Level, b: Level)
    ensures MkMax(a, a) == a && MkMax(Zero, a) == a && MkMax(a, Zero) == a
    ensures MkMax(a, Max(a, b)) == Max(a, b) && MkMax(b, Max(a, b)) == Max(a, b)
    ensures MkMax(Max(a, b), a) == Max(a, b) && MkMax(Max(a, b), b) == Max(a, b)
  {
    hide ToOffset;
    if a.Max? { assert Weight(a.a) < Weight(a) && Weight(a.b) < Weight(a) < Weight(Max(a, b)); }
    if b.Max? { assert Weight(b.a) < Weight(b) && Weight(b.b) < Weight(b) < Weight(Max(a, b)); }
  }

  /** Of two levels over one base the one with more `Succ`s is the maximum; numerals are the case `base == Zero`. */
  lemma MaxOfRaised(base: Level, j: nat, k: nat)
    requires !base.Succ?
    ensures MkMax(Raise(base, j), Raise(base, k)) == Raise(base, if j >= k then j else k)
  {
    RaiseOffset(base, j);
    RaiseOffset(base, k);
    if base.Max? { assert Weight(base.a) < Weight(base) && Weight(base.b) < Weight(base); }
    hide IsExplicit, ExplicitOffset, ToOffset;
  }

  /** Parameters with offsets, and two different ones, stay a maximum. */
  lemma MaxOfParams(p: nat, q: nat, j: nat, k: nat)
    requires p != q
    ensures MkMax(Raise(Param(p), j), Raise(Param(q), k)) == Max(Raise(Param(p), j), Raise(Param(q), k))
  {
    RaiseOffset(Param(p), j);
    RaiseOffset(Param(q), k);
    hide IsExplicit, ExplicitOffset, ToOffset;
  }

  ghost predicate NeverZero(l: Level) { forall s :: Eval(l, s) > 0 }

  /** The documented identities of `imax`: over a level that is never 0 it is the maximum; over any other it
      disappears below 0, 1 and the level itself. */
  lemma IMaxLaws(a: Level, b: Level)
    ensures NeverZero(b) ==> MkIMax(a, b) == MkMax(a, b)
    ensures MkIMax(a, Zero) == Zero && MkIMax(Zero, b) == b && MkIMax(b, b) == b
    ensures !NeverZero(b) ==> MkIMax(Succ(Zero), b) == b
    ensures !NeverZero(b) && !b.Zero? && !a.Zero? && a != Succ(Zero) && a != b ==> MkIMax(a, b) == IMax(a, b)
  {
    NotZeroExact(b, AllZero());
    if IsNotZero(b) {
      forall s ensures Eval(b, s) > 0 { NotZeroExact(b, s); }
    } else {
      assert Eval(b, AllZero()) == 0;
    }
    MaxLaws(b, b);
  }

  /** Normalising pushes any number of `Succ`s through a maximum. */
  lemma {:induction false} NormalizePushes(p: nat, q: nat, k: nat)
    requires p != q
    ensures Normalize(Raise(Max(Param(p), Param(q)), k)) == Max(Raise(Param(p), k), Raise(Param(q), k))
  {
    MaxOfParams(p, q, k, k);
    if k > 0 { NormalizePushes(p, q, k - 1); }
  }
}
